/**
 What the three stream framers have in common. A framer looks at the front of
 the buffer and decides: wait for more bytes, discard some, hand out a frame,
 or give the stream up. `Scan` is the loop each framer runs on that decision;
 the gateway calls it again whenever more bytes arrive.
 */
module Framing {
  import opened Bytes

  datatype Decision =
    | More                              // not enough bytes to tell
    | Skip(used: nat)                   // discard `used` bytes
    | Emit(frame: Bytes, used: nat)     // a frame, made of the first `used` bytes
    | Reject                            // the stream cannot be this family's

  type Decide = Bytes -> Decision

  /** Every decision to consume consumes something that is there. */
  ghost predicate Advances(d: Decide) {
    forall b: Bytes :: (d(b).Skip? || d(b).Emit?) ==> 0 < d(b).used <= |b|
  }

  /** Bytes that arrive later never change a decision already taken. */
  ghost predicate Settled(d: Decide) {
    forall b: Bytes, x: Bytes {:trigger d(b + x)} :: !d(b).More? ==> d(b + x) == d(b)
  }

  ghost predicate Framer(d: Decide) {
    Advances(d) && Settled(d)
  }

  /** The frames found so far, what is still buffered, and whether the loop gave up. */
  datatype Scanned = Scanned(frames: seq<Bytes>, rest: Bytes, rejected: bool) {
    function Before(frame: Bytes): Scanned {
      this.(frames := [frame] + frames)
    }

    function After(earlier: seq<Bytes>): Scanned {
      this.(frames := earlier + frames)
    }
  }

  ghost function Scan(d: Decide, buffer: Bytes): Scanned
    requires Advances(d)
    decreases |buffer|
  {
    match d(buffer)
    case More => Scanned([], buffer, false)
    case Reject => Scanned([], buffer, true)
    case Skip(n) => Scan(d, buffer[n..])
    case Emit(frame, n) => Scan(d, buffer[n..]).Before(frame)
  }

  lemma AfterBefore(s: Scanned, frame: Bytes, earlier: seq<Bytes>)
    ensures s.After(earlier).Before(frame) == s.After([frame] + earlier)
  {
    assert [frame] + (earlier + s.frames) == ([frame] + earlier) + s.frames;
  }

  /** One turn of a framer's loop, in the form its invariant needs. */
  lemma ScanStep(d: Decide, buffer: Bytes, earlier: seq<Bytes>)
    requires Advances(d)
    ensures d(buffer).More? ==> Scan(d, buffer).After(earlier) == Scanned(earlier, buffer, false)
    ensures d(buffer).Reject? ==> Scan(d, buffer).After(earlier) == Scanned(earlier, buffer, true)
    ensures d(buffer).Skip? ==> Scan(d, buffer).After(earlier) == Scan(d, buffer[d(buffer).used..]).After(earlier)
    ensures d(buffer).Emit? ==>
      Scan(d, buffer).After(earlier) == Scan(d, buffer[d(buffer).used..]).After(earlier + [d(buffer).frame])
  {
    if d(buffer).Emit? {
      var later := Scan(d, buffer[d(buffer).used..]).frames;
      assert earlier + ([d(buffer).frame] + later) == (earlier + [d(buffer).frame]) + later;
    } else if !d(buffer).Skip? {
      assert earlier + [] == earlier;
    }
  }

  /** What holds of every frame a decision can emit holds of every frame of a scan. */
  lemma {:induction false} EveryFrame(d: Decide, p: Bytes -> bool, buffer: Bytes)
    requires Advances(d)
    requires forall b: Bytes :: d(b).Emit? ==> p(d(b).frame)
    ensures forall f :: f in Scan(d, buffer).frames ==> p(f)
    decreases |buffer|
  {
    match d(buffer)
    case More =>
    case Reject =>
    case Skip(n) => EveryFrame(d, p, buffer[n..]);
    case Emit(frame, n) => EveryFrame(d, p, buffer[n..]);
  }

  /** A framer that never rejects reads the whole stream. */
  lemma {:induction false} NeverRejects(d: Decide, buffer: Bytes)
    requires Advances(d)
    requires forall b: Bytes :: !d(b).Reject?
    ensures !Scan(d, buffer).rejected
    decreases |buffer|
  {
    match d(buffer)
    case More =>
    case Skip(n) => NeverRejects(d, buffer[n..]);
    case Emit(frame, n) => NeverRejects(d, buffer[n..]);
  }

  /**
   Scanning more bytes later is the same as having had them at once: what an
   earlier call handed out stays, and only its remainder matters from then on.
   */
  lemma {:induction false} ScanLater(d: Decide, buffer: Bytes, more: Bytes)
    requires Framer(d)
    ensures Scan(d, buffer).rejected ==>
      Scan(d, buffer + more).rejected && Scan(d, buffer + more).frames == Scan(d, buffer).frames
    ensures !Scan(d, buffer).rejected ==>
      Scan(d, buffer + more) == Scan(d, Scan(d, buffer).rest + more).After(Scan(d, buffer).frames)
    decreases |buffer|
  {
    var s := Scan(d, buffer);
    match d(buffer)
    case More =>
      assert Scan(d, buffer + more).After([]) == Scan(d, buffer + more);
    case Reject =>
      assert d(buffer + more) == d(buffer);
    case Skip(n) =>
      assert d(buffer + more) == d(buffer);
      assert (buffer + more)[n..] == buffer[n..] + more;
      ScanLater(d, buffer[n..], more);
    case Emit(frame, n) =>
      assert d(buffer + more) == d(buffer);
      assert (buffer + more)[n..] == buffer[n..] + more;
      ScanLater(d, buffer[n..], more);
      var tail := Scan(d, buffer[n..]);
      AfterBefore(Scan(d, tail.rest + more), frame, tail.frames);
  }

  /** The remainder of a scan that was not rejected is waiting for more bytes. */
  lemma {:induction false} RestWaits(d: Decide, buffer: Bytes)
    requires Advances(d)
    ensures !Scan(d, buffer).rejected ==> d(Scan(d, buffer).rest).More?
    ensures |Scan(d, buffer).rest| <= |buffer|
    decreases |buffer|
  {
    match d(buffer)
    case More =>
    case Reject =>
    case Skip(n) => RestWaits(d, buffer[n..]);
    case Emit(frame, n) => RestWaits(d, buffer[n..]);
  }

  /** The scan takes a decision at offset `n` of the buffer. */
  ghost predicate Reaches(d: Decide, buffer: Bytes, n: nat)
    requires Advances(d)
    decreases |buffer|
  {
    || n == 0
    || ((d(buffer).Skip? || d(buffer).Emit?) && d(buffer).used <= n
        && Reaches(d, buffer[d(buffer).used..], n - d(buffer).used))
  }

  /** From an offset it reaches, the scan goes on as if the buffer began there. */
  lemma {:induction false} ReachedSplits(d: Decide, buffer: Bytes, n: nat) returns (earlier: seq<Bytes>)
    requires Advances(d) && Reaches(d, buffer, n)
    ensures n <= |buffer| && Scan(d, buffer) == Scan(d, buffer[n..]).After(earlier)
    decreases |buffer|
  {
    if n == 0 {
      earlier := [];
      assert Scan(d, buffer).After([]) == Scan(d, buffer);
      assert buffer[0..] == buffer;
    } else {
      var used := d(buffer).used;
      var later := ReachedSplits(d, buffer[used..], n - used);
      assert buffer[used..][n - used..] == buffer[n..];
      if d(buffer).Emit? {
        AfterBefore(Scan(d, buffer[n..]), d(buffer).frame, later);
        earlier := [d(buffer).frame] + later;
      } else {
        earlier := later;
      }
    }
  }

  // ------------------------------------------------------------------
  // Feeding a stream in pieces
  // ------------------------------------------------------------------

  /** The most bytes a framer may leave buffered; None when it never complains. */
  datatype Limit = Unlimited | AtMost(bytes: nat) {
    predicate Exceeded(rest: Bytes) {
      AtMost? && |rest| > bytes
    }
  }

  /** One call of a framer raises when it rejects the stream or leaves too much behind. */
  ghost predicate Raises(d: Decide, limit: Limit, buffer: Bytes)
    requires Advances(d)
  {
    Scan(d, buffer).rejected || limit.Exceeded(Scan(d, buffer).rest)
  }

  /** What the connection loop sees: frames handed out by the calls that returned. */
  datatype Fed = Fed(frames: seq<Bytes>, rest: Bytes, raised: bool)

  ghost function Feed(d: Decide, limit: Limit, buffer: Bytes, chunks: seq<Bytes>): Fed
    requires Advances(d)
    decreases |chunks|
  {
    if chunks == [] then Fed([], buffer, false)
    else if Raises(d, limit, buffer + chunks[0]) then Fed([], buffer, true)
    else
      var now := Scan(d, buffer + chunks[0]);
      var later := Feed(d, limit, now.rest, chunks[1..]);
      later.(frames := now.frames + later.frames)
  }

  /** Some call of the chunked run leaves more than the limit allows. */
  ghost predicate Overflows(d: Decide, limit: Limit, buffer: Bytes, chunks: seq<Bytes>)
    requires Advances(d)
  {
    exists k :: 0 < k <= |chunks| && limit.Exceeded(Scan(d, buffer + Concat(chunks[..k])).rest)
  }

  lemma OverflowStep(d: Decide, limit: Limit, buffer: Bytes, chunks: seq<Bytes>)
    requires Framer(d)
    requires chunks != [] && !Scan(d, buffer + chunks[0]).rejected
    ensures Overflows(d, limit, buffer, chunks) <==>
      limit.Exceeded(Scan(d, buffer + chunks[0]).rest)
      || Overflows(d, limit, Scan(d, buffer + chunks[0]).rest, chunks[1..])
  {
    var first := buffer + chunks[0];
    var rest := Scan(d, first).rest;
    forall k | 0 < k <= |chunks|
      ensures Scan(d, buffer + Concat(chunks[..k])).rest
           == if k == 1 then rest else Scan(d, rest + Concat(chunks[1..][..k - 1])).rest
    {
      var tail := Concat(chunks[1..][..k - 1]);
      assert chunks[..k][1..] == chunks[1..][..k - 1];
      assert buffer + (chunks[0] + tail) == first + tail;
      ScanLater(d, first, tail);
      if k == 1 {
        assert first + tail == first;
      }
    }
    if Overflows(d, limit, rest, chunks[1..]) {
      var j :| 0 < j <= |chunks[1..]| && limit.Exceeded(Scan(d, rest + Concat(chunks[1..][..j])).rest);
      assert limit.Exceeded(Scan(d, buffer + Concat(chunks[..j + 1])).rest);
    }
    if limit.Exceeded(rest) {
      assert limit.Exceeded(Scan(d, buffer + Concat(chunks[..1])).rest);
    }
  }

  /**
   Chunking independence. However a stream is cut up, the pieces yield the
   frames and remainder of one call on the whole stream, unless some call
   raises; and a call raises exactly when the whole stream is rejected or some
   call of the cut-up run leaves more than the limit.
   */
  lemma {:induction false} ChunkingIndependence(d: Decide, limit: Limit, buffer: Bytes, chunks: seq<Bytes>)
    requires Framer(d)
    requires d(buffer).More?
    ensures var whole, fed := Scan(d, buffer + Concat(chunks)), Feed(d, limit, buffer, chunks);
      && (fed.raised <==> whole.rejected || Overflows(d, limit, buffer, chunks))
      && (!fed.raised ==> fed.frames == whole.frames && fed.rest == whole.rest)
      && fed.frames <= whole.frames
    decreases |chunks|
  {
    if chunks == [] {
      assert buffer + Concat(chunks) == buffer;
    } else {
      var first := buffer + chunks[0];
      var now := Scan(d, first);
      var tail := Concat(chunks[1..]);
      assert buffer + Concat(chunks) == first + tail;
      ScanLater(d, first, tail);
      if !now.rejected {
        OverflowStep(d, limit, buffer, chunks);
        RestWaits(d, first);
        ChunkingIndependence(d, limit, now.rest, chunks[1..]);
      }
    }
  }

  // ------------------------------------------------------------------
  // Streams made of whole frames
  // ------------------------------------------------------------------

  /** On its own, `unit` is handed out as `frame`, all of it used. */
  ghost predicate Whole(d: Decide, unit: Bytes, frame: Bytes) {
    d(unit) == Emit(frame, |unit|)
  }

  /** A stream of whole units followed by anything splits back into exactly those units. */
  lemma {:induction false} ScanUnits(d: Decide, units: seq<Bytes>, frames: seq<Bytes>, tail: Bytes)
    requires Framer(d)
    requires |units| == |frames|
    requires forall i :: 0 <= i < |units| ==> Whole(d, units[i], frames[i])
    ensures Scan(d, Concat(units) + tail) == Scan(d, tail).After(frames)
    decreases |units|
  {
    if units == [] {
      assert Concat(units) + tail == tail;
      assert Scan(d, tail).After([]) == Scan(d, tail);
    } else {
      var later := Concat(units[1..]) + tail;
      assert Concat(units) + tail == units[0] + later;
      assert Whole(d, units[0], frames[0]);
      assert d(units[0] + later) == d(units[0]);
      assert (units[0] + later)[|units[0]|..] == later;
      forall i | 0 <= i < |units[1..]|
        ensures Whole(d, units[1..][i], frames[1..][i])
      {
        assert Whole(d, units[i + 1], frames[i + 1]);
      }
      ScanUnits(d, units[1..], frames[1..], tail);
      AfterBefore(Scan(d, tail), frames[0], frames[1..]);
      assert [frames[0]] + frames[1..] == frames;
    }
  }
}
