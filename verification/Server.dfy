/**
 The read loop of one connection: probe, top-up, family detection, and then
 framing whatever each read adds to the buffer.
 */
module Server {
  import opened Common
  import opened Bytes
  import opened Framing
  import opened Detect
  import Gt06
  import Gps103
  import Teltonika
  import TeltonikaStream

  /** What one read of the socket yields. */
  datatype Read = Data(bytes: Bytes) | Timeout | Eof {
    predicate Received() {
      Data? && bytes != []
    }
  }

  /** What became of a connection: the frames its handler was given, and whether the framer raised. */
  datatype Session =
    | Probe
    | Unrecognised
    | Served(family: Family, handled: seq<Bytes>, raised: bool)

  datatype Config = Config(enabled: set<Family>, limits: Limits)

  const SNIFF_BYTES := 5

  /** The data after topping up to five bytes, and the reads still to come. */
  function TopUp(data: Bytes, received: seq<Read>): (Bytes, seq<Read>)
    decreases |received|
  {
    if |data| >= SNIFF_BYTES || received == [] then (data, received)
    else if !received[0].Received() then (data, received[1..])
    else TopUp(data + received[0].bytes, received[1..])
  }

  /** The pieces received before the connection ends or times out. */
  function Chunks(received: seq<Read>): seq<Bytes> {
    if received == [] || !received[0].Received() then [] else [received[0].bytes] + Chunks(received[1..])
  }

  // ------------------------------------------------------------------
  // What the reads say by themselves
  // ------------------------------------------------------------------

  /** Everything the reads brought, in order. */
  function Brought(received: seq<Read>): Bytes
    decreases |received|
  {
    if received == [] then []
    else
      var last := received[|received| - 1];
      Brought(received[..|received| - 1]) + if last.Data? then last.bytes else []
  }

  /**
   The first `first` reads are those before the family is decided: each but the
   last brought something and left fewer than five bytes, and the last reached
   five, brought nothing, or was the last there is.
   */
  ghost predicate FirstBytes(received: seq<Read>, first: nat) {
    && 0 < first <= |received|
    && (forall i :: 0 <= i < first - 1 ==> received[i].Received())
    && (forall i :: 0 < i < first ==> |Brought(received[..i])| < SNIFF_BYTES)
    && (|Brought(received[..first])| >= SNIFF_BYTES || !received[first - 1].Received() || first == |received|)
  }

  /** From there on the connection goes on to the first read that brings nothing. */
  ghost predicate StreamEnd(received: seq<Read>, first: nat, end: nat) {
    && first <= end <= |received|
    && (forall i :: first <= i < end ==> received[i].Received())
    && (end < |received| ==> !received[end].Received())
  }

  lemma BroughtStep(received: seq<Read>, n: nat)
    requires n < |received|
    ensures Brought(received[..n + 1]) == Brought(received[..n]) + if received[n].Data? then received[n].bytes else []
  {
    assert received[..n + 1][..n] == received[..n];
  }

  /** After `closing` frames the handler has closed the writer, and no more are handled. */
  function UpTo(frames: seq<Bytes>, closing: Option<nat>): seq<Bytes> {
    if closing.Some? && closing.value < |frames| then frames[..closing.value] else frames
  }

  ghost function SessionOf(c: Config, received: seq<Read>, closing: Option<nat>): Session {
    if received == [] || !received[0].Received() then Probe
    else
      var (data, later) := TopUp(received[0].bytes, received[1..]);
      match DetectProtocol(data, c.enabled)
      case None => Unrecognised
      case Some(f) =>
        FamiliesFrame(f, c.limits);
        var fed := Feed(DecideFor(f, c.limits), LimitFor(f, c.limits), [], [data] + Chunks(later));
        Served(f, UpTo(fed.frames, closing), fed.raised)
  }

  datatype Extracted = Frames(frames: seq<Bytes>, rest: Bytes) | Raised

  /** The framer the pipeline table gives for the family. */
  method Extract(f: Family, l: Limits, buffer: Bytes) returns (r: Extracted)
    ensures Advances(DecideFor(f, l))
    ensures var s := Scan(DecideFor(f, l), buffer);
      r == if Framing.Raises(DecideFor(f, l), LimitFor(f, l), buffer) then Raised else Frames(s.frames, s.rest)
  {
    hide Advances, Settled, Scan;
    FamiliesFrame(f, l);
    match f
    case GT06 =>
      var packets, rest := Gt06.ExtractPackets(buffer);
      r := Frames(packets, rest);
    case GPS103 =>
      var extracted := Gps103.ExtractMessages(l.gps103Unframed, buffer);
      r := if extracted.FrameOverflow? then Raised else Frames(extracted.messages, extracted.rest);
    case TELTONIKA =>
      var extracted := TeltonikaStream.ExtractFrames(l.teltonikaPacket, buffer);
      r := if extracted.FrameError? then Raised else Frames(extracted.frames, extracted.rest);
  }

  lemma UpToConcat(a: seq<Bytes>, b: seq<Bytes>, closing: Option<nat>)
    ensures UpTo(a + b, closing) ==
      if closing.Some? && closing.value <= |a| then UpTo(a, closing)
      else a + UpTo(b, if closing.Some? then Some(closing.value - |a|) else None)
  {
    if closing.Some? {
      if closing.value <= |a| {
        assert (a + b)[..closing.value] == a[..closing.value];
      } else if closing.value < |a + b| {
        assert (a + b)[..closing.value] == a + b[..closing.value - |a|];
      }
    }
  }

  /**
   A device's first segment may come in tiny pieces: what the reads before the
   decision brought is all kept.
   */
  method ReadFirstBytes(received: seq<Read>) returns (data: Bytes, next: nat)
    requires received != [] && received[0].Received()
    ensures FirstBytes(received, next) && data == Brought(received[..next])
    ensures (data, received[next..]) == TopUp(received[0].bytes, received[1..])
  {
    hide Brought;
    data := received[0].bytes;
    next := 1;
    BroughtNothing(received);
    BroughtStep(received, 0);
    while |data| < SNIFF_BYTES && next < |received|
      invariant 1 <= next <= |received|
      invariant data == Brought(received[..next])
      invariant forall i :: 0 < i < next ==> |Brought(received[..i])| < SNIFF_BYTES
      invariant forall i :: 0 <= i < next ==> received[i].Received()
      invariant TopUp(data, received[next..]) == TopUp(received[0].bytes, received[1..])
      decreases |received| - next
    {
      var more := received[next];
      BroughtStep(received, next);
      assert received[next..][1..] == received[next + 1..];
      next := next + 1;
      if !more.Received() {
        return;
      }
      data := data + more.bytes;
    }
  }

  lemma BroughtNothing(received: seq<Read>)
    ensures Brought(received[..0]) == []
  {}

  /** Hands a batch to the handler, stopping once the handler has closed the writer. */
  method HandleBatch(batch: seq<Bytes>, before: seq<Bytes>, ghost delivered: seq<Bytes>, closing: Option<nat>)
    returns (handled: seq<Bytes>)
    requires before == UpTo(delivered, closing)
    ensures handled == UpTo(delivered + batch, closing)
  {
    handled := before;
    assert delivered + batch[..0] == delivered;
    for i := 0 to |batch|
      invariant handled == UpTo(delivered + batch[..i], closing)
    {
      if closing.Some? && |handled| >= closing.value {
        UpToConcat(delivered + batch[..i], batch[i..], closing);
        assert delivered + batch == delivered + batch[..i] + batch[i..];
        return;
      }
      handled := handled + [batch[i]];
      assert delivered + batch[..i + 1] == delivered + batch[..i] + [batch[i]];
    }
    assert batch[..|batch|] == batch;
  }

  /** Frames, handles and reads on until the stream ends or its framer raises. */
  method ReadLoop(f: Family, l: Limits, data: Bytes, received: seq<Read>, closing: Option<nat>)
    returns (handled: seq<Bytes>, raised: bool)
    ensures Advances(DecideFor(f, l))
    ensures var fed := Feed(DecideFor(f, l), LimitFor(f, l), [], [data] + Chunks(received));
      handled == UpTo(fed.frames, closing) && raised == fed.raised
  {
    hide Scan, Feed, DecideFor, LimitFor, Advances, Settled, Framing.Raises, UpTo, Chunks;
    FamiliesFrame(f, l);
    ghost var d, limit := DecideFor(f, l), LimitFor(f, l);
    ghost var all := Feed(d, limit, [], [data] + Chunks(received));
    ghost var delivered: seq<Bytes> := [];
    ghost var before: Bytes, chunk: Bytes := [], data;
    var next := 0;
    var buffer := data;
    handled, raised := [], false;
    UpToNothing(closing);
    assert before + chunk == buffer && received[0..] == received;
    AppendNothing(all);
    while true
      invariant next <= |received|
      invariant buffer == before + chunk
      invariant all == Append(delivered, Feed(d, limit, before, [chunk] + Chunks(received[next..])))
      invariant handled == UpTo(delivered, closing)
      decreases |received| - next
    {
      FeedStep(d, limit, before, chunk, Chunks(received[next..]));
      var extracted := Extract(f, l, buffer);
      if extracted.Raised? {
        assert delivered + [] == delivered;
        return handled, true;
      }
      handled := HandleBatch(extracted.frames, handled, delivered, closing);
      buffer := extracted.rest;
      AppendTwice(delivered, extracted.frames, Feed(d, limit, buffer, Chunks(received[next..])));
      delivered := delivered + extracted.frames;
      ChunksStep(received[next..]);
      if next == |received| || !received[next].Received() {
        FeedNothing(d, limit, buffer);
        assert delivered + [] == delivered;
        return handled, false;
      }
      before, chunk := buffer, received[next].bytes;
      buffer := buffer + received[next].bytes;
      assert received[next..][1..] == received[next + 1..];
      next := next + 1;
    }
  }

  /** What earlier calls handed out, in front of what later ones do. */
  function Append(delivered: seq<Bytes>, later: Fed): Fed {
    later.(frames := delivered + later.frames)
  }

  lemma AppendNothing(later: Fed)
    ensures Append([], later) == later
  {
    assert [] + later.frames == later.frames;
  }

  lemma AppendTwice(a: seq<Bytes>, b: seq<Bytes>, later: Fed)
    ensures Append(a, Append(b, later)) == Append(a + b, later)
  {
    assert a + (b + later.frames) == (a + b) + later.frames;
  }

  lemma UpToNothing(closing: Option<nat>)
    ensures UpTo([], closing) == []
  {}

  lemma ChunksStep(received: seq<Read>)
    ensures Chunks(received) ==
      if received == [] || !received[0].Received() then [] else [received[0].bytes] + Chunks(received[1..])
  {}

  method HandleDevice(c: Config, received: seq<Read>, closing: Option<nat>) returns (session: Session)
    ensures session == SessionOf(c, received, closing)
  {
    hide Feed, DecideFor, Advances, DetectProtocol, UpTo, Chunks, TopUp;
    if received == [] || !received[0].Received() {
      return Probe;
    }
    var data, next := ReadFirstBytes(received);
    var protocol := DetectProtocol(data, c.enabled);
    if protocol.None? {
      return Unrecognised;
    }
    var handled, raised := ReadLoop(protocol.value, c.limits, data, received[next..], closing);
    session := Served(protocol.value, handled, raised);
  }

  lemma FeedNothing(d: Decide, limit: Limit, buffer: Bytes)
    requires Advances(d)
    ensures Feed(d, limit, buffer, []) == Fed([], buffer, false)
  {}

  lemma FeedStep(d: Decide, limit: Limit, before: Bytes, chunk: Bytes, later: seq<Bytes>)
    requires Advances(d)
    ensures Framing.Raises(d, limit, before + chunk) ==>
      Feed(d, limit, before, [chunk] + later).frames == [] && Feed(d, limit, before, [chunk] + later).raised
    ensures !Framing.Raises(d, limit, before + chunk) ==>
      var now := Scan(d, before + chunk);
      Feed(d, limit, before, [chunk] + later) == Append(now.frames, Feed(d, limit, now.rest, later))
  {
    hide Scan, Advances, Framing.Raises;
    assert ([chunk] + later)[1..] == later;
  }

  /** Which reads come before the decision, and which belong to the connection at all. */
  lemma SessionReads(received: seq<Read>) returns (first: nat, end: nat)
    requires received != [] && received[0].Received()
    ensures FirstBytes(received, first) && StreamEnd(received, first, end)
  {
    hide Brought;
    first := 1;
    BroughtNothing(received);
    while |Brought(received[..first])| < SNIFF_BYTES && first < |received| && received[first - 1].Received()
      invariant 1 <= first <= |received|
      invariant forall i :: 0 <= i < first - 1 ==> received[i].Received()
      invariant forall i :: 0 < i < first ==> |Brought(received[..i])| < SNIFF_BYTES
      decreases |received| - first
    {
      first := first + 1;
    }
    end := first;
    while end < |received| && received[end].Received()
      invariant first <= end <= |received|
      invariant forall i :: first <= i < end ==> received[i].Received()
    {
      end := end + 1;
    }
  }

  /** The top-up from the `n`-th read on, when none of those before brought five bytes or nothing. */
  lemma {:induction false} TopUpFrom(received: seq<Read>, first: nat, n: nat)
    requires FirstBytes(received, first) && 0 < n <= first && (n < first || received[first - 1].Received())
    ensures TopUp(Brought(received[..n]), received[n..]) == (Brought(received[..first]), received[first..])
    decreases first - n
  {
    hide Brought;
    if n < first {
      BroughtStep(received, n);
      assert received[n..][1..] == received[n + 1..];
      assert Brought(received[..n]) + [] == Brought(received[..n]);
      if n + 1 < first || received[first - 1].Received() {
        TopUpFrom(received, first, n + 1);
        assert received[n].Received();
      }
    } else if |Brought(received[..n])| < SNIFF_BYTES {
      assert received[first..] == [];
    }
  }

  /** The data sniffed and the reads left are what the reads themselves say. */
  lemma TopUpIs(received: seq<Read>, first: nat)
    requires received != [] && received[0].Received() && FirstBytes(received, first)
    ensures TopUp(received[0].bytes, received[1..]) == (Brought(received[..first]), received[first..])
  {
    hide TopUp, Brought;
    BroughtNothing(received);
    BroughtStep(received, 0);
    assert [] + received[0].bytes == received[0].bytes && received[..0 + 1] == received[..1];
    TopUpFrom(received, first, 1);
  }

  /** The pieces read after the decision, one by one. */
  lemma {:induction false} ChunksAre(received: seq<Read>, first: nat, end: nat)
    requires StreamEnd(received, first, end)
    ensures |Chunks(received[first..])| == end - first
    ensures forall i :: first <= i < end ==>
      received[i].Data? && Chunks(received[first..])[i - first] == received[i].bytes
    decreases end - first
  {
    if first < end {
      ChunksAre(received, first + 1, end);
      assert received[first..][1..] == received[first + 1..];
    }
  }

  /** Any number of them, behind the data sniffed, is what the reads so far brought. */
  lemma {:induction false} PiecesBrought(received: seq<Read>, first: nat, end: nat, n: nat)
    requires StreamEnd(received, first, end) && first <= n <= end
    ensures |Chunks(received[first..])| == end - first
    ensures Brought(received[..first]) + Concat(Chunks(received[first..])[..n - first]) == Brought(received[..n])
    decreases n
  {
    hide Brought, Chunks;
    ChunksAre(received, first, end);
    var chunks := Chunks(received[first..]);
    if n > first {
      PiecesBrought(received, first, end, n - 1);
      BroughtStep(received, n - 1);
      assert chunks[..n - first] == chunks[..n - 1 - first] + [chunks[n - 1 - first]];
      ConcatAppend(chunks[..n - 1 - first], [chunks[n - 1 - first]]);
      assert Concat([chunks[n - 1 - first]]) == chunks[n - 1 - first] + Concat([]) == chunks[n - 1 - first];
    } else {
      assert chunks[..0] == [];
      assert Brought(received[..first]) + Concat([]) == Brought(received[..first]);
    }
  }

  /** Some framer call, after the `first` reads or after a later one, leaves more than the limit. */
  ghost predicate OverflowsAt(d: Decide, limit: Limit, received: seq<Read>, first: nat, end: nat)
    requires Advances(d) && first <= end <= |received|
  {
    exists n :: first <= n <= end && limit.Exceeded(Scan(d, Brought(received[..n])).rest)
  }

  lemma OverflowsSame(d: Decide, limit: Limit, received: seq<Read>, first: nat, end: nat)
    requires Advances(d) && StreamEnd(received, first, end)
    ensures Overflows(d, limit, [], [Brought(received[..first])] + Chunks(received[first..]))
       <==> OverflowsAt(d, limit, received, first, end)
  {
    hide Brought, Chunks, Scan;
    ChunksAre(received, first, end);
    var data, chunks := Brought(received[..first]), Chunks(received[first..]);
    var all := [data] + chunks;
    forall k | 0 < k <= |all|
      ensures [] + Concat(all[..k]) == Brought(received[..first + k - 1])
    {
      PiecesBrought(received, first, end, first + k - 1);
      assert all[..k] == [data] + chunks[..k - 1];
      assert all[..k][1..] == chunks[..k - 1];
      assert [] + Concat(all[..k]) == Concat(all[..k]);
    }
    if OverflowsAt(d, limit, received, first, end) {
      var n :| first <= n <= end && limit.Exceeded(Scan(d, Brought(received[..n])).rest);
      assert limit.Exceeded(Scan(d, [] + Concat(all[..n - first + 1])).rest);
    }
  }

  /**
   The frames a handler sees do not depend on how the network cut the stream.
   What the reads of a connection brought, all of it and in order, is its
   stream; what the first of them brought decides the family. Unless some read
   overflows the text framer, a connection that was not cut off by its framer
   has handled exactly the frames of the stream, up to the one at which the
   handler closed it; and it is cut off exactly when the stream is refused.
   */
  lemma SessionIgnoresCuts(c: Config, received: seq<Read>, closing: Option<nat>, first: nat, end: nat)
    requires received != [] && received[0].Received()
    requires FirstBytes(received, first) && StreamEnd(received, first, end)
    ensures var family := DetectProtocol(Brought(received[..first]), c.enabled);
      if family.None? then SessionOf(c, received, closing) == Unrecognised
      else
        var s := SessionOf(c, received, closing);
        var d, limit := DecideFor(family.value, c.limits), LimitFor(family.value, c.limits);
        && s.Served? && s.family == family.value && Advances(d)
        && var whole := Scan(d, Brought(received[..end]));
        && (s.raised <==> whole.rejected || OverflowsAt(d, limit, received, first, end))
        && (!s.raised ==> s.handled == UpTo(whole.frames, closing))
        && s.handled <= whole.frames
        && (s.family.GT06? ==> !s.raised)
  {
    hide Scan, Feed, DecideFor, Advances, Settled, DetectProtocol, Framing.Raises, Overflows, OverflowsAt, TopUp,
         Chunks, Brought;
    TopUpIs(received, first);
    var data, later := Brought(received[..first]), received[first..];
    var family := DetectProtocol(data, c.enabled);
    if family.Some? {
      FamiliesFrame(family.value, c.limits);
      var d, limit := DecideFor(family.value, c.limits), LimitFor(family.value, c.limits);
      ChunkingIndependence(d, limit, [], [data] + Chunks(later));
      OverflowsSame(d, limit, received, first, end);
      WholeStream(received, first, end);
      if family.value.GT06? {
        NoOverflowUnlimited(d, [data] + Chunks(later));
        Gt06NeverRefuses(c.limits, Brought(received[..end]));
      }
    }
  }

  lemma WholeStream(received: seq<Read>, first: nat, end: nat)
    requires StreamEnd(received, first, end)
    ensures [] + Concat([Brought(received[..first])] + Chunks(received[first..])) == Brought(received[..end])
  {
    hide Brought, Chunks;
    PiecesBrought(received, first, end, end);
    var chunks := Chunks(received[first..]);
    assert chunks[..end - first] == chunks;
    assert ([Brought(received[..first])] + chunks)[1..] == chunks;
  }

  lemma NoOverflowUnlimited(d: Decide, chunks: seq<Bytes>)
    requires Advances(d)
    ensures !Overflows(d, Unlimited, [], chunks)
  {
    hide Advances, Scan;
  }

  lemma Gt06NeverRefuses(l: Limits, b: Bytes)
    requires Advances(DecideFor(GT06, l))
    ensures !Scan(DecideFor(GT06, l), b).rejected
  {
    hide Advances, Scan;
    Gt06.ScanSound(b);
  }

  /** Two bytes of a login are enough to be taken for a Teltonika device. */
  lemma LoginIsDetected(imei: Bytes, first: Bytes, rest: Bytes, stream: Bytes, enabled: set<Family>)
    requires TeltonikaStream.IsImei(imei) && Family.TELTONIKA in enabled
    requires |first| >= 2 && first + rest == TeltonikaStream.LoginFrame(imei) + stream
    ensures DetectProtocol(first, enabled) == Some(TELTONIKA)
  {
    var whole := TeltonikaStream.LoginFrame(imei) + stream;
    assert first == whole[..|first|];
    assert first[..2] == TeltonikaStream.LOGIN_PREFIX;
    assert first[..2][0] == 0x00 && Gt06.SHORT_HEADER[0] == 0x78 && Gt06.LONG_HEADER[0] == 0x79;
    assert !(HASHES <= first) && !(IMEI_TAG <= first) by {
      assert first[0] == 0x00 && HASHES[0] == 0x23 && IMEI_TAG[0] == 0x69;
    }
    var n := if |first| < 17 then |first| else 17;
    forall i | 0 <= i < n - 2
      ensures first[2..n][i] == imei[i]
    {
      assert first[2 + i] == whole[2 + i] == TeltonikaStream.LoginFrame(imei)[2 + i];
    }
    assert first[2..n] == imei[..n - 2];
    assert imei == imei[..n - 2] + imei[n - 2..];
    DigitsSplit(imei[..n - 2], imei[n - 2..]);
  }

  lemma {:induction false} BroughtGrows(received: seq<Read>, n: nat, m: nat) returns (rest: Bytes)
    requires n <= m <= |received|
    ensures Brought(received[..m]) == Brought(received[..n]) + rest
    decreases m
  {
    hide Brought;
    if n == m {
      rest := [];
    } else {
      rest := BroughtGrows(received, n, m - 1);
      BroughtStep(received, m - 1);
      rest := rest + if received[m - 1].Data? then received[m - 1].bytes else [];
    }
  }

  /**
   End to end: a Teltonika device whose login and packets arrive in whatever
   pieces, at least two bytes before the first pause, is handed to its handler
   as exactly those frames, up to the one at which the handler closes, and each
   packet decodes to what was encoded.
   */
  lemma TeltonikaSession(
    c: Config, received: seq<Read>, closing: Option<nat>, first: nat, end: nat, imei: Bytes, ps: seq<Teltonika.Packet>)
    requires received != [] && received[0].Received() && Family.TELTONIKA in c.enabled
    requires FirstBytes(received, first) && StreamEnd(received, first, end) && |Brought(received[..first])| >= 2
    requires TeltonikaStream.IsImei(imei)
    requires forall p :: p in ps ==> Teltonika.PacketFits(p) && |Teltonika.Body(p)| <= c.limits.teltonikaPacket
    requires Brought(received[..end]) == TeltonikaStream.LoginFrame(imei) + Concat(TeltonikaStream.Prints(ps))
    ensures var frames := [TeltonikaStream.LoginFrame(imei)] + TeltonikaStream.Prints(ps);
      SessionOf(c, received, closing) == Served(TELTONIKA, UpTo(frames, closing), false)
    ensures forall i :: 0 <= i < |ps| ==> Teltonika.Parse(TeltonikaStream.Prints(ps)[i]) == Teltonika.Ok(ps[i])
  {
    hide Scan, Feed, Advances, Settled, Framing.Raises, TopUp, UpTo, DetectProtocol, Brought, SessionOf,
         Teltonika.PacketFits, Teltonika.Body, Teltonika.Parse, TeltonikaStream.LoginFrame, TeltonikaStream.Decision,
         TeltonikaStream.IsImei;
    var limit := c.limits.teltonikaPacket;
    var rest := BroughtGrows(received, first, end);
    LoginIsDetected(imei, Brought(received[..first]), rest, Concat(TeltonikaStream.Prints(ps)), c.enabled);
    TeltonikaStream.StreamReadsBack(limit, imei, ps);
    SessionIgnoresCuts(c, received, closing, first, end);
  }
}
