/** The GPS103 text framer: messages end with ';' and are stripped. */
module Gps103 {
  import opened Bytes
  import opened Framing

  const SEMICOLON: byte := 0x3B

  /** What bytes.strip() removes. */
  predicate IsSpace(b: byte) {
    b == 0x20 || 0x09 <= b <= 0x0D
  }

  predicate AllSpace(s: Bytes) {
    forall b :: b in s ==> IsSpace(b)
  }

  /** `buffer.find(b";")`, with the length standing for "not found". */
  function Find(b: Bytes): (i: nat)
    ensures i <= |b|
    ensures SEMICOLON !in b[..i]
    ensures i < |b| ==> b[i] == SEMICOLON
  {
    if b == [] || b[0] == SEMICOLON then 0
    else
      assert b[1..][..Find(b[1..])] == b[1..1 + Find(b[1..])];
      1 + Find(b[1..])
  }

  function Strip(s: Bytes): Bytes
    decreases |s|
  {
    if s != [] && IsSpace(s[0]) then Strip(s[1..])
    else if s != [] && IsSpace(s[|s| - 1]) then Strip(s[..|s| - 1])
    else s
  }

  predicate Trimmed(s: Bytes) {
    s != [] ==> !IsSpace(s[0]) && !IsSpace(s[|s| - 1])
  }

  /** Stripping removes white space at both ends and nothing else. */
  lemma {:induction false} StripTrims(s: Bytes) returns (left: Bytes, right: Bytes)
    ensures s == left + Strip(s) + right
    ensures AllSpace(left) && AllSpace(right) && Trimmed(Strip(s))
    decreases |s|
  {
    if s != [] && IsSpace(s[0]) {
      var l, r := StripTrims(s[1..]);
      left, right := [s[0]] + l, r;
    } else if s != [] && IsSpace(s[|s| - 1]) {
      var l, r := StripTrims(s[..|s| - 1]);
      left, right := l, r + [s[|s| - 1]];
      assert s == s[..|s| - 1] + [s[|s| - 1]];
    } else {
      left, right := [], [];
    }
  }

  lemma {:induction false} StripPadded(left: Bytes, core: Bytes, right: Bytes)
    requires AllSpace(left) && AllSpace(right) && Trimmed(core) && core != []
    ensures Strip(left + core + right) == core
    decreases |left| + |right|
  {
    var s := left + core + right;
    if left != [] {
      assert s[0] == left[0] && left[0] in left;
      assert s[1..] == left[1..] + core + right;
      StripPadded(left[1..], core, right);
    } else if right != [] {
      assert s[0] == core[0] && s[|s| - 1] == right[|right| - 1];
      assert right[|right| - 1] in right;
      assert s[..|s| - 1] == left + core + right[..|right| - 1];
      StripPadded(left, core, right[..|right| - 1]);
    } else {
      assert s == core;
    }
  }

  function Decide(b: Bytes): Decision {
    var i := Find(b);
    if i == |b| then More
    else
      var message := Strip(b[..i]);
      if message == [] then Skip(i + 1) else Emit(message, i + 1)
  }

  lemma {:induction false} FindStays(b: Bytes, x: Bytes)
    requires Find(b) < |b|
    ensures Find(b + x) == Find(b)
    decreases |b|
  {
    if b[0] != SEMICOLON {
      assert (b + x)[1..] == b[1..] + x;
      FindStays(b[1..], x);
    }
  }

  lemma DecideIsFramer()
    ensures Advances(Decide) && Settled(Decide) && Framer(Decide)
  {
    hide Find, Strip;
    forall b: Bytes, x: Bytes | !Decide(b).More?
      ensures Decide(b + x) == Decide(b)
    {
      FindStays(b, x);
      assert (b + x)[..Find(b)] == b[..Find(b)];
    }
  }

  datatype Extracted = Messages(messages: seq<Bytes>, rest: Bytes) | FrameOverflow

  method ExtractMessages(limit: nat, input: Bytes) returns (r: Extracted)
    ensures Framer(Decide)
    ensures !Scan(Decide, input).rejected
    ensures var s := Scan(Decide, input);
      r == if |s.rest| > limit then FrameOverflow else Messages(s.frames, s.rest)
  {
    hide Scan, Find, Strip, Advances, Settled;
    DecideIsFramer();
    var messages: seq<Bytes> := [];
    var buffer := input;
    assert Scan(Decide, input).After([]) == Scan(Decide, input);
    while true
      invariant Scan(Decide, input) == Scan(Decide, buffer).After(messages)
      decreases |buffer|
    {
      ScanStep(Decide, buffer, messages);
      var idx := Find(buffer);
      if idx == |buffer| {
        break;
      }
      var raw := Strip(buffer[..idx]);
      buffer := buffer[idx + 1..];
      if raw != [] {
        messages := messages + [raw];
      }
    }
    if |buffer| > limit {
      return FrameOverflow;
    }
    r := Messages(messages, buffer);
  }

  /** A message as a device sends it: padding, text, padding, terminator. */
  datatype Sent = Sent(left: Bytes, text: Bytes, right: Bytes) {
    predicate Proper() {
      && AllSpace(left) && AllSpace(right)
      && text != [] && Trimmed(text) && SEMICOLON !in text
    }

    function Wire(): Bytes {
      left + text + right + [SEMICOLON]
    }
  }

  function Wires(sent: seq<Sent>): (ws: seq<Bytes>)
    ensures |ws| == |sent|
    ensures forall i :: 0 <= i < |sent| ==> ws[i] == sent[i].Wire()
  {
    seq(|sent|, i requires 0 <= i < |sent| => sent[i].Wire())
  }

  function Texts(sent: seq<Sent>): (ts: seq<Bytes>)
    ensures |ts| == |sent|
    ensures forall i :: 0 <= i < |sent| ==> ts[i] == sent[i].text
  {
    seq(|sent|, i requires 0 <= i < |sent| => sent[i].text)
  }

  lemma {:induction false} FindFirst(before: Bytes, tail: Bytes)
    requires SEMICOLON !in before
    ensures Find(before + [SEMICOLON] + tail) == |before|
    ensures Find(before) == |before|
    decreases |before|
  {
    var b := before + [SEMICOLON] + tail;
    if before != [] {
      assert b[1..] == before[1..] + [SEMICOLON] + tail;
      FindFirst(before[1..], tail);
    }
  }

  /** Messages, however padded, followed by an unfinished one split back exactly. */
  lemma LosslessSplit(sent: seq<Sent>, partial: Bytes)
    requires forall m :: m in sent ==> m.Proper()
    requires SEMICOLON !in partial
    ensures Framer(Decide)
    ensures Scan(Decide, Concat(Wires(sent)) + partial) == Scanned(Texts(sent), partial, false)
  {
    hide Find, Strip, Advances, Settled;
    DecideIsFramer();
    forall i | 0 <= i < |sent|
      ensures Whole(Decide, Wires(sent)[i], Texts(sent)[i])
    {
      var m := sent[i];
      assert m in sent;
      var before := m.left + m.text + m.right;
      FindFirst(before, []);
      assert before + [SEMICOLON] + [] == m.Wire();
      assert m.Wire()[..|before|] == before;
      StripPadded(m.left, m.text, m.right);
    }
    ScanUnits(Decide, Wires(sent), Texts(sent), partial);
    FindFirst(partial, []);
    assert Texts(sent) + [] == Texts(sent);
  }
}
