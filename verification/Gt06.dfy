/** GT06/V5 binary frames: the stream framer, acknowledgements and commands. */
module Gt06 {
  import opened Common
  import opened Bytes
  import opened Crc
  import opened Framing

  const SHORT_HEADER: Bytes := [0x78, 0x78]
  const LONG_HEADER: Bytes := [0x79, 0x79]
  const TERMINATOR: Bytes := [0x0D, 0x0A]

  /** A two-byte length field of 65535 plus the six bytes around it. */
  const MAX_FRAME := 65541

  // ------------------------------------------------------------------
  // Framing
  // ------------------------------------------------------------------

  function Decide(b: Bytes): Decision {
    if |b| < 5 then More
    else if b[..2] == SHORT_HEADER then
      var total := b[2] as int + 5;
      if |b| < total then More else Emit(b[..total], total)
    else if b[..2] == LONG_HEADER then
      var total := FromBE(b[2..4]) + 6;
      if |b| < total then More else Emit(b[..total], total)
    else Skip(1)
  }

  lemma DecideIsFramer()
    ensures Advances(Decide) && Settled(Decide) && Framer(Decide)
  {
    hide FromBE;
    forall b: Bytes, x: Bytes | !Decide(b).More?
      ensures Decide(b + x) == Decide(b)
    {
      assert (b + x)[..2] == b[..2] && (b + x)[2..4] == b[2..4] && (b + x)[2] == b[2];
      if Decide(b).Emit? {
        assert (b + x)[..Decide(b).used] == b[..Decide(b).used];
      }
    }
  }

  method ExtractPackets(input: Bytes) returns (packets: seq<Bytes>, buffer: Bytes)
    ensures Framer(Decide)
    ensures Scan(Decide, input) == Scanned(packets, buffer, false)
  {
    hide Scan, FromBE, Advances, Settled;
    DecideIsFramer();
    packets, buffer := [], input;
    assert Scan(Decide, input).After([]) == Scan(Decide, input);
    while true
      invariant Scan(Decide, input) == Scan(Decide, buffer).After(packets)
      decreases |buffer|
    {
      ScanStep(Decide, buffer, packets);
      if |buffer| < 5 {
        break;
      }
      if buffer[..2] == SHORT_HEADER {
        var length := buffer[2] as int;
        var total := length + 5;
        if |buffer| < total {
          break;
        }
        packets := packets + [buffer[..total]];
        buffer := buffer[total..];
      } else if buffer[..2] == LONG_HEADER {
        var length := FromBE(buffer[2..4]);
        var total := length + 6;
        if |buffer| < total {
          break;
        }
        packets := packets + [buffer[..total]];
        buffer := buffer[total..];
      } else {
        buffer := buffer[1..];
      }
    }
  }

  /** A complete frame: header, the length it announces, and nothing more. */
  predicate IsFrame(f: Bytes) {
    || (|f| >= 5 && f[..2] == SHORT_HEADER && |f| == f[2] as int + 5)
    || (|f| >= 6 && f[..2] == LONG_HEADER && |f| == FromBE(f[2..4]) + 6)
  }

  /**
   A frame as devices put it together: a header of its kind, the length of the
   content in one byte or in two, the content, and two bytes to end it.
   */
  predicate PutTogether(f: Bytes, content: Bytes, end: Bytes) {
    && |end| == 2
    && (|| (|content| < 0x100 && f == [0x78, 0x78, |content|] + content + end)
        || (|content| < 0x1_0000 && f == [0x79, 0x79, |content| / 0x100, |content| % 0x100] + content + end))
  }

  /** Those and nothing else are frames. */
  lemma FramesExactly(f: Bytes)
    ensures IsFrame(f) <==> exists content, end :: PutTogether(f, content, end)
  {
    if IsFrame(f) {
      var content, end := Anatomy(f);
    }
    if content, end :| PutTogether(f, content, end) {
      Assembled(f, content, end);
    }
  }

  lemma Anatomy(f: Bytes) returns (content: Bytes, end: Bytes)
    requires IsFrame(f)
    ensures PutTogether(f, content, end)
  {
    hide FromBE;
    var n := if f[..2] == SHORT_HEADER then 3 else 4;
    assert f[..2] == [f[0], f[1]];
    content, end := f[n..|f| - 2], f[|f| - 2..];
    assert f == f[..n] + content + end;
    if n == 3 {
      assert f[..3] == [0x78, 0x78, |content|];
    } else {
      Weights(f[2..4]);
      DivideByte(f[2], f[3]);
      assert f[..4] == [0x79, 0x79, |content| / 0x100, |content| % 0x100];
    }
  }

  lemma Assembled(f: Bytes, content: Bytes, end: Bytes)
    requires PutTogether(f, content, end)
    ensures IsFrame(f)
  {
    hide FromBE;
    assert f[..2] == SHORT_HEADER || f[..2] == LONG_HEADER;
    if f[0] == 0x79 {
      Weights(f[2..4]);
    }
  }

  lemma FramesAreWhole(f: Bytes)
    ensures Whole(Decide, f, f) <==> IsFrame(f)
  {
    if IsFrame(f) || Whole(Decide, f, f) {
      assert f[..|f|] == f;
    }
  }

  lemma DecisionSound(b: Bytes)
    ensures !Decide(b).Reject?
    ensures Decide(b).Emit? ==> IsFrame(Decide(b).frame) && Decide(b).frame == b[..Decide(b).used]
    ensures Decide(b).More? ==> |b| < MAX_FRAME
  {
    if |b| >= 5 {
      assert FromBE(b[2..4]) < 0x1_0000 by { Sizes(); }
      if Decide(b).Emit? {
        var f := Decide(b).frame;
        assert f[..2] == b[..2] && f[2] == b[2];
        if |f| >= 4 {
          assert f[2..4] == b[2..4];
        }
      }
    }
  }

  /** What is handed out is always a frame, nothing is refused, and little is held back. */
  lemma ScanSound(b: Bytes)
    ensures Framer(Decide)
    ensures forall f :: f in Scan(Decide, b).frames ==> IsFrame(f)
    ensures !Scan(Decide, b).rejected
    ensures |Scan(Decide, b).rest| < MAX_FRAME
  {
    hide Decide, IsFrame, Advances, Settled;
    DecideIsFramer();
    forall s: Bytes
      ensures !Decide(s).Reject?
      ensures Decide(s).Emit? ==> IsFrame(Decide(s).frame)
    {
      DecisionSound(s);
    }
    EveryFrame(Decide, IsFrame, b);
    NeverRejects(Decide, b);
    RestWaits(Decide, b);
    DecisionSound(Scan(Decide, b).rest);
  }

  /** Complete frames followed by an incomplete one split back exactly. */
  lemma LosslessSplit(frames: seq<Bytes>, partial: Bytes, whole: Bytes)
    requires forall f :: f in frames ==> IsFrame(f)
    requires IsFrame(whole) && partial < whole
    ensures Framer(Decide)
    ensures Scan(Decide, Concat(frames) + partial) == Scanned(frames, partial, false)
  {
    hide FromBE, Advances, Settled;
    DecideIsFramer();
    forall i | 0 <= i < |frames|
      ensures Whole(Decide, frames[i], frames[i])
    {
      assert frames[i] in frames;
      FramesAreWhole(frames[i]);
    }
    ScanUnits(Decide, frames, frames, partial);
    if |partial| >= 5 {
      assert partial[..2] == whole[..2] && partial[2..4] == whole[2..4] && partial[2] == whole[2];
    }
    assert Decide(partial).More?;
  }

  predicate HeaderAt(b: Bytes, i: nat)
    requires i + 1 < |b|
  {
    b[i..i + 2] == SHORT_HEADER || b[i..i + 2] == LONG_HEADER
  }

  /**
   Resynchronisation. Noise that shows no header at any of its positions, not
   even together with the first byte of what follows, costs no frame.
   */
  lemma {:induction false} Resynchronises(noise: Bytes, frame: Bytes, tail: Bytes)
    requires IsFrame(frame)
    requires forall i :: 0 <= i < |noise| ==> !HeaderAt(noise + frame, i)
    ensures Framer(Decide)
    ensures Scan(Decide, noise + frame + tail) == Scan(Decide, tail).After([frame])
    decreases |noise|
  {
    hide FromBE, Advances, Settled;
    DecideIsFramer();
    if noise == [] {
      FramesAreWhole(frame);
      assert noise + frame + tail == Concat([frame]) + tail;
      ScanUnits(Decide, [frame], [frame], tail);
    } else {
      NoiseIsSkipped(noise, frame, tail);
      NoiseShrinks(noise, frame);
      Resynchronises(noise[1..], frame, tail);
    }
  }

  lemma NoiseIsSkipped(noise: Bytes, frame: Bytes, tail: Bytes)
    requires noise != [] && |frame| >= 5 && !HeaderAt(noise + frame, 0)
    ensures var b := noise + frame + tail;
      Decide(b) == Skip(1) && b[1..] == noise[1..] + frame + tail
  {
    var b := noise + frame + tail;
    assert b[..2] == (noise + frame)[0..0 + 2];
  }

  lemma NoiseShrinks(noise: Bytes, frame: Bytes)
    requires noise != [] && |frame| >= 5
    requires forall i :: 0 <= i < |noise| ==> !HeaderAt(noise + frame, i)
    ensures forall i :: 0 <= i < |noise[1..]| ==> !HeaderAt(noise[1..] + frame, i)
  {
    assert noise[1..] + frame == (noise + frame)[1..];
    forall i | 0 <= i < |noise[1..]|
      ensures !HeaderAt(noise[1..] + frame, i)
    {
      assert !HeaderAt(noise + frame, i + 1);
      assert (noise + frame)[i + 1..i + 1 + 2] == (noise + frame)[1..][i..i + 2];
    }
  }

  predicate HeaderFree(noise: Bytes) {
    forall i :: 0 <= i && i + 1 < |noise| ==> !HeaderAt(noise, i)
  }

  /**
   The exact condition. Behind noise without a header of its own, whatever
   follows, the scan gets to look at a frame if and only if the noise does not
   end in the byte the frame starts with.
   */
  lemma {:induction false} FrameReached(noise: Bytes, frame: Bytes, tail: Bytes)
    requires HeaderFree(noise) && IsFrame(frame)
    ensures Framer(Decide)
    ensures Reaches(Decide, noise + frame + tail, |noise|) <==> noise == [] || noise[|noise| - 1] != frame[0]
    decreases |noise|
  {
    hide FromBE, Advances, Settled;
    DecideIsFramer();
    var b := noise + frame + tail;
    if noise != [] {
      assert b[1..] == noise[1..] + frame + tail;
      if |noise| == 1 {
        HeaderAhead(noise[0], frame, tail);
      } else {
        assert !HeaderAt(noise, 0) && b[..2] == noise[0..0 + 2];
        HeaderFreeRest(noise);
        FrameReached(noise[1..], frame, tail);
      }
    }
  }

  lemma HeaderFreeRest(noise: Bytes)
    requires HeaderFree(noise) && noise != []
    ensures HeaderFree(noise[1..])
  {
    forall i | 0 <= i && i + 1 < |noise[1..]|
      ensures !HeaderAt(noise[1..], i)
    {
      assert !HeaderAt(noise, i + 1) && noise[1..][i..i + 2] == noise[i + 1..i + 1 + 2];
    }
  }

  /** A byte in front of a frame is skipped, unless it makes a header with the frame's first byte. */
  lemma HeaderAhead(stray: byte, frame: Bytes, tail: Bytes)
    requires IsFrame(frame)
    ensures var d := Decide([stray] + frame + tail);
      if stray == frame[0] then d.More? || (d.Emit? && d.used >= 5) else d == Skip(1)
  {
    hide FromBE;
    var b := [stray] + frame + tail;
    assert frame[..2][0] == frame[0] && frame[..2][1] == frame[1];
    assert b[..2] == [stray, frame[0]];
  }

  /** Then it is handed out, and the scan goes on behind it. */
  lemma ReachedFrameComesOut(noise: Bytes, frame: Bytes, tail: Bytes) returns (earlier: seq<Bytes>)
    requires HeaderFree(noise) && IsFrame(frame) && (noise == [] || noise[|noise| - 1] != frame[0])
    ensures Framer(Decide)
    ensures Scan(Decide, noise + frame + tail) == Scan(Decide, tail).After(earlier + [frame])
  {
    hide FromBE, Advances, Settled, IsFrame, HeaderFree, Decide, Scan, Reaches;
    FrameReached(noise, frame, tail);
    var b := noise + frame + tail;
    earlier := ReachedSplits(Decide, b, |noise|);
    assert b[|noise|..] == frame + tail;
    assert Concat([frame]) == frame + Concat([]) == frame;
    FramesAreWhole(frame);
    ScanUnits(Decide, [frame], [frame], tail);
    assert earlier + ([frame] + Scan(Decide, tail).frames) == (earlier + [frame]) + Scan(Decide, tail).frames;
  }

  /**
   A stray header byte does cost a frame: read as a header with the frame's
   first byte, it announces 125 bytes, and once they have arrived they are
   handed out as one frame with the true frame inside.
   */
  lemma StrayHeaderByteLosesFrame(frame: Bytes, next: Bytes, tail: Bytes)
    requires IsFrame(frame) && frame[..2] == SHORT_HEADER && |frame| + |next| == 124
    ensures Framer(Decide)
    ensures Scan(Decide, [0x78] + frame + next + tail) == Scan(Decide, tail).After([[0x78] + frame + next])
    ensures IsFrame([0x78] + frame + next) && [0x78] + frame + next != frame
  {
    hide FromBE, Advances, Settled;
    DecideIsFramer();
    var wrong := [0x78] + frame + next;
    assert frame[..2][0] == 0x78 && frame[..2][1] == 0x78;
    assert wrong[..2] == SHORT_HEADER && wrong[2] == 0x78;
    FramesAreWhole(wrong);
    ScanUnits(Decide, [wrong], [wrong], tail);
    assert Concat([wrong]) + tail == [0x78] + frame + next + tail;
  }

  /** So a frame a device sent is never handed out, although the stream went on for long enough. */
  lemma LostFrame(frame: Bytes, next: Bytes)
    requires IsFrame(frame) && frame[..2] == SHORT_HEADER && |frame| + |next| == 124
    ensures Framer(Decide)
    ensures frame !in Scan(Decide, [0x78] + frame + next).frames && Scan(Decide, [0x78] + frame + next).rest == []
  {
    hide FromBE, Advances, Settled, IsFrame;
    StrayHeaderByteLosesFrame(frame, next, []);
    assert [0x78] + frame + next + [] == [0x78] + frame + next;
    assert Decide([]).More?;
  }

  // ------------------------------------------------------------------
  // Acknowledgements
  // ------------------------------------------------------------------

  /** Python's `s[-from:-to]`: negative indices past the front clip to it. */
  function FromEnd(s: Bytes, from: nat, to: nat): Bytes
    requires to <= from
  {
    s[(if |s| < from then 0 else |s| - from)..(if |s| < to then 0 else |s| - to)]
  }

  function ProtocolAt(f: Bytes): nat {
    if |f| >= 2 && f[..2] == LONG_HEADER then 4 else 3
  }

  /** None where the original raises IndexError. */
  function BuildAck(packet: Bytes): Option<Bytes> {
    if |packet| <= ProtocolAt(packet) then None
    else
      var body := [0x05, packet[ProtocolAt(packet)]] + FromEnd(packet, 6, 4);
      Some(SHORT_HEADER + body + ToBE16(X25(body)) + TERMINATOR)
  }

  function ProtocolOf(f: Bytes): byte
    requires IsFrame(f) && |f| >= 6
  {
    f[ProtocolAt(f)]
  }

  function SerialOf(f: Bytes): Bytes
    requires |f| >= 6
  {
    f[|f| - 6..|f| - 4]
  }

  /** A short frame that carries its own checksum and terminator. */
  predicate Sealed(f: Bytes) {
    && |f| >= 8
    && f[|f| - 2..] == TERMINATOR
    && FromBE(f[|f| - 4..|f| - 2]) == X25(f[2..|f| - 4])
  }

  /**
   Every frame is acknowledged; the acknowledgement is itself a frame exactly
   when the acknowledged one is long enough to hold a serial number, and then
   echoes its protocol and serial under a valid checksum, for either header.
   */
  lemma AckEchoes(packet: Bytes)
    requires IsFrame(packet)
    ensures BuildAck(packet).Some?
    ensures IsFrame(BuildAck(packet).value) <==> |packet| >= 6
    ensures |packet| >= 6 ==>
      var ack := BuildAck(packet).value;
      && ack[..2] == SHORT_HEADER
      && ProtocolOf(ack) == ProtocolOf(packet)
      && SerialOf(ack) == SerialOf(packet)
      && Sealed(ack)
  {
    hide X25, FromBE;
    var body := [0x05, packet[ProtocolAt(packet)]] + FromEnd(packet, 6, 4);
    var ack := SHORT_HEADER + body + ToBE16(X25(body)) + TERMINATOR;
    assert ack[..2] == SHORT_HEADER && ack[2] == 0x05;
    if |packet| >= 6 {
      assert ack[2..|ack| - 4] == body;
      assert ack[|ack| - 4..|ack| - 2] == ToBE16(X25(body));
      assert ack[|ack| - 2..] == TERMINATOR;
      assert SerialOf(ack) == body[2..];
    }
  }

  // ------------------------------------------------------------------
  // Commands
  // ------------------------------------------------------------------

  const SERVER_FLAG: Bytes := [0x00, 0x00, 0x00, 0x01]
  const LANGUAGE: Bytes := [0x00, 0x02]
  const MAX_COMMAND := 243
  const LAST_SERIAL := 0xFFFF

  datatype BuildError = SerialExhausted | NotAscii | TooLong

  datatype Built = Frame(bytes: Bytes) | Failed(error: BuildError)

  predicate IsAscii(text: string) {
    forall c :: c in text ==> c as int < 128
  }

  function Ascii(c: char): byte
    requires c as int < 128
  {
    c as int
  }

  function Encode(text: string): (b: Bytes)
    requires IsAscii(text)
    ensures |b| == |text|
  {
    seq(|text|, i requires 0 <= i < |text| => assert text[i] in text; Ascii(text[i]))
  }

  function Decode(b: Bytes): string {
    seq(|b|, i requires 0 <= i < |b| => b[i] as char)
  }

  function CommandBody(text: string, serial: nat): (b: Bytes)
    requires IsAscii(text) && |text| <= 251 && serial <= LAST_SERIAL
    ensures |b| == |text| + 10
  {
    [0x80] + [4 + |text|] + SERVER_FLAG + Encode(text) + LANGUAGE + ToBE16(serial)
  }

  function CommandFrame(text: string, serial: nat): (f: Bytes)
    requires IsAscii(text) && |text| <= MAX_COMMAND && serial <= LAST_SERIAL
    ensures |f| == |text| + 17
  {
    var body := CommandBody(text, serial);
    var length: byte := |body| + 2;
    SHORT_HEADER + [length] + body + ToBE16(X25([length] + body)) + TERMINATOR
  }

  /** What one call yields for a given serial number. */
  function CommandFor(text: string, serial: nat): Built {
    if serial > LAST_SERIAL then Failed(SerialExhausted)
    else if !IsAscii(text) then Failed(NotAscii)
    else if |text| > MAX_COMMAND then Failed(TooLong)
    else Frame(CommandFrame(text, serial))
  }

  /** The module state of the command builder. */
  class CommandBuilder {
    var serial: nat

    constructor ()
      ensures serial == 1
    {
      serial := 1;
    }

    method NextSerial() returns (value: nat)
      modifies this
      ensures value == old(serial)
      ensures serial == old(serial) + 1
    {
      value := serial;
      serial := serial + 1;
    }

    /** The serial number is used up even when the call raises. */
    method BuildCommand(text: string) returns (packet: Built)
      modifies this
      ensures serial == old(serial) + 1
      ensures packet == CommandFor(text, old(serial))
    {
      hide X25, FromBE, IsAscii, Encode;
      var number := NextSerial();
      if number > LAST_SERIAL {
        return Failed(SerialExhausted);
      }
      if !IsAscii(text) {
        return Failed(NotAscii);
      }
      var commandBytes := Encode(text);
      var commandLength := |SERVER_FLAG| + |commandBytes|;
      if commandLength > 255 {
        return Failed(TooLong);
      }
      var body := [0x80] + [commandLength] + SERVER_FLAG + commandBytes + LANGUAGE + ToBE16(number);
      var packetLength := |body| + 2;
      if packetLength > 255 {
        return Failed(TooLong);
      }
      var crc := Crc16X25([packetLength] + body);
      packet := Frame(SHORT_HEADER + [packetLength] + body + ToBE16(crc) + TERMINATOR);
    }

    /** Builds one command after another, as an operator session does. */
    method BuildAll(texts: seq<string>) returns (packets: seq<Built>)
      modifies this
      ensures serial == old(serial) + |texts|
      ensures packets == Session(texts, old(serial))
    {
      hide CommandFor;
      packets := [];
      for i := 0 to |texts|
        invariant serial == old(serial) + i
        invariant packets + Session(texts[i..], serial) == Session(texts, old(serial))
      {
        assert texts[i..][1..] == texts[i + 1..];
        var packet := BuildCommand(texts[i]);
        packets := packets + [packet];
      }
    }
  }

  function Session(texts: seq<string>, serial: nat): (packets: seq<Built>)
    ensures |packets| == |texts|
  {
    if texts == [] then [] else [CommandFor(texts[0], serial)] + Session(texts[1..], serial + 1)
  }

  /** The device's reading of a command frame: its text and its serial number. */
  function ReadCommand(f: Bytes): (string, nat)
    requires |f| >= 17 && 9 <= 5 + f[4] as int <= |f|
  {
    (Decode(f[9..5 + f[4] as int]), FromBE(SerialOf(f)))
  }

  predicate Readable(f: Bytes) {
    |f| >= 17 && 9 <= 5 + f[4] as int <= |f|
  }

  lemma DecodeInvertsEncode(text: string)
    requires IsAscii(text)
    ensures Decode(Encode(text)) == text
  {
    forall i | 0 <= i < |text|
      ensures Decode(Encode(text))[i] == text[i]
    {
      assert text[i] in text;
    }
  }

  /** A built command is a sealed frame from which text and serial are recovered. */
  lemma CommandReadsBack(text: string, serial: nat)
    requires IsAscii(text) && |text| <= MAX_COMMAND && serial <= LAST_SERIAL
    ensures var f := CommandFrame(text, serial);
      && IsFrame(f)
      && Sealed(f)
      && f[3] == 0x80
      && Readable(f)
      && ReadCommand(f) == (text, serial)
  {
    hide X25, FromBE;
    var body := CommandBody(text, serial);
    var length: byte := |body| + 2;
    var crc := ToBE16(X25([length] + body));
    var f := CommandFrame(text, serial);
    assert f == SHORT_HEADER + [length] + body + crc + TERMINATOR;
    assert f[..2] == SHORT_HEADER && f[2] == length;
    assert f[3..13 + |text|] == body;
    assert Sealed(f) by {
      assert f[2..|f| - 4] == [length] + body;
      assert f[|f| - 4..|f| - 2] == crc;
      assert f[|f| - 2..] == TERMINATOR;
    }
    assert f[4] == body[1];
    assert f[9..9 + |text|] == body[6..6 + |text|] == Encode(text);
    assert SerialOf(f) == body[8 + |text|..] == ToBE16(serial);
    DecodeInvertsEncode(text);
  }

  /**
   A session's serial numbers: call `k` succeeds exactly when its number still
   fits and its text is sendable, and no two frames of a session carry the
   same number.
   */
  lemma {:induction false} SessionSerials(texts: seq<string>, serial: nat, k: nat)
    requires k < |texts|
    ensures Session(texts, serial)[k] == CommandFor(texts[k], serial + k)
    ensures Session(texts, serial)[k].Frame? <==>
      serial + k <= LAST_SERIAL && IsAscii(texts[k]) && |texts[k]| <= MAX_COMMAND
    decreases k
  {
    hide CommandFrame;
    if k > 0 {
      SessionSerials(texts[1..], serial + 1, k - 1);
    }
  }

  lemma SerialsDistinct(texts: seq<string>, serial: nat, j: nat, k: nat)
    requires j < k < |texts|
    requires Session(texts, serial)[j].Frame? && Session(texts, serial)[k].Frame?
    ensures var f, g := Session(texts, serial)[j].bytes, Session(texts, serial)[k].bytes;
      && Readable(f) && Readable(g)
      && ReadCommand(f).1 != ReadCommand(g).1
      && f != g
  {
    hide Session, CommandFrame, ReadCommand, Readable, IsFrame, Sealed, IsAscii;
    SessionSerials(texts, serial, j);
    SessionSerials(texts, serial, k);
    CommandReadsBack(texts[j], serial + j);
    CommandReadsBack(texts[k], serial + k);
  }

  // ------------------------------------------------------------------
  // What the gateway writes to a GT06 socket
  // ------------------------------------------------------------------

  datatype Output = Ack(packet: Bytes) | Command(text: string, serial: nat) {
    predicate Sendable() {
      match this
      case Ack(packet) => IsFrame(packet) && |packet| >= 6
      case Command(text, serial) => IsAscii(text) && |text| <= MAX_COMMAND && serial <= LAST_SERIAL
    }

    function Written(): Bytes
      requires Sendable()
    {
      match this
      case Ack(packet) => AckEchoes(packet); BuildAck(packet).value
      case Command(text, serial) => CommandFrame(text, serial)
    }
  }

  function Written(outputs: seq<Output>): (frames: seq<Bytes>)
    requires forall o :: o in outputs ==> o.Sendable()
    ensures |frames| == |outputs|
  {
    if outputs == [] then []
    else
      assert outputs[0] in outputs;
      [outputs[0].Written()] + Written(outputs[1..])
  }

  lemma {:induction false} WrittenAreFrames(outputs: seq<Output>)
    requires forall o :: o in outputs ==> o.Sendable()
    ensures forall f :: f in Written(outputs) ==> IsFrame(f)
  {
    if outputs != [] {
      assert outputs[0] in outputs;
      match outputs[0] {
        case Ack(packet) => AckEchoes(packet);
        case Command(text, serial) => CommandReadsBack(text, serial);
      }
      WrittenAreFrames(outputs[1..]);
      forall f | f in Written(outputs)
        ensures IsFrame(f)
      {
        assert f == outputs[0].Written() || f in Written(outputs[1..]);
      }
    }
  }

  /** Any mix of acknowledgements and commands is split back by the framer into exactly what was written. */
  lemma OutputReadsBack(outputs: seq<Output>)
    requires forall o :: o in outputs ==> o.Sendable()
    ensures Framer(Decide)
    ensures Scan(Decide, Concat(Written(outputs))) == Scanned(Written(outputs), [], false)
  {
    WrittenAreFrames(outputs);
    var whole: Bytes := [0x78, 0x78, 0x00, 0x0D, 0x0A];
    assert IsFrame(whole) && [] < whole;
    LosslessSplit(Written(outputs), [], whole);
    assert Concat(Written(outputs)) + [] == Concat(Written(outputs));
  }
}
