/** Teltonika streams: the framer, login frames, and the encoder the tests use. */
module TeltonikaStream {
  import opened Common
  import opened Bytes
  import opened Crc
  import opened Framing
  import opened Teltonika

  const LOGIN_PREFIX: Bytes := [0x00, 0x0F]
  const LOGIN_FRAME_LEN := 17

  predicate Digits(s: Bytes) {
    forall b :: b in s ==> 48 <= b <= 57
  }

  // ------------------------------------------------------------------
  // Framing; `limit` is the largest data field the gateway is configured for
  // ------------------------------------------------------------------

  function Decision(limit: nat, b: Bytes): Framing.Decision {
    if |b| < 4 then More
    else if b[..2] == LOGIN_PREFIX then
      if |b| < LOGIN_FRAME_LEN then More
      else if !Digits(b[2..LOGIN_FRAME_LEN]) then Reject
      else Emit(b[..LOGIN_FRAME_LEN], LOGIN_FRAME_LEN)
    else if b[..4] == PREAMBLE then
      if |b| < 8 then More
      else
        var length := FromBE(b[4..8]);
        if length == 0 || length > limit then Reject
        else if |b| < 8 + length + 4 then More
        else Emit(b[..8 + length + 4], 8 + length + 4)
    else Reject
  }

  function Decider(limit: nat): Decide {
    b => Decision(limit, b)
  }

  lemma DeciderIsFramer(limit: nat)
    ensures Advances(Decider(limit)) && Settled(Decider(limit)) && Framer(Decider(limit))
  {
    hide FromBE, Digits;
    var d := Decider(limit);
    forall b: Bytes, x: Bytes | !d(b).More?
      ensures d(b + x) == d(b)
    {
      assert (b + x)[..2] == b[..2] && (b + x)[..4] == b[..4];
      if |b| >= 8 {
        assert (b + x)[4..8] == b[4..8];
      }
      if |b| >= LOGIN_FRAME_LEN {
        assert (b + x)[2..LOGIN_FRAME_LEN] == b[2..LOGIN_FRAME_LEN];
      }
      if d(b).Emit? {
        assert (b + x)[..d(b).used] == b[..d(b).used];
      }
    }
  }

  /** A raised frame error hands nothing back, not even frames already split off. */
  datatype Extracted = Frames(frames: seq<Bytes>, rest: Bytes) | FrameError

  method ExtractFrames(limit: nat, input: Bytes) returns (r: Extracted)
    ensures Framer(Decider(limit))
    ensures var s := Scan(Decider(limit), input);
      r == if s.rejected then FrameError else Frames(s.frames, s.rest)
  {
    hide Scan, FromBE, Advances, Settled, Digits;
    DeciderIsFramer(limit);
    ghost var d := Decider(limit);
    var buffer := input;
    var frames: seq<Bytes> := [];
    assert Scan(d, input).After([]) == Scan(d, input);
    while |buffer| >= 4
      invariant Scan(d, input) == Scan(d, buffer).After(frames)
      decreases |buffer|
    {
      ScanStep(d, buffer, frames);
      if buffer[..2] == LOGIN_PREFIX {
        if |buffer| < LOGIN_FRAME_LEN {
          return Frames(frames, buffer);
        }
        if !Digits(buffer[2..LOGIN_FRAME_LEN]) {
          return FrameError;
        }
        frames := frames + [buffer[..LOGIN_FRAME_LEN]];
        buffer := buffer[LOGIN_FRAME_LEN..];
      } else if buffer[..4] == PREAMBLE {
        if |buffer| < 8 {
          return Frames(frames, buffer);
        }
        var length := FromBE(buffer[4..8]);
        if length == 0 || length > limit {
          return FrameError;
        }
        var total := 8 + length + 4;
        if |buffer| < total {
          return Frames(frames, buffer);
        }
        frames := frames + [buffer[..total]];
        buffer := buffer[total..];
      } else {
        return FrameError;
      }
    }
    ScanStep(d, buffer, frames);
    r := Frames(frames, buffer);
  }

  // ------------------------------------------------------------------
  // Login
  // ------------------------------------------------------------------

  predicate IsLoginFrame(frame: Bytes) {
    |frame| == LOGIN_FRAME_LEN && frame[..2] == LOGIN_PREFIX
  }

  /** The IMEI, as ASCII digits. */
  function ParseLogin(frame: Bytes): Result<Bytes> {
    if IsLoginFrame(frame) && Digits(frame[2..]) then Ok(frame[2..]) else Err(Malformed)
  }

  predicate IsImei(imei: Bytes) {
    |imei| == 15 && Digits(imei)
  }

  function LoginFrame(imei: Bytes): Bytes {
    LOGIN_PREFIX + imei
  }

  /** Login frames are exactly the prints of fifteen-digit IMEIs. */
  lemma LoginReadsBack(imei: Bytes, frame: Bytes)
    ensures IsImei(imei) ==> ParseLogin(LoginFrame(imei)) == Ok(imei)
    ensures ParseLogin(frame).Ok? ==>
      IsImei(ParseLogin(frame).value) && LoginFrame(ParseLogin(frame).value) == frame
  {
    assert LoginFrame(imei)[2..] == imei;
    if ParseLogin(frame).Ok? {
      assert frame == frame[..2] + frame[2..];
    }
  }

  // ------------------------------------------------------------------
  // Whole streams
  // ------------------------------------------------------------------

  lemma LoginIsWhole(limit: nat, imei: Bytes)
    requires IsImei(imei)
    ensures Whole(Decider(limit), LoginFrame(imei), LoginFrame(imei))
  {
    var f := LoginFrame(imei);
    assert f[..2] == LOGIN_PREFIX && f[2..LOGIN_FRAME_LEN] == imei && f[..LOGIN_FRAME_LEN] == f;
  }

  lemma PacketIsWhole(limit: nat, p: Packet)
    requires PacketFits(p) && |Body(p)| <= limit
    ensures Whole(Decider(limit), Print(p), Print(p))
    ensures !IsLoginFrame(Print(p))
  {
    hide Num, PrintRecords, Arc, FromBE;
    var f := Print(p);
    var body := Body(p);
    assert f[..4] == PREAMBLE && f[4..8] == Num(|body|, 4) && f[..|f|] == f;
    assert f[..4][1] == 0 && f[..2][1] == f[1] && LOGIN_PREFIX[1] == 0x0F;
    assert |body| > 0 && |body| < Pow256(4);
  }

  function Prints(ps: seq<Packet>): (frames: seq<Bytes>)
    ensures |frames| == |ps|
    ensures forall i :: 0 <= i < |ps| ==> frames[i] == Print(ps[i])
  {
    seq(|ps|, i requires 0 <= i < |ps| => Print(ps[i]))
  }

  /**
   A login followed by packets of in-range records, all within the size limit,
   frames and decodes back to the IMEI and the packets.
   */
  lemma StreamReadsBack(limit: nat, imei: Bytes, ps: seq<Packet>)
    requires IsImei(imei)
    requires forall p :: p in ps ==> PacketFits(p) && |Body(p)| <= limit
    ensures Framer(Decider(limit))
    ensures Scan(Decider(limit), LoginFrame(imei) + Concat(Prints(ps)))
         == Scanned([LoginFrame(imei)] + Prints(ps), [], false)
    ensures ParseLogin(LoginFrame(imei)) == Ok(imei)
    ensures forall i :: 0 <= i < |ps| ==> !IsLoginFrame(Prints(ps)[i]) && Parse(Prints(ps)[i]) == Ok(ps[i])
  {
    hide Print, Body, Parse, PacketFits, Advances, Settled, LoginFrame, ParseLogin, IsLoginFrame, Decision;
    DeciderIsFramer(limit);
    LoginReadsBack(imei, []);
    var frames := [LoginFrame(imei)] + Prints(ps);
    forall i | 0 <= i < |frames|
      ensures Whole(Decider(limit), frames[i], frames[i])
    {
      if i == 0 {
        LoginIsWhole(limit, imei);
      } else {
        assert ps[i - 1] in ps;
        PacketIsWhole(limit, ps[i - 1]);
      }
    }
    forall i | 0 <= i < |ps|
      ensures !IsLoginFrame(Prints(ps)[i]) && Parse(Prints(ps)[i]) == Ok(ps[i])
    {
      assert ps[i] in ps;
      PacketIsWhole(limit, ps[i]);
      ParseInvertsPrint(ps[i]);
    }
    ScanUnits(Decider(limit), frames, frames, []);
    assert frames[1..] == Prints(ps);
    assert Concat(frames) + [] == LoginFrame(imei) + Concat(Prints(ps));
    EmptyWaits(limit);
    assert frames + [] == frames;
  }

  lemma EmptyWaits(limit: nat)
    requires Advances(Decider(limit))
    ensures Scan(Decider(limit), []) == Scanned([], [], false)
  {}

  // ------------------------------------------------------------------
  // The acknowledgement
  // ------------------------------------------------------------------

  function Ack(accepted: nat): (b: Bytes)
    requires accepted < Pow256(4)
    ensures |b| == 4 && FromBE(b) == accepted
  {
    ToBE(accepted, 4)
  }

  // ------------------------------------------------------------------
  // The test encoder
  // ------------------------------------------------------------------

  function Sizes(gs: seq<seq<Entry>>): nat {
    if gs == [] then 0 else Sizes(gs[..|gs| - 1]) + |gs[|gs| - 1]|
  }

  /** The element as the encoder sends it: the total is counted, and only Codec 8E has variable-length values. */
  function Counted(io: Io, extended: bool): Io {
    var blobs := if extended then io.blobs else [];
    io.(total := Sizes(io.groups) + |blobs|, blobs := blobs)
  }

  lemma {:induction false} EntriesAppend(es: seq<Entry>, e: Entry, idLen: nat, width: nat)
    ensures PrintEntries(es + [e], idLen, width)
         == PrintEntries(es, idLen, width) + Num(e.id, idLen) + Num(e.value, width)
    decreases |es|
  {
    hide Num;
    if es == [] {
      assert (es + [e])[1..] == [];
      assert PrintEntries([e], idLen, width) == Num(e.id, idLen) + Num(e.value, width) + PrintEntries([], idLen, width);
    } else {
      EntriesAppend(es[1..], e, idLen, width);
      assert (es + [e])[1..] == es[1..] + [e] && (es + [e])[0] == es[0];
    }
  }

  lemma {:induction false} BlobsAppend(bs: seq<Blob>, b: Blob)
    ensures PrintBlobs(bs + [b]) == PrintBlobs(bs) + Num(b.id, 2) + Num(|b.bytes|, 2) + b.bytes
    decreases |bs|
  {
    hide Num;
    if bs == [] {
      assert (bs + [b])[1..] == [];
      assert PrintBlobs([b]) == Num(b.id, 2) + Num(|b.bytes|, 2) + b.bytes + PrintBlobs([]);
    } else {
      BlobsAppend(bs[1..], b);
      assert (bs + [b])[1..] == bs[1..] + [b] && (bs + [b])[0] == bs[0];
    }
  }

  lemma {:induction false} GroupsAppend(gs: seq<seq<Entry>>, g: seq<Entry>, idLen: nat, widths: seq<nat>, w: nat)
    requires |gs| == |widths|
    ensures PrintGroups(gs + [g], idLen, widths + [w])
         == PrintGroups(gs, idLen, widths) + (Num(|g|, idLen) + PrintEntries(g, idLen, w))
    decreases |gs|
  {
    hide Num, PrintEntries;
    if gs == [] {
      assert (gs + [g])[1..] == [] && (widths + [w])[1..] == [];
      assert PrintGroups([g], idLen, [w]) == Num(|g|, idLen) + PrintEntries(g, idLen, w) + PrintGroups([], idLen, []);
      assert [g] == gs + [g] && [w] == widths + [w];
    } else {
      GroupsAppend(gs[1..], g, idLen, widths[1..], w);
      assert (gs + [g])[1..] == gs[1..] + [g] && (widths + [w])[1..] == widths[1..] + [w];
      assert (gs + [g])[0] == gs[0] && (widths + [w])[0] == widths[0];
    }
  }

  /** None where the original raises OverflowError: a value that does not fit its width. */
  method EncodeGroup(g: seq<Entry>, idLen: nat, width: nat) returns (out: Option<Bytes>)
    ensures out == if GroupFits(g, idLen, width) then Some(Num(|g|, idLen) + PrintEntries(g, idLen, width)) else None
  {
    hide Num;
    if |g| >= Pow256(idLen) {
      return None;
    }
    var bytes := Num(|g|, idLen);
    assert g[..0] == [] && bytes + PrintEntries([], idLen, width) == bytes;
    for i := 0 to |g|
      invariant bytes == Num(|g|, idLen) + PrintEntries(g[..i], idLen, width)
      invariant forall k :: 0 <= k < i ==> EntryFits(g[k], idLen, width)
    {
      if g[i].id >= Pow256(idLen) || g[i].value >= Pow256(width) {
        assert g[i] in g;
        return None;
      }
      EntriesAppend(g[..i], g[i], idLen, width);
      assert g[..i] + [g[i]] == g[..i + 1];
      bytes := bytes + (Num(g[i].id, idLen) + Num(g[i].value, width));
    }
    assert g[..|g|] == g;
    out := Some(bytes);
  }

  method EncodeBlobs(bs: seq<Blob>) returns (out: Option<Bytes>)
    ensures out == if BlobsFit(bs, true) then Some(PrintBlobGroup(bs, true)) else None
  {
    hide Num;
    if |bs| >= Pow256(2) {
      return None;
    }
    var bytes := Num(|bs|, 2);
    assert bs[..0] == [] && bytes + PrintBlobs([]) == bytes;
    for i := 0 to |bs|
      invariant bytes == Num(|bs|, 2) + PrintBlobs(bs[..i])
      invariant forall k :: 0 <= k < i ==> BlobFits(bs[k])
    {
      if bs[i].id >= Pow256(2) || |bs[i].bytes| >= Pow256(2) {
        assert bs[i] in bs;
        return None;
      }
      BlobsAppend(bs[..i], bs[i]);
      assert bs[..i] + [bs[i]] == bs[..i + 1];
      bytes := bytes + (Num(bs[i].id, 2) + Num(|bs[i].bytes|, 2) + bs[i].bytes);
    }
    assert bs[..|bs|] == bs;
    out := Some(bytes);
  }

  method CountElements(io: Io) returns (total: nat)
    ensures total == Sizes(io.groups)
  {
    total := 0;
    for g := 0 to |io.groups|
      invariant total == Sizes(io.groups[..g])
    {
      assert io.groups[..g + 1][..|io.groups[..g + 1]| - 1] == io.groups[..g];
      total := total + |io.groups[g]|;
    }
    assert io.groups[..|io.groups|] == io.groups;
  }

  method EncodeGroups(groups: seq<seq<Entry>>, idLen: nat) returns (out: Option<Bytes>)
    requires |groups| == |WIDTHS|
    ensures out == if GroupsFit(groups, idLen, WIDTHS) then Some(PrintGroups(groups, idLen, WIDTHS)) else None
  {
    hide Num, PrintEntries, GroupFits;
    var bytes: Bytes := [];
    for g := 0 to |WIDTHS|
      invariant |groups[..g]| == |WIDTHS[..g]|
      invariant bytes == PrintGroups(groups[..g], idLen, WIDTHS[..g])
      invariant forall k :: 0 <= k < g ==> GroupFits(groups[k], idLen, WIDTHS[k])
    {
      var group := EncodeGroup(groups[g], idLen, WIDTHS[g]);
      if group.None? {
        return None;
      }
      GroupsAppend(groups[..g], groups[g], idLen, WIDTHS[..g], WIDTHS[g]);
      assert groups[..g] + [groups[g]] == groups[..g + 1] && WIDTHS[..g] + [WIDTHS[g]] == WIDTHS[..g + 1];
      bytes := bytes + group.value;
    }
    assert groups[..|WIDTHS|] == groups && WIDTHS[..|WIDTHS|] == WIDTHS;
    out := Some(bytes);
  }

  lemma SentFits(r: Record, extended: bool)
    ensures Encodable(r.(io := Counted(r.io, extended)), extended) <==>
      && r.millis < Pow256(8) && r.priority < Pow256(1)
      && InSigned(r.longitude, 4) && InSigned(r.latitude, 4) && InSigned(r.altitude, 2)
      && r.angle < Pow256(2) && r.satellites < Pow256(1) && r.speed < Pow256(2)
      && r.io.event < Pow256(IdLen(extended)) && Counted(r.io, extended).total < Pow256(IdLen(extended))
      && GroupsFit(r.io.groups, IdLen(extended), WIDTHS)
      && (extended ==> BlobsFit(r.io.blobs, true))
  {
    hide GroupsFit, Pow256, InSigned, Sizes;
  }

  /** The encoder prints what the parser's own printer prints, and raises exactly when some field does not fit. */
  method EncodeRecord(r: Record, extended: bool) returns (out: Option<Bytes>)
    requires |r.io.groups| == |WIDTHS|
    ensures var sent := r.(io := Counted(r.io, extended));
      out == if Encodable(sent, extended) then Some(PrintRecord(sent, extended)) else None
  {
    hide Num, SignedNum, PrintGroups, PrintBlobGroup, PrintRecord, Sizes, Wrap, GroupsFit, BlobsFit, Pow256, InSigned;
    var idLen := IdLen(extended);
    var total := CountElements(r.io);
    total := total + if extended then |r.io.blobs| else 0;
    SentFits(r, extended);
    hide Encodable;
    if r.millis >= Pow256(8) || r.priority >= Pow256(1) || !InSigned(r.longitude, 4) || !InSigned(r.latitude, 4)
       || !InSigned(r.altitude, 2) || r.angle >= Pow256(2) || r.satellites >= Pow256(1) || r.speed >= Pow256(2)
       || r.io.event >= Pow256(idLen) || total >= Pow256(idLen) {
      return None;
    }
    var bytes := Num(r.millis, 8) + (Num(r.priority, 1) + (SignedNum(r.longitude, 4) + (SignedNum(r.latitude, 4) +
             (SignedNum(r.altitude, 2) + (Num(r.angle, 2) + (Num(r.satellites, 1) + Num(r.speed, 2)))))));
    bytes := bytes + (Num(r.io.event, idLen) + Num(total, idLen));
    var groups := EncodeGroups(r.io.groups, idLen);
    if groups.None? {
      return None;
    }
    bytes := bytes + groups.value;
    if extended {
      var blobs := EncodeBlobs(r.io.blobs);
      if blobs.None? {
        return None;
      }
      bytes := bytes + blobs.value;
    } else {
      NoBlobGroup(Counted(r.io, extended).blobs);
      assert bytes + [] == bytes;
    }
    RecordLayout(r, extended, total);
    out := Some(bytes);
  }

  lemma NoBlobGroup(bs: seq<Blob>)
    ensures PrintBlobGroup(bs, false) == []
  {}

  lemma RecordLayout(r: Record, extended: bool, total: nat)
    requires |r.io.groups| == |WIDTHS|
    requires total == Counted(r.io, extended).total
    ensures PrintRecord(r.(io := Counted(r.io, extended)), extended)
         == PrintGps(r) + (Num(r.io.event, IdLen(extended)) + Num(total, IdLen(extended)))
          + PrintGroups(r.io.groups, IdLen(extended), WIDTHS) + PrintBlobGroup(Counted(r.io, extended).blobs, extended)
  {
    hide Num, PrintGroups, PrintBlobGroup, PrintGps;
    SameGps(r, Counted(r.io, extended));
  }

  /** The data field that wraps encoded records between both counts. */
  function Enclosed(records: seq<Bytes>, codec: byte): Bytes {
    [codec] + (Num(|records|, 1) + (Concat(records) + Num(|records|, 1)))
  }

  /** None where the original raises: a count or length that does not fit. */
  method BuildAvlPacket(records: seq<Bytes>, codec: byte) returns (packet: Option<Bytes>)
    ensures packet ==
      if |records| < 256 && |Enclosed(records, codec)| < Pow256(4) then Some(Wrap(Enclosed(records, codec))) else None
  {
    hide Num, Arc, Pow256;
    if |records| > 255 {
      return None;
    }
    var body: Bytes := [codec] + Num(|records|, 1);
    assert records[..0] == [] && body + Concat([]) == body;
    for i := 0 to |records|
      invariant body == [codec] + Num(|records|, 1) + Concat(records[..i])
    {
      ConcatAppend(records[..i], [records[i]]);
      assert Concat([records[i]]) == records[i] + Concat([]) == records[i];
      assert records[..i] + [records[i]] == records[..i + 1];
      body := body + records[i];
    }
    assert records[..|records|] == records;
    body := body + Num(|records|, 1);
    assert body == Enclosed(records, codec);
    if |body| >= Pow256(4) {
      return None;
    }
    var crc := Crc16Ibm(body);
    packet := Some(PREAMBLE + Num(|body|, 4) + body + Num(crc, 4));
  }

  function EncodedRecords(rs: seq<Record>, extended: bool): (bytes: seq<Bytes>)
    requires forall r :: r in rs ==> |r.io.groups| == |WIDTHS|
    ensures |bytes| == |rs|
    ensures forall i :: 0 <= i < |rs| ==> |rs[i].io.groups| == |WIDTHS| && bytes[i] == PrintRecord(rs[i], extended)
  {
    seq(|rs|, i requires 0 <= i < |rs| => assert rs[i] in rs; PrintRecord(rs[i], extended))
  }

  /** The records as the encoder sends them. */
  function AllCounted(rs: seq<Record>, extended: bool): (sent: seq<Record>)
    ensures |sent| == |rs|
    ensures forall i :: 0 <= i < |rs| ==> sent[i] == rs[i].(io := Counted(rs[i].io, extended))
  {
    seq(|rs|, i requires 0 <= i < |rs| => rs[i].(io := Counted(rs[i].io, extended)))
  }

  lemma {:induction false} RecordsConcat(rs: seq<Record>, extended: bool)
    requires forall r :: r in rs ==> |r.io.groups| == |WIDTHS|
    ensures Concat(EncodedRecords(rs, extended)) == PrintRecords(rs, extended)
  {
    hide PrintRecord;
    if rs != [] {
      assert rs[0] in rs;
      RecordsConcat(rs[1..], extended);
      assert EncodedRecords(rs, extended)[1..] == EncodedRecords(rs[1..], extended);
    }
  }

  /** Encoded records between both counts are the body of the printed packet. */
  lemma EnclosedIsBody(p: Packet)
    requires forall r :: r in p.records ==> |r.io.groups| == |WIDTHS|
    ensures Enclosed(EncodedRecords(p.records, p.codec == CODEC_8E), p.codec) == Body(p)
  {
    hide Num;
    RecordsConcat(p.records, p.codec == CODEC_8E);
  }

  predicate AllEncodable(rs: seq<Record>, extended: bool) {
    forall i :: 0 <= i < |rs| ==> Encodable(rs[i], extended)
  }

  /**
   The encoder from end to end: it raises exactly if some field, count or length
   does not fit, its packet is the printed one with the totals it counted, and
   that packet decodes to those records if their timestamps and codec are ones
   the parser knows.
   */
  method EncodePacket(rs: seq<Record>, codec: byte) returns (packet: Option<Bytes>)
    requires forall r :: r in rs ==> |r.io.groups| == |WIDTHS|
    ensures var p := Packet(codec, AllCounted(rs, codec == CODEC_8E));
      && (packet.Some? <==>
            AllEncodable(p.records, codec == CODEC_8E) && |rs| < 256 && |Body(p)| < Pow256(4))
      && (packet.Some? ==> packet.value == Print(p))
      && (packet.Some? && (codec == CODEC_8 || codec == CODEC_8E)
          && (forall r :: r in rs ==> r.millis < END_OF_TIME) ==>
            PacketFits(p) && Parse(packet.value) == Ok(p))
  {
    hide Num, Arc, Pow256, PrintRecord, PrintRecords, Parse, Encodable, Counted, Body, Wrap, Enclosed;
    var extended := codec == CODEC_8E;
    ghost var p := Packet(codec, AllCounted(rs, extended));
    var records: seq<Bytes> := [];
    CountedKeepsGroups(rs, extended);
    for i := 0 to |rs|
      invariant |records| == i
      invariant forall k :: 0 <= k < i ==> records[k] == PrintRecord(p.records[k], extended)
      invariant forall k :: 0 <= k < i ==> Encodable(p.records[k], extended)
    {
      var record := EncodeRecord(rs[i], extended);
      if record.None? {
        return None;
      }
      records := records + [record.value];
    }
    assert records == EncodedRecords(p.records, extended);
    EnclosedIsBody(p);
    packet := BuildAvlPacket(records, codec);
    if packet.Some? && (codec == CODEC_8 || codec == CODEC_8E) && forall r :: r in rs ==> r.millis < END_OF_TIME {
      CountedFits(rs, codec);
      ParseInvertsPrint(p);
    }
  }

  lemma CountedKeepsGroups(rs: seq<Record>, extended: bool)
    requires forall r :: r in rs ==> |r.io.groups| == |WIDTHS|
    ensures forall i :: 0 <= i < |rs| ==> |rs[i].io.groups| == |AllCounted(rs, extended)[i].io.groups| == |WIDTHS|
    ensures forall r :: r in AllCounted(rs, extended) ==> |r.io.groups| == |WIDTHS|
  {
    forall i | 0 <= i < |rs|
      ensures |rs[i].io.groups| == |WIDTHS|
    {
      assert rs[i] in rs;
    }
  }

  lemma CountedFits(rs: seq<Record>, codec: byte)
    requires codec == CODEC_8 || codec == CODEC_8E
    requires forall r :: r in rs ==> r.millis < END_OF_TIME
    requires |rs| < 256 && AllEncodable(AllCounted(rs, codec == CODEC_8E), codec == CODEC_8E)
    requires |Body(Packet(codec, AllCounted(rs, codec == CODEC_8E)))| < Pow256(4)
    ensures PacketFits(Packet(codec, AllCounted(rs, codec == CODEC_8E)))
  {
    hide Encodable, Counted, Body, Pow256;
    var sent := AllCounted(rs, codec == CODEC_8E);
    forall r | r in sent
      ensures RecordFits(r, codec == CODEC_8E)
    {
      var i :| 0 <= i < |sent| && sent[i] == r;
      assert rs[i] in rs;
    }
  }
}
