/** Teltonika Codec 8 and Codec 8 Extended: concrete syntax, printer, parser. */
module Teltonika {
  import opened Bytes
  import opened Crc

  const CODEC_8: byte := 0x08
  const CODEC_8E: byte := 0x8E
  const PREAMBLE: Bytes := [0, 0, 0, 0]

  /** The group widths of an IO element, in wire order. */
  const WIDTHS: seq<nat> := [1, 2, 4, 8]

  /** Milliseconds at the end of year 9999, past which no timestamp can be made. */
  const END_OF_TIME := 253402300800000

  const IO_IGNITION := 239

  datatype Error = Malformed | CrcMismatch | UnsupportedCodec(codec: byte)

  datatype Result<+T> = Ok(value: T) | Err(error: Error) {
    predicate IsFailure() { Err? }

    function PropagateFailure<U>(): Result<U>
      requires Err?
    {
      Err(error)
    }

    function Extract(): T
      requires Ok?
    {
      value
    }
  }

  // ------------------------------------------------------------------
  // Concrete syntax
  // ------------------------------------------------------------------

  datatype Entry = Entry(id: nat, value: nat)

  datatype Blob = Blob(id: nat, bytes: Bytes)

  /** `total` is on the wire but the parser ignores it; the groups keep their order. */
  datatype Io = Io(event: nat, total: nat, groups: seq<seq<Entry>>, blobs: seq<Blob>)

  /** Coordinates are in units of 1e-7 degrees, as transmitted. */
  datatype Record = Record(
    millis: nat, priority: nat, longitude: int, latitude: int, altitude: int,
    angle: nat, satellites: nat, speed: nat, io: Io)

  datatype Packet = Packet(codec: byte, records: seq<Record>)

  function IdLen(extended: bool): (n: nat)
    ensures n > 0
  {
    if extended then 2 else 1
  }

  predicate EntryFits(e: Entry, idLen: nat, width: nat) {
    e.id < Pow256(idLen) && e.value < Pow256(width)
  }

  predicate GroupFits(g: seq<Entry>, idLen: nat, width: nat) {
    |g| < Pow256(idLen) && forall e :: e in g ==> EntryFits(e, idLen, width)
  }

  predicate GroupsFit(gs: seq<seq<Entry>>, idLen: nat, widths: seq<nat>) {
    |gs| == |widths| && forall i :: 0 <= i < |gs| ==> GroupFits(gs[i], idLen, widths[i])
  }

  predicate BlobFits(b: Blob) {
    b.id < Pow256(2) && |b.bytes| < Pow256(2)
  }

  predicate BlobsFit(bs: seq<Blob>, extended: bool) {
    if extended then |bs| < Pow256(2) && forall b :: b in bs ==> BlobFits(b) else bs == []
  }

  predicate IoFits(io: Io, extended: bool) {
    && io.event < Pow256(IdLen(extended))
    && io.total < Pow256(IdLen(extended))
    && GroupsFit(io.groups, IdLen(extended), WIDTHS)
    && BlobsFit(io.blobs, extended)
  }

  /** Every field within its width on the wire. */
  predicate Encodable(r: Record, extended: bool) {
    && r.millis < Pow256(8)
    && r.priority < Pow256(1)
    && InSigned(r.longitude, 4) && InSigned(r.latitude, 4) && InSigned(r.altitude, 2)
    && r.angle < Pow256(2) && r.satellites < Pow256(1) && r.speed < Pow256(2)
    && IoFits(r.io, extended)
  }

  predicate RecordFits(r: Record, extended: bool) {
    Encodable(r, extended) && r.millis < END_OF_TIME
  }

  predicate RecordsFit(rs: seq<Record>, extended: bool) {
    forall r :: r in rs ==> RecordFits(r, extended)
  }

  predicate PacketFits(p: Packet) {
    && (p.codec == CODEC_8 || p.codec == CODEC_8E)
    && |p.records| < 256
    && RecordsFit(p.records, p.codec == CODEC_8E)
    && |Body(p)| < Pow256(4)
  }

  // ------------------------------------------------------------------
  // Printer
  // ------------------------------------------------------------------

  /** Big-endian print; out-of-range values are excluded by the `Fits` predicates. */
  function Num(v: nat, n: nat): (s: Bytes)
    ensures |s| == n
    ensures v < Pow256(n) ==> FromBE(s) == v
  {
    if v < Pow256(n) then ToBE(v, n) else ToBE(0, n)
  }

  function SignedNum(x: int, n: nat): (s: Bytes)
    ensures |s| == n
    ensures InSigned(x, n) ==> FromSignedBE(s) == x
  {
    if InSigned(x, n) then ToSignedBE(x, n) else ToBE(0, n)
  }

  function PrintEntries(es: seq<Entry>, idLen: nat, width: nat): Bytes {
    if es == [] then []
    else Num(es[0].id, idLen) + Num(es[0].value, width) + PrintEntries(es[1..], idLen, width)
  }

  function PrintGroups(gs: seq<seq<Entry>>, idLen: nat, widths: seq<nat>): Bytes
    requires |gs| == |widths|
  {
    if gs == [] then []
    else Num(|gs[0]|, idLen) + PrintEntries(gs[0], idLen, widths[0]) + PrintGroups(gs[1..], idLen, widths[1..])
  }

  function PrintBlobs(bs: seq<Blob>): Bytes {
    if bs == [] then []
    else Num(bs[0].id, 2) + Num(|bs[0].bytes|, 2) + bs[0].bytes + PrintBlobs(bs[1..])
  }

  function PrintBlobGroup(bs: seq<Blob>, extended: bool): Bytes {
    if extended then Num(|bs|, 2) + PrintBlobs(bs) else []
  }

  function PrintIo(io: Io, extended: bool): Bytes
    requires |io.groups| == |WIDTHS|
  {
    var n := IdLen(extended);
    Num(io.event, n) + (Num(io.total, n) + (PrintGroups(io.groups, n, WIDTHS) + PrintBlobGroup(io.blobs, extended)))
  }

  function PrintGps(r: Record): Bytes {
    Num(r.millis, 8) + (Num(r.priority, 1) + (SignedNum(r.longitude, 4) + (SignedNum(r.latitude, 4) +
    (SignedNum(r.altitude, 2) + (Num(r.angle, 2) + (Num(r.satellites, 1) + Num(r.speed, 2)))))))
  }

  function PrintRecord(r: Record, extended: bool): Bytes
    requires |r.io.groups| == |WIDTHS|
  {
    PrintGps(r) + PrintIo(r.io, extended)
  }

  function PrintRecords(rs: seq<Record>, extended: bool): Bytes {
    if rs == [] then []
    else
      (if |rs[0].io.groups| == |WIDTHS| then PrintRecord(rs[0], extended) else []) + PrintRecords(rs[1..], extended)
  }

  function Body(p: Packet): Bytes {
    [p.codec] + (Num(|p.records|, 1) + (PrintRecords(p.records, p.codec == CODEC_8E) + Num(|p.records|, 1)))
  }

  function Wrap(body: Bytes): Bytes {
    PREAMBLE + Num(|body|, 4) + body + Num(Arc(body), 4)
  }

  /** A complete AVL packet with its checksum. */
  function Print(p: Packet): Bytes {
    Wrap(Body(p))
  }

  // ------------------------------------------------------------------
  // Parser: each function reads from the front and returns what is left
  // ------------------------------------------------------------------

  type Parsed<T> = Result<(T, Bytes)>

  function Take(s: Bytes, n: nat): Parsed<Bytes> {
    if n > |s| then Err(Malformed) else Ok((s[..n], s[n..]))
  }

  function UInt(s: Bytes, n: nat): Parsed<nat> {
    var (chunk, rest) :- Take(s, n);
    Ok((FromBE(chunk), rest))
  }

  function SInt(s: Bytes, n: nat): Parsed<int> {
    var (chunk, rest) :- Take(s, n);
    Ok((FromSignedBE(chunk), rest))
  }

  function ReadEntries(s: Bytes, count: nat, idLen: nat, width: nat): Parsed<seq<Entry>>
    decreases count
  {
    if count == 0 then Ok(([], s))
    else
      var (id, s1) :- UInt(s, idLen);
      var (value, s2) :- UInt(s1, width);
      var (more, s3) :- ReadEntries(s2, count - 1, idLen, width);
      Ok(([Entry(id, value)] + more, s3))
  }

  function ReadGroups(s: Bytes, idLen: nat, widths: seq<nat>): Parsed<seq<seq<Entry>>>
    decreases |widths|
  {
    if widths == [] then Ok(([], s))
    else
      var (count, s1) :- UInt(s, idLen);
      var (entries, s2) :- ReadEntries(s1, count, idLen, widths[0]);
      var (more, s3) :- ReadGroups(s2, idLen, widths[1..]);
      Ok(([entries] + more, s3))
  }

  function ReadBlobs(s: Bytes, count: nat): Parsed<seq<Blob>>
    decreases count
  {
    if count == 0 then Ok(([], s))
    else
      var (id, s1) :- UInt(s, 2);
      var (length, s2) :- UInt(s1, 2);
      var (bytes, s3) :- Take(s2, length);
      var (more, s4) :- ReadBlobs(s3, count - 1);
      Ok(([Blob(id, bytes)] + more, s4))
  }

  function ReadBlobGroup(s: Bytes, extended: bool): Parsed<seq<Blob>> {
    if extended then
      var (count, s1) :- UInt(s, 2);
      ReadBlobs(s1, count)
    else Ok(([], s))
  }

  function ReadIo(s: Bytes, extended: bool): Parsed<Io> {
    var n := IdLen(extended);
    var (event, s1) :- UInt(s, n);
    var (total, s2) :- UInt(s1, n);
    var (groups, s3) :- ReadGroups(s2, n, WIDTHS);
    var (blobs, s4) :- ReadBlobGroup(s3, extended);
    Ok((Io(event, total, groups, blobs), s4))
  }

  const NO_IO := Io(0, 0, [], [])

  /** Everything of a record before its IO element. */
  function ReadGps(s: Bytes): Parsed<Record> {
    var (millis, s1) :- UInt(s, 8);
    if millis >= END_OF_TIME then Err(Malformed) else
    var (priority, s2) :- UInt(s1, 1);
    var (longitude, s3) :- SInt(s2, 4);
    var (latitude, s4) :- SInt(s3, 4);
    var (altitude, s5) :- SInt(s4, 2);
    var (angle, s6) :- UInt(s5, 2);
    var (satellites, s7) :- UInt(s6, 1);
    var (speed, s8) :- UInt(s7, 2);
    Ok((Record(millis, priority, longitude, latitude, altitude, angle, satellites, speed, NO_IO), s8))
  }

  function ReadRecord(s: Bytes, extended: bool): Parsed<Record> {
    var (gps, s1) :- ReadGps(s);
    var (io, s2) :- ReadIo(s1, extended);
    Ok((gps.(io := io), s2))
  }

  function ReadRecords(s: Bytes, count: nat, extended: bool): Parsed<seq<Record>>
    decreases count
  {
    if count == 0 then Ok(([], s))
    else
      var (r, s1) :- ReadRecord(s, extended);
      var (more, s2) :- ReadRecords(s1, count - 1, extended);
      Ok(([r] + more, s2))
  }

  /** The data field, after its codec byte has been looked at. */
  function ReadBody(data: Bytes): Result<Packet>
    requires |data| > 0
  {
    var codec := data[0];
    if codec != CODEC_8 && codec != CODEC_8E then Err(UnsupportedCodec(codec)) else
    var (count, s1) :- UInt(data[1..], 1);
    var (records, s2) :- ReadRecords(s1, count, codec == CODEC_8E);
    var (trailing, s3) :- UInt(s2, 1);
    if trailing != count || s3 != [] then Err(Malformed)
    else Ok(Packet(codec, records))
  }

  function Parse(frame: Bytes): Result<Packet> {
    if |frame| < 15 || frame[..4] != PREAMBLE then Err(Malformed) else
    var length := FromBE(frame[4..8]);
    if |frame| != 8 + length + 4 then Err(Malformed) else
    var data := frame[8..8 + length];
    if FromBE(frame[8 + length..]) != Arc(data) then Err(CrcMismatch)
    else ReadBody(data)
  }

  // ------------------------------------------------------------------
  // Reading what was printed
  // ------------------------------------------------------------------

  lemma TakeFront(chunk: Bytes, rest: Bytes)
    ensures Take(chunk + rest, |chunk|) == Ok((chunk, rest))
  {}

  lemma UIntFront(v: nat, n: nat, rest: Bytes)
    requires v < Pow256(n)
    ensures UInt(Num(v, n) + rest, n) == Ok((v, rest))
  {
    TakeFront(Num(v, n), rest);
  }

  lemma SIntFront(x: int, n: nat, rest: Bytes)
    requires InSigned(x, n)
    ensures SInt(SignedNum(x, n) + rest, n) == Ok((x, rest))
  {
    TakeFront(SignedNum(x, n), rest);
  }

  lemma {:induction false} EntriesReadBack(es: seq<Entry>, idLen: nat, width: nat, rest: Bytes)
    requires forall e :: e in es ==> EntryFits(e, idLen, width)
    ensures ReadEntries(PrintEntries(es, idLen, width) + rest, |es|, idLen, width) == Ok((es, rest))
  {
    hide Num, UInt;
    if es == [] {
      assert PrintEntries(es, idLen, width) + rest == rest;
    } else {
      var e := es[0];
      assert e in es;
      var tail := PrintEntries(es[1..], idLen, width) + rest;
      assert PrintEntries(es, idLen, width) + rest == Num(e.id, idLen) + (Num(e.value, width) + tail);
      UIntFront(e.id, idLen, Num(e.value, width) + tail);
      UIntFront(e.value, width, tail);
      EntriesReadBack(es[1..], idLen, width, rest);
      assert [e] + es[1..] == es;
    }
  }

  lemma {:induction false} GroupsReadBack(gs: seq<seq<Entry>>, idLen: nat, widths: seq<nat>, rest: Bytes)
    requires GroupsFit(gs, idLen, widths)
    ensures ReadGroups(PrintGroups(gs, idLen, widths) + rest, idLen, widths) == Ok((gs, rest))
  {
    hide Num, UInt, ReadEntries, PrintEntries, EntryFits;
    if gs == [] {
      assert PrintGroups(gs, idLen, widths) + rest == rest;
    } else {
      var g := gs[0];
      assert GroupFits(g, idLen, widths[0]);
      var tail := PrintGroups(gs[1..], idLen, widths[1..]) + rest;
      var entries := PrintEntries(g, idLen, widths[0]);
      assert PrintGroups(gs, idLen, widths) + rest == Num(|g|, idLen) + (entries + tail);
      UIntFront(|g|, idLen, entries + tail);
      EntriesReadBack(g, idLen, widths[0], tail);
      forall i | 0 <= i < |gs[1..]|
        ensures GroupFits(gs[1..][i], idLen, widths[1..][i])
      {
        assert GroupFits(gs[i + 1], idLen, widths[i + 1]);
      }
      GroupsReadBack(gs[1..], idLen, widths[1..], rest);
      assert [g] + gs[1..] == gs;
    }
  }

  /** Reading past one printed blob. */
  lemma BlobReadsBack(b: Blob, tail: Bytes, more: nat)
    requires BlobFits(b)
    ensures var s := Num(b.id, 2) + (Num(|b.bytes|, 2) + (b.bytes + tail));
      match ReadBlobs(tail, more)
      case Err(e) => ReadBlobs(s, more + 1) == Err(e)
      case Ok((bs, rest)) => ReadBlobs(s, more + 1) == Ok(([b] + bs, rest))
  {
    hide Num, UInt, Take, Pow256;
    UIntFront(b.id, 2, Num(|b.bytes|, 2) + (b.bytes + tail));
    UIntFront(|b.bytes|, 2, b.bytes + tail);
    TakeFront(b.bytes, tail);
  }

  lemma {:induction false} BlobsReadBack(bs: seq<Blob>, rest: Bytes)
    requires forall b :: b in bs ==> BlobFits(b)
    ensures ReadBlobs(PrintBlobs(bs) + rest, |bs|) == Ok((bs, rest))
  {
    hide Num, BlobFits;
    if bs == [] {
      assert PrintBlobs(bs) + rest == rest;
    } else {
      var b := bs[0];
      assert b in bs;
      var tail := PrintBlobs(bs[1..]) + rest;
      assert PrintBlobs(bs) + rest == Num(b.id, 2) + (Num(|b.bytes|, 2) + (b.bytes + tail));
      hide ReadBlobs, PrintBlobs;
      BlobReadsBack(b, tail, |bs| - 1);
      BlobsReadBack(bs[1..], rest);
      assert [b] + bs[1..] == bs;
    }
  }

  lemma BlobGroupReadsBack(bs: seq<Blob>, extended: bool, rest: Bytes)
    requires BlobsFit(bs, extended)
    ensures ReadBlobGroup(PrintBlobGroup(bs, extended) + rest, extended) == Ok((bs, rest))
  {
    hide Num, UInt, ReadBlobs, PrintBlobs, BlobFits;
    if extended {
      assert PrintBlobGroup(bs, extended) + rest == Num(|bs|, 2) + (PrintBlobs(bs) + rest);
      UIntFront(|bs|, 2, PrintBlobs(bs) + rest);
      BlobsReadBack(bs, rest);
    } else {
      assert PrintBlobGroup(bs, extended) + rest == rest;
    }
  }

  lemma IoReadsBack(io: Io, extended: bool, rest: Bytes)
    requires IoFits(io, extended)
    ensures ReadIo(PrintIo(io, extended) + rest, extended) == Ok((io, rest))
  {
    hide Num, UInt, ReadGroups, PrintGroups, ReadBlobGroup, PrintBlobGroup, BlobsFit;
    var n := IdLen(extended);
    var groups, blobs := PrintGroups(io.groups, n, WIDTHS), PrintBlobGroup(io.blobs, extended);
    assert PrintIo(io, extended) + rest == Num(io.event, n) + (Num(io.total, n) + (groups + (blobs + rest)));
    UIntFront(io.event, n, Num(io.total, n) + (groups + (blobs + rest)));
    UIntFront(io.total, n, groups + (blobs + rest));
    GroupsReadBack(io.groups, n, WIDTHS, blobs + rest);
    BlobGroupReadsBack(io.blobs, extended, rest);
  }

  lemma GpsReadsBack(r: Record, extended: bool, rest: Bytes)
    requires RecordFits(r, extended)
    ensures ReadGps(PrintGps(r) + rest) == Ok((r.(io := NO_IO), rest))
  {
    hide Num, SignedNum, UInt, SInt, IoFits, InSigned;
    var t8 := Num(r.speed, 2) + rest;
    var t7 := Num(r.satellites, 1) + t8;
    var t6 := Num(r.angle, 2) + t7;
    var t5 := SignedNum(r.altitude, 2) + t6;
    var t4 := SignedNum(r.latitude, 4) + t5;
    var t3 := SignedNum(r.longitude, 4) + t4;
    var t2 := Num(r.priority, 1) + t3;
    assert PrintGps(r) + rest == Num(r.millis, 8) + t2;
    UIntFront(r.millis, 8, t2);
    UIntFront(r.priority, 1, t3);
    SIntFront(r.longitude, 4, t4);
    SIntFront(r.latitude, 4, t5);
    SIntFront(r.altitude, 2, t6);
    UIntFront(r.angle, 2, t7);
    UIntFront(r.satellites, 1, t8);
    UIntFront(r.speed, 2, rest);
  }

  lemma {:induction false} RecordsReadBack(rs: seq<Record>, extended: bool, rest: Bytes)
    requires RecordsFit(rs, extended)
    ensures ReadRecords(PrintRecords(rs, extended) + rest, |rs|, extended) == Ok((rs, rest))
  {
    hide ReadGps, PrintGps, ReadIo, PrintIo;
    if rs == [] {
      assert PrintRecords(rs, extended) + rest == rest;
    } else {
      var r := rs[0];
      assert r in rs;
      var tail := PrintRecords(rs[1..], extended) + rest;
      var io := PrintIo(r.io, extended);
      assert PrintRecords(rs, extended) + rest == PrintGps(r) + (io + tail);
      GpsReadsBack(r, extended, io + tail);
      IoReadsBack(r.io, extended, tail);
      RecordsReadBack(rs[1..], extended, rest);
      assert [r] + rs[1..] == rs;
    }
  }

  lemma BodyReadsBack(p: Packet)
    requires PacketFits(p)
    ensures ReadBody(Body(p)) == Ok(p)
  {
    hide Num, UInt, PrintRecords, ReadRecords, RecordFits;
    Sizes();
    var body := Body(p);
    var count := Num(|p.records|, 1);
    var records := PrintRecords(p.records, p.codec == CODEC_8E);
    assert body[1..] == count + (records + count);
    assert count + [] == count;
    UIntFront(|p.records|, 1, records + count);
    RecordsReadBack(p.records, p.codec == CODEC_8E, count);
    UIntFront(|p.records|, 1, []);
  }

  /** Unwrapping a frame with its true length and checksum. */
  lemma WrappedReadsBack(body: Bytes)
    requires 3 <= |body| < Pow256(4)
    ensures Parse(Wrap(body)) == ReadBody(body)
  {
    hide ReadBody, FromBE, Num, Arc;
    Sizes();
    var frame := Wrap(body);
    assert frame[..4] == PREAMBLE && frame[4..8] == Num(|body|, 4);
    assert frame[8..8 + |body|] == body && frame[8 + |body|..] == Num(Arc(body), 4);
  }

  /** Decoding a printed packet of in-range records returns that packet, for both codecs. */
  lemma ParseInvertsPrint(p: Packet)
    requires PacketFits(p)
    ensures Parse(Print(p)) == Ok(p)
  {
    hide Parse, Wrap, ReadBody, Num, PrintRecords;
    BodyReadsBack(p);
    WrappedReadsBack(Body(p));
  }

  // ------------------------------------------------------------------
  // Printing what was read
  // ------------------------------------------------------------------

  lemma NumOfUInt(s: Bytes, n: nat)
    requires UInt(s, n).Ok?
    ensures var (v, rest) := UInt(s, n).value; v < Pow256(n) && s == Num(v, n) + rest
  {
    hide FromBE, ToBE, Pow256;
    NumIsToBE(s[..n]);
    assert |s[..n]| == n;
    assert s == s[..n] + s[n..];
  }

  lemma NumOfSInt(s: Bytes, n: nat)
    requires SInt(s, n).Ok?
    ensures var (x, rest) := SInt(s, n).value; InSigned(x, n) && s == SignedNum(x, n) + rest
  {
    hide FromSignedBE, ToSignedBE, Pow256;
    ToSignedBEInvertsFromSignedBE(s[..n]);
    assert |s[..n]| == n;
    assert s == s[..n] + s[n..];
  }

  lemma {:induction false} EntriesReprint(s: Bytes, count: nat, idLen: nat, width: nat)
    requires ReadEntries(s, count, idLen, width).Ok?
    ensures var (es, rest) := ReadEntries(s, count, idLen, width).value;
      && |es| == count
      && (forall e :: e in es ==> EntryFits(e, idLen, width))
      && s == PrintEntries(es, idLen, width) + rest
    decreases count
  {
    hide Num, UInt;
    if count > 0 {
      NumOfUInt(s, idLen);
      var (id, s1) := UInt(s, idLen).value;
      NumOfUInt(s1, width);
      var (value, s2) := UInt(s1, width).value;
      EntriesReprint(s2, count - 1, idLen, width);
      var (es, rest) := ReadEntries(s, count, idLen, width).value;
      assert es[1..] == ReadEntries(s2, count - 1, idLen, width).value.0;
      assert s == Num(id, idLen) + Num(value, width) + PrintEntries(es[1..], idLen, width) + rest;
    }
  }

  lemma {:induction false} GroupsReprint(s: Bytes, idLen: nat, widths: seq<nat>)
    requires ReadGroups(s, idLen, widths).Ok?
    ensures var (gs, rest) := ReadGroups(s, idLen, widths).value;
      && GroupsFit(gs, idLen, widths)
      && s == PrintGroups(gs, idLen, widths) + rest
    decreases |widths|
  {
    hide Num, UInt, ReadEntries, PrintEntries, EntryFits;
    if widths != [] {
      NumOfUInt(s, idLen);
      var (count, s1) := UInt(s, idLen).value;
      EntriesReprint(s1, count, idLen, widths[0]);
      var (entries, s2) := ReadEntries(s1, count, idLen, widths[0]).value;
      GroupsReprint(s2, idLen, widths[1..]);
      var (gs, rest) := ReadGroups(s, idLen, widths).value;
      assert gs[1..] == ReadGroups(s2, idLen, widths[1..]).value.0;
      assert GroupFits(gs[0], idLen, widths[0]);
      forall i | 0 <= i < |gs|
        ensures GroupFits(gs[i], idLen, widths[i])
      {
        if i > 0 {
          assert GroupFits(gs[1..][i - 1], idLen, widths[1..][i - 1]);
        }
      }
      assert s == Num(count, idLen) + PrintEntries(entries, idLen, widths[0])
               + PrintGroups(gs[1..], idLen, widths[1..]) + rest;
    }
  }

  lemma TakeSplits(s: Bytes, n: nat)
    requires Take(s, n).Ok?
    ensures var (chunk, rest) := Take(s, n).value; |chunk| == n && s == chunk + rest
  {}

  lemma {:induction false} BlobsReprint(s: Bytes, count: nat)
    requires ReadBlobs(s, count).Ok?
    ensures var (bs, rest) := ReadBlobs(s, count).value;
      && |bs| == count
      && (forall b :: b in bs ==> BlobFits(b))
      && s == PrintBlobs(bs) + rest
    decreases count
  {
    hide Num, UInt, Pow256, Take;
    if count > 0 {
      NumOfUInt(s, 2);
      var (id, s1) := UInt(s, 2).value;
      NumOfUInt(s1, 2);
      var (length, s2) := UInt(s1, 2).value;
      var (bytes, s3) := Take(s2, length).value;
      TakeSplits(s2, length);
      BlobsReprint(s3, count - 1);
      var (bs, rest) := ReadBlobs(s, count).value;
      assert bs[1..] == ReadBlobs(s3, count - 1).value.0;
      assert s == Num(id, 2) + Num(length, 2) + bytes + PrintBlobs(bs[1..]) + rest;
    }
  }

  lemma IoReprints(s: Bytes, extended: bool)
    requires ReadIo(s, extended).Ok?
    ensures var (io, rest) := ReadIo(s, extended).value;
      && IoFits(io, extended)
      && s == PrintIo(io, extended) + rest
  {
    hide Num, UInt, ReadGroups, PrintGroups, ReadBlobs, PrintBlobs, GroupsFit, BlobFits;
    var n := IdLen(extended);
    NumOfUInt(s, n);
    var (event, s1) := UInt(s, n).value;
    NumOfUInt(s1, n);
    var (total, s2) := UInt(s1, n).value;
    GroupsReprint(s2, n, WIDTHS);
    var (groups, s3) := ReadGroups(s2, n, WIDTHS).value;
    assert |groups| == |WIDTHS| by { GroupCount(s2, n, WIDTHS); }
    if extended {
      NumOfUInt(s3, 2);
      BlobsReprint(UInt(s3, 2).value.1, UInt(s3, 2).value.0);
    }
    var (blobs, s4) := ReadBlobGroup(s3, extended).value;
    assert s3 == PrintBlobGroup(blobs, extended) + s4;
  }

  lemma GroupCount(s: Bytes, idLen: nat, widths: seq<nat>)
    requires ReadGroups(s, idLen, widths).Ok?
    ensures |ReadGroups(s, idLen, widths).value.0| == |widths|
  {
    GroupsReprint(s, idLen, widths);
  }

  lemma GpsReprints(s: Bytes)
    requires ReadGps(s).Ok?
    ensures var (r, rest) := ReadGps(s).value;
      && s == PrintGps(r) + rest
      && (forall io, extended :: IoFits(io, extended) ==> RecordFits(r.(io := io), extended))
      && r.io == NO_IO
  {
    hide Num, SignedNum, UInt, SInt, InSigned, IoFits;
    NumOfUInt(s, 8);
    var s1 := UInt(s, 8).value.1;
    NumOfUInt(s1, 1);
    var s2 := UInt(s1, 1).value.1;
    NumOfSInt(s2, 4);
    var s3 := SInt(s2, 4).value.1;
    NumOfSInt(s3, 4);
    var s4 := SInt(s3, 4).value.1;
    NumOfSInt(s4, 2);
    var s5 := SInt(s4, 2).value.1;
    NumOfUInt(s5, 2);
    var s6 := UInt(s5, 2).value.1;
    NumOfUInt(s6, 1);
    var s7 := UInt(s6, 1).value.1;
    NumOfUInt(s7, 2);
    var (r, rest) := ReadGps(s).value;
    assert s7 == Num(r.speed, 2) + rest;
    assert s6 == Num(r.satellites, 1) + Num(r.speed, 2) + rest;
    assert s == PrintGps(r) + rest;
  }

  lemma {:induction false} RecordsReprint(s: Bytes, count: nat, extended: bool)
    requires ReadRecords(s, count, extended).Ok?
    ensures var (rs, rest) := ReadRecords(s, count, extended).value;
      && |rs| == count
      && RecordsFit(rs, extended)
      && s == PrintRecords(rs, extended) + rest
    decreases count
  {
    hide ReadGps, PrintGps, ReadIo, PrintIo, RecordFits;
    if count > 0 {
      GpsReprints(s);
      var (gps, s1) := ReadGps(s).value;
      IoReprints(s1, extended);
      var (io, s2) := ReadIo(s1, extended).value;
      var r := gps.(io := io);
      assert PrintGps(gps) == PrintGps(r) by { SameGps(gps, io); }
      RecordsReprint(s2, count - 1, extended);
      var (rs, rest) := ReadRecords(s, count, extended).value;
      assert rs[1..] == ReadRecords(s2, count - 1, extended).value.0;
      assert rs[0] == r && PrintRecord(r, extended) == PrintGps(r) + PrintIo(io, extended);
      assert s == PrintRecord(r, extended) + PrintRecords(rs[1..], extended) + rest;
    }
  }

  lemma SameGps(r: Record, io: Io)
    ensures PrintGps(r.(io := io)) == PrintGps(r)
  {}

  /** Every accepted frame is exactly the print of what was decoded from it. */
  lemma PrintInvertsParse(frame: Bytes)
    requires Parse(frame).Ok?
    ensures PacketFits(Parse(frame).value)
    ensures Print(Parse(frame).value) == frame
  {
    hide Num, UInt, FromBE, Arc, PrintRecords, ReadRecords, RecordsFit;
    var length := FromBE(frame[4..8]);
    var data := frame[8..8 + length];
    NumOfUInt(data[1..], 1);
    var (count, s1) := UInt(data[1..], 1).value;
    var extended := data[0] == CODEC_8E;
    RecordsReprint(s1, count, extended);
    var (records, s2) := ReadRecords(s1, count, extended).value;
    NumOfUInt(s2, 1);
    Sizes();
    var p := Parse(frame).value;
    assert data == Body(p);
    NumIsToBE(frame[4..8]);
    NumIsToBE(frame[8 + length..]);
    assert frame == frame[..4] + frame[4..8] + data + frame[8 + length..];
  }

  lemma NumIsToBE(s: Bytes)
    ensures Num(FromBE(s), |s|) == s
  {
    hide FromBE, ToBE, Pow256;
    ToBEInvertsFromBE(s);
  }

  // ------------------------------------------------------------------
  // Damage
  // ------------------------------------------------------------------

  lemma TopByteOfSmall(s: Bytes)
    requires |s| == 4 && FromBE(s) < 0x1_0000
    ensures s[0] == 0
  {
    assert s[..3][..2] == s[..2] && s[..2][..1] == s[..1] && s[..1][..0] == [];
    assert FromBE(s) == FromBE(s[..3]) * 256 + s[3] as int;
    assert FromBE(s[..3]) == FromBE(s[..2]) * 256 + s[2] as int;
    assert FromBE(s[..2]) == FromBE(s[..1]) * 256 + s[1] as int;
    assert FromBE(s[..1]) == s[0] as int;
  }

  /** A two-byte window cannot reach both the data and the checksum's last three bytes. */
  lemma WindowSplits(good: Bytes, bad: Bytes, n: nat, k: int)
    requires DiffersOnlyAt(good, bad, k) && |good| == 8 + n + 4
    ensures good[8..8 + n] == bad[8..8 + n] || good[9 + n..] == bad[9 + n..]
  {
    if k < 8 + n {
      assert good[9 + n..] == bad[9 + n..];
    } else {
      assert good[8..8 + n] == bad[8..8 + n];
    }
  }

  /** Two accepted frames never differ in just one byte or two adjacent ones. */
  lemma AcceptedFramesApart(good: Bytes, bad: Bytes, k: int)
    requires Parse(good).Ok? && Parse(bad).Ok?
    requires DiffersOnlyAt(good, bad, k)
    ensures good == bad
  {
    hide ReadBody, Arc, FromBE;
    FromBEInjective(good[4..8], bad[4..8]);
    var n := FromBE(good[4..8]);
    var data, data' := good[8..8 + n], bad[8..8 + n];
    var crc, crc' := good[8 + n..], bad[8 + n..];
    assert good == good[..4] + good[4..8] + data + crc;
    assert bad == bad[..4] + bad[4..8] + data' + crc';
    assert crc == [crc[0]] + good[9 + n..] && crc' == [crc'[0]] + bad[9 + n..];
    WindowSplits(good, bad, n, k);
    TopByteOfSmall(crc);
    TopByteOfSmall(crc');
    FromBEInjective(crc, crc');
    ArcDetects(data, data', k - 8);
  }

  /**
   Change one byte, or two adjacent bytes, anywhere in an accepted frame -
   preamble, length, data or checksum - and it is no longer accepted.
   */
  lemma DamageIsDetected(good: Bytes, bad: Bytes, k: int)
    requires Parse(good).Ok?
    requires DiffersOnlyAt(good, bad, k) && good != bad
    ensures Parse(bad).Err?
  {
    hide Parse;
    if Parse(bad).Ok? {
      AcceptedFramesApart(good, bad, k);
      assert false;
    }
  }

  lemma ArcDetects(data: Bytes, data': Bytes, k: int)
    requires |data| >= 2 && DiffersOnlyAt(data, data', k)
    ensures Arc(data) == Arc(data') <==> data == data'
  {
    hide Fold, Value;
    DetectsAdjacentDamage(POLY_ARC, 0, data, data', k);
    ValueInjective(Fold(POLY_ARC, 0, data), Fold(POLY_ARC, 0, data'));
  }
}
