/**
 Where every field of an accepted AVL packet lies in its bytes, by offset: the
 wire format stated once more, independently of the parser and the printer.
 */
module TeltonikaLayout {
  import opened Bytes
  import opened Crc
  import opened Teltonika

  // ------------------------------------------------------------------
  // Offsets
  // ------------------------------------------------------------------

  /** Bytes in front of the first record: preamble, length, codec, count. */
  const FIRST_RECORD := 10

  /** Bytes of a record in front of its IO element. */
  const GPS_SIZE := 24

  function GroupSize(g: seq<Entry>, idLen: nat, width: nat): nat {
    idLen + |g| * (idLen + width)
  }

  function GroupsSize(gs: seq<seq<Entry>>, idLen: nat, widths: seq<nat>): nat
    requires |gs| == |widths|
  {
    if gs == [] then 0 else GroupSize(gs[0], idLen, widths[0]) + GroupsSize(gs[1..], idLen, widths[1..])
  }

  function BlobsSize(bs: seq<Blob>): nat {
    if bs == [] then 0 else 4 + |bs[0].bytes| + BlobsSize(bs[1..])
  }

  function IoSize(io: Io, extended: bool): nat
    requires |io.groups| == |WIDTHS|
  {
    2 * IdLen(extended) + GroupsSize(io.groups, IdLen(extended), WIDTHS)
    + if extended then 2 + BlobsSize(io.blobs) else 0
  }

  /** The length of the first `k` records. */
  function RecordsSize(rs: seq<Record>, extended: bool, k: nat): nat
    requires k <= |rs| && forall r :: r in rs ==> |r.io.groups| == |WIDTHS|
    decreases k
  {
    if k == 0 then 0
    else assert rs[k - 1] in rs; RecordsSize(rs, extended, k - 1) + GPS_SIZE + IoSize(rs[k - 1].io, extended)
  }

  /** Where record `k` begins in the frame. */
  function Start(p: Packet, k: nat): nat
    requires k <= |p.records| && forall r :: r in p.records ==> |r.io.groups| == |WIDTHS|
  {
    FIRST_RECORD + RecordsSize(p.records, p.codec == CODEC_8E, k)
  }

  lemma StartOfFirst(p: Packet)
    requires forall r :: r in p.records ==> |r.io.groups| == |WIDTHS|
    ensures Start(p, 0) == 10
  {}

  // ------------------------------------------------------------------
  // Sizes of what is printed
  // ------------------------------------------------------------------

  lemma {:induction false} EntriesLength(es: seq<Entry>, idLen: nat, width: nat)
    ensures |PrintEntries(es, idLen, width)| == |es| * (idLen + width)
  {
    hide Num;
    if es != [] {
      EntriesLength(es[1..], idLen, width);
      assert |es| * (idLen + width) == (|es| - 1) * (idLen + width) + (idLen + width);
    }
  }

  lemma {:induction false} GroupsLength(gs: seq<seq<Entry>>, idLen: nat, widths: seq<nat>)
    requires |gs| == |widths|
    ensures |PrintGroups(gs, idLen, widths)| == GroupsSize(gs, idLen, widths)
  {
    hide Num, PrintEntries;
    if gs != [] {
      EntriesLength(gs[0], idLen, widths[0]);
      GroupsLength(gs[1..], idLen, widths[1..]);
    }
  }

  lemma {:induction false} BlobsLength(bs: seq<Blob>)
    ensures |PrintBlobs(bs)| == BlobsSize(bs)
  {
    hide Num;
    if bs != [] {
      BlobsLength(bs[1..]);
    }
  }

  lemma RecordLength(r: Record, extended: bool)
    requires |r.io.groups| == |WIDTHS|
    ensures |PrintGps(r)| == GPS_SIZE
    ensures |PrintIo(r.io, extended)| == IoSize(r.io, extended)
  {
    hide Num, SignedNum, PrintGroups, PrintBlobs, GroupsSize, BlobsSize;
    GroupsLength(r.io.groups, IdLen(extended), WIDTHS);
    BlobsLength(r.io.blobs);
  }

  lemma FitsGroups(rs: seq<Record>, extended: bool)
    requires RecordsFit(rs, extended)
    ensures forall r :: r in rs ==> |r.io.groups| == |WIDTHS|
  {
    forall r | r in rs
      ensures |r.io.groups| == |WIDTHS|
    {
      assert RecordFits(r, extended);
    }
  }

  lemma PrintRecordsStep(rs: seq<Record>, extended: bool)
    requires rs != [] && |rs[0].io.groups| == |WIDTHS|
    ensures PrintRecords(rs, extended) == PrintRecord(rs[0], extended) + PrintRecords(rs[1..], extended)
  {}

  lemma {:induction false} RecordsSizeShift(rs: seq<Record>, extended: bool, k: nat)
    requires 0 < k <= |rs| && forall r :: r in rs ==> |r.io.groups| == |WIDTHS|
    ensures |rs[0].io.groups| == |WIDTHS|
    ensures RecordsSize(rs, extended, k)
         == GPS_SIZE + IoSize(rs[0].io, extended) + RecordsSize(rs[1..], extended, k - 1)
    decreases k
  {
    hide IoSize;
    assert rs[0] in rs;
    if k > 1 {
      RecordsSizeShift(rs, extended, k - 1);
      assert rs[1..][k - 2] == rs[k - 1];
    }
  }

  /** Record `k` among the printed records, and how much is in front of it. */
  lemma {:induction false} RecordsSplit(rs: seq<Record>, extended: bool, k: nat) returns (before: Bytes, behind: Bytes)
    requires k < |rs| && forall r :: r in rs ==> |r.io.groups| == |WIDTHS|
    ensures |rs[k].io.groups| == |WIDTHS|
    ensures PrintRecords(rs, extended) == before + PrintRecord(rs[k], extended) + behind
    ensures |before| == RecordsSize(rs, extended, k)
    decreases k
  {
    hide PrintRecord, PrintRecords, IoSize;
    assert rs[0] in rs && rs[k] in rs;
    PrintRecordsStep(rs, extended);
    if k == 0 {
      before, behind := [], PrintRecords(rs[1..], extended);
    } else {
      var b, a := RecordsSplit(rs[1..], extended, k - 1);
      RecordsSizeShift(rs, extended, k);
      PrintedLength(rs[0], extended);
      before, behind := PrintRecord(rs[0], extended) + b, a;
      assert rs[1..][k - 1] == rs[k];
      assert PrintRecord(rs[0], extended) + (b + PrintRecord(rs[k], extended) + a)
          == before + PrintRecord(rs[k], extended) + behind;
    }
  }

  lemma PrintedLength(r: Record, extended: bool)
    requires |r.io.groups| == |WIDTHS|
    ensures |PrintRecord(r, extended)| == GPS_SIZE + IoSize(r.io, extended)
  {
    hide PrintGps, PrintIo, IoSize;
    RecordLength(r, extended);
  }

  /** Record `k` in the whole packet. */
  lemma RecordAt(p: Packet, k: nat) returns (before: Bytes, behind: Bytes)
    requires PacketFits(p) && k < |p.records|
    ensures forall r :: r in p.records ==> |r.io.groups| == |WIDTHS|
    ensures |p.records[k].io.groups| == |WIDTHS|
    ensures Print(p) == before + (PrintGps(p.records[k]) + (PrintIo(p.records[k].io, p.codec == CODEC_8E) + behind))
    ensures |before| == Start(p, k)
  {
    hide Num, PrintRecords, PrintGps, PrintIo, RecordsFit, RecordsSize, Arc;
    var extended := p.codec == CODEC_8E;
    FitsGroups(p.records, extended);
    var b, a := RecordsSplit(p.records, extended, k);
    var n := |Body(p)|;
    before := PREAMBLE + Num(n, 4) + [p.codec] + Num(|p.records|, 1) + b;
    behind := a + Num(|p.records|, 1) + Num(Arc(Body(p)), 4);
    assert |PREAMBLE| == 4;
  }

  // ------------------------------------------------------------------
  // The fields in front of the IO element
  // ------------------------------------------------------------------

  /** The record's fields are the bytes from `o` on, field by field. */
  ghost predicate GpsAt(b: Bytes, o: nat, r: Record)
    requires o + GPS_SIZE <= |b|
  {
    && r.millis == FromBE(b[o..o + 8])
    && r.priority == b[o + 8]
    && r.longitude == FromSignedBE(b[o + 9..o + 13])
    && r.latitude == FromSignedBE(b[o + 13..o + 17])
    && r.altitude == FromSignedBE(b[o + 17..o + 19])
    && r.angle == FromBE(b[o + 19..o + 21])
    && r.satellites == b[o + 21]
    && r.speed == FromBE(b[o + 22..o + 24])
  }

  lemma OneByte(b: Bytes, v: nat)
    requires |b| == 1 && FromBE(b) == v
    ensures b[0] == v
  {
    assert FromBE(b[..0]) == 0;
  }

  /** Where the parts of a record's printed fields lie. */
  lemma GpsParts(r: Record)
    ensures var s := PrintGps(r);
      && |s| == 24
      && s[..8] == Num(r.millis, 8) && s[8..9] == Num(r.priority, 1)
      && s[9..13] == SignedNum(r.longitude, 4) && s[13..17] == SignedNum(r.latitude, 4)
      && s[17..19] == SignedNum(r.altitude, 2) && s[19..21] == Num(r.angle, 2)
      && s[21..22] == Num(r.satellites, 1) && s[22..24] == Num(r.speed, 2)
  {
    hide Num, SignedNum;
  }

  lemma Within(b: Bytes, before: Bytes, s: Bytes, behind: Bytes, i: nat, j: nat)
    requires b == before + (s + behind) && i <= j <= |s|
    ensures |before| + j <= |b| && b[|before| + i..|before| + j] == s[i..j]
  {}

  lemma GpsLies(b: Bytes, before: Bytes, r: Record, extended: bool, behind: Bytes)
    requires RecordFits(r, extended) && b == before + (PrintGps(r) + behind)
    ensures |before| + GPS_SIZE <= |b|
    ensures GpsAt(b, |before|, r)
  {
    hide Num, SignedNum, FromBE, FromSignedBE, IoFits, PrintGps;
    var o, s := |before|, PrintGps(r);
    GpsParts(r);
    Within(b, before, s, behind, 0, 8);
    Within(b, before, s, behind, 8, 9);
    Within(b, before, s, behind, 9, 13);
    Within(b, before, s, behind, 13, 17);
    Within(b, before, s, behind, 17, 19);
    Within(b, before, s, behind, 19, 21);
    Within(b, before, s, behind, 21, 22);
    Within(b, before, s, behind, 22, 24);
    OneByte(b[o + 8..o + 9], r.priority);
    OneByte(b[o + 21..o + 22], r.satellites);
  }

  /** In an accepted frame every field of every record lies where the format puts it. */
  lemma FieldsLie(frame: Bytes, k: nat)
    requires Parse(frame).Ok? && k < |Parse(frame).value.records|
    ensures PacketFits(Parse(frame).value)
    ensures forall r :: r in Parse(frame).value.records ==> |r.io.groups| == |WIDTHS|
    ensures Start(Parse(frame).value, k) + GPS_SIZE <= |frame|
    ensures GpsAt(frame, Start(Parse(frame).value, k), Parse(frame).value.records[k])
  {
    hide Parse, Print, PrintGps, PrintIo, GpsAt, Start;
    var p := Parse(frame).value;
    PrintInvertsParse(frame);
    var before, behind := RecordAt(p, k);
    assert p.records[k] in p.records;
    GpsLies(frame, before, p.records[k], p.codec == CODEC_8E, PrintIo(p.records[k].io, p.codec == CODEC_8E) + behind);
  }

  /**
   What stands around the records: four zero bytes, the length of the data
   field, the codec and the count in front of them, the count again and the
   checksum of the data field behind them.
   */
  lemma HeaderLies(frame: Bytes)
    requires Parse(frame).Ok?
    ensures |frame| >= 15
    ensures frame[0] == 0 && frame[1] == 0 && frame[2] == 0 && frame[3] == 0
    ensures FromBE(frame[4..8]) == |frame| - 12
    ensures Parse(frame).value.codec == frame[8] && (frame[8] == 0x08 || frame[8] == 0x8E)
    ensures |Parse(frame).value.records| == frame[9] == frame[|frame| - 5]
    ensures FromBE(frame[|frame| - 4..]) == Arc(frame[8..|frame| - 4])
  {
    hide FromBE, ReadRecords, PrintRecords, Num, Arc, RecordsFit;
    var p := Parse(frame).value;
    PrintInvertsParse(frame);
    assert frame[..4] == PREAMBLE;
    assert frame[..4] == [frame[0], frame[1], frame[2], frame[3]];
    hide Parse;
    var body := Body(p);
    assert frame[8..9] == [p.codec];
    assert frame[9..10] == Num(|p.records|, 1);
    assert frame[|frame| - 5..|frame| - 4] == Num(|p.records|, 1);
    Sizes();
    OneByte(frame[9..10], |p.records|);
    OneByte(frame[|frame| - 5..|frame| - 4], |p.records|);
  }

  // ------------------------------------------------------------------
  // The IO element
  // ------------------------------------------------------------------

  /** The first `g` groups of an IO element. */
  function GroupStart(gs: seq<seq<Entry>>, idLen: nat, widths: seq<nat>, g: nat): nat
    requires g <= |gs| == |widths|
    decreases g
  {
    if g == 0 then 0
    else GroupStart(gs, idLen, widths, g - 1) + GroupSize(gs[g - 1], idLen, widths[g - 1])
  }

  /** Where group `g` begins in an IO element: behind the event id, the total and the groups before it. */
  function GroupOffset(io: Io, extended: bool, g: nat): nat
    requires |io.groups| == |WIDTHS| && g <= |WIDTHS|
  {
    2 * IdLen(extended) + GroupStart(io.groups, IdLen(extended), WIDTHS, g)
  }

  /** And its entry `j`, behind the group's count and the entries before it. */
  function EntryOffset(io: Io, extended: bool, g: nat, j: nat): nat
    requires |io.groups| == |WIDTHS| && g < |WIDTHS|
  {
    GroupOffset(io, extended, g) + IdLen(extended) + j * (IdLen(extended) + WIDTHS[g])
  }

  /** The bytes at `at` hold the big-endian integer. */
  predicate IntAt(b: Bytes, at: nat, n: nat, v: nat) {
    at + n <= |b| && FromBE(b[at..at + n]) == v
  }

  /** The group's count, and the entry's id and value, lie where the format puts them. */
  ghost predicate EntryAt(b: Bytes, o: nat, io: Io, extended: bool, g: nat, j: nat)
    requires |io.groups| == |WIDTHS| && g < |WIDTHS| && j < |io.groups[g]|
  {
    var n, at := IdLen(extended), o + EntryOffset(io, extended, g, j);
    && IntAt(b, o + GroupOffset(io, extended, g), n, |io.groups[g]|)
    && IntAt(b, at, n, io.groups[g][j].id)
    && IntAt(b, at + n, WIDTHS[g], io.groups[g][j].value)
  }

  lemma {:induction false} EntriesSplit(es: seq<Entry>, idLen: nat, width: nat, j: nat)
    returns (before: Bytes, behind: Bytes)
    requires j < |es|
    ensures PrintEntries(es, idLen, width) == before + (Num(es[j].id, idLen) + (Num(es[j].value, width) + behind))
    ensures |before| == j * (idLen + width)
    decreases j
  {
    hide Num;
    if j == 0 {
      before, behind := [], PrintEntries(es[1..], idLen, width);
    } else {
      var b, a := EntriesSplit(es[1..], idLen, width, j - 1);
      before, behind := Num(es[0].id, idLen) + Num(es[0].value, width) + b, a;
      assert j * (idLen + width) == (j - 1) * (idLen + width) + (idLen + width);
    }
  }

  lemma {:induction false} GroupStartShift(gs: seq<seq<Entry>>, idLen: nat, widths: seq<nat>, g: nat)
    requires 0 < g <= |gs| == |widths|
    ensures GroupStart(gs, idLen, widths, g)
         == GroupSize(gs[0], idLen, widths[0]) + GroupStart(gs[1..], idLen, widths[1..], g - 1)
    decreases g
  {
    hide GroupSize;
    if g > 1 {
      GroupStartShift(gs, idLen, widths, g - 1);
    }
  }

  lemma {:induction false} GroupsSplit(gs: seq<seq<Entry>>, idLen: nat, widths: seq<nat>, g: nat)
    returns (before: Bytes, behind: Bytes)
    requires g < |gs| == |widths|
    ensures PrintGroups(gs, idLen, widths)
         == before + (Num(|gs[g]|, idLen) + (PrintEntries(gs[g], idLen, widths[g]) + behind))
    ensures |before| == GroupStart(gs, idLen, widths, g)
    decreases g
  {
    hide Num, PrintEntries;
    if g == 0 {
      before, behind := [], PrintGroups(gs[1..], idLen, widths[1..]);
    } else {
      var b, a := GroupsSplit(gs[1..], idLen, widths[1..], g - 1);
      EntriesLength(gs[0], idLen, widths[0]);
      GroupStartShift(gs, idLen, widths, g);
      before, behind := Num(|gs[0]|, idLen) + PrintEntries(gs[0], idLen, widths[0]) + b, a;
    }
  }

  /** A value inside a longer byte string. */
  lemma NumLies(b: Bytes, before: Bytes, v: nat, n: nat, behind: Bytes)
    requires v < Pow256(n) && b == before + (Num(v, n) + behind)
    ensures IntAt(b, |before|, n, v)
  {
    hide Num, FromBE;
    assert b[|before|..|before| + n] == Num(v, n);
  }

  lemma EntryLies(b: Bytes, before: Bytes, io: Io, extended: bool, behind: Bytes, g: nat, j: nat)
    requires IoFits(io, extended) && b == before + (PrintIo(io, extended) + behind)
    requires g < |WIDTHS| && j < |io.groups[g]|
    ensures EntryAt(b, |before|, io, extended, g, j)
  {
    hide Num, IntAt, PrintGroups, PrintEntries, PrintBlobGroup, Pow256, BlobsFit, GroupStart;
    var n, w := IdLen(extended), WIDTHS[g];
    assert GroupFits(io.groups[g], n, w);
    assert io.groups[g][j] in io.groups[g];
    var e := io.groups[g][j];
    var gb, ga := GroupsSplit(io.groups, n, WIDTHS, g);
    var eb, ea := EntriesSplit(io.groups[g], n, w, j);
    var head := before + Num(io.event, n) + Num(io.total, n) + gb;
    var tail := PrintBlobGroup(io.blobs, extended) + behind;
    assert b == head + (Num(|io.groups[g]|, n) + (PrintEntries(io.groups[g], n, w) + ga + tail));
    NumLies(b, head, |io.groups[g]|, n, PrintEntries(io.groups[g], n, w) + ga + tail);
    var front := head + Num(|io.groups[g]|, n) + eb;
    assert b == front + (Num(e.id, n) + (Num(e.value, w) + (ea + ga + tail)));
    NumLies(b, front, e.id, n, Num(e.value, w) + (ea + ga + tail));
    assert b == (front + Num(e.id, n)) + (Num(e.value, w) + (ea + ga + tail));
    NumLies(b, front + Num(e.id, n), e.value, w, ea + ga + tail);
  }

  /** In an accepted frame every element of every group lies where the format puts it. */
  lemma ElementsLie(frame: Bytes, k: nat, g: nat, j: nat)
    requires Parse(frame).Ok? && k < |Parse(frame).value.records|
    requires g < |WIDTHS| == |Parse(frame).value.records[k].io.groups|
    requires j < |Parse(frame).value.records[k].io.groups[g]|
    ensures forall r :: r in Parse(frame).value.records ==> |r.io.groups| == |WIDTHS|
    ensures var p := Parse(frame).value;
      EntryAt(frame, Start(p, k) + GPS_SIZE, p.records[k].io, p.codec == CODEC_8E, g, j)
  {
    hide Parse, Print, PrintGps, PrintIo, EntryAt, Start;
    var p := Parse(frame).value;
    PrintInvertsParse(frame);
    var before, behind := RecordAt(p, k);
    var r, extended := p.records[k], p.codec == CODEC_8E;
    assert r in p.records && RecordFits(r, extended);
    RecordLength(r, extended);
    assert frame == (before + PrintGps(r)) + (PrintIo(r.io, extended) + behind);
    EntryLies(frame, before + PrintGps(r), r.io, extended, behind, g, j);
  }

  /** The event id stands right behind the fields. */
  lemma EventLies(frame: Bytes, k: nat)
    requires Parse(frame).Ok? && k < |Parse(frame).value.records|
    ensures forall r :: r in Parse(frame).value.records ==> |r.io.groups| == |WIDTHS|
    ensures var p := Parse(frame).value;
      var o, n := Start(p, k) + GPS_SIZE, IdLen(p.codec == CODEC_8E);
      IntAt(frame, o, n, p.records[k].io.event)
  {
    hide Parse, Print, PrintGps, PrintGroups, PrintBlobGroup, Start, Num, IntAt;
    var p := Parse(frame).value;
    PrintInvertsParse(frame);
    var before, behind := RecordAt(p, k);
    var r, extended := p.records[k], p.codec == CODEC_8E;
    var n := IdLen(extended);
    assert r in p.records && RecordFits(r, extended);
    RecordLength(r, extended);
    var event, rest := Num(r.io.event, n), Num(r.io.total, n) + (PrintGroups(r.io.groups, n, WIDTHS)
                                                             + PrintBlobGroup(r.io.blobs, extended));
    EventFront(before, PrintGps(r), event, rest, behind);
    NumLies(frame, before + PrintGps(r), r.io.event, n, rest + behind);
  }

  lemma EventFront(before: Bytes, gps: Bytes, event: Bytes, rest: Bytes, behind: Bytes)
    ensures before + (gps + ((event + rest) + behind)) == (before + gps) + (event + (rest + behind))
  {}

  // ------------------------------------------------------------------
  // Variable-length values
  // ------------------------------------------------------------------

  function BlobStart(bs: seq<Blob>, j: nat): nat
    requires j <= |bs|
    decreases j
  {
    if j == 0 then 0 else BlobStart(bs, j - 1) + 4 + |bs[j - 1].bytes|
  }

  /** Value `j` of Codec 8E's last group: its id, its length, its bytes. */
  ghost predicate BlobAt(b: Bytes, o: nat, io: Io, j: nat)
    requires |io.groups| == |WIDTHS| && j < |io.blobs|
  {
    var at := o + GroupOffset(io, true, |WIDTHS|);
    var v := at + 2 + BlobStart(io.blobs, j);
    && IntAt(b, at, 2, |io.blobs|)
    && OneBlobAt(b, v, io.blobs[j])
  }

  predicate OneBlobAt(b: Bytes, o: nat, v: Blob) {
    IntAt(b, o, 2, v.id) && IntAt(b, o + 2, 2, |v.bytes|)
    && o + 4 + |v.bytes| <= |b| && b[o + 4..o + 4 + |v.bytes|] == v.bytes
  }

  lemma {:induction false} BlobStartShift(bs: seq<Blob>, j: nat)
    requires 0 < j <= |bs|
    ensures BlobStart(bs, j) == 4 + |bs[0].bytes| + BlobStart(bs[1..], j - 1)
    decreases j
  {
    if j > 1 {
      BlobStartShift(bs, j - 1);
    }
  }

  lemma {:induction false} BlobsSplit(bs: seq<Blob>, j: nat) returns (before: Bytes, behind: Bytes)
    requires j < |bs|
    ensures PrintBlobs(bs) == before + (Num(bs[j].id, 2) + (Num(|bs[j].bytes|, 2) + (bs[j].bytes + behind)))
    ensures |before| == BlobStart(bs, j)
    decreases j
  {
    hide Num;
    if j == 0 {
      before, behind := [], PrintBlobs(bs[1..]);
    } else {
      var b, a := BlobsSplit(bs[1..], j - 1);
      BlobStartShift(bs, j);
      before, behind := Num(bs[0].id, 2) + Num(|bs[0].bytes|, 2) + bs[0].bytes + b, a;
    }
  }

  lemma {:induction false} GroupsEnd(gs: seq<seq<Entry>>, idLen: nat, widths: seq<nat>)
    requires |gs| == |widths|
    ensures GroupStart(gs, idLen, widths, |gs|) == GroupsSize(gs, idLen, widths)
  {
    hide GroupSize;
    if gs != [] {
      GroupsEnd(gs[1..], idLen, widths[1..]);
      GroupStartShift(gs, idLen, widths, |gs|);
    }
  }

  lemma OneBlobLies(b: Bytes, front: Bytes, v: Blob, tail: Bytes)
    requires BlobFits(v) && b == front + (Num(v.id, 2) + (Num(|v.bytes|, 2) + (v.bytes + tail)))
    ensures OneBlobAt(b, |front|, v)
  {
    hide Num, IntAt, Pow256;
    NumLies(b, front, v.id, 2, Num(|v.bytes|, 2) + (v.bytes + tail));
    assert b == (front + Num(v.id, 2)) + (Num(|v.bytes|, 2) + (v.bytes + tail));
    NumLies(b, front + Num(v.id, 2), |v.bytes|, 2, v.bytes + tail);
  }

  /** The last group of an IO element, and what is in front of it. */
  lemma LastGroup(io: Io) returns (head: Bytes)
    requires |io.groups| == |WIDTHS|
    ensures PrintIo(io, true) == head + (Num(|io.blobs|, 2) + PrintBlobs(io.blobs))
    ensures |head| == GroupOffset(io, true, |WIDTHS|)
  {
    hide Num, PrintGroups, PrintBlobs, GroupStart, GroupsSize;
    GroupsLength(io.groups, 2, WIDTHS);
    GroupsEnd(io.groups, 2, WIDTHS);
    head := Num(io.event, 2) + Num(io.total, 2) + PrintGroups(io.groups, 2, WIDTHS);
  }

  /** The last group, wherever it lies. */
  lemma BlobGroupLies(b: Bytes, front: Bytes, bs: seq<Blob>, behind: Bytes, j: nat)
    requires |bs| < Pow256(2) && j < |bs| && BlobFits(bs[j])
    requires b == front + (Num(|bs|, 2) + (PrintBlobs(bs) + behind))
    ensures IntAt(b, |front|, 2, |bs|)
    ensures OneBlobAt(b, |front| + 2 + BlobStart(bs, j), bs[j])
  {
    hide Num, IntAt, OneBlobAt, PrintBlobs, BlobStart, BlobFits, Pow256;
    NumLies(b, front, |bs|, 2, PrintBlobs(bs) + behind);
    var before, rest := BlobsSplit(bs, j);
    var v := bs[j];
    var count, id, length := Num(|bs|, 2), Num(v.id, 2), Num(|v.bytes|, 2);
    RegroupLast(before, id, length, v.bytes, rest, behind);
    Shift(front, count, before, id + (length + (v.bytes + (rest + behind))));
    OneBlobLies(b, front + count + before, v, rest + behind);
  }

  lemma BlobsFitIn(io: Io, j: nat)
    requires IoFits(io, true) && j < |io.blobs|
    ensures |io.groups| == |WIDTHS| && |io.blobs| < Pow256(2) && BlobFits(io.blobs[j])
  {
    hide Pow256, GroupFits, BlobFits;
    assert io.blobs[j] in io.blobs;
  }

  lemma BlobLies(b: Bytes, before: Bytes, io: Io, behind: Bytes, j: nat)
    requires IoFits(io, true) && b == before + (PrintIo(io, true) + behind) && j < |io.blobs|
    ensures BlobAt(b, |before|, io, j)
  {
    hide Num, IntAt, OneBlobAt, PrintIo, PrintBlobs, IoFits, GroupOffset, BlobStart, BlobFits, Pow256;
    BlobsFitIn(io, j);
    var head := LastGroup(io);
    Regroup(before, head, Num(|io.blobs|, 2), PrintBlobs(io.blobs), behind);
    BlobGroupLies(b, before + head, io.blobs, behind, j);
  }

  lemma Regroup(before: Bytes, head: Bytes, count: Bytes, values: Bytes, behind: Bytes)
    ensures before + ((head + (count + values)) + behind) == (before + head) + (count + (values + behind))
  {}

  lemma RegroupLast(front: Bytes, id: Bytes, length: Bytes, bytes: Bytes, rest: Bytes, behind: Bytes)
    ensures (front + (id + (length + (bytes + rest)))) + behind == front + (id + (length + (bytes + (rest + behind))))
  {}

  lemma Shift(a: Bytes, b: Bytes, c: Bytes, d: Bytes)
    ensures a + (b + (c + d)) == (a + b + c) + d
  {}

  /** In an accepted Codec 8E frame every variable-length value lies where the format puts it. */
  lemma BlobsLie(frame: Bytes, k: nat, j: nat)
    requires Parse(frame).Ok? && k < |Parse(frame).value.records| && j < |Parse(frame).value.records[k].io.blobs|
    ensures Parse(frame).value.codec == CODEC_8E
    ensures forall r :: r in Parse(frame).value.records ==> |r.io.groups| == |WIDTHS|
    ensures var p := Parse(frame).value; BlobAt(frame, Start(p, k) + GPS_SIZE, p.records[k].io, j)
  {
    hide Parse, Print, PrintGps, PrintIo, BlobAt, Start;
    var p := Parse(frame).value;
    PrintInvertsParse(frame);
    var before, behind := RecordAt(p, k);
    var r, extended := p.records[k], p.codec == CODEC_8E;
    assert r in p.records && RecordFits(r, extended);
    RecordLength(r, extended);
    assert frame == (before + PrintGps(r)) + (PrintIo(r.io, extended) + behind);
    BlobLies(frame, before + PrintGps(r), r.io, behind, j);
  }
}
