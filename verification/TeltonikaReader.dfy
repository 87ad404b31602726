/**
 The Teltonika decoder and test encoder as they run: a reader with a moving
 position, loops that fill a dictionary and lists that grow.
 */
module TeltonikaReader {
  import opened Bytes
  import opened Crc
  import opened Teltonika
  import opened TeltonikaLayout

  // ------------------------------------------------------------------
  // What the decoder hands out
  // ------------------------------------------------------------------

  datatype IoValue = Number(n: nat) | Raw(bytes: Bytes)

  type IoMap = map<nat, IoValue>

  datatype AvlRecord = AvlRecord(
    millis: nat, priority: nat, longitude: int, latitude: int, altitude: int,
    angle: nat, satellites: nat, speed: nat, eventIo: nat, io: IoMap)
  {
    /** Satellites in view and not the all-zero position that means no fix. */
    predicate HasFix() {
      satellites > 0 && !(latitude == 0 && longitude == 0)
    }

    /** None when the element is absent or of variable length. */
    function Ignition(): Flag {
      if IO_IGNITION in io && io[IO_IGNITION].Number? then
        (if io[IO_IGNITION].n != 0 then On else Off)
      else Unknown
    }
  }

  datatype Flag = On | Off | Unknown

  datatype AvlPacket = AvlPacket(codec: byte, records: seq<AvlRecord>)

  function WithEntries(m: IoMap, es: seq<Entry>): IoMap
    decreases |es|
  {
    if es == [] then m
    else WithEntries(m, es[..|es| - 1])[es[|es| - 1].id := Number(es[|es| - 1].value)]
  }

  function WithGroups(m: IoMap, gs: seq<seq<Entry>>): IoMap
    decreases |gs|
  {
    if gs == [] then m else WithEntries(WithGroups(m, gs[..|gs| - 1]), gs[|gs| - 1])
  }

  function WithBlobs(m: IoMap, bs: seq<Blob>): IoMap
    decreases |bs|
  {
    if bs == [] then m
    else WithBlobs(m, bs[..|bs| - 1])[bs[|bs| - 1].id := Raw(bs[|bs| - 1].bytes)]
  }

  function Dictionary(io: Io): IoMap {
    WithBlobs(WithGroups(map[], io.groups), io.blobs)
  }

  function View(r: Record): AvlRecord {
    AvlRecord(r.millis, r.priority, r.longitude, r.latitude, r.altitude, r.angle, r.satellites, r.speed,
              r.io.event, Dictionary(r.io))
  }

  function Views(rs: seq<Record>): seq<AvlRecord> {
    if rs == [] then [] else Views(rs[..|rs| - 1]) + [View(rs[|rs| - 1])]
  }

  // ------------------------------------------------------------------
  // The dictionary is the last word of the wire, element by element
  // ------------------------------------------------------------------

  /** All elements of an IO element in wire order. */
  function Elements(io: Io): seq<(nat, IoValue)> {
    GroupElements(io.groups) + BlobElements(io.blobs)
  }

  function EntryElements(es: seq<Entry>): seq<(nat, IoValue)>
    decreases |es|
  {
    if es == [] then [] else EntryElements(es[..|es| - 1]) + [(es[|es| - 1].id, Number(es[|es| - 1].value))]
  }

  function GroupElements(gs: seq<seq<Entry>>): seq<(nat, IoValue)>
    decreases |gs|
  {
    if gs == [] then [] else GroupElements(gs[..|gs| - 1]) + EntryElements(gs[|gs| - 1])
  }

  function BlobElements(bs: seq<Blob>): seq<(nat, IoValue)>
    decreases |bs|
  {
    if bs == [] then [] else BlobElements(bs[..|bs| - 1]) + [(bs[|bs| - 1].id, Raw(bs[|bs| - 1].bytes))]
  }

  /** Element `i` is the last one that carries `id`. */
  ghost predicate LastOf(elements: seq<(nat, IoValue)>, id: nat, i: int) {
    && 0 <= i < |elements|
    && elements[i].0 == id
    && forall j :: i < j < |elements| ==> elements[j].0 != id
  }

  ghost predicate Absent(elements: seq<(nat, IoValue)>, id: nat) {
    forall i :: 0 <= i < |elements| ==> elements[i].0 != id
  }

  /** `m` holds exactly the ids of `elements`, each with its last value. */
  ghost predicate LastWins(m: IoMap, elements: seq<(nat, IoValue)>) {
    && (forall id :: id !in m ==> Absent(elements, id))
    && (forall id :: id in m ==> exists i :: LastOf(elements, id, i) && m[id] == elements[i].1)
  }

  lemma LastWinsPush(m: IoMap, elements: seq<(nat, IoValue)>, id: nat, v: IoValue)
    requires LastWins(m, elements)
    ensures LastWins(m[id := v], elements + [(id, v)])
  {
    var m', all := m[id := v], elements + [(id, v)];
    forall k | k in m'
      ensures exists i :: LastOf(all, k, i) && m'[k] == all[i].1
    {
      if k == id {
        assert LastOf(all, k, |elements|);
      } else {
        var i :| LastOf(elements, k, i) && m[k] == elements[i].1;
        assert LastOf(all, k, i);
      }
    }
    forall k | k !in m'
      ensures Absent(all, k)
    {
      assert Absent(elements, k);
    }
  }

  lemma {:induction false} EntriesLastWin(m: IoMap, before: seq<(nat, IoValue)>, es: seq<Entry>)
    requires LastWins(m, before)
    ensures LastWins(WithEntries(m, es), before + EntryElements(es))
    decreases |es|
  {
    hide LastWins;
    if es == [] {
      assert before + EntryElements(es) == before;
    } else {
      var front, e := es[..|es| - 1], es[|es| - 1];
      EntriesLastWin(m, before, front);
      LastWinsPush(WithEntries(m, front), before + EntryElements(front), e.id, Number(e.value));
      assert before + EntryElements(es) == before + EntryElements(front) + [(e.id, Number(e.value))];
    }
  }

  lemma {:induction false} GroupsLastWin(gs: seq<seq<Entry>>)
    ensures LastWins(WithGroups(map[], gs), GroupElements(gs))
    decreases |gs|
  {
    if gs != [] {
      GroupsLastWin(gs[..|gs| - 1]);
      EntriesLastWin(WithGroups(map[], gs[..|gs| - 1]), GroupElements(gs[..|gs| - 1]), gs[|gs| - 1]);
    }
  }

  lemma {:induction false} BlobsLastWin(m: IoMap, before: seq<(nat, IoValue)>, bs: seq<Blob>)
    requires LastWins(m, before)
    ensures LastWins(WithBlobs(m, bs), before + BlobElements(bs))
    decreases |bs|
  {
    hide LastWins;
    if bs == [] {
      assert before + BlobElements(bs) == before;
    } else {
      var front, b := bs[..|bs| - 1], bs[|bs| - 1];
      BlobsLastWin(m, before, front);
      LastWinsPush(WithBlobs(m, front), before + BlobElements(front), b.id, Raw(b.bytes));
      assert before + BlobElements(bs) == before + BlobElements(front) + [(b.id, Raw(b.bytes))];
    }
  }

  /** A repeated id keeps the value that came last, whatever group it came in. */
  lemma DictionaryLastWins(io: Io)
    ensures LastWins(Dictionary(io), Elements(io))
  {
    GroupsLastWin(io.groups);
    BlobsLastWin(WithGroups(map[], io.groups), GroupElements(io.groups), io.blobs);
  }

  // ------------------------------------------------------------------
  // The reader
  // ------------------------------------------------------------------

  /** A list the loop has read so far, followed by what the rest of the input gives. */
  function Prepend<T>(done: seq<T>, later: Parsed<seq<T>>): Parsed<seq<T>> {
    var (more, rest) :- later;
    Ok((done + more, rest))
  }

  lemma PrependStep<T>(done: seq<T>, x: T, later: Parsed<seq<T>>)
    ensures Prepend(done, Prepend([x], later)) == Prepend(done + [x], later)
  {
    if later.Ok? {
      assert done + ([x] + later.value.0) == (done + [x]) + later.value.0;
    }
  }

  lemma PrependNothing<T>(later: Parsed<seq<T>>)
    ensures Prepend([], later) == later
  {
    if later.Ok? {
      assert [] + later.value.0 == later.value.0;
    }
  }

  /** A method's outcome and the reader's new remainder are what the parser function says. */
  ghost predicate Agrees<T>(outcome: Result<T>, left: Bytes, parsed: Parsed<T>) {
    match parsed
    case Err(e) => outcome == Err(e)
    case Ok((value, rest)) => outcome == Ok(value) && left == rest
  }

  class Reader {
    const data: Bytes
    var pos: nat

    ghost predicate Valid()
      reads this
    {
      pos <= |data|
    }

    ghost function Left(): Bytes
      reads this
      requires Valid()
    {
      data[pos..]
    }

    constructor (data: Bytes)
      ensures Valid() && Left() == data && this.data == data
    {
      this.data := data;
      pos := 0;
      new;
      assert data[0..] == data;
    }

    /** Running off the end raises and leaves the position alone. */
    method TakeBytes(n: nat) returns (r: Result<Bytes>)
      requires Valid()
      modifies this
      ensures Valid() && Agrees(r, Left(), Take(old(Left()), n))
      ensures r.Err? ==> pos == old(pos)
    {
      var end := pos + n;
      if end > |data| {
        return Err(Malformed);
      }
      var chunk := data[pos..end];
      assert data[pos..][..n] == chunk && data[pos..][n..] == data[end..];
      pos := end;
      r := Ok(chunk);
    }

    method Uint(n: nat) returns (r: Result<nat>)
      requires Valid()
      modifies this
      ensures Valid() && Agrees(r, Left(), UInt(old(Left()), n))
    {
      var chunk :- TakeBytes(n);
      r := Ok(FromBE(chunk));
    }

    method Sint(n: nat) returns (r: Result<int>)
      requires Valid()
      modifies this
      ensures Valid() && Agrees(r, Left(), SInt(old(Left()), n))
    {
      var chunk :- TakeBytes(n);
      r := Ok(FromSignedBE(chunk));
    }

    /** One group of fixed-width elements, written over what the dictionary holds. */
    method ReadGroupInto(io: IoMap, idLen: nat, width: nat) returns (r: Result<IoMap>, ghost entries: seq<Entry>)
      requires Valid()
      modifies this
      ensures Valid()
      ensures ReadGroups(old(Left()), idLen, [width])
           == (if r.Ok? then Ok(([entries], Left())) else Err(r.error))
      ensures r.Ok? ==> r.value == WithEntries(io, entries)
    {
      hide UInt, WithEntries;
      entries := [];
      var count :- Uint(idLen);
      ghost var start := Left();
      var out := io;
      assert WithEntries(io, []) == io by { NoEntries(io); }
      PrependNothing(ReadEntries(start, count, idLen, width));
      for i := 0 to count
        invariant Valid()
        invariant ReadEntries(start, count, idLen, width)
               == Prepend(entries, ReadEntries(Left(), count - i, idLen, width))
        invariant out == WithEntries(io, entries)
      {
        ghost var s := Left();
        var id :- Uint(idLen);
        var value :- Uint(width);
        PrependStep(entries, Entry(id, value), ReadEntries(Left(), count - i - 1, idLen, width));
        assert ReadEntries(s, count - i, idLen, width)
            == Prepend([Entry(id, value)], ReadEntries(Left(), count - i - 1, idLen, width));
        OneMoreEntry(io, entries, Entry(id, value));
        entries := entries + [Entry(id, value)];
        out := out[id := Number(value)];
      }
      assert entries + [] == entries;
      assert [width][1..] == [] && [entries] + [] == [entries];
      r := Ok(out);
    }

    /** The variable-length group of Codec 8 Extended. */
    method ReadBlobsInto(io: IoMap) returns (r: Result<IoMap>, ghost blobs: seq<Blob>)
      requires Valid()
      modifies this
      ensures Valid()
      ensures ReadBlobGroup(old(Left()), true) == (if r.Ok? then Ok((blobs, Left())) else Err(r.error))
      ensures r.Ok? ==> r.value == WithBlobs(io, blobs)
    {
      hide UInt, Take, WithBlobs;
      blobs := [];
      var count :- Uint(2);
      ghost var start := Left();
      var out := io;
      assert WithBlobs(io, []) == io by { NoBlobs(io); }
      PrependNothing(ReadBlobs(start, count));
      for i := 0 to count
        invariant Valid()
        invariant ReadBlobs(start, count) == Prepend(blobs, ReadBlobs(Left(), count - i))
        invariant out == WithBlobs(io, blobs)
      {
        ghost var s := Left();
        var id :- Uint(2);
        var length :- Uint(2);
        var bytes :- TakeBytes(length);
        PrependStep(blobs, Blob(id, bytes), ReadBlobs(Left(), count - i - 1));
        assert ReadBlobs(s, count - i) == Prepend([Blob(id, bytes)], ReadBlobs(Left(), count - i - 1));
        OneMoreBlob(io, blobs, Blob(id, bytes));
        blobs := blobs + [Blob(id, bytes)];
        out := out[id := Raw(bytes)];
      }
      assert blobs + [] == blobs;
      r := Ok(out);
    }

    method ReadIoElement(extended: bool) returns (r: Result<(nat, IoMap)>, ghost element: Io)
      requires Valid()
      modifies this
      ensures Valid()
      ensures ReadIo(old(Left()), extended) == (if r.Ok? then Ok((element, Left())) else Err(r.error))
      ensures r.Ok? ==> r.value == (element.event, Dictionary(element))
    {
      hide UInt, ReadGroups, ReadBlobGroup, WithGroups, WithBlobs;
      element := NO_IO;
      var idLen := IdLen(extended);
      var eventIo :- Uint(idLen);
      var total :- Uint(idLen);
      var io: IoMap := map[];
      ghost var start := Left();
      ghost var groups: seq<seq<Entry>> := [];
      assert WithGroups(map[], []) == map[] by { NoGroups(map[]); }
      PrependNothing(ReadGroups(start, idLen, WIDTHS));
      assert WIDTHS[0..] == WIDTHS;
      for g := 0 to |WIDTHS|
        invariant Valid()
        invariant ReadGroups(start, idLen, WIDTHS) == Prepend(groups, ReadGroups(Left(), idLen, WIDTHS[g..]))
        invariant io == WithGroups(map[], groups)
      {
        ghost var s := Left();
        var out, entries := ReadGroupInto(io, idLen, WIDTHS[g]);
        GroupByGroup(s, idLen, WIDTHS[g..]);
        if out.Err? {
          return Err(out.error), element;
        }
        PrependStep(groups, entries, ReadGroups(Left(), idLen, WIDTHS[g + 1..]));
        assert WIDTHS[g..][1..] == WIDTHS[g + 1..];
        OneMoreGroup(map[], groups, entries);
        groups := groups + [entries];
        io := out.value;
      }
      NoGroupsLeft(Left(), idLen);
      assert WIDTHS[|WIDTHS|..] == [] && groups + [] == groups;
      ghost var blobs: seq<Blob> := [];
      if extended {
        var out, bs := ReadBlobsInto(io);
        if out.Err? {
          return Err(out.error), element;
        }
        blobs := bs;
        io := out.value;
      } else {
        PlainHasNoBlobs(Left());
        NoBlobs(io);
      }
      element := Io(eventIo, total, groups, blobs);
      r := Ok((eventIo, io));
    }

    method ReadAvlRecord(extended: bool) returns (r: Result<AvlRecord>, ghost record: Record)
      requires Valid()
      modifies this
      ensures Valid()
      ensures ReadRecord(old(Left()), extended) == (if r.Ok? then Ok((record, Left())) else Err(r.error))
      ensures r.Ok? ==> r.value == View(record)
    {
      hide UInt, SInt, ReadIo, Dictionary;
      record := Record(0, 0, 0, 0, 0, 0, 0, 0, NO_IO);
      var millis :- Uint(8);
      if millis >= END_OF_TIME {
        return Err(Malformed), record;
      }
      var priority :- Uint(1);
      var longitude :- Sint(4);
      var latitude :- Sint(4);
      var altitude :- Sint(2);
      var angle :- Uint(2);
      var satellites :- Uint(1);
      var speed :- Uint(2);
      var io, element := ReadIoElement(extended);
      if io.Err? {
        return Err(io.error), record;
      }
      record := Record(millis, priority, longitude, latitude, altitude, angle, satellites, speed, element);
      r := Ok(AvlRecord(millis, priority, longitude, latitude, altitude, angle, satellites, speed,
                        io.value.0, io.value.1));
    }

    /** The record loop of parse_avl_packet. */
    method ReadAvlRecords(count: nat, extended: bool) returns (r: Result<seq<AvlRecord>>, ghost read: seq<Record>)
      requires Valid()
      modifies this
      ensures Valid()
      ensures ReadRecords(old(Left()), count, extended) == (if r.Ok? then Ok((read, Left())) else Err(r.error))
      ensures r.Ok? ==> r.value == Views(read)
    {
      hide ReadRecord, View, Views, ReadRecords;
      var records: seq<AvlRecord> := [];
      ghost var start := Left();
      read := [];
      NoViews();
      PrependNothing(ReadRecords(start, count, extended));
      for i := 0 to count
        invariant Valid()
        invariant ReadRecords(start, count, extended)
               == Prepend(read, ReadRecords(Left(), count - i, extended))
        invariant records == Views(read)
      {
        ghost var s := Left();
        var next, record := ReadAvlRecord(extended);
        RecordByRecord(s, count - i, extended);
        if next.Err? {
          return Err(next.error), read;
        }
        PrependStep(read, record, ReadRecords(Left(), count - i - 1, extended));
        OneMoreView(read, record);
        read := read + [record];
        records := records + [next.value];
      }
      NoRecordsLeft(Left(), extended);
      assert read + [] == read;
      r := Ok(records);
    }

    method Remaining() returns (n: nat)
      requires Valid()
      ensures n == |Left()|
    {
      n := |data| - pos;
    }
  }

  lemma NoEntries(m: IoMap)
    ensures WithEntries(m, []) == m
  {}

  lemma NoBlobs(m: IoMap)
    ensures WithBlobs(m, []) == m
  {}

  lemma NoGroups(m: IoMap)
    ensures WithGroups(m, []) == m
  {}

  lemma PlainHasNoBlobs(s: Bytes)
    ensures ReadBlobGroup(s, false) == Ok(([], s))
  {}

  lemma NoGroupsLeft(s: Bytes, idLen: nat)
    ensures ReadGroups(s, idLen, []) == Ok(([], s))
  {}

  lemma OneMoreEntry(m: IoMap, es: seq<Entry>, e: Entry)
    ensures WithEntries(m, es + [e]) == WithEntries(m, es)[e.id := Number(e.value)]
  {
    assert (es + [e])[..|es + [e]| - 1] == es;
  }

  lemma OneMoreBlob(m: IoMap, bs: seq<Blob>, b: Blob)
    ensures WithBlobs(m, bs + [b]) == WithBlobs(m, bs)[b.id := Raw(b.bytes)]
  {
    assert (bs + [b])[..|bs + [b]| - 1] == bs;
  }

  lemma OneMoreGroup(m: IoMap, gs: seq<seq<Entry>>, g: seq<Entry>)
    ensures WithGroups(m, gs + [g]) == WithEntries(WithGroups(m, gs), g)
  {
    assert (gs + [g])[..|gs + [g]| - 1] == gs;
  }

  /** Reading several groups is reading one and then the others. */
  lemma GroupByGroup(s: Bytes, idLen: nat, widths: seq<nat>)
    requires widths != []
    ensures var first := ReadGroups(s, idLen, [widths[0]]);
      match first
      case Err(e) => ReadGroups(s, idLen, widths) == Err(e)
      case Ok((gs, rest)) =>
        |gs| == 1 && ReadGroups(s, idLen, widths) == Prepend(gs, ReadGroups(rest, idLen, widths[1..]))
  {
    hide UInt, ReadEntries;
    assert [widths[0]][1..] == [];
    var counted := UInt(s, idLen);
    if counted.Ok? {
      var entries := ReadEntries(counted.value.1, counted.value.0, idLen, widths[0]);
      if entries.Ok? {
        NoGroupsLeft(entries.value.1, idLen);
        assert [entries.value.0] + [] == [entries.value.0];
      }
    }
  }

  // ------------------------------------------------------------------
  // parse_avl_packet
  // ------------------------------------------------------------------

  function ViewPacket(r: Result<Packet>): Result<AvlPacket> {
    var p :- r;
    Ok(AvlPacket(p.codec, Views(p.records)))
  }

  lemma OneMoreView(rs: seq<Record>, r: Record)
    ensures Views(rs + [r]) == Views(rs) + [View(r)]
  {
    assert (rs + [r])[..|rs + [r]| - 1] == rs;
  }

  lemma {:induction false} ViewsAt(rs: seq<Record>, k: nat)
    requires k < |rs|
    ensures |Views(rs)| == |rs| && Views(rs)[k] == View(rs[k])
    decreases |rs|
  {
    var front := rs[..|rs| - 1];
    if k < |front| {
      ViewsAt(front, k);
    } else if front != [] {
      ViewsAt(front, 0);
    }
  }

  /** Every field of the record is what the bytes from `o` on say, and its dictionary the last word of `elements`. */
  ghost predicate RecordLies(b: Bytes, o: nat, idLen: nat, elements: seq<(nat, IoValue)>, r: AvlRecord) {
    && o + 24 + idLen <= |b|
    && r.millis == FromBE(b[o..o + 8])
    && r.priority == b[o + 8]
    && r.longitude == FromSignedBE(b[o + 9..o + 13])
    && r.latitude == FromSignedBE(b[o + 13..o + 17])
    && r.altitude == FromSignedBE(b[o + 17..o + 19])
    && r.angle == FromBE(b[o + 19..o + 21])
    && r.satellites == b[o + 21]
    && r.speed == FromBE(b[o + 22..o + 24])
    && r.eventIo == FromBE(b[o + 24..o + 24 + idLen])
    && LastWins(r.io, elements)
  }

  /** An accepted frame, field by field. */
  ghost predicate PacketLies(frame: Bytes, packet: AvlPacket)
    requires Parse(frame).Ok?
  {
    var p := Parse(frame).value;
    && |frame| >= 10 && packet.codec == frame[8] && |packet.records| == frame[9] as int == |p.records|
    && (forall r :: r in p.records ==> |r.io.groups| == |WIDTHS|)
    && forall k :: 0 <= k < |p.records| ==>
         RecordLies(frame, Start(p, k), IdLen(p.codec == CODEC_8E), Elements(p.records[k].io), packet.records[k])
  }

  lemma ViewLies(frame: Bytes)
    requires Parse(frame).Ok?
    ensures ViewPacket(Parse(frame)).Ok? && PacketLies(frame, ViewPacket(Parse(frame)).value)
  {
    hide Parse, FromBE, FromSignedBE, Start, Dictionary, Elements, LastWins, Views;
    var p := Parse(frame).value;
    HeaderLies(frame);
    if p.records == [] {
      NoViews();
    } else {
      ViewsAt(p.records, 0);
    }
    forall k | 0 <= k < |p.records|
      ensures forall r :: r in p.records ==> |r.io.groups| == |WIDTHS|
      ensures RecordLies(frame, Start(p, k), IdLen(p.codec == CODEC_8E), Elements(p.records[k].io), Views(p.records)[k])
    {
      FieldsLie(frame, k);
      EventLies(frame, k);
      ViewsAt(p.records, k);
      DictionaryLastWins(p.records[k].io);
    }
  }

  /**
   Decodes a frame or raises as the parser function does. Each field of each
   record is read from where the format puts it, and the dictionary holds the
   last value of every element, the elements lying where `ElementsLie` and
   `BlobsLie` say.
   */
  method ParseAvlPacket(frame: Bytes) returns (r: Result<AvlPacket>)
    ensures r == ViewPacket(Parse(frame))
    ensures r.Ok? ==> PacketLies(frame, r.value)
  {
    hide UInt, FromBE, Arc, ReadRecord, View, Views, PacketLies;
    if Parse(frame).Ok? {
      ViewLies(frame);
    }
    if |frame| < 8 + 3 + 4 || frame[..4] != PREAMBLE {
      return Err(Malformed);
    }
    var length := FromBE(frame[4..8]);
    if |frame| != 8 + length + 4 {
      return Err(Malformed);
    }
    var data := frame[8..8 + length];
    var receivedCrc := FromBE(frame[8 + length..]);
    var crc := Crc16Ibm(data);
    if receivedCrc != crc {
      return Err(CrcMismatch);
    }
    var packet := ParseData(data);
    r := packet;
  }

  /** In particular the first record's fields, for any codec. */
  lemma FirstRecordLies(frame: Bytes)
    requires Parse(frame).Ok? && Parse(frame).value.records != []
    ensures |frame| >= 34 && ViewPacket(Parse(frame)).Ok?
    ensures var packet := ViewPacket(Parse(frame)).value;
      && packet.records != []
      && var r := packet.records[0];
      && r.millis == FromBE(frame[10..18]) && r.priority == frame[18]
      && r.longitude == FromSignedBE(frame[19..23]) && r.latitude == FromSignedBE(frame[23..27])
      && r.altitude == FromSignedBE(frame[27..29]) && r.angle == FromBE(frame[29..31])
      && r.satellites == frame[31] && r.speed == FromBE(frame[32..34])
  {
    hide Parse, FromBE, FromSignedBE, Elements, LastWins, ViewPacket, Start, IdLen, PacketFits, RecordLies, GpsAt;
    ViewLies(frame);
    FieldsLie(frame, 0);
    var p, packet := Parse(frame).value, ViewPacket(Parse(frame)).value;
    StartOfFirst(p);
    RecordLiesAt10(frame, IdLen(p.codec == CODEC_8E), Elements(p.records[0].io), packet.records[0]);
  }

  lemma RecordLiesAt10(b: Bytes, idLen: nat, elements: seq<(nat, IoValue)>, r: AvlRecord)
    requires RecordLies(b, 10, idLen, elements, r)
    ensures |b| >= 34
    ensures r.millis == FromBE(b[10..18]) && r.priority == b[18]
    ensures r.longitude == FromSignedBE(b[19..23]) && r.latitude == FromSignedBE(b[23..27])
    ensures r.altitude == FromSignedBE(b[27..29]) && r.angle == FromBE(b[29..31])
    ensures r.satellites == b[31] && r.speed == FromBE(b[32..34])
  {}

  /** The view of a data field of a supported codec, part by part. */
  lemma BodyByParts(data: Bytes)
    requires |data| > 0 && (data[0] == CODEC_8 || data[0] == CODEC_8E)
    ensures match UInt(data[1..], 1)
      case Err(e) => ViewPacket(ReadBody(data)) == Err(e)
      case Ok((count, s1)) =>
        match ReadRecords(s1, count, data[0] == CODEC_8E)
        case Err(e) => ViewPacket(ReadBody(data)) == Err(e)
        case Ok((records, s2)) =>
          match UInt(s2, 1)
          case Err(e) => ViewPacket(ReadBody(data)) == Err(e)
          case Ok((trailing, s3)) =>
            ViewPacket(ReadBody(data)) ==
              if trailing != count || s3 != [] then Err(Malformed) else Ok(AvlPacket(data[0], Views(records)))
  {
    hide UInt, ReadRecords, Views;
  }

  method ParseData(data: Bytes) returns (r: Result<AvlPacket>)
    requires |data| > 0
    ensures r == ViewPacket(ReadBody(data))
  {
    var codec := data[0];
    if codec != CODEC_8 && codec != CODEC_8E {
      return Err(UnsupportedCodec(codec));
    }
    hide UInt, Views, ReadRecords, ReadBody, ViewPacket;
    BodyByParts(data);
    var reader := new Reader(data);
    var codecByte := reader.TakeBytes(1);
    assert reader.Left() == data[1..];
    var count :- reader.Uint(1);
    var records, read := reader.ReadAvlRecords(count, codec == CODEC_8E);
    if records.Err? {
      return Err(records.error);
    }
    var trailingCount :- reader.Uint(1);
    if trailingCount != count {
      return Err(Malformed);
    }
    var remaining := reader.Remaining();
    if remaining != 0 {
      return Err(Malformed);
    }
    r := Ok(AvlPacket(codec, records.value));
  }

  lemma NoRecordsLeft(s: Bytes, extended: bool)
    ensures ReadRecords(s, 0, extended) == Ok(([], s))
  {}

  lemma RecordByRecord(s: Bytes, count: nat, extended: bool)
    requires count > 0
    ensures match ReadRecord(s, extended)
      case Err(e) => ReadRecords(s, count, extended) == Err(e)
      case Ok((r, rest)) => ReadRecords(s, count, extended) == Prepend([r], ReadRecords(rest, count - 1, extended))
  {
    hide ReadRecord;
  }

  lemma NoViews()
    ensures Views([]) == []
  {}

  /** What a printed packet decodes to, record by record and field by field. */
  lemma DecodedPacket(p: Packet) returns (decoded: AvlPacket)
    requires PacketFits(p)
    ensures ViewPacket(Parse(Print(p))) == Ok(decoded)
    ensures decoded.codec == p.codec && |decoded.records| == |p.records|
    ensures forall k :: 0 <= k < |p.records| ==>
      var r, d := p.records[k], decoded.records[k];
      && d.millis == r.millis && d.priority == r.priority
      && d.longitude == r.longitude && d.latitude == r.latitude && d.altitude == r.altitude
      && d.angle == r.angle && d.satellites == r.satellites && d.speed == r.speed
      && d.eventIo == r.io.event && LastWins(d.io, Elements(r.io))
  {
    hide Parse, Print, PacketFits, Views, Dictionary, Elements, LastWins;
    ParseInvertsPrint(p);
    decoded := AvlPacket(p.codec, Views(p.records));
    if p.records == [] {
      NoViews();
    } else {
      ViewsAt(p.records, 0);
    }
    forall k | 0 <= k < |p.records|
      ensures decoded.records[k] == View(p.records[k])
      ensures LastWins(decoded.records[k].io, Elements(p.records[k].io))
    {
      ViewsAt(p.records, k);
      DictionaryLastWins(p.records[k].io);
    }
  }

  // ------------------------------------------------------------------
  // Flags
  // ------------------------------------------------------------------

  /** The number the ignition element carries last on the wire, if it comes at all and as a number. */
  lemma IgnitionIsLastElement(r: AvlRecord, elements: seq<(nat, IoValue)>)
    requires LastWins(r.io, elements)
    ensures r.Ignition() == On <==>
      exists i :: LastOf(elements, 239, i) && elements[i].1.Number? && elements[i].1.n != 0
    ensures r.Ignition() == Off <==> exists i :: LastOf(elements, 239, i) && elements[i].1 == Number(0)
  {
    forall i, j | LastOf(elements, 239, i) && LastOf(elements, 239, j)
      ensures i == j
    {
    }
    if 239 !in r.io {
      assert Absent(elements, 239);
    }
  }
}
