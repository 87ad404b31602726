/**
 The Teltonika handler's two in-memory caches: they decide when the ignition
 state and the last-seen time of a device are written to the database.
 */
module StatusCache {
  import opened Common
  import opened TeltonikaReader

  /** Milliseconds between two refreshes of a device's last-seen time. */
  const ALIVE_REFRESH := 60_000

  // ------------------------------------------------------------------
  // Which ignition a packet reports
  // ------------------------------------------------------------------

  predicate Reports(r: AvlRecord) {
    r.Ignition() != Unknown
  }

  /** sorted(..., reverse=True) keeps the order of equal keys. */
  function InsertNewestFirst(r: AvlRecord, rs: seq<AvlRecord>): seq<AvlRecord> {
    if rs == [] || rs[0].millis <= r.millis then [r] + rs
    else [rs[0]] + InsertNewestFirst(r, rs[1..])
  }

  function NewestFirst(rs: seq<AvlRecord>): seq<AvlRecord> {
    if rs == [] then [] else InsertNewestFirst(rs[0], NewestFirst(rs[1..]))
  }

  ghost predicate Descending(rs: seq<AvlRecord>) {
    rs != [] ==> (forall x :: x in rs ==> x.millis <= rs[0].millis) && Descending(rs[1..])
  }

  /** The ignition of the first record that reports one. */
  function FirstReport(rs: seq<AvlRecord>): Flag {
    if rs == [] then Unknown else if Reports(rs[0]) then rs[0].Ignition() else FirstReport(rs[1..])
  }

  lemma {:induction false} InsertKeeps(r: AvlRecord, rs: seq<AvlRecord>)
    ensures multiset(InsertNewestFirst(r, rs)) == multiset(rs) + multiset{r}
  {
    if rs != [] && rs[0].millis > r.millis {
      InsertKeeps(r, rs[1..]);
      assert rs == [rs[0]] + rs[1..];
    }
  }

  lemma InsertMembers(r: AvlRecord, rs: seq<AvlRecord>, x: AvlRecord)
    ensures x in InsertNewestFirst(r, rs) <==> x == r || x in rs
  {
    InsertKeeps(r, rs);
    assert x in InsertNewestFirst(r, rs) <==> x in multiset(InsertNewestFirst(r, rs));
  }

  lemma {:induction false} InsertDescends(r: AvlRecord, rs: seq<AvlRecord>)
    requires Descending(rs)
    ensures Descending(InsertNewestFirst(r, rs))
  {
    var out := InsertNewestFirst(r, rs);
    if rs != [] && rs[0].millis > r.millis {
      InsertDescends(r, rs[1..]);
      assert out[1..] == InsertNewestFirst(r, rs[1..]);
    } else {
      assert out[1..] == rs;
    }
    forall x | x in out
      ensures x.millis <= out[0].millis
    {
      InsertMembers(r, rs, x);
    }
  }

  lemma {:induction false} SortKeeps(rs: seq<AvlRecord>)
    ensures multiset(NewestFirst(rs)) == multiset(rs)
    ensures Descending(NewestFirst(rs))
  {
    if rs != [] {
      SortKeeps(rs[1..]);
      InsertKeeps(rs[0], NewestFirst(rs[1..]));
      InsertDescends(rs[0], NewestFirst(rs[1..]));
      assert rs == [rs[0]] + rs[1..];
    }
  }

  /** Record `k` is the latest that reports ignition, the first in packet order among equals. */
  ghost predicate NewestReporter(rs: seq<AvlRecord>, k: int) {
    && 0 <= k < |rs|
    && Reports(rs[k])
    && forall j :: 0 <= j < |rs| && j != k && Reports(rs[j]) ==>
         rs[j].millis <= rs[k].millis && (j < k ==> rs[j].millis < rs[k].millis)
  }

  /** Inserting before or behind the first report, or without one, changes the first report accordingly. */
  lemma {:induction false} InsertFirstReport(r: AvlRecord, rs: seq<AvlRecord>)
    ensures !Reports(r) ==> FirstReport(InsertNewestFirst(r, rs)) == FirstReport(rs)
    ensures Reports(r) && (forall x :: x in rs && Reports(x) ==> x.millis <= r.millis) ==>
      FirstReport(InsertNewestFirst(r, rs)) == r.Ignition()
    ensures Descending(rs) && (exists x :: x in rs && Reports(x) && x.millis > r.millis) ==>
      FirstReport(InsertNewestFirst(r, rs)) == FirstReport(rs)
  {
    if rs != [] && rs[0].millis > r.millis {
      InsertFirstReport(r, rs[1..]);
      assert InsertNewestFirst(r, rs)[1..] == InsertNewestFirst(r, rs[1..]);
      if Descending(rs) && !Reports(rs[0]) && exists x :: x in rs && Reports(x) && x.millis > r.millis {
        var x :| x in rs && Reports(x) && x.millis > r.millis;
        assert x in rs[1..];
      }
    } else if rs != [] {
      assert ([r] + rs)[1..] == rs;
    }
  }

  /** The search through the sorted list finds the newest reporter, ties going to packet order. */
  lemma {:induction false} NewestReportFound(rs: seq<AvlRecord>, k: int)
    requires NewestReporter(rs, k)
    ensures FirstReport(NewestFirst(rs)) == rs[k].Ignition()
  {
    hide Reports, Descending;
    var r, tail := rs[0], rs[1..];
    var sorted := NewestFirst(tail);
    SortKeeps(tail);
    InsertFirstReport(r, sorted);
    if k == 0 {
      forall x | x in sorted && Reports(x)
        ensures x.millis <= r.millis
      {
        assert x in multiset(tail);
        var j :| 0 <= j < |tail| && tail[j] == x;
        assert rs[j + 1] == x;
      }
    } else {
      assert tail[k - 1] == rs[k];
      forall j | 0 <= j < |tail| && j != k - 1 && Reports(tail[j])
        ensures tail[j].millis <= rs[k].millis && (j < k - 1 ==> tail[j].millis < rs[k].millis)
      {
        assert tail[j] == rs[j + 1];
      }
      assert NewestReporter(tail, k - 1);
      NewestReportFound(tail, k - 1);
      if Reports(r) {
        assert rs[k] in multiset(sorted);
        assert rs[k] in sorted;
      }
    }
  }

  lemma {:induction false} NothingFound(rs: seq<AvlRecord>)
    ensures FirstReport(rs) == Unknown <==> forall r :: r in rs ==> !Reports(r)
  {
    if rs != [] {
      NothingFound(rs[1..]);
      assert rs == [rs[0]] + rs[1..];
    }
  }

  /** A packet yields no ignition exactly if none of its records reports one. */
  lemma NoReport(records: seq<AvlRecord>)
    ensures Ignition(records) == Unknown <==> forall r :: r in records ==> !Reports(r)
  {
    hide Reports, NewestFirst, FirstReport;
    SortKeeps(records);
    NothingFound(NewestFirst(records));
    forall r
      ensures r in records <==> r in NewestFirst(records)
    {
      assert r in records <==> r in multiset(records);
      assert r in NewestFirst(records) <==> r in multiset(NewestFirst(records));
    }
  }

  // ------------------------------------------------------------------
  // The caches
  // ------------------------------------------------------------------

  datatype Cache = Cache(alive: map<DeviceId, int>, ignition: map<DeviceId, Flag>)

  /** The status write a packet causes. */
  datatype Write = Ignite(flag: Flag) | MarkAlive | Nothing

  function Ignition(records: seq<AvlRecord>): Flag {
    FirstReport(NewestFirst(records))
  }

  function Decision(c: Cache, device: DeviceId, flag: Flag, now: int): Write {
    if flag != Unknown && (device !in c.ignition || c.ignition[device] != flag) then Ignite(flag)
    else if device !in c.alive || now - c.alive[device] >= ALIVE_REFRESH then MarkAlive
    else Nothing
  }

  /** A refresh that has decided on its write and waits for the database. */
  datatype Pending = Pending(device: DeviceId, write: Write, now: int)

  function Begun(c: Cache, device: DeviceId, flag: Flag, now: int): Pending {
    Pending(device, Decision(c, device, flag, now), now)
  }

  /** What it records in the caches when the write is over, whatever they hold by then. */
  function Finished(c: Cache, p: Pending): Cache {
    match p.write
    case Ignite(f) => Cache(c.alive[p.device := p.now], c.ignition[p.device := f])
    case MarkAlive => c.(alive := c.alive[p.device := p.now])
    case Nothing => c
  }

  /** A refresh with nothing else at the caches meanwhile. */
  function Refreshed(c: Cache, device: DeviceId, flag: Flag, now: int): Cache {
    Finished(c, Begun(c, device, flag, now))
  }

  function Forgotten(c: Cache, device: DeviceId): Cache {
    Cache(c.alive - {device}, c.ignition - {device})
  }

  class StatusCaches {
    var lastAlive: map<DeviceId, int>
    var lastIgnition: map<DeviceId, Flag>

    ghost function Contents(): Cache
      reads this
    {
      Cache(lastAlive, lastIgnition)
    }

    constructor ()
      ensures Contents() == Cache(map[], map[])
    {
      lastAlive, lastIgnition := map[], map[];
    }

    /** On login: the first packet of a connection refreshes everything. */
    method Forget(device: DeviceId)
      modifies this
      ensures Contents() == Forgotten(old(Contents()), device)
    {
      lastAlive := lastAlive - {device};
      lastIgnition := lastIgnition - {device};
    }

    /** Up to the await. */
    method BeginRefresh(device: DeviceId, records: seq<AvlRecord>, now: int) returns (p: Pending)
      ensures p == Begun(Contents(), device, Ignition(records), now)
    {
      var sorted := NewestFirst(records);
      var ignition := Unknown;
      var i := 0;
      assert sorted[0..] == sorted;
      while i < |sorted|
        invariant 0 <= i <= |sorted|
        invariant ignition == Unknown
        invariant FirstReport(sorted) == FirstReport(sorted[i..])
      {
        if sorted[i].Ignition() != Unknown {
          ignition := sorted[i].Ignition();
          break;
        }
        assert sorted[i..][1..] == sorted[i + 1..];
        i := i + 1;
      }
      assert ignition == Ignition(records);
      if ignition != Unknown && (device !in lastIgnition || lastIgnition[device] != ignition) {
        return Pending(device, Ignite(ignition), now);
      }
      if device !in lastAlive || now - lastAlive[device] >= ALIVE_REFRESH {
        return Pending(device, MarkAlive, now);
      }
      p := Pending(device, Nothing, now);
    }

    /** From the await on. */
    method FinishRefresh(p: Pending)
      modifies this
      ensures Contents() == Finished(old(Contents()), p)
    {
      match p.write {
        case Ignite(ignition) =>
          lastIgnition := lastIgnition[p.device := ignition];
          lastAlive := lastAlive[p.device := p.now];
        case MarkAlive =>
          lastAlive := lastAlive[p.device := p.now];
        case Nothing =>
      }
    }

    method RefreshStatus(device: DeviceId, records: seq<AvlRecord>, now: int) returns (write: Write)
      modifies this
      ensures write == Decision(old(Contents()), device, Ignition(records), now)
      ensures Contents() == Refreshed(old(Contents()), device, Ignition(records), now)
    {
      var p := BeginRefresh(device, records, now);
      FinishRefresh(p);
      write := p.write;
    }
  }

  // ------------------------------------------------------------------
  // Runs: any devices, any connections, in any interleaving
  // ------------------------------------------------------------------

  datatype Event = Login(device: DeviceId) | Packet(device: DeviceId, records: seq<AvlRecord>, now: int)

  function After(c: Cache, events: seq<Event>): Cache
    decreases |events|
  {
    if events == [] then c
    else
      var before := After(c, events[..|events| - 1]);
      match events[|events| - 1]
      case Login(d) => Forgotten(before, d)
      case Packet(d, records, now) => Refreshed(before, d, Ignition(records), now)
  }

  /** The write event `i` of a run causes. */
  function WriteAt(c: Cache, events: seq<Event>, i: nat): Write
    requires i < |events|
  {
    match events[i]
    case Login(_) => Nothing
    case Packet(d, records, now) => Decision(After(c, events[..i]), d, Ignition(records), now)
  }

  /** No login of the device between events `i` and `j`: both belong to one login's traffic. */
  ghost predicate SameLogin(events: seq<Event>, device: DeviceId, i: int, j: int) {
    forall k :: i < k < j && 0 <= k < |events| ==> events[k] != Login(device)
  }

  lemma AfterStep(c: Cache, events: seq<Event>, i: nat)
    requires i < |events|
    ensures After(c, events[..i + 1]) ==
      match events[i]
      case Login(d) => Forgotten(After(c, events[..i]), d)
      case Packet(d, records, now) => Refreshed(After(c, events[..i]), d, Ignition(records), now)
  {
    hide Forgotten, Refreshed, Ignition;
    assert events[..i + 1][..i] == events[..i];
  }

  /** Until the next login the ignition cache holds the flag last written. */
  lemma {:induction false} IgnitionRemembered(c: Cache, events: seq<Event>, device: DeviceId, i: nat, j: nat)
    requires i < j <= |events| && events[i].device == device && WriteAt(c, events, i).Ignite?
    requires SameLogin(events, device, i, j)
    requires forall k :: i < k < j && events[k].device == device ==> !WriteAt(c, events, k).Ignite?
    ensures var after := After(c, events[..j]);
      device in after.ignition && after.ignition[device] == WriteAt(c, events, i).flag
    decreases j
  {
    hide After, Ignition;
    AfterStep(c, events, j - 1);
    if i < j - 1 {
      IgnitionRemembered(c, events, device, i, j - 1);
      assert events[j - 1].device == device ==> !WriteAt(c, events, j - 1).Ignite?;
    }
  }

  /** Consecutive ignition writes of one login always differ. */
  lemma IgnitionWritesAlternate(c: Cache, events: seq<Event>, device: DeviceId, i: nat, j: nat)
    requires i < j < |events| && events[i].device == events[j].device == device
    requires WriteAt(c, events, i).Ignite? && WriteAt(c, events, j).Ignite?
    requires SameLogin(events, device, i, j)
    requires forall k :: i < k < j && events[k].device == device ==> !WriteAt(c, events, k).Ignite?
    ensures WriteAt(c, events, i).flag != WriteAt(c, events, j).flag
  {
    hide After, Ignition;
    IgnitionRemembered(c, events, device, i, j);
  }

  ghost predicate ClockForward(events: seq<Event>, from: int) {
    forall i, j :: from <= i < j < |events| && 0 <= i && events[i].Packet? && events[j].Packet? ==>
      events[i].now <= events[j].now
  }

  /** Until the next login the alive cache is no older than any status write before it. */
  lemma {:induction false} WritesRemembered(c: Cache, events: seq<Event>, device: DeviceId, i: nat, j: nat)
    requires i < j <= |events| && events[i].device == device && WriteAt(c, events, i) != Nothing
    requires SameLogin(events, device, i, j) && ClockForward(events, i)
    ensures var after := After(c, events[..j]); device in after.alive && after.alive[device] >= events[i].now
    decreases j
  {
    hide After, Ignition;
    AfterStep(c, events, j - 1);
    if i < j - 1 {
      WritesRemembered(c, events, device, i, j - 1);
    }
  }

  /** An alive refresh comes at least a minute after every earlier status write of the login. */
  lemma AliveRefreshesSpaced(c: Cache, events: seq<Event>, device: DeviceId, i: nat, j: nat)
    requires i < j < |events| && events[i].device == events[j].device == device
    requires WriteAt(c, events, i) != Nothing && WriteAt(c, events, j).MarkAlive?
    requires SameLogin(events, device, i, j) && ClockForward(events, i)
    ensures events[j].now - events[i].now >= ALIVE_REFRESH
  {
    hide After, Ignition;
    WritesRemembered(c, events, device, i, j);
  }

  /** A cached refresh time is that of a status write since the last login. */
  lemma {:induction false} RefreshWasWritten(c: Cache, events: seq<Event>, device: DeviceId, j: nat)
    requires j <= |events| && device !in c.alive
    requires device in After(c, events[..j]).alive
    ensures exists i ::
      && 0 <= i < j && events[i].device == device && WriteAt(c, events, i) != Nothing
      && events[i].now == After(c, events[..j]).alive[device] && SameLogin(events, device, i, j)
    decreases j
  {
    hide After, Ignition;
    if j == 0 {
      NothingYet(c, events);
    } else {
      AfterStep(c, events, j - 1);
      var k := j - 1;
      if events[k].device != device || WriteAt(c, events, k) == Nothing {
        RefreshWasWritten(c, events, device, k);
        var i :| 0 <= i < k && events[i].device == device && WriteAt(c, events, i) != Nothing
          && events[i].now == After(c, events[..k]).alive[device] && SameLogin(events, device, i, k);
        assert SameLogin(events, device, i, j);
      } else {
        assert SameLogin(events, device, k, j);
      }
    }
  }

  lemma NothingYet(c: Cache, events: seq<Event>)
    ensures After(c, events[..0]) == c
  {}

  /** Right after any packet, the last status write of its login is less than a minute old. */
  lemma FreshAfterEveryPacket(c: Cache, events: seq<Event>, j: nat)
    requires j < |events| && events[j].Packet? && events[j].device !in c.alive
    ensures exists i ::
      && 0 <= i <= j && events[i].device == events[j].device
      && WriteAt(c, events, i) != Nothing && events[j].now - events[i].now < ALIVE_REFRESH
      && SameLogin(events, events[j].device, i, j + 1)
  {
    hide After, Ignition;
    AfterStep(c, events, j);
    RefreshWasWritten(c, events, events[j].device, j + 1);
    var i :| 0 <= i < j + 1 && events[i].device == events[j].device && WriteAt(c, events, i) != Nothing
      && events[i].now == After(c, events[..j + 1]).alive[events[j].device]
      && SameLogin(events, events[j].device, i, j + 1);
  }

  // ------------------------------------------------------------------
  // Exactly what is written
  // ------------------------------------------------------------------

  /** Event `i` is the last of the device's login before `j` that wrote its ignition. */
  ghost predicate LastIgnition(c: Cache, events: seq<Event>, device: DeviceId, i: nat, j: nat) {
    && i < j <= |events| && events[i].device == device && WriteAt(c, events, i).Ignite?
    && SameLogin(events, device, i, j)
    && forall k :: i < k < j && events[k].device == device ==> !WriteAt(c, events, k).Ignite?
  }

  /** Event `i` is the last of the device's login before `j` that wrote its status at all. */
  ghost predicate LastWrite(c: Cache, events: seq<Event>, device: DeviceId, i: nat, j: nat) {
    && i < j <= |events| && events[i].device == device && WriteAt(c, events, i) != Nothing
    && SameLogin(events, device, i, j)
    && forall k :: i < k < j && events[k].device == device ==> WriteAt(c, events, k) == Nothing
  }

  /** An ignition found in the cache was written since the last login, and was the last one written. */
  lemma {:induction false} IgnitionWasWritten(c: Cache, events: seq<Event>, device: DeviceId, j: nat) returns (i: nat)
    requires j <= |events| && device !in c.ignition && device in After(c, events[..j]).ignition
    ensures LastIgnition(c, events, device, i, j)
    decreases j
  {
    hide After, Ignition;
    i := 0;
    if j == 0 {
      NothingYet(c, events);
    } else {
      AfterStep(c, events, j - 1);
      if events[j - 1].device == device && WriteAt(c, events, j - 1).Ignite? {
        i := j - 1;
      } else {
        i := IgnitionWasWritten(c, events, device, j - 1);
      }
    }
  }

  /** A refresh time found in the cache is that of the last status write since the last login. */
  lemma {:induction false} LastWriteCached(c: Cache, events: seq<Event>, device: DeviceId, j: nat) returns (i: nat)
    requires j <= |events| && device !in c.alive && device in After(c, events[..j]).alive
    ensures LastWrite(c, events, device, i, j)
    ensures After(c, events[..j]).alive[device] == events[i].now
    decreases j
  {
    hide After, Ignition;
    i := 0;
    if j == 0 {
      NothingYet(c, events);
    } else {
      AfterStep(c, events, j - 1);
      if events[j - 1].device == device && WriteAt(c, events, j - 1) != Nothing {
        i := j - 1;
      } else {
        i := LastWriteCached(c, events, device, j - 1);
      }
    }
  }

  /** And the time of the last status write is found there until the next login. */
  lemma {:induction false} LastWriteRemembered(c: Cache, events: seq<Event>, device: DeviceId, i: nat, j: nat)
    requires LastWrite(c, events, device, i, j)
    ensures var after := After(c, events[..j]); device in after.alive && after.alive[device] == events[i].now
    decreases j
  {
    hide After, Ignition;
    AfterStep(c, events, j - 1);
    if i < j - 1 {
      LastWriteRemembered(c, events, device, i, j - 1);
      assert events[j - 1].device == device ==> WriteAt(c, events, j - 1) == Nothing;
    }
  }

  /**
   A packet's ignition is written if and only if it reports one and the last
   ignition written in its login, if any, was another.
   */
  lemma IgnitionWrittenExactly(c: Cache, events: seq<Event>, j: nat, f: Flag)
    requires j < |events| && events[j].Packet? && events[j].device !in c.ignition
    ensures WriteAt(c, events, j) == Ignite(f) <==>
      && f == Ignition(events[j].records) && f != Unknown
      && forall i: nat :: LastIgnition(c, events, events[j].device, i, j) ==> WriteAt(c, events, i).flag != f
  {
    hide After, Ignition, SameLogin;
    var device := events[j].device;
    forall i: nat | LastIgnition(c, events, device, i, j)
      ensures var after := After(c, events[..j]);
        device in after.ignition && after.ignition[device] == WriteAt(c, events, i).flag
    {
      IgnitionRemembered(c, events, device, i, j);
    }
    if device in After(c, events[..j]).ignition {
      var i := IgnitionWasWritten(c, events, device, j);
    }
  }

  /**
   A packet refreshes the last-seen time if and only if it writes no ignition
   and the last status write of its login, if any, is a minute old.
   */
  lemma AliveWrittenExactly(c: Cache, events: seq<Event>, j: nat)
    requires j < |events| && events[j].Packet? && events[j].device !in c.alive
    ensures WriteAt(c, events, j).MarkAlive? <==>
      && !WriteAt(c, events, j).Ignite?
      && forall i: nat :: LastWrite(c, events, events[j].device, i, j) ==> events[j].now - events[i].now >= 60_000
  {
    hide After, Ignition, SameLogin;
    var device := events[j].device;
    forall i: nat | LastWrite(c, events, device, i, j)
      ensures var after := After(c, events[..j]); device in after.alive && after.alive[device] == events[i].now
    {
      LastWriteRemembered(c, events, device, i, j);
    }
    if device in After(c, events[..j]).alive {
      var i := LastWriteCached(c, events, device, j);
    }
  }

  /** So after every packet that reports ignition, the last one written in its login is the one it reports. */
  lemma IgnitionUpToDate(c: Cache, events: seq<Event>, j: nat) returns (i: nat)
    requires j < |events| && events[j].Packet? && events[j].device !in c.ignition
    requires Ignition(events[j].records) != Unknown
    ensures LastIgnition(c, events, events[j].device, i, j + 1)
    ensures WriteAt(c, events, i).flag == Ignition(events[j].records)
  {
    hide After, Ignition, SameLogin;
    var device, f := events[j].device, Ignition(events[j].records);
    IgnitionWrittenExactly(c, events, j, f);
    if WriteAt(c, events, j).Ignite? {
      WritesOwnFlag(c, events, j);
    }
    if WriteAt(c, events, j) == Ignite(f) {
      i := j;
      SameLoginTrivial(events, device, j);
    } else {
      i :| LastIgnition(c, events, device, i, j) && WriteAt(c, events, i).flag == f;
      SameLoginExtends(events, device, i, j);
    }
  }

  lemma SameLoginTrivial(events: seq<Event>, device: DeviceId, j: nat)
    ensures SameLogin(events, device, j, j + 1)
  {}

  lemma SameLoginExtends(events: seq<Event>, device: DeviceId, i: nat, j: nat)
    requires SameLogin(events, device, i, j) && j < |events| && events[j].Packet?
    ensures SameLogin(events, device, i, j + 1)
  {}

  lemma WritesOwnFlag(c: Cache, events: seq<Event>, j: nat)
    requires j < |events| && events[j].Packet? && WriteAt(c, events, j).Ignite?
    ensures WriteAt(c, events, j) == Ignite(Ignition(events[j].records))
  {
    hide After, Ignition;
  }

  // ------------------------------------------------------------------
  // Refreshes that wait while others run
  // ------------------------------------------------------------------

  /** A refresh of connection `conn` begins, or its write is over; or some device logs in. */
  datatype Step =
    | Relogin(device: DeviceId)
    | Begin(conn: nat, device: DeviceId, records: seq<AvlRecord>, now: int)
    | End(conn: nat)

  datatype Waiting = Waiting(cache: Cache, pending: map<nat, Pending>)

  /** A connection handles one packet at a time. */
  predicate Enabled(s: Waiting, step: Step) {
    match step
    case Relogin(_) => true
    case Begin(conn, _, _, _) => conn !in s.pending
    case End(conn) => conn in s.pending
  }

  function Stepped(s: Waiting, step: Step): Waiting
    requires Enabled(s, step)
  {
    match step
    case Relogin(d) => s.(cache := Forgotten(s.cache, d))
    case Begin(conn, d, records, now) => s.(pending := s.pending[conn := Begun(s.cache, d, Ignition(records), now)])
    case End(conn) => Waiting(Finished(s.cache, s.pending[conn]), s.pending - {conn})
  }

  ghost predicate Trace(c: Cache, steps: seq<Step>, states: seq<Waiting>) {
    && |states| == |steps| + 1
    && states[0] == Waiting(c, map[])
    && forall i :: 0 <= i < |steps| ==> Enabled(states[i], steps[i]) && states[i + 1] == Stepped(states[i], steps[i])
  }

  ghost predicate Idle(s: Waiting, device: DeviceId) {
    forall conn :: conn in s.pending ==> s.pending[conn].device != device
  }

  predicate Concerns(step: Step, device: DeviceId) {
    !step.End? && step.device == device
  }

  /** No login and no other refresh of the device falls into one of its refreshes; other devices are free to. */
  ghost predicate Serial(steps: seq<Step>, states: seq<Waiting>, device: DeviceId)
    requires |states| == |steps| + 1
  {
    forall i :: 0 <= i < |steps| && Concerns(steps[i], device) ==> Idle(states[i], device)
  }

  /** What a device's own refreshes and logins are, one after the other. */
  function Own(steps: seq<Step>, device: DeviceId): seq<Event>
    decreases |steps|
  {
    if steps == [] then []
    else
      var before := Own(steps[..|steps| - 1], device);
      match steps[|steps| - 1]
      case Relogin(d) => if d == device then before + [Login(d)] else before
      case Begin(_, d, records, now) => if d == device then before + [Packet(d, records, now)] else before
      case End(_) => before
  }

  /** What the caches hold about one device. */
  datatype Held = Held(alive: Option<int>, ignition: Option<Flag>)

  function HeldOf(c: Cache, device: DeviceId): Held {
    Held(if device in c.alive then Some(c.alive[device]) else None,
         if device in c.ignition then Some(c.ignition[device]) else None)
  }

  lemma HeldDecides(c: Cache, c': Cache, device: DeviceId, flag: Flag, now: int)
    requires HeldOf(c, device) == HeldOf(c', device)
    ensures Decision(c, device, flag, now) == Decision(c', device, flag, now)
  {}

  lemma HeldFinishes(c: Cache, c': Cache, device: DeviceId, p: Pending)
    requires HeldOf(c, device) == HeldOf(c', device)
    ensures HeldOf(Finished(c, p), device) == HeldOf(Finished(c', p), device)
    ensures p.device != device ==> HeldOf(Finished(c, p), device) == HeldOf(c, device)
  {}

  lemma HeldForgets(c: Cache, c': Cache, device: DeviceId, other: DeviceId)
    requires HeldOf(c, device) == HeldOf(c', device)
    ensures HeldOf(Forgotten(c, other), device) == HeldOf(Forgotten(c', other), device)
    ensures other != device ==> HeldOf(Forgotten(c, other), device) == HeldOf(c, device)
  {}

  /** The caches hold of the device what its own events would have left there, once its refresh under way is over. */
  ghost predicate InStep(s: Waiting, after: Cache, device: DeviceId) {
    && (forall conn :: conn in s.pending && s.pending[conn].device == device ==>
          HeldOf(Finished(s.cache, s.pending[conn]), device) == HeldOf(after, device))
    && (forall m, n ::
          m in s.pending && n in s.pending && s.pending[m].device == device == s.pending[n].device ==> m == n)
    && (Idle(s, device) ==> HeldOf(s.cache, device) == HeldOf(after, device))
  }

  function Effect(after: Cache, step: Step, device: DeviceId): Cache {
    if !Concerns(step, device) then after
    else if step.Relogin? then Forgotten(after, device)
    else Refreshed(after, device, Ignition(step.records), step.now)
  }

  lemma ReloginKeepsInStep(s: Waiting, after: Cache, d: DeviceId, device: DeviceId)
    requires InStep(s, after, device) && (d == device ==> Idle(s, device))
    ensures InStep(Stepped(s, Relogin(d)), Effect(after, Relogin(d), device), device)
  {
    hide Decision, Ignition, HeldOf, Finished, Forgotten;
    if d == device {
      HeldForgets(s.cache, after, device, d);
    } else {
      HeldOfOther(s.cache, d, device);
      forall conn | conn in s.pending && s.pending[conn].device == device
        ensures HeldOf(Finished(Forgotten(s.cache, d), s.pending[conn]), device) == HeldOf(after, device)
      {
        HeldFinishes(Forgotten(s.cache, d), s.cache, device, s.pending[conn]);
      }
    }
  }

  lemma BeginKeepsInStep(s: Waiting, after: Cache, step: Step, device: DeviceId)
    requires InStep(s, after, device) && step.Begin? && Enabled(s, step) && (step.device == device ==> Idle(s, device))
    ensures InStep(Stepped(s, step), Effect(after, step, device), device)
  {
    hide Decision, Ignition, HeldOf, Finished;
    var s', p := Stepped(s, step), Begun(s.cache, step.device, Ignition(step.records), step.now);
    assert s'.pending[step.conn] == p;
    forall m | m in s.pending
      ensures s'.pending[m] == s.pending[m]
    {
    }
    if step.device == device {
      HeldDecides(s.cache, after, device, Ignition(step.records), step.now);
      assert p == Begun(after, device, Ignition(step.records), step.now);
      HeldFinishes(s.cache, after, device, p);
    } else if Idle(s', device) {
      assert forall m :: m in s.pending ==> s'.pending[m].device != device;
    }
  }

  lemma EndKeepsInStep(s: Waiting, after: Cache, conn: nat, device: DeviceId)
    requires InStep(s, after, device) && conn in s.pending
    ensures InStep(Stepped(s, End(conn)), after, device)
  {
    hide Decision, HeldOf, Finished;
    var s', p := Stepped(s, End(conn)), s.pending[conn];
    if p.device != device {
      HeldFinishes(s.cache, s.cache, device, p);
      forall m | m in s.pending && m != conn && s.pending[m].device == device
        ensures HeldOf(Finished(Finished(s.cache, p), s.pending[m]), device) == HeldOf(after, device)
      {
        HeldFinishes(Finished(s.cache, p), s.cache, device, s.pending[m]);
      }
      if Idle(s', device) {
        forall m | m in s.pending
          ensures s.pending[m].device != device
        {
          assert m != conn ==> m in s'.pending && s'.pending[m] == s.pending[m];
        }
      }
    }
  }

  lemma StepKeepsInStep(s: Waiting, after: Cache, step: Step, device: DeviceId)
    requires InStep(s, after, device) && Enabled(s, step) && (Concerns(step, device) ==> Idle(s, device))
    ensures InStep(Stepped(s, step), Effect(after, step, device), device)
  {
    hide InStep, Idle, Stepped;
    match step
    case Relogin(d) => ReloginKeepsInStep(s, after, d, device);
    case Begin(_, _, _, _) => BeginKeepsInStep(s, after, step, device);
    case End(conn) => EndKeepsInStep(s, after, conn, device);
  }

  lemma HeldOfOther(c: Cache, forgotten: DeviceId, device: DeviceId)
    ensures forgotten != device ==> HeldOf(Forgotten(c, forgotten), device) == HeldOf(c, device)
  {}

  lemma OwnStep(c: Cache, steps: seq<Step>, k: nat, device: DeviceId)
    requires k < |steps|
    ensures After(c, Own(steps[..k + 1], device)) == Effect(After(c, Own(steps[..k], device)), steps[k], device)
    ensures Own(steps[..k], device) <= Own(steps[..k + 1], device)
    ensures |Own(steps[..k + 1], device)| == |Own(steps[..k], device)| + if Concerns(steps[k], device) then 1 else 0
  {
    hide Refreshed, Forgotten, Ignition;
    assert steps[..k + 1][..k] == steps[..k];
    if Concerns(steps[k], device) {
      var events := Own(steps[..k + 1], device);
      assert events[..|events| - 1] == Own(steps[..k], device);
    }
  }

  /**
   Refreshes wait for their writes while refreshes and logins of other devices
   run. As long as those of one device do not overlap, the caches hold of it
   what its own events, taken one at a time, would have left there.
   */
  lemma {:induction false} SerialRefreshes(
    c: Cache, steps: seq<Step>, states: seq<Waiting>, device: DeviceId, k: nat)
    requires Trace(c, steps, states) && Serial(steps, states, device) && k < |states|
    ensures InStep(states[k], After(c, Own(steps[..k], device)), device)
    decreases k
  {
    hide InStep, After, Own, Stepped, Enabled, Effect, Idle;
    if k == 0 {
      NothingOwn(c, steps, device);
    } else {
      SerialRefreshes(c, steps, states, device, k - 1);
      OwnStep(c, steps, k - 1, device);
      StepKeepsInStep(states[k - 1], After(c, Own(steps[..k - 1], device)), steps[k - 1], device);
    }
  }

  lemma NothingOwn(c: Cache, steps: seq<Step>, device: DeviceId)
    ensures InStep(Waiting(c, map[]), After(c, Own(steps[..0], device)), device)
  {}

  lemma {:induction false} OwnGrows(steps: seq<Step>, k: nat, n: nat, device: DeviceId)
    requires k <= n <= |steps|
    ensures Own(steps[..k], device) <= Own(steps[..n], device)
    decreases n
  {
    if k < n {
      OwnGrows(steps, k, n - 1, device);
      assert steps[..n][..n - 1] == steps[..n - 1];
    }
  }

  /**
   And each refresh writes what it writes in the device's own run, so all that
   is proved of those writes holds of the interleaved ones.
   */
  lemma SerialWrites(c: Cache, steps: seq<Step>, states: seq<Waiting>, device: DeviceId, k: nat)
    requires Trace(c, steps, states) && Serial(steps, states, device)
    requires k < |steps| && steps[k].Begin? && steps[k].device == device
    ensures var own, i := Own(steps, device), |Own(steps[..k], device)|;
      && i < |own| && own[i] == Packet(device, steps[k].records, steps[k].now)
      && states[k + 1].pending[steps[k].conn].write == WriteAt(c, own, i)
  {
    hide After, Own, Decision, Ignition;
    SerialRefreshes(c, steps, states, device, k);
    OwnGrows(steps, k + 1, |steps|, device);
    OwnNow(steps, k, device);
    assert steps[..|steps|] == steps;
    var own, i := Own(steps, device), |Own(steps[..k], device)|;
    assert own[..i] == Own(steps[..k], device);
    assert Idle(states[k], device);
    HeldDecides(states[k].cache, After(c, own[..i]), device, Ignition(steps[k].records), steps[k].now);
  }

  lemma OwnNow(steps: seq<Step>, k: nat, device: DeviceId)
    requires k < |steps| && steps[k].Begin? && steps[k].device == device
    ensures Own(steps[..k + 1], device) == Own(steps[..k], device) + [Packet(device, steps[k].records, steps[k].now)]
  {
    assert steps[..k + 1][..k] == steps[..k];
  }

  /** Two overlapping refreshes of one device write the same ignition twice. */
  lemma OverlapRepeatsWrite(c: Cache, device: DeviceId, records: seq<AvlRecord>, now: int)
    requires Ignition(records) != Unknown && device !in c.ignition
    ensures var s := Waiting(c, map[]);
      && Enabled(s, Begin(0, device, records, now))
      && var s1 := Stepped(s, Begin(0, device, records, now));
      && Enabled(s1, Begin(1, device, records, now))
      && var s2 := Stepped(s1, Begin(1, device, records, now));
      s2.pending[0].write == s2.pending[1].write == Ignite(Ignition(records))
  {
    hide Ignition;
  }
}
