/**
 The Teltonika data path: what the handler does with one packet, and the whole
 delivery protocol between a device's queue, its connections, the gateway and
 the history table.
 */
module Delivery {
  import opened Common
  import opened TeltonikaReader
  import opened Tracking

  // ------------------------------------------------------------------
  // One record
  // ------------------------------------------------------------------

  const DEGREE := 10_000_000

  predicate PositionOk(r: AvlRecord) {
    && -90 * DEGREE <= r.latitude <= 90 * DEGREE
    && -180 * DEGREE <= r.longitude <= 180 * DEGREE
    && 0 <= r.speed <= 300
    && 0 <= r.angle <= 360
  }

  /** The deliberate-skip rules; `maxFuture` is configured in seconds, `now` is in milliseconds. */
  predicate Skippable(r: AvlRecord, now: int, maxFuture: int) {
    !r.HasFix() || r.millis > now + maxFuture * 1000 || !PositionOk(r)
  }

  function FixOf(r: AvlRecord): Fix {
    Fix(r.latitude as real / 10_000_000.0, r.longitude as real / 10_000_000.0,
        r.speed as real, r.angle as real, r.satellites, r.millis)
  }

  function AttemptOf(device: DeviceId, r: AvlRecord, outcome: Outcome): Attempt {
    Attempt(device, FixOf(r), outcome)
  }

  /** True when the record is dealt with: stored, or skipped on purpose. */
  predicate DealtWith(r: AvlRecord, now: int, maxFuture: int, outcome: Outcome) {
    Skippable(r, now, maxFuture) || outcome.Stored?
  }

  function AfterRecord(
    t: Tables, idempotent: bool, device: DeviceId, r: AvlRecord, now: int, maxFuture: int, outcome: Outcome): Tables
  {
    if Skippable(r, now, maxFuture) then t else AfterAttempt(t, idempotent, AttemptOf(device, r, outcome))
  }

  // ------------------------------------------------------------------
  // One packet
  // ------------------------------------------------------------------

  /** What happens at one record: the clock it is judged by and how a database write would end. */
  datatype Moment = Moment(now: int, outcome: Outcome)

  datatype Settings = Settings(idempotent: bool, maxFuture: int, device: DeviceId)

  /** The tables after the first `n` records of a packet were worked on. */
  function AfterRecords(t: Tables, c: Settings, records: seq<AvlRecord>, moments: seq<Moment>, n: nat): Tables
    requires n <= |records| == |moments|
  {
    if n == 0 then t
    else AfterRecord(AfterRecords(t, c, records, moments, n - 1), c.idempotent, c.device,
                     records[n - 1], moments[n - 1].now, c.maxFuture, moments[n - 1].outcome)
  }

  predicate DealtAt(c: Settings, records: seq<AvlRecord>, moments: seq<Moment>, i: nat)
    requires i < |records| == |moments|
  {
    DealtWith(records[i], moments[i].now, c.maxFuture, moments[i].outcome)
  }

  /**
   Works through a packet until a write fails. The acknowledged count is exactly
   the length of the prefix that was dealt with, and the tables are what those
   records and the failed write, if any, made of them.
   */
  method HandleRecords(service: TrackingService, c: Settings, records: seq<AvlRecord>, moments: seq<Moment>)
    returns (accepted: nat)
    requires |moments| == |records|
    modifies service
    ensures accepted <= |records|
    ensures forall i :: 0 <= i < accepted ==> DealtAt(c, records, moments, i)
    ensures accepted < |records| ==> !DealtAt(c, records, moments, accepted)
    ensures service.Contents() == AfterRecords(old(service.Contents()), c, records, moments,
                                               if accepted < |records| then accepted + 1 else accepted)
  {
    hide Skippable, FixOf, Saved;
    accepted := 0;
    while accepted < |records|
      invariant accepted <= |records|
      invariant forall i :: 0 <= i < accepted ==> DealtAt(c, records, moments, i)
      invariant service.Contents() == AfterRecords(old(service.Contents()), c, records, moments, accepted)
    {
      var stored := StoreRecord(service, c, records[accepted], moments[accepted]);
      if !stored {
        break;
      }
      accepted := accepted + 1;
    }
  }

  // ------------------------------------------------------------------
  // What one record leaves behind, in its own integers
  // ------------------------------------------------------------------

  /** `cleaned` is `tenths` divided by ten and rounded, ties to even. */
  predicate RoundedTenth(cleaned: int, tenths: int) {
    && -5 <= 10 * cleaned - tenths <= 5
    && ((10 * cleaned - tenths == 5 || 10 * cleaned - tenths == -5) ==> cleaned % 2 == 0)
  }

  /** Coordinates in millionths of a degree, speed and heading in hundredths. */
  predicate RowHolds(row: HistoryRow, device: DeviceId, r: AvlRecord) {
    && row.device == device
    && RoundedTenth(row.latitude, r.latitude) && RoundedTenth(row.longitude, r.longitude)
    && row.speed == 100 * r.speed && row.heading == 100 * r.angle
    && row.satellites == r.satellites && row.eventTime == r.millis
  }

  predicate LiveHolds(live: LiveRow, t: Tables, device: DeviceId, r: AvlRecord) {
    && Some(live.vehicle) == ActiveVehicle(t.assignments, device)
    && RoundedTenth(live.latitude, r.latitude) && RoundedTenth(live.longitude, r.longitude)
    && live.speed == 100 * r.speed && live.heading == 100 * r.angle
    && live.lastUpdate == r.millis && live.moving == (r.speed > 0)
    && live.ignition == (device in t.ignition && t.ignition[device])
  }

  lemma CoordinateCleaned(k: int)
    ensures RoundedTenth(Clean(k as real / 10_000_000.0, MICRO), k)
  {
    var x := k as real / 10.0;
    assert k as real / 10_000_000.0 * MICRO as real == x;
    var low := x.Floor;
    assert 10 * low <= k < 10 * low + 10;
  }

  lemma WholeCleaned(n: int)
    ensures Clean(n as real, CENTI) == 100 * n
  {
    assert n as real * CENTI as real == (100 * n) as real;
  }

  /** The row a record is saved as is the one that holds its values, and no other. */
  lemma RowHoldsExactly(device: DeviceId, r: AvlRecord, row: HistoryRow)
    ensures RowHolds(row, device, r) <==> row == RowFor(device, FixOf(r))
  {
    hide Clean;
    CoordinateCleaned(r.latitude);
    CoordinateCleaned(r.longitude);
    WholeCleaned(r.speed);
    WholeCleaned(r.angle);
  }

  /** Some row of the table holds the record's values. */
  ghost predicate HasOwnRow(history: seq<HistoryRow>, device: DeviceId, r: AvlRecord) {
    exists row :: row in history && RowHolds(row, device, r)
  }

  lemma OwnRowIs(history: seq<HistoryRow>, device: DeviceId, r: AvlRecord)
    ensures HasOwnRow(history, device, r) <==> RowFor(device, FixOf(r)) in history
  {
    hide RowHolds, RowFor, FixOf;
    forall row
      ensures RowHolds(row, device, r) <==> row == RowFor(device, FixOf(r))
    {
      RowHoldsExactly(device, r, row);
    }
  }

  lemma LiveHoldsSaved(t: Tables, idempotent: bool, device: DeviceId, r: AvlRecord)
    requires Assigned(t, device)
    ensures var live := Saved(t, idempotent, device, FixOf(r)).live;
      && live.Keys == t.live.Keys + {device} && LiveHolds(live[device], t, device, r)
      && forall d :: d in t.live && d != device ==> live[d] == t.live[d]
  {
    hide Clean, Insert;
    CoordinateCleaned(r.latitude);
    CoordinateCleaned(r.longitude);
    WholeCleaned(r.speed);
    WholeCleaned(r.angle);
  }

  /** The three deliberate-skip rules, in the record's own integers. */
  predicate SkipRules(r: AvlRecord, now: int, maxFuture: int) {
    || r.satellites == 0 || (r.latitude == 0 && r.longitude == 0)
    || r.millis > now + 1000 * maxFuture
    || r.latitude < -900_000_000 || r.latitude > 900_000_000
    || r.longitude < -1_800_000_000 || r.longitude > 1_800_000_000
    || r.speed > 300 || r.angle > 360
  }

  /** What the tables gain by one committed write of a record. */
  ghost predicate Gains(before: Tables, after: Tables, c: Settings, r: AvlRecord) {
    && after.assignments == before.assignments && after.ignition == before.ignition
    && (if c.idempotent && HasKey(before.history, Key(c.device, r.millis)) then after.history == before.history
        else
          && |after.history| == |before.history| + 1 && before.history <= after.history
          && RowHolds(after.history[|before.history|], c.device, r))
    && (if Assigned(before, c.device) then
          && after.live.Keys == before.live.Keys + {c.device}
          && LiveHolds(after.live[c.device], before, c.device, r)
          && forall d :: d in before.live && d != c.device ==> after.live[d] == before.live[d]
        else after.live == before.live)
  }

  /** A record is worked on as its values say: which are skipped, and what the others leave in the tables. */
  lemma RecordLeaves(t: Tables, c: Settings, r: AvlRecord, m: Moment)
    ensures Skippable(r, m.now, c.maxFuture) <==> SkipRules(r, m.now, c.maxFuture)
    ensures var after := AfterRecord(t, c.idempotent, c.device, r, m.now, c.maxFuture, m.outcome);
      if SkipRules(r, m.now, c.maxFuture) || m.outcome.FailedLost? then after == t else Gains(t, after, c, r)
  {
    SkippableExactly(r, m.now, c.maxFuture);
    if !SkipRules(r, m.now, c.maxFuture) && !m.outcome.FailedLost? {
      hide SkipRules, Skippable, RowHolds, LiveHolds, RowFor, LiveFor;
      RowHoldsExactly(c.device, r, RowFor(c.device, FixOf(r)));
      KeyOfFix(c.device, r);
      if Assigned(t, c.device) {
        LiveHoldsSaved(t, c.idempotent, c.device, r);
      }
    }
  }

  lemma SkippableExactly(r: AvlRecord, now: int, maxFuture: int)
    ensures Skippable(r, now, maxFuture) <==> SkipRules(r, now, maxFuture)
  {}

  lemma KeyOfFix(device: DeviceId, r: AvlRecord)
    ensures KeyOf(RowFor(device, FixOf(r))) == Key(device, r.millis)
  {}

  method StoreRecord(service: TrackingService, c: Settings, r: AvlRecord, m: Moment) returns (dealt: bool)
    modifies service
    ensures dealt == DealtWith(r, m.now, c.maxFuture, m.outcome)
    ensures service.Contents()
         == AfterRecord(old(service.Contents()), c.idempotent, c.device, r, m.now, c.maxFuture, m.outcome)
    ensures dealt <==> SkipRules(r, m.now, c.maxFuture) || m.outcome.Stored?
    ensures if SkipRules(r, m.now, c.maxFuture) || m.outcome.FailedLost?
            then service.Contents() == old(service.Contents())
            else Gains(old(service.Contents()), service.Contents(), c, r)
  {
    hide Gains, SkipRules, Saved, FixOf;
    RecordLeaves(service.Contents(), c, r, m);
    if !r.HasFix() {
      return true;
    }
    var latestAllowed := m.now + c.maxFuture * 1000;
    if r.millis > latestAllowed {
      return true;
    }
    if !PositionOk(r) {
      return true;
    }
    if m.outcome.Committed() {
      var _ := service.SaveLocation(c.idempotent, c.device, FixOf(r));
    }
    dealt := m.outcome.Stored?;
  }

  // ------------------------------------------------------------------
  // The protocol
  // ------------------------------------------------------------------

  /** A packet on the wire; `base` says where in the device's log it was taken from. */
  datatype Packet = Packet(base: nat, records: seq<AvlRecord>)

  /** A packet the gateway is working on. */
  datatype Job = Idle | Working(packet: Packet, accepted: nat, failed: bool) {
    predicate Finished() {
      Working? && (failed || accepted == |packet.records|)
    }
  }

  /** One TCP connection and the handler serving it. */
  datatype Link = Link(inbox: seq<Packet>, job: Job, acks: seq<nat>) {
    predicate Quiet() {
      inbox == [] && job.Idle? && acks == []
    }
  }

  /** A record the gateway worked on: its place in the device's log, when, and with what result. */
  datatype Visit = Visit(at: nat, record: AvlRecord, now: int, outcome: Outcome)

  /** `log` is everything the device recorded; its queue is what is not yet discarded. */
  datatype State = State(
    log: seq<AvlRecord>, discarded: nat, connected: bool, links: seq<Link>,
    tables: Tables, visits: seq<Visit>)

  datatype Action =
    | Produce(record: AvlRecord)             // the device records a position
    | Connect                                // a new connection; older handlers may still run
    | Disconnect                             // the device gives its connection up
    | Send(count: nat)                       // the device sends the oldest `count` records
    | Lose(link: nat)                        // a packet is damaged or undecodable: no reply
    | Begin(link: nat)
    | Store(link: nat, moment: Moment)       // the handler works on one record
    | Reply(link: nat)                       // the handler acknowledges what it accepted
    | Abandon(link: nat)                     // the handler dies, or its reply cannot be written
    | Acknowledge                            // the device reads an acknowledgement

  predicate Enabled(s: State, a: Action) {
    match a
    case Produce(_) => true
    case Connect => true
    case Disconnect => s.connected
    case Send(count) =>
      && s.connected && s.links != [] && s.discarded <= |s.log|
      && 0 < count <= 255 && s.discarded + count <= |s.log|
      // Stop and wait: nothing sent earlier on this connection is still unanswered.
      && s.links[|s.links| - 1].Quiet()
    case Lose(i) => i < |s.links| && s.links[i].inbox != []
    case Begin(i) => i < |s.links| && s.links[i].inbox != [] && s.links[i].job.Idle?
    case Store(i, _) => i < |s.links| && s.links[i].job.Working? && !s.links[i].job.failed
                        && s.links[i].job.accepted < |s.links[i].job.packet.records|
    case Reply(i) => i < |s.links| && s.links[i].job.Finished()
    case Abandon(i) => i < |s.links| && s.links[i].job.Working?
    case Acknowledge => s.connected && s.links != [] && s.links[|s.links| - 1].acks != []
  }

  function Apply(c: Settings, s: State, a: Action): State
    requires Enabled(s, a)
  {
    match a
    case Produce(r) => s.(log := s.log + [r])
    case Connect => s.(connected := true, links := s.links + [Link([], Idle, [])])
    case Disconnect => s.(connected := false)
    case Send(count) =>
      var i := |s.links| - 1;
      var packet := Packet(s.discarded, s.log[s.discarded..s.discarded + count]);
      s.(links := s.links[i := s.links[i].(inbox := s.links[i].inbox + [packet])])
    case Lose(i) => s.(links := s.links[i := s.links[i].(inbox := s.links[i].inbox[1..])])
    case Begin(i) =>
      s.(links := s.links[i := s.links[i].(inbox := s.links[i].inbox[1..],
                                           job := Working(s.links[i].inbox[0], 0, false))])
    case Store(i, m) =>
      var job := s.links[i].job;
      var r := job.packet.records[job.accepted];
      var job' := if DealtWith(r, m.now, c.maxFuture, m.outcome)
                  then job.(accepted := job.accepted + 1) else job.(failed := true);
      s.(links := s.links[i := s.links[i].(job := job')],
         tables := AfterRecord(s.tables, c.idempotent, c.device, r, m.now, c.maxFuture, m.outcome),
         visits := s.visits + [Visit(job.packet.base + job.accepted, r, m.now, m.outcome)])
    case Reply(i) =>
      s.(links := s.links[i := s.links[i].(job := Idle, acks := s.links[i].acks + [s.links[i].job.accepted])])
    case Abandon(i) => s.(links := s.links[i := s.links[i].(job := Idle)])
    case Acknowledge =>
      var i := |s.links| - 1;
      s.(links := s.links[i := s.links[i].(acks := s.links[i].acks[1..])],
         discarded := s.discarded + s.links[i].acks[0])
  }

  function Start(t: Tables): State {
    State([], 0, false, [], t, [])
  }

  /** A run from the empty device, with any tables to begin with. */
  ghost predicate Run(c: Settings, t: Tables, actions: seq<Action>, states: seq<State>) {
    && |states| == |actions| + 1
    && states[0] == Start(t)
    && forall i :: 0 <= i < |actions| ==>
         Enabled(states[i], actions[i]) && states[i + 1] == Apply(c, states[i], actions[i])
  }

  // ------------------------------------------------------------------
  // At least once
  // ------------------------------------------------------------------

  /** Some visit of the record at place `i` of the log stored it or skipped it on purpose. */
  ghost predicate Settled(c: Settings, visits: seq<Visit>, log: seq<AvlRecord>, i: nat)
    requires i < |log|
  {
    exists v :: v in visits && v.at == i && v.record == log[i] && DealtWith(log[i], v.now, c.maxFuture, v.outcome)
  }

  ghost predicate AllSettled(c: Settings, visits: seq<Visit>, log: seq<AvlRecord>, from: nat, to: nat) {
    forall i :: from <= i < to && i < |log| ==> Settled(c, visits, log, i)
  }

  /** The packet's records are those of the log from its base on. */
  predicate CutFrom(log: seq<AvlRecord>, p: Packet) {
    p.base + |p.records| <= |log| && p.records == log[p.base..p.base + |p.records|]
  }

  /** What the device's own connection carries: at most one packet or its answer, about the front of the queue. */
  ghost predicate LinkSound(c: Settings, s: State, l: Link) {
    && |l.inbox| + (if l.job.Idle? then 0 else 1) + |l.acks| <= 1
    && (l.inbox != [] ==> l.inbox[0].base == s.discarded && CutFrom(s.log, l.inbox[0]))
    && (l.job.Working? ==>
          && l.job.packet.base == s.discarded && CutFrom(s.log, l.job.packet)
          && l.job.accepted <= |l.job.packet.records|
          && AllSettled(c, s.visits, s.log, s.discarded, s.discarded + l.job.accepted))
    && (l.acks != [] ==>
          && s.discarded + l.acks[0] <= |s.log|
          && AllSettled(c, s.visits, s.log, s.discarded, s.discarded + l.acks[0]))
  }

  ghost predicate Safe(c: Settings, s: State) {
    && s.discarded <= |s.log|
    && AllSettled(c, s.visits, s.log, 0, s.discarded)
    && (s.connected && s.links != [] ==> LinkSound(c, s, s.links[|s.links| - 1]))
  }

  lemma SettledGrows(c: Settings, visits: seq<Visit>, v: Visit, log: seq<AvlRecord>, from: nat, to: nat)
    requires AllSettled(c, visits, log, from, to)
    ensures AllSettled(c, visits + [v], log, from, to)
  {
    hide DealtWith;
    forall i | from <= i < to && i < |log|
      ensures Settled(c, visits + [v], log, i)
    {
      assert Settled(c, visits, log, i);
      var w :| w in visits && w.at == i && w.record == log[i] && DealtWith(log[i], w.now, c.maxFuture, w.outcome);
      assert w in visits + [v];
    }
  }

  lemma StoreKeepsSafe(c: Settings, s: State, i: nat, m: Moment)
    requires Safe(c, s) && Enabled(s, Store(i, m))
    ensures Safe(c, Apply(c, s, Store(i, m)))
  {
    hide DealtWith, AfterRecord, Settled;
    var job := s.links[i].job;
    var v := Visit(job.packet.base + job.accepted, job.packet.records[job.accepted], m.now, m.outcome);
    SettledGrows(c, s.visits, v, s.log, 0, s.discarded);
    if s.connected {
      var l := s.links[|s.links| - 1];
      if l.acks != [] {
        SettledGrows(c, s.visits, v, s.log, s.discarded, s.discarded + l.acks[0]);
      }
      if l.job.Working? {
        SettledGrows(c, s.visits, v, s.log, s.discarded, s.discarded + l.job.accepted);
        if i == |s.links| - 1 && DealtWith(v.record, m.now, c.maxFuture, m.outcome) {
          assert v.record == s.log[v.at];
          SettledNow(c, s.visits, v, s.log);
        }
      }
    }
  }

  lemma SettledNow(c: Settings, visits: seq<Visit>, v: Visit, log: seq<AvlRecord>)
    requires v.at < |log| && v.record == log[v.at] && DealtWith(v.record, v.now, c.maxFuture, v.outcome)
    ensures Settled(c, visits + [v], log, v.at)
  {
    assert v in visits + [v];
  }

  /** What the device records later leaves earlier records, and packets cut from them, as they were. */
  lemma LogGrows(c: Settings, visits: seq<Visit>, log: seq<AvlRecord>, r: AvlRecord, from: nat, to: nat)
    requires AllSettled(c, visits, log, from, to) && to <= |log|
    ensures AllSettled(c, visits, log + [r], from, to)
  {
    hide DealtWith;
    forall i | from <= i < to
      ensures Settled(c, visits, log + [r], i)
    {
      assert Settled(c, visits, log, i);
    }
  }

  lemma CutStays(log: seq<AvlRecord>, r: AvlRecord, p: Packet)
    requires CutFrom(log, p)
    ensures CutFrom(log + [r], p)
  {
    assert (log + [r])[p.base..p.base + |p.records|] == log[p.base..p.base + |p.records|];
  }

  lemma ProduceKeepsSafe(c: Settings, s: State, r: AvlRecord)
    requires Safe(c, s)
    ensures Safe(c, Apply(c, s, Produce(r)))
  {
    hide AllSettled, CutFrom;
    LogGrows(c, s.visits, s.log, r, 0, s.discarded);
    if s.connected && s.links != [] {
      var l := s.links[|s.links| - 1];
      if l.inbox != [] {
        CutStays(s.log, r, l.inbox[0]);
      }
      if l.job.Working? {
        CutFits(s.log, l.job.packet);
        CutStays(s.log, r, l.job.packet);
        LogGrows(c, s.visits, s.log, r, s.discarded, s.discarded + l.job.accepted);
      }
      if l.acks != [] {
        LogGrows(c, s.visits, s.log, r, s.discarded, s.discarded + l.acks[0]);
      }
    }
  }

  lemma CutFits(log: seq<AvlRecord>, p: Packet)
    requires CutFrom(log, p)
    ensures p.base + |p.records| <= |log|
  {}

  lemma AcknowledgeKeepsSafe(c: Settings, s: State)
    requires Safe(c, s) && Enabled(s, Acknowledge)
    ensures Safe(c, Apply(c, s, Acknowledge))
  {
    hide Settled;
  }

  lemma ReplyKeepsSafe(c: Settings, s: State, i: nat)
    requires Safe(c, s) && Enabled(s, Reply(i))
    ensures Safe(c, Apply(c, s, Reply(i)))
  {
    hide AllSettled;
  }

  lemma StepKeepsSafe(c: Settings, s: State, a: Action)
    requires Safe(c, s) && Enabled(s, a)
    ensures Safe(c, Apply(c, s, a))
  {
    match a
    case Store(i, m) => StoreKeepsSafe(c, s, i, m);
    case Produce(r) => ProduceKeepsSafe(c, s, r);
    case Acknowledge => AcknowledgeKeepsSafe(c, s);
    case Reply(i) => ReplyKeepsSafe(c, s, i);
    case Connect => ConnectionKeepsSafe(c, s, a);
    case Disconnect => ConnectionKeepsSafe(c, s, a);
    case Send(count) => ConnectionKeepsSafe(c, s, a);
    case Lose(i) => CarryingKeepsSafe(c, s, a);
    case Begin(i) => CarryingKeepsSafe(c, s, a);
    case Abandon(i) => CarryingKeepsSafe(c, s, a);
  }

  /** The device's own steps on its connection. */
  lemma ConnectionKeepsSafe(c: Settings, s: State, a: Action)
    requires Safe(c, s) && Enabled(s, a)
    requires a.Connect? || a.Disconnect? || a.Send?
    ensures Safe(c, Apply(c, s, a))
  {
    hide AllSettled;
  }

  lemma NothingToSettle(c: Settings, s: State)
    ensures AllSettled(c, s.visits, s.log, s.discarded, s.discarded)
  {}

  /** The gateway's steps that neither judge a record nor answer. */
  lemma CarryingKeepsSafe(c: Settings, s: State, a: Action)
    requires Safe(c, s) && Enabled(s, a)
    requires a.Lose? || a.Begin? || a.Abandon?
    ensures Safe(c, Apply(c, s, a))
  {
    hide AllSettled, CutFrom;
    NothingToSettle(c, s);
  }

  lemma {:induction false} RunsAreSafe(c: Settings, t: Tables, actions: seq<Action>, states: seq<State>, k: nat)
    requires Run(c, t, actions, states) && k < |states|
    ensures Safe(c, states[k])
    decreases k
  {
    hide LinkSound, Apply, Enabled;
    if k > 0 {
      RunsAreSafe(c, t, actions, states, k - 1);
      StepKeepsSafe(c, states[k - 1], actions[k - 1]);
    }
  }

  /** What a device would do that resends without waiting for the answer under way. */
  function EagerSend(s: State, count: nat): State
    requires s.links != [] && s.discarded + count <= |s.log|
  {
    var i := |s.links| - 1;
    var packet := Packet(s.discarded, s.log[s.discarded..s.discarded + count]);
    s.(links := s.links[i := s.links[i].(inbox := s.links[i].inbox + [packet])])
  }

  /** One handler working through a one-record packet whose write succeeds. */
  function Serve(c: Settings, s: State, now: int): (s': State)
    requires |s.links| == 1 && s.links[0].job.Idle? && s.links[0].inbox != []
    requires |s.links[0].inbox[0].records| == 1
    ensures s'.log == s.log && s'.discarded == s.discarded && s'.connected == s.connected
    ensures s'.links == [Link(s.links[0].inbox[1..], Idle, s.links[0].acks + [1])]
    ensures s'.visits == s.visits + [Visit(s.links[0].inbox[0].base, s.links[0].inbox[0].records[0], now, Stored)]
  {
    StoredIsDealtWith(c, s.links[0].inbox[0].records[0], now);
    var s1 := Apply(c, s, Begin(0));
    var s2 := Apply(c, s1, Store(0, Moment(now, Stored)));
    Apply(c, s2, Reply(0))
  }

  /** The device of the following lemma, after both copies were sent. */
  function SentTwice(c: Settings, t: Tables, a: AvlRecord, b: AvlRecord): (s: State)
    ensures s == State([a, b], 0, true, [Link([Packet(0, [a]), Packet(0, [a])], Idle, [])], t, [])
  {
    var s0 := Apply(c, Apply(c, Apply(c, Start(t), Produce(a)), Produce(b)), Connect);
    assert s0.log == [a, b] && s0.log[0..0 + 1] == [a];
    var packet := Packet(0, [a]);
    var s1 := EagerSend(s0, 1);
    assert s0.links == [Link([], Idle, [])];
    assert s1.links[0].inbox == [packet];
    var s2 := EagerSend(s1, 1);
    assert s2.links[0].inbox == [packet, packet];
    s2
  }

  /**
   Waiting matters: if the device resends its first record while the answer to
   the first copy is still under way, the two answers make it discard a second
   record that no handler ever saw.
   */
  lemma EagerResendLosesRecord(c: Settings, t: Tables, a: AvlRecord, b: AvlRecord, now: int)
    ensures
      var answered := Serve(c, Serve(c, SentTwice(c, t, a, b), now), now);
      && Enabled(answered, Acknowledge)
      && var once := Apply(c, answered, Acknowledge);
      && Enabled(once, Acknowledge)
      && var twice := Apply(c, once, Acknowledge);
      && twice.discarded == 2 && twice.log == [a, b] && !Settled(c, twice.visits, twice.log, 1)
  {
    hide DealtWith, AfterRecord, Serve, SentTwice;
    var answered := Serve(c, Serve(c, SentTwice(c, t, a, b), now), now);
    assert answered.links[0].acks == [1, 1];
    var once := Apply(c, answered, Acknowledge);
    assert once.links[0].acks == [1];
    var twice := Apply(c, once, Acknowledge);
    assert forall v :: v in twice.visits ==> v.at == 0;
  }

  lemma StoredIsDealtWith(c: Settings, r: AvlRecord, now: int)
    ensures DealtWith(r, now, c.maxFuture, Stored)
  {}

  // ------------------------------------------------------------------
  // Exactly once
  // ------------------------------------------------------------------

  /** The writes a run made, in order. */
  function Writes(c: Settings, visits: seq<Visit>): seq<Attempt>
    decreases |visits|
  {
    if visits == [] then []
    else
      var v := visits[|visits| - 1];
      var before := Writes(c, visits[..|visits| - 1]);
      if Skippable(v.record, v.now, c.maxFuture) then before
      else before + [AttemptOf(c.device, v.record, v.outcome)]
  }

  lemma WritesStep(c: Settings, visits: seq<Visit>, v: Visit)
    ensures Writes(c, visits + [v])
         == Writes(c, visits) + if Skippable(v.record, v.now, c.maxFuture) then []
                                else [AttemptOf(c.device, v.record, v.outcome)]
  {
    hide Skippable, AttemptOf;
    assert (visits + [v])[..|visits + [v]| - 1] == visits;
    assert Writes(c, visits) + [] == Writes(c, visits);
  }

  lemma {:induction false} AttemptsAppend(t: Tables, idempotent: bool, attempts: seq<Attempt>, a: Attempt)
    ensures AfterAttempts(t, idempotent, attempts + [a])
         == AfterAttempt(AfterAttempts(t, idempotent, attempts), idempotent, a)
    decreases |attempts|
  {
    hide AfterAttempt;
    if attempts == [] {
      assert (attempts + [a])[1..] == [];
    } else {
      assert (attempts + [a])[1..] == attempts[1..] + [a];
      AttemptsAppend(AfterAttempt(t, idempotent, attempts[0]), idempotent, attempts[1..], a);
    }
  }

  /** The tables of a run are what its writes made of the tables it started from. */
  lemma {:induction false} TablesFollowWrites(
    c: Settings, t: Tables, actions: seq<Action>, states: seq<State>, k: nat)
    requires Run(c, t, actions, states) && k < |states|
    ensures states[k].tables == AfterAttempts(t, c.idempotent, Writes(c, states[k].visits))
    decreases k
  {
    hide Skippable, AttemptOf, AfterAttempt, Writes;
    if k == 0 {
      NoWrites(c);
    } else {
      TablesFollowWrites(c, t, actions, states, k - 1);
      var s, a := states[k - 1], actions[k - 1];
      assert Enabled(s, a) && states[k] == Apply(c, s, a);
      if a.Store? {
        var job := s.links[a.link].job;
        var at := job.accepted;
        var v := Visit(job.packet.base + at, job.packet.records[at], a.moment.now, a.moment.outcome);
        var write := AttemptOf(c.device, v.record, v.outcome);
        WritesStep(c, s.visits, v);
        assert Writes(c, s.visits) + [] == Writes(c, s.visits);
        AttemptsAppend(t, c.idempotent, Writes(c, s.visits), write);
      }
    }
  }

  lemma NoWrites(c: Settings)
    ensures Writes(c, []) == []
  {}

  /** For each write, the place in the log of the record it was for. */
  function Origins(c: Settings, visits: seq<Visit>): (places: seq<nat>)
    ensures |places| == |Writes(c, visits)|
    decreases |visits|
  {
    if visits == [] then []
    else
      var v := visits[|visits| - 1];
      var before := Origins(c, visits[..|visits| - 1]);
      if Skippable(v.record, v.now, c.maxFuture) then before else before + [v.at]
  }

  /** A visit that was not skipped made a write. */
  lemma {:induction false} VisitWrote(c: Settings, visits: seq<Visit>, v: Visit) returns (i: nat)
    requires v in visits && !Skippable(v.record, v.now, c.maxFuture)
    ensures i < |Writes(c, visits)| && Writes(c, visits)[i] == AttemptOf(c.device, v.record, v.outcome)
    ensures Origins(c, visits)[i] == v.at
    decreases |visits|
  {
    hide Skippable, AttemptOf;
    var front, last := visits[..|visits| - 1], visits[|visits| - 1];
    if last == v {
      i := |Writes(c, visits)| - 1;
    } else {
      assert v in front;
      i := VisitWrote(c, front, v);
    }
  }

  /** Some visit of the record at place `i` found a reason to skip it. */
  ghost predicate Skipped(c: Settings, s: State, i: nat)
    requires i < |s.log|
  {
    exists v :: v in s.visits && v.at == i && v.record == s.log[i] && SkipRules(s.log[i], v.now, c.maxFuture)
  }

  function RowOf(c: Settings, r: AvlRecord): HistoryRow {
    RowFor(c.device, FixOf(r))
  }

  /** Every discarded record was skipped on purpose or committed by a write of its own. */
  lemma DiscardedWereWritten(
    c: Settings, t: Tables, actions: seq<Action>, states: seq<State>, k: nat, i: nat) returns (w: nat)
    requires Run(c, t, actions, states) && k < |states| && i < states[k].discarded
    ensures i < |states[k].log|
    ensures !Skipped(c, states[k], i) ==>
      var writes := Writes(c, states[k].visits);
      && w < |writes| && writes[w].outcome.Committed() && writes[w].Row() == RowOf(c, states[k].log[i])
      && Origins(c, states[k].visits)[w] == i
  {
    hide Skippable, SkipRules, Apply, Enabled, LinkSound, FixOf, RowFor, Writes, Origins;
    var s := states[k];
    RunsAreSafe(c, t, actions, states, k);
    assert Settled(c, s.visits, s.log, i);
    var v :| v in s.visits && v.at == i && v.record == s.log[i] && DealtWith(s.log[i], v.now, c.maxFuture, v.outcome);
    w := 0;
    SkippableExactly(v.record, v.now, c.maxFuture);
    if !Skippable(v.record, v.now, c.maxFuture) {
      w := VisitWrote(c, s.visits, v);
    }
  }

  lemma KeyOfRecord(c: Settings, r: AvlRecord)
    ensures KeyOf(RowOf(c, r)) == Key(c.device, r.millis)
  {}

  /**
   Delivery. In every run, whatever packets are lost, connections dropped,
   handlers killed and writes failed, each record the device has discarded was
   skipped by a deliberate rule at some visit, or the history has a row for its
   event time; without the idempotent statement, its own row. The table never
   loses or changes a row, and with the idempotent statement it holds one row
   per event time.
   */
  lemma Delivered(c: Settings, t: Tables, actions: seq<Action>, states: seq<State>, k: nat)
    requires Run(c, t, actions, states) && k < |states|
    ensures var s := states[k];
      && s.discarded <= |s.log|
      && t.history <= s.tables.history
      && (c.idempotent && UniqueKeys(t.history) ==> UniqueKeys(s.tables.history))
      && forall i :: 0 <= i < s.discarded ==>
           || Skipped(c, s, i)
           || (HasKey(s.tables.history, Key(c.device, s.log[i].millis))
               && (!c.idempotent ==> HasOwnRow(s.tables.history, c.device, s.log[i])))
  {
    hide Skipped, HasKey, UniqueKeys, Apply, Enabled, LinkSound, Writes, RowFor, FixOf, AfterAttempts, HasOwnRow;
    var s := states[k];
    RunsAreSafe(c, t, actions, states, k);
    TablesFollowWrites(c, t, actions, states, k);
    var writes := Writes(c, s.visits);
    KeysOfAttempts(t, c.idempotent, writes);
    if c.idempotent && UniqueKeys(t.history) {
      KeysStayUnique(t, writes);
    }
    forall i | 0 <= i < s.discarded && !Skipped(c, s, i)
      ensures HasKey(s.tables.history, Key(c.device, s.log[i].millis))
      ensures !c.idempotent ==> HasOwnRow(s.tables.history, c.device, s.log[i])
    {
      var w := DiscardedWereWritten(c, t, actions, states, k, i);
      KeyOfRecord(c, s.log[i]);
      assert SomeCommitted(writes, Key(c.device, s.log[i].millis));
      RowsOfAttempts(t, c.idempotent, writes, RowOf(c, s.log[i]));
      OwnRowIs(s.tables.history, c.device, s.log[i]);
      if !c.idempotent {
        assert Adds(t.history, c.idempotent, writes, w);
      }
    }
  }

  /** A write for the record at place `i` of the log added its row at `place` of the history. */
  ghost predicate AddedAt(c: Settings, t: Tables, s: State, i: nat, place: nat)
    requires i < |s.log|
  {
    && |t.history| <= place < |s.tables.history| && s.tables.history[place] == RowOf(c, s.log[i])
    && exists w :: 0 <= w < |Writes(c, s.visits)| && Writes(c, s.visits)[w].outcome.Committed()
         && Origins(c, s.visits)[w] == i && place == |t.history| + |CommittedRows(Writes(c, s.visits)[..w])|
  }

  lemma RowAdded(c: Settings, t: Tables, actions: seq<Action>, states: seq<State>, k: nat, i: nat) returns (place: nat)
    requires Run(c, t, actions, states) && k < |states| && i < states[k].discarded <= |states[k].log|
    requires !c.idempotent && !Skipped(c, states[k], i)
    ensures AddedAt(c, t, states[k], i, place)
  {
    hide Skipped, Apply, Enabled, Writes, Origins, RowFor, FixOf, AfterAttempts;
    TablesFollowWrites(c, t, actions, states, k);
    var writes := Writes(c, states[k].visits);
    var w := DiscardedWereWritten(c, t, actions, states, k, i);
    CommittedInOrder(t, writes);
    PlacedRow(writes, w);
    place := |t.history| + |CommittedRows(writes[..w])|;
  }

  lemma PlacesApart(c: Settings, t: Tables, s: State, i: nat, j: nat, place: nat)
    requires i < |s.log| && j < |s.log| && AddedAt(c, t, s, i, place) && AddedAt(c, t, s, j, place)
    ensures i == j
  {
    hide Writes, Origins, CommittedRows;
    var writes := Writes(c, s.visits);
    var v :| 0 <= v < |writes| && writes[v].outcome.Committed()
          && Origins(c, s.visits)[v] == i && place == |t.history| + |CommittedRows(writes[..v])|;
    var w :| 0 <= w < |writes| && writes[w].outcome.Committed()
          && Origins(c, s.visits)[w] == j && place == |t.history| + |CommittedRows(writes[..w])|;
    if v < w {
      PlacesGrow(writes, v, w);
    } else if w < v {
      PlacesGrow(writes, w, v);
    }
  }

  /**
   Without the idempotent statement every discarded record that was never
   skipped has a new row of its own, which it shares with no other, even an
   equal one.
   */
  lemma RowsNotShared(
    c: Settings, t: Tables, actions: seq<Action>, states: seq<State>, k: nat) returns (place: map<nat, nat>)
    requires Run(c, t, actions, states) && k < |states| && !c.idempotent
    ensures states[k].discarded <= |states[k].log|
    ensures forall i :: 0 <= i < states[k].discarded && !Skipped(c, states[k], i) ==>
      && i in place && |t.history| <= place[i] < |states[k].tables.history|
      && RowHolds(states[k].tables.history[place[i]], c.device, states[k].log[i])
    ensures forall i, j :: i in place && j in place && i != j ==> place[i] != place[j]
  {
    var s := states[k];
    RunsAreSafe(c, t, actions, states, k);
    hide Skipped, Run, Writes, Origins, RowFor, FixOf, CommittedRows, Safe;
    forall i | 0 <= i < s.discarded && !Skipped(c, s, i)
      ensures exists p: nat :: AddedAt(c, t, s, i, p)
    {
      var p := RowAdded(c, t, actions, states, k, i);
    }
    place := map i: nat | i < s.discarded && !Skipped(c, s, i) :: var p: nat :| AddedAt(c, t, s, i, p); p;
    forall i | i in place
      ensures RowHolds(s.tables.history[place[i]], c.device, s.log[i])
    {
      RowHoldsExactly(c.device, s.log[i], s.tables.history[place[i]]);
    }
    forall i, j | i in place && j in place && place[i] == place[j]
      ensures i == j
    {
      PlacesApart(c, t, s, i, j, place[i]);
    }
  }

  /** Without it the history keeps one row per event time exactly in the runs whose commits repeat no key. */
  lemma UniqueUnlessResent(c: Settings, t: Tables, actions: seq<Action>, states: seq<State>, k: nat)
    requires Run(c, t, actions, states) && k < |states| && !c.idempotent
    ensures UniqueKeys(states[k].tables.history)
       <==> UniqueKeys(t.history) && NoRepeats(t.history, Writes(c, states[k].visits))
  {
    hide UniqueKeys, NoRepeats, Run, Writes, AfterAttempts;
    TablesFollowWrites(c, t, actions, states, k);
    UniqueUnlessRepeated(t, Writes(c, states[k].visits));
  }

  /**
   With the idempotent statement a discarded record has its own row if and only
   if no other row came first at its event time, whichever of its visits stored it.
   */
  lemma OwnRowDelivered(c: Settings, t: Tables, actions: seq<Action>, states: seq<State>, k: nat, i: nat)
    requires Run(c, t, actions, states) && k < |states| && i < states[k].discarded <= |states[k].log|
    requires c.idempotent && UniqueKeys(t.history) && !Skipped(c, states[k], i)
    ensures HasOwnRow(states[k].tables.history, c.device, states[k].log[i])
       <==> Unrivalled(t.history, Writes(c, states[k].visits), RowOf(c, states[k].log[i]))
  {
    hide Skipped, UniqueKeys, Apply, Enabled, Writes, RowFor, FixOf, AfterAttempts, Unrivalled, HasOwnRow;
    OwnRowIs(states[k].tables.history, c.device, states[k].log[i]);
    TablesFollowWrites(c, t, actions, states, k);
    var w := DiscardedWereWritten(c, t, actions, states, k, i);
    OwnRowThere(t, Writes(c, states[k].visits), w);
  }

  // ------------------------------------------------------------------
  // Nothing but what the device recorded
  // ------------------------------------------------------------------

  ghost predicate LinkFromLog(log: seq<AvlRecord>, l: Link) {
    && (forall p :: p in l.inbox ==> CutFrom(log, p))
    && (l.job.Working? ==> CutFrom(log, l.job.packet))
  }

  /** Whatever travels or was worked on stands in the device's log where it says, on old connections too. */
  ghost predicate FromLog(s: State) {
    && (forall v :: v in s.visits ==> v.at < |s.log| && v.record == s.log[v.at])
    && (forall l :: l in s.links ==> LinkFromLog(s.log, l))
  }

  /** The connection a step is about. */
  function LinkOf(s: State, a: Action): int {
    match a
    case Lose(i) => i
    case Begin(i) => i
    case Store(i, _) => i
    case Reply(i) => i
    case Abandon(i) => i
    case _ => |s.links| - 1
  }

  lemma LinksOfStep(c: Settings, s: State, a: Action)
    requires FromLog(s) && Enabled(s, a) && !a.Produce? && !a.Connect? && !a.Disconnect?
    ensures 0 <= LinkOf(s, a) < |s.links|
    ensures Apply(c, s, a).log == s.log
    ensures Apply(c, s, a).links == s.links[LinkOf(s, a) := Apply(c, s, a).links[LinkOf(s, a)]]
    ensures LinkFromLog(s.log, Apply(c, s, a).links[LinkOf(s, a)])
  {
    hide DealtWith, AfterRecord;
    var l := s.links[LinkOf(s, a)];
    assert LinkFromLog(s.log, l);
    if a.Begin? {
      assert l.inbox[0] in l.inbox;
    }
  }

  lemma StepKeepsFromLog(c: Settings, s: State, a: Action)
    requires FromLog(s) && Enabled(s, a)
    ensures FromLog(Apply(c, s, a))
  {
    hide DealtWith, AfterRecord;
    var s' := Apply(c, s, a);
    if !a.Produce? && !a.Connect? && !a.Disconnect? {
      LinksOfStep(c, s, a);
    }
    if a.Store? {
      assert LinkFromLog(s.log, s.links[a.link]);
    }
    forall l | l in s'.links
      ensures LinkFromLog(s'.log, l)
    {
      if l in s.links {
        assert LinkFromLog(s.log, l);
        if a.Produce? {
          LinkStaysFromLog(s.log, a.record, l);
        }
      }
    }
  }

  lemma LinkStaysFromLog(log: seq<AvlRecord>, r: AvlRecord, l: Link)
    requires LinkFromLog(log, l)
    ensures LinkFromLog(log + [r], l)
  {
    hide CutFrom;
    forall p | CutFrom(log, p)
      ensures CutFrom(log + [r], p)
    {
      CutStays(log, r, p);
    }
  }

  lemma {:induction false} RunsFromLog(c: Settings, t: Tables, actions: seq<Action>, states: seq<State>, k: nat)
    requires Run(c, t, actions, states) && k < |states|
    ensures FromLog(states[k])
    decreases k
  {
    hide Apply, Enabled, LinkFromLog;
    if k > 0 {
      RunsFromLog(c, t, actions, states, k - 1);
      StepKeepsFromLog(c, states[k - 1], actions[k - 1]);
    }
  }

  /** A row that was not there before is that of a record the device recorded and some visit committed. */
  lemma NothingInvented(c: Settings, t: Tables, actions: seq<Action>, states: seq<State>, k: nat, row: HistoryRow)
    requires Run(c, t, actions, states) && k < |states|
    requires row in states[k].tables.history && row !in t.history
    ensures exists v ::
      && v in states[k].visits && v.at < |states[k].log| && v.record == states[k].log[v.at]
      && RowHolds(row, c.device, v.record) && v.outcome.Committed()
  {
    hide Apply, Enabled, Skippable, Writes, RowFor, FixOf, AfterAttempts, LinkFromLog, RowHolds;
    var s := states[k];
    TablesFollowWrites(c, t, actions, states, k);
    RunsFromLog(c, t, actions, states, k);
    RowsOfAttempts(t, c.idempotent, Writes(c, s.visits), row);
    var i :| 0 <= i < |Writes(c, s.visits)|
          && Adds(t.history, c.idempotent, Writes(c, s.visits), i) && Writes(c, s.visits)[i].Row() == row;
    var v := WriteCameFromVisit(c, s.visits, i);
    RowHoldsExactly(c.device, v.record, row);
  }

  ghost predicate DistinctTimes(log: seq<AvlRecord>) {
    forall r, r' :: r in log && r' in log && r.millis == r'.millis ==> r == r'
  }

  /** A device that never records two positions at one time loses none, whatever the setting and the run. */
  lemma DistinctTimesKeepRows(c: Settings, t: Tables, actions: seq<Action>, states: seq<State>, k: nat, i: nat)
    requires Run(c, t, actions, states) && k < |states| && i < states[k].discarded <= |states[k].log|
    requires UniqueKeys(t.history) && DistinctTimes(states[k].log)
    requires forall r :: r in states[k].log ==> !HasKey(t.history, Key(c.device, r.millis))
    ensures Skipped(c, states[k], i) || HasOwnRow(states[k].tables.history, c.device, states[k].log[i])
  {
    hide Skipped, UniqueKeys, Apply, Enabled, Writes, RowFor, FixOf, LinkFromLog, HasKey, LinkSound, HasOwnRow;
    var s := states[k];
    var record, row := s.log[i], RowOf(c, s.log[i]);
    Delivered(c, t, actions, states, k);
    if c.idempotent && !Skipped(c, s, i) {
      OwnRowDelivered(c, t, actions, states, k, i);
      RunsFromLog(c, t, actions, states, k);
      KeyOfRecord(c, record);
      NoRowAt(t.history, KeyOf(row));
      var writes := Writes(c, s.visits);
      forall j | 0 <= j < |writes| && Adds(t.history, true, writes, j) && writes[j].Key() == KeyOf(row)
        ensures writes[j].Row() == row
      {
        var v := WriteCameFromVisit(c, s.visits, j);
        KeyOfRecord(c, v.record);
      }
    }
  }

  lemma NoRowAt(history: seq<HistoryRow>, key: Key)
    requires !HasKey(history, key)
    ensures forall r :: r in history ==> KeyOf(r) != key
  {}

  lemma {:induction false} WriteCameFromVisit(c: Settings, visits: seq<Visit>, i: nat) returns (v: Visit)
    requires i < |Writes(c, visits)|
    ensures v in visits && Writes(c, visits)[i] == AttemptOf(c.device, v.record, v.outcome)
    decreases |visits|
  {
    hide Skippable, AttemptOf;
    var front, last := visits[..|visits| - 1], visits[|visits| - 1];
    if i < |Writes(c, front)| {
      v := WriteCameFromVisit(c, front, i);
    } else {
      v := last;
    }
  }

  // ------------------------------------------------------------------
  // The protocol's jobs are the handler's loop
  // ------------------------------------------------------------------

  /** Consecutive Store steps of one handler, to the end of its job. */
  function Carried(c: Settings, s: State, i: nat, moments: seq<Moment>): State
    requires i < |s.links| && s.links[i].job.Working?
    requires s.links[i].job.accepted <= |s.links[i].job.packet.records| == |moments|
    decreases |moments| - s.links[i].job.accepted, !s.links[i].job.failed
  {
    var job := s.links[i].job;
    if job.Finished() then s else Carried(c, Apply(c, s, Store(i, moments[job.accepted])), i, moments)
  }

  /**
   Carried through by the protocol's steps, a job ends with the count and the
   tables that the handler's loop ends with, everything else untouched, and
   that count is what it then acknowledges.
   */
  lemma {:induction false} JobIsHandlerLoop(
    c: Settings, s: State, i: nat, t: Tables, packet: Packet, moments: seq<Moment>, done: nat, accepted: nat)
    requires i < |s.links| && s.links[i].job == Working(packet, done, false)
    requires |moments| == |packet.records| && done <= accepted <= |packet.records|
    requires s.tables == AfterRecords(t, c, packet.records, moments, done)
    requires forall j :: 0 <= j < accepted ==> DealtAt(c, packet.records, moments, j)
    requires accepted < |packet.records| ==> !DealtAt(c, packet.records, moments, accepted)
    ensures var s' := Carried(c, s, i, moments);
      && s'.tables == AfterRecords(t, c, packet.records, moments,
                                   if accepted < |packet.records| then accepted + 1 else accepted)
      && s'.links == s.links[i := s.links[i].(job := Working(packet, accepted, accepted < |packet.records|))]
      && s'.log == s.log && s'.discarded == s.discarded && s'.connected == s.connected
      && Enabled(s', Reply(i))
      && Apply(c, s', Reply(i)).links == s.links[i := s.links[i].(job := Idle, acks := s.links[i].acks + [accepted])]
    decreases accepted - done
  {
    hide AfterRecord, DealtWith;
    if done < |packet.records| {
      var next := Apply(c, s, Store(i, moments[done]));
      if done < accepted {
        assert DealtAt(c, packet.records, moments, done);
        assert next.links == s.links[i := s.links[i].(job := Working(packet, done + 1, false))];
        JobIsHandlerLoop(c, next, i, t, packet, moments, done + 1, accepted);
      } else {
        assert next.links == s.links[i := s.links[i].(job := Working(packet, accepted, true))];
        assert Carried(c, next, i, moments) == next;
      }
    }
  }

  // ------------------------------------------------------------------
  // What an exchange achieves
  // ------------------------------------------------------------------

  /** `accepted` records in a row are skipped or stored, and the next one, if any, is neither. */
  ghost predicate Accepts(c: Settings, records: seq<AvlRecord>, moments: seq<Moment>, accepted: nat) {
    && |moments| == |records| && accepted <= |records|
    && (forall j :: 0 <= j < accepted ==> DealtAt(c, records, moments, j))
    && (accepted < |records| ==> !DealtAt(c, records, moments, accepted))
  }

  function OldestPacket(s: State, count: nat): Packet
    requires s.discarded + count <= |s.log|
  {
    Packet(s.discarded, s.log[s.discarded..s.discarded + count])
  }

  /** The device's packet has reached the handler of its connection. */
  function Begun(c: Settings, s: State, count: nat): (s': State)
    requires Enabled(s, Send(count))
    ensures s' == s.(links := s.links[|s.links| - 1 := Link([], Working(OldestPacket(s, count), 0, false), [])])
  {
    var sent := Apply(c, s, Send(count));
    assert sent.links[|s.links| - 1] == Link([OldestPacket(s, count)], Idle, []);
    var begun := Apply(c, sent, Begin(|s.links| - 1));
    assert begun.links[|s.links| - 1] == Link([], Working(OldestPacket(s, count), 0, false), []);
    assert begun.links == s.links[|s.links| - 1 := begun.links[|s.links| - 1]];
    begun
  }

  /** The device sends its oldest `count` records, the gateway works through them and answers, the device reads it. */
  function Exchange(c: Settings, s: State, count: nat, moments: seq<Moment>, accepted: nat): State
    requires Enabled(s, Send(count)) && Accepts(c, OldestPacket(s, count).records, moments, accepted)
  {
    var i, begun := |s.links| - 1, Begun(c, s, count);
    JobIsHandlerLoop(c, begun, i, s.tables, OldestPacket(s, count), moments, 0, accepted);
    Apply(c, Apply(c, Carried(c, begun, i, moments), Reply(i)), Acknowledge)
  }

  /** It takes exactly the records dealt with off the device's queue, and the connection is quiet again. */
  lemma ExchangeAdvances(c: Settings, s: State, count: nat, moments: seq<Moment>, accepted: nat)
    requires Enabled(s, Send(count)) && Accepts(c, s.log[s.discarded..s.discarded + count], moments, accepted)
    ensures var s' := Exchange(c, s, count, moments, accepted);
      && s'.discarded == s.discarded + accepted
      && s'.log == s.log && s'.connected && s'.links == s.links
      && s'.tables == AfterRecords(s.tables, c, s.log[s.discarded..s.discarded + count], moments,
                                   if accepted < count then accepted + 1 else accepted)
  {
    hide AfterRecord, DealtWith, Carried, Begun, AfterRecords;
    var i, begun := |s.links| - 1, Begun(c, s, count);
    NoneYet(s.tables, c, OldestPacket(s, count).records, moments);
    JobIsHandlerLoop(c, begun, i, s.tables, OldestPacket(s, count), moments, 0, accepted);
    var answered := Apply(c, Carried(c, begun, i, moments), Reply(i));
    assert answered.links[i] == Link([], Idle, [accepted]);
    assert Apply(c, answered, Acknowledge).links[i] == s.links[i];
  }

  lemma NoneYet(t: Tables, c: Settings, records: seq<AvlRecord>, moments: seq<Moment>)
    requires |records| == |moments|
    ensures AfterRecords(t, c, records, moments, 0) == t
  {}

  /** Exchanges of at most 255 records, one after another, until the queue is empty. */
  function Drained(c: Settings, s: State, moments: seq<Moment>): State
    requires Ready(s) && |moments| == |s.log| - s.discarded && forall m :: m in moments ==> m.outcome.Stored?
    decreases |moments|
  {
    if moments == [] then s
    else
      var count := if |moments| < 255 then |moments| else 255;
      assert forall j :: 0 <= j < count ==> moments[..count][j] in moments;
      ExchangeAdvances(c, s, count, moments[..count], count);
      Drained(c, Exchange(c, s, count, moments[..count], count), moments[count..])
  }

  /** The device is connected, and nothing it sent is unanswered. */
  predicate Ready(s: State) {
    s.connected && s.links != [] && s.links[|s.links| - 1].Quiet() && s.discarded <= |s.log|
  }

  /** While every write works, a device that waits for its answers gets rid of everything it has recorded. */
  lemma {:induction false} QueueDrains(c: Settings, s: State, moments: seq<Moment>)
    requires Ready(s) && |moments| == |s.log| - s.discarded && forall m :: m in moments ==> m.outcome.Stored?
    ensures var s' := Drained(c, s, moments);
      && s'.discarded == |s.log| && s'.log == s.log && Ready(s')
      && s'.tables == AfterRecords(s.tables, c, s.log[s.discarded..], moments, |moments|)
    decreases |moments|
  {
    hide Exchange, AfterRecords;
    NoneYet(s.tables, c, s.log[s.discarded..], moments);
    if moments != [] {
      var count := if |moments| < 255 then |moments| else 255;
      var rest := s.log[s.discarded..];
      assert forall j :: 0 <= j < count ==> moments[..count][j] in moments;
      ExchangeAdvances(c, s, count, moments[..count], count);
      var s1 := Exchange(c, s, count, moments[..count], count);
      QueueDrains(c, s1, moments[count..]);
      assert s.log[s.discarded..s.discarded + count] == rest[..count] && s1.log[s1.discarded..] == rest[count..];
      AfterRecordsSplit(s.tables, c, rest, moments, count, |moments|);
    }
  }

  /** Working through a packet in two parts. */
  lemma {:induction false} AfterRecordsSplit(
    t: Tables, c: Settings, records: seq<AvlRecord>, moments: seq<Moment>, k: nat, n: nat)
    requires k <= n <= |records| == |moments|
    ensures AfterRecords(t, c, records, moments, n)
         == AfterRecords(AfterRecords(t, c, records[..k], moments[..k], k), c, records[k..], moments[k..], n - k)
    decreases n
  {
    hide AfterRecord;
    if n > k {
      AfterRecordsSplit(t, c, records, moments, k, n - 1);
    } else {
      AfterRecordsFront(t, c, records, moments, k, k);
    }
  }

  lemma {:induction false} AfterRecordsFront(
    t: Tables, c: Settings, records: seq<AvlRecord>, moments: seq<Moment>, k: nat, n: nat)
    requires n <= k <= |records| == |moments|
    ensures AfterRecords(t, c, records, moments, n) == AfterRecords(t, c, records[..k], moments[..k], n)
    decreases n
  {
    hide AfterRecord;
    if n > 0 {
      AfterRecordsFront(t, c, records, moments, k, n - 1);
    }
  }
}
