/**
 The allowlist check and auto-registration behind every login: two reads, an
 insert that yields to an existing row, and a second read. Each statement is
 atomic; between them any other lookup, and the admin portal, may run.
 */
module DeviceLookup {
  import opened Common

  const ACTIVATED := "Activated"

  datatype Row = Row(imei: Imei, device: DeviceId)

  /** GpsDevices in insertion order, and SetupShalotrackDevices with its nullable status. */
  datatype Tables = Tables(devices: seq<Row>, setup: map<Imei, Option<string>>)

  function DeviceOf(rows: seq<Row>, imei: Imei): Option<DeviceId> {
    if rows == [] then None
    else if rows[0].imei == imei then Some(rows[0].device)
    else DeviceOf(rows[1..], imei)
  }

  /** The joined status: NULL both for a missing setup row and for an empty status. */
  function JoinedStatus(t: Tables, imei: Imei): Option<string> {
    if imei in t.setup then t.setup[imei] else None
  }

  /** INSERT ... ON CONFLICT (ImeiNumber) DO NOTHING. */
  function Insert(rows: seq<Row>, imei: Imei, device: DeviceId): seq<Row> {
    if DeviceOf(rows, imei).Some? then rows else rows + [Row(imei, device)]
  }

  ghost predicate OneRowEach(rows: seq<Row>) {
    forall i, j :: 0 <= i < j < |rows| ==> rows[i].imei != rows[j].imei
  }

  lemma {:induction false} DeviceOfAppend(rows: seq<Row>, row: Row, imei: Imei)
    ensures DeviceOf(rows + [row], imei)
         == if DeviceOf(rows, imei).Some? then DeviceOf(rows, imei)
            else if row.imei == imei then Some(row.device) else None
  {
    if rows == [] {
      assert (rows + [row])[1..] == [];
    } else {
      assert (rows + [row])[1..] == rows[1..] + [row];
      DeviceOfAppend(rows[1..], row, imei);
    }
  }

  lemma {:induction false} DeviceOfFinds(rows: seq<Row>, imei: Imei)
    ensures DeviceOf(rows, imei).None? <==> forall i :: 0 <= i < |rows| ==> rows[i].imei != imei
    ensures DeviceOf(rows, imei).Some? ==> Row(imei, DeviceOf(rows, imei).value) in rows
  {
    if rows != [] {
      DeviceOfFinds(rows[1..], imei);
      if rows[0].imei != imei && DeviceOf(rows, imei).None? {
        forall i | 0 <= i < |rows|
          ensures rows[i].imei != imei
        {
          assert i > 0 ==> rows[i] == rows[1..][i - 1];
        }
      }
      if forall i :: 0 <= i < |rows| ==> rows[i].imei != imei {
        forall i | 0 <= i < |rows[1..]|
          ensures rows[1..][i].imei != imei
        {
          assert rows[1..][i] == rows[i + 1];
        }
      }
    }
  }

  lemma InsertKeeps(rows: seq<Row>, imei: Imei, device: DeviceId, other: Imei)
    ensures OneRowEach(rows) ==> OneRowEach(Insert(rows, imei, device))
    ensures rows <= Insert(rows, imei, device)
    ensures DeviceOf(rows, other).Some? ==> DeviceOf(Insert(rows, imei, device), other) == DeviceOf(rows, other)
    ensures DeviceOf(Insert(rows, imei, device), imei).Some?
  {
    DeviceOfAppend(rows, Row(imei, device), other);
    DeviceOfAppend(rows, Row(imei, device), imei);
    DeviceOfFinds(rows, imei);
  }

  // ------------------------------------------------------------------
  // One lookup, statement by statement
  // ------------------------------------------------------------------

  datatype Phase =
    | Checking                              // about to read GpsDevices joined with its setup row
    | CheckingSetup                         // no device row: about to read the setup row
    | Inserting                             // activated: about to insert
    | Refetching                            // about to read the row that won
    | Done(result: Option<DeviceId>)

  function AfterCheck(t: Tables, imei: Imei): Phase {
    match DeviceOf(t.devices, imei)
    case None => CheckingSetup
    case Some(device) =>
      if JoinedStatus(t, imei).Some? && JoinedStatus(t, imei).value != ACTIVATED then Done(None)
      else Done(Some(device))
  }

  function AfterSetupCheck(t: Tables, imei: Imei): Phase {
    if imei in t.setup && t.setup[imei] == Some(ACTIVATED) then Inserting else Done(None)
  }

  /** The tables as one service sees them; `fails` says which statements raise. */
  class DeviceRepository {
    var devices: seq<Row>
    var setup: map<Imei, Option<string>>

    ghost function Contents(): Tables
      reads this
    {
      Tables(devices, setup)
    }

    /**
     With nobody else at the tables: an existing row is returned unless its
     setup row says otherwise, an activated device is registered once, anything
     else is refused, and a failing statement refuses too.
     */
    method GetDeviceByImei(imei: Imei, newId: DeviceId, fails: set<Phase>) returns (result: Option<DeviceId>)
      modifies this
      ensures setup == old(setup)
      ensures Allowed(old(Contents()), imei) && fails == {} ==>
        result == Some(if DeviceOf(old(devices), imei).Some? then DeviceOf(old(devices), imei).value else newId)
      ensures !Allowed(old(Contents()), imei) ==> result == None && devices == old(devices)
      ensures devices == old(devices) || devices == Insert(old(devices), imei, newId)
      ensures result.Some? ==> DeviceOf(devices, imei) == result
    {
      DeviceOfAppend(devices, Row(imei, newId), imei);
      if Checking in fails {
        return None;
      }
      var found := DeviceOf(devices, imei);
      var status := if imei in setup then setup[imei] else None;
      if found.Some? {
        if status.Some? && status.value != ACTIVATED {
          return None;
        }
        return found;
      }
      if CheckingSetup in fails {
        return None;
      }
      if imei !in setup {
        return None;
      }
      if setup[imei] != Some(ACTIVATED) {
        return None;
      }
      if Inserting in fails {
        return None;
      }
      devices := Insert(devices, imei, newId);
      if Refetching in fails {
        return None;
      }
      result := DeviceOf(devices, imei);
    }
  }

  /** The allowlist: a row whose status does not forbid it, or an activated setup row. */
  predicate Allowed(t: Tables, imei: Imei) {
    if DeviceOf(t.devices, imei).Some?
    then JoinedStatus(t, imei).None? || JoinedStatus(t, imei).value == ACTIVATED
    else imei in t.setup && t.setup[imei] == Some(ACTIVATED)
  }

  // ------------------------------------------------------------------
  // Any number of lookups, interleaved
  // ------------------------------------------------------------------

  datatype Lookup = Lookup(imei: Imei, phase: Phase)

  datatype State = State(tables: Tables, lookups: seq<Lookup>)

  datatype Action =
    | Begin(imei: Imei)
    | Advance(l: nat, newId: DeviceId)      // the lookup's next statement, with the id it would insert
    | Fail(l: nat)                          // that statement raises before taking effect
    | FailAfterInsert(l: nat, newId: DeviceId)   // the insert commits but the caller sees an error
    | SetStatus(imei: Imei, status: Option<string>)
    | DropSetup(imei: Imei)

  predicate Enabled(s: State, a: Action) {
    match a
    case Begin(_) => true
    case Advance(l, _) => l < |s.lookups| && !s.lookups[l].phase.Done?
    case Fail(l) => l < |s.lookups| && !s.lookups[l].phase.Done?
    case FailAfterInsert(l, _) => l < |s.lookups| && s.lookups[l].phase.Inserting?
    case SetStatus(_, _) => true
    case DropSetup(_) => true
  }

  function Apply(s: State, a: Action): State
    requires Enabled(s, a)
  {
    match a
    case Begin(imei) => s.(lookups := s.lookups + [Lookup(imei, Checking)])
    case Advance(l, newId) =>
      var k := s.lookups[l];
      (match k.phase
       case Checking => s.(lookups := s.lookups[l := k.(phase := AfterCheck(s.tables, k.imei))])
       case CheckingSetup => s.(lookups := s.lookups[l := k.(phase := AfterSetupCheck(s.tables, k.imei))])
       case Inserting =>
         s.(tables := s.tables.(devices := Insert(s.tables.devices, k.imei, newId)),
            lookups := s.lookups[l := k.(phase := Refetching)])
       case Refetching =>
         s.(lookups := s.lookups[l := k.(phase := Done(DeviceOf(s.tables.devices, k.imei)))])
       case Done(_) => s)
    case Fail(l) => s.(lookups := s.lookups[l := s.lookups[l].(phase := Done(None))])
    case FailAfterInsert(l, newId) =>
      s.(tables := s.tables.(devices := Insert(s.tables.devices, s.lookups[l].imei, newId)),
         lookups := s.lookups[l := s.lookups[l].(phase := Done(None))])
    case SetStatus(imei, status) => s.(tables := s.tables.(setup := s.tables.setup[imei := status]))
    case DropSetup(imei) => s.(tables := s.tables.(setup := s.tables.setup - {imei}))
  }

  ghost predicate Run(actions: seq<Action>, states: seq<State>) {
    && |states| == |actions| + 1
    && states[0].lookups == []
    && OneRowEach(states[0].tables.devices)
    && forall i :: 0 <= i < |actions| ==>
         Enabled(states[i], actions[i]) && states[i + 1] == Apply(states[i], actions[i])
  }

  /** Device rows are never duplicated, changed or removed, and every answer given is in the table. */
  ghost predicate Sound(s: State) {
    && OneRowEach(s.tables.devices)
    && forall l :: 0 <= l < |s.lookups| && s.lookups[l].phase.Done? && s.lookups[l].phase.result.Some? ==>
         DeviceOf(s.tables.devices, s.lookups[l].imei) == s.lookups[l].phase.result
  }

  lemma StepKeepsSound(s: State, a: Action)
    requires Sound(s) && Enabled(s, a)
    ensures Sound(Apply(s, a))
    ensures s.tables.devices <= Apply(s, a).tables.devices
  {
    hide DeviceOf, OneRowEach, JoinedStatus;
    if (a.Advance? && s.lookups[a.l].phase.Inserting?) || a.FailAfterInsert? {
      var imei := s.lookups[a.l].imei;
      forall other
        ensures OneRowEach(Insert(s.tables.devices, imei, a.newId))
        ensures s.tables.devices <= Insert(s.tables.devices, imei, a.newId)
        ensures DeviceOf(s.tables.devices, other).Some? ==>
          DeviceOf(Insert(s.tables.devices, imei, a.newId), other) == DeviceOf(s.tables.devices, other)
      {
        InsertKeeps(s.tables.devices, imei, a.newId, other);
      }
    }
  }

  lemma {:induction false} RunIsSound(actions: seq<Action>, states: seq<State>, k: nat)
    requires Run(actions, states) && k < |states|
    ensures Sound(states[k])
    decreases k
  {
    hide Apply, Enabled, Sound, OneRowEach;
    if k == 0 {
      NoAnswersYet(states[0]);
    } else {
      RunIsSound(actions, states, k - 1);
      StepKeepsSound(states[k - 1], actions[k - 1]);
    }
  }

  lemma NoAnswersYet(s: State)
    requires s.lookups == [] && OneRowEach(s.tables.devices)
    ensures Sound(s)
  {}

  /** At most one row per IMEI, and every lookup of one IMEI that gets an answer gets the same one. */
  lemma RacingLookupsAgree(actions: seq<Action>, states: seq<State>, k: nat, l: nat, m: nat)
    requires Run(actions, states) && k < |states|
    ensures OneRowEach(states[k].tables.devices)
    ensures l < |states[k].lookups| && m < |states[k].lookups| ==>
      var a, b := states[k].lookups[l], states[k].lookups[m];
      a.imei == b.imei && a.phase.Done? && b.phase.Done? && a.phase.result.Some? && b.phase.result.Some? ==>
        a.phase.result == b.phase.result
  {
    hide Apply, Enabled, OneRowEach;
    RunIsSound(actions, states, k);
  }

  function Left(p: Phase): nat {
    match p
    case Checking => 4
    case CheckingSetup => 3
    case Inserting => 2
    case Refetching => 1
    case Done(_) => 0
  }

  lemma StatementsEnd(s: State, l: nat, newId: DeviceId)
    requires Enabled(s, Advance(l, newId))
    ensures l < |Apply(s, Advance(l, newId)).lookups|
    ensures Left(Apply(s, Advance(l, newId)).lookups[l].phase) < Left(s.lookups[l].phase)
  {
    hide DeviceOf, Insert, JoinedStatus;
  }

  /** A lookup's statements one after the other, with nothing in between. */
  function Undisturbed(s: State, l: nat, newId: DeviceId): State
    requires l < |s.lookups|
    decreases Left(s.lookups[l].phase)
  {
    if s.lookups[l].phase.Done? then s
    else
      StatementsEnd(s, l, newId);
      Undisturbed(Apply(s, Advance(l, newId)), l, newId)
  }

  /**
   Undisturbed, a lookup ends as GetDeviceByImei does: an allowed IMEI gets its
   device, or a new one with the row to go with it, and no other IMEI gets any.
   */
  lemma UndisturbedAnswers(s: State, l: nat, newId: DeviceId)
    requires l < |s.lookups| && s.lookups[l].phase.Checking?
    ensures var t, imei := s.tables, s.lookups[l].imei;
      var known := DeviceOf(t.devices, imei);
      var answer := if !Allowed(t, imei) then None else if known.Some? then known else Some(newId);
      Undisturbed(s, l, newId)
      == State(t.(devices := if Allowed(t, imei) && known.None? then t.devices + [Row(imei, newId)] else t.devices),
               s.lookups[l := Lookup(imei, Done(answer))])
  {
    hide DeviceOf, JoinedStatus;
    DeviceOfAppend(s.tables.devices, Row(s.lookups[l].imei, newId), s.lookups[l].imei);
    var s1 := Apply(s, Advance(l, newId));
    if !s1.lookups[l].phase.Done? {
      var s2 := Apply(s1, Advance(l, newId));
      if !s2.lookups[l].phase.Done? {
        var s3 := Apply(s2, Advance(l, newId));
        var s4 := Apply(s3, Advance(l, newId));
        assert Undisturbed(s4, l, newId) == s4;
        assert Undisturbed(s3, l, newId) == s4;
      }
      assert Undisturbed(s1, l, newId) == Undisturbed(s2, l, newId);
    }
  }

  /** The check that let lookup `l` of `imei` through: an unforbidden row, or an activated setup row. */
  predicate PassesAt(s: State, a: Action, l: nat, imei: Imei) {
    && a.Advance? && a.l == l && l < |s.lookups| && s.lookups[l].imei == imei
    && ((s.lookups[l].phase.Checking? && DeviceOf(s.tables.devices, imei).Some?
           && (JoinedStatus(s.tables, imei).None? || JoinedStatus(s.tables, imei).value == ACTIVATED))
        || (s.lookups[l].phase.CheckingSetup? && imei in s.tables.setup && s.tables.setup[imei] == Some(ACTIVATED)))
  }

  predicate PastCheck(p: Phase) {
    p.Inserting? || p.Refetching? || (p.Done? && p.result.Some?)
  }

  /** Every answer is justified by what some earlier check of that very lookup saw. */
  lemma {:induction false} AnswersJustified(actions: seq<Action>, states: seq<State>, k: nat, l: nat)
    requires Run(actions, states) && k < |states|
    requires l < |states[k].lookups| && PastCheck(states[k].lookups[l].phase)
    ensures exists j :: 0 <= j < k && PassesAt(states[j], actions[j], l, states[k].lookups[l].imei)
    decreases k
  {
    hide DeviceOf, Insert, OneRowEach, JoinedStatus;
    assert k > 0;
    var s, a := states[k - 1], actions[k - 1];
    assert Enabled(s, a) && states[k] == Apply(s, a);
    assert l < |s.lookups| && s.lookups[l].imei == states[k].lookups[l].imei;
    if PastCheck(s.lookups[l].phase) {
      AnswersJustified(actions, states, k - 1, l);
      var j :| 0 <= j < k - 1 && PassesAt(states[j], actions[j], l, states[k - 1].lookups[l].imei);
    } else {
      assert PassesAt(states[k - 1], actions[k - 1], l, states[k].lookups[l].imei);
    }
  }
}
