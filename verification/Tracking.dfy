/**
 The position tables and the statements that write them: the single statement
 used now, and the separate steps it replaced. Every statement is atomic.
 */
module Tracking {
  import opened Common

  type VehicleId = nat

  // ------------------------------------------------------------------
  // Numbers bound to numeric columns
  // ------------------------------------------------------------------

  /** Nearest integer, ties to even, as Python's round(). */
  function RoundHalfEven(x: real): int {
    var low := x.Floor;
    var part := x - low as real;
    if part < 0.5 || (part == 0.5 && low % 2 == 0) then low else low + 1
  }

  /** clean_decimal: the value in units of the last kept decimal place. */
  function Clean(x: real, scale: int): int {
    RoundHalfEven(x * scale as real)
  }

  const MICRO := 1_000_000
  const CENTI := 100

  /** A value already on the grid is kept. */
  lemma CleanOnGrid(k: int, scale: int)
    requires scale > 0
    ensures Clean(k as real / scale as real, scale) == k
  {
    assert k as real / scale as real * scale as real == k as real;
    assert (k as real).Floor == k;
  }

  /** A speed counts as movement after cleaning exactly when it exceeds half a unit. */
  lemma CleanedMovement(speed: real)
    ensures Clean(speed, CENTI) > 0 <==> speed > 0.005
  {
    var x := speed * 100.0;
    if x > 0.5 {
      assert x.Floor >= 0;
      assert x.Floor == 0 ==> x - x.Floor as real > 0.5;
    } else {
      assert x.Floor <= 0;
    }
  }

  // ------------------------------------------------------------------
  // Tables
  // ------------------------------------------------------------------

  /** A position as the protocol handlers report it. */
  datatype Fix = Fix(latitude: real, longitude: real, speed: real, heading: real, satellites: int, eventTime: int)

  datatype HistoryRow = HistoryRow(
    device: DeviceId, latitude: int, longitude: int, speed: int, heading: int, satellites: int, eventTime: int)

  datatype LiveRow = LiveRow(
    vehicle: VehicleId, latitude: int, longitude: int, speed: int, heading: int,
    ignition: bool, moving: bool, lastUpdate: int)

  datatype Assignment = Assignment(device: DeviceId, vehicle: VehicleId, status: int)

  datatype Tables = Tables(
    history: seq<HistoryRow>,
    live: map<DeviceId, LiveRow>,
    assignments: seq<Assignment>,
    ignition: map<DeviceId, bool>)

  /** The active assignment, the first when there are several. */
  function ActiveVehicle(rows: seq<Assignment>, device: DeviceId): Option<VehicleId> {
    if rows == [] then None
    else if rows[0].device == device && rows[0].status == 1 then Some(rows[0].vehicle)
    else ActiveVehicle(rows[1..], device)
  }

  predicate Assigned(t: Tables, device: DeviceId) {
    ActiveVehicle(t.assignments, device).Some?
  }

  lemma {:induction false} AssignedMeansActiveRow(rows: seq<Assignment>, device: DeviceId)
    ensures ActiveVehicle(rows, device).Some? <==>
      exists i :: 0 <= i < |rows| && rows[i].device == device && rows[i].status == 1
  {
    if rows != [] {
      AssignedMeansActiveRow(rows[1..], device);
      if i :| 0 <= i < |rows| && rows[i].device == device && rows[i].status == 1 {
        assert i > 0 ==> rows[1..][i - 1] == rows[i];
      }
      if j :| 0 <= j < |rows[1..]| && rows[1..][j].device == device && rows[1..][j].status == 1 {
        assert rows[j + 1] == rows[1..][j];
      }
    }
  }

  predicate IsActive(row: Assignment, device: DeviceId) {
    row.device == device && row.status == 1
  }

  /** The vehicle found is that of the first active row of the device. */
  lemma {:induction false} VehicleOfFirstActiveRow(rows: seq<Assignment>, device: DeviceId, vehicle: VehicleId)
    ensures ActiveVehicle(rows, device) == Some(vehicle) <==>
      exists i :: 0 <= i < |rows| && IsActive(rows[i], device) && rows[i].vehicle == vehicle
        && forall j :: 0 <= j < i ==> !IsActive(rows[j], device)
  {
    if rows != [] {
      VehicleOfFirstActiveRow(rows[1..], device, vehicle);
      if i :| 0 <= i < |rows| && IsActive(rows[i], device) && rows[i].vehicle == vehicle
              && forall j :: 0 <= j < i ==> !IsActive(rows[j], device) {
        if i > 0 {
          assert !IsActive(rows[0], device) && rows[1..][i - 1] == rows[i];
          assert forall j :: 0 <= j < i - 1 ==> !IsActive(rows[1..][j], device);
        }
      }
      if k :| 0 <= k < |rows[1..]| && IsActive(rows[1..][k], device) && rows[1..][k].vehicle == vehicle
              && forall j :: 0 <= j < k ==> !IsActive(rows[1..][j], device) {
        assert rows[k + 1] == rows[1..][k];
        if !IsActive(rows[0], device) {
          forall j | 0 <= j < k + 1
            ensures !IsActive(rows[j], device)
          {
            assert j > 0 ==> rows[j] == rows[1..][j - 1];
          }
        }
      }
    }
  }

  function IgnitionOf(t: Tables, device: DeviceId): bool {
    device in t.ignition && t.ignition[device]
  }

  function RowFor(device: DeviceId, fix: Fix): HistoryRow {
    HistoryRow(device, Clean(fix.latitude, MICRO), Clean(fix.longitude, MICRO),
               Clean(fix.speed, CENTI), Clean(fix.heading, CENTI), fix.satellites, fix.eventTime)
  }

  function LiveFor(vehicle: VehicleId, fix: Fix, ignition: bool, moving: bool): LiveRow {
    LiveRow(vehicle, Clean(fix.latitude, MICRO), Clean(fix.longitude, MICRO),
            Clean(fix.speed, CENTI), Clean(fix.heading, CENTI), ignition, moving, fix.eventTime)
  }

  datatype Key = Key(device: DeviceId, eventTime: int)

  function KeyOf(row: HistoryRow): Key {
    Key(row.device, row.eventTime)
  }

  predicate HasKey(history: seq<HistoryRow>, key: Key) {
    exists i :: 0 <= i < |history| && KeyOf(history[i]) == key
  }

  // ------------------------------------------------------------------
  // The statements
  // ------------------------------------------------------------------

  /** The history insert, with or without ON CONFLICT DO NOTHING. */
  function Insert(history: seq<HistoryRow>, row: HistoryRow, idempotent: bool): seq<HistoryRow> {
    if idempotent && HasKey(history, KeyOf(row)) then history else history + [row]
  }

  /** The single statement: history and live position at once. */
  function Saved(t: Tables, idempotent: bool, device: DeviceId, fix: Fix): Tables {
    var row := RowFor(device, fix);
    var t1 := t.(history := Insert(t.history, row, idempotent));
    match ActiveVehicle(t.assignments, device)
    case None => t1
    case Some(v) => t1.(live := t.live[device := LiveFor(v, fix, IgnitionOf(t, device), row.speed > 0)])
  }

  /** save_tracking: the history insert alone. */
  function Tracked(t: Tables, device: DeviceId, fix: Fix): Tables {
    t.(history := t.history + [RowFor(device, fix)])
  }

  /** update_current_location: the live upsert alone, which judges movement on the raw speed. */
  function Located(t: Tables, device: DeviceId, vehicle: VehicleId, fix: Fix): Tables {
    t.(live := t.live[device := LiveFor(vehicle, fix, IgnitionOf(t, device), fix.speed > 0.0)])
  }

  class TrackingService {
    var history: seq<HistoryRow>
    var live: map<DeviceId, LiveRow>
    var assignments: seq<Assignment>
    var ignition: map<DeviceId, bool>

    ghost function Contents(): Tables
      reads this
    {
      Tables(history, live, assignments, ignition)
    }

    method SaveTracking(device: DeviceId, fix: Fix)
      modifies this
      ensures Contents() == Tracked(old(Contents()), device, fix)
    {
      history := history + [RowFor(device, fix)];
    }

    method GetVehicleByDevice(device: DeviceId) returns (vehicle: Option<VehicleId>)
      ensures vehicle == ActiveVehicle(assignments, device)
    {
      var i := 0;
      assert assignments[0..] == assignments;
      while i < |assignments|
        invariant 0 <= i <= |assignments|
        invariant ActiveVehicle(assignments, device) == ActiveVehicle(assignments[i..], device)
      {
        if assignments[i].device == device && assignments[i].status == 1 {
          return Some(assignments[i].vehicle);
        }
        assert assignments[i..][1..] == assignments[i + 1..];
        i := i + 1;
      }
      vehicle := None;
    }

    method UpdateCurrentLocation(device: DeviceId, vehicle: VehicleId, fix: Fix)
      modifies this
      ensures Contents() == Located(old(Contents()), device, vehicle, fix)
    {
      var ignitionStatus := if device in ignition then ignition[device] else false;
      live := live[device := LiveFor(vehicle, fix, ignitionStatus, fix.speed > 0.0)];
    }

    /** The steps the single statement replaced, in their order. */
    method SaveInSteps(device: DeviceId, fix: Fix) returns (updated: bool)
      modifies this
      ensures Contents() == InSteps(old(Contents()), device, fix)
      ensures updated == Assigned(old(Contents()), device)
    {
      SaveTracking(device, fix);
      var vehicle := GetVehicleByDevice(device);
      if vehicle.Some? {
        UpdateCurrentLocation(device, vehicle.value, fix);
      }
      updated := vehicle.Some?;
    }

    /** The unique index on device and event time. */
    method IsKnown(key: Key) returns (known: bool)
      ensures known <==> HasKey(history, key)
    {
      known := false;
      for i := 0 to |history|
        invariant known <==> HasKey(history[..i], key)
      {
        HasKeyPush(history[..i], history[i], key);
        assert history[..i] + [history[i]] == history[..i + 1];
        known := known || KeyOf(history[i]) == key;
      }
      assert history[..|history|] == history;
    }

    method SaveLocation(idempotent: bool, device: DeviceId, fix: Fix) returns (updated: bool)
      modifies this
      ensures Contents() == Saved(old(Contents()), idempotent, device, fix)
      ensures updated == Assigned(old(Contents()), device)
    {
      var row := RowFor(device, fix);
      var known := false;
      if idempotent {
        known := IsKnown(KeyOf(row));
      }
      var vehicle := GetVehicleByDevice(device);
      if !known {
        history := history + [row];
      }
      if vehicle.Some? {
        var ignitionStatus := device in ignition && ignition[device];
        live := live[device := LiveFor(vehicle.value, fix, ignitionStatus, row.speed > 0)];
      }
      updated := vehicle.Some?;
    }

    method SetIgnition(device: DeviceId, on: bool)
      modifies this
      ensures Contents() == old(Contents()).(ignition := old(ignition)[device := on])
    {
      ignition := ignition[device := on];
    }
  }

  function InSteps(t: Tables, device: DeviceId, fix: Fix): Tables {
    var t1 := Tracked(t, device, fix);
    match ActiveVehicle(t1.assignments, device)
    case None => t1
    case Some(v) => Located(t1, device, v, fix)
  }

  // ------------------------------------------------------------------
  // The single statement against the steps
  // ------------------------------------------------------------------

  /**
   With idempotency off the single statement does what the steps did, for every
   speed but a positive one of at most 0.005 km/h on an assigned device: the
   steps call that movement, the statement does not.
   */
  lemma StatementMatchesSteps(t: Tables, device: DeviceId, fix: Fix)
    ensures Saved(t, false, device, fix) == InSteps(t, device, fix)
      <==> (Assigned(t, device) ==> fix.speed <= 0.0 || fix.speed > 0.005)
    ensures Saved(t, false, device, fix).history == InSteps(t, device, fix).history
  {
    CleanedMovement(fix.speed);
    if Assigned(t, device) {
      var a, b := Saved(t, false, device, fix), InSteps(t, device, fix);
      assert a.live == b.live <==> a.live[device].moving == b.live[device].moving;
    }
  }

  lemma StatementMatchesStepsOnGrid(t: Tables, device: DeviceId, fix: Fix, hundredths: int)
    requires fix.speed == hundredths as real / 100.0
    ensures Saved(t, false, device, fix) == InSteps(t, device, fix)
  {
    StatementMatchesSteps(t, device, fix);
  }

  // ------------------------------------------------------------------
  // Retries
  // ------------------------------------------------------------------

  /** How one call of save_location ended, as seen by the caller and by the database. */
  datatype Outcome = Stored | FailedCommitted | FailedLost {
    predicate Committed() {
      Stored? || FailedCommitted?
    }
  }

  datatype Attempt = Attempt(device: DeviceId, fix: Fix, outcome: Outcome) {
    function Row(): HistoryRow {
      RowFor(device, fix)
    }

    function Key(): Key {
      KeyOf(Row())
    }
  }

  function AfterAttempt(t: Tables, idempotent: bool, a: Attempt): Tables {
    if a.outcome.Committed() then Saved(t, idempotent, a.device, a.fix) else t
  }

  function AfterAttempts(t: Tables, idempotent: bool, attempts: seq<Attempt>): Tables
    decreases |attempts|
  {
    if attempts == [] then t
    else AfterAttempts(AfterAttempt(t, idempotent, attempts[0]), idempotent, attempts[1..])
  }

  ghost predicate UniqueKeys(history: seq<HistoryRow>) {
    forall i, j :: 0 <= i < j < |history| ==> KeyOf(history[i]) != KeyOf(history[j])
  }

  lemma HasKeyPush(history: seq<HistoryRow>, row: HistoryRow, key: Key)
    ensures HasKey(history + [row], key) <==> HasKey(history, key) || KeyOf(row) == key
  {
    var all := history + [row];
    if i :| 0 <= i < |history| && KeyOf(history[i]) == key {
      assert KeyOf(all[i]) == key;
    }
    if KeyOf(row) == key {
      assert KeyOf(all[|history|]) == key;
    }
  }

  lemma InsertKeys(history: seq<HistoryRow>, row: HistoryRow, idempotent: bool, key: Key)
    ensures HasKey(Insert(history, row, idempotent), key) <==> HasKey(history, key) || KeyOf(row) == key
  {
    hide HasKey;
    HasKeyPush(history, row, key);
  }

  lemma InsertUnique(history: seq<HistoryRow>, row: HistoryRow)
    requires UniqueKeys(history)
    ensures UniqueKeys(Insert(history, row, true))
  {}

  predicate SomeCommitted(attempts: seq<Attempt>, key: Key) {
    exists i :: 0 <= i < |attempts| && attempts[i].outcome.Committed() && attempts[i].Key() == key
  }

  lemma SomeCommittedStep(attempts: seq<Attempt>, key: Key)
    requires attempts != []
    ensures SomeCommitted(attempts, key) <==>
      (attempts[0].outcome.Committed() && attempts[0].Key() == key) || SomeCommitted(attempts[1..], key)
  {
    if i :| 0 <= i < |attempts| && attempts[i].outcome.Committed() && attempts[i].Key() == key {
      assert i > 0 ==> attempts[1..][i - 1] == attempts[i];
    }
    if j :| 0 <= j < |attempts[1..]| && attempts[1..][j].outcome.Committed() && attempts[1..][j].Key() == key {
      assert attempts[j + 1] == attempts[1..][j];
    }
  }

  /** Whatever the setting, rows are only added, and the keys are those there before or committed at least once. */
  lemma {:induction false} KeysOfAttempts(t: Tables, idempotent: bool, attempts: seq<Attempt>)
    ensures var after := AfterAttempts(t, idempotent, attempts).history;
      && t.history <= after
      && forall key :: HasKey(after, key) <==> HasKey(t.history, key) || SomeCommitted(attempts, key)
    decreases |attempts|
  {
    hide HasKey, SomeCommitted, RowFor;
    if attempts == [] {
      forall key
        ensures !SomeCommitted(attempts, key)
      {
        NoneCommitted(key);
      }
    } else {
      var a := attempts[0];
      KeysOfAttempts(AfterAttempt(t, idempotent, a), idempotent, attempts[1..]);
      var after := AfterAttempts(t, idempotent, attempts).history;
      forall key
        ensures HasKey(after, key) <==> HasKey(t.history, key) || SomeCommitted(attempts, key)
      {
        SomeCommittedStep(attempts, key);
        InsertKeys(t.history, RowFor(a.device, a.fix), idempotent, key);
      }
    }
  }

  lemma {:induction false} KeysStayUnique(t: Tables, attempts: seq<Attempt>)
    requires UniqueKeys(t.history)
    ensures UniqueKeys(AfterAttempts(t, true, attempts).history)
    decreases |attempts|
  {
    hide UniqueKeys, RowFor, Insert;
    if attempts != [] {
      InsertUnique(t.history, RowFor(attempts[0].device, attempts[0].fix));
      KeysStayUnique(AfterAttempt(t, true, attempts[0]), attempts[1..]);
    }
  }

  /** Attempt `i` adds its row: it commits and, with the idempotent statement, is the first to claim its key. */
  predicate Adds(history: seq<HistoryRow>, idempotent: bool, attempts: seq<Attempt>, i: int) {
    && 0 <= i < |attempts| && attempts[i].outcome.Committed()
    && (idempotent ==>
          && !HasKey(history, attempts[i].Key())
          && forall j :: 0 <= j < i && attempts[j].outcome.Committed() ==> attempts[j].Key() != attempts[i].Key())
  }

  predicate AddsRow(history: seq<HistoryRow>, idempotent: bool, attempts: seq<Attempt>, row: HistoryRow) {
    exists i :: 0 <= i < |attempts| && Adds(history, idempotent, attempts, i) && attempts[i].Row() == row
  }

  lemma AddsLater(t: Tables, idempotent: bool, attempts: seq<Attempt>, i: nat)
    requires 0 < i < |attempts|
    ensures Adds(AfterAttempt(t, idempotent, attempts[0]).history, idempotent, attempts[1..], i - 1)
       <==> Adds(t.history, idempotent, attempts, i)
  {
    hide HasKey, RowFor, Insert;
    var a, key := attempts[0], attempts[i].Key();
    InsertKeys(t.history, a.Row(), idempotent, key);
    forall j | 0 < j < i
      ensures attempts[j] == attempts[1..][j - 1]
    {
    }
    if Adds(AfterAttempt(t, idempotent, a).history, idempotent, attempts[1..], i - 1) {
      forall j | 0 <= j < i && attempts[j].outcome.Committed() && idempotent
        ensures attempts[j].Key() != key
      {
        if j > 0 {
          assert attempts[1..][j - 1].outcome.Committed();
        }
      }
    }
  }

  lemma AddsRowStep(t: Tables, idempotent: bool, attempts: seq<Attempt>, row: HistoryRow)
    requires attempts != []
    ensures AddsRow(t.history, idempotent, attempts, row) <==>
      || (Adds(t.history, idempotent, attempts, 0) && attempts[0].Row() == row)
      || AddsRow(AfterAttempt(t, idempotent, attempts[0]).history, idempotent, attempts[1..], row)
  {
    hide Adds, AfterAttempt, RowFor;
    var next := AfterAttempt(t, idempotent, attempts[0]).history;
    if i :| 0 <= i < |attempts| && Adds(t.history, idempotent, attempts, i) && attempts[i].Row() == row {
      if i > 0 {
        AddsLater(t, idempotent, attempts, i);
        assert Adds(next, idempotent, attempts[1..], i - 1) && attempts[1..][i - 1].Row() == row;
      }
    }
    if k :| 0 <= k < |attempts[1..]| && Adds(next, idempotent, attempts[1..], k) && attempts[1..][k].Row() == row {
      AddsLater(t, idempotent, attempts, k + 1);
      assert attempts[k + 1].Row() == row;
    }
  }

  lemma InsertedRows(history: seq<HistoryRow>, row: HistoryRow, idempotent: bool, x: HistoryRow)
    ensures x in Insert(history, row, idempotent) <==>
      x in history || (x == row && !(idempotent && HasKey(history, KeyOf(row))))
  {
    hide HasKey;
  }

  /** The rows after any attempts: those there before, and those of the attempts that add theirs. */
  lemma {:induction false} RowsOfAttempts(t: Tables, idempotent: bool, attempts: seq<Attempt>, row: HistoryRow)
    ensures row in AfterAttempts(t, idempotent, attempts).history
       <==> row in t.history || AddsRow(t.history, idempotent, attempts, row)
    decreases |attempts|
  {
    hide HasKey, RowFor, AddsRow, Insert;
    if attempts == [] {
      NoneAdds(t.history, idempotent, row);
    } else {
      var a := attempts[0];
      RowsOfAttempts(AfterAttempt(t, idempotent, a), idempotent, attempts[1..], row);
      AddsRowStep(t, idempotent, attempts, row);
      InsertedRows(t.history, a.Row(), idempotent, row);
    }
  }

  lemma NoneAdds(history: seq<HistoryRow>, idempotent: bool, row: HistoryRow)
    ensures !AddsRow(history, idempotent, [], row)
  {}

  /**
   Exactly-once effect. With the idempotent statement, any series of saves,
   resends and ambiguous failures keeps one row per device and event time,
   never alters or removes a row already there, ends with exactly the keys that
   were there or were committed at least once, and each new row is that of the
   first attempt committed for its key.
   */
  lemma ExactlyOnce(t: Tables, attempts: seq<Attempt>)
    requires UniqueKeys(t.history)
    ensures var after := AfterAttempts(t, true, attempts).history;
      && UniqueKeys(after)
      && t.history <= after
      && (forall key :: HasKey(after, key) <==> HasKey(t.history, key) || SomeCommitted(attempts, key))
      && (forall row :: row in after <==> row in t.history || AddsRow(t.history, true, attempts, row))
  {
    hide HasKey, SomeCommitted, UniqueKeys, AddsRow, AfterAttempts;
    KeysStayUnique(t, attempts);
    KeysOfAttempts(t, true, attempts);
    forall row
      ensures row in AfterAttempts(t, true, attempts).history
         <==> row in t.history || AddsRow(t.history, true, attempts, row)
    {
      RowsOfAttempts(t, true, attempts, row);
    }
  }

  // ------------------------------------------------------------------
  // Positions that share an event time
  // ------------------------------------------------------------------

  /** One save leaves its own row exactly if its key is free, or it may be repeated, or the very row is there. */
  lemma OwnRowSaved(t: Tables, idempotent: bool, device: DeviceId, fix: Fix)
    ensures RowFor(device, fix) in Saved(t, idempotent, device, fix).history <==>
      || !idempotent
      || !HasKey(t.history, Key(device, fix.eventTime))
      || RowFor(device, fix) in t.history
  {
    hide HasKey;
    InsertedRows(t.history, RowFor(device, fix), idempotent, RowFor(device, fix));
  }

  /** Whatever holds the row's key, in the table before or claiming it first, is that very row. */
  ghost predicate Unrivalled(history: seq<HistoryRow>, attempts: seq<Attempt>, row: HistoryRow) {
    && (forall r :: r in history && KeyOf(r) == KeyOf(row) ==> r == row)
    && (forall i :: 0 <= i < |attempts| && Adds(history, true, attempts, i) && attempts[i].Key() == KeyOf(row) ==>
          attempts[i].Row() == row)
  }

  lemma {:induction false} FirstClaim(history: seq<HistoryRow>, attempts: seq<Attempt>, n: nat) returns (i: nat)
    requires n < |attempts| && attempts[n].outcome.Committed() && !HasKey(history, attempts[n].Key())
    ensures i < |attempts| && Adds(history, true, attempts, i) && attempts[i].Key() == attempts[n].Key()
    decreases n
  {
    hide HasKey, RowFor;
    if j :| 0 <= j < n && attempts[j].outcome.Committed() && attempts[j].Key() == attempts[n].Key() {
      i := FirstClaim(history, attempts, j);
    } else {
      i := n;
    }
  }

  lemma KeysDecide(history: seq<HistoryRow>, r: HistoryRow, row: HistoryRow)
    requires UniqueKeys(history) && r in history && row in history && KeyOf(r) == KeyOf(row)
    ensures r == row
  {
    var i :| 0 <= i < |history| && history[i] == r;
    var j :| 0 <= j < |history| && history[j] == row;
  }

  /**
   With the idempotent statement a committed position has its own row if and
   only if no other row came first at its device and event time.
   */
  lemma OwnRowThere(t: Tables, attempts: seq<Attempt>, n: nat)
    requires UniqueKeys(t.history) && n < |attempts| && attempts[n].outcome.Committed()
    ensures attempts[n].Row() in AfterAttempts(t, true, attempts).history
       <==> Unrivalled(t.history, attempts, attempts[n].Row())
  {
    hide UniqueKeys, RowFor, AfterAttempts, Adds;
    var row := attempts[n].Row();
    var after := AfterAttempts(t, true, attempts).history;
    ExactlyOnce(t, attempts);
    if row in after {
      forall r | r in t.history && KeyOf(r) == KeyOf(row)
        ensures r == row
      {
        KeysDecide(after, r, row);
      }
      forall i | 0 <= i < |attempts| && Adds(t.history, true, attempts, i) && attempts[i].Key() == KeyOf(row)
        ensures attempts[i].Row() == row
      {
        assert AddsRow(t.history, true, attempts, attempts[i].Row());
        KeysDecide(after, attempts[i].Row(), row);
      }
    }
    if Unrivalled(t.history, attempts, row) {
      if HasKey(t.history, KeyOf(row)) {
        var i :| 0 <= i < |t.history| && KeyOf(t.history[i]) == KeyOf(row);
        assert t.history[i] == row;
      } else {
        var i := FirstClaim(t.history, attempts, n);
        assert AddsRow(t.history, true, attempts, row);
      }
    }
  }

  /** So of two different positions with one event time, the second is reported stored and has no row. */
  lemma SameInstantLosesPosition(t: Tables, device: DeviceId, first: Fix, second: Fix)
    requires first.eventTime == second.eventTime && RowFor(device, first) != RowFor(device, second)
    requires !HasKey(t.history, Key(device, first.eventTime))
    ensures var attempts := [Attempt(device, first, Stored), Attempt(device, second, Stored)];
      && RowFor(device, first) in AfterAttempts(t, true, attempts).history
      && RowFor(device, second) !in AfterAttempts(t, true, attempts).history
  {
    hide HasKey, RowFor, AfterAttempts;
    var attempts := [Attempt(device, first, Stored), Attempt(device, second, Stored)];
    RowsOfAttempts(t, true, attempts, RowFor(device, first));
    RowsOfAttempts(t, true, attempts, RowFor(device, second));
    KeyOfRow(device, first);
    KeyOfRow(device, second);
    assert Adds(t.history, true, attempts, 0) && attempts[0].Row() == RowFor(device, first);
    assert attempts[0].Key() == attempts[1].Key();
    NotHeld(t.history, RowFor(device, second));
  }

  lemma KeyOfRow(device: DeviceId, fix: Fix)
    ensures KeyOf(RowFor(device, fix)) == Key(device, fix.eventTime)
  {}

  lemma NotHeld(history: seq<HistoryRow>, row: HistoryRow)
    requires !HasKey(history, KeyOf(row))
    ensures row !in history
  {}

  lemma NoneCommitted(key: Key)
    ensures !SomeCommitted([], key)
  {}

  /** Without it, every commit of a resent position adds a row, so one resend breaks uniqueness. */
  lemma ResendDuplicates(t: Tables, device: DeviceId, fix: Fix)
    ensures var attempts := [Attempt(device, fix, FailedCommitted), Attempt(device, fix, Stored)];
      !UniqueKeys(AfterAttempts(t, false, attempts).history)
  {
    var first, second := Attempt(device, fix, FailedCommitted), Attempt(device, fix, Stored);
    assert [first, second][1..] == [second] && [second][1..] == [];
    var t1 := AfterAttempt(t, false, first);
    var t2 := AfterAttempt(t1, false, second);
    assert AfterAttempts(t, false, [first, second]) == AfterAttempts(t1, false, [second]) == t2;
    var n := |t.history|;
    assert KeyOf(t2.history[n]) == KeyOf(t2.history[n + 1]);
  }

  /** The rows the committed attempts carry, in their order. */
  function CommittedRows(attempts: seq<Attempt>): seq<HistoryRow>
    decreases |attempts|
  {
    if attempts == [] then []
    else
      var last := attempts[|attempts| - 1];
      CommittedRows(attempts[..|attempts| - 1]) + if last.outcome.Committed() then [last.Row()] else []
  }

  lemma {:induction false} AttemptsExtend(t: Tables, idempotent: bool, attempts: seq<Attempt>)
    requires attempts != []
    ensures var n := |attempts| - 1;
      AfterAttempts(t, idempotent, attempts)
      == AfterAttempt(AfterAttempts(t, idempotent, attempts[..n]), idempotent, attempts[n])
    decreases |attempts|
  {
    hide AfterAttempt;
    if |attempts| > 1 {
      assert attempts[1..][..|attempts| - 2] == attempts[..|attempts| - 1][1..];
      AttemptsExtend(AfterAttempt(t, idempotent, attempts[0]), idempotent, attempts[1..]);
    }
  }

  /** Without the idempotent clause every commit adds its row at the end. */
  lemma {:induction false} CommittedInOrder(t: Tables, attempts: seq<Attempt>)
    ensures AfterAttempts(t, false, attempts).history == t.history + CommittedRows(attempts)
    decreases |attempts|
  {
    hide AfterAttempts, RowFor;
    if attempts == [] {
      NoAttempts(t, false);
    } else {
      AttemptsExtend(t, false, attempts);
      CommittedInOrder(t, attempts[..|attempts| - 1]);
    }
  }

  lemma NoAttempts(t: Tables, idempotent: bool)
    ensures AfterAttempts(t, idempotent, []) == t
  {}

  lemma {:induction false} CommittedRowsSplit(attempts: seq<Attempt>, n: nat)
    requires n <= |attempts|
    ensures CommittedRows(attempts[..n]) <= CommittedRows(attempts)
    decreases |attempts|
  {
    if n < |attempts| {
      assert attempts[..|attempts| - 1][..n] == attempts[..n];
      CommittedRowsSplit(attempts[..|attempts| - 1], n);
    } else {
      assert attempts[..n] == attempts;
    }
  }

  /** A committed attempt's row stands behind those of the commits before it. */
  lemma PlacedRow(attempts: seq<Attempt>, w: nat)
    requires w < |attempts| && attempts[w].outcome.Committed()
    ensures var place := |CommittedRows(attempts[..w])|;
      place < |CommittedRows(attempts)| && CommittedRows(attempts)[place] == attempts[w].Row()
  {
    hide RowFor;
    assert attempts[..w + 1][..w] == attempts[..w];
    CommittedRowsSplit(attempts, w + 1);
  }

  lemma PlacesGrow(attempts: seq<Attempt>, v: nat, w: nat)
    requires v < w < |attempts| && attempts[v].outcome.Committed()
    ensures |CommittedRows(attempts[..v])| < |CommittedRows(attempts[..w])|
  {
    assert attempts[..v + 1][..v] == attempts[..v];
    assert attempts[..w][..v + 1] == attempts[..v + 1];
    CommittedRowsSplit(attempts[..w], v + 1);
  }

  /** No commit repeats a key that is in the table, or another commit's. */
  ghost predicate NoRepeats(history: seq<HistoryRow>, attempts: seq<Attempt>) {
    && (forall i :: 0 <= i < |attempts| && attempts[i].outcome.Committed() ==> !HasKey(history, attempts[i].Key()))
    && (forall i, j :: 0 <= i < j < |attempts| && attempts[i].outcome.Committed() && attempts[j].outcome.Committed() ==>
          attempts[i].Key() != attempts[j].Key())
  }

  lemma PushUnique(history: seq<HistoryRow>, row: HistoryRow)
    ensures UniqueKeys(history + [row]) <==> UniqueKeys(history) && !HasKey(history, KeyOf(row))
  {
    var all := history + [row];
    if UniqueKeys(all) {
      forall i, j | 0 <= i < j < |history|
        ensures KeyOf(history[i]) != KeyOf(history[j])
      {
        assert KeyOf(all[i]) != KeyOf(all[j]);
      }
      forall i | 0 <= i < |history|
        ensures KeyOf(history[i]) != KeyOf(row)
      {
        assert KeyOf(all[i]) != KeyOf(all[|history|]);
      }
    }
  }

  lemma NoRepeatsExtends(history: seq<HistoryRow>, attempts: seq<Attempt>)
    requires attempts != []
    ensures var n := |attempts| - 1;
      NoRepeats(history, attempts) <==>
        && NoRepeats(history, attempts[..n])
        && (attempts[n].outcome.Committed() ==>
              !HasKey(history, attempts[n].Key()) && !SomeCommitted(attempts[..n], attempts[n].Key()))
  {
    hide HasKey, RowFor;
    var n := |attempts| - 1;
    assert forall i :: 0 <= i < n ==> attempts[..n][i] == attempts[i];
    if NoRepeats(history, attempts) {
      forall i | 0 <= i < n && attempts[..n][i].outcome.Committed()
        ensures !HasKey(history, attempts[..n][i].Key())
        ensures attempts[n].outcome.Committed() ==> attempts[..n][i].Key() != attempts[n].Key()
      {
        assert attempts[i].outcome.Committed();
      }
      forall i, j | 0 <= i < j < n && attempts[..n][i].outcome.Committed() && attempts[..n][j].outcome.Committed()
        ensures attempts[..n][i].Key() != attempts[..n][j].Key()
      {
        assert attempts[i].Key() != attempts[j].Key();
      }
    }
    if NoRepeats(history, attempts[..n])
       && (attempts[n].outcome.Committed() ==>
             !HasKey(history, attempts[n].Key()) && !SomeCommitted(attempts[..n], attempts[n].Key())) {
      forall i | 0 <= i < |attempts| && attempts[i].outcome.Committed()
        ensures !HasKey(history, attempts[i].Key())
        ensures i < n && attempts[n].outcome.Committed() ==> attempts[i].Key() != attempts[n].Key()
      {
        if i < n {
          assert attempts[..n][i].outcome.Committed();
        }
      }
      forall i, j | 0 <= i < j < n && attempts[i].outcome.Committed() && attempts[j].outcome.Committed()
        ensures attempts[i].Key() != attempts[j].Key()
      {
        assert attempts[..n][i].Key() != attempts[..n][j].Key();
      }
    }
  }

  /**
   Without the idempotent clause the history keeps one row per device and event
   time if and only if it had so before and no commit repeats a key.
   */
  lemma {:induction false} UniqueUnlessRepeated(t: Tables, attempts: seq<Attempt>)
    ensures UniqueKeys(AfterAttempts(t, false, attempts).history)
       <==> UniqueKeys(t.history) && NoRepeats(t.history, attempts)
    decreases |attempts|
  {
    hide UniqueKeys, HasKey, SomeCommitted, NoRepeats, RowFor, AfterAttempts;
    if attempts == [] {
      NoAttempts(t, false);
      NothingRepeats(t.history);
    } else {
      var n := |attempts| - 1;
      var before := AfterAttempts(t, false, attempts[..n]).history;
      AttemptsExtend(t, false, attempts);
      UniqueUnlessRepeated(t, attempts[..n]);
      NoRepeatsExtends(t.history, attempts);
      KeysOfAttempts(t, false, attempts[..n]);
      PushUnique(before, attempts[n].Row());
    }
  }

  lemma NothingRepeats(history: seq<HistoryRow>)
    ensures NoRepeats(history, [])
  {}

  // ------------------------------------------------------------------
  // The live row over a run
  // ------------------------------------------------------------------

  datatype Event =
    | Save(attempt: Attempt)
    | Assign(assignments: seq<Assignment>)     // the portal edits the assignments
    | Ignite(device: DeviceId, on: bool)

  function AfterEvent(t: Tables, idempotent: bool, e: Event): Tables {
    match e
    case Save(a) => AfterAttempt(t, idempotent, a)
    case Assign(rows) => t.(assignments := rows)
    case Ignite(d, on) => t.(ignition := t.ignition[d := on])
  }

  function AfterEvents(t: Tables, idempotent: bool, events: seq<Event>): Tables
    decreases |events|
  {
    if events == [] then t
    else AfterEvent(AfterEvents(t, idempotent, events[..|events| - 1]), idempotent, events[|events| - 1])
  }

  /** Event `k` commits a position of `device` while that is assigned. */
  predicate Moves(t: Tables, idempotent: bool, events: seq<Event>, k: int, device: DeviceId) {
    && 0 <= k < |events|
    && events[k].Save? && events[k].attempt.device == device && events[k].attempt.outcome.Committed()
    && Assigned(AfterEvents(t, idempotent, events[..k]), device)
  }

  /**
   The live row is the last position processed while the device was assigned,
   with the vehicle and ignition of that moment; if there was none it is as it was.
   */
  lemma {:induction false} LiveRowIsLastAssigned(
    t: Tables, idempotent: bool, events: seq<Event>, device: DeviceId, k: int)
    requires k == -1 || Moves(t, idempotent, events, k, device)
    requires forall j :: k < j < |events| ==> !Moves(t, idempotent, events, j, device)
    ensures var live := AfterEvents(t, idempotent, events).live;
      if k == -1 then
        (device in live <==> device in t.live) && (device in live ==> live[device] == t.live[device])
      else
        var before := AfterEvents(t, idempotent, events[..k]);
        var fix := events[k].attempt.fix;
        && device in live
        && live[device] == LiveFor(ActiveVehicle(before.assignments, device).value, fix,
                                   IgnitionOf(before, device), fix.speed > 0.005)
    decreases |events|
  {
    hide Insert, Clean, IgnitionOf, ActiveVehicle;
    if events != [] {
      var n := |events| - 1;
      var front := events[..n];
      if k == n {
        CleanedMovement(events[k].attempt.fix.speed);
      } else {
        assert !Moves(t, idempotent, events, n, device);
        forall j | 0 <= j < n
          ensures Moves(t, idempotent, front, j, device) <==> Moves(t, idempotent, events, j, device)
        {
          assert front[..j] == events[..j];
        }
        if k >= 0 {
          assert front[..k] == events[..k];
        }
        LiveRowIsLastAssigned(t, idempotent, front, device, k);
      }
    }
  }
}
