/**
 Connection handlers and device lookups together: each login waits for a lookup
 that runs statement by statement against the same GpsDevices table.
 */
module Logins {
  import opened Common
  import Detect
  import Registry
  import G = Connections
  import S = ConnectionSafety
  import L = DeviceLookup

  /** `asked` says which lookup a handler started last. */
  datatype State = State(gateway: G.State, lookups: L.State, asked: map<nat, nat>)

  datatype Action =
    | Gateway(step: G.Action)            // a step that concerns no lookup
    | Ask(u: nat, imei: Imei)         // a login frame starts one
    | Lookup(statement: L.Action)             // a statement of some lookup, or the admin portal
    | Answer(u: nat)                  // a handler goes on with its lookup's answer

  predicate Enabled(c: G.Config, j: State, a: Action) {
    match a
    case Gateway(g) => !g.LoginFrame? && !g.NewDevice? && !g.LoginAnswer? && G.Enabled(c, j.gateway, g)
    case Ask(u, imei) => G.Enabled(c, j.gateway, G.LoginFrame(u, imei))
    case Lookup(l) => !l.Begin? && L.Enabled(j.lookups, l)
    case Answer(u) =>
      && G.At(j.gateway, u) && j.gateway.conns[u].phase.LookingUp?
      && u in j.asked && j.asked[u] < |j.lookups.lookups| && j.lookups.lookups[j.asked[u]].phase.Done?
  }

  /** The device row a lookup's statement adds, if it adds one. */
  function NewRow(s: L.State, a: L.Action): Option<L.Row>
    requires L.Enabled(s, a)
  {
    if ((a.Advance? && s.lookups[a.l].phase.Inserting?) || a.FailAfterInsert?)
       && L.DeviceOf(s.tables.devices, s.lookups[a.l].imei).None?
    then Some(L.Row(s.lookups[a.l].imei, a.newId)) else None
  }

  function Apply(c: G.Config, j: State, a: Action): State
    requires Enabled(c, j, a)
  {
    match a
    case Gateway(g) => j.(gateway := G.Apply(c, j.gateway, g))
    case Ask(u, imei) =>
      State(G.Apply(c, j.gateway, G.LoginFrame(u, imei)), L.Apply(j.lookups, L.Begin(imei)),
            j.asked[u := |j.lookups.lookups|])
    case Lookup(l) =>
      var row := NewRow(j.lookups, l);
      var devices := if row.Some? then j.gateway.devices[row.value.imei := row.value.device] else j.gateway.devices;
      j.(lookups := L.Apply(j.lookups, l), gateway := j.gateway.(devices := devices))
    case Answer(u) =>
      var answer := G.LoginAnswer(u, j.lookups.lookups[j.asked[u]].phase.result);
      if G.Enabled(c, j.gateway, answer) then j.(gateway := G.Apply(c, j.gateway, answer)) else j
  }

  ghost predicate Run(c: G.Config, devices: map<Imei, DeviceId>, actions: seq<Action>, states: seq<State>) {
    && |states| == |actions| + 1
    && states[0].gateway == G.Start(devices)
    && states[0].lookups.lookups == [] && L.OneRowEach(states[0].lookups.tables.devices)
    && SameDevices(states[0])
    && forall i :: 0 <= i < |actions| ==>
         Enabled(c, states[i], actions[i]) && states[i + 1] == Apply(c, states[i], actions[i])
  }

  // ------------------------------------------------------------------
  // The invariant that couples the two
  // ------------------------------------------------------------------

  function DeviceIn(devices: map<Imei, DeviceId>, imei: Imei): Option<DeviceId> {
    if imei in devices then Some(devices[imei]) else None
  }

  ghost predicate SameDevices(j: State) {
    forall imei :: DeviceIn(j.gateway.devices, imei) == L.DeviceOf(j.lookups.tables.devices, imei)
  }

  /** A waiting handler's lookup is about the IMEI it waits for. */
  ghost predicate AskedSound(j: State) {
    forall u :: 0 <= u < |j.gateway.conns| && j.gateway.conns[u].phase.LookingUp? ==>
      && u in j.asked && j.asked[u] < |j.lookups.lookups|
      && j.lookups.lookups[j.asked[u]].imei == j.gateway.conns[u].phase.imei
  }

  ghost predicate Coupled(j: State) {
    L.Sound(j.lookups) && SameDevices(j) && AskedSound(j)
  }

  /** Nobody but a login frame makes a handler wait. */
  lemma WaitingStays(c: G.Config, s: G.State, g: G.Action, u: nat)
    requires G.Enabled(c, s, g) && !g.LoginFrame? && G.At(G.Apply(c, s, g), u)
    requires G.Apply(c, s, g).conns[u].phase.LookingUp?
    ensures G.At(s, u) && s.conns[u].phase == G.Apply(c, s, g).conns[u].phase
  {
    if g.Accept? {
      hide G.Live;
    } else {
      hide G.Apply, G.Enabled;
      G.StepsAreLocal(c, s, g);
      if G.OwnStep(g) && g.u == u {
        NotWaiting(c, s, g);
      }
    }
  }

  lemma NotWaiting(c: G.Config, s: G.State, g: G.Action)
    requires G.Enabled(c, s, g) && G.OwnStep(g) && !g.LoginFrame?
    ensures !G.Apply(c, s, g).conns[g.u].phase.LookingUp?
  {
    hide G.OwnEntry, G.BoundImei, G.Live, G.Finished, Detect.DetectProtocol,
         Registry.Registered, Registry.Unregistered, Registry.ImeiBySocket;
  }

  lemma DevicesOfStep(c: G.Config, s: G.State, g: G.Action)
    requires G.Enabled(c, s, g) && !g.NewDevice?
    ensures G.Apply(c, s, g).devices == s.devices
  {
    hide G.OwnEntry, G.BoundImei, G.Live, G.Finished, Detect.DetectProtocol,
         Registry.Registered, Registry.Unregistered, Registry.ImeiBySocket,
         G.TextCommand, G.CommandImei;
  }

  lemma LookupsKeepImeis(s: L.State, a: L.Action)
    requires L.Enabled(s, a)
    ensures |s.lookups| <= |L.Apply(s, a).lookups|
    ensures forall l :: 0 <= l < |s.lookups| ==> L.Apply(s, a).lookups[l].imei == s.lookups[l].imei
  {
    hide L.DeviceOf, L.Insert, L.JoinedStatus;
  }

  lemma RowsOfLookup(s: L.State, a: L.Action, imei: Imei)
    requires L.Enabled(s, a)
    ensures L.DeviceOf(L.Apply(s, a).tables.devices, imei)
         == if NewRow(s, a).Some? && NewRow(s, a).value.imei == imei then Some(NewRow(s, a).value.device)
            else L.DeviceOf(s.tables.devices, imei)
  {
    hide L.DeviceOf, L.JoinedStatus;
    if (a.Advance? && s.lookups[a.l].phase.Inserting?) || a.FailAfterInsert? {
      L.DeviceOfAppend(s.tables.devices, L.Row(s.lookups[a.l].imei, a.newId), imei);
    }
  }

  lemma GatewayKeepsCoupled(c: G.Config, j: State, a: Action)
    requires Coupled(j) && Enabled(c, j, a) && a.Gateway?
    ensures Coupled(Apply(c, j, a))
  {
    hide G.Apply, G.Enabled, L.Sound, L.DeviceOf;
    var j' := Apply(c, j, a);
    DevicesOfStep(c, j.gateway, a.step);
    forall u | 0 <= u < |j'.gateway.conns| && j'.gateway.conns[u].phase.LookingUp?
      ensures u in j'.asked && j'.asked[u] < |j'.lookups.lookups|
      ensures j'.lookups.lookups[j'.asked[u]].imei == j'.gateway.conns[u].phase.imei
    {
      WaitingStays(c, j.gateway, a.step, u);
    }
  }

  lemma AskKeepsCoupled(c: G.Config, j: State, u: nat, imei: Imei)
    requires Coupled(j) && Enabled(c, j, Ask(u, imei))
    ensures Coupled(Apply(c, j, Ask(u, imei)))
  {
    hide L.DeviceOf, L.OneRowEach, G.Live;
    L.StepKeepsSound(j.lookups, L.Begin(imei));
  }

  lemma LookupKeepsCoupled(c: G.Config, j: State, a: Action)
    requires Coupled(j) && Enabled(c, j, a) && a.Lookup?
    ensures Coupled(Apply(c, j, a))
  {
    hide L.DeviceOf, L.Sound, L.Apply, L.Enabled, NewRow;
    L.StepKeepsSound(j.lookups, a.statement);
    LookupsKeepImeis(j.lookups, a.statement);
    forall imei
      ensures DeviceIn(Apply(c, j, a).gateway.devices, imei) == L.DeviceOf(Apply(c, j, a).lookups.tables.devices, imei)
    {
      RowsOfLookup(j.lookups, a.statement, imei);
      assert DeviceIn(j.gateway.devices, imei) == L.DeviceOf(j.lookups.tables.devices, imei);
    }
  }

  /** A handler goes on only with an answer its own step accepts: the device GpsDevices names for its IMEI. */
  lemma AnswerIsEnabled(c: G.Config, j: State, u: nat)
    requires Coupled(j) && Enabled(c, j, Answer(u))
    ensures G.Enabled(c, j.gateway, G.LoginAnswer(u, j.lookups.lookups[j.asked[u]].phase.result))
  {
    hide L.DeviceOf, L.OneRowEach, G.Live;
    var imei := j.gateway.conns[u].phase.imei;
    assert DeviceIn(j.gateway.devices, imei) == L.DeviceOf(j.lookups.tables.devices, imei);
  }

  lemma AnswerKeepsCoupled(c: G.Config, j: State, u: nat)
    requires Coupled(j) && Enabled(c, j, Answer(u))
    ensures Coupled(Apply(c, j, Answer(u)))
  {
    AnswerIsEnabled(c, j, u);
    hide G.Apply, G.Enabled, L.Sound, L.DeviceOf;
    var answer := G.LoginAnswer(u, j.lookups.lookups[j.asked[u]].phase.result);
    var j' := Apply(c, j, Answer(u));
    DevicesOfStep(c, j.gateway, answer);
    forall v | 0 <= v < |j'.gateway.conns| && j'.gateway.conns[v].phase.LookingUp?
      ensures v in j'.asked && j'.asked[v] < |j'.lookups.lookups|
      ensures j'.lookups.lookups[j'.asked[v]].imei == j'.gateway.conns[v].phase.imei
    {
      WaitingStays(c, j.gateway, answer, v);
    }
  }

  lemma StepKeepsCoupled(c: G.Config, j: State, a: Action)
    requires Coupled(j) && Enabled(c, j, a)
    ensures Coupled(Apply(c, j, a))
  {
    hide Coupled, Apply, Enabled;
    match a
    case Gateway(_) => GatewayKeepsCoupled(c, j, a);
    case Ask(u, imei) => AskKeepsCoupled(c, j, u, imei);
    case Lookup(_) => LookupKeepsCoupled(c, j, a);
    case Answer(u) => AnswerKeepsCoupled(c, j, u);
  }

  lemma {:induction false} RunsAreCoupled(
    c: G.Config, devices: map<Imei, DeviceId>, actions: seq<Action>, states: seq<State>, k: nat)
    requires Run(c, devices, actions, states) && k < |states|
    ensures Coupled(states[k])
    decreases k
  {
    hide Apply, Enabled, L.OneRowEach, SameDevices;
    if k > 0 {
      hide Coupled;
      RunsAreCoupled(c, devices, actions, states, k - 1);
      StepKeepsCoupled(c, states[k - 1], actions[k - 1]);
    } else {
      L.NoAnswersYet(states[0].lookups);
    }
  }

  // ------------------------------------------------------------------
  // Every joint run is a run of the gateway
  // ------------------------------------------------------------------

  /** What the gateway sees of a step: one of its own, or nothing. */
  function Seen(c: G.Config, j: State, a: Action): Option<G.Action>
    requires Enabled(c, j, a)
  {
    match a
    case Gateway(g) => Some(g)
    case Ask(u, imei) => Some(G.LoginFrame(u, imei))
    case Lookup(l) =>
      var row := NewRow(j.lookups, l);
      if row.Some? then Some(G.NewDevice(row.value.imei, row.value.device)) else None
    case Answer(u) => Some(G.LoginAnswer(u, j.lookups.lookups[j.asked[u]].phase.result))
  }

  lemma SeenIsStep(c: G.Config, j: State, a: Action)
    requires Coupled(j) && Enabled(c, j, a)
    ensures var seen := Seen(c, j, a);
      if seen.None? then Apply(c, j, a).gateway == j.gateway
      else G.Enabled(c, j.gateway, seen.value) && Apply(c, j, a).gateway == G.Apply(c, j.gateway, seen.value)
  {
    match a
    case Gateway(_) =>
    case Ask(_, _) =>
    case Answer(u) => AnswerIsEnabled(c, j, u);
    case Lookup(l) =>
      hide L.DeviceOf;
      if NewRow(j.lookups, l).Some? {
        var imei := NewRow(j.lookups, l).value.imei;
        assert DeviceIn(j.gateway.devices, imei) == L.DeviceOf(j.lookups.tables.devices, imei);
      }
  }

  /** So whatever holds in every run of the handlers holds with real lookups behind their logins. */
  lemma {:induction false} JointRunsAreRuns(
    c: G.Config, devices: map<Imei, DeviceId>, actions: seq<Action>, states: seq<State>, k: nat)
    returns (seen: seq<G.Action>, gateway: seq<G.State>)
    requires Run(c, devices, actions, states) && k < |states|
    ensures |gateway| == |seen| + 1
    ensures G.Run(c, devices, seen, gateway) && gateway[|seen|] == states[k].gateway
    decreases k
  {
    hide Apply, Enabled, G.Apply, G.Enabled, Seen, Coupled, SameDevices;
    if k == 0 {
      seen, gateway := [], [states[0].gateway];
    } else {
      seen, gateway := JointRunsAreRuns(c, devices, actions, states, k - 1);
      RunsAreCoupled(c, devices, actions, states, k - 1);
      SeenIsStep(c, states[k - 1], actions[k - 1]);
      var g := Seen(c, states[k - 1], actions[k - 1]);
      if g.Some? {
        seen, gateway := seen + [g.value], gateway + [states[k].gateway];
      }
    }
  }

  /** Every row carries the DeviceId that the GpsDevices table has for an IMEI its connection logged in under. */
  lemma RowsMatchTable(
    c: G.Config, devices: map<Imei, DeviceId>, actions: seq<Action>, states: seq<State>, k: nat, r: G.Row)
    requires Run(c, devices, actions, states) && k < |states| && r in states[k].gateway.rows
    ensures r.conn < |states[k].gateway.conns| && r.imei in states[k].gateway.conns[r.conn].logins
    ensures L.DeviceOf(states[k].lookups.tables.devices, r.imei) == Some(r.device)
    ensures L.OneRowEach(states[k].lookups.tables.devices)
  {
    hide Apply, Enabled, G.Run, L.DeviceOf, L.OneRowEach;
    var seen, gateway := JointRunsAreRuns(c, devices, actions, states, k);
    S.RowsAttributed(c, devices, seen, gateway, |seen|, r);
    RunsAreCoupled(c, devices, actions, states, k);
    assert DeviceIn(states[k].gateway.devices, r.imei) == L.DeviceOf(states[k].lookups.tables.devices, r.imei);
  }

  // ------------------------------------------------------------------
  // Nobody logs in unchecked
  // ------------------------------------------------------------------

  /** Some lookup's check of the allowlist let the IMEI through. */
  ghost predicate Checked(actions: seq<Action>, states: seq<State>, k: nat, imei: Imei)
    requires k < |states| == |actions| + 1
  {
    exists i, l :: 0 <= i < k && actions[i].Lookup? && PassesAt(states[i], actions[i], l, imei)
  }

  predicate PassesAt(j: State, a: Action, l: nat, imei: Imei)
    requires a.Lookup?
  {
    L.PassesAt(j.lookups, a.statement, l, imei)
  }

  lemma CheckedStays(actions: seq<Action>, states: seq<State>, k: nat, imei: Imei)
    requires 0 < k < |states| == |actions| + 1 && Checked(actions, states, k - 1, imei)
    ensures Checked(actions, states, k, imei)
  {
    var i, l :| 0 <= i < k - 1 && actions[i].Lookup? && PassesAt(states[i], actions[i], l, imei);
    assert PassesAt(states[i], actions[i], l, imei);
  }

  /** How a lookup gets past its check. */
  lemma PastCheckStep(s: L.State, a: L.Action, l: nat)
    requires L.Enabled(s, a) && l < |L.Apply(s, a).lookups| && L.PastCheck(L.Apply(s, a).lookups[l].phase)
    ensures l < |s.lookups| && L.Apply(s, a).lookups[l].imei == s.lookups[l].imei
    ensures L.PastCheck(s.lookups[l].phase) || L.PassesAt(s, a, l, s.lookups[l].imei)
  {
    hide L.DeviceOf, L.Insert, L.JoinedStatus;
  }

  lemma LookupsOfStep(c: G.Config, j: State, a: Action)
    requires Enabled(c, j, a)
    ensures a.Lookup? ==> Apply(c, j, a).lookups == L.Apply(j.lookups, a.statement)
    ensures a.Ask? ==> Apply(c, j, a).lookups == L.Apply(j.lookups, L.Begin(a.imei))
    ensures a.Gateway? || a.Answer? ==> Apply(c, j, a).lookups == j.lookups
  {
    hide G.Apply, G.Enabled, L.Apply, L.Enabled;
  }

  lemma {:induction false} AnswersWereChecked(
    c: G.Config, devices: map<Imei, DeviceId>, actions: seq<Action>, states: seq<State>, k: nat, l: nat)
    requires Run(c, devices, actions, states) && k < |states|
    requires l < |states[k].lookups.lookups| && L.PastCheck(states[k].lookups.lookups[l].phase)
    ensures Checked(actions, states, k, states[k].lookups.lookups[l].imei)
    decreases k
  {
    hide Apply, Enabled, L.Apply, L.Enabled, L.PastCheck, L.PassesAt, SameDevices;
    if k > 0 {
      var j, a := states[k - 1], actions[k - 1];
      LookupsOfStep(c, j, a);
      if a.Lookup? {
        LookupEnabled(c, j, a);
        PastCheckStep(j.lookups, a.statement, l);
        if !L.PastCheck(j.lookups.lookups[l].phase) {
          assert PassesAt(j, a, l, j.lookups.lookups[l].imei);
          return;
        }
      } else if a.Ask? {
        NewLookupUnchecked(j.lookups, a.imei, l);
      }
      AnswersWereChecked(c, devices, actions, states, k - 1, l);
      CheckedStays(actions, states, k, states[k].lookups.lookups[l].imei);
    }
  }

  lemma LookupEnabled(c: G.Config, j: State, a: Action)
    requires Enabled(c, j, a) && a.Lookup?
    ensures L.Enabled(j.lookups, a.statement)
  {}

  lemma NewLookupUnchecked(s: L.State, imei: Imei, l: nat)
    requires l < |L.Apply(s, L.Begin(imei)).lookups| && L.PastCheck(L.Apply(s, L.Begin(imei)).lookups[l].phase)
    ensures l < |s.lookups| && s.lookups[l] == L.Apply(s, L.Begin(imei)).lookups[l]
  {}

  /** An IMEI is new among a connection's logins only by an answer that names a device. */
  lemma NewLogin(c: G.Config, j: State, a: Action, u: nat, imei: Imei)
    requires Enabled(c, j, a) && u < |Apply(c, j, a).gateway.conns| && imei in Apply(c, j, a).gateway.conns[u].logins
    requires u < |j.gateway.conns| ==> imei !in j.gateway.conns[u].logins
    ensures a == Answer(u) && j.gateway.conns[u].phase.imei == imei
    ensures j.lookups.lookups[j.asked[u]].phase.result.Some?
  {
    match a
    case Gateway(g) => LoginsOfStep(c, j.gateway, g, u);
    case Ask(v, i) => LoginsOfStep(c, j.gateway, G.LoginFrame(v, i), u);
    case Lookup(_) =>
    case Answer(v) =>
      var answer := G.LoginAnswer(v, j.lookups.lookups[j.asked[v]].phase.result);
      if G.Enabled(c, j.gateway, answer) {
        LoginsOfStep(c, j.gateway, answer, u);
      }
  }

  lemma LoginsOfStep(c: G.Config, s: G.State, g: G.Action, u: nat)
    requires G.Enabled(c, s, g) && u < |G.Apply(c, s, g).conns|
    ensures var s' := G.Apply(c, s, g);
      || (u < |s.conns| && s'.conns[u].logins == s.conns[u].logins)
      || (u >= |s.conns| && s'.conns[u].logins == [])
      || (g.LoginAnswer? && g.answer.Some? && g.u == u < |s.conns|
          && s'.conns[u].logins == s.conns[u].logins + [s.conns[u].phase.imei])
  {
    if g.Accept? {
      hide G.Live;
    } else {
      hide G.OwnEntry, G.BoundImei, G.Live, G.Finished, Detect.DetectProtocol,
         Registry.Registered, Registry.Unregistered, Registry.ImeiBySocket,
           G.TextCommand, G.CommandImei;
    }
  }

  /** In every run, no connection has ever logged in under an IMEI that no check of the allowlist let through. */
  lemma {:induction false} LoginsWereChecked(
    c: G.Config, devices: map<Imei, DeviceId>, actions: seq<Action>, states: seq<State>, k: nat, u: nat, imei: Imei)
    requires Run(c, devices, actions, states) && k < |states|
    requires u < |states[k].gateway.conns| && imei in states[k].gateway.conns[u].logins
    ensures Checked(actions, states, k, imei)
    decreases k
  {
    hide Apply, Enabled, SameDevices, Checked, L.PastCheck;
    if k > 0 {
      var j, a := states[k - 1], actions[k - 1];
      if u < |j.gateway.conns| && imei in j.gateway.conns[u].logins {
        LoginsWereChecked(c, devices, actions, states, k - 1, u, imei);
      } else {
        NewLogin(c, j, a, u, imei);
        RunsAreCoupled(c, devices, actions, states, k - 1);
        AnswerChecked(c, j, u);
        AnswersWereChecked(c, devices, actions, states, k - 1, j.asked[u]);
      }
      CheckedStays(actions, states, k, imei);
    }
  }

  lemma AnswerChecked(c: G.Config, j: State, u: nat)
    requires Coupled(j) && Enabled(c, j, Answer(u)) && j.lookups.lookups[j.asked[u]].phase.result.Some?
    ensures u in j.asked && j.asked[u] < |j.lookups.lookups|
    ensures L.PastCheck(j.lookups.lookups[j.asked[u]].phase)
    ensures j.lookups.lookups[j.asked[u]].imei == j.gateway.conns[u].phase.imei
  {
    hide L.Sound, SameDevices;
  }

  /** So the registry holds only IMEIs that were checked. */
  lemma RegisteredWereChecked(
    c: G.Config, devices: map<Imei, DeviceId>, actions: seq<Action>, states: seq<State>, k: nat, imei: Imei)
    requires Run(c, devices, actions, states) && k < |states| && imei in states[k].gateway.maps.byImei
    ensures Checked(actions, states, k, imei)
  {
    hide Apply, Enabled, G.Run, Checked;
    var seen, gateway := JointRunsAreRuns(c, devices, actions, states, k);
    RegisteredLoggedIn(c, devices, seen, gateway, imei);
    var s := states[k].gateway;
    LoginsWereChecked(c, devices, actions, states, k, s.maps.byImei[imei].socket.uid, imei);
  }

  lemma RegisteredLoggedIn(
    c: G.Config, devices: map<Imei, DeviceId>, seen: seq<G.Action>, gateway: seq<G.State>, imei: Imei)
    requires G.Run(c, devices, seen, gateway) && imei in gateway[|seen|].maps.byImei
    ensures var s := gateway[|seen|];
      s.maps.byImei[imei].socket.uid < |s.conns| && imei in s.conns[s.maps.byImei[imei].socket.uid].logins
  {
    S.RunsAreSound(c, devices, seen, gateway, |seen|);
    assert S.EntrySound(gateway[|seen|], imei);
  }

  // ------------------------------------------------------------------
  // What a login leads to
  // ------------------------------------------------------------------

  /** A lookup's statements one after the other, with nothing in between. */
  function Waited(c: G.Config, j: State, l: nat, newId: DeviceId): State
    requires l < |j.lookups.lookups|
    decreases L.Left(j.lookups.lookups[l].phase)
  {
    if j.lookups.lookups[l].phase.Done? then j
    else
      L.StatementsEnd(j.lookups, l, newId);
      Waited(c, Apply(c, j, Lookup(L.Advance(l, newId))), l, newId)
  }

  lemma {:induction false} WaitedIsUndisturbed(c: G.Config, j: State, l: nat, newId: DeviceId)
    requires Coupled(j) && l < |j.lookups.lookups|
    ensures var j' := Waited(c, j, l, newId);
      && Coupled(j') && j'.asked == j.asked
      && j'.lookups == L.Undisturbed(j.lookups, l, newId)
      && j'.gateway == j.gateway.(devices := j'.gateway.devices)
    decreases L.Left(j.lookups.lookups[l].phase)
  {
    hide Coupled, L.Apply, NewRow;
    if !j.lookups.lookups[l].phase.Done? {
      var statement := Lookup(L.Advance(l, newId));
      L.StatementsEnd(j.lookups, l, newId);
      StepKeepsCoupled(c, j, statement);
      WaitedIsUndisturbed(c, Apply(c, j, statement), l, newId);
    }
  }

  /** A login frame, its lookup, and the handler going on with the answer. */
  function LoggedIn(c: G.Config, j: State, u: nat, imei: Imei, newId: DeviceId): State
    requires Coupled(j) && Enabled(c, j, Ask(u, imei))
  {
    var asked := Apply(c, j, Ask(u, imei));
    var l := |j.lookups.lookups|;
    AskKeepsCoupled(c, j, u, imei);
    WaitedIsUndisturbed(c, asked, l, newId);
    L.UndisturbedAnswers(asked.lookups, l, newId);
    Apply(c, Waited(c, asked, l, newId), Answer(u))
  }

  /** The device an IMEI has, or gets. */
  function DeviceFor(t: L.Tables, imei: Imei, newId: DeviceId): DeviceId {
    if L.DeviceOf(t.devices, imei).Some? then L.DeviceOf(t.devices, imei).value else newId
  }

  lemma AnswerOutcome(c: G.Config, s: G.State, u: nat, answer: Option<DeviceId>)
    requires G.Enabled(c, s, G.LoginAnswer(u, answer)) && s.conns[u].family.Some?
    ensures var s', k := G.Apply(c, s, G.LoginAnswer(u, answer)), s.conns[u];
      && |s'.conns| == |s.conns|
      && var k' := s'.conns[u];
      if answer.Some? then
        && k.phase.imei in s'.maps.byImei
        && s'.maps.byImei[k.phase.imei] == Registry.Entry(answer.value, k.family.value, k.socket)
        && k' == k.(phase := G.Writing(k.phase.imei, answer.value), logins := k.logins + [k.phase.imei])
      else
        && s'.maps == s.maps
        && k' == k.(phase := G.Serving, closed := k.closed || k.family != Some(Detect.GT06))
  {
    hide G.Live;
  }

  /** Asked and answered, before the handler goes on. */
  lemma AskedAndAnswered(c: G.Config, j: State, u: nat, imei: Imei, newId: DeviceId)
    requires Coupled(j) && Enabled(c, j, Ask(u, imei))
    ensures |Apply(c, j, Ask(u, imei)).lookups.lookups| == |j.lookups.lookups| + 1
    ensures var waited := Waited(c, Apply(c, j, Ask(u, imei)), |j.lookups.lookups|, newId);
      var g, t := waited.gateway, j.lookups.tables;
      var known, allowed := L.DeviceOf(t.devices, imei), L.Allowed(t, imei);
      && Coupled(waited) && Enabled(c, waited, Answer(u))
      && waited.lookups.lookups[waited.asked[u]].phase.result
         == (if allowed then Some(DeviceFor(t, imei, newId)) else None)
      && waited.lookups.tables
         == t.(devices := if allowed && known.None? then t.devices + [L.Row(imei, newId)] else t.devices)
      && g.maps == j.gateway.maps && |g.conns| == |j.gateway.conns|
      && g.conns[u] == j.gateway.conns[u].(phase := G.LookingUp(imei))
  {
    hide L.DeviceOf, L.Allowed, G.Live, L.Undisturbed, Waited;
    var asked := Apply(c, j, Ask(u, imei));
    var l := |j.lookups.lookups|;
    AskKeepsCoupled(c, j, u, imei);
    hide Coupled;
    WaitedIsUndisturbed(c, asked, l, newId);
    L.UndisturbedAnswers(asked.lookups, l, newId);
  }

  /**
   A login is decided by the allowlist as it stands: an allowed IMEI ends up
   registered for this connection with the device its row names, one row being
   added if it had none; any other leaves the registry and GpsDevices alone.
   */
  lemma LoginDecided(c: G.Config, j: State, u: nat, imei: Imei, newId: DeviceId)
    requires Coupled(j) && Enabled(c, j, Ask(u, imei)) && j.gateway.conns[u].family.Some?
    ensures var j', k, t := LoggedIn(c, j, u, imei, newId), j.gateway.conns[u], j.lookups.tables;
      && Coupled(j') && u < |j'.gateway.conns|
      && var k' := j'.gateway.conns[u];
      if L.Allowed(t, imei) then
        && var device := DeviceFor(t, imei, newId);
        && imei in j'.gateway.maps.byImei
        && j'.gateway.maps.byImei[imei] == Registry.Entry(device, k.family.value, k.socket)
        && k'.phase == G.Writing(imei, device) && k'.logins == k.logins + [imei] && !k'.closed
        && j'.lookups.tables.devices
           == (if L.DeviceOf(t.devices, imei).Some? then t.devices else t.devices + [L.Row(imei, device)])
      else
        && j'.gateway.maps == j.gateway.maps && j'.lookups.tables == t
        && k'.phase.Serving? && k'.logins == k.logins
        && (k'.closed <==> k.family != Some(Detect.GT06))
  {
    hide L.DeviceOf, L.Allowed, L.Undisturbed, Waited;
    AskFrom(c, j, u, imei);
    AskedAndAnswered(c, j, u, imei, newId);
    var waited := Waited(c, Apply(c, j, Ask(u, imei)), |j.lookups.lookups|, newId);
    AnswerIsEnabled(c, waited, u);
    AnswerKeepsCoupled(c, waited, u);
    AnswerOutcome(c, waited.gateway, u, waited.lookups.lookups[waited.asked[u]].phase.result);
    hide Coupled, G.Apply, G.Enabled;
  }

  lemma AskFrom(c: G.Config, j: State, u: nat, imei: Imei)
    requires Enabled(c, j, Ask(u, imei))
    ensures u < |j.gateway.conns| && j.gateway.conns[u].phase.Serving? && !j.gateway.conns[u].closed
  {}
}
