/**
 What a connection leaves behind: the two maps while every socket keeps to one
 IMEI, and what a teardown does to the registrations of others.
 */
module Teardown {
  import opened Common
  import opened Detect
  import opened Registry
  import opened Connections
  import opened ConnectionSafety
  import Gt06

  // ------------------------------------------------------------------
  // Inverse maps
  // ------------------------------------------------------------------

  /** No socket ever logged in under two IMEIs. */
  ghost predicate SingleLogin(s: State) {
    forall u, i, j :: 0 <= u < |s.conns| && i in s.conns[u].logins && j in s.conns[u].logins ==> i == j
  }

  lemma LoginsOnlyGrow(c: Config, s: State, a: Action, u: nat)
    requires Sound(s) && Enabled(c, s, a) && u < |s.conns|
    ensures u < |Apply(c, s, a).conns| && s.conns[u].logins <= Apply(c, s, a).conns[u].logins
    ensures s.conns[u].family.Some? ==> Apply(c, s, a).conns[u].family == s.conns[u].family
    ensures Apply(c, s, a).conns[u].socket == s.conns[u].socket
  {
    hide Sound, DetectProtocol, OwnEntry, Registered, Unregistered, Live;
    if Ordinary(a) {
      SoundHandlers(s);
      OrdinaryUntouched(c, s, a);
    }
  }

  lemma SoundHandlers(s: State)
    requires Sound(s)
    ensures HandlersSound(s)
  {}

  lemma SingleEarlier(c: Config, s: State, a: Action)
    requires Sound(s) && Enabled(c, s, a) && SingleLogin(Apply(c, s, a))
    ensures SingleLogin(s)
  {
    hide Sound, Apply, Enabled;
    var s' := Apply(c, s, a);
    forall u, i, j | 0 <= u < |s.conns| && i in s.conns[u].logins && j in s.conns[u].logins
      ensures i == j
    {
      LoginsOnlyGrow(c, s, a, u);
      assert i in s'.conns[u].logins && j in s'.conns[u].logins;
    }
  }

  lemma LoginKeepsInverse(c: Config, s: State, u: nat, device: DeviceId)
    requires Sound(s) && Enabled(c, s, LoginAnswer(u, Some(device))) && Inverse(s.maps)
    requires SingleLogin(Apply(c, s, LoginAnswer(u, Some(device))))
    ensures Inverse(Apply(c, s, LoginAnswer(u, Some(device))).maps)
  {
    hide Inverse, Registered, Live;
    var s' := Apply(c, s, LoginAnswer(u, Some(device)));
    var k := s.conns[u];
    assert HandlerSound(s, k);
    SoundOwnKey(s, u);
    LastIsLogin(k);
    var found := ImeiBySocket(s.maps, k.socket);
    if found.Some? {
      assert s'.conns[u].logins == k.logins + [k.phase.imei];
      assert found.value in s'.conns[u].logins && k.phase.imei in s'.conns[u].logins;
    }
    RegisteredInverse(s.maps, k.phase.imei, Entry(device, k.family.value, k.socket));
  }

  lemma StepKeepsInverse(c: Config, s: State, a: Action)
    requires Sound(s) && Enabled(c, s, a) && Inverse(s.maps) && SingleLogin(Apply(c, s, a))
    ensures Inverse(Apply(c, s, a).maps)
  {
    hide Sound, Inverse, SingleLogin, Registered, Unregistered, Live, DetectProtocol;
    if Ordinary(a) {
      OrdinaryKeepsMaps(c, s, a);
    } else if a.OfflineDone? {
      UnregisteredInverse(s.maps, s.conns[a.u].phase.imei);
    } else if a.LoginAnswer? {
      LoginKeepsInverse(c, s, a.u, a.answer.value);
    }
  }

  /** While each socket logs in under at most one IMEI, the two maps are exact inverses. */
  lemma {:induction false} MapsInverse(
    c: Config, devices: map<Imei, DeviceId>, actions: seq<Action>, states: seq<State>, k: nat)
    requires Run(c, devices, actions, states) && k < |states| && SingleLogin(states[k])
    ensures Inverse(states[k].maps)
    decreases k
  {
    hide Sound, Apply, Enabled, SingleLogin;
    if k > 0 {
      RunsAreSound(c, devices, actions, states, k - 1);
      SingleEarlier(c, states[k - 1], actions[k - 1]);
      MapsInverse(c, devices, actions, states, k - 1);
      StepKeepsInverse(c, states[k - 1], actions[k - 1]);
    }
  }

  // ------------------------------------------------------------------
  // No entry outlives its connection
  // ------------------------------------------------------------------

  /** The teardown has closed the writer. */
  predicate TornDown(p: Phase) {
    p.Closing? || p.Gone?
  }

  ghost predicate EntriesOpen(s: State) {
    forall i :: i in s.maps.byImei && s.maps.byImei[i].socket.uid < |s.conns| ==>
      !TornDown(s.conns[s.maps.byImei[i].socket.uid].phase)
  }

  /** A connection with an entry finds that entry when it is torn down. */
  lemma OwnEntryFound(s: State, u: nat, imei: Imei)
    requires Sound(s) && SingleLogin(s) && Inverse(s.maps)
    requires imei in s.maps.byImei && s.maps.byImei[imei].socket.uid == u
    ensures u < |s.conns| && OwnEntry(s, u) == Some(imei)
  {
    assert EntrySound(s, imei);
    assert HandlerSound(s, s.conns[u]);
  }

  lemma StopKeepsOpen(s: State, u: nat)
    requires Sound(s) && SingleLogin(s) && Inverse(s.maps) && EntriesOpen(s) && At(s, u)
    ensures EntriesOpen(Stopped(s, u))
  {
    hide Sound, SingleLogin, Inverse, OwnEntry;
    var s' := Stopped(s, u);
    forall i | i in s'.maps.byImei && s'.maps.byImei[i].socket.uid < |s'.conns|
      ensures !TornDown(s'.conns[s'.maps.byImei[i].socket.uid].phase)
    {
      if s.maps.byImei[i].socket.uid == u {
        OwnEntryFound(s, u, i);
      }
    }
  }

  lemma OfflineKeepsOpen(c: Config, s: State, u: nat)
    requires Sound(s) && SingleLogin(s) && EntriesOpen(s) && Enabled(c, s, OfflineDone(u))
    ensures EntriesOpen(Apply(c, s, OfflineDone(u)))
  {
    hide AddressesApart, KeysCurrent, RowsSound, Live;
    var s' := Apply(c, s, OfflineDone(u));
    assert HandlerSound(s, s.conns[u]);
    forall i | i in s'.maps.byImei && s'.maps.byImei[i].socket.uid < |s'.conns|
      ensures !TornDown(s'.conns[s'.maps.byImei[i].socket.uid].phase)
    {
      assert EntrySound(s, i);
    }
  }

  /** Only the start of a teardown takes a connection into it. */
  lemma PhaseOfActor(c: Config, s: State, a: Action)
    requires Enabled(c, s, a) && OwnStep(a)
    ensures var p, p' := s.conns[a.u].phase, Apply(c, s, a).conns[a.u].phase;
      && (p'.GoingOffline? ==> !p.GoingOffline? && (a.Stop? || a.Identify?) && Apply(c, s, a) == Stopped(s, a.u))
      && (TornDown(p') ==> TornDown(p) || a.Stop? || a.Identify? || a.OfflineDone?)
  {
    hide DetectProtocol, OwnEntry, BoundImei, ImeiBySocket, Registered, Unregistered, Live, Stopped, Finished,
         CommandImei, Gt06.CommandFor, TextCommand;
  }

  lemma OrdinaryKeepsOpen(c: Config, s: State, a: Action)
    requires Sound(s) && EntriesOpen(s) && Enabled(c, s, a) && Ordinary(a) && !a.Stop? && !a.Identify?
    ensures EntriesOpen(Apply(c, s, a))
  {
    hide Sound, Apply, Enabled;
    OrdinaryKeepsMaps(c, s, a);
    StepsAreLocal(c, s, a);
    if OwnStep(a) {
      PhaseOfActor(c, s, a);
    }
  }

  lemma OtherStepsKeepOpen(c: Config, s: State, a: Action)
    requires Sound(s) && EntriesOpen(s) && Enabled(c, s, a) && (a.Accept? || (a.LoginAnswer? && a.answer.Some?))
    ensures EntriesOpen(Apply(c, s, a))
  {
    hide Live, AddressesApart, KeysCurrent, RowsSound, HandlersSound;
    var s' := Apply(c, s, a);
    forall i | i in s'.maps.byImei && s'.maps.byImei[i].socket.uid < |s'.conns|
      ensures !TornDown(s'.conns[s'.maps.byImei[i].socket.uid].phase)
    {
      if i in s.maps.byImei {
        assert EntrySound(s, i);
      }
    }
  }

  lemma IdentifyKeepsOpen(c: Config, s: State, a: Action)
    requires Sound(s) && SingleLogin(s) && Inverse(s.maps) && EntriesOpen(s) && Enabled(c, s, a) && a.Identify?
    ensures EntriesOpen(Apply(c, s, a))
  {
    hide DetectProtocol, OwnEntry, Stopped, Inverse, Sound, SingleLogin, Live;
    StopKeepsOpen(s, a.u);
  }

  /**
   While each socket logs in under at most one IMEI, no entry refers to a
   connection whose teardown has closed the writer, whatever interleaves.
   */
  lemma {:induction false} NoEntryOutlives(
    c: Config, devices: map<Imei, DeviceId>, actions: seq<Action>, states: seq<State>, k: nat)
    requires Run(c, devices, actions, states) && k < |states| && SingleLogin(states[k])
    ensures EntriesOpen(states[k])
    decreases k
  {
    hide Sound, Apply, Enabled, SingleLogin, Inverse;
    if k > 0 {
      var s, a := states[k - 1], actions[k - 1];
      RunsAreSound(c, devices, actions, states, k - 1);
      SingleEarlier(c, s, a);
      MapsInverse(c, devices, actions, states, k - 1);
      NoEntryOutlives(c, devices, actions, states, k - 1);
      StepKeepsOpen(c, s, a);
    }
  }

  lemma StepKeepsOpen(c: Config, s: State, a: Action)
    requires Sound(s) && SingleLogin(s) && Inverse(s.maps) && EntriesOpen(s) && Enabled(c, s, a)
    ensures EntriesOpen(Apply(c, s, a))
  {
    hide Sound, SingleLogin, Inverse, EntriesOpen, Stopped, Live;
    if a.Stop? {
      StopKeepsOpen(s, a.u);
    } else if a.Identify? {
      IdentifyKeepsOpen(c, s, a);
    } else if a.OfflineDone? {
      OfflineKeepsOpen(c, s, a.u);
    } else if Ordinary(a) {
      OrdinaryKeepsOpen(c, s, a);
    } else {
      OtherStepsKeepOpen(c, s, a);
    }
  }

  ghost predicate HoldsEntry(s: State, u: nat) {
    exists i :: i in s.maps.byImei && s.maps.byImei[i].socket.uid == u
  }

  /** The step with which a teardown is done with the registry. */
  predicate LastOfTeardown(s: State, a: Action) {
    || (a.OfflineDone? && At(s, a.u) && s.conns[a.u].phase.GoingOffline?)
    || (a.Stop? && At(s, a.u) && OwnEntry(s, a.u).None?)
  }

  /**
   The exact condition, in every run: a teardown leaves an entry that refers to
   its connection if and only if the connection held an entry other than the
   one taken down.
   */
  lemma LeavesEntryExactly(
    c: Config, devices: map<Imei, DeviceId>, actions: seq<Action>, states: seq<State>, k: nat)
    requires Run(c, devices, actions, states) && k < |actions| && LastOfTeardown(states[k], actions[k])
    ensures var s, u := states[k], actions[k].u;
      && TornDown(states[k + 1].conns[u].phase)
      && (HoldsEntry(states[k + 1], u) <==>
            exists i :: i in s.maps.byImei && s.maps.byImei[i].socket.uid == u
              && (actions[k].OfflineDone? ==> i != s.conns[u].phase.imei))
  {
    hide OwnEntry, Live;
    var s, a, s' := states[k], actions[k], states[k + 1];
    assert Enabled(c, s, a) && s' == Apply(c, s, a);
    forall i
      ensures i in s'.maps.byImei <==> i in s.maps.byImei && (a.OfflineDone? ==> i != s.conns[a.u].phase.imei)
      ensures i in s'.maps.byImei ==> s'.maps.byImei[i] == s.maps.byImei[i]
    {
    }
  }

  // ------------------------------------------------------------------
  // Superseded connections
  // ------------------------------------------------------------------

  /** Being written offline, while its IMEI's entry already belongs to another connection. */
  predicate Superseded(s: State, u: nat) {
    && At(s, u) && s.conns[u].phase.GoingOffline?
    && s.conns[u].phase.imei in s.maps.byImei
    && s.maps.byImei[s.conns[u].phase.imei].socket.uid != u
  }

  /** Another connection is registered under the IMEI that `u` is writing offline. */
  predicate LoginDuring(s: State, a: Action, u: nat) {
    && At(s, u) && s.conns[u].phase.GoingOffline?
    && a.LoginAnswer? && a.answer.Some? && a.u < |s.conns| && a.u != u
    && s.conns[a.u].phase.LookingUp? && s.conns[a.u].phase.imei == s.conns[u].phase.imei
  }

  predicate SameOffline(s: State, s': State, u: nat) {
    && At(s, u) && At(s', u) && s.conns[u].phase.GoingOffline? && s'.conns[u].phase == s.conns[u].phase
  }

  /**
   A connection being written offline becomes superseded exactly by another
   connection's login under its IMEI meanwhile.
   */
  lemma SupersededByLogin(c: Config, s: State, a: Action, u: nat)
    requires Sound(s) && Enabled(c, s, a) && SameOffline(s, Apply(c, s, a), u) && !Superseded(s, u)
    ensures Superseded(Apply(c, s, a), u) <==> LoginDuring(s, a, u)
  {
    hide DetectProtocol, AddressesApart, KeysCurrent, RowsSound, Live;
    if Ordinary(a) {
      hide HandlersSound, Enabled, Apply;
      OrdinaryKeepsMaps(c, s, a);
    } else if a.LoginAnswer? {
      assert HandlerSound(s, s.conns[a.u]);
      assert s.conns[a.u].socket.uid == a.u;
    }
  }

  /** The check at the start of the teardown lets a connection through only to its own entry. */
  lemma EnteredUnsuperseded(c: Config, s: State, a: Action, u: nat)
    requires Sound(s) && Enabled(c, s, a) && !a.Accept? && At(s, u) && !s.conns[u].phase.GoingOffline?
    ensures !Superseded(Apply(c, s, a), u)
  {
    hide AddressesApart, KeysCurrent, RowsSound, HandlersSound, Enabled, Apply, ImeiBySocket;
    assert s.conns[u].socket.uid == u;
    StepsAreLocal(c, s, a);
    if OwnStep(a) && a.u == u {
      PhaseOfActor(c, s, a);
    }
  }

  /** Some login under the IMEI fell into the time since `u` began to be written offline. */
  ghost predicate LoginInWindow(actions: seq<Action>, states: seq<State>, k: nat, u: nat)
    requires k < |states| == |actions| + 1
  {
    exists j :: 0 <= j < k && SameOffline(states[j], states[k], u) && LoginDuring(states[j], actions[j], u)
  }

  lemma {:induction false} SupersededInWindow(
    c: Config, devices: map<Imei, DeviceId>, actions: seq<Action>, states: seq<State>, k: nat, u: nat)
    requires Run(c, devices, actions, states) && k < |states| && Superseded(states[k], u)
    ensures LoginInWindow(actions, states, k, u)
    decreases k
  {
    hide Sound, Apply, Enabled, LoginDuring;
    if k > 0 {
      var s, a := states[k - 1], actions[k - 1];
      RunsAreSound(c, devices, actions, states, k - 1);
      PhaseBefore(c, s, a, u);
      if !s.conns[u].phase.GoingOffline? {
        EnteredUnsuperseded(c, s, a, u);
      }
      if !Superseded(s, u) {
        SupersededByLogin(c, s, a, u);
      } else {
        SupersededInWindow(c, devices, actions, states, k - 1, u);
        var j :| 0 <= j < k - 1 && SameOffline(states[j], states[k - 1], u) && LoginDuring(states[j], actions[j], u);
        assert SameOffline(states[j], states[k], u) && LoginDuring(states[j], actions[j], u);
      }
    }
  }

  /** A connection being written offline was there before, and if it already was, it was under the same IMEI. */
  lemma PhaseBefore(c: Config, s: State, a: Action, u: nat)
    requires Enabled(c, s, a) && At(Apply(c, s, a), u) && Apply(c, s, a).conns[u].phase.GoingOffline?
    ensures At(s, u)
    ensures if s.conns[u].phase.GoingOffline? then Apply(c, s, a).conns[u].phase == s.conns[u].phase else !a.Accept?
  {
    hide Enabled, Stopped;
    if !a.Accept? {
      hide Apply;
      StepsAreLocal(c, s, a);
      if OwnStep(a) {
        PhaseOfActor(c, s, a);
      }
    }
  }

  /**
   Teardown takes nothing from other connections. Unless another connection
   logged in under the same IMEI during the offline write, every entry of
   another connection is left as it was and still found by its socket, and the
   IMEI written offline is registered to nobody else.
   */
  lemma TeardownSparesOthers(
    c: Config, devices: map<Imei, DeviceId>, actions: seq<Action>, states: seq<State>, k: nat, u: nat)
    requires Run(c, devices, actions, states) && k < |actions| && actions[k] == OfflineDone(u)
    requires !LoginInWindow(actions, states, k, u)
    ensures At(states[k], u) && states[k].conns[u].phase.GoingOffline?
    ensures var s, s', imei := states[k], states[k + 1], states[k].conns[u].phase.imei;
      && (imei in s.maps.byImei ==> s.maps.byImei[imei].socket == s.conns[u].socket)
      && imei !in s'.maps.byImei
      && imei in s.devices && s'.offline == s.offline + [Offline(u, imei, s.devices[imei])]
      && (forall i :: i in s.maps.byImei && s.maps.byImei[i].socket.uid != u ==>
            && i in s'.maps.byImei && s'.maps.byImei[i] == s.maps.byImei[i]
            && ImeiBySocket(s'.maps, s.maps.byImei[i].socket) == ImeiBySocket(s.maps, s.maps.byImei[i].socket))
  {
    hide Sound, LoginInWindow;
    RunsAreSound(c, devices, actions, states, k);
    assert Enabled(c, states[k], actions[k]) && states[k + 1] == Apply(c, states[k], actions[k]);
    if Superseded(states[k], u) {
      SupersededInWindow(c, devices, actions, states, k, u);
    }
    UnsupersededSpares(c, states[k], u);
  }

  lemma UnsupersededSpares(c: Config, s: State, u: nat)
    requires Sound(s) && Enabled(c, s, OfflineDone(u)) && !Superseded(s, u)
    ensures var s', imei := Apply(c, s, OfflineDone(u)), s.conns[u].phase.imei;
      && imei in s.devices && s.devices[imei] == s.conns[u].phase.device
      && (imei in s.maps.byImei ==> s.maps.byImei[imei].socket == s.conns[u].socket)
      && (forall i :: i in s.maps.byImei && s.maps.byImei[i].socket.uid != u ==>
            && i in s'.maps.byImei && s'.maps.byImei[i] == s.maps.byImei[i]
            && ImeiBySocket(s'.maps, s.maps.byImei[i].socket) == ImeiBySocket(s.maps, s.maps.byImei[i].socket))
  {
    hide KeysCurrent, RowsSound;
    var s', imei := Apply(c, s, OfflineDone(u)), s.conns[u].phase.imei;
    assert HandlerSound(s, s.conns[u]);
    if imei in s.maps.byImei {
      assert EntrySound(s, imei);
      assert s.conns[u].socket.uid == u;
    }
    forall i | i in s.maps.byImei && s.maps.byImei[i].socket.uid != u
      ensures i in s'.maps.byImei && s'.maps.byImei[i] == s.maps.byImei[i]
      ensures ImeiBySocket(s'.maps, s.maps.byImei[i].socket) == ImeiBySocket(s.maps, s.maps.byImei[i].socket)
    {
      assert EntrySound(s, i);
      assert Live(s, s.maps.byImei[i].socket.uid) && Live(s, u);
    }
  }

  /** And superseded it does harm: the other connection's entry is gone, though its handler goes on. */
  lemma SupersededTakesEntry(c: Config, s: State, u: nat)
    requires Sound(s) && Enabled(c, s, OfflineDone(u)) && Superseded(s, u)
    ensures var s', imei := Apply(c, s, OfflineDone(u)), s.conns[u].phase.imei;
      var other := s.maps.byImei[imei].socket.uid;
      && other != u && other < |s'.conns|
      && imei !in s'.maps.byImei
      && s'.conns[other] == s.conns[other] && s'.conns[other].socket == s.maps.byImei[imei].socket
  {
    assert EntrySound(s, s.conns[u].phase.imei);
  }

  ghost predicate OtherLosesEntry(s: State, s': State, u: nat) {
    exists i :: i in s.maps.byImei && s.maps.byImei[i].socket.uid != u
      && (i !in s'.maps.byImei || s'.maps.byImei[i] != s.maps.byImei[i])
  }

  /**
   The exact condition, in every run: the removal at the end of an offline
   write costs another connection its entry if and only if the connection torn
   down is superseded at that moment.
   */
  lemma RemovalHitsOtherExactly(
    c: Config, devices: map<Imei, DeviceId>, actions: seq<Action>, states: seq<State>, k: nat, u: nat)
    requires Run(c, devices, actions, states) && k < |actions| && actions[k] == OfflineDone(u)
    ensures OtherLosesEntry(states[k], states[k + 1], u) <==> Superseded(states[k], u)
  {
    hide Sound;
    RunsAreSound(c, devices, actions, states, k);
    assert Enabled(c, states[k], actions[k]) && states[k + 1] == Apply(c, states[k], actions[k]);
    if Superseded(states[k], u) {
      SupersededTakesEntry(c, states[k], u);
      assert states[k].conns[u].phase.imei in states[k].maps.byImei;
    } else {
      UnsupersededSpares(c, states[k], u);
    }
  }

  /** A connection superseded before its teardown begins goes straight to closing its writer. */
  lemma SupersededEarlier(c: Config, s: State, u: nat)
    requires Sound(s) && Enabled(c, s, Stop(u))
    requires forall i :: i in s.conns[u].logins && i in s.maps.byImei ==> s.maps.byImei[i].socket.uid != u
    ensures Apply(c, s, Stop(u)) == InPhase(s, u, Closing)
  {
    hide AddressesApart, RowsSound;
    assert HandlerSound(s, s.conns[u]);
    assert s.conns[u].socket.uid == u;
    LastIsLogin(s.conns[u]);
    OwnKey(s, u);
  }
}
