/** What every run of the interleaved connection handlers keeps. */
module ConnectionSafety {
  import opened Common
  import opened Bytes
  import opened Detect
  import opened Registry
  import opened Connections
  import Gt06

  // ------------------------------------------------------------------
  // The invariant
  // ------------------------------------------------------------------

  /** An entry holds a connection of the family it names, logged in under its IMEI, with that IMEI's device. */
  ghost predicate EntrySound(s: State, imei: Imei)
    requires imei in s.maps.byImei
  {
    var e := s.maps.byImei[imei];
    && e.socket.uid < |s.conns|
    && s.conns[e.socket.uid].socket == e.socket
    && s.conns[e.socket.uid].family == Some(e.protocol)
    && imei in s.conns[e.socket.uid].logins
    && imei in s.devices && s.devices[imei] == e.device
  }

  ghost predicate EntriesSound(s: State) {
    && (forall u :: 0 <= u < |s.conns| ==> s.conns[u].socket.uid == u)
    && (forall i :: i in s.maps.byImei ==> EntrySound(s, i))
  }

  /** Connections still referenced never share an address. */
  ghost predicate AddressesApart(s: State) {
    forall u, v :: 0 <= u < |s.conns| && 0 <= v < |s.conns| && u != v && Live(s, u) && Live(s, v) ==>
      s.conns[u].socket.address != s.conns[v].socket.address
  }

  /** A key leads to the IMEI its connection logged in under last. */
  ghost predicate KeysCurrent(s: State) {
    && Agreement(s.maps)
    && forall a :: a in s.maps.bySocket ==>
         var uid := s.maps.byImei[s.maps.bySocket[a]].socket.uid;
         uid < |s.conns| && LastLogin(s.conns[uid]) == Some(s.maps.bySocket[a])
  }

  /** What a handler holds in local variables while it waits. */
  ghost predicate HandlerSound(s: State, k: Conn) {
    && (k.imei.Some? ==> k.imei.value in k.logins)
    && (k.phase.Probing? ==> k.family.None? && k.logins == [])
    && (k.phase.Serving? || k.phase.LookingUp? || k.phase.Replying? || k.phase.Writing? ==> k.family.Some?)
    && (k.phase.Replying? ==> LastLogin(k) == Some(k.phase.imei))
    && (k.phase.Writing? ==>
          LastLogin(k) == Some(k.phase.imei) && k.phase.imei in s.devices && s.devices[k.phase.imei] == k.phase.device)
    && (k.phase.GoingOffline? ==>
          k.phase.imei in k.logins && k.phase.imei in s.devices && s.devices[k.phase.imei] == k.phase.device)
  }

  ghost predicate HandlersSound(s: State) {
    forall u :: 0 <= u < |s.conns| ==> HandlerSound(s, s.conns[u])
  }

  /** A row carries the device of the IMEI its connection had logged in under. */
  ghost predicate RowSound(s: State, r: Row) {
    && r.conn < |s.conns|
    && r.imei in s.conns[r.conn].logins
    && r.imei in s.devices && s.devices[r.imei] == r.device
  }

  ghost predicate RowsSound(s: State) {
    forall r :: r in s.rows ==> RowSound(s, r)
  }

  ghost predicate Sound(s: State) {
    EntriesSound(s) && AddressesApart(s) && KeysCurrent(s) && HandlersSound(s) && RowsSound(s)
  }

  /** The IMEI found under a live connection's address is the one it logged in under last, and the entry is its own. */
  lemma OwnKey(s: State, u: nat)
    requires EntriesSound(s) && AddressesApart(s) && KeysCurrent(s)
    requires u < |s.conns| && !s.conns[u].phase.Gone? && !s.conns[u].phase.Leaked?
    ensures var found := ImeiBySocket(s.maps, s.conns[u].socket);
      found.Some? ==>
        && found.value in s.maps.byImei
        && s.maps.byImei[found.value].socket == s.conns[u].socket
        && LastLogin(s.conns[u]) == found
  {
    var found := ImeiBySocket(s.maps, s.conns[u].socket);
    if found.Some? {
      var e := s.maps.byImei[found.value];
      assert EntrySound(s, found.value);
      assert Live(s, e.socket.uid) && Live(s, u);
    }
  }

  lemma LastIsLogin(k: Conn)
    ensures LastLogin(k).Some? ==> LastLogin(k).value in k.logins
  {}

  // ------------------------------------------------------------------
  // Steps that leave the registry alone
  // ------------------------------------------------------------------

  /** Steps other than accepting, logging in and signing off. */
  predicate Ordinary(a: Action) {
    !a.Accept? && !a.OfflineDone? && (a.LoginAnswer? ==> a.answer.None?)
  }

  ghost predicate SameConnection(k: Conn, k': Conn) {
    && k'.socket == k.socket
    && k'.logins == k.logins
    && (k.family.Some? ==> k'.family == k.family)
    && (k.phase.Gone? || k.phase.Leaked? ==> k'.phase.Gone? || k'.phase.Leaked?)
  }

  /** Connections keep their identity, registrations and references stay, devices are only added. */
  ghost predicate RegistryUntouched(s: State, s': State) {
    && s'.maps == s.maps
    && |s'.conns| == |s.conns|
    && (forall u :: 0 <= u < |s.conns| ==> SameConnection(s.conns[u], s'.conns[u]))
    && (forall i :: i in s.devices ==> i in s'.devices && s'.devices[i] == s.devices[i])
  }

  lemma UntouchedKeepsEntries(s: State, s': State)
    requires EntriesSound(s) && RegistryUntouched(s, s')
    ensures EntriesSound(s')
  {
    forall i | i in s'.maps.byImei
      ensures EntrySound(s', i)
    {
      assert EntrySound(s, i);
    }
  }

  lemma UntouchedKeepsAddresses(s: State, s': State)
    requires AddressesApart(s) && RegistryUntouched(s, s')
    ensures AddressesApart(s')
  {
    forall u | 0 <= u < |s'.conns| && Live(s', u)
      ensures Live(s, u)
    {
    }
  }

  lemma UntouchedKeepsKeys(s: State, s': State)
    requires KeysCurrent(s) && RegistryUntouched(s, s')
    ensures KeysCurrent(s')
  {}

  lemma OrdinaryKeepsMaps(c: Config, s: State, a: Action)
    requires Enabled(c, s, a) && Ordinary(a)
    ensures var s' := Apply(c, s, a);
      && s'.maps == s.maps
      && (!a.NewDevice? ==> s'.devices == s.devices)
      && (a.NewDevice? ==> a.imei !in s.devices && s'.devices == s.devices[a.imei := a.id])
      && (!a.WriteRow? ==> s'.rows == s.rows)
  {
    hide DetectProtocol, OwnEntry, BoundImei, ImeiBySocket, Registered, Unregistered, Live, Finished, CommandImei,
         Gt06.CommandFor, TextCommand;
  }

  lemma OrdinaryKeepsActor(c: Config, s: State, a: Action)
    requires Enabled(c, s, a) && Ordinary(a) && OwnStep(a) && HandlerSound(s, s.conns[a.u])
    ensures SameConnection(s.conns[a.u], Apply(c, s, a).conns[a.u])
  {
    hide DetectProtocol, OwnEntry, BoundImei, ImeiBySocket, Registered, Unregistered, Live, CommandImei,
         Gt06.CommandFor, TextCommand;
  }

  lemma OrdinaryUntouched(c: Config, s: State, a: Action)
    requires Enabled(c, s, a) && HandlersSound(s) && Ordinary(a)
    ensures RegistryUntouched(s, Apply(c, s, a))
  {
    hide Enabled, Apply, HandlerSound;
    StepsAreLocal(c, s, a);
    OrdinaryKeepsMaps(c, s, a);
    if OwnStep(a) {
      OrdinaryKeepsActor(c, s, a);
    }
  }

  lemma OtherHandlersStay(s: State, s': State, u: nat)
    requires HandlersSound(s) && RegistryUntouched(s, s') && u < |s.conns|
    requires forall v :: 0 <= v < |s.conns| && v != u ==> s'.conns[v] == s.conns[v]
    requires HandlerSound(s', s'.conns[u])
    ensures HandlersSound(s')
  {
    forall v | 0 <= v < |s'.conns|
      ensures HandlerSound(s', s'.conns[v])
    {
      assert HandlerSound(s, s.conns[v]);
    }
  }

  lemma RowsStay(s: State, s': State)
    requires RowsSound(s) && RegistryUntouched(s, s')
    ensures forall r :: r in s.rows ==> RowSound(s', r)
  {
    forall r | r in s.rows
      ensures RowSound(s', r)
    {
      assert RowSound(s, r);
    }
  }

  /** Starting the teardown, from whatever point. */
  lemma StoppedHandlerSound(s: State, u: nat)
    requires EntriesSound(s) && u < |s.conns| && HandlerSound(s, s.conns[u])
    ensures HandlerSound(Stopped(s, u), Stopped(s, u).conns[u])
  {
    var own := OwnEntry(s, u);
    if own.Some? {
      assert EntrySound(s, own.value);
    }
  }

  /** Binding a frame to the socket's IMEI. */
  lemma BoundHandlerSound(c: Config, s: State, a: Action)
    requires Sound(s) && Enabled(c, s, a)
    requires a.DataFrame? || a.Heartbeat? || a.HeartbeatResumes?
    ensures HandlerSound(Apply(c, s, a), Apply(c, s, a).conns[a.u])
  {
    hide AddressesApart, RowsSound, KeysCurrent;
    var k := s.conns[a.u];
    assert HandlerSound(s, k);
    if a.HeartbeatResumes? {
      if k.phase.imei in s.maps.byImei {
        assert EntrySound(s, k.phase.imei);
      }
    } else {
      OwnKey(s, a.u);
      var bound := ImeiBySocket(s.maps, k.socket);
      if bound.Some? {
        assert EntrySound(s, bound.value);
      }
    }
  }

  lemma FrameDoneHandlerSound(c: Config, s: State, a: Action)
    requires Sound(s) && Enabled(c, s, a) && a.FrameDone?
    ensures HandlerSound(Apply(c, s, a), Apply(c, s, a).conns[a.u])
  {
    hide AddressesApart, RowsSound, KeysCurrent;
    assert HandlerSound(s, s.conns[a.u]);
    LastIsLogin(s.conns[a.u]);
    OwnKey(s, a.u);
  }

  /** The acting handler's own variables stay sound. */
  lemma ActorStaysSound(c: Config, s: State, a: Action)
    requires Sound(s) && Enabled(c, s, a) && OwnStep(a) && !a.OfflineDone?
    requires a.LoginAnswer? ==> a.answer.None?
    ensures HandlerSound(Apply(c, s, a), Apply(c, s, a).conns[a.u])
  {
    if a.DataFrame? || a.Heartbeat? || a.HeartbeatResumes? {
      BoundHandlerSound(c, s, a);
    } else if a.FrameDone? {
      FrameDoneHandlerSound(c, s, a);
    } else {
      SimpleHandlerSound(c, s, a);
    }
  }

  lemma SimpleHandlerSound(c: Config, s: State, a: Action)
    requires Sound(s) && Enabled(c, s, a)
    requires a.Identify? || a.LoginFrame? || a.LoginAnswer? || a.WriteRow? || a.Stop? || a.OfflineRaised? || a.Release?
    requires a.LoginAnswer? ==> a.answer.None?
    ensures HandlerSound(Apply(c, s, a), Apply(c, s, a).conns[a.u])
  {
    hide DetectProtocol, AddressesApart, RowsSound, KeysCurrent, EntriesSound, Stopped, OwnEntry;
    assert HandlerSound(s, s.conns[a.u]);
    StoppedHandlerSound(s, a.u);
  }

  lemma OrdinaryKeepsSound(c: Config, s: State, a: Action)
    requires Sound(s) && Enabled(c, s, a) && Ordinary(a)
    ensures Sound(Apply(c, s, a))
  {
    hide EntriesSound, AddressesApart, KeysCurrent, HandlerSound, RowSound, RegistryUntouched, Enabled, Apply,
         LastLogin;
    var s' := Apply(c, s, a);
    StepsAreLocal(c, s, a);
    OrdinaryKeepsMaps(c, s, a);
    OrdinaryUntouched(c, s, a);
    UntouchedKeepsEntries(s, s');
    UntouchedKeepsAddresses(s, s');
    UntouchedKeepsKeys(s, s');
    RowsStay(s, s');
    if OwnStep(a) {
      ActorStaysSound(c, s, a);
      OtherHandlersStay(s, s', a.u);
    } else {
      SameHandlers(s, s');
    }
    if a.WriteRow? {
      NewRowSound(c, s, a.u);
      assert s'.rows == s.rows + [s'.rows[|s.rows|]];
    }
  }

  lemma SameHandlers(s: State, s': State)
    requires HandlersSound(s) && RegistryUntouched(s, s') && s'.conns == s.conns
    ensures HandlersSound(s')
  {
    forall v | 0 <= v < |s'.conns|
      ensures HandlerSound(s', s'.conns[v])
    {
      assert HandlerSound(s, s.conns[v]);
    }
  }

  lemma NewRowSound(c: Config, s: State, u: nat)
    requires Sound(s) && Enabled(c, s, WriteRow(u))
    ensures var s' := Apply(c, s, WriteRow(u));
      && s.rows <= s'.rows && |s'.rows| == |s.rows| + 1
      && RowSound(s', s'.rows[|s.rows|])
      && Some(s'.rows[|s.rows|].imei) == LastLogin(s.conns[u])
  {
    assert HandlerSound(s, s.conns[u]);
    LastIsLogin(s.conns[u]);
  }

  // ------------------------------------------------------------------
  // Steps that change the registry
  // ------------------------------------------------------------------

  lemma AcceptKeepsSound(c: Config, s: State, address: nat)
    requires Sound(s) && Enabled(c, s, Accept(address))
    ensures Sound(Apply(c, s, Accept(address)))
  {
    var s' := Apply(c, s, Accept(address));
    if s' != s {
      var n := |s.conns|;
      forall i | i in s'.maps.byImei
        ensures EntrySound(s', i)
      {
        assert EntrySound(s, i);
      }
      forall u | 0 <= u < n && Live(s', u)
        ensures Live(s, u)
      {
      }
      forall u | 0 <= u < |s'.conns|
        ensures HandlerSound(s', s'.conns[u])
      {
        if u < n {
          assert HandlerSound(s, s.conns[u]);
        }
      }
      forall r | r in s'.rows
        ensures RowSound(s', r)
      {
        assert RowSound(s, r);
      }
    }
  }

  lemma LoginKeepsEntries(c: Config, s: State, u: nat, device: DeviceId)
    requires Sound(s) && Enabled(c, s, LoginAnswer(u, Some(device)))
    ensures var s' := Apply(c, s, LoginAnswer(u, Some(device)));
      EntriesSound(s') && AddressesApart(s')
  {
    var s' := Apply(c, s, LoginAnswer(u, Some(device)));
    assert HandlerSound(s, s.conns[u]);
    forall i | i in s'.maps.byImei
      ensures EntrySound(s', i)
    {
      if i != s.conns[u].phase.imei {
        assert EntrySound(s, i);
      }
    }
    forall v | 0 <= v < |s'.conns| && Live(s', v)
      ensures Live(s, v)
    {
    }
  }

  lemma LoginKeepsKeys(c: Config, s: State, u: nat, device: DeviceId)
    requires Sound(s) && Enabled(c, s, LoginAnswer(u, Some(device)))
    ensures KeysCurrent(Apply(c, s, LoginAnswer(u, Some(device))))
  {
    hide RowsSound, AddressesApart;
    var s' := Apply(c, s, LoginAnswer(u, Some(device)));
    assert HandlerSound(s, s.conns[u]);
    var imei := s.conns[u].phase.imei;
    var e := Entry(device, s.conns[u].family.value, s.conns[u].socket);
    RegisteredAgrees(s.maps, imei, e);
    forall a | a in s'.maps.bySocket
      ensures var uid := s'.maps.byImei[s'.maps.bySocket[a]].socket.uid;
        uid < |s'.conns| && LastLogin(s'.conns[uid]) == Some(s'.maps.bySocket[a])
    {
      if a != e.socket.address {
        var i := s.maps.bySocket[a];
        assert i in s.maps.byImei && EntrySound(s, i);
        assert i != imei;
        assert s.maps.byImei[i].socket.uid != u;
      }
    }
  }

  lemma LoginKeepsRest(c: Config, s: State, u: nat, device: DeviceId)
    requires Sound(s) && Enabled(c, s, LoginAnswer(u, Some(device)))
    ensures var s' := Apply(c, s, LoginAnswer(u, Some(device)));
      HandlersSound(s') && RowsSound(s')
  {
    hide AddressesApart, KeysCurrent, Registered;
    var s' := Apply(c, s, LoginAnswer(u, Some(device)));
    assert HandlerSound(s, s.conns[u]);
    forall v | 0 <= v < |s'.conns|
      ensures HandlerSound(s', s'.conns[v])
    {
      assert HandlerSound(s, s.conns[v]);
    }
    forall r | r in s'.rows
      ensures RowSound(s', r)
    {
      assert RowSound(s, r);
    }
  }

  lemma OfflineKeepsRegistry(c: Config, s: State, u: nat)
    requires Sound(s) && Enabled(c, s, OfflineDone(u))
    ensures var s' := Apply(c, s, OfflineDone(u));
      EntriesSound(s') && AddressesApart(s')
  {
    hide HandlersSound, RowsSound, KeysCurrent;
    var s' := Apply(c, s, OfflineDone(u));
    forall i | i in s'.maps.byImei
      ensures EntrySound(s', i)
    {
      assert EntrySound(s, i);
    }
    forall v | 0 <= v < |s'.conns| && Live(s', v)
      ensures Live(s, v)
    {
    }
  }

  lemma OfflineKeepsKeys(c: Config, s: State, u: nat)
    requires Sound(s) && Enabled(c, s, OfflineDone(u))
    ensures KeysCurrent(Apply(c, s, OfflineDone(u)))
  {
    hide HandlersSound, RowsSound, AddressesApart;
    UnregisteredAgrees(s.maps, s.conns[u].phase.imei);
  }

  lemma OfflineKeepsHandlers(c: Config, s: State, u: nat)
    requires Sound(s) && Enabled(c, s, OfflineDone(u))
    ensures var s' := Apply(c, s, OfflineDone(u));
      HandlersSound(s') && RowsSound(s')
  {
    hide AddressesApart, KeysCurrent, EntriesSound, Unregistered;
    var s' := Apply(c, s, OfflineDone(u));
    forall v | 0 <= v < |s'.conns|
      ensures HandlerSound(s', s'.conns[v])
    {
      assert HandlerSound(s, s.conns[v]);
    }
    forall r | r in s'.rows
      ensures RowSound(s', r)
    {
      assert RowSound(s, r);
    }
  }

  lemma StepKeepsSound(c: Config, s: State, a: Action)
    requires Sound(s) && Enabled(c, s, a)
    ensures Sound(Apply(c, s, a))
  {
    hide EntriesSound, AddressesApart, KeysCurrent, HandlersSound, RowsSound, Apply;
    if a.Accept? {
      AcceptKeepsSound(c, s, a.address);
    } else if a.OfflineDone? {
      OfflineKeepsRegistry(c, s, a.u);
      OfflineKeepsKeys(c, s, a.u);
      OfflineKeepsHandlers(c, s, a.u);
    } else if a.LoginAnswer? && a.answer.Some? {
      LoginKeepsEntries(c, s, a.u, a.answer.value);
      LoginKeepsKeys(c, s, a.u, a.answer.value);
      LoginKeepsRest(c, s, a.u, a.answer.value);
    } else {
      OrdinaryKeepsSound(c, s, a);
    }
  }

  lemma {:induction false} RunsAreSound(
    c: Config, devices: map<Imei, DeviceId>, actions: seq<Action>, states: seq<State>, k: nat)
    requires Run(c, devices, actions, states) && k < |states|
    ensures Sound(states[k])
    decreases k
  {
    hide Sound, Apply, Enabled;
    if k == 0 {
      StartIsSound(devices);
    } else {
      RunsAreSound(c, devices, actions, states, k - 1);
      StepKeepsSound(c, states[k - 1], actions[k - 1]);
    }
  }

  lemma StartIsSound(devices: map<Imei, DeviceId>)
    ensures Sound(Start(devices))
  {}

  // ------------------------------------------------------------------
  // Registry agreement
  // ------------------------------------------------------------------

  /**
   In every reachable state a key leads to an IMEI whose entry holds the very
   connection that logged in under it last - never a later object that reuses
   the address of one already collected.
   */
  lemma KeysNeverStale(
    c: Config, devices: map<Imei, DeviceId>, actions: seq<Action>, states: seq<State>, k: nat, u: nat)
    requires Run(c, devices, actions, states) && k < |states|
    requires u < |states[k].conns| && !states[k].conns[u].phase.Gone? && !states[k].conns[u].phase.Leaked?
    ensures Agreement(states[k].maps)
    ensures var s := states[k];
      var found := ImeiBySocket(s.maps, s.conns[u].socket);
      found.Some? ==>
        && found.value in s.maps.byImei
        && s.maps.byImei[found.value].socket == s.conns[u].socket
        && LastLogin(s.conns[u]) == found
  {
    RunsAreSound(c, devices, actions, states, k);
    OwnKey(states[k], u);
  }

  // ------------------------------------------------------------------
  // Attribution
  // ------------------------------------------------------------------

  /**
   Every row of a run carries the device that GpsDevices gives to the IMEI its
   connection had last logged in under when it was written, so a connection
   that never logged in has written none.
   */
  lemma RowsAttributed(
    c: Config, devices: map<Imei, DeviceId>, actions: seq<Action>, states: seq<State>, k: nat, r: Row)
    requires Run(c, devices, actions, states) && k < |states| && r in states[k].rows
    ensures r.conn < |states[k].conns| && r.imei in states[k].conns[r.conn].logins
    ensures r.imei in states[k].devices && states[k].devices[r.imei] == r.device
  {
    RunsAreSound(c, devices, actions, states, k);
    assert RowSound(states[k], r);
  }

  /** And the IMEI recorded with a new row is the one its connection logged in under last. */
  lemma NewRowsFollowLastLogin(
    c: Config, devices: map<Imei, DeviceId>, actions: seq<Action>, states: seq<State>, k: nat)
    requires Run(c, devices, actions, states) && k < |actions|
    ensures states[k].rows <= states[k + 1].rows
    ensures forall r :: r in states[k + 1].rows[|states[k].rows|..] ==>
      && r.conn < |states[k].conns|
      && LastLogin(states[k].conns[r.conn]) == Some(r.imei)
      && r.imei in states[k].devices && states[k].devices[r.imei] == r.device
  {
    hide DetectProtocol, OwnEntry, BoundImei, Registered, Unregistered, Gt06.CommandFor, TextCommand, Sound;
    RunsAreSound(c, devices, actions, states, k);
    var s, a := states[k], actions[k];
    assert Enabled(c, s, a) && states[k + 1] == Apply(c, s, a);
    if a.WriteRow? {
      NewRowSound(c, s, a.u);
      assert RowSound(states[k + 1], states[k + 1].rows[|s.rows|]);
    }
  }

  /** A GPS103 message that names another IMEI than its connection's writes nothing and closes the connection. */
  lemma ImpostorWritesNothing(
    c: Config, devices: map<Imei, DeviceId>, actions: seq<Action>, states: seq<State>, k: nat, u: nat, named: Imei)
    requires Run(c, devices, actions, states) && k < |actions|
    requires actions[k] == DataFrame(u, Some(named)) || actions[k] == Heartbeat(u, named)
    requires u < |states[k].conns| && states[k].conns[u].family == Some(GPS103)
    requires LastLogin(states[k].conns[u]) != Some(named)
    ensures states[k + 1] == Dropped(states[k], u)
  {
    hide Sound;
    RunsAreSound(c, devices, actions, states, k);
    var s, a := states[k], actions[k];
    assert Enabled(c, s, a) && states[k + 1] == Apply(c, s, a);
    SoundOwnKey(s, u);
  }

  lemma SoundOwnKey(s: State, u: nat)
    requires Sound(s)
    requires u < |s.conns| && !s.conns[u].phase.Gone? && !s.conns[u].phase.Leaked?
    ensures var found := ImeiBySocket(s.maps, s.conns[u].socket); found.Some? ==> LastLogin(s.conns[u]) == found
  {
    OwnKey(s, u);
  }
}
