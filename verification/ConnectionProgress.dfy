/** What the steps of the connection handlers achieve: frames accepted, logins taken, commands sent. */
module ConnectionProgress {
  import opened Common
  import opened Bytes
  import opened Detect
  import opened Registry
  import opened Connections
  import opened ConnectionSafety
  import Gt06

  /** Only the phase of one connection changes. */
  function OnlyPhase(s: State, u: nat, p: Phase): State
    requires u < |s.conns|
  {
    var k := s.conns[u];
    s.(conns := s.conns[u := Conn(k.socket, k.family, p, k.imei, k.closed, k.logins)])
  }

  /** One connection waits for its next frame with its writer closed, and nothing else changes. */
  function OnlyClosed(s: State, u: nat): State
    requires u < |s.conns|
  {
    var k := s.conns[u];
    s.(conns := s.conns[u := Conn(k.socket, k.family, Serving, k.imei, true, k.logins)])
  }

  /** The registry knows the socket's address. */
  predicate HasKey(s: State, u: nat)
    requires u < |s.conns|
  {
    s.conns[u].socket.address in s.maps.bySocket
  }

  /** A connection with a key is registered under the IMEI it logged in under last, with that IMEI's device. */
  lemma KeyedConnection(s: State, u: nat)
    requires Sound(s) && u < |s.conns| && !s.conns[u].phase.Gone? && !s.conns[u].phase.Leaked? && HasKey(s, u)
    ensures var k := s.conns[u];
      && k.logins != []
      && var last := k.logins[|k.logins| - 1];
      && s.maps.bySocket[k.socket.address] == last
      && last in s.maps.byImei && s.maps.byImei[last].socket == k.socket
      && last in s.devices && s.maps.byImei[last].device == s.devices[last]
  {
    OwnKey(s, u);
    assert EntrySound(s, s.maps.bySocket[s.conns[u].socket.address]);
  }

  // ------------------------------------------------------------------
  // Frames
  // ------------------------------------------------------------------

  /** The message cannot be from this connection's device: no login stands, or it names another IMEI. */
  predicate Foreign(s: State, u: nat, claims: Option<Imei>)
    requires u < |s.conns|
  {
    var k := s.conns[u];
    || !HasKey(s, u)
    || (claims.Some? && (k.logins == [] || claims.value != k.logins[|k.logins| - 1]))
  }

  /**
   A data frame closes its connection if and only if the socket has no key, or
   it is a GPS103 message that names an IMEI other than that of the last login.
   Otherwise its rows are written next, under the device GpsDevices gives to
   that IMEI, and nothing but the phase changes.
   */
  lemma DataFrameExactly(
    c: Config, devices: map<Imei, DeviceId>, actions: seq<Action>, states: seq<State>, k: nat, u: nat,
    claims: Option<Imei>)
    requires Run(c, devices, actions, states) && k < |actions| && actions[k] == DataFrame(u, claims)
    ensures u < |states[k].conns|
    ensures var s, conn := states[k], states[k].conns[u];
      if Foreign(s, u, if conn.family == Some(GPS103) then claims else None) then states[k + 1] == OnlyClosed(s, u)
      else
        && conn.logins != []
        && var last := conn.logins[|conn.logins| - 1];
        && last in s.devices && states[k + 1] == OnlyPhase(s, u, Writing(last, s.devices[last]))
  {
    hide Sound, Live;
    RunsAreSound(c, devices, actions, states, k);
    var s := states[k];
    assert Enabled(c, s, actions[k]) && states[k + 1] == Apply(c, s, actions[k]);
    if HasKey(s, u) {
      KeyedConnection(s, u);
    }
  }

  /** A heartbeat likewise: answered and followed up if it names the IMEI of the last login. */
  lemma HeartbeatExactly(
    c: Config, devices: map<Imei, DeviceId>, actions: seq<Action>, states: seq<State>, k: nat, u: nat, named: Imei)
    requires Run(c, devices, actions, states) && k < |actions| && actions[k] == Heartbeat(u, named)
    ensures u < |states[k].conns|
    ensures states[k + 1] ==
      if Foreign(states[k], u, Some(named)) then OnlyClosed(states[k], u)
      else OnlyPhase(states[k], u, Replying(named))
  {
    hide Sound, Live;
    RunsAreSound(c, devices, actions, states, k);
    var s := states[k];
    assert Enabled(c, s, actions[k]) && states[k + 1] == Apply(c, s, actions[k]);
    if HasKey(s, u) {
      KeyedConnection(s, u);
    }
  }

  /** After its answer a heartbeat is recorded for its IMEI's device, unless that was unregistered meanwhile. */
  lemma HeartbeatResumesExactly(
    c: Config, devices: map<Imei, DeviceId>, actions: seq<Action>, states: seq<State>, k: nat, u: nat)
    requires Run(c, devices, actions, states) && k < |actions| && actions[k] == HeartbeatResumes(u)
    ensures u < |states[k].conns| && states[k].conns[u].phase.Replying?
    ensures var s, imei := states[k], states[k].conns[u].phase.imei;
      if imei !in s.maps.byImei then states[k + 1] == OnlyPhase(s, u, Serving)
      else imei in s.devices && states[k + 1] == OnlyPhase(s, u, Writing(imei, s.devices[imei]))
  {
    hide Sound, Live;
    RunsAreSound(c, devices, actions, states, k);
    var s := states[k];
    assert Enabled(c, s, actions[k]) && states[k + 1] == Apply(c, s, actions[k]);
    SoundEntries(s);
    if s.conns[u].phase.imei in s.maps.byImei {
      assert EntrySound(s, s.conns[u].phase.imei);
    }
  }

  lemma SoundEntries(s: State)
    requires Sound(s)
    ensures EntriesSound(s) && HandlersSound(s)
  {}

  /** A row written for a frame is added behind all others, under the last login's IMEI and its device. */
  lemma WriteRowExactly(
    c: Config, devices: map<Imei, DeviceId>, actions: seq<Action>, states: seq<State>, k: nat, u: nat)
    requires Run(c, devices, actions, states) && k < |actions| && actions[k] == WriteRow(u)
    ensures u < |states[k].conns| && states[k].conns[u].logins != []
    ensures var s, logins := states[k], states[k].conns[u].logins;
      var last := logins[|logins| - 1];
      last in s.devices && states[k + 1] == s.(rows := s.rows + [Row(u, last, s.devices[last])])
  {
    hide Sound, Live;
    RunsAreSound(c, devices, actions, states, k);
    var s := states[k];
    assert Enabled(c, s, actions[k]) && states[k + 1] == Apply(c, s, actions[k]);
    SoundEntries(s);
    assert HandlerSound(s, s.conns[u]);
  }

  /** So for a frame of the connection's own device a row can be written at once, and is that device's. */
  lemma FrameLeadsToRow(
    c: Config, devices: map<Imei, DeviceId>, actions: seq<Action>, states: seq<State>, k: nat, u: nat,
    claims: Option<Imei>)
    requires Run(c, devices, actions, states) && k < |actions| && actions[k] == DataFrame(u, claims)
    requires u < |states[k].conns|
    requires !Foreign(states[k], u, if states[k].conns[u].family == Some(GPS103) then claims else None)
    ensures Enabled(c, states[k + 1], WriteRow(u))
    ensures k + 1 < |actions| && actions[k + 1] == WriteRow(u) ==>
      var logins := states[k].conns[u].logins;
      && logins != []
      && var last := logins[|logins| - 1];
      && last in states[k].devices
      && states[k + 2].rows == states[k].rows + [Row(u, last, states[k].devices[last])]
  {
    assert |states| == |actions| + 1;
    hide Run, Apply, Foreign;
    DataFrameExactly(c, devices, actions, states, k, u, claims);
    if k + 1 < |actions| && actions[k + 1] == WriteRow(u) {
      WriteRowExactly(c, devices, actions, states, k + 1, u);
    }
  }

  // ------------------------------------------------------------------
  // Logins
  // ------------------------------------------------------------------

  /** The keys without that of the connection the IMEI was registered for until now. */
  function KeysAfter(s: State, imei: Imei): map<nat, Imei> {
    if imei in s.maps.byImei
    then map a | a in s.maps.bySocket && a != s.maps.byImei[imei].socket.address :: s.maps.bySocket[a]
    else s.maps.bySocket
  }

  /** An allowed login registers the connection under its IMEI, and only that entry changes. */
  lemma LoginExactly(
    c: Config, devices: map<Imei, DeviceId>, actions: seq<Action>, states: seq<State>, k: nat, u: nat, device: DeviceId)
    requires Run(c, devices, actions, states) && k < |actions| && actions[k] == LoginAnswer(u, Some(device))
    ensures u < |states[k].conns| && states[k].conns[u].phase.LookingUp? && states[k].conns[u].family.Some?
    ensures var s, s', conn := states[k], states[k + 1], states[k].conns[u];
      var imei := conn.phase.imei;
      && s'.maps.byImei == s.maps.byImei[imei := Entry(device, conn.family.value, conn.socket)]
      && s'.maps.bySocket == KeysAfter(s, imei)[conn.socket.address := imei]
      && s'.conns == s.conns[u := Conn(conn.socket, conn.family, Writing(imei, device), conn.imei, conn.closed,
                                       conn.logins + [imei])]
      && s'.count == s.count && s'.rows == s.rows && s'.devices == s.devices && s'.sent == s.sent
  {
    hide Sound, Live;
    RunsAreSound(c, devices, actions, states, k);
    var s := states[k];
    assert Enabled(c, s, actions[k]) && states[k + 1] == Apply(c, s, actions[k]);
    SoundEntries(s);
    assert HandlerSound(s, s.conns[u]);
  }

  /** A refused one registers nothing: a GT06 device may try again, the others are closed. */
  lemma RefusalExactly(
    c: Config, devices: map<Imei, DeviceId>, actions: seq<Action>, states: seq<State>, k: nat, u: nat)
    requires Run(c, devices, actions, states) && k < |actions| && actions[k] == LoginAnswer(u, None)
    ensures u < |states[k].conns|
    ensures states[k + 1] ==
      if states[k].conns[u].family == Some(GT06) then OnlyPhase(states[k], u, Serving) else OnlyClosed(states[k], u)
  {
    hide Live;
    assert Enabled(c, states[k], actions[k]) && states[k + 1] == Apply(c, states[k], actions[k]);
  }

  // ------------------------------------------------------------------
  // Arrival
  // ------------------------------------------------------------------

  /** A connection is turned away exactly at the cap; otherwise it takes a slot and waits for its first bytes. */
  lemma AcceptExactly(
    c: Config, devices: map<Imei, DeviceId>, actions: seq<Action>, states: seq<State>, k: nat, address: nat)
    requires Run(c, devices, actions, states) && k < |actions| && actions[k] == Accept(address)
    ensures var s := states[k];
      states[k + 1] ==
        if Running(s.conns) + Leaks(s.conns) == c.maxConnections then s
        else s.(count := s.count + 1,
                conns := s.conns + [Conn(Socket(|s.conns|, address), None, Probing, None, false, [])])
  {
    hide Live, Running, Leaks;
    SlotsConserved(c, devices, actions, states, k);
    assert Enabled(c, states[k], actions[k]) && states[k + 1] == Apply(c, states[k], actions[k]);
  }

  /** It is served as the family its first bytes show, if that is enabled, and else closed without a trace. */
  lemma IdentifyExactly(
    c: Config, devices: map<Imei, DeviceId>, actions: seq<Action>, states: seq<State>, k: nat, u: nat, first: Bytes)
    requires Run(c, devices, actions, states) && k < |actions| && actions[k] == Identify(u, first)
    ensures u < |states[k].conns|
    ensures var s, conn := states[k], states[k].conns[u];
      if Sniff(first).Some? && Sniff(first).value in c.enabled
      then states[k + 1] == s.(conns := s.conns[u := Conn(conn.socket, Sniff(first), Serving, conn.imei, conn.closed,
                                                          conn.logins)])
      else states[k + 1] == OnlyPhase(s, u, Closing)
  {
    hide Sound, Live, Sniff;
    RunsAreSound(c, devices, actions, states, k);
    var s := states[k];
    assert Enabled(c, s, actions[k]) && states[k + 1] == Apply(c, s, actions[k]);
    ProbingHoldsNothing(s, u);
  }

  lemma ProbingHoldsNothing(s: State, u: nat)
    requires Sound(s) && u < |s.conns| && s.conns[u].phase.Probing?
    ensures OwnEntry(s, u).None?
  {
    assert HandlerSound(s, s.conns[u]);
    OwnKey(s, u);
  }

  // ------------------------------------------------------------------
  // Commands
  // ------------------------------------------------------------------

  /** An operator command to a registered GT06 device is written to its connection, text and serial readable. */
  lemma CommandSentExactly(
    c: Config, devices: map<Imei, DeviceId>, actions: seq<Action>, states: seq<State>, k: nat,
    imei: Imei, text: string, serial: nat)
    requires Run(c, devices, actions, states) && k < |actions| && actions[k] == SendCommand(imei, text, serial)
    ensures var s := states[k];
      if imei in s.maps.byImei && s.maps.byImei[imei].protocol == GT06
         && serial <= 0xFFFF && Gt06.IsAscii(text) && |text| <= 243
      then
        && |states[k + 1].sent| == |s.sent| + 1
        && states[k + 1] == s.(sent := s.sent + [states[k + 1].sent[|s.sent|]])
        && var m := states[k + 1].sent[|s.sent|];
        && m.conn == s.maps.byImei[imei].socket.uid
        && Gt06.IsFrame(m.bytes) && Gt06.Sealed(m.bytes) && Gt06.Readable(m.bytes)
        && Gt06.ReadCommand(m.bytes) == (text, serial)
      else states[k + 1] == s
  {
    hide Live, Gt06.CommandFrame, Gt06.IsAscii, Gt06.IsFrame, Gt06.Sealed, Gt06.Readable, Gt06.ReadCommand;
    assert Enabled(c, states[k], actions[k]) && states[k + 1] == Apply(c, states[k], actions[k]);
    if serial <= 0xFFFF && Gt06.IsAscii(text) && |text| <= 243 {
      Gt06.CommandReadsBack(text, serial);
    }
  }

  /** The text of a GPS103 command. */
  lemma TextCommandReads(imei: Imei, code: TextCode)
    requires CommandImei(imei)
    ensures Gt06.Decode(TextCommand(imei, code)) == "**,imei:" + imei + (if code.Locate? then ",B;" else ",K;")
  {
    TextIsAscii(imei, code);
    Gt06.DecodeInvertsEncode(TextOf(imei, code.Letter()));
  }

  /** And one to a registered GPS103 device, likewise. */
  lemma TextSentExactly(
    c: Config, devices: map<Imei, DeviceId>, actions: seq<Action>, states: seq<State>, k: nat,
    imei: Imei, code: TextCode)
    requires Run(c, devices, actions, states) && k < |actions| && actions[k] == SendText(imei, code)
    ensures var s := states[k];
      if imei in s.maps.byImei && s.maps.byImei[imei].protocol == GPS103 && CommandImei(imei)
      then
        && |states[k + 1].sent| == |s.sent| + 1
        && states[k + 1] == s.(sent := s.sent + [states[k + 1].sent[|s.sent|]])
        && var m := states[k + 1].sent[|s.sent|];
        && m.conn == s.maps.byImei[imei].socket.uid
        && Gt06.Decode(m.bytes) == "**,imei:" + imei + (if code.Locate? then ",B;" else ",K;")
      else states[k + 1] == s
  {
    hide Live, TextCommand, CommandImei, Gt06.Decode;
    assert Enabled(c, states[k], actions[k]) && states[k + 1] == Apply(c, states[k], actions[k]);
    if CommandImei(imei) {
      TextCommandReads(imei, code);
    }
  }

  /** The poller's turn with one IMEI: the position request to whoever is registered for it then. */
  lemma PollSentExactly(
    c: Config, devices: map<Imei, DeviceId>, actions: seq<Action>, states: seq<State>, k: nat)
    requires Run(c, devices, actions, states) && k < |actions| && actions[k] == PollWrite
    ensures states[k].polling != []
    ensures var s, s' := states[k], states[k + 1];
      var imei, next := s.polling[0], s.(polling := s.polling[1..]);
      if imei in s.maps.byImei && CommandImei(imei)
      then
        && |s'.sent| == |s.sent| + 1
        && s' == next.(sent := s.sent + [s'.sent[|s.sent|]])
        && s'.sent[|s.sent|].conn == s.maps.byImei[imei].socket.uid
        && Gt06.Decode(s'.sent[|s.sent|].bytes) == "**,imei:" + imei + ",B;"
      else s' == next
  {
    hide Live, TextCommand, CommandImei, Gt06.Decode;
    assert Enabled(c, states[k], actions[k]) && states[k + 1] == Apply(c, states[k], actions[k]);
    if CommandImei(states[k].polling[0]) {
      TextCommandReads(states[k].polling[0], Locate);
    }
  }

  // ------------------------------------------------------------------
  // A device's session from its first bytes to its first row
  // ------------------------------------------------------------------

  /** The connection as it is now, changed in place. */
  function With(s: State, u: nat, k: Conn): State
    requires u < |s.conns|
  {
    s.(conns := s.conns[u := k])
  }

  /** The first three steps: recognised, asked, let in. */
  lemma LetIn(c: Config, s: State, u: nat, first: Bytes, imei: Imei)
    requires u < |s.conns| && s.conns[u].phase.Probing? && !s.conns[u].closed
    requires DetectProtocol(first, c.enabled).Some? && imei in s.devices
    ensures var k, family, device := s.conns[u], DetectProtocol(first, c.enabled), s.devices[imei];
      && Enabled(c, s, Identify(u, first))
      && var s1 := Apply(c, s, Identify(u, first));
      && Enabled(c, s1, LoginFrame(u, imei))
      && var s2 := Apply(c, s1, LoginFrame(u, imei));
      && Enabled(c, s2, LoginAnswer(u, Some(device)))
      && Apply(c, s2, LoginAnswer(u, Some(device)))
      == With(s, u, Conn(k.socket, family, Writing(imei, device), k.imei, false, k.logins + [imei])).(
              maps := Maps(s.maps.byImei[imei := Entry(device, family.value, k.socket)],
                           KeysAfter(s, imei)[k.socket.address := imei]))
  {
    hide Live, DetectProtocol, BoundImei, OwnEntry;
    var k, family, device := s.conns[u], DetectProtocol(first, c.enabled), s.devices[imei];
    var s1 := Apply(c, s, Identify(u, first));
    assert s1 == With(s, u, Conn(k.socket, family, Serving, k.imei, false, k.logins));
    var s2 := Apply(c, s1, LoginFrame(u, imei));
    assert s2 == With(s, u, Conn(k.socket, family, LookingUp(imei), k.imei, false, k.logins));
    RegisteredKeys(s, imei, Entry(device, family.value, k.socket));
  }

  lemma RegisteredKeys(s: State, imei: Imei, e: Entry)
    ensures Registered(s.maps, imei, e)
         == Maps(s.maps.byImei[imei := e], KeysAfter(s, imei)[e.socket.address := imei])
  {}

  /** The other four, on a connection just let in. */
  lemma FrameTaken(c: Config, s: State, u: nat, imei: Imei, claims: Option<Imei>)
    requires u < |s.conns| && s.conns[u].phase.Writing? && s.conns[u].phase.imei == imei && !s.conns[u].closed
    requires s.conns[u].logins != [] && s.conns[u].logins[|s.conns[u].logins| - 1] == imei
    requires s.conns[u].socket.address in s.maps.bySocket && s.maps.bySocket[s.conns[u].socket.address] == imei
    requires imei in s.maps.byImei && s.maps.byImei[imei].device == s.conns[u].phase.device
    requires claims.None? || claims.value == imei
    ensures var k, device := s.conns[u], s.conns[u].phase.device;
      && Enabled(c, s, FrameDone(u, Some(imei)))
      && var s4 := Apply(c, s, FrameDone(u, Some(imei)));
      && Enabled(c, s4, DataFrame(u, claims))
      && var s5 := Apply(c, s4, DataFrame(u, claims));
      && Enabled(c, s5, WriteRow(u))
      && var s6 := Apply(c, s5, WriteRow(u));
      && Enabled(c, s6, FrameDone(u, Some(imei)))
      && Apply(c, s6, FrameDone(u, Some(imei)))
      == With(s, u, Conn(k.socket, k.family, Serving, Some(imei), false, k.logins)).(
              rows := s.rows + [Row(u, imei, device)])
  {
    hide Live;
    var k, device := s.conns[u], s.conns[u].phase.device;
    var s4 := Apply(c, s, FrameDone(u, Some(imei)));
    assert s4 == With(s, u, Conn(k.socket, k.family, Serving, Some(imei), false, k.logins));
    var s5 := Apply(c, s4, DataFrame(u, claims));
    assert s5 == With(s, u, Conn(k.socket, k.family, Writing(imei, device), Some(imei), false, k.logins));
  }

  /** The first bytes, a login that is let in, and one frame of that device with its row. */
  function FirstSession(c: Config, s: State, u: nat, first: Bytes, imei: Imei, claims: Option<Imei>): State
    requires u < |s.conns| && s.conns[u].phase.Probing? && !s.conns[u].closed
    requires DetectProtocol(first, c.enabled).Some? && imei in s.devices
    requires claims.None? || claims.value == imei
  {
    LetIn(c, s, u, first, imei);
    var s1 := Apply(c, s, Identify(u, first));
    var s2 := Apply(c, s1, LoginFrame(u, imei));
    var s3 := Apply(c, s2, LoginAnswer(u, Some(s.devices[imei])));
    FrameTaken(c, s3, u, imei, claims);
    var s4 := Apply(c, s3, FrameDone(u, Some(imei)));
    var s5 := Apply(c, s4, DataFrame(u, claims));
    var s6 := Apply(c, s5, WriteRow(u));
    Apply(c, s6, FrameDone(u, Some(imei)))
  }

  /**
   Every one of these steps can be taken, and they end with the connection
   registered for its IMEI, one new row under that IMEI's device, and the
   connection waiting for its next frame.
   */
  lemma FirstSessionWritesRow(c: Config, s: State, u: nat, first: Bytes, imei: Imei, claims: Option<Imei>)
    requires u < |s.conns| && s.conns[u].phase.Probing? && !s.conns[u].closed
    requires Sniff(first).Some? && Sniff(first).value in c.enabled && imei in s.devices
    requires claims.None? || claims.value == imei
    ensures var s', k := FirstSession(c, s, u, first, imei, claims), s.conns[u];
      s' == s.(rows := s.rows + [Row(u, imei, s.devices[imei])],
               maps := Maps(s.maps.byImei[imei := Entry(s.devices[imei], Sniff(first).value, k.socket)],
                            KeysAfter(s, imei)[k.socket.address := imei]),
               conns := s.conns[u := Conn(k.socket, Sniff(first), Serving, Some(imei), false, k.logins + [imei])])
  {
    hide Live, Sniff, Apply, Enabled, KeysAfter;
    LetIn(c, s, u, first, imei);
    var s2 := Apply(c, Apply(c, s, Identify(u, first)), LoginFrame(u, imei));
    FrameTaken(c, Apply(c, s2, LoginAnswer(u, Some(s.devices[imei]))), u, imei, claims);
  }

  // ------------------------------------------------------------------
  // The end of a connection
  // ------------------------------------------------------------------

  /** What a handler does next if nothing more comes from its device. */
  function TowardsEnd(s: State, u: nat): Action
    requires u < |s.conns|
  {
    match s.conns[u].phase
    case GoingOffline(_, _) => OfflineDone(u)
    case Closing => Release(u)
    case Probing => Stop(u)
    case Serving => Stop(u)
    case _ => FrameDone(u, None)
  }

  function StepsLeft(p: Phase): nat {
    match p
    case Gone => 0
    case Leaked => 0
    case Closing => 1
    case GoingOffline(_, _) => 2
    case Probing => 3
    case Serving => 3
    case _ => 4
  }

  lemma EndComesNearer(c: Config, s: State, u: nat)
    requires u < |s.conns| && StepsLeft(s.conns[u].phase) > 0
    ensures Enabled(c, s, TowardsEnd(s, u))
    ensures u < |Apply(c, s, TowardsEnd(s, u)).conns|
    ensures StepsLeft(Apply(c, s, TowardsEnd(s, u)).conns[u].phase) < StepsLeft(s.conns[u].phase)
  {
    hide Live, OwnEntry;
  }

  /** A handler left to itself. */
  function Ended(c: Config, s: State, u: nat): State
    requires u < |s.conns|
    decreases StepsLeft(s.conns[u].phase)
  {
    if StepsLeft(s.conns[u].phase) == 0 then s
    else
      EndComesNearer(c, s, u);
      Ended(c, Apply(c, s, TowardsEnd(s, u)), u)
  }

  /** The IMEI a teardown looks up: the handler's own, or else the one under its socket's address. */
  function CleanupImei(s: State, u: nat): Option<Imei>
    requires u < |s.conns|
  {
    var k := s.conns[u];
    if k.imei.Some? then k.imei
    else if k.socket.address in s.maps.bySocket then Some(s.maps.bySocket[k.socket.address]) else None
  }

  /**
   At most four steps end a connection between two frames or inside one, and
   nothing can keep a handler from taking them: its slot is free again, its
   writer closed, and if the IMEI it is known by is registered for its own
   socket, that entry and its key are gone and the device is marked offline.
   */
  lemma HandlerEnds(c: Config, s: State, u: nat)
    requires u < |s.conns| && StepsLeft(s.conns[u].phase) >= 3
    ensures var s', k, imei := Ended(c, s, u), s.conns[u], CleanupImei(s, u);
      var gone := Conn(k.socket, k.family, Gone, k.imei, true, k.logins);
      if imei.Some? && imei.value in s.maps.byImei && s.maps.byImei[imei.value].socket == k.socket
      then
        s' == s.(count := s.count - 1, conns := s.conns[u := gone],
                 maps := Maps(s.maps.byImei - {imei.value}, s.maps.bySocket - {k.socket.address}),
                 offline := s.offline + [Offline(u, imei.value, s.maps.byImei[imei.value].device)])
      else s' == s.(count := s.count - 1, conns := s.conns[u := gone])
  {
    hide Live;
    var k := s.conns[u];
    if StepsLeft(k.phase) == 4 {
      var s1 := Apply(c, s, FrameDone(u, None));
      assert Ended(c, s, u) == Ended(c, s1, u);
      BetweenFramesEnds(c, s1, u);
      assert s1.conns[u] == Conn(k.socket, k.family, Serving, k.imei, k.closed, k.logins);
    } else {
      BetweenFramesEnds(c, s, u);
    }
  }

  lemma BetweenFramesEnds(c: Config, s: State, u: nat)
    requires u < |s.conns| && StepsLeft(s.conns[u].phase) == 3
    ensures var s', k, imei := Ended(c, s, u), s.conns[u], CleanupImei(s, u);
      var gone := Conn(k.socket, k.family, Gone, k.imei, true, k.logins);
      if imei.Some? && imei.value in s.maps.byImei && s.maps.byImei[imei.value].socket == k.socket
      then
        s' == s.(count := s.count - 1, conns := s.conns[u := gone],
                 maps := Maps(s.maps.byImei - {imei.value}, s.maps.bySocket - {k.socket.address}),
                 offline := s.offline + [Offline(u, imei.value, s.maps.byImei[imei.value].device)])
      else s' == s.(count := s.count - 1, conns := s.conns[u := gone])
  {
    hide Live;
    var k := s.conns[u];
    var s1 := Apply(c, s, Stop(u));
    assert Ended(c, s, u) == Ended(c, s1, u);
    hide Ended;
    if s1.conns[u].phase.GoingOffline? {
      TakenDown(c, s1, u);
    } else {
      ClosingEnds(c, s1, u);
    }
  }

  lemma ClosingEnds(c: Config, s: State, u: nat)
    requires u < |s.conns| && s.conns[u].phase.Closing?
    ensures var k := s.conns[u];
      Ended(c, s, u)
      == With(s, u, Conn(k.socket, k.family, Gone, k.imei, true, k.logins)).(count := s.count - 1)
  {
    hide Live;
    var s1 := Apply(c, s, Release(u));
    assert Ended(c, s1, u) == s1;
  }

  lemma TakenDown(c: Config, s: State, u: nat)
    requires u < |s.conns| && s.conns[u].phase.GoingOffline?
    ensures var k := s.conns[u];
      Ended(c, s, u)
      == With(s, u, Conn(k.socket, k.family, Gone, k.imei, true, k.logins)).(
              count := s.count - 1, maps := Unregistered(s.maps, k.phase.imei),
              offline := s.offline + [Offline(u, k.phase.imei, k.phase.device)])
  {
    hide Live, Unregistered;
    var s1 := Apply(c, s, OfflineDone(u));
    assert Ended(c, s, u) == Ended(c, s1, u);
    hide Ended;
    ClosingEnds(c, s1, u);
  }
}
