/** Runs from the start in which the hypotheses of the safety results fail, and what then happens. */
module Scenarios {
  import opened Common
  import opened Bytes
  import opened Detect
  import opened Registry
  import opened Connections
  import opened ConnectionSafety
  import opened Teardown
  import opened Isolation
  import Gt06
  import TeltonikaStream

  const TWO_SLOTS := Config(2, {GT06, GPS103, TELTONIKA})

  // ------------------------------------------------------------------
  // Building runs
  // ------------------------------------------------------------------

  /** First bytes from which a family is recognised. */
  function Greeting(f: Family): Bytes {
    match f
    case GT06 => [0x78, 0x78, 0x0D, 0x01, 0x03]
    case GPS103 => IMEI_TAG
    case TELTONIKA => [0x00, 0x0F, 0x33, 0x35, 0x36]
  }

  lemma GreetingTells(f: Family)
    ensures DetectProtocol(Greeting(f), TWO_SLOTS.enabled) == Some(f)
  {
    var b := Greeting(f);
    match f
    case GT06 => assert b[..2] == Gt06.SHORT_HEADER;
    case GPS103 => assert b[..2] != Gt06.SHORT_HEADER && b[..2] != Gt06.LONG_HEADER by { assert b[..2][0] == 0x69; }
    case TELTONIKA =>
      assert b[..2] == TeltonikaStream.LOGIN_PREFIX;
      assert b[0] != HASHES[0] && b[0] != IMEI_TAG[0];
  }

  function Asking(u: nat, address: nat, f: Family, imei: Imei): Conn {
    Conn(Socket(u, address), Some(f), LookingUp(imei), None, false, [])
  }

  lemma Extended(
    devices: map<Imei, DeviceId>, actions: seq<Action>, states: seq<State>, a: Action)
    returns (actions': seq<Action>, states': seq<State>)
    requires Run(TWO_SLOTS, devices, actions, states) && Enabled(TWO_SLOTS, states[|actions|], a)
    ensures Run(TWO_SLOTS, devices, actions', states') && |actions'| == |actions| + 1
    ensures actions'[|actions|] == a && states'[|actions|] == states[|actions|]
    ensures states'[|actions'|] == Apply(TWO_SLOTS, states[|actions|], a)
  {
    hide Enabled, Apply;
    actions', states' := actions + [a], states + [Apply(TWO_SLOTS, states[|actions|], a)];
  }

  /** A new connection that greets as a device of the family and asks to log in. */
  lemma Arrives(s: State, address: nat, f: Family, imei: Imei)
    requires 0 <= s.count < 2 && Enabled(TWO_SLOTS, s, Accept(address))
    ensures var u := |s.conns|;
      var s1 := Apply(TWO_SLOTS, s, Accept(address));
      && Enabled(TWO_SLOTS, s1, Identify(u, Greeting(f)))
      && var s2 := Apply(TWO_SLOTS, s1, Identify(u, Greeting(f)));
      && Enabled(TWO_SLOTS, s2, LoginFrame(u, imei))
      && Apply(TWO_SLOTS, s2, LoginFrame(u, imei))
         == s.(count := s.count + 1, conns := s.conns + [Asking(u, address, f, imei)])
  {
    hide Live, Greeting, DetectProtocol;
    GreetingTells(f);
  }

  /** A run carried on by the arrival of a new connection. */
  lemma Arrived(
    devices: map<Imei, DeviceId>, actions: seq<Action>, states: seq<State>, address: nat, f: Family, imei: Imei)
    returns (actions': seq<Action>, states': seq<State>)
    requires Run(TWO_SLOTS, devices, actions, states) && Enabled(TWO_SLOTS, states[|actions|], Accept(address))
    requires 0 <= states[|actions|].count < 2
    ensures Run(TWO_SLOTS, devices, actions', states') && |actions'| == |actions| + 3
    ensures var s := states[|actions|];
      states'[|actions'|] == s.(count := s.count + 1, conns := s.conns + [Asking(|s.conns|, address, f, imei)])
  {
    hide Run, Apply, Enabled, Greeting;
    assert |states| == |actions| + 1 by { RunLength(devices, actions, states); }
    var u := |states[|actions|].conns|;
    Arrives(states[|actions|], address, f, imei);
    actions', states' := Extended(devices, actions, states, Accept(address));
    actions', states' := Extended(devices, actions', states', Identify(u, Greeting(f)));
    actions', states' := Extended(devices, actions', states', LoginFrame(u, imei));
  }

  lemma RunLength(devices: map<Imei, DeviceId>, actions: seq<Action>, states: seq<State>)
    requires Run(TWO_SLOTS, devices, actions, states)
    ensures |states| == |actions| + 1
  {}

  /** One connection, logged in and waiting for its next frame. */
  function Served(imei: Imei, device: DeviceId, f: Family, first: nat): State {
    Start(map[imei := device]).(
      count := 1,
      maps := Maps(map[imei := Entry(device, f, Socket(0, first))], map[first := imei]),
      conns := [Conn(Socket(0, first), Some(f), Serving, Some(imei), false, [imei])])
  }

  lemma FirstSession(s: State, imei: Imei, device: DeviceId, f: Family, first: nat)
    requires s == Start(map[imei := device])
    ensures var s3 := s.(count := 1, conns := [Asking(0, first, f, imei)]);
      && Enabled(TWO_SLOTS, s3, LoginAnswer(0, Some(device)))
      && var s4 := Apply(TWO_SLOTS, s3, LoginAnswer(0, Some(device)));
      && Enabled(TWO_SLOTS, s4, FrameDone(0, Some(imei)))
      && Apply(TWO_SLOTS, s4, FrameDone(0, Some(imei))) == Served(imei, device, f, first)
  {
    hide Live;
    assert Asking(0, first, f, imei).logins + [imei] == [imei];
    var m := Maps(map[imei := Entry(device, f, Socket(0, first))], map[first := imei]);
    assert Registered(s.maps, imei, Entry(device, f, Socket(0, first))) == m;
  }

  lemma FirstVisit(imei: Imei, device: DeviceId, f: Family, first: nat)
    returns (actions: seq<Action>, states: seq<State>)
    ensures Run(TWO_SLOTS, map[imei := device], actions, states) && |actions| == 5
    ensures states[5] == Served(imei, device, f, first)
  {
    var devices := map[imei := device];
    var start := Start(devices);
    assert Run(TWO_SLOTS, devices, [], [start]);
    assert Enabled(TWO_SLOTS, start, Accept(first));
    hide Run, Apply, Enabled, Served, Asking;
    assert start.conns + [Asking(0, first, f, imei)] == [Asking(0, first, f, imei)];
    FirstSession(start, imei, device, f, first);
    actions, states := Arrived(devices, [], [start], first, f, imei);
    actions, states := Extended(devices, actions, states, LoginAnswer(0, Some(device)));
    actions, states := Extended(devices, actions, states, FrameDone(0, Some(imei)));
  }

  // ------------------------------------------------------------------
  // A login during the offline write
  // ------------------------------------------------------------------

  /** The first connection is being written offline while the second asks to log in. */
  function Leaving(imei: Imei, device: DeviceId, first: nat, second: nat): State {
    var served := Served(imei, device, GT06, first);
    served.(count := 2, conns := [served.conns[0].(phase := GoingOffline(imei, device)), Asking(1, second, GT06, imei)])
  }

  lemma Leaves(imei: Imei, device: DeviceId, first: nat, second: nat)
    ensures var served := Served(imei, device, GT06, first);
      var s8 := served.(count := 2, conns := served.conns + [Asking(1, second, GT06, imei)]);
      && Enabled(TWO_SLOTS, s8, Stop(0))
      && Apply(TWO_SLOTS, s8, Stop(0)) == Leaving(imei, device, first, second)
  {
    hide Live;
  }

  /** The second logs in, and the offline write of the first ends. */
  lemma Overtaken(imei: Imei, device: DeviceId, first: nat, second: nat)
    ensures var s9 := Leaving(imei, device, first, second);
      && Enabled(TWO_SLOTS, s9, LoginAnswer(1, Some(device)))
      && var s10 := Apply(TWO_SLOTS, s9, LoginAnswer(1, Some(device)));
      && Superseded(s10, 0)
      && Enabled(TWO_SLOTS, s10, OfflineDone(0))
      && var s11 := Apply(TWO_SLOTS, s10, OfflineDone(0));
      && imei !in s11.maps.byImei
      && |s11.conns| == 2 && s11.conns[1].phase == Writing(imei, device)
  {
    hide Live;
  }

  /**
   The second connection of a device logs in while the first is being written
   offline, and ends up unregistered though its handler goes on.
   */
  lemma LateLoginLosesEntry(imei: Imei, device: DeviceId, first: nat, second: nat)
    returns (actions: seq<Action>, states: seq<State>)
    requires first != second
    ensures Run(TWO_SLOTS, map[imei := device], actions, states) && |actions| == 11
    ensures actions[10] == OfflineDone(0) && Superseded(states[10], 0)
    ensures imei !in states[11].maps.byImei
    ensures |states[11].conns| == 2 && states[11].conns[1].phase == Writing(imei, device)
  {
    var devices := map[imei := device];
    assert Enabled(TWO_SLOTS, Served(imei, device, GT06, first), Accept(second));
    hide Run, Apply, Enabled, Superseded, Live;
    Leaves(imei, device, first, second);
    Overtaken(imei, device, first, second);
    actions, states := FirstVisit(imei, device, GT06, first);
    actions, states := Arrived(devices, actions, states, second, GT06, imei);
    actions, states := Extended(devices, actions, states, Stop(0));
    actions, states := Extended(devices, actions, states, LoginAnswer(1, Some(device)));
    actions, states := Extended(devices, actions, states, OfflineDone(0));
  }

  // ------------------------------------------------------------------
  // An offline write that raises
  // ------------------------------------------------------------------

  lemma Raised(imei: Imei, device: DeviceId, f: Family, first: nat)
    ensures var served := Served(imei, device, f, first);
      && Enabled(TWO_SLOTS, served, Stop(0))
      && var s6 := Apply(TWO_SLOTS, served, Stop(0));
      && Enabled(TWO_SLOTS, s6, OfflineRaised(0))
      && var s7 := Apply(TWO_SLOTS, s6, OfflineRaised(0));
      && s7.count == 1 && |s7.conns| == 1 && s7.conns[0].phase.Leaked?
  {
    hide Live;
  }

  /** The one connection there was is gone, and its slot is still counted. */
  lemma RaisingWriteLeaksSlot(imei: Imei, device: DeviceId, f: Family, first: nat)
    returns (actions: seq<Action>, states: seq<State>)
    ensures Run(TWO_SLOTS, map[imei := device], actions, states) && |actions| == 7
    ensures Running(states[7].conns) == 0 && states[7].count == 1
  {
    var devices := map[imei := device];
    hide Run, Apply, Enabled, Served;
    Raised(imei, device, f, first);
    actions, states := FirstVisit(imei, device, f, first);
    actions, states := Extended(devices, actions, states, Stop(0));
    actions, states := Extended(devices, actions, states, OfflineRaised(0));
    RunLength(devices, actions, states);
    assert states[7].conns[1..] == [];
  }

  // ------------------------------------------------------------------
  // A socket that logs in under two IMEIs
  // ------------------------------------------------------------------

  /** The connection of `Served`, logged in under a second IMEI as well. */
  function ServedTwice(imei: Imei, device: DeviceId, other: Imei, second: DeviceId, f: Family, first: nat): State {
    Served(imei, device, f, first).(
      devices := map[imei := device, other := second],
      maps := Maps(map[imei := Entry(device, f, Socket(0, first)), other := Entry(second, f, Socket(0, first))],
                   map[first := other]),
      conns := [Conn(Socket(0, first), Some(f), Serving, Some(other), false, [imei, other])])
  }

  /** The connection of `Served`, asking to log in under a second IMEI. */
  function AskingAgain(imei: Imei, device: DeviceId, other: Imei, second: DeviceId, f: Family, first: nat): State {
    Served(imei, device, f, first).(
      devices := map[imei := device, other := second],
      conns := [Conn(Socket(0, first), Some(f), LookingUp(other), Some(imei), false, [imei])])
  }

  lemma AsksAgain(imei: Imei, device: DeviceId, other: Imei, second: DeviceId, f: Family, first: nat)
    requires imei != other
    ensures var s5 := Served(imei, device, f, first);
      && Enabled(TWO_SLOTS, s5, NewDevice(other, second))
      && var s6 := Apply(TWO_SLOTS, s5, NewDevice(other, second));
      && Enabled(TWO_SLOTS, s6, LoginFrame(0, other))
      && Apply(TWO_SLOTS, s6, LoginFrame(0, other)) == AskingAgain(imei, device, other, second, f, first)
  {
    hide Live;
    assert Served(imei, device, f, first).devices[other := second] == map[imei := device, other := second];
  }

  lemma LogsInAgain(imei: Imei, device: DeviceId, other: Imei, second: DeviceId, f: Family, first: nat)
    requires imei != other
    ensures var s7 := AskingAgain(imei, device, other, second, f, first);
      && Enabled(TWO_SLOTS, s7, LoginAnswer(0, Some(second)))
      && var s8 := Apply(TWO_SLOTS, s7, LoginAnswer(0, Some(second)));
      && Enabled(TWO_SLOTS, s8, FrameDone(0, Some(other)))
      && Apply(TWO_SLOTS, s8, FrameDone(0, Some(other))) == ServedTwice(imei, device, other, second, f, first)
  {
    hide Live;
    assert Registered(Served(imei, device, f, first).maps, other, Entry(second, f, Socket(0, first)))
        == ServedTwice(imei, device, other, second, f, first).maps;
    assert [imei] + [other] == [imei, other];
  }

  /** Being written offline under the second IMEI. */
  function SecondLeaving(imei: Imei, device: DeviceId, other: Imei, second: DeviceId, f: Family, first: nat): State {
    var s := ServedTwice(imei, device, other, second, f, first);
    s.(conns := [s.conns[0].(phase := GoingOffline(other, second))])
  }

  lemma StartsTeardown(imei: Imei, device: DeviceId, other: Imei, second: DeviceId, f: Family, first: nat)
    requires imei != other
    ensures var s9 := ServedTwice(imei, device, other, second, f, first);
      && Enabled(TWO_SLOTS, s9, Stop(0))
      && Apply(TWO_SLOTS, s9, Stop(0)) == SecondLeaving(imei, device, other, second, f, first)
  {
    hide Live;
  }

  lemma TornDownOnce(imei: Imei, device: DeviceId, other: Imei, second: DeviceId, f: Family, first: nat)
    requires imei != other
    ensures var s10 := SecondLeaving(imei, device, other, second, f, first);
      && Enabled(TWO_SLOTS, s10, OfflineDone(0))
      && var s11 := Apply(TWO_SLOTS, s10, OfflineDone(0));
      && Enabled(TWO_SLOTS, s11, Release(0))
      && var s12 := Apply(TWO_SLOTS, s11, Release(0));
      && |s12.conns| == 1 && s12.conns[0].phase.Gone? && s12.conns[0].closed
      && imei in s12.maps.byImei && s12.maps.byImei[imei].socket.uid == 0
  {
    hide Live;
  }

  /** The connection is gone, its writer closed, and the entry of its first IMEI still holds it. */
  lemma SecondImeiLeavesEntry(imei: Imei, device: DeviceId, other: Imei, second: DeviceId, f: Family, first: nat)
    returns (actions: seq<Action>, states: seq<State>)
    requires imei != other
    ensures Run(TWO_SLOTS, map[imei := device], actions, states) && |actions| == 12
    ensures |states[12].conns| == 1 && states[12].conns[0].phase.Gone? && states[12].conns[0].closed
    ensures imei in states[12].maps.byImei && states[12].maps.byImei[imei].socket.uid == 0
  {
    var devices := map[imei := device];
    hide Run, Apply, Enabled, Served, AskingAgain, ServedTwice, SecondLeaving;
    AsksAgain(imei, device, other, second, f, first);
    LogsInAgain(imei, device, other, second, f, first);
    StartsTeardown(imei, device, other, second, f, first);
    TornDownOnce(imei, device, other, second, f, first);
    actions, states := FirstVisit(imei, device, f, first);
    actions, states := Extended(devices, actions, states, NewDevice(other, second));
    actions, states := Extended(devices, actions, states, LoginFrame(0, other));
    actions, states := Extended(devices, actions, states, LoginAnswer(0, Some(second)));
    actions, states := Extended(devices, actions, states, FrameDone(0, Some(other)));
    actions, states := Extended(devices, actions, states, Stop(0));
    actions, states := Extended(devices, actions, states, OfflineDone(0));
    actions, states := Extended(devices, actions, states, Release(0));
  }

  // ------------------------------------------------------------------
  // A device that changes family between selection and poll
  // ------------------------------------------------------------------

  /** The first connection was selected for polling, and the second logs in. */
  function Selected(imei: Imei, device: DeviceId, first: nat, second: nat): State {
    var served := Served(imei, device, GPS103, first);
    served.(count := 2, polling := [imei], conns := served.conns + [Asking(1, second, GT06, imei)])
  }

  lemma Selects(imei: Imei, device: DeviceId, first: nat, second: nat)
    ensures var s5 := Served(imei, device, GPS103, first);
      && Enabled(TWO_SLOTS, s5, PollSelect([imei]))
      && var s6 := Apply(TWO_SLOTS, s5, PollSelect([imei]));
      && s6 == s5.(polling := [imei])
      && s6.(count := s6.count + 1, conns := s6.conns + [Asking(|s6.conns|, second, GT06, imei)])
         == Selected(imei, device, first, second)
  {
    hide Live;
  }

  lemma Polled(imei: Imei, device: DeviceId, first: nat, second: nat)
    requires CommandImei(imei)
    ensures var s9 := Selected(imei, device, first, second);
      && Enabled(TWO_SLOTS, s9, LoginAnswer(1, Some(device)))
      && var s10 := Apply(TWO_SLOTS, s9, LoginAnswer(1, Some(device)));
      && Enabled(TWO_SLOTS, s10, PollWrite)
      && var s11 := Apply(TWO_SLOTS, s10, PollWrite);
      && s11.sent == [Sent(1, TextCommand(imei, Locate))]
      && |s11.conns| == 2 && s11.conns[1].family == Some(GT06)
  {
    hide Live, TextCommand, CommandImei;
  }

  /**
   A device selected for polling reconnects as a GT06 device before its turn,
   and is written a GPS103 command.
   */
  lemma PollGoesAstray(imei: Imei, device: DeviceId, first: nat, second: nat)
    returns (actions: seq<Action>, states: seq<State>)
    requires first != second && CommandImei(imei)
    ensures Run(TWO_SLOTS, map[imei := device], actions, states) && |actions| == 11
    ensures actions[10] == PollWrite
    ensures |states[11].conns| == 2 && states[11].conns[1].family == Some(GT06)
    ensures states[11].sent == [Sent(1, TextCommand(imei, Locate))]
    ensures !SentSound(states[11], states[11].sent[0])
  {
    var devices := map[imei := device];
    var s5 := Served(imei, device, GPS103, first);
    assert Enabled(TWO_SLOTS, s5.(polling := [imei]), Accept(second));
    assert CommandFormat(GPS103, TextCommand(imei, Locate));
    if InFormat(GT06, TextCommand(imei, Locate)) {
      FormatsDisjoint(TextCommand(imei, Locate), GT06, GPS103);
    }
    hide Run, Apply, Enabled, Live, TextCommand, CommandImei, InFormat;
    Selects(imei, device, first, second);
    Polled(imei, device, first, second);
    actions, states := FirstVisit(imei, device, GPS103, first);
    actions, states := Extended(devices, actions, states, PollSelect([imei]));
    actions, states := Arrived(devices, actions, states, second, GT06, imei);
    actions, states := Extended(devices, actions, states, LoginAnswer(1, Some(device)));
    actions, states := Extended(devices, actions, states, PollWrite);
  }
}
