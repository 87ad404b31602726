/**
 Every connection handler of the gateway at once, interleaving wherever the
 original awaits: logins, frames and their database writes, teardown, the slot
 counter, and the commands written to device sockets.
 */
module Connections {
  import opened Common
  import opened Bytes
  import opened Detect
  import opened Registry
  import Gt06
  import Teltonika
  import TeltonikaStream

  // ------------------------------------------------------------------
  // State
  // ------------------------------------------------------------------

  datatype Phase =
    | Probing                                     // nothing received yet
    | Serving                                     // between two frames
    | LookingUp(imei: Imei)                       // a login frame waits for the allowlist
    | Replying(imei: Imei)                        // a heartbeat was answered; its device is looked up next
    | Writing(imei: Imei, device: DeviceId)       // a frame's rows are being written
    | GoingOffline(imei: Imei, device: DeviceId)  // teardown found its own entry and writes it offline
    | Closing                                     // waiting for the writer, slot still held
    | Gone                                        // slot released
    | Leaked                                      // the offline write raised out of the teardown

  /** `imei` is the handler's own variable, `logins` the IMEIs its socket logged in under, in order. */
  datatype Conn = Conn(
    socket: Socket, family: Option<Family>, phase: Phase, imei: Option<Imei>, closed: bool, logins: seq<Imei>)

  /** A row written for a frame, with the IMEI its socket had last logged in under at that moment. */
  datatype Row = Row(conn: nat, imei: Imei, device: DeviceId)

  datatype Offline = Offline(conn: nat, imei: Imei, device: DeviceId)

  datatype Sent = Sent(conn: nat, bytes: Bytes)

  /** Connections are numbered in order of acceptance; a socket's uid is its number. */
  datatype State = State(
    count: int, maps: Maps, conns: seq<Conn>, devices: map<Imei, DeviceId>,
    rows: seq<Row>, offline: seq<Offline>, sent: seq<Sent>, polling: seq<Imei>)

  datatype Config = Config(maxConnections: nat, enabled: set<Family>)

  datatype Action =
    | Accept(address: nat)
    | Identify(u: nat, first: Bytes)                  // the first bytes are in
    | LoginFrame(u: nat, imei: Imei)
    | NewDevice(imei: Imei, id: DeviceId)             // some lookup registers a device
    | LoginAnswer(u: nat, answer: Option<DeviceId>)
    | DataFrame(u: nat, claims: Option<Imei>)         // `claims`: the IMEI a GPS103 message names
    | Heartbeat(u: nat, named: Imei)
    | HeartbeatResumes(u: nat)
    | WriteRow(u: nat)
    | FrameDone(u: nat, returned: Option<Imei>)
    | Stop(u: nat)                                    // end of stream, timeout or framer error
    | OfflineDone(u: nat)
    | OfflineRaised(u: nat)
    | Release(u: nat)
    | Answer(u: nat, reply: Reply)                    // a handler writes to its own device
    | SendCommand(imei: Imei, text: string, serial: nat)
    | SendText(imei: Imei, code: TextCode)
    | PollSelect(due: seq<Imei>)
    | PollWrite

  /** The frame handlers, and the protocol each of them passes to register_device. */
  datatype Handler = ProcessPacket | ProcessGps103Message | ProcessTeltonikaFrame {
    function Registers(): Family {
      match this
      case ProcessPacket => GT06
      case ProcessGps103Message => GPS103
      case ProcessTeltonikaFrame => TELTONIKA
    }
  }

  /** The handler the pipeline table pairs with a family. */
  function HandlerFor(f: Family): Handler {
    match f
    case GT06 => ProcessPacket
    case GPS103 => ProcessGps103Message
    case TELTONIKA => ProcessTeltonikaFrame
  }

  function LastLogin(k: Conn): Option<Imei> {
    if k.logins == [] then None else Some(k.logins[|k.logins| - 1])
  }

  /** Still referenced: by its handler, or by a registry entry. */
  predicate Live(s: State, u: nat) {
    || (u < |s.conns| && !s.conns[u].phase.Gone? && !s.conns[u].phase.Leaked?)
    || exists i :: i in s.maps.byImei && s.maps.byImei[i].socket.uid == u
  }

  // ------------------------------------------------------------------
  // What is written to device sockets
  // ------------------------------------------------------------------

  /** The IMEIs the text command builder accepts. */
  predicate CommandImei(imei: Imei) {
    10 <= |imei| <= 17 && forall c :: c in imei ==> '0' <= c <= '9'
  }

  /** The two codes the builder implements: report the position, restore the engine relay. */
  datatype TextCode = Locate | Resume {
    function Letter(): string {
      if Locate? then "B" else "K"
    }
  }

  function TextOf(imei: Imei, letter: string): string {
    "**,imei:" + imei + "," + letter + ";"
  }

  function TextCommand(imei: Imei, code: TextCode): Bytes
    requires CommandImei(imei)
  {
    TextIsAscii(imei, code);
    Gt06.Encode(TextOf(imei, code.Letter()))
  }

  lemma TextIsAscii(imei: Imei, code: TextCode)
    requires CommandImei(imei)
    ensures Gt06.IsAscii(TextOf(imei, code.Letter()))
  {}

  /** What a command or poll request to each family looks like. */
  ghost predicate CommandFormat(f: Family, b: Bytes) {
    match f
    case GT06 => Gt06.IsFrame(b) && Gt06.Sealed(b)
    case GPS103 => exists imei, code :: CommandImei(imei) && b == TextCommand(imei, code)
    case TELTONIKA => false
  }

  const LOAD: Bytes := [0x4C, 0x4F, 0x41, 0x44]
  const ON: Bytes := [0x4F, 0x4E]
  const LOGIN_ACCEPT: Bytes := [0x01]

  /**
   What the three handlers answer their own devices with. A handler is chosen by
   its connection's family, so answers are in format by construction; that no
   answer or command of one family could be another's is FormatsDisjoint.
   */
  datatype Reply =
    | Acknowledge(packet: Bytes)
    | Load
    | On
    | HelpMe(imei: Imei)
    | LoginAccept
    | Count(accepted: nat)
  {
    predicate By(h: Handler) {
      match h
      case ProcessPacket => Acknowledge? && Gt06.IsFrame(packet)
      case ProcessGps103Message => Load? || On? || (HelpMe? && Gt06.IsAscii(TextOf(imei, "E")))
      case ProcessTeltonikaFrame => LoginAccept? || (Count? && accepted <= 255)
    }

    function Wire(h: Handler): Bytes
      requires By(h)
    {
      match this
      case Acknowledge(packet) => Gt06.AckEchoes(packet); Gt06.BuildAck(packet).value
      case Load => LOAD
      case On => ON
      case HelpMe(imei) => Gt06.Encode(TextOf(imei, "E"))
      case LoginAccept => LOGIN_ACCEPT
      case Count(n) => Sizes(); TeltonikaStream.Ack(n)
    }
  }

  /** The answers each family's devices know. */
  ghost predicate ReplyFormat(f: Family, b: Bytes) {
    match f
    case GT06 => exists packet :: Gt06.IsFrame(packet) && Gt06.BuildAck(packet) == Some(b)
    case GPS103 =>
      b == LOAD || b == ON || exists imei :: Gt06.IsAscii(TextOf(imei, "E")) && b == Gt06.Encode(TextOf(imei, "E"))
    case TELTONIKA => b == LOGIN_ACCEPT || (|b| == 4 && FromBE(b) <= 255)
  }

  /** What may be written to a socket of each family. */
  ghost predicate InFormat(f: Family, b: Bytes) {
    CommandFormat(f, b) || ReplyFormat(f, b)
  }

  lemma RepliesFit(f: Family, reply: Reply)
    requires reply.By(HandlerFor(f))
    ensures ReplyFormat(f, reply.Wire(HandlerFor(f)))
  {
    hide Gt06.IsFrame, Gt06.BuildAck, Gt06.Sealed, Gt06.Encode, Gt06.IsAscii;
    if reply.Acknowledge? {
      Gt06.AckEchoes(reply.packet);
    }
  }

  lemma CommandStarts(b: Bytes, f: Family)
    requires CommandFormat(f, b)
    ensures |b| > 0 && !f.TELTONIKA?
    ensures if f.GT06? then b[0] == 0x78 || b[0] == 0x79 else b[0] == 0x2A
  {
    hide Gt06.Sealed;
    match f
    case GT06 =>
      assert b[..2][0] == b[0];
    case GPS103 =>
      var imei, code :| CommandImei(imei) && b == TextCommand(imei, code);
      assert TextOf(imei, code.Letter())[0] == '*';
    case TELTONIKA =>
  }

  lemma ReplyStarts(b: Bytes, f: Family)
    requires ReplyFormat(f, b)
    ensures |b| > 0
    ensures match f
      case GT06 => b[0] == 0x78
      case GPS103 => b[0] == 0x4C || b[0] == 0x4F || b[0] == 0x2A
      case TELTONIKA => b[0] == 0x00 || b[0] == 0x01
  {
    hide FromBE;
    match f
    case GT06 =>
      var packet :| Gt06.IsFrame(packet) && Gt06.BuildAck(packet) == Some(b);
    case GPS103 =>
      if b != LOAD && b != ON {
        var imei :| Gt06.IsAscii(TextOf(imei, "E")) && b == Gt06.Encode(TextOf(imei, "E"));
        assert TextOf(imei, "E")[0] == '*';
      }
    case TELTONIKA =>
      if b != LOGIN_ACCEPT {
        Teltonika.TopByteOfSmall(b);
      }
  }

  /** No bytes the gateway writes to one family's devices could have been meant for another's. */
  lemma FormatsDisjoint(b: Bytes, f: Family, g: Family)
    requires InFormat(f, b) && InFormat(g, b)
    ensures f == g
  {
    hide CommandFormat, ReplyFormat;
    forall h | InFormat(h, b)
      ensures |b| > 0
      ensures match h
        case GT06 => b[0] == 0x78 || b[0] == 0x79
        case GPS103 => b[0] == 0x4C || b[0] == 0x4F || b[0] == 0x2A
        case TELTONIKA => b[0] == 0x00 || b[0] == 0x01
    {
      if CommandFormat(h, b) {
        CommandStarts(b, h);
      } else {
        ReplyStarts(b, h);
      }
    }
  }

  // ------------------------------------------------------------------
  // Steps
  // ------------------------------------------------------------------

  predicate At(s: State, u: nat) {
    u < |s.conns|
  }

  /** Before the first frame, or past the last one. */
  predicate Finished(p: Phase) {
    p.Probing? || p.GoingOffline? || p.Closing? || p.Gone? || p.Leaked?
  }

  predicate Enabled(c: Config, s: State, a: Action) {
    match a
    // id() never equals that of an object still alive.
    case Accept(address) => forall u :: 0 <= u < |s.conns| && Live(s, u) ==> s.conns[u].socket.address != address
    case Identify(u, _) => At(s, u) && s.conns[u].phase.Probing?
    case LoginFrame(u, _) => At(s, u) && s.conns[u].phase.Serving? && !s.conns[u].closed
    case NewDevice(imei, _) => imei !in s.devices
    case LoginAnswer(u, answer) =>
      && At(s, u) && s.conns[u].phase.LookingUp?
      && (answer.Some? ==> s.conns[u].phase.imei in s.devices && s.devices[s.conns[u].phase.imei] == answer.value)
    case DataFrame(u, _) => At(s, u) && s.conns[u].phase.Serving? && !s.conns[u].closed
    case Heartbeat(u, _) =>
      At(s, u) && s.conns[u].phase.Serving? && !s.conns[u].closed && s.conns[u].family == Some(GPS103)
    case HeartbeatResumes(u) => At(s, u) && s.conns[u].phase.Replying?
    case WriteRow(u) => At(s, u) && s.conns[u].phase.Writing?
    case FrameDone(u, returned) =>
      // A handler may also end early: the lookup found no database, the reply could not be sent.
      && At(s, u) && !Finished(s.conns[u].phase)
      && (returned.Some? ==>
            || (s.conns[u].phase.Writing? && returned.value == s.conns[u].phase.imei)
            || returned == ImeiBySocket(s.maps, s.conns[u].socket))
    case Stop(u) => At(s, u) && (s.conns[u].phase.Probing? || s.conns[u].phase.Serving?)
    case OfflineDone(u) => At(s, u) && s.conns[u].phase.GoingOffline?
    case OfflineRaised(u) => At(s, u) && s.conns[u].phase.GoingOffline?
    case Release(u) => At(s, u) && s.conns[u].phase.Closing?
    // Writing to a closed writer has no effect.
    case Answer(u, reply) =>
      && At(s, u) && !Finished(s.conns[u].phase) && !s.conns[u].closed
      && s.conns[u].family.Some? && reply.By(HandlerFor(s.conns[u].family.value))
    case SendCommand(_, _, _) => true
    case SendText(_, _) => true
    case PollSelect(due) =>
      forall i :: 0 <= i < |due| ==> due[i] in s.maps.byImei && s.maps.byImei[due[i]].protocol == GPS103
    case PollWrite => s.polling != []
  }

  function InPhase(s: State, u: nat, p: Phase): State
    requires At(s, u)
  {
    s.(conns := s.conns[u := s.conns[u].(phase := p)])
  }

  /** The handler closes its writer and goes on to the next frame, which it will not be given. */
  function Dropped(s: State, u: nat): State
    requires At(s, u)
  {
    s.(conns := s.conns[u := s.conns[u].(phase := Serving, closed := true)])
  }

  /** The IMEI a frame is attributed to: that of the socket, if the message names no other. */
  function BoundImei(s: State, u: nat, claims: Option<Imei>): Option<Imei>
    requires At(s, u)
  {
    var bound := ImeiBySocket(s.maps, s.conns[u].socket);
    if bound.Some? && claims.Some? && claims != bound then None else bound
  }

  /** The entry the teardown would take down: found by the handler's IMEI or else by its socket. */
  function OwnEntry(s: State, u: nat): Option<Imei>
    requires At(s, u)
  {
    var k := s.conns[u];
    var cleanup := if k.imei.Some? then k.imei else ImeiBySocket(s.maps, k.socket);
    if cleanup.Some? && cleanup.value in s.maps.byImei && s.maps.byImei[cleanup.value].socket == k.socket
    then cleanup else None
  }

  function Write(s: State, imei: Imei, bytes: Bytes): State
    requires imei in s.maps.byImei
  {
    s.(sent := s.sent + [Sent(s.maps.byImei[imei].socket.uid, bytes)])
  }

  function Apply(c: Config, s: State, a: Action): State
    requires Enabled(c, s, a)
  {
    match a
    case Accept(address) =>
      if s.count >= c.maxConnections then s
      else s.(count := s.count + 1,
              conns := s.conns + [Conn(Socket(|s.conns|, address), None, Probing, None, false, [])])
    case Identify(u, first) =>
      var family := DetectProtocol(first, c.enabled);
      if family.None? then Stopped(s, u)
      else s.(conns := s.conns[u := s.conns[u].(family := family, phase := Serving)])
    case LoginFrame(u, imei) => InPhase(s, u, LookingUp(imei))
    case NewDevice(imei, id) => s.(devices := s.devices[imei := id])
    case LoginAnswer(u, answer) =>
      if answer.Some? && s.conns[u].family.Some? then
        LoggedIn(s, u, s.conns[u].phase.imei, answer.value, s.conns[u].family.value)
      else if s.conns[u].family == Some(GT06) then InPhase(s, u, Serving)
      else Dropped(s, u)
    case DataFrame(u, claims) =>
      var bound := BoundImei(s, u, if s.conns[u].family == Some(GPS103) then claims else None);
      if bound.None? then Dropped(s, u)
      else if bound.value in s.maps.byImei then
        InPhase(s, u, Writing(bound.value, s.maps.byImei[bound.value].device))
      else s
    case Heartbeat(u, named) =>
      var bound := BoundImei(s, u, Some(named));
      if bound.None? then Dropped(s, u) else InPhase(s, u, Replying(bound.value))
    case HeartbeatResumes(u) =>
      var imei := s.conns[u].phase.imei;
      if imei in s.maps.byImei then InPhase(s, u, Writing(imei, s.maps.byImei[imei].device))
      else InPhase(s, u, Serving)
    case WriteRow(u) =>
      var k := s.conns[u];
      if k.logins == [] then s.(rows := s.rows + [Row(u, "", k.phase.device)])
      else s.(rows := s.rows + [Row(u, k.logins[|k.logins| - 1], k.phase.device)])
    case FrameDone(u, returned) =>
      var k := s.conns[u];
      s.(conns := s.conns[u := k.(phase := Serving, imei := if returned.Some? then returned else k.imei)])
    case Stop(u) => Stopped(s, u)
    case OfflineDone(u) =>
      var p := s.conns[u].phase;
      InPhase(s, u, Closing).(maps := Unregistered(s.maps, p.imei),
                              offline := s.offline + [Offline(u, p.imei, p.device)])
    case OfflineRaised(u) => InPhase(s, u, Leaked)
    case Release(u) =>
      s.(count := s.count - 1, conns := s.conns[u := s.conns[u].(phase := Gone, closed := true)])
    case Answer(u, reply) => s.(sent := s.sent + [Sent(u, reply.Wire(HandlerFor(s.conns[u].family.value)))])
    case SendCommand(imei, text, serial) =>
      if imei in s.maps.byImei && s.maps.byImei[imei].protocol == GT06 && Gt06.CommandFor(text, serial).Frame?
      then Write(s, imei, Gt06.CommandFor(text, serial).bytes) else s
    case SendText(imei, code) =>
      if imei in s.maps.byImei && s.maps.byImei[imei].protocol == GPS103 && CommandImei(imei)
      then Write(s, imei, TextCommand(imei, code)) else s
    case PollSelect(due) => s.(polling := due)
    case PollWrite =>
      var imei := s.polling[0];
      var s' := s.(polling := s.polling[1..]);
      if imei in s.maps.byImei && CommandImei(imei) then Write(s', imei, TextCommand(imei, Locate)) else s'
  }

  /** Taken by one handler, on its own connection. */
  predicate OwnStep(a: Action) {
    || a.Identify? || a.LoginFrame? || a.LoginAnswer? || a.DataFrame? || a.Heartbeat? || a.HeartbeatResumes?
    || a.WriteRow? || a.FrameDone? || a.Stop? || a.OfflineDone? || a.OfflineRaised? || a.Release?
  }

  /** register_device, and the handler goes on to its bookkeeping writes. */
  function LoggedIn(s: State, u: nat, imei: Imei, device: DeviceId, family: Family): State
    requires At(s, u)
  {
    var k := s.conns[u];
    s.(maps := Registered(s.maps, imei, Entry(device, HandlerFor(family).Registers(), k.socket)),
       conns := s.conns[u := k.(phase := Writing(imei, device), logins := k.logins + [imei])])
  }

  /** The start of the finally block: take down one's own registration, or nothing. */
  function Stopped(s: State, u: nat): State
    requires At(s, u)
  {
    var own := OwnEntry(s, u);
    if own.Some? then InPhase(s, u, GoingOffline(own.value, s.maps.byImei[own.value].device))
    else InPhase(s, u, Closing)
  }

  function Start(devices: map<Imei, DeviceId>): State {
    State(0, Maps(map[], map[]), [], devices, [], [], [], [])
  }

  ghost predicate Run(c: Config, devices: map<Imei, DeviceId>, actions: seq<Action>, states: seq<State>) {
    && |states| == |actions| + 1
    && states[0] == Start(devices)
    && forall i :: 0 <= i < |actions| ==>
         Enabled(c, states[i], actions[i]) && states[i + 1] == Apply(c, states[i], actions[i])
  }

  /** A step changes the connection of the handler that takes it, and no other. */
  lemma StepsAreLocal(c: Config, s: State, a: Action)
    requires Enabled(c, s, a) && !a.Accept?
    ensures OwnStep(a) ==> a.u < |s.conns| && Apply(c, s, a).conns == s.conns[a.u := Apply(c, s, a).conns[a.u]]
    ensures !OwnStep(a) ==> Apply(c, s, a).conns == s.conns
  {
    hide DetectProtocol, OwnEntry, BoundImei, ImeiBySocket, Registered, Unregistered, Live, Finished, CommandImei,
         Gt06.CommandFor, TextCommand;
  }

  // ------------------------------------------------------------------
  // Slots
  // ------------------------------------------------------------------

  /** The handlers that still hold a slot: those running, and those whose teardown raised. */
  function Holding(conns: seq<Conn>): nat {
    if conns == [] then 0
    else (if conns[0].phase.Gone? then 0 else 1) + Holding(conns[1..])
  }

  function Running(conns: seq<Conn>): nat {
    if conns == [] then 0
    else (if conns[0].phase.Gone? || conns[0].phase.Leaked? then 0 else 1) + Running(conns[1..])
  }

  function Leaks(conns: seq<Conn>): nat {
    if conns == [] then 0 else (if conns[0].phase.Leaked? then 1 else 0) + Leaks(conns[1..])
  }

  lemma {:induction false} HoldingSplits(conns: seq<Conn>)
    ensures Holding(conns) == Running(conns) + Leaks(conns)
  {
    if conns != [] {
      HoldingSplits(conns[1..]);
    }
  }

  lemma {:induction false} HoldingUpdate(conns: seq<Conn>, u: nat, k: Conn)
    requires u < |conns|
    ensures Holding(conns[u := k]) == Holding(conns)
      - (if conns[u].phase.Gone? then 0 else 1) + (if k.phase.Gone? then 0 else 1)
  {
    if u == 0 {
      assert conns[u := k][1..] == conns[1..];
    } else {
      assert conns[u := k][1..] == conns[1..][u - 1 := k];
      HoldingUpdate(conns[1..], u - 1, k);
    }
  }

  lemma {:induction false} HoldingAppend(conns: seq<Conn>, k: Conn)
    ensures Holding(conns + [k]) == Holding(conns) + if k.phase.Gone? then 0 else 1
  {
    if conns == [] {
      assert (conns + [k])[1..] == [];
    } else {
      assert (conns + [k])[1..] == conns[1..] + [k];
      HoldingAppend(conns[1..], k);
    }
  }

  ghost predicate SlotsSound(c: Config, s: State) {
    s.count == Holding(s.conns) <= c.maxConnections
  }

  /** What one step does to the counter and to the slot of the handler that takes it. */
  lemma SlotsOfStep(c: Config, s: State, a: Action)
    requires Enabled(c, s, a) && !a.Accept?
    ensures a.Release? ==>
      Apply(c, s, a).count == s.count - 1 && !s.conns[a.u].phase.Gone? && Apply(c, s, a).conns[a.u].phase.Gone?
    ensures !a.Release? ==> Apply(c, s, a).count == s.count
    ensures OwnStep(a) && !a.Release? ==> (s.conns[a.u].phase.Gone? <==> Apply(c, s, a).conns[a.u].phase.Gone?)
  {
    hide DetectProtocol, OwnEntry, BoundImei, ImeiBySocket, Registered, Unregistered, Live, CommandImei,
         Gt06.CommandFor, TextCommand;
  }

  lemma StepKeepsSlots(c: Config, s: State, a: Action)
    requires SlotsSound(c, s) && Enabled(c, s, a)
    ensures SlotsSound(c, Apply(c, s, a))
  {
    if a.Accept? {
      hide Holding, Live;
      HoldingAppend(s.conns, Conn(Socket(|s.conns|, a.address), None, Probing, None, false, []));
    } else {
      hide Holding, Enabled, Apply;
      StepsAreLocal(c, s, a);
      SlotsOfStep(c, s, a);
      if OwnStep(a) {
        HoldingUpdate(s.conns, a.u, Apply(c, s, a).conns[a.u]);
      }
    }
  }

  lemma {:induction false} SlotsHold(
    c: Config, devices: map<Imei, DeviceId>, actions: seq<Action>, states: seq<State>, k: nat)
    requires Run(c, devices, actions, states) && k < |states|
    ensures SlotsSound(c, states[k])
    decreases k
  {
    hide Apply, Enabled;
    if k > 0 {
      SlotsHold(c, devices, actions, states, k - 1);
      StepKeepsSlots(c, states[k - 1], actions[k - 1]);
    }
  }

  /**
   In every run, whatever interleaves, the slot counter stays within 0 and the
   cap and equals the handlers still running plus those whose offline write
   raised; so it equals the running handlers exactly when none has raised.
   */
  lemma SlotsConserved(c: Config, devices: map<Imei, DeviceId>, actions: seq<Action>, states: seq<State>, k: nat)
    requires Run(c, devices, actions, states) && k < |states|
    ensures 0 <= states[k].count <= c.maxConnections
    ensures states[k].count == Running(states[k].conns) + Leaks(states[k].conns)
  {
    SlotsHold(c, devices, actions, states, k);
    HoldingSplits(states[k].conns);
  }
}
