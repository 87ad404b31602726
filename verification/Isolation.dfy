/** Family isolation: everything written to a device socket is in that device's own format. */
module Isolation {
  import opened Common
  import opened Bytes
  import opened Detect
  import opened Registry
  import opened Connections
  import opened ConnectionSafety
  import Gt06

  /** No device switches to another family while its poll request is on the way. */
  predicate Steady(s: State, a: Action) {
    (&& a.LoginAnswer? && a.answer.Some? && a.u < |s.conns| && s.conns[a.u].phase.LookingUp?
     && s.conns[a.u].phase.imei in s.polling)
    ==> s.conns[a.u].family == Some(GPS103)
  }

  /** Those selected for polling that are still registered speak GPS103. */
  ghost predicate PollingSound(s: State) {
    forall i :: i in s.polling && i in s.maps.byImei ==> s.maps.byImei[i].protocol == GPS103
  }

  ghost predicate SentSound(s: State, m: Sent) {
    m.conn < |s.conns| && s.conns[m.conn].family.Some? && InFormat(s.conns[m.conn].family.value, m.bytes)
  }

  ghost predicate AllSentSound(s: State) {
    forall m :: m in s.sent ==> SentSound(s, m)
  }

  lemma StepKeepsPolling(c: Config, s: State, a: Action)
    requires Sound(s) && PollingSound(s) && Enabled(c, s, a) && Steady(s, a)
    ensures PollingSound(Apply(c, s, a))
  {
    hide EntriesSound, AddressesApart, KeysCurrent, RowsSound, DetectProtocol, OwnEntry, BoundImei, ImeiBySocket, Live,
         CommandImei, Gt06.CommandFor, TextCommand;
    if Ordinary(a) {
      hide HandlersSound;
      OrdinaryKeepsMaps(c, s, a);
      PollingOfStep(c, s, a);
    } else if a.LoginAnswer? {
      assert HandlerSound(s, s.conns[a.u]);
    }
  }

  lemma PollingOfStep(c: Config, s: State, a: Action)
    requires Enabled(c, s, a)
    ensures !a.PollSelect? && !a.PollWrite? ==> Apply(c, s, a).polling == s.polling
    ensures a.PollSelect? ==> Apply(c, s, a).polling == a.due
    ensures a.PollWrite? ==> s.polling != [] && Apply(c, s, a).polling == s.polling[1..]
  {
    hide DetectProtocol, OwnEntry, BoundImei, ImeiBySocket, Registered, Unregistered, Live, CommandImei, Finished,
         Gt06.CommandFor, TextCommand;
  }

  /** An entry's protocol is the family detected for the very connection it holds. */
  lemma EntryFamily(s: State, imei: Imei)
    requires Sound(s) && imei in s.maps.byImei
    ensures var e := s.maps.byImei[imei];
      e.socket.uid < |s.conns| && s.conns[e.socket.uid].socket == e.socket
      && s.conns[e.socket.uid].family == Some(e.protocol)
  {
    assert EntrySound(s, imei);
  }

  /** In every run the registry names, for every IMEI, the family its connection was detected as. */
  lemma ProtocolIsFamily(
    c: Config, devices: map<Imei, DeviceId>, actions: seq<Action>, states: seq<State>, k: nat, imei: Imei)
    requires Run(c, devices, actions, states) && k < |states| && imei in states[k].maps.byImei
    ensures var s, e := states[k], states[k].maps.byImei[imei];
      && e.socket.uid < |s.conns| && s.conns[e.socket.uid].socket == e.socket
      && s.conns[e.socket.uid].family == Some(e.protocol)
  {
    hide Sound;
    RunsAreSound(c, devices, actions, states, k);
    EntryFamily(states[k], imei);
  }

  predicate Sends(a: Action) {
    a.SendCommand? || a.SendText? || a.PollWrite? || a.Answer?
  }

  lemma AnswerInFormat(c: Config, s: State, u: nat, reply: Reply)
    requires Enabled(c, s, Answer(u, reply))
    ensures Apply(c, s, Answer(u, reply)).conns == s.conns
    ensures s.sent <= Apply(c, s, Answer(u, reply)).sent
    ensures var s' := Apply(c, s, Answer(u, reply)); forall m :: m in s'.sent[|s.sent|..] ==> SentSound(s', m)
  {
    hide CommandFormat, ReplyFormat, Live, HandlerFor;
    RepliesFit(s.conns[u].family.value, reply);
  }

  /** A command or poll request, if the step writes one, is in the format of the connection it goes to. */
  lemma CommandInFormat(c: Config, s: State, a: Action)
    requires Sound(s) && Enabled(c, s, a) && (a.SendCommand? || a.SendText? || a.PollWrite?)
    requires a.PollWrite? ==> PollingSound(s)
    ensures Apply(c, s, a).conns == s.conns
    ensures s.sent <= Apply(c, s, a).sent
    ensures forall m :: m in Apply(c, s, a).sent[|s.sent|..] ==>
      && SentSound(Apply(c, s, a), m)
      && CommandFormat(Apply(c, s, a).conns[m.conn].family.value, m.bytes)
  {
    hide Sound, TextCommand, Gt06.IsFrame, Gt06.Sealed, Gt06.CommandFrame, Gt06.IsAscii, CommandImei, Live, ReplyFormat;
    var imei := if a.PollWrite? then s.polling[0] else a.imei;
    if imei in s.maps.byImei {
      EntryFamily(s, imei);
      if a.SendCommand? {
        if Gt06.CommandFor(a.text, a.serial).Frame? {
          Gt06.CommandReadsBack(a.text, a.serial);
        }
      }
    }
  }

  /** What one sending step writes is in the format of the connection it goes to. */
  lemma NewSentSound(c: Config, s: State, a: Action)
    requires Sound(s) && Enabled(c, s, a) && Sends(a) && (a.PollWrite? ==> PollingSound(s))
    ensures Apply(c, s, a).conns == s.conns
    ensures s.sent <= Apply(c, s, a).sent
    ensures forall m :: m in Apply(c, s, a).sent[|s.sent|..] ==> SentSound(Apply(c, s, a), m)
  {
    hide Sound, InFormat, Enabled, Apply, PollingSound;
    if a.Answer? {
      AnswerInFormat(c, s, a.u, a.reply);
    } else {
      CommandInFormat(c, s, a);
    }
  }

  lemma SentOfStep(c: Config, s: State, a: Action)
    requires Enabled(c, s, a) && !Sends(a)
    ensures Apply(c, s, a).sent == s.sent
  {
    hide DetectProtocol, OwnEntry, BoundImei, ImeiBySocket, Registered, Unregistered, Live, CommandImei, Finished,
         Gt06.CommandFor, TextCommand;
  }

  lemma StepKeepsSent(c: Config, s: State, a: Action)
    requires Sound(s) && PollingSound(s) && AllSentSound(s) && Enabled(c, s, a)
    ensures AllSentSound(Apply(c, s, a))
  {
    hide Sound, InFormat, Enabled, Apply, PollingSound;
    var s' := Apply(c, s, a);
    if Sends(a) {
      NewSentSound(c, s, a);
      assert s'.sent == s.sent + s'.sent[|s.sent|..];
    } else {
      SentOfStep(c, s, a);
    }
    forall m | m in s'.sent
      ensures SentSound(s', m)
    {
      if m in s.sent {
        FamilyStays(c, s, a, m.conn);
      }
    }
  }

  lemma FamilyStays(c: Config, s: State, a: Action, u: nat)
    requires Sound(s) && Enabled(c, s, a) && u < |s.conns| && s.conns[u].family.Some?
    ensures u < |Apply(c, s, a).conns| && Apply(c, s, a).conns[u].family == s.conns[u].family
  {
    hide EntriesSound, AddressesApart, KeysCurrent, RowsSound, Live, Registered, Unregistered;
    if Ordinary(a) {
      hide Apply, Enabled;
      OrdinaryUntouched(c, s, a);
    }
  }

  /**
   In every run in which no device changes family between being selected for
   polling and being polled, everything written to a device socket - answers,
   commands and poll requests - is in the format of the family detected for
   that socket's connection.
   Answers are so by the choice of the handler; the content is in the commands
   and poll requests, which find their socket through the registry.
   */
  lemma {:induction false} FamiliesIsolated(
    c: Config, devices: map<Imei, DeviceId>, actions: seq<Action>, states: seq<State>, k: nat)
    requires Run(c, devices, actions, states) && k < |states|
    requires forall i :: 0 <= i < k ==> Steady(states[i], actions[i])
    ensures PollingSound(states[k]) && AllSentSound(states[k])
    decreases k
  {
    hide Sound, Apply, Enabled, PollingSound, AllSentSound, Steady;
    if k == 0 {
      NothingSentYet(devices);
    } else {
      FamiliesIsolated(c, devices, actions, states, k - 1);
      RunsAreSound(c, devices, actions, states, k - 1);
      StepKeepsPolling(c, states[k - 1], actions[k - 1]);
      StepKeepsSent(c, states[k - 1], actions[k - 1]);
    }
  }

  lemma NothingSentYet(devices: map<Imei, DeviceId>)
    ensures PollingSound(Start(devices)) && AllSentSound(Start(devices))
  {}

  /** Operator commands need no such hypothesis: in every run they reach only connections of their own family. */
  lemma CommandsKeepToTheirFamily(
    c: Config, devices: map<Imei, DeviceId>, actions: seq<Action>, states: seq<State>, k: nat, m: Sent)
    requires Run(c, devices, actions, states) && k < |actions|
    requires actions[k].SendCommand? || actions[k].SendText?
    requires m in states[k + 1].sent[|states[k].sent|..]
    ensures states[k].sent <= states[k + 1].sent
    ensures SentSound(states[k + 1], m)
    ensures states[k + 1].conns[m.conn].family != Some(TELTONIKA)
  {
    hide Sound;
    RunsAreSound(c, devices, actions, states, k);
    assert Enabled(c, states[k], actions[k]) && states[k + 1] == Apply(c, states[k], actions[k]);
    CommandInFormat(c, states[k], actions[k]);
  }

  /** The poller's write is in its connection's format exactly when the IMEI still belongs to a GPS103 device. */
  lemma PollInFormat(c: Config, s: State)
    requires Sound(s) && Enabled(c, s, PollWrite)
    requires s.polling[0] in s.maps.byImei && CommandImei(s.polling[0])
    ensures var s' := Apply(c, s, PollWrite);
      && |s'.sent| == |s.sent| + 1
      && (SentSound(s', s'.sent[|s.sent|]) <==> s.maps.byImei[s.polling[0]].protocol == GPS103)
  {
    hide Sound, TextCommand, CommandImei, Gt06.IsFrame, Gt06.Sealed, ReplyFormat;
    var imei := s.polling[0];
    EntryFamily(s, imei);
    assert CommandFormat(GPS103, TextCommand(imei, Locate));
    assert InFormat(GPS103, TextCommand(imei, Locate));
    if InFormat(s.maps.byImei[imei].protocol, TextCommand(imei, Locate)) {
      FormatsDisjoint(TextCommand(imei, Locate), s.maps.byImei[imei].protocol, GPS103);
    }
  }
}
