/**
 The GPS103 poller: which connected trackers are asked for a position, and how
 often. Times are in milliseconds.
 */
module Poller {
  import opened Common
  import opened Detect

  /** The configured intervals; config.py never lets the idle one be the shorter. */
  datatype Intervals = Intervals(moving: nat, idle: nat) {
    predicate Valid() {
      0 < moving <= idle
    }
  }

  /** What the poller reads of a registry entry. */
  datatype View = View(
    protocol: Family, connectedAt: int, lastPositionAt: Option<int>, lastSpeed: Option<real>, lastPollAt: Option<int>)

  function IntervalFor(c: Intervals, e: View): nat {
    if e.lastSpeed.Some? && e.lastSpeed.value > 0.0 then c.moving else c.idle
  }

  /** The last sign of life that matters: a stored position or the connection, and the last poll. */
  function Newest(e: View): int {
    var since := if e.lastPositionAt.Some? then e.lastPositionAt.value else e.connectedAt;
    if e.lastPollAt.Some? && e.lastPollAt.value > since then e.lastPollAt.value else since
  }

  predicate Due(c: Intervals, e: View, now: int) {
    e.protocol == GPS103 && now - Newest(e) >= IntervalFor(c, e)
  }

  /** note_position: a position was stored now, at this speed. */
  function Noted(e: View, now: int, speed: Option<real>): View {
    e.(lastPositionAt := Some(now), lastSpeed := speed)
  }

  /** After a stored position a tracker is due again when the interval its speed gives is over, and not before. */
  lemma NotedRests(c: Intervals, e: View, now: int, speed: Option<real>, later: int)
    requires e.protocol == GPS103 && (e.lastPollAt.Some? ==> e.lastPollAt.value <= now)
    ensures Due(c, Noted(e, now, speed), later) <==>
      later - now >= (if speed.Some? && speed.value > 0.0 then c.moving else c.idle)
  {}

  // ------------------------------------------------------------------
  // One pass over the registry
  // ------------------------------------------------------------------

  /** A registry entry is shared and changed in place. */
  class Entry {
    var protocol: Family
    var connectedAt: int
    var lastPositionAt: Option<int>
    var lastSpeed: Option<real>
    var lastPollAt: Option<int>

    function Read(): View
      reads this
    {
      View(protocol, connectedAt, lastPositionAt, lastSpeed, lastPollAt)
    }

    constructor (protocol: Family, now: int)
      ensures Read() == View(protocol, now, None, None, None)
    {
      this.protocol, connectedAt := protocol, now;
      lastPositionAt, lastSpeed, lastPollAt := None, None, None;
    }

    method NotePosition(now: int, speed: Option<real>)
      modifies this
      ensures Read() == Noted(old(Read()), now, speed)
    {
      lastPositionAt, lastSpeed := Some(now), speed;
    }
  }

  /** Every IMEI is selected at most once, and exactly those that are due. */
  method DueDevices(c: Intervals, devices: map<Imei, Entry>, now: int) returns (due: seq<Imei>)
    ensures forall imei :: imei in due <==> imei in devices && Due(c, devices[imei].Read(), now)
    ensures forall i, j :: 0 <= i < j < |due| ==> due[i] != due[j]
  {
    due := [];
    var left := devices.Keys;
    while left != {}
      invariant left <= devices.Keys
      invariant forall imei :: imei in due <==>
        imei in devices && imei !in left && Due(c, devices[imei].Read(), now)
      invariant forall i, j :: 0 <= i < j < |due| ==> due[i] != due[j]
    {
      var imei :| imei in left;
      left := left - {imei};
      var entry := devices[imei];
      if entry.protocol == GPS103 {
        var since := if entry.lastPositionAt.Some? then entry.lastPositionAt.value else entry.connectedAt;
        var newest :=
          if entry.lastPollAt.Some? && entry.lastPollAt.value > since then entry.lastPollAt.value else since;
        if now - newest >= IntervalFor(c, entry.Read()) {
          due := due + [imei];
        }
      }
    }
  }

  /** Whether, and when, a socket took the request written to it. */
  datatype Turn = Undrained | DrainedAt(time: int)

  predicate Stamps(imei: Imei, found: map<Imei, Entry>, turns: map<Imei, Turn>) {
    imei in found && imei in turns && turns[imei].DrainedAt?
  }

  /**
   Goes through the selected IMEIs one by one. While it waits for one socket,
   devices reconnect or leave: `found` is the entry the registry holds for each
   IMEI when its turn comes, if it holds one, not the entry that was due.
   */
  method PollEach(due: seq<Imei>, found: map<Imei, Entry>, turns: map<Imei, Turn>)
    returns (sent: nat, written: seq<Entry>)
    requires forall a, b :: a in found && b in found && a != b ==> found[a] != found[b]
    requires forall i, j :: 0 <= i < j < |due| ==> due[i] != due[j]
    modifies found.Values
    ensures forall imei :: imei in found ==>
      found[imei].Read() ==
        if imei in due && Stamps(imei, found, turns)
        then old(found[imei].Read()).(lastPollAt := Some(turns[imei].time)) else old(found[imei].Read())
    ensures sent == |set imei | imei in due && Stamps(imei, found, turns)|
    ensures written == WrittenTo(due, found)
  {
    hide WrittenTo;
    sent, written := 0, [];
    NothingWritten(found);
    assert due[..0] == [];
    ghost var polled: set<Imei> := {};
    for i := 0 to |due|
      invariant polled == set imei | imei in due[..i] && Stamps(imei, found, turns)
      invariant sent == |polled|
      invariant written == WrittenTo(due[..i], found)
      invariant forall imei :: imei in found ==>
        found[imei].Read() ==
          if imei in polled then old(found[imei].Read()).(lastPollAt := Some(turns[imei].time))
          else old(found[imei].Read())
    {
      var imei := due[i];
      assert imei in due;
      assert due[..i + 1] == due[..i] + [imei];
      WrittenStep(due, i, found);
      if imei in found {
        written := written + [found[imei]];
        if imei in turns && turns[imei].DrainedAt? {
          assert imei !in polled;
          found[imei].lastPollAt := Some(turns[imei].time);
          polled := polled + {imei};
          sent := sent + 1;
        }
      }
    }
    assert due[..|due|] == due;
  }

  /** The entries written to: those found for the selected IMEIs, in their order. */
  function WrittenTo(due: seq<Imei>, found: map<Imei, Entry>): seq<Entry>
    decreases |due|
  {
    if due == [] then []
    else
      WrittenTo(due[..|due| - 1], found)
      + if due[|due| - 1] in found then [found[due[|due| - 1]]] else []
  }

  lemma NothingWritten(found: map<Imei, Entry>)
    ensures WrittenTo([], found) == []
  {}

  lemma WrittenStep(due: seq<Imei>, i: nat, found: map<Imei, Entry>)
    requires i < |due|
    ensures WrittenTo(due[..i + 1], found)
         == WrittenTo(due[..i], found) + if due[i] in found then [found[due[i]]] else []
  {
    assert due[..i + 1][..i] == due[..i];
  }

  lemma {:induction false} WrittenToFound(due: seq<Imei>, found: map<Imei, Entry>, e: Entry)
    ensures e in WrittenTo(due, found) <==> exists imei :: imei in due && imei in found && found[imei] == e
    decreases |due|
  {
    if due != [] {
      var front, last := due[..|due| - 1], due[|due| - 1];
      WrittenToFound(front, found, e);
      assert due == front + [last];
    }
  }

  /**
   One pass: of the IMEIs that are due when it begins, each that the registry
   still holds at its turn is written to on the socket it has then, exactly the
   entries whose socket takes the request are stamped, nobody else is touched,
   and the count says how many.
   */
  method PollOnce(c: Intervals, devices: map<Imei, Entry>, now: int, found: map<Imei, Entry>, turns: map<Imei, Turn>)
    returns (sent: nat, written: seq<Entry>)
    requires forall a, b :: a in found && b in found && a != b ==> found[a] != found[b]
    modifies found.Values
    ensures forall imei :: imei in found ==>
      found[imei].Read() ==
        if imei in devices && old(Due(c, devices[imei].Read(), now)) && Stamps(imei, found, turns)
        then old(found[imei].Read()).(lastPollAt := Some(turns[imei].time)) else old(found[imei].Read())
    ensures sent == |set imei | imei in devices && old(Due(c, devices[imei].Read(), now)) && Stamps(imei, found, turns)|
    ensures forall e :: e in written <==>
      exists imei :: imei in devices && old(Due(c, devices[imei].Read(), now)) && imei in found && found[imei] == e
  {
    hide Due, IntervalFor, Newest, Stamps, WrittenTo;
    var due := DueDevices(c, devices, now);
    sent, written := PollEach(due, found, turns);
    forall e
      ensures e in written <==> exists imei :: imei in due && imei in found && found[imei] == e
    {
      WrittenToFound(due, found, e);
    }
    assert (set imei | imei in due && Stamps(imei, found, turns))
        == set imei | imei in devices && old(Due(c, devices[imei].Read(), now)) && Stamps(imei, found, turns);
  }

  /**
   A tracker is due exactly when it speaks GPS103 and neither its last stored
   position (or its connection, before the first one) nor its last poll falls
   within its interval: the moving one after a position with speed, the idle one
   otherwise.
   */
  lemma DueExactly(c: Intervals, e: View, now: int)
    ensures Due(c, e, now) <==>
      var interval := if e.lastSpeed.Some? && e.lastSpeed.value > 0.0 then c.moving else c.idle;
      && e.protocol == GPS103
      && now - (if e.lastPositionAt.Some? then e.lastPositionAt.value else e.connectedAt) >= interval
      && (e.lastPollAt.Some? ==> now - e.lastPollAt.value >= interval)
  {}

  // ------------------------------------------------------------------
  // Whole runs, for one IMEI: its registrations come and go while passes run
  // ------------------------------------------------------------------

  /** A registration of the IMEI and the times it was polled at, in order. */
  datatype Registration = Registration(view: View, polls: seq<int>)

  /** Where the poller's current pass stands with this IMEI. */
  datatype Pass =
    | Resting
    | Selected(at: int)                      // it was due when the pass began
    | Writing(registration: nat, at: int)    // the request went to this registration's socket

  /** All registrations ever; `current` is the one in the registry, if any. */
  datatype State = State(clock: int, registrations: seq<Registration>, current: Option<nat>, pass: Pass)

  datatype Action =
    | Tick(now: int)
    | Register(protocol: Family)
    | Unregister
    | Position(speed: Option<real>)          // note_position on the entry in the registry
    | Select                                 // a pass begins and finds the IMEI due
    | Ignore                                 // a pass begins and does not
    | Fetch                                  // the pass reaches the IMEI and writes to its socket
    | Drained                                // the socket took the request
    | Failed                                 // it did not, or the IMEI is gone

  predicate HasEntry(s: State) {
    s.current.Some? && s.current.value < |s.registrations|
  }

  predicate Enabled(c: Intervals, s: State, a: Action) {
    match a
    case Tick(now) => now >= s.clock
    case Register(_) => true
    case Unregister => true
    case Position(_) => HasEntry(s)
    case Select => s.pass.Resting? && HasEntry(s) && Due(c, s.registrations[s.current.value].view, s.clock)
    case Ignore => s.pass.Resting? && !(HasEntry(s) && Due(c, s.registrations[s.current.value].view, s.clock))
    case Fetch => s.pass.Selected? && HasEntry(s)
    case Drained => s.pass.Writing? && s.pass.registration < |s.registrations|
    case Failed => !s.pass.Resting?
  }

  function Apply(c: Intervals, s: State, a: Action): State
    requires Enabled(c, s, a)
  {
    match a
    case Tick(now) => s.(clock := now)
    case Register(protocol) =>
      s.(registrations := s.registrations + [Registration(View(protocol, s.clock, None, None, None), [])],
         current := Some(|s.registrations|))
    case Unregister => s.(current := None)
    case Position(speed) =>
      var r := s.registrations[s.current.value];
      s.(registrations := s.registrations[s.current.value := r.(view := Noted(r.view, s.clock, speed))])
    case Select => s.(pass := Selected(s.clock))
    case Ignore => s
    case Fetch => s.(pass := Writing(s.current.value, s.pass.at))
    case Drained =>
      var r := s.registrations[s.pass.registration];
      s.(registrations := s.registrations[s.pass.registration :=
           Registration(r.view.(lastPollAt := Some(s.clock)), r.polls + [s.clock])],
         pass := Resting)
    case Failed => s.(pass := Resting)
  }

  ghost predicate Run(c: Intervals, actions: seq<Action>, states: seq<State>) {
    && |states| == |actions| + 1
    && states[0].registrations == [] && states[0].current.None? && states[0].pass.Resting?
    && forall i :: 0 <= i < |actions| ==>
         Enabled(c, states[i], actions[i]) && states[i + 1] == Apply(c, states[i], actions[i])
  }

  ghost predicate Spaced(c: Intervals, polls: seq<int>) {
    forall i :: 0 <= i < |polls| - 1 ==> polls[i + 1] - polls[i] >= c.moving
  }

  /** Polled long enough before time `at`, or never. */
  predicate Rested(c: Intervals, r: Registration, at: int) {
    r.polls == [] || at - r.polls[|r.polls| - 1] >= c.moving
  }

  ghost predicate Sound(c: Intervals, s: State) {
    && (forall i :: 0 <= i < |s.registrations| ==>
          var r := s.registrations[i];
          && Spaced(c, r.polls)
          && r.view.lastPollAt == (if r.polls == [] then None else Some(r.polls[|r.polls| - 1])))
    && (s.pass.Selected? ==>
          s.pass.at <= s.clock && (HasEntry(s) ==> Rested(c, s.registrations[s.current.value], s.pass.at)))
    && (s.pass.Writing? ==>
          && s.pass.registration < |s.registrations| && s.pass.at <= s.clock
          && Rested(c, s.registrations[s.pass.registration], s.pass.at))
  }

  lemma StepKeepsSound(c: Intervals, s: State, a: Action)
    requires c.Valid() && Sound(c, s) && Enabled(c, s, a)
    ensures Sound(c, Apply(c, s, a))
  {
    hide Spaced;
    if a.Drained? {
      var r := s.registrations[s.pass.registration];
      SpacedPush(c, r.polls, s.clock);
    } else if a.Register? {
      SpacedEmpty(c);
    }
  }

  lemma SpacedEmpty(c: Intervals)
    ensures Spaced(c, [])
  {}

  lemma SpacedPush(c: Intervals, polls: seq<int>, t: int)
    requires Spaced(c, polls)
    requires polls == [] || t - polls[|polls| - 1] >= c.moving
    ensures Spaced(c, polls + [t])
  {
    var all := polls + [t];
    forall i | 0 <= i < |all| - 1
      ensures all[i + 1] - all[i] >= c.moving
    {
      if i < |polls| - 1 {
        assert polls[i + 1] - polls[i] >= c.moving;
      }
    }
  }

  lemma {:induction false} RunIsSound(c: Intervals, actions: seq<Action>, states: seq<State>, k: nat)
    requires c.Valid() && Run(c, actions, states) && k < |states|
    ensures Sound(c, states[k])
    decreases k
  {
    hide Apply, Enabled, Spaced;
    if k > 0 {
      RunIsSound(c, actions, states, k - 1);
      StepKeepsSound(c, states[k - 1], actions[k - 1]);
    }
  }

  lemma {:induction false} SpacedSpan(c: Intervals, polls: seq<int>, i: nat, j: nat)
    requires Spaced(c, polls) && i <= j < |polls|
    ensures polls[j] - polls[i] >= (j - i) * c.moving
    decreases j
  {
    if i < j {
      SpacedSpan(c, polls, i, j - 1);
      assert polls[j - 1 + 1] - polls[j - 1] >= c.moving;
      assert (j - i) * c.moving == (j - 1 - i) * c.moving + c.moving;
    }
  }

  /**
   Poll rate. Whatever connects, reconnects, reports or hangs up between a
   pass's selection and its writes, the successful polls of one registration
   are at least the moving interval apart, so any window of length `span`
   holds at most one more poll than intervals that fit into it.
   */
  lemma PollRate(c: Intervals, actions: seq<Action>, states: seq<State>, k: nat, r: nat, i: nat, j: nat, span: int)
    requires c.Valid() && Run(c, actions, states) && k < |states| && r < |states[k].registrations|
    requires i <= j < |states[k].registrations[r].polls|
    requires states[k].registrations[r].polls[j] - states[k].registrations[r].polls[i] <= span
    ensures var polls := states[k].registrations[r].polls;
      && (forall n :: 0 <= n < |polls| - 1 ==> polls[n + 1] - polls[n] >= c.moving)
      && (j - i) * c.moving <= span
  {
    RunIsSound(c, actions, states, k);
    SpacedSpan(c, states[k].registrations[r].polls, i, j);
  }
}
