/** The relay, the channel and the worker as one system of steps. */
module HoldRelay {
  import opened Prelude
  import opened Hold

  // -- The relay -----------------------------------------------------------

  /** `RecordingState`. */
  datatype Relay = Relay(recording: bool, holding: bool)

  /** One mute change: the new state and the commands sent. */
  function RelayMic(r: Relay, muted: bool, terminalFocused: bool): (Relay, seq<Cmd>) {
    if muted && r.recording then RelayStop(r)
    else if !muted && !r.recording then
      if terminalFocused then (Relay(true, true), [Start]) else (Relay(true, r.holding), [])
    else (r, [])
  }

  /** `RecordingState::stop`. */
  function RelayStop(r: Relay): (Relay, seq<Cmd>) {
    (Relay(false, false), if r.holding then [Stop] else [])
  }

  // -- The system ----------------------------------------------------------

  /** `sent` is everything the relay put on the channel, `taken` what the worker took off
      it; `received` also has the worker's timeouts. */
  datatype System = System(relay: Relay, open: bool, sent: seq<Cmd>, taken: nat, received: seq<Received>)

  const Initial := System(Relay(false, false), true, [], 0, [])

  datatype Action =
    | Mic(muted: bool, terminalFocused: bool)
    | Quit
    | Take
    | Expire
    | HangUp

  /** Whether a step can happen. The relay acts until it quits, the worker until it exits;
      it takes a command if there is one, and sees the hang-up only on an empty channel. */
  predicate Enabled(combo: Combo, s: System, a: Action) {
    match a
    case Mic(_, _) => s.open
    case Quit => s.open
    case Take => WorkerRun(combo, s.received).running && s.taken < |s.sent|
    case Expire => WorkerRun(combo, s.received).running
    case HangUp => WorkerRun(combo, s.received).running && s.taken >= |s.sent| && !s.open
  }

  /** Quitting stops the recording and drops the hold, which sends a shutdown. */
  function Next(s: System, a: Action): System {
    match a
    case Mic(muted, focused) =>
      var (relay, cmds) := RelayMic(s.relay, muted, focused);
      s.(relay := relay, sent := s.sent + cmds)
    case Quit =>
      var (relay, cmds) := RelayStop(s.relay);
      s.(relay := relay, open := false, sent := s.sent + cmds + [Shutdown])
    case Take =>
      if s.taken < |s.sent| then s.(taken := s.taken + 1, received := s.received + [Message(s.sent[s.taken])]) else s
    case Expire => s.(received := s.received + [Timeout])
    case HangUp => s.(received := s.received + [Disconnected])
  }

  function After(actions: seq<Action>): System {
    if actions == [] then Initial else Next(After(AllButLast(actions)), actions[|actions| - 1])
  }

  /** A run of the system: every step could happen when it did. */
  predicate IsRun(combo: Combo, actions: seq<Action>) {
    actions == [] ||
    (IsRun(combo, AllButLast(actions)) && Enabled(combo, After(AllButLast(actions)), actions[|actions| - 1]))
  }

  /** Whether a hold is on after these commands. */
  function HoldAfter(cmds: seq<Cmd>): bool {
    if cmds == [] then false
    else
      match cmds[|cmds| - 1]
      case Start => true
      case Stop => false
      case Tap => HoldAfter(AllButLast(cmds))
      case Shutdown => false
  }

  /** Start, Stop, Start, Stop, ... and perhaps a final Shutdown after a Stop. */
  predicate Alternates(cmds: seq<Cmd>) {
    cmds == [] ||
    (&& Alternates(AllButLast(cmds)) && Shutdown !in AllButLast(cmds)
     && match cmds[|cmds| - 1]
        case Start => !HoldAfter(AllButLast(cmds))
        case Stop => HoldAfter(AllButLast(cmds))
        case Shutdown => !HoldAfter(AllButLast(cmds))
        case Tap => false)
  }

  lemma {:induction false} SendOne(cmds: seq<Cmd>, c: Cmd)
    requires Alternates(cmds) && Shutdown !in cmds
    requires c == Start || c == Shutdown ==> !HoldAfter(cmds)
    requires c == Stop ==> HoldAfter(cmds)
    requires c != Tap
    ensures Alternates(cmds + [c]) && HoldAfter(cmds + [c]) == (c == Start)
    ensures c != Shutdown ==> Shutdown !in cmds + [c]
  {
    assert AllButLast(cmds + [c]) == cmds;
  }

  /** What the relay keeps: it holds only while recording, and the commands it sent
      alternate and end as its own flag says. */
  ghost predicate RelayInv(s: System) {
    && (s.relay.holding ==> s.relay.recording)
    && Alternates(s.sent) && HoldAfter(s.sent) == s.relay.holding
    && (s.open <==> Shutdown !in s.sent)
    && (!s.open ==> s.sent[|s.sent| - 1] == Shutdown)
  }

  /** What the worker keeps: it received exactly the commands taken, in order, and while it
      runs its flag is the one those commands ask for. */
  ghost predicate WorkerInv(combo: Combo, s: System) {
    && s.taken <= |s.sent|
    && NoTaps(s.received)
    && var w := WorkerRun(combo, s.received);
       if w.running then Shutdown !in s.sent[..s.taken] && w.holding == HoldAfter(s.sent[..s.taken])
       else !s.open && s.taken == |s.sent|
  }

  lemma RelayStepKeeps(combo: Combo, s: System, a: Action)
    requires RelayInv(s) && Enabled(combo, s, a)
    ensures RelayInv(Next(s, a))
  {
    match a
    case Mic(muted, focused) =>
      assert s.sent + [] == s.sent;
      if muted && s.relay.holding {
        SendOne(s.sent, Stop);
      } else if !muted && !s.relay.recording && focused {
        SendOne(s.sent, Start);
      }
    case Quit =>
      assert s.sent + [] == s.sent;
      if s.relay.holding {
        SendOne(s.sent, Stop);
        SendOne(s.sent + [Stop], Shutdown);
      } else {
        SendOne(s.sent, Shutdown);
      }
    case _ =>
  }

  lemma {:induction false} NoTapSent(cmds: seq<Cmd>)
    requires Alternates(cmds)
    ensures Tap !in cmds
  {
    if cmds != [] {
      NoTapSent(AllButLast(cmds));
      assert cmds == AllButLast(cmds) + [cmds[|cmds| - 1]];
    }
  }

  lemma TakenSnoc(sent: seq<Cmd>, taken: nat)
    requires taken < |sent| && Tap !in sent
    ensures sent[taken] in sent && sent[taken] != Tap
    ensures HoldAfter(sent[..taken + 1]) == (sent[taken] == Start)
    ensures Shutdown in sent[..taken + 1] <==> Shutdown in sent[..taken] || sent[taken] == Shutdown
  {
    assert AllButLast(sent[..taken + 1]) == sent[..taken];
    assert sent[..taken + 1] == sent[..taken] + [sent[taken]];
  }

  lemma {:induction false} ShutdownIsLast(sent: seq<Cmd>, i: nat)
    requires Alternates(sent) && i < |sent| && sent[i] == Shutdown
    ensures i == |sent| - 1
  {
    assert forall k :: 0 <= k < |sent| - 1 ==> sent[k] in AllButLast(sent);
  }

  lemma {:induction false} ReceiveOne(combo: Combo, rs: seq<Received>, c: Cmd)
    requires WorkerRun(combo, rs).running && NoTaps(rs) && c != Tap
    ensures var w := WorkerRun(combo, rs + [Message(c)]);
      NoTaps(rs + [Message(c)]) && w.running == (c != Shutdown) && (w.running ==> w.holding == (c == Start))
  {
    assert AllButLast(rs + [Message(c)]) == rs;
  }

  lemma TakeKeeps(combo: Combo, s: System)
    requires RelayInv(s) && WorkerInv(combo, s) && Enabled(combo, s, Take)
    ensures WorkerInv(combo, Next(s, Take))
  {
    NoTapSent(s.sent);
    TakenSnoc(s.sent, s.taken);
    ReceiveOne(combo, s.received, s.sent[s.taken]);
    if s.sent[s.taken] == Shutdown {
      ShutdownIsLast(s.sent, s.taken);
    }
  }

  lemma WorkerStepKeeps(combo: Combo, s: System, a: Action)
    requires RelayInv(s) && WorkerInv(combo, s) && Enabled(combo, s, a)
    ensures WorkerInv(combo, Next(s, a))
  {
    var s' := Next(s, a);
    match a
    case Mic(_, _) => assert s'.sent[..s.taken] == s.sent[..s.taken];
    case Quit => assert s'.sent[..s.taken] == s.sent[..s.taken];
    case Take => TakeKeeps(combo, s);
    case Expire => assert AllButLast(s'.received) == s.received;
    case HangUp => ChannelOutlivesRelay(combo, s);
  }

  /** The worker never sees the hang-up: it takes the shutdown first. */
  lemma ChannelOutlivesRelay(combo: Combo, s: System)
    requires RelayInv(s) && WorkerInv(combo, s)
    ensures !Enabled(combo, s, HangUp)
  {
    assert s.sent[..|s.sent|] == s.sent;
  }

  lemma {:induction false} RunKeeps(combo: Combo, actions: seq<Action>)
    requires IsRun(combo, actions)
    ensures RelayInv(After(actions)) && WorkerInv(combo, After(actions))
    decreases |actions|
  {
    if actions != [] {
      var last, before := actions[|actions| - 1], After(AllButLast(actions));
      RunKeeps(combo, AllButLast(actions));
      RelayStepKeeps(combo, before, last);
      WorkerStepKeeps(combo, before, last);
    }
  }

  /** Every interleaving: commands alternate, the worker that has drained the channel
      agrees with the relay, and the keys down are exactly the combo while it holds. */
  lemma {:induction false} EveryRunIsSafe(combo: Combo, actions: seq<Action>)
    requires IsRun(combo, actions)
    ensures var s := After(actions);
      var w := WorkerRun(combo, s.received);
      && Alternates(s.sent)
      && (w.running && s.taken == |s.sent| ==> w.holding == s.relay.holding)
      && Down(w.log) == (if w.running && w.holding then combo.Keys() else {})
      && (combo.Distinct() ==> OnlyMainRepressed(combo, w.log))
  {
    var s := After(actions);
    RunKeeps(combo, actions);
    assert s.sent[..|s.sent|] == s.sent;
    HoldIsWholeCombo(combo, s.received);
    NoTapInHold(s.received);
    if combo.Distinct() {
      NoTapNoFirst(s.received);
      ModifiersStayHeld(combo, s.received);
    }
  }

  /** After the relay has quit, the worker runs exactly as long as it has a command to take;
      then it has exited and no key is down. */
  lemma {:induction false} QuitReleasesEverything(combo: Combo, actions: seq<Action>)
    requires IsRun(combo, actions) && !After(actions).open
    ensures var s := After(actions);
      var w := WorkerRun(combo, s.received);
      && (w.running <==> s.taken < |s.sent|)
      && (w.running ==> Enabled(combo, s, Take))
      && (!w.running ==> Down(w.log) == {})
  {
    var s := After(actions);
    RunKeeps(combo, actions);
    HoldIsWholeCombo(combo, s.received);
    assert s.sent[..|s.sent|] == s.sent;
  }

  // -- The two processes as they run ---------------------------------------

  class SyntheticHold {
    /** The channel: everything sent. */
    var sent: seq<Cmd>

    constructor ()
      ensures sent == []
    {
      sent := [];
    }

    method Send(c: Cmd)
      modifies this
      ensures sent == old(sent) + [c]
    {
      sent := sent + [c];
    }
  }

  class RecordingState {
    var recording: bool
    var holding: bool

    ghost function Now(): Relay
      reads this
    {
      Relay(recording, holding)
    }

    constructor ()
      ensures Now() == Relay(false, false)
    {
      recording, holding := false, false;
    }

    method StartRecording(hold: SyntheticHold, terminalFocused: bool)
      modifies this, hold
      ensures recording
      ensures holding == (terminalFocused || old(holding))
      ensures hold.sent == old(hold.sent) + if terminalFocused then [Start] else []
    {
      recording := true;
      if terminalFocused {
        hold.Send(Start);
        holding := true;
      }
    }

    method StopRecording(hold: SyntheticHold)
      modifies this, hold
      ensures Now() == RelayStop(old(Now())).0
      ensures hold.sent == old(hold.sent) + RelayStop(old(Now())).1
    {
      if holding {
        hold.Send(Stop);
        holding := false;
      }
      recording := false;
    }

    /** One mute change in `event_loop`. */
    method OnMic(hold: SyntheticHold, muted: bool, terminalFocused: bool)
      modifies this, hold
      ensures Now() == RelayMic(old(Now()), muted, terminalFocused).0
      ensures hold.sent == old(hold.sent) + RelayMic(old(Now()), muted, terminalFocused).1
    {
      if muted && recording {
        StopRecording(hold);
      } else if !muted && !recording {
        StartRecording(hold, terminalFocused);
      }
    }

    /** `event_loop` and the final stop of `run`, followed by the drop of the hold. */
    method Run(hold: SyntheticHold, events: seq<(bool, bool)>)
      requires Now() == Relay(false, false) && hold.sent == []
      modifies this, hold
      ensures var s := After(RelayActions(events) + [Quit]); Now() == s.relay && hold.sent == s.sent
    {
      for i := 0 to |events|
        invariant var s := After(RelayActions(events[..i])); Now() == s.relay && hold.sent == s.sent
      {
        assert AllButLast(RelayActions(events[..i + 1])) == RelayActions(events[..i]);
        OnMic(hold, events[i].0, events[i].1);
      }
      assert events[..|events|] == events;
      assert AllButLast(RelayActions(events) + [Quit]) == RelayActions(events);
      StopRecording(hold);
      hold.Send(Shutdown);
    }
  }

  /** The steps of a relay that sees these mute changes: (muted, terminal focused). */
  function RelayActions(events: seq<(bool, bool)>): (r: seq<Action>)
    ensures |r| == |events|
  {
    seq(|events|, i requires 0 <= i < |events| => Mic(events[i].0, events[i].1))
  }

  class Keyboard {
    var log: seq<KeyEvent>

    constructor ()
      ensures log == []
    {
      log := [];
    }

    method PressAll(combo: Combo)
      modifies this
      ensures log == old(log) + PressCombo(combo)
    {
      for i := 0 to |combo.modifiers|
        invariant log == old(log) + Presses(combo.modifiers[..i])
      {
        log := log + [Press(combo.modifiers[i])];
      }
      assert combo.modifiers[..|combo.modifiers|] == combo.modifiers;
      log := log + [Press(combo.key)];
    }

    method ReleaseAll(combo: Combo)
      modifies this
      ensures log == old(log) + ReleaseCombo(combo)
    {
      log := log + [Release(combo.key)];
      var i := |combo.modifiers|;
      while i > 0
        invariant 0 <= i <= |combo.modifiers|
        invariant log == old(log) + [Release(combo.key)] + ReversedReleases(combo.modifiers[i..])
      {
        i := i - 1;
        log := log + [Release(combo.modifiers[i])];
      }
      assert combo.modifiers[0..] == combo.modifiers;
    }

    /** The worker thread on what `recv_timeout` returned, one result after the other. */
    method RunWorker(combo: Combo, received: seq<Received>) returns (running: bool, holding: bool)
      requires log == []
      modifies this
      ensures Worker(running, holding, log) == WorkerRun(combo, received)
      ensures !running ==> Down(log) == {}
    {
      running, holding := true, false;
      KeysFollowGrip(combo, received);
      for i := 0 to |received|
        invariant Worker(running, holding, log) == WorkerRun(combo, received[..i])
      {
        assert AllButLast(received[..i + 1]) == received[..i];
        if running {
          match received[i]
          case Message(Start) =>
            if !holding {
              PressAll(combo);
              holding := true;
            }
          case Message(Stop) =>
            if holding {
              ReleaseAll(combo);
              holding := false;
            }
          case Message(Tap) =>
            PressAll(combo);
            ReleaseAll(combo);
          case Timeout =>
            if holding {
              log := log + [Press(combo.key)];
            }
          case _ =>
            if holding {
              ReleaseAll(combo);
            }
            running := false;
            ReleaseAll(combo);
        }
      }
      assert received[..|received|] == received;
    }
  }
}
