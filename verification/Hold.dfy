/** The synthetic hold: `keystroke_io`'s worker, `relay_mic_to_voice`'s relay and the
    channel between them. */
module Hold {
  import opened Prelude

  type Key = string

  /** A chord: modifiers in press order and one main key. */
  datatype Combo = Combo(modifiers: seq<Key>, key: Key)
  {
    function Keys(): set<Key> {
      (set m | m in modifiers) + {key}
    }

    /** No modifier twice, and none is the main key. */
    predicate Distinct() {
      key !in modifiers && forall i, j :: 0 <= i < j < |modifiers| ==> modifiers[i] != modifiers[j]
    }
  }

  datatype KeyEvent = Press(k: Key) | Release(k: Key)

  // -- The keyboard --------------------------------------------------------

  function Apply(down: set<Key>, e: KeyEvent): set<Key> {
    match e
    case Press(k) => down + {k}
    case Release(k) => down - {k}
  }

  /** The keys that are down after the events `log`. */
  function Down(log: seq<KeyEvent>): set<Key> {
    if log == [] then {} else Apply(Down(AllButLast(log)), log[|log| - 1])
  }

  function Presses(keys: seq<Key>): (r: seq<KeyEvent>)
    ensures |r| == |keys| && forall i :: 0 <= i < |r| ==> r[i] == Press(keys[i])
  {
    seq(|keys|, i requires 0 <= i < |keys| => Press(keys[i]))
  }

  function ReversedReleases(keys: seq<Key>): (r: seq<KeyEvent>)
    ensures |r| == |keys| && forall i :: 0 <= i < |r| ==> r[i] == Release(keys[|keys| - 1 - i])
  {
    seq(|keys|, i requires 0 <= i < |keys| => Release(keys[|keys| - 1 - i]))
  }

  /** `press_combo`: modifiers first. */
  function PressCombo(combo: Combo): seq<KeyEvent> {
    Presses(combo.modifiers) + [Press(combo.key)]
  }

  /** `release_combo`: the main key first, modifiers in reverse. */
  function ReleaseCombo(combo: Combo): seq<KeyEvent> {
    [Release(combo.key)] + ReversedReleases(combo.modifiers)
  }

  lemma {:induction false} DownSnoc(log: seq<KeyEvent>, e: KeyEvent)
    ensures Down(log + [e]) == Apply(Down(log), e)
  {
    assert AllButLast(log + [e]) == log;
  }

  function KeySet(keys: seq<Key>): set<Key> {
    set k | k in keys
  }

  lemma PressesSnoc(log: seq<KeyEvent>, keys: seq<Key>)
    requires keys != []
    ensures var front, last := AllButLast(keys), keys[|keys| - 1];
      && log + Presses(keys) == (log + Presses(front)) + [Press(last)]
      && KeySet(keys) == KeySet(front) + {last}
  {
    assert Presses(keys) == Presses(AllButLast(keys)) + [Press(keys[|keys| - 1])];
    assert keys == AllButLast(keys) + [keys[|keys| - 1]];
  }

  lemma ReleasesSnoc(log: seq<KeyEvent>, keys: seq<Key>)
    requires keys != []
    ensures log + ReversedReleases(keys) == (log + ReversedReleases(keys[1..])) + [Release(keys[0])]
    ensures KeySet(keys) == KeySet(keys[1..]) + {keys[0]}
  {
    assert ReversedReleases(keys) == ReversedReleases(keys[1..]) + [Release(keys[0])];
    assert keys == [keys[0]] + keys[1..];
  }

  lemma {:induction false} DownPresses(log: seq<KeyEvent>, keys: seq<Key>)
    ensures Down(log + Presses(keys)) == Down(log) + KeySet(keys)
    decreases |keys|
  {
    if keys == [] {
      assert log + Presses(keys) == log;
    } else {
      var front, last := AllButLast(keys), keys[|keys| - 1];
      DownPresses(log, front);
      PressesSnoc(log, keys);
      DownSnoc(log + Presses(front), Press(last));
    }
  }

  lemma {:induction false} DownReleases(log: seq<KeyEvent>, keys: seq<Key>)
    ensures Down(log + ReversedReleases(keys)) == Down(log) - KeySet(keys)
    decreases |keys|
  {
    if keys == [] {
      assert log + ReversedReleases(keys) == log;
    } else {
      var first, rest := keys[0], keys[1..];
      DownReleases(log, rest);
      ReleasesSnoc(log, keys);
      DownSnoc(log + ReversedReleases(rest), Release(first));
    }
  }

  lemma {:induction false} DownCombo(log: seq<KeyEvent>, combo: Combo)
    ensures Down(log + PressCombo(combo)) == Down(log) + combo.Keys()
    ensures Down(log + ReleaseCombo(combo)) == Down(log) - combo.Keys()
  {
    DownPresses(log, combo.modifiers);
    DownSnoc(log + Presses(combo.modifiers), Press(combo.key));
    assert log + PressCombo(combo) == (log + Presses(combo.modifiers)) + [Press(combo.key)];
    DownSnoc(log, Release(combo.key));
    DownReleases(log + [Release(combo.key)], combo.modifiers);
    assert log + ReleaseCombo(combo) == (log + [Release(combo.key)]) + ReversedReleases(combo.modifiers);
  }

  // -- The worker ----------------------------------------------------------

  datatype Cmd = Start | Stop | Tap | Shutdown

  /** One result of `recv_timeout`. */
  datatype Received = Message(cmd: Cmd) | Timeout | Disconnected

  datatype Worker = Worker(running: bool, holding: bool, log: seq<KeyEvent>)

  const NewWorker := Worker(true, false, [])

  /** The end of the worker thread: `worker_loop` releases a hold, and its caller releases
      the combo once more. */
  function Exit(combo: Combo, w: Worker): Worker {
    Worker(false, w.holding, w.log + (if w.holding then ReleaseCombo(combo) else []) + ReleaseCombo(combo))
  }

  /** One turn of `worker_loop`. */
  function WorkerStep(combo: Combo, w: Worker, r: Received): Worker {
    if !w.running then w
    else
      match r
      case Message(Start) => if w.holding then w else Worker(true, true, w.log + PressCombo(combo))
      case Message(Stop) => if w.holding then Worker(true, false, w.log + ReleaseCombo(combo)) else w
      case Message(Tap) => w.(log := w.log + PressCombo(combo) + ReleaseCombo(combo))
      case Message(Shutdown) => Exit(combo, w)
      case Timeout => if w.holding then w.(log := w.log + [Press(combo.key)]) else w
      case Disconnected => Exit(combo, w)
  }

  function WorkerRun(combo: Combo, rs: seq<Received>): Worker {
    if rs == [] then NewWorker else WorkerStep(combo, WorkerRun(combo, AllButLast(rs)), rs[|rs| - 1])
  }

  /** How the worker's hold shows on the keyboard: a tap during a hold lifts the chord, and
      the next repeat puts only the main key down again. */
  datatype Grip = Open | Full | KeyOnly
  {
    function Held(combo: Combo): set<Key> {
      match this
      case Open => {}
      case Full => combo.Keys()
      case KeyOnly => {combo.key}
    }
  }

  function GripStep(grip: Grip, holding: bool, r: Received): Grip {
    match r
    case Message(Start) => if holding then grip else Full
    case Message(Stop) => if holding then Open else grip
    case Message(Tap) => Open
    case Timeout => if holding && grip == Open then KeyOnly else grip
    case _ => Open
  }

  function GripAfter(combo: Combo, rs: seq<Received>): Grip {
    if rs == [] then Open
    else
      var before := AllButLast(rs);
      if !WorkerRun(combo, before).running then Open
      else GripStep(GripAfter(combo, before), WorkerRun(combo, before).holding, rs[|rs| - 1])
  }

  ghost predicate Follows(combo: Combo, w: Worker, grip: Grip) {
    Down(w.log) == grip.Held(combo) && (!w.running || !w.holding ==> grip == Open)
  }

  lemma ExitOpens(combo: Combo, w: Worker)
    requires Down(w.log) <= combo.Keys()
    ensures Down(Exit(combo, w).log) == {}
  {
    DownCombo(w.log, combo);
    DownCombo(w.log + ReleaseCombo(combo), combo);
    assert w.log + [] == w.log;
  }

  lemma {:induction false} TapOpens(combo: Combo, log: seq<KeyEvent>)
    requires Down(log) <= combo.Keys()
    ensures Down(log + PressCombo(combo) + ReleaseCombo(combo)) == {}
    ensures Down(log + ReleaseCombo(combo)) == {}
  {
    DownCombo(log, combo);
    DownCombo(log + PressCombo(combo), combo);
  }

  lemma GripsAreKeys(grip: Grip, combo: Combo)
    ensures grip.Held(combo) <= combo.Keys()
  {
  }

  lemma StepFollows(combo: Combo, w: Worker, grip: Grip, r: Received)
    requires w.running && Follows(combo, w, grip)
    ensures Follows(combo, WorkerStep(combo, w, r), GripStep(grip, w.holding, r))
  {
    GripsAreKeys(grip, combo);
    match r
    case Message(Start) => DownCombo(w.log, combo);
    case Message(Stop) => TapOpens(combo, w.log);
    case Message(Tap) => TapOpens(combo, w.log);
    case Timeout =>
      DownSnoc(w.log, Press(combo.key));
      assert combo.Keys() + {combo.key} == combo.Keys();
    case Message(Shutdown) => ExitOpens(combo, w);
    case Disconnected => ExitOpens(combo, w);
  }

  /** For every sequence of commands and timeouts, taps included, the keys that are down
      are those of the grip; nothing is down without a hold or after the worker's exit. */
  lemma {:induction false} KeysFollowGrip(combo: Combo, rs: seq<Received>)
    ensures var w := WorkerRun(combo, rs);
      && Down(w.log) == GripAfter(combo, rs).Held(combo)
      && (!w.running || !w.holding ==> GripAfter(combo, rs) == Open && Down(w.log) == {})
    decreases |rs|
  {
    if rs != [] {
      var before := AllButLast(rs);
      KeysFollowGrip(combo, before);
      if WorkerRun(combo, before).running {
        StepFollows(combo, WorkerRun(combo, before), GripAfter(combo, before), rs[|rs| - 1]);
      }
    }
  }

  // -- What the keys show, said of the commands alone ----------------------

  /** A shutdown or a hang-up was received. */
  predicate Ended(rs: seq<Received>) {
    Message(Shutdown) in rs || Disconnected in rs
  }

  /** The last start or stop was a start. */
  predicate HoldOn(rs: seq<Received>) {
    rs != [] &&
    match rs[|rs| - 1]
    case Message(Start) => true
    case Message(Stop) => false
    case _ => HoldOn(AllButLast(rs))
  }

  /** A tap was received since the start that began the hold. */
  predicate TapInHold(rs: seq<Received>) {
    rs != [] &&
    match rs[|rs| - 1]
    case Message(Stop) => false
    case Message(Tap) => HoldOn(AllButLast(rs))
    case _ => TapInHold(AllButLast(rs))
  }

  /** The last tap or timeout was a timeout. */
  predicate RepeatSinceTap(rs: seq<Received>) {
    rs != [] &&
    match rs[|rs| - 1]
    case Timeout => true
    case Message(Tap) => false
    case _ => RepeatSinceTap(AllButLast(rs))
  }

  function GripOf(rs: seq<Received>): Grip {
    if Ended(rs) || !HoldOn(rs) then Open
    else if !TapInHold(rs) then Full
    else if RepeatSinceTap(rs) then KeyOnly
    else Open
  }

  lemma EndedLast(rs: seq<Received>)
    requires rs != []
    ensures Ended(rs) <==> Ended(AllButLast(rs)) || rs[|rs| - 1] in {Message(Shutdown), Disconnected}
  {
    assert rs == AllButLast(rs) + [rs[|rs| - 1]];
  }

  lemma {:induction false} WorkerFollows(combo: Combo, rs: seq<Received>)
    ensures var w := WorkerRun(combo, rs);
      && (w.running <==> !Ended(rs)) && (w.running ==> w.holding == HoldOn(rs))
      && GripAfter(combo, rs) == GripOf(rs)
      && (TapInHold(rs) ==> HoldOn(rs))
    decreases |rs|
  {
    if rs != [] {
      hide PressCombo, ReleaseCombo;
      WorkerFollows(combo, AllButLast(rs));
      EndedLast(rs);
    }
  }

  /** The keys down after every sequence of commands and timeouts: the combo during a hold;
      after a tap in that hold nothing, or from the next repeat on the main key; nothing
      otherwise. So with a modifier a hold is whole exactly until a tap breaks it. */
  lemma {:induction false} HoldIsWholeCombo(combo: Combo, rs: seq<Received>)
    ensures var w := WorkerRun(combo, rs);
      && (w.running <==> !Ended(rs)) && (w.running ==> w.holding == HoldOn(rs))
      && Down(w.log) ==
           (if !w.running || !w.holding then {}
            else if !TapInHold(rs) then combo.Keys()
            else if RepeatSinceTap(rs) then {combo.key}
            else {})
      && (w.running && w.holding && combo.Keys() != {combo.key} ==>
            (Down(w.log) == combo.Keys() <==> !TapInHold(rs)))
  {
    KeysFollowGrip(combo, rs);
    WorkerFollows(combo, rs);
  }

  ghost predicate NoTaps(rs: seq<Received>) {
    forall i :: 0 <= i < |rs| ==> rs[i] != Message(Tap)
  }

  lemma {:induction false} NoTapInHold(rs: seq<Received>)
    requires NoTaps(rs)
    ensures !TapInHold(rs)
    decreases |rs|
  {
    if rs != [] {
      NoTapInHold(AllButLast(rs));
    }
  }

  /** A tap during a hold breaks it: the worker still holds, but no key is down. */
  lemma {:induction false} TapBreaksHold(combo: Combo)
    ensures var w := WorkerRun(combo, [Message(Start), Message(Tap)]);
      w.running && w.holding && Down(w.log) == {}
  {
    var rs := [Message(Start), Message(Tap)];
    assert AllButLast(rs) == [Message(Start)] && AllButLast([Message(Start)]) == [];
    KeysFollowGrip(combo, rs);
    assert WorkerRun(combo, [Message(Start)]) == Worker(true, true, [] + PressCombo(combo));
    assert GripAfter(combo, rs) == Open;
  }

  // -- Re-presses ----------------------------------------------------------

  /** A key that is pressed while it is down is the main key. */
  predicate OnlyMainRepressed(combo: Combo, log: seq<KeyEvent>) {
    log == [] ||
    (&& OnlyMainRepressed(combo, AllButLast(log))
     && (log[|log| - 1].Press? && log[|log| - 1].k in Down(AllButLast(log)) ==> log[|log| - 1].k == combo.key))
  }

  lemma {:induction false} RepressSnoc(combo: Combo, log: seq<KeyEvent>, e: KeyEvent)
    ensures OnlyMainRepressed(combo, log + [e]) <==>
      OnlyMainRepressed(combo, log) && (e.Press? && e.k in Down(log) ==> e.k == combo.key)
  {
    assert AllButLast(log + [e]) == log;
  }

  lemma {:induction false} RepressPrefix(combo: Combo, log: seq<KeyEvent>, more: seq<KeyEvent>)
    requires OnlyMainRepressed(combo, log + more)
    ensures OnlyMainRepressed(combo, log)
    decreases |more|
  {
    if more == [] {
      assert log + more == log;
    } else {
      assert log + more == (log + AllButLast(more)) + [more[|more| - 1]];
      RepressSnoc(combo, log + AllButLast(more), more[|more| - 1]);
      RepressPrefix(combo, log, AllButLast(more));
    }
  }

  lemma {:induction false} PressingFresh(combo: Combo, log: seq<KeyEvent>, keys: seq<Key>)
    requires OnlyMainRepressed(combo, log) && forall i :: 0 <= i < |keys| ==> keys[i] !in Down(log)
    requires forall i, j :: 0 <= i < j < |keys| ==> keys[i] != keys[j]
    ensures OnlyMainRepressed(combo, log + Presses(keys))
    decreases |keys|
  {
    if keys == [] {
      assert log + Presses(keys) == log;
    } else {
      var front, last := AllButLast(keys), keys[|keys| - 1];
      PressingFresh(combo, log, front);
      DownPresses(log, front);
      PressesSnoc(log, keys);
      RepressSnoc(combo, log + Presses(front), Press(last));
    }
  }

  lemma {:induction false} ReleasingAny(combo: Combo, log: seq<KeyEvent>, more: seq<KeyEvent>)
    requires OnlyMainRepressed(combo, log) && forall i :: 0 <= i < |more| ==> more[i].Release?
    ensures OnlyMainRepressed(combo, log + more)
    decreases |more|
  {
    if more == [] {
      assert log + more == log;
    } else {
      var front, last := AllButLast(more), more[|more| - 1];
      ReleasingAny(combo, log, front);
      RepressSnoc(combo, log + front, last);
      assert log + more == (log + front) + [last];
    }
  }

  lemma {:induction false} PressingCombo(combo: Combo, log: seq<KeyEvent>)
    requires combo.Distinct() && OnlyMainRepressed(combo, log) && Down(log) <= {combo.key}
    ensures OnlyMainRepressed(combo, log + PressCombo(combo))
  {
    PressingFresh(combo, log, combo.modifiers);
    RepressSnoc(combo, log + Presses(combo.modifiers), Press(combo.key));
    assert log + PressCombo(combo) == (log + Presses(combo.modifiers)) + [Press(combo.key)];
  }

  /** Pressing the combo over itself presses a modifier that is down. */
  lemma {:induction false} PressingAgain(combo: Combo, log: seq<KeyEvent>, more: seq<KeyEvent>)
    requires combo.Distinct() && combo.modifiers != [] && Down(log) == combo.Keys()
    ensures !OnlyMainRepressed(combo, log + PressCombo(combo) + more)
  {
    var first := Press(combo.modifiers[0]);
    var rest := PressCombo(combo)[1..] + more;
    assert log + PressCombo(combo) + more == (log + [first]) + rest;
    RepressSnoc(combo, log, first);
    if OnlyMainRepressed(combo, log + PressCombo(combo) + more) {
      RepressPrefix(combo, log + [first], rest);
    }
  }

  lemma {:induction false} ExitReleases(combo: Combo, w: Worker)
    requires OnlyMainRepressed(combo, w.log)
    ensures OnlyMainRepressed(combo, w.log + ReleaseCombo(combo))
    ensures OnlyMainRepressed(combo, Exit(combo, w).log)
  {
    ReleasingAny(combo, w.log, ReleaseCombo(combo));
    ReleasingAny(combo, w.log + ReleaseCombo(combo), ReleaseCombo(combo));
    assert w.log + [] == w.log;
  }

  /** No tap comes first in a hold. */
  predicate NoFirstTap(rs: seq<Received>) {
    rs == [] ||
    (&& NoFirstTap(AllButLast(rs))
     && (rs[|rs| - 1] == Message(Tap) && !Ended(AllButLast(rs)) && HoldOn(AllButLast(rs)) ==>
          TapInHold(AllButLast(rs))))
  }

  lemma {:induction false} NoTapNoFirst(rs: seq<Received>)
    requires NoTaps(rs)
    ensures NoFirstTap(rs)
    decreases |rs|
  {
    if rs != [] {
      NoTapNoFirst(AllButLast(rs));
    }
  }

  lemma {:induction false} TapRepresses(combo: Combo, rs: seq<Received>)
    requires combo.Distinct() && !Ended(rs) && OnlyMainRepressed(combo, WorkerRun(combo, rs).log)
    ensures var log := WorkerRun(combo, rs).log;
      OnlyMainRepressed(combo, log + PressCombo(combo) + ReleaseCombo(combo)) <==>
        combo.modifiers == [] || !HoldOn(rs) || TapInHold(rs)
  {
    var log := WorkerRun(combo, rs).log;
    HoldIsWholeCombo(combo, rs);
    if combo.modifiers == [] || !HoldOn(rs) || TapInHold(rs) {
      assert Down(log) <= {combo.key};
      PressingCombo(combo, log);
      ReleasingAny(combo, log + PressCombo(combo), ReleaseCombo(combo));
    } else {
      PressingAgain(combo, log, ReleaseCombo(combo));
    }
  }

  lemma {:induction false} QuietStep(combo: Combo, w: Worker, r: Received)
    requires combo.Distinct() && OnlyMainRepressed(combo, w.log) && r != Message(Tap)
    requires w.running && !w.holding ==> Down(w.log) == {}
    ensures OnlyMainRepressed(combo, WorkerStep(combo, w, r).log)
  {
    hide OnlyMainRepressed, PressCombo, ReleaseCombo, Down;
    ExitReleases(combo, w);
    RepressSnoc(combo, w.log, Press(combo.key));
    if w.running && !w.holding {
      PressingCombo(combo, w.log);
    }
  }

  lemma {:induction false} StepRepresses(combo: Combo, rs: seq<Received>)
    requires combo.Distinct() && rs != [] && OnlyMainRepressed(combo, WorkerRun(combo, AllButLast(rs)).log)
    ensures OnlyMainRepressed(combo, WorkerRun(combo, rs).log) <==>
      combo.modifiers == [] || rs[|rs| - 1] != Message(Tap) || Ended(AllButLast(rs))
      || !HoldOn(AllButLast(rs)) || TapInHold(AllButLast(rs))
  {
    var before, r := AllButLast(rs), rs[|rs| - 1];
    var w := WorkerRun(combo, before);
    assert WorkerRun(combo, rs) == WorkerStep(combo, w, r);
    TapLog(combo, w);
    hide OnlyMainRepressed, WorkerRun, WorkerStep, PressCombo, ReleaseCombo, Down, HoldOn, TapInHold, Ended;
    HoldIsWholeCombo(combo, before);
    if r != Message(Tap) {
      QuietStep(combo, w, r);
    } else if w.running {
      TapRepresses(combo, before);
    }
  }

  lemma TapLog(combo: Combo, w: Worker)
    ensures WorkerStep(combo, w, Message(Tap)).log ==
      if w.running then w.log + PressCombo(combo) + ReleaseCombo(combo) else w.log
  {
  }

  lemma LogGrows(combo: Combo, w: Worker, r: Received) returns (more: seq<KeyEvent>)
    ensures WorkerStep(combo, w, r).log == w.log + more
  {
    hide PressCombo, ReleaseCombo;
    var press, release := PressCombo(combo), ReleaseCombo(combo);
    AppendAssociates(w.log, press, release);
    AppendAssociates(w.log, if w.holding then release else [], release);
    more :=
      if !w.running then []
      else
        match r
        case Message(Start) => if w.holding then [] else press
        case Message(Stop) => if w.holding then release else []
        case Message(Tap) => press + release
        case Message(Shutdown) => (if w.holding then release else []) + release
        case Timeout => if w.holding then [Press(combo.key)] else []
        case Disconnected => (if w.holding then release else []) + release;
    assert w.log + [] == w.log;
  }

  /** Only the main key is pressed while it is down, exactly when the combo has no modifier
      or no hold is broken by a tap. */
  lemma {:induction false} ModifiersStayHeld(combo: Combo, rs: seq<Received>)
    requires combo.Distinct()
    ensures OnlyMainRepressed(combo, WorkerRun(combo, rs).log) <==> combo.modifiers == [] || NoFirstTap(rs)
    decreases |rs|
  {
    if rs != [] {
      ModifiersStayHeld(combo, AllButLast(rs));
      if OnlyMainRepressed(combo, WorkerRun(combo, AllButLast(rs)).log) {
        StepRepresses(combo, rs);
      } else {
        var more := LogGrows(combo, WorkerRun(combo, AllButLast(rs)), rs[|rs| - 1]);
        if OnlyMainRepressed(combo, WorkerRun(combo, rs).log) {
          RepressPrefix(combo, WorkerRun(combo, AllButLast(rs)).log, more);
        }
      }
    }
  }
}
