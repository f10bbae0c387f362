/** The key events that the synthetic hold makes, one by one. */
module HoldKeys {
  import opened Prelude
  import opened Hold

  /** These events press the modifiers in order and then the main key. */
  predicate IsPress(combo: Combo, events: seq<KeyEvent>) {
    && |events| == |combo.modifiers| + 1 && events[|combo.modifiers|] == Press(combo.key)
    && forall i :: 0 <= i < |combo.modifiers| ==> events[i] == Press(combo.modifiers[i])
  }

  /** These events release the main key and then the modifiers, the last one first. */
  predicate IsRelease(combo: Combo, events: seq<KeyEvent>) {
    && |events| == |combo.modifiers| + 1 && events[0] == Release(combo.key)
    && forall i :: 1 <= i < |events| ==> events[i] == Release(combo.modifiers[|events| - 1 - i])
  }

  lemma ChordOrder(combo: Combo)
    ensures IsPress(combo, PressCombo(combo)) && IsRelease(combo, ReleaseCombo(combo))
  {
  }

  /** What the worker adds to the key events for one more command or timeout, by whether the
      last start or stop before it was a start. */
  ghost predicate Adds(combo: Combo, on: bool, r: Received, more: seq<KeyEvent>) {
    match r
    case Message(Start) => if on then more == [] else IsPress(combo, more)
    case Message(Stop) => if on then IsRelease(combo, more) else more == []
    case Message(Tap) => exists a, b :: more == a + b && IsPress(combo, a) && IsRelease(combo, b)
    case Timeout => more == if on then [Press(combo.key)] else []
    case _ =>
      if on then exists a, b :: more == a + b && IsRelease(combo, a) && IsRelease(combo, b)
      else IsRelease(combo, more)
  }

  lemma StepAdds(combo: Combo, w: Worker, r: Received) returns (more: seq<KeyEvent>)
    requires w.running
    ensures WorkerStep(combo, w, r).log == w.log + more && Adds(combo, w.holding, r, more)
  {
    ChordOrder(combo);
    hide PressCombo, ReleaseCombo, IsPress, IsRelease;
    var chord, lift := PressCombo(combo), ReleaseCombo(combo);
    assert w.log + [] == w.log;
    match r
    case Message(Start) => more := if w.holding then [] else chord;
    case Message(Stop) => more := if w.holding then lift else [];
    case Message(Tap) =>
      more := chord + lift;
      AppendAssociates(w.log, chord, lift);
    case Timeout => more := if w.holding then [Press(combo.key)] else [];
    case _ =>
      more := if w.holding then lift + lift else lift;
      AppendAssociates(w.log, lift, lift);
  }

  /** For every sequence of commands and timeouts: until a shutdown or a hang-up each adds its
      events, and nothing is added after. */
  lemma {:induction false} EventsMeaning(combo: Combo, rs: seq<Received>, r: Received) returns (more: seq<KeyEvent>)
    ensures WorkerRun(combo, rs + [r]).log == WorkerRun(combo, rs).log + more
    ensures if Message(Shutdown) in rs || Disconnected in rs then more == [] else Adds(combo, HoldOn(rs), r, more)
  {
    var longer := rs + [r];
    assert AllButLast(longer) == rs && longer[|rs|] == r;
    WorkerFollows(combo, rs);
    more := [];
    assert WorkerRun(combo, rs).log + [] == WorkerRun(combo, rs).log;
    if WorkerRun(combo, rs).running {
      more := StepAdds(combo, WorkerRun(combo, rs), r);
    }
  }
}
