/** When the microphone relay records and holds, and what it sends, said of the mute changes
    alone. */
module HoldMic {
  import opened Prelude
  import opened Hold
  import opened HoldRelay

  /** A mute change, and whether a terminal was focused when it came. */
  type Change = (bool, bool)

  predicate Muted(c: Change) {
    c.0
  }

  predicate Focused(c: Change) {
    c.1
  }

  /** The first unmute of all, or since a mute. */
  predicate Opens(events: seq<Change>, i: nat) {
    i < |events| && !Muted(events[i]) && (i == 0 || Muted(events[i - 1]))
  }

  /** The mute that ends a stretch of unmutes. */
  predicate Closes(events: seq<Change>, k: nat) {
    0 < k < |events| && Muted(events[k]) && !Muted(events[k - 1])
  }

  /** The stretch of unmutes that ends at `k` began at `i`. */
  predicate BeganAt(events: seq<Change>, i: nat, k: nat) {
    i < k <= |events| && Opens(events, i) && forall j :: i <= j < k ==> !Muted(events[j])
  }

  /** The stretch began with a terminal focused. */
  predicate BeganFocused(events: seq<Change>, k: nat)
    requires k <= |events|
  {
    exists i: nat :: i < k && BeganAt(events, i, k) && Focused(events[i])
  }

  /** A start for an unmute that begins a stretch with a terminal focused, and a stop for the
      mute that ends such a stretch. */
  function CommandsAt(events: seq<Change>, k: nat): seq<Cmd>
    requires k < |events|
  {
    if Opens(events, k) && Focused(events[k]) then [Start]
    else if Closes(events, k) && BeganFocused(events, k) then [Stop]
    else []
  }

  function Commands(events: seq<Change>): seq<Cmd> {
    if events == [] then [] else Commands(AllButLast(events)) + CommandsAt(events, |events| - 1)
  }

  /** The relay after these changes. */
  ghost predicate IsRelayAfter(events: seq<Change>, s: System) {
    && (s.relay.recording <==> events != [] && !Muted(events[|events| - 1]))
    && (s.relay.holding <==> s.relay.recording && BeganFocused(events, |events|))
    && s.sent == Commands(events)
  }

  lemma BeganLonger(events: seq<Change>, e: Change, i: nat, k: nat)
    requires k <= |events|
    ensures BeganAt(events + [e], i, k) <==> BeganAt(events, i, k)
  {
    var longer := events + [e];
    assert forall j :: 0 <= j < |events| ==> longer[j] == events[j];
  }

  lemma FocusedLonger(events: seq<Change>, e: Change, k: nat)
    requires k <= |events|
    ensures BeganFocused(events + [e], k) <==> BeganFocused(events, k)
  {
    var longer := events + [e];
    forall i: nat | i < k
      ensures BeganAt(longer, i, k) && Focused(longer[i]) <==> BeganAt(events, i, k) && Focused(events[i])
    {
      BeganLonger(events, e, i, k);
    }
  }

  /** One more unmute goes on with the stretch, or begins one. */
  lemma FocusedUnmute(events: seq<Change>, e: Change)
    requires !Muted(e)
    ensures BeganFocused(events + [e], |events| + 1) <==>
      if events == [] || Muted(events[|events| - 1]) then Focused(e) else BeganFocused(events, |events|)
  {
    var longer, n := events + [e], |events|;
    var end := n + 1;
    assert forall j :: 0 <= j < n ==> longer[j] == events[j];
    if events == [] || Muted(events[n - 1]) {
      assert BeganAt(longer, n, end);
      forall i: nat | i < n
        ensures !BeganAt(longer, i, end)
      {
        assert Muted(longer[n - 1]);
      }
    } else {
      forall i: nat | i < n
        ensures BeganAt(longer, i, end) <==> BeganAt(events, i, n)
      {
        BeganLonger(events, e, i, n);
      }
      assert !BeganAt(longer, n, end);
    }
  }

  lemma FocusedMute(events: seq<Change>, e: Change)
    requires Muted(e)
    ensures !BeganFocused(events + [e], |events| + 1)
  {
    assert (events + [e])[|events|] == e;
  }

  lemma {:induction false} ChangeKeeps(events: seq<Change>, s: System, e: Change)
    requires IsRelayAfter(events, s)
    ensures IsRelayAfter(events + [e], Next(s, Mic(Muted(e), Focused(e))))
  {
    var longer := events + [e];
    assert AllButLast(longer) == events && longer[|events|] == e;
    assert events != [] ==> longer[|events| - 1] == events[|events| - 1];
    FocusedLonger(events, e, |events|);
    if Muted(e) {
      FocusedMute(events, e);
    } else {
      FocusedUnmute(events, e);
    }
  }

  /** The mute changes among the steps of a run. */
  function Changes(actions: seq<Action>): seq<Change> {
    if actions == [] then []
    else
      Changes(AllButLast(actions)) +
      match actions[|actions| - 1]
      case Mic(muted, focused) => [(muted, focused)]
      case _ => []
  }

  lemma OthersKeep(s: System, a: Action)
    ensures !a.Mic? && !a.Quit? ==> Next(s, a).relay == s.relay && Next(s, a).sent == s.sent
  {
  }

  /** For every run until the relay quits, whatever the worker does in between: the relay records
      if and only if the last change was an unmute, it holds if and only if moreover a terminal
      was focused at the first unmute since the last mute, and it sent one start for each such
      unmute and one stop for the mute that ended it. */
  lemma {:induction false} RelayMeaning(actions: seq<Action>)
    requires Quit !in actions
    ensures IsRelayAfter(Changes(actions), After(actions))
    decreases |actions|
  {
    if actions != [] {
      var before, last := AllButLast(actions), actions[|actions| - 1];
      assert last in actions && forall a :: a in before ==> a in actions;
      hide Commands, BeganFocused;
      RelayMeaning(before);
      OthersKeep(After(before), last);
      hide Next;
      if last.Mic? {
        ChangeKeeps(Changes(before), After(before), (last.muted, last.terminalFocused));
      } else {
        assert Changes(before) + [] == Changes(before);
      }
    } else {
      assert !BeganFocused([], 0);
    }
  }

  /** Quitting stops the hold, if there is one, and then shuts down. */
  lemma {:induction false} QuitMeaning(actions: seq<Action>)
    requires Quit !in actions
    ensures var s, events := After(actions + [Quit]), Changes(actions);
      && !s.relay.recording && !s.relay.holding && !s.open
      && s.sent == Commands(events) +
           (if events != [] && !Muted(events[|events| - 1]) && BeganFocused(events, |events|) then [Stop] else []) +
           [Shutdown]
  {
    RelayMeaning(actions);
    assert AllButLast(actions + [Quit]) == actions;
  }
}
