/** What the interceptor of `bifrost_proxy` does to its own output. */
module SseRerun {
  import opened Prelude
  import opened SseIntercept

  /** Every block that is forwarded has an `index` field in its start. */
  predicate StartsAddressed(es: seq<Event>) {
    forall i :: 0 <= i < |es| && IsForwardedStart(es[i]) ==> es[i].value.Get("index").Some?
  }

  /** Every delta and every stop belongs to a block that is open. */
  predicate NoOrphans(es: seq<Event>) {
    forall i :: 0 <= i < |es| && es[i].Block? && es[i].kind != Start ==>
      Owner(es[..i], IndexField(es[i].value)).Some?
  }

  predicate FitsIndex(value: Doc, index: nat) {
    value.Get("index").None? || value.Get("index") == Some(DocNumber(PosInt(index)))
  }

  /** The event reads as the proxy writes it under this index. */
  predicate IsWritten(lib: Lib, e: Event, index: nat) {
    e.Block? ==> FitsIndex(e.value, index) && e.data == lib.render(e.value)
  }

  /** Every delta and stop that an open block of `out` claims reads as written for it. */
  predicate IsSettled(lib: Lib, out: seq<Event>) {
    forall i :: 0 <= i < |out| ==> IsSettledAt(lib, out, i)
  }

  predicate IsSettledAt(lib: Lib, out: seq<Event>, i: nat)
    requires i < |out|
  {
    out[i].Block? && out[i].kind != Start ==>
      match Owner(out[..i], IndexField(out[i].value))
      case Some(j) => IsWritten(lib, out[i], ForwardedStarts(out[..j]))
      case None => true
  }

  lemma WithIndexReads(value: Doc, index: nat)
    ensures var v := WithIndex(value, index);
      && FitsIndex(v, index) && BlockType(v) == BlockType(value)
      && v.Get("index").Some? == value.Get("index").Some?
      && (v == value <==> FitsIndex(value, index))
      && forall later :: WithIndex(v, later) == WithIndex(value, later)
  {
    if value.DocObj? {
      forall later: nat
        ensures WithIndex(WithIndex(value, index), later) == WithIndex(value, later)
      {
        ReplacedReads(value.members, "index", DocNumber(PosInt(index)), DocNumber(PosInt(later)));
      }
      ReplacedReads(value.members, "index", DocNumber(PosInt(index)), DocNull);
    }
  }

  lemma RenumberedInPlace(lib: Lib, e: Event, index: nat)
    requires e.Block?
    ensures Renumbered(lib, e, index) == e <==> IsWritten(lib, e, index)
  {
    WithIndexReads(e.value, index);
  }

  lemma StepShape(lib: Lib, dir: bool, e: Event, s: State)
    ensures var out := Step(lib, dir, e, s).0;
      out.Some? && out.value.Block? ==>
        && e.Block? && out.value.kind == e.kind
        && (e.kind == Start ==> IsForwardedStart(e))
        && out.value.value.Get("index").Some? == e.value.Get("index").Some?
        && (e.kind != Start && IndexField(e.value) in s.modes ==>
              IsWritten(lib, out.value, IndexField(out.value.value)))
  {
    if e.Block? {
      WithIndexReads(e.value, s.next);
      var x := IndexField(e.value);
      if x in s.modes && s.modes[x].Forward? {
        WithIndexReads(e.value, s.modes[x].index);
      }
    }
  }

  /** Block events in the output: starts keep their index field, and without orphans each
      delta and stop reads as written. */
  lemma {:induction false} OutputShape(lib: Lib, dir: bool, es: seq<Event>, o: Event)
    requires o in Outputs(lib, dir, es) && o.Block?
    ensures o.kind == Start && StartsAddressed(es) ==> o.value.Get("index").Some?
    ensures o.kind != Start && NoOrphans(es) ==> IsWritten(lib, o, IndexField(o.value))
  {
    var before, e := AllButLast(es), Last(es);
    if NoOrphans(es) {
      NoOrphansPrefix(es);
      ModesAreOwners(lib, dir, before);
    }
    if o in Outputs(lib, dir, before) {
      OutputShape(lib, dir, before, o);
    } else {
      StepShape(lib, dir, e, Run(lib, dir, before));
      assert o in Emit(Step(lib, dir, e, Run(lib, dir, before)).0);
    }
  }

  lemma NoOrphansPrefix(es: seq<Event>)
    requires es != [] && NoOrphans(es)
    ensures NoOrphans(AllButLast(es))
    ensures Last(es).Block? && Last(es).kind != Start ==> Owner(AllButLast(es), IndexField(Last(es).value)).Some?
  {
    forall i | 0 <= i < |es| - 1
      ensures AllButLast(es)[..i] == es[..i]
    {
    }
    assert es[..|es| - 1] == AllButLast(es);
  }

  predicate AllKept(lib: Lib, es: seq<Event>) {
    forall i :: 0 <= i < |es| ==> Fate(lib, es[..i], es[i]) == Some(es[i])
  }

  lemma AllKeptLast(lib: Lib, es: seq<Event>)
    requires es != []
    ensures AllKept(lib, es) <==> AllKept(lib, AllButLast(es)) && Fate(lib, AllButLast(es), Last(es)) == Some(Last(es))
  {
    forall i | 0 <= i < |es| - 1
      ensures AllButLast(es)[..i] == es[..i]
    {
    }
    assert es[..|es| - 1] == AllButLast(es);
  }

  /** Filtering changes nothing exactly when it changes no event. */
  lemma {:induction false} FilteredFixed(lib: Lib, es: seq<Event>)
    ensures |Filtered(lib, es)| <= |es|
    ensures Filtered(lib, es) == es <==> AllKept(lib, es)
  {
    if es != [] {
      var before, e := AllButLast(es), Last(es);
      FilteredFixed(lib, before);
      AllKeptLast(lib, es);
      FixedSnoc(Filtered(lib, before), before, Fate(lib, before, e), e);
      BeforeAndLast(es);
    }
  }

  /** Filtering that drops no event gives each its fate. */
  lemma {:induction false} FilteredFull(lib: Lib, es: seq<Event>, i: nat)
    requires |Filtered(lib, es)| == |es| && i < |es|
    ensures Fate(lib, es[..i], es[i]) == Some(Filtered(lib, es)[i])
    decreases |es|
  {
    var before := AllButLast(es);
    FilteredFixed(lib, before);
    if i < |before| {
      FilteredFull(lib, before, i);
      assert before[..i] == es[..i];
    } else {
      assert before == es[..i];
    }
  }

  lemma BeforeAndLast(es: seq<Event>)
    requires es != []
    ensures es == AllButLast(es) + [Last(es)]
  {
  }

  lemma FixedSnoc(kept: seq<Event>, before: seq<Event>, fate: Option<Event>, e: Event)
    requires |kept| <= |before|
    ensures kept + Emit(fate) == before + [e] <==> kept == before && fate == Some(e)
  {
    if kept + Emit(fate) == before + [e] {
      assert (kept + Emit(fate))[..|kept|] == kept && (before + [e])[..|before|] == before;
      assert (before + [e])[|before|] == e;
    }
  }

  lemma {:induction false} FateOfOutput(lib: Lib, dir: bool, es: seq<Event>, i: nat)
    requires i < |Outputs(lib, dir, es)|
    ensures var out := Outputs(lib, dir, es);
      Fate(lib, out[..i], out[i]) == Some(out[i]) <==> IsSettledAt(lib, out, i)
  {
    var out := Outputs(lib, dir, es);
    var o := out[i];
    SurvivorsNumbered(lib, dir, es);
    if o.Block? && o.kind == Start {
      RenumberedInPlace(lib, o, ForwardedStarts(out[..i]));
    } else if o.Block? && Owner(out[..i], IndexField(o.value)).Some? {
      var j := Owner(out[..i], IndexField(o.value)).value;
      assert out[..i][j] == out[j] && out[..i][..j] == out[..j];
      RenumberedInPlace(lib, o, ForwardedStarts(out[..j]));
    }
  }

  lemma {:induction false} NothingToLog(lib: Lib, dir: bool, es: seq<Event>)
    requires forall i :: 0 <= i < |es| ==> !IsThinkingStart(es[i])
    ensures Run(lib, dir, es).log == []
    ensures forall x :: x in Run(lib, dir, es).modes ==> Run(lib, dir, es).modes[x].Forward?
  {
    if es != [] {
      NothingToLog(lib, dir, AllButLast(es));
    }
  }

  /** An interceptor fed with what an interceptor sent logs nothing, and changes nothing
      exactly when each delta and stop that an open block claims reads as written for that
      block. */
  lemma {:induction false} RerunIsIdentity(lib: Lib, dir: bool, es: seq<Event>)
    ensures var out := Outputs(lib, dir, es);
      && (Outputs(lib, dir, out) == out <==> IsSettled(lib, out))
      && Run(lib, dir, out).log == []
  {
    var out := Outputs(lib, dir, es);
    forall i | 0 <= i < |out|
      ensures Fate(lib, out[..i], out[i]) == Some(out[i]) <==> IsSettledAt(lib, out, i)
    {
      FateOfOutput(lib, dir, es, i);
    }
    OutputsAreFiltered(lib, dir, out);
    FilteredFixed(lib, out);
    SurvivorsNumbered(lib, dir, es);
    NothingToLog(lib, dir, out);
  }

  /** A stream without orphans whose forwarded starts have an index is always settled. */
  lemma {:induction false} WellFormedIsSettled(lib: Lib, dir: bool, es: seq<Event>)
    requires StartsAddressed(es) && NoOrphans(es)
    ensures IsSettled(lib, Outputs(lib, dir, es))
  {
    var out := Outputs(lib, dir, es);
    SurvivorsNumbered(lib, dir, es);
    forall i | 0 <= i < |out|
      ensures IsSettledAt(lib, out, i)
    {
      if out[i].Block? && out[i].kind != Start && Owner(out[..i], IndexField(out[i].value)).Some? {
        var j := Owner(out[..i], IndexField(out[i].value)).value;
        assert out[..i][j] == out[j];
        OutputShape(lib, dir, es, out[i]);
        OutputShape(lib, dir, es, out[j]);
      }
    }
  }

  /** Both conditions matter. A delta of no open block passes as it came; under an index that
      a surviving block got, the next interceptor takes it for a delta of that block and
      writes it anew. */
  lemma {:induction false} OrphanIsRewritten(lib: Lib, dir: bool, first: Event, second: Event)
    requires IsForwardedStart(first) && first.value.Get("index") == Some(DocNumber(PosInt(5)))
    requires IsDelta(second, 0) && second.data != lib.render(second.value)
    ensures var out := Outputs(lib, dir, [first] + [second]);
      |out| == 2 && out[1] == second && Outputs(lib, dir, out) != out
  {
    StartAlone(lib, dir, first);
    RenumberedStart(lib, first, 0);
    hide Outputs, IsSettled, Renumbered, BlockType;
    OneDelta(lib, dir, [first], second);
    OrphanIsUnsettled(lib, Renumbered(lib, first, 0), second);
    RerunIsIdentity(lib, dir, [first] + [second]);
  }

  lemma {:induction false} StartAlone(lib: Lib, dir: bool, first: Event)
    requires IsForwardedStart(first)
    ensures Run(lib, dir, [first]) == Init.(modes := map[IndexField(first.value) := Forward(0)], next := 1)
    ensures Outputs(lib, dir, [first]) == [Renumbered(lib, first, 0)]
  {
    OneStart(lib, dir, [], first);
    assert [] + [first] == [first] && [] + [Renumbered(lib, first, 0)] == [Renumbered(lib, first, 0)];
  }

  lemma {:induction false} OneDelta(lib: Lib, dir: bool, es: seq<Event>, delta: Event)
    requires delta.Block? && delta.kind == Delta
    ensures var s, x := Run(lib, dir, es), IndexField(delta.value);
      && (x !in s.modes ==> Outputs(lib, dir, es + [delta]) == Outputs(lib, dir, es) + [delta])
      && (x in s.modes && s.modes[x].Forward? ==>
            Outputs(lib, dir, es + [delta]) == Outputs(lib, dir, es) + [Renumbered(lib, delta, s.modes[x].index)])
  {
    OutputsSnoc(lib, dir, es, delta);
  }

  lemma OrphanIsUnsettled(lib: Lib, begun: Event, delta: Event)
    requires Opens(begun, 0) && IsDelta(delta, 0) && delta.data != lib.render(delta.value)
    ensures !IsSettled(lib, [begun] + [delta])
  {
    assert AllButLast([begun]) == [] && Owner([begun], 0) == Some(0);
    assert ([begun] + [delta])[..1] == [begun];
    assert !IsSettledAt(lib, [begun] + [delta], 1);
  }

  lemma {:induction false} OneStart(lib: Lib, dir: bool, es: seq<Event>, start: Event)
    requires IsForwardedStart(start)
    ensures var s := Run(lib, dir, es);
      && Run(lib, dir, es + [start]) ==
           s.(modes := s.modes[IndexField(start.value) := Forward(s.next)], next := s.next + 1)
      && Outputs(lib, dir, es + [start]) == Outputs(lib, dir, es) + [Renumbered(lib, start, s.next)]
  {
    OutputsSnoc(lib, dir, es, start);
  }

  /** A forwarded start without an index keeps none, so the next interceptor files it under
      index 0, where it hides the block that was forwarded as 0. */
  lemma {:induction false} UnaddressedStartHides(lib: Lib, dir: bool, first: Event, second: Event, third: Event)
    requires IsForwardedStart(first) && first.value.Get("index") == Some(DocNumber(PosInt(5)))
    requires IsForwardedStart(second) && second.value.Get("index").None?
    requires IsDelta(third, 5)
    ensures var es := [first] + [second] + [third];
      NoOrphans(es) && Outputs(lib, dir, Outputs(lib, dir, es)) != Outputs(lib, dir, es)
  {
    FirstOfTwo(first, second, third);
    TwoStartsAndDelta(lib, dir, first, second, third);
    RenumberedStart(lib, first, 0);
    RenumberedStart(lib, second, 1);
    hide Outputs, NoOrphans, IsSettled, Renumbered, BlockType;
    HiddenDelta(lib, Renumbered(lib, first, 0), Renumbered(lib, second, 1), third);
    RerunIsIdentity(lib, dir, [first] + [second] + [third]);
  }

  lemma RenumberedStart(lib: Lib, start: Event, index: nat)
    requires IsForwardedStart(start)
    ensures IsForwardedStart(Renumbered(lib, start, index))
    ensures Opens(Renumbered(lib, start, index), if start.value.Get("index").Some? then index else 0)
  {
    WithIndexReads(start.value, index);
  }

  lemma {:induction false} TwoStartsAndDelta(lib: Lib, dir: bool, first: Event, second: Event, third: Event)
    requires IsForwardedStart(first) && IsForwardedStart(second)
    requires Opens(first, 5) && Opens(second, 0) && IsDelta(third, 5)
    ensures Outputs(lib, dir, [first] + [second] + [third]) ==
      [Renumbered(lib, first, 0)] + [Renumbered(lib, second, 1)] + [Renumbered(lib, third, 0)]
  {
    hide Outputs, Run, Renumbered, BlockType;
    StartAlone(lib, dir, first);
    OneStart(lib, dir, [first], second);
    OneDelta(lib, dir, [first] + [second], third);
  }

  lemma FirstOfTwo(first: Event, second: Event, third: Event)
    requires Opens(first, 5) && Opens(second, 0) && IsDelta(third, 5)
    ensures NoOrphans([first] + [second] + [third])
  {
    var es := [first] + [second] + [third];
    assert es[..2] == [first] + [second];
    assert AllButLast([first] + [second]) == [first] && AllButLast([first]) == [];
    assert Owner([first], 5) == Some(0) && Owner([first] + [second], 5) == Some(0);
  }

  lemma HiddenDelta(lib: Lib, first: Event, second: Event, delta: Event)
    requires IsForwardedStart(first) && IsForwardedStart(second) && Opens(second, 0) && delta.Block? &&
      delta.kind == Delta
    requires delta.value.Get("index").Some?
    ensures !IsSettled(lib, [first] + [second] + [Renumbered(lib, delta, 0)])
  {
    var out := [first] + [second] + [Renumbered(lib, delta, 0)];
    StartHides(first, second);
    WithIndexReads(delta.value, 0);
    assert out[..2] == [first] + [second] && out[..1] == [first];
    assert !IsSettledAt(lib, out, 2);
  }

  lemma StartHides(first: Event, second: Event)
    requires IsForwardedStart(first) && IsForwardedStart(second) && Opens(second, 0)
    ensures Owner([first] + [second], 0) == Some(1) && ForwardedStarts([first]) == 1
  {
    assert AllButLast([first] + [second]) == [first] && AllButLast([first]) == [];
  }

  // -- The numbers of surviving blocks -------------------------------------

  predicate Numbered(lib: Lib, out: seq<Event>) {
    forall i :: 0 <= i < |out| && out[i].Block? && out[i].kind == Start ==>
      !IsThinkingStart(out[i]) && IsWritten(lib, out[i], ForwardedStarts(out[..i]))
  }

  lemma {:induction false} NumberedSnoc(lib: Lib, out: seq<Event>, e: Event)
    requires Numbered(lib, out)
    requires e.Block? && e.kind == Start ==> !IsThinkingStart(e) && IsWritten(lib, e, ForwardedStarts(out))
    ensures Numbered(lib, out + [e])
    ensures ForwardedStarts(out + [e]) == ForwardedStarts(out) + if IsForwardedStart(e) then 1 else 0
  {
    var longer := out + [e];
    assert AllButLast(longer) == out;
    forall i | 0 <= i < |longer|
      ensures longer[..i] == out[..i]
    {
    }
    assert out[..|out|] == out;
  }

  lemma StepNumbers(lib: Lib, dir: bool, e: Event, s: State)
    ensures var (sent, next) := Step(lib, dir, e, s);
      && (sent.Some? && sent.value.Block? && sent.value.kind == Start ==>
            IsForwardedStart(e) && !IsThinkingStart(sent.value) && IsWritten(lib, sent.value, s.next))
      && next.next == s.next + (if sent.Some? && IsForwardedStart(sent.value) then 1 else 0)
  {
    if e.Block? {
      WithIndexReads(e.value, s.next);
    }
  }

  /** Starts in the output read as written under 0, 1, 2, ... in order, and none of them is
      a thinking block. */
  lemma {:induction false} SurvivorsNumbered(lib: Lib, dir: bool, es: seq<Event>)
    ensures Numbered(lib, Outputs(lib, dir, es))
    ensures ForwardedStarts(Outputs(lib, dir, es)) == Run(lib, dir, es).next == ForwardedStarts(es)
  {
    ModesAreOwners(lib, dir, es);
    if es != [] {
      var before, e := AllButLast(es), Last(es);
      SurvivorsNumbered(lib, dir, before);
      var s, out := Run(lib, dir, before), Outputs(lib, dir, before);
      StepNumbers(lib, dir, e, s);
      var sent := Step(lib, dir, e, s).0;
      if sent.None? {
        assert out + [] == out;
      } else {
        NumberedSnoc(lib, out, sent.value);
      }
    }
  }
}
