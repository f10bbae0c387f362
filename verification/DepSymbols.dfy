/** The symbols that the dependency walk gathers and returns, on every graph and with every
    limit. */
module DepSymbols {
  import opened Prelude
  import opened DepWalk
  import opened DepResolve

  // -- What the walk gathers -----------------------------------------------

  /** What a list of imports takes from a file. */
  function Taken(p: Project, m: Mode, es: seq<Import>, w: File): seq<Symbol> {
    if es == [] then []
    else (if es[0].file == Some(w) then p.extract(es[0], m) else []) + Taken(p, m, es[1..], w)
  }

  /** In hybrid mode only the imports of the target itself are taken in full. */
  function ModeFor(mode: Mode, target: File, v: File): Mode {
    if mode.Hybrid? && v != target then Signatures else mode
  }

  /** What the files take from a file, one after the other. */
  function Gathered(p: Project, mode: Mode, target: File, done: seq<File>, w: File): seq<Symbol> {
    if done == [] then []
    else
      var before, v := done[..|done| - 1], done[|done| - 1];
      Gathered(p, mode, target, before, w) + Taken(p, ModeFor(mode, target, v), p.imports(v), w)
  }

  function GroupOf(s: State, w: File): seq<Symbol> {
    if w in s.groups then s.groups[w] else []
  }

  lemma {:induction false} ExtractGathers(p: Project, mode: Mode, es: seq<Import>, depth: nat, s: State, w: File)
    requires Listable(p, w)
    ensures GroupOf(Extract(p, mode, es, depth, s), w) == GroupOf(s, w) + Taken(p, EffectiveMode(mode, depth), es, w)
    decreases |es|
  {
    if es == [] {
      assert GroupOf(s, w) + [] == GroupOf(s, w);
    } else {
      var next := ExtractOne(p, mode, es[0], depth, s);
      ExtractGathers(p, mode, es[1..], depth, next, w);
      var first := if es[0].file == Some(w) then p.extract(es[0], EffectiveMode(mode, depth)) else [];
      assert GroupOf(next, w) == GroupOf(s, w) + first;
      AppendAssociates(GroupOf(s, w), first, Taken(p, EffectiveMode(mode, depth), es[1..], w));
    }
  }

  /** The files that were walked to their end gathered everything there is. */
  ghost predicate HasGathered(p: Project, mode: Mode, target: File, done: seq<File>, s: State) {
    forall w :: Listable(p, w) ==> GroupOf(s, w) == Gathered(p, mode, target, done, w)
  }

  /** `done` goes on with the parsed files that ran between the two states. */
  ghost predicate Continues(p: Project, done: seq<File>, s: State, done': seq<File>, s': State) {
    && s.ran <= s'.ran && s.visited <= s'.visited && done <= done'
    && forall v :: v in done'[|done|..] <==> v in s'.ran[|s.ran|..] && v in p.parses
  }

  lemma ContinuesTrans(p: Project, d1: seq<File>, s1: State, d2: seq<File>, s2: State, d3: seq<File>, s3: State)
    requires Continues(p, d1, s1, d2, s2) && Continues(p, d2, s2, d3, s3)
    ensures Continues(p, d1, s1, d3, s3)
  {
    assert d3[|d1|..] == d2[|d1|..] + d3[|d2|..];
    assert s3.ran[|s1.ran|..] == s2.ran[|s1.ran|..] + s3.ran[|s2.ran|..];
  }

  lemma {:induction false} WalkGathers(p: Project, mode: Mode, maxDepth: nat, target: File, f: File, depth: nat,
                                       s: State, done: seq<File>) returns (done': seq<File>)
    requires depth <= maxDepth + 1 && HasGathered(p, mode, target, done, s)
    requires if depth == 0 then f == target else target in s.visited
    ensures var s' := Walk(p, mode, maxDepth, f, depth, s);
      HasGathered(p, mode, target, done', s') && Continues(p, done, s, done', s')
    decreases maxDepth + 1 - depth, 1, 0
  {
    done' := done;
    if depth <= maxDepth && f !in s.visited {
      var entered := s.(visited := s.visited + {f}, ran := s.ran + [f]);
      if f in p.parses {
        var inner := RecurseGathers(p, mode, maxDepth, target, p.imports(f), depth, entered, done);
        var walked := Recurse(p, mode, maxDepth, p.imports(f), depth, entered);
        done' := inner + [f];
        FinishGathers(p, mode, target, f, depth, walked, inner);
        ExtractVisitsNothing(p, mode, p.imports(f), depth, walked);
        ExtractRunsNothing(p, mode, p.imports(f), depth, walked);
        assert walked.ran[|s.ran|..] == [f] + walked.ran[|entered.ran|..];
        assert done'[|done|..] == inner[|done|..] + [f];
      }
    }
  }

  lemma {:induction false} RecurseGathers(p: Project, mode: Mode, maxDepth: nat, target: File, es: seq<Import>,
                                          depth: nat, s: State, done: seq<File>) returns (done': seq<File>)
    requires depth <= maxDepth && HasGathered(p, mode, target, done, s) && target in s.visited
    ensures var s' := Recurse(p, mode, maxDepth, es, depth, s);
      HasGathered(p, mode, target, done', s') && Continues(p, done, s, done', s')
    decreases maxDepth + 1 - depth, 0, |es|
  {
    done' := done;
    if es != [] {
      var e := es[0];
      if e.file.Some? && e.file.value !in s.visited && e.file.value in p.readable {
        done' := WalkGathers(p, mode, maxDepth, target, e.file.value, depth + 1, s, done);
      }
      var next, first := RecurseInto(p, mode, maxDepth, e, depth, s), done';
      assert Continues(p, done, s, first, next);
      done' := RecurseGathers(p, mode, maxDepth, target, es[1..], depth, next, first);
      ContinuesTrans(p, done, s, first, next, done', Recurse(p, mode, maxDepth, es, depth, s));
    }
  }

  lemma {:induction false} ExtractRunsNothing(p: Project, mode: Mode, es: seq<Import>, depth: nat, s: State)
    ensures Extract(p, mode, es, depth, s).ran == s.ran
    decreases |es|
  {
    if es != [] {
      ExtractRunsNothing(p, mode, es[1..], depth, ExtractOne(p, mode, es[0], depth, s));
    }
  }

  lemma {:induction false} FinishGathers(p: Project, mode: Mode, target: File, f: File, depth: nat, s: State,
                                         done: seq<File>)
    requires HasGathered(p, mode, target, done, s)
    requires depth == 0 <==> f == target
    ensures HasGathered(p, mode, target, done + [f], Extract(p, mode, p.imports(f), depth, s))
  {
    var longer := done + [f];
    assert longer[..|longer| - 1] == done;
    forall w | Listable(p, w)
      ensures GroupOf(Extract(p, mode, p.imports(f), depth, s), w) == Gathered(p, mode, target, longer, w)
    {
      ExtractGathers(p, mode, p.imports(f), depth, s, w);
    }
  }

  /** On every graph and with every limit: the symbols of a listed file are those that the
      files whose body ran and that parse take from it, one file after the other as they are
      finished, each in the order of its imports. */
  lemma WalkSymbols(p: Project, mode: Mode, maxDepth: nat, target: File) returns (done: seq<File>)
    ensures var s := WalkTarget(p, mode, maxDepth, target);
      && (forall v :: v in done <==> v in s.ran && v in p.parses)
      && (forall w :: w in s.groups ==> s.groups[w] == Gathered(p, mode, target, done, w))
  {
    done := WalkGathers(p, mode, maxDepth, target, target, 0, Fresh, []);
    WalkIsSound(p, mode, maxDepth, target);
    var s := WalkTarget(p, mode, maxDepth, target);
    assert done[0..] == done && s.ran[0..] == s.ran;
  }

  /** A file is listed if and only if it can be read and parsed and some file whose body ran, and
      that parses, imports it. */
  lemma WalkFiles(p: Project, mode: Mode, maxDepth: nat, target: File, w: File)
    ensures var s := WalkTarget(p, mode, maxDepth, target);
      && (w in s.order <==> w in s.groups)
      && (w in s.order <==>
            w in p.readable && w in p.parses &&
            exists v, e :: v in s.ran && v in p.parses && e in p.imports(v) && e.file == Some(w))
  {
    ListIsImportsOfRun(p, mode, maxDepth, target);
    WalkIsSound(p, mode, maxDepth, target);
    forall v
      ensures Edge(p, v, w) <==>
        w in p.readable && v in p.parses && exists e :: e in p.imports(v) && e.file == Some(w)
    {
      if e :| e in p.imports(v) && e.file == Some(w) {
        var i :| 0 <= i < |p.imports(v)| && p.imports(v)[i] == e;
      }
    }
  }

  // -- Which symbols -------------------------------------------------------

  lemma {:induction false} TakenMeaning(p: Project, m: Mode, es: seq<Import>, w: File, x: Symbol)
    ensures x in Taken(p, m, es, w) <==> exists e :: e in es && e.file == Some(w) && x in p.extract(e, m)
    decreases |es|
  {
    if es != [] {
      TakenMeaning(p, m, es[1..], w, x);
      assert forall e :: e in es <==> e == es[0] || e in es[1..];
    }
  }

  lemma {:induction false} GatheredMeaning(p: Project, mode: Mode, target: File, done: seq<File>, w: File, x: Symbol)
    ensures x in Gathered(p, mode, target, done, w) <==>
      exists v, e :: v in done && e in p.imports(v) && e.file == Some(w) && x in p.extract(e, ModeFor(mode, target, v))
    decreases |done|
  {
    if done != [] {
      var before, v := done[..|done| - 1], done[|done| - 1];
      GatheredMeaning(p, mode, target, before, w, x);
      TakenMeaning(p, ModeFor(mode, target, v), p.imports(v), w, x);
      assert forall u :: u in done <==> u == v || u in before;
    }
  }

  /** A symbol is gathered for a listed file if and only if some file whose body ran, and that
      parses, has an import of the file that takes the symbol: in the mode asked for if it is
      the target or the mode is not hybrid, otherwise as a signature. */
  lemma WalkSymbolsMeaning(p: Project, mode: Mode, maxDepth: nat, target: File, w: File, x: Symbol)
    requires w in WalkTarget(p, mode, maxDepth, target).groups
    ensures var s := WalkTarget(p, mode, maxDepth, target);
      x in s.groups[w] <==>
      exists v, e :: v in s.ran && v in p.parses && e in p.imports(v) && e.file == Some(w)
        && x in p.extract(e, if mode.Hybrid? && v != target then Signatures else mode)
  {
    var done := WalkSymbols(p, mode, maxDepth, target);
    GatheredMeaning(p, mode, target, done, w, x);
  }

  // -- The result ----------------------------------------------------------

  /** `symbols[i]` is the first of its name. */
  predicate IsFirst(symbols: seq<Symbol>, i: nat, x: Symbol) {
    i < |symbols| && symbols[i] == x && forall k :: 0 <= k < i ==> symbols[k].name != x.name
  }

  /** Of symbols with one name the first is kept, and those kept stay in order. */
  lemma {:induction false} KeptSymbols(symbols: seq<Symbol>) returns (at: seq<nat>)
    ensures var kept := FirstOfEachName(symbols);
      |at| == |kept| && Increasing(at) && forall i :: 0 <= i < |at| ==> IsFirst(symbols, at[i], kept[i])
  {
    at := [];
    if symbols != [] {
      var before, last := symbols[..|symbols| - 1], symbols[|symbols| - 1];
      at := KeptSymbols(before);
      forall i, x | IsFirst(before, i, x)
        ensures IsFirst(symbols, i, x)
      {
        assert forall k :: 0 <= k < |before| ==> before[k] == symbols[k];
      }
      if !HasName(before, last.name) {
        assert forall k :: 0 <= k < |before| ==> before[k] == symbols[k];
        assert IsFirst(symbols, |before|, last);
        hide IsFirst, HasName;
        at := at + [|before|];
      }
    }
  }

  /** The groups are those of the files with symbols, in the order of the list. */
  lemma {:induction false} KeptGroups(order: seq<File>, groups: map<File, seq<Symbol>>) returns (at: seq<nat>)
    ensures var gs := ResultGroups(order, groups);
      && |at| == |gs| && Increasing(at)
      && (forall i :: 0 <= i < |at| ==> at[i] < |order| && gs[i].sourceFile == order[at[i]])
      && (forall i :: 0 <= i < |gs| ==>
            gs[i].sourceFile in groups && gs[i].symbols == FirstOfEachName(groups[gs[i].sourceFile]))
  {
    at := [];
    if order != [] {
      var before, last := order[..|order| - 1], order[|order| - 1];
      at := KeptGroups(before, groups);
      assert forall k :: 0 <= k < |before| ==> before[k] == order[k];
      if last in groups && groups[last] != [] {
        at := at + [|before|];
      }
    }
  }

  /** A name is in the group that is returned for a file if and only if some file whose body ran
      takes a symbol of that name from it. */
  lemma ResolvedNames(p: Project, mode: Mode, maxDepth: nat, target: File, g: Group, name: string)
    requires var s := WalkTarget(p, mode, maxDepth, target); g in ResultGroups(s.order, s.groups)
    ensures var s := WalkTarget(p, mode, maxDepth, target);
      HasName(g.symbols, name) <==>
      exists v, e, x :: v in s.ran && v in p.parses && e in p.imports(v) && e.file == Some(g.sourceFile) &&
        x in p.extract(e, if mode.Hybrid? && v != target then Signatures else mode) && x.name == name
  {
    var s := WalkTarget(p, mode, maxDepth, target);
    var at := KeptGroups(s.order, s.groups);
    var w := g.sourceFile;
    FirstOfEachNameIsDistinct(s.groups[w]);
    assert HasName(g.symbols, name) <==> HasName(s.groups[w], name);
    hide WalkTarget, ResultGroups, FirstOfEachName;
    if HasName(s.groups[w], name) {
      var i :| 0 <= i < |s.groups[w]| && s.groups[w][i].name == name;
      WalkSymbolsMeaning(p, mode, maxDepth, target, w, s.groups[w][i]);
    }
    if v, e, x :| v in s.ran && v in p.parses && e in p.imports(v) && e.file == Some(w) &&
                  x in p.extract(e, if mode.Hybrid? && v != target then Signatures else mode) && x.name == name {
      WalkSymbolsMeaning(p, mode, maxDepth, target, w, x);
    }
  }
}
