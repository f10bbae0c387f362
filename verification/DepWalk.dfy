/** The dependency walker of `dep_resolve_core`: a depth-limited depth-first walk over an
    import graph that may have cycles. */
module DepWalk {
  import opened Prelude

  /** A file, by the path under which imports resolve to it. */
  type File = string

  datatype Mode = Signatures | Hybrid | Full

  datatype Symbol = Symbol(name: string, text: string)

  /** One `from ... import ...`; `file` is the project file it resolves to, if any. */
  datatype Import = Import(modulePath: string, names: seq<string>, file: Option<File>)

  /** A project as the walker sees it: the files the reader returns, the files the parser
      accepts, the imports of each file and the symbols an import takes from its file. */
  datatype Project = Project(
    readable: set<File>,
    parses: set<File>,
    imports: File -> seq<Import>,
    extract: (Import, Mode) -> seq<Symbol>)

  // -- The import graph ----------------------------------------------------

  ghost predicate Imports(es: seq<Import>, w: File) {
    exists i :: 0 <= i < |es| && es[i].file == Some(w)
  }

  /** `v` is parsed and imports the readable file `w`. */
  ghost predicate Edge(p: Project, v: File, w: File) {
    v in p.parses && w in p.readable && Imports(p.imports(v), w)
  }

  /** Only files that can be read and parsed are listed. */
  predicate Listable(p: Project, w: File) {
    w in p.readable && w in p.parses
  }

  ghost predicate IsPath(p: Project, path: seq<File>) {
    path != [] && forall i {:trigger path[i]} :: 0 < i < |path| ==> Edge(p, path[i - 1], path[i])
  }

  predicate NoDuplicates<T(==)>(s: seq<T>) {
    forall i, j :: 0 <= i < j < |s| ==> s[i] != s[j]
  }

  /** `w` is reached from `source` by at least one and at most `hops` imports. */
  ghost predicate Within(p: Project, source: File, w: File, hops: nat) {
    exists path :: IsPath(p, path) && path[0] == source && path[|path| - 1] == w && 2 <= |path| <= hops + 1
  }

  /** `w` is reached from `source` by one or more imports. */
  ghost predicate Reached(p: Project, source: File, w: File) {
    exists path :: IsPath(p, path) && path[0] == source && path[|path| - 1] == w && 2 <= |path|
  }

  /** `w` is the source or reached from it. */
  ghost predicate InReach(p: Project, source: File, w: File) {
    w == source || Reached(p, source, w)
  }

  /** No file that the walk can come to imports itself, directly or not. */
  ghost predicate AcyclicFrom(p: Project, source: File) {
    forall v :: InReach(p, source, v) ==> !Reached(p, v, v)
  }

  /** `v` is parsed and imports some readable file. */
  ghost predicate IsImporter(p: Project, v: File) {
    exists w :: Edge(p, v, w)
  }

  /** No import chain without repetitions from `source` to a file that imports another one has
      more than `maxDepth` imports. The last file of a longer chain may be cut: it has nothing
      to walk. */
  ghost predicate Roomy(p: Project, source: File, maxDepth: nat) {
    forall path ::
      IsPath(p, path) && path[0] == source && NoDuplicates(path) && IsImporter(p, path[|path| - 1]) ==>
      |path| - 1 <= maxDepth
  }

  lemma PathSnoc(p: Project, path: seq<File>, w: File)
    requires IsPath(p, path) && Edge(p, path[|path| - 1], w)
    ensures IsPath(p, path + [w])
  {
    var longer := path + [w];
    forall i {:trigger longer[i]} | 0 < i < |longer|
      ensures Edge(p, longer[i - 1], longer[i])
    {
      if i < |path| {
        assert longer[i] == path[i] && longer[i - 1] == path[i - 1];
      }
    }
  }

  // -- The walk ------------------------------------------------------------

  /** `ResolveState`, with the files whose body ran, in order of entry. */
  datatype State = State(visited: set<File>, order: seq<File>, groups: map<File, seq<Symbol>>, ran: seq<File>)

  const Fresh := State({}, [], map[], [])

  function EffectiveMode(mode: Mode, depth: nat): Mode {
    if mode == Hybrid && depth > 0 then Signatures else mode
  }

  /** `walk_file`. */
  function Walk(p: Project, mode: Mode, maxDepth: nat, f: File, depth: nat, s: State): State
    requires depth <= maxDepth + 1
    decreases maxDepth + 1 - depth, 1, 0
  {
    if depth > maxDepth || f in s.visited then s
    else
      var entered := s.(visited := s.visited + {f}, ran := s.ran + [f]);
      if f !in p.parses then entered
      else
        Extract(p, mode, p.imports(f), depth, Recurse(p, mode, maxDepth, p.imports(f), depth, entered))
  }

  /** `recurse_into_deps`. */
  function Recurse(p: Project, mode: Mode, maxDepth: nat, es: seq<Import>, depth: nat, s: State): State
    requires depth <= maxDepth
    decreases maxDepth + 1 - depth, 0, |es|
  {
    if es == [] then s
    else
      Recurse(p, mode, maxDepth, es[1..], depth, RecurseInto(p, mode, maxDepth, es[0], depth, s))
  }

  function RecurseInto(p: Project, mode: Mode, maxDepth: nat, e: Import, depth: nat, s: State): State
    requires depth <= maxDepth
    decreases maxDepth - depth, 2, 0
  {
    if e.file.None? || e.file.value in s.visited || e.file.value !in p.readable then s
    else Walk(p, mode, maxDepth, e.file.value, depth + 1, s)
  }

  /** `extract_from_deps`. */
  function Extract(p: Project, mode: Mode, es: seq<Import>, depth: nat, s: State): State
    decreases |es|
  {
    if es == [] then s else Extract(p, mode, es[1..], depth, ExtractOne(p, mode, es[0], depth, s))
  }

  function ExtractOne(p: Project, mode: Mode, e: Import, depth: nat, s: State): State {
    if e.file.None? || !Listable(p, e.file.value) then s
    else
      var w := e.file.value;
      var earlier := if w in s.groups then s.groups[w] else [];
      s.(order := if w in s.order then s.order else s.order + [w],
         groups := s.groups[w := earlier + p.extract(e, EffectiveMode(mode, depth))])
  }

  // -- On every graph ------------------------------------------------------

  /** What every step keeps: no file runs or is listed twice, groups and listed files
      agree, and every listed file is a dependency at most `maxDepth + 1` imports away. */
  ghost predicate Sound(p: Project, source: File, maxDepth: nat, s: State) {
    && NoDuplicates(s.ran) && (forall f :: f in s.visited <==> f in s.ran)
    && NoDuplicates(s.order) && (forall w :: w in s.order <==> w in s.groups)
    && forall w :: w in s.order ==> Listable(p, w) && Within(p, source, w, maxDepth + 1)
  }

  /** The files being walked, from the source to the file at `depth`. */
  ghost predicate IsChain(p: Project, source: File, depth: nat, chain: seq<File>) {
    IsPath(p, chain) && chain[0] == source && |chain| == depth + 1
  }

  lemma ImportsFirst(es: seq<Import>)
    requires es != []
    ensures forall w :: Imports(es, w) <==> es[0].file == Some(w) || Imports(es[1..], w)
  {
    forall w | Imports(es, w) && es[0].file != Some(w)
      ensures Imports(es[1..], w)
    {
      var i :| 0 <= i < |es| && es[i].file == Some(w);
      assert es[1..][i - 1].file == Some(w);
    }
    forall w | Imports(es[1..], w)
      ensures Imports(es, w)
    {
      var i :| 0 <= i < |es[1..]| && es[1..][i].file == Some(w);
      assert es[i + 1].file == Some(w);
    }
  }

  lemma ExtractOneSound(p: Project, mode: Mode, maxDepth: nat, source: File, chain: seq<File>, e: Import,
                        depth: nat, s: State)
    requires Sound(p, source, maxDepth, s)
    requires depth <= maxDepth && IsChain(p, source, depth, chain)
    requires chain[depth] in p.parses && (e.file.Some? ==> Imports(p.imports(chain[depth]), e.file.value))
    ensures Sound(p, source, maxDepth, ExtractOne(p, mode, e, depth, s))
  {
    if e.file.Some? && Listable(p, e.file.value) {
      PathSnoc(p, chain, e.file.value);
      var path := chain + [e.file.value];
      assert path[0] == source && path[|path| - 1] == e.file.value;
      assert Within(p, source, e.file.value, maxDepth + 1);
    }
  }

  lemma {:induction false} ExtractSound(p: Project, mode: Mode, maxDepth: nat, source: File, chain: seq<File>,
                                        es: seq<Import>, depth: nat, s: State)
    requires Sound(p, source, maxDepth, s)
    requires depth <= maxDepth && IsChain(p, source, depth, chain)
    requires chain[depth] in p.parses && forall w :: Imports(es, w) ==> Imports(p.imports(chain[depth]), w)
    ensures Sound(p, source, maxDepth, Extract(p, mode, es, depth, s))
    decreases |es|
  {
    if es != [] {
      ImportsFirst(es);
      ExtractOneSound(p, mode, maxDepth, source, chain, es[0], depth, s);
      ExtractSound(p, mode, maxDepth, source, chain, es[1..], depth, ExtractOne(p, mode, es[0], depth, s));
    }
  }

  lemma {:induction false} WalkSound(p: Project, mode: Mode, maxDepth: nat, source: File, chain: seq<File>,
                                     f: File, depth: nat, s: State)
    requires Sound(p, source, maxDepth, s)
    requires depth <= maxDepth + 1 && IsChain(p, source, depth, chain) && chain[depth] == f
    ensures Sound(p, source, maxDepth, Walk(p, mode, maxDepth, f, depth, s))
    decreases maxDepth + 1 - depth, 1, 0
  {
    if depth <= maxDepth && f !in s.visited {
      var entered := s.(visited := s.visited + {f}, ran := s.ran + [f]);
      assert Sound(p, source, maxDepth, entered);
      if f in p.parses {
        RecurseSound(p, mode, maxDepth, source, chain, p.imports(f), depth, entered);
        ExtractSound(p, mode, maxDepth, source, chain, p.imports(f), depth,
                     Recurse(p, mode, maxDepth, p.imports(f), depth, entered));
      }
    }
  }

  lemma {:induction false} RecurseSound(p: Project, mode: Mode, maxDepth: nat, source: File, chain: seq<File>,
                                        es: seq<Import>, depth: nat, s: State)
    requires Sound(p, source, maxDepth, s)
    requires depth <= maxDepth && IsChain(p, source, depth, chain)
    requires chain[depth] in p.parses && forall w :: Imports(es, w) ==> Imports(p.imports(chain[depth]), w)
    ensures Sound(p, source, maxDepth, Recurse(p, mode, maxDepth, es, depth, s))
    decreases maxDepth + 1 - depth, 0, |es|
  {
    if es != [] {
      ImportsFirst(es);
      var e := es[0];
      if e.file.Some? && e.file.value !in s.visited && e.file.value in p.readable {
        PathSnoc(p, chain, e.file.value);
        WalkSound(p, mode, maxDepth, source, chain + [e.file.value], e.file.value, depth + 1, s);
      }
      RecurseSound(p, mode, maxDepth, source, chain, es[1..], depth, RecurseInto(p, mode, maxDepth, e, depth, s));
    }
  }

  /** The walk from the target file. */
  function WalkTarget(p: Project, mode: Mode, maxDepth: nat, target: File): State {
    Walk(p, mode, maxDepth, target, 0, Fresh)
  }

  /** On every graph, cyclic or not: each body runs once, no file is listed twice, and only
      dependencies within the depth limit are listed. */
  lemma WalkIsSound(p: Project, mode: Mode, maxDepth: nat, target: File)
    ensures Sound(p, target, maxDepth, WalkTarget(p, mode, maxDepth, target))
  {
    WalkSound(p, mode, maxDepth, target, [target], target, 0, Fresh);
  }

  // -- What is listed, whatever the limit ----------------------------------

  /** The files whose body ran and that are not being walked any more have their listable
      imports listed, and only imports of files whose body ran are listed. */
  ghost predicate Lists(p: Project, s: State, walking: set<File>) {
    && (forall v, w :: v in s.visited && v !in walking && Edge(p, v, w) && Listable(p, w) ==> w in s.order)
    && (forall w :: w in s.order ==> ImportedByVisited(p, s, w))
  }

  ghost predicate ImportedByVisited(p: Project, s: State, w: File) {
    exists v :: v in s.visited && Edge(p, v, w)
  }

  lemma {:induction false} ExtractLists(p: Project, mode: Mode, f: File, es: seq<Import>, depth: nat, s: State)
    requires f in s.visited && f in p.parses && forall w :: Imports(es, w) ==> Imports(p.imports(f), w)
    requires forall w :: w in s.order ==> ImportedByVisited(p, s, w)
    ensures var s' := Extract(p, mode, es, depth, s);
      && s'.visited == s.visited && s.order <= s'.order
      && (forall w :: w in s'.order ==> ImportedByVisited(p, s', w))
      && (forall w :: Imports(es, w) && Listable(p, w) ==> w in s'.order)
    decreases |es|
  {
    if es != [] {
      ImportsFirst(es);
      var next := ExtractOne(p, mode, es[0], depth, s);
      forall w | w in next.order
        ensures ImportedByVisited(p, next, w)
      {
        if w !in s.order {
          assert Edge(p, f, w);
        }
      }
      assert es[0].file.Some? && Listable(p, es[0].file.value) ==> es[0].file.value in next.order;
      ExtractLists(p, mode, f, es[1..], depth, next);
    }
  }

  lemma {:induction false} WalkLists(p: Project, mode: Mode, maxDepth: nat, f: File, depth: nat, s: State,
                                     walking: set<File>)
    requires depth <= maxDepth + 1 && Lists(p, s, walking)
    ensures var s' := Walk(p, mode, maxDepth, f, depth, s);
      && Lists(p, s', walking) && Grows(s, s')
      && (depth <= maxDepth ==> f in s'.visited)
    decreases maxDepth + 1 - depth, 1, 0
  {
    if depth <= maxDepth && f !in s.visited {
      var entered := s.(visited := s.visited + {f}, ran := s.ran + [f]);
      assert forall w :: ImportedByVisited(p, s, w) ==> ImportedByVisited(p, entered, w);
      if f in p.parses {
        RecurseLists(p, mode, maxDepth, p.imports(f), depth, entered, walking + {f});
        ExtractLists(p, mode, f, p.imports(f), depth, Recurse(p, mode, maxDepth, p.imports(f), depth, entered));
      }
    }
  }

  lemma {:induction false} RecurseLists(p: Project, mode: Mode, maxDepth: nat, es: seq<Import>, depth: nat,
                                        s: State, walking: set<File>)
    requires depth <= maxDepth && Lists(p, s, walking)
    ensures var s' := Recurse(p, mode, maxDepth, es, depth, s);
      Lists(p, s', walking) && Grows(s, s')
    decreases maxDepth + 1 - depth, 0, |es|
  {
    if es != [] {
      var e := es[0];
      if e.file.Some? && e.file.value !in s.visited && e.file.value in p.readable {
        WalkLists(p, mode, maxDepth, e.file.value, depth + 1, s, walking);
      }
      RecurseLists(p, mode, maxDepth, es[1..], depth, RecurseInto(p, mode, maxDepth, e, depth, s), walking);
    }
  }

  /** On every graph and with every limit the list is exactly the listable imports of the
      files whose body ran; the body of the target always runs. */
  lemma ListIsImportsOfRun(p: Project, mode: Mode, maxDepth: nat, target: File)
    ensures var s := WalkTarget(p, mode, maxDepth, target);
      && target in s.ran
      && forall w :: w in s.order <==> Listable(p, w) && exists v :: v in s.ran && Edge(p, v, w)
  {
    var s := WalkTarget(p, mode, maxDepth, target);
    WalkLists(p, mode, maxDepth, target, 0, Fresh, {});
    WalkIsSound(p, mode, maxDepth, target);
    forall w | w in s.order
      ensures exists v :: v in s.ran && Edge(p, v, w)
    {
      var v :| v in s.visited && Edge(p, v, w);
      assert v in s.ran;
    }
  }

  /** A file within the limit can be missed. With limit 2, `t` imports `a` and then `b`, `a`
      imports `b`, `b` imports `c` and `c` imports `d`. The walk comes to `b` by way of `a`, so it
      is cut at `c` and `d` is not listed, although `d` is 3 imports away. */
  lemma DetourMisses(p: Project, mode: Mode, a: Import, b: Import, c: Import, d: Import)
    requires p.readable == {"a", "b", "c", "d"} && p.parses == {"t", "a", "b", "c", "d"}
    requires a.file == Some("a") && b.file == Some("b") && c.file == Some("c") && d.file == Some("d")
    requires p.imports("t") == [a, b] && p.imports("a") == [b] && p.imports("b") == [c]
    requires p.imports("c") == [d] && p.imports("d") == []
    ensures Listable(p, "d") && Within(p, "t", "d", 3)
    ensures "d" !in WalkTarget(p, mode, 2, "t").order
  {
    hide Walk, WalkTarget, Edge, Within;
    DetourPath(p, a, b, c, d);
    DetourVisits(p, mode, a, b, c);
    WalkIsSound(p, mode, 2, "t");
    ListIsImportsOfRun(p, mode, 2, "t");
    NoEdge(p, "t", "d");
    NoEdge(p, "a", "d");
    NoEdge(p, "b", "d");
  }

  lemma NoEdge(p: Project, v: File, w: File)
    requires forall e :: e in p.imports(v) ==> e.file != Some(w)
    ensures !Edge(p, v, w)
  {
  }

  lemma DetourPath(p: Project, a: Import, b: Import, c: Import, d: Import)
    requires {"b", "c", "d"} <= p.readable && {"t", "b", "c"} <= p.parses
    requires b.file == Some("b") && c.file == Some("c") && d.file == Some("d")
    requires p.imports("t") == [a, b] && p.imports("b") == [c] && p.imports("c") == [d]
    ensures Within(p, "t", "d", 3)
  {
    ImportsAt(p, "t", 1, "b");
    ImportsAt(p, "b", 0, "c");
    ImportsAt(p, "c", 0, "d");
    var path := ["t", "b", "c", "d"];
    assert IsPath(p, path) && path[0] == "t" && path[|path| - 1] == "d";
  }

  lemma ImportsAt(p: Project, v: File, i: nat, w: File)
    requires v in p.parses && w in p.readable && i < |p.imports(v)| && p.imports(v)[i].file == Some(w)
    ensures Edge(p, v, w)
  {
  }

  lemma DetourVisits(p: Project, mode: Mode, a: Import, b: Import, c: Import)
    requires {"a", "b", "c"} <= p.readable && {"t", "a", "b"} <= p.parses
    requires a.file == Some("a") && b.file == Some("b") && c.file == Some("c")
    requires p.imports("t") == [a, b] && p.imports("a") == [b] && p.imports("b") == [c]
    ensures WalkTarget(p, mode, 2, "t").visited == {"t", "a", "b"}
  {
    assert [b][1..] == [] && [c][1..] == [] && [a, b][1..] == [b];
    var s1 := Fresh.(visited := Fresh.visited + {"t"}, ran := Fresh.ran + ["t"]);
    var s2 := s1.(visited := s1.visited + {"a"}, ran := s1.ran + ["a"]);
    var s3 := s2.(visited := s2.visited + {"b"}, ran := s2.ran + ["b"]);
    assert Recurse(p, mode, 2, [c], 2, s3) == Recurse(p, mode, 2, [], 2, s3) == s3;
    var s4 := Walk(p, mode, 2, "b", 2, s2);
    ExtractVisitsNothing(p, mode, [c], 2, s3);
    assert Recurse(p, mode, 2, [b], 1, s2) == Recurse(p, mode, 2, [], 1, s4) == s4;
    var s5 := Walk(p, mode, 2, "a", 1, s1);
    ExtractVisitsNothing(p, mode, [b], 1, s4);
    assert s5.visited == {"t", "a", "b"};
    assert Recurse(p, mode, 2, [b], 0, s5) == Recurse(p, mode, 2, [], 0, s5) == s5;
    assert Recurse(p, mode, 2, [a, b], 0, s1) == s5;
    ExtractVisitsNothing(p, mode, [a, b], 0, s5);
  }

  lemma {:induction false} ExtractVisitsNothing(p: Project, mode: Mode, es: seq<Import>, depth: nat, s: State)
    ensures Extract(p, mode, es, depth, s).visited == s.visited
    decreases |es|
  {
    if es != [] {
      ExtractVisitsNothing(p, mode, es[1..], depth, ExtractOne(p, mode, es[0], depth, s));
    }
  }

  // -- When the depth limit never cuts the walk ----------------------------

  ghost predicate Grows(s: State, s': State) {
    s.visited <= s'.visited && s.order <= s'.order
  }

  /** Every import of `v` was walked and every listable one is listed. */
  ghost predicate Finished(p: Project, s: State, v: File) {
    forall w :: Edge(p, v, w) ==> IsWalked(p, s, w) && (Listable(p, w) ==> w in s.order)
  }

  /** The file was visited, or there is nothing to visit it for. */
  ghost predicate IsWalked(p: Project, s: State, w: File) {
    w in s.visited || !IsImporter(p, w)
  }

  /** Every dependency of a listed file stands before it. */
  ghost predicate Topological(p: Project, order: seq<File>) {
    forall i, w :: 0 <= i < |order| && Edge(p, order[i], w) && Listable(p, w) ==> w in order[..i]
  }

  /** Visited files are finished unless they are being walked; without cycles the order so
      far is topological. */
  ghost predicate Settled(p: Project, source: File, s: State, stack: seq<File>) {
    && (forall v :: v in stack ==> v in s.visited)
    && (forall v :: v in s.visited ==> v in stack || Finished(p, s, v))
    && (AcyclicFrom(p, source) ==> Topological(p, s.order))
  }

  lemma PathFrom(p: Project, path: seq<File>, i: nat)
    requires IsPath(p, path) && i < |path|
    ensures IsPath(p, path[i..])
  {
    var tail := path[i..];
    forall k {:trigger tail[k]} | 0 < k < |tail|
      ensures Edge(p, tail[k - 1], tail[k])
    {
      assert tail[k] == path[i + k] && tail[k - 1] == path[i + k - 1];
    }
  }

  lemma BackEdgeIsCycle(p: Project, chain: seq<File>, w: File)
    requires IsPath(p, chain) && Edge(p, chain[|chain| - 1], w) && w in chain
    ensures Reached(p, w, w)
  {
    var i :| 0 <= i < |chain| && chain[i] == w;
    PathFrom(p, chain, i);
    PathSnoc(p, chain[i..], w);
    var cycle := chain[i..] + [w];
    assert cycle[0] == w && cycle[|cycle| - 1] == w;
  }

  lemma ChainInReach(p: Project, chain: seq<File>, w: File)
    requires IsPath(p, chain) && w in chain
    ensures InReach(p, chain[0], w)
  {
    var i :| 0 <= i < |chain| && chain[i] == w;
    var prefix := chain[..i + 1];
    forall k {:trigger prefix[k]} | 0 < k < |prefix|
      ensures Edge(p, prefix[k - 1], prefix[k])
    {
      assert prefix[k] == chain[k] && prefix[k - 1] == chain[k - 1];
    }
    assert prefix[0] == chain[0] && prefix[|prefix| - 1] == w;
  }

  lemma NoBackEdge(p: Project, chain: seq<File>, w: File)
    requires IsPath(p, chain) && AcyclicFrom(p, chain[0]) && Edge(p, chain[|chain| - 1], w)
    ensures w !in chain
  {
    if w in chain {
      BackEdgeIsCycle(p, chain, w);
      ChainInReach(p, chain, w);
    }
  }

  lemma ListOne(p: Project, order: seq<File>, w: File)
    requires Topological(p, order)
    requires forall g :: Edge(p, w, g) && Listable(p, g) ==> g in order
    ensures Topological(p, order + [w])
  {
    var longer := order + [w];
    forall i, g | 0 <= i < |longer| && Edge(p, longer[i], g) && Listable(p, g)
      ensures g in longer[..i]
    {
      assert i < |order| ==> longer[i] == order[i] && longer[..i] == order[..i];
      assert longer[..|order|] == order;
    }
  }

  lemma ExtractOneSettles(p: Project, mode: Mode, source: File, chain: seq<File>, e: Import, depth: nat, s: State)
    requires IsPath(p, chain) && chain[0] == source && Settled(p, source, s, chain)
    requires e.file.Some? && e.file.value in p.readable ==>
      Edge(p, chain[|chain| - 1], e.file.value) && IsWalked(p, s, e.file.value)
    ensures var s' := ExtractOne(p, mode, e, depth, s);
      && Settled(p, source, s', chain) && Grows(s, s') && s'.visited == s.visited
      && (e.file.Some? && Listable(p, e.file.value) ==> e.file.value in s'.order)
  {
    if e.file.Some? && Listable(p, e.file.value) && e.file.value !in s.order {
      if AcyclicFrom(p, source) {
        NoBackEdge(p, chain, e.file.value);
        assert Finished(p, s, e.file.value);
        ListOne(p, s.order, e.file.value);
      }
    }
  }

  lemma {:induction false} ExtractSettles(p: Project, mode: Mode, source: File, chain: seq<File>, es: seq<Import>,
                                          depth: nat, s: State)
    requires IsPath(p, chain) && chain[0] == source && Settled(p, source, s, chain)
    requires forall w :: Imports(es, w) && w in p.readable ==> Edge(p, chain[|chain| - 1], w) && IsWalked(p, s, w)
    ensures var s' := Extract(p, mode, es, depth, s);
      && Settled(p, source, s', chain) && Grows(s, s') && s'.visited == s.visited
      && (forall w :: Imports(es, w) && Listable(p, w) ==> w in s'.order)
    decreases |es|
  {
    if es != [] {
      ImportsFirst(es);
      ExtractOneSettles(p, mode, source, chain, es[0], depth, s);
      ExtractSettles(p, mode, source, chain, es[1..], depth, ExtractOne(p, mode, es[0], depth, s));
    }
  }

  /** A walk that is not cut before an importer finishes its file and everything it enters. */
  lemma {:induction false} WalkSettles(p: Project, mode: Mode, maxDepth: nat, source: File, stack: seq<File>,
                                       f: File, s: State)
    requires Roomy(p, source, maxDepth) && |stack| <= maxDepth + 1
    requires IsChain(p, source, |stack|, stack + [f]) && NoDuplicates(stack + [f])
    requires Settled(p, source, s, stack) && f !in s.visited
    ensures var s' := Walk(p, mode, maxDepth, f, |stack|, s);
      Settled(p, source, s', stack) && Grows(s, s') && IsWalked(p, s', f) && (|stack| <= maxDepth ==> f in s'.visited)
    decreases maxDepth + 1 - |stack|, 1, 0
  {
    var depth, chain := |stack|, stack + [f];
    if depth > maxDepth {
      assert chain[|chain| - 1] == f;
      return;
    }
    var entered := s.(visited := s.visited + {f}, ran := s.ran + [f]);
    assert Settled(p, source, entered, chain);
    if f in p.parses {
      assert chain[depth] == f;
      RecurseSettles(p, mode, maxDepth, source, chain, p.imports(f), entered);
      ExtractSettles(p, mode, source, chain, p.imports(f), depth,
        Recurse(p, mode, maxDepth, p.imports(f), depth, entered));
    }
    var s' := Walk(p, mode, maxDepth, f, depth, s);
    assert Finished(p, s', f);
  }

  lemma {:induction false} RecurseSettles(p: Project, mode: Mode, maxDepth: nat, source: File, chain: seq<File>,
                                          es: seq<Import>, s: State)
    requires Roomy(p, source, maxDepth) && 1 <= |chain| <= maxDepth + 1
    requires IsChain(p, source, |chain| - 1, chain) && NoDuplicates(chain)
    requires Settled(p, source, s, chain)
    requires forall w :: Imports(es, w) && w in p.readable ==> Edge(p, chain[|chain| - 1], w)
    ensures var s' := Recurse(p, mode, maxDepth, es, |chain| - 1, s);
      && Settled(p, source, s', chain) && Grows(s, s')
      && forall w :: Imports(es, w) && w in p.readable ==> IsWalked(p, s', w)
    decreases maxDepth + 2 - |chain|, 0, |es|
  {
    if es != [] {
      hide Roomy, NoDuplicates, Settled;
      ImportsFirst(es);
      var e := es[0];
      if e.file.Some? && e.file.value !in s.visited && e.file.value in p.readable {
        PathSnoc(p, chain, e.file.value);
        WalkSettles(p, mode, maxDepth, source, chain, e.file.value, s);
      }
      RecurseSettles(p, mode, maxDepth, source, chain, es[1..], RecurseInto(p, mode, maxDepth, e, |chain| - 1, s));
    }
  }

  lemma TargetSettles(p: Project, mode: Mode, maxDepth: nat, target: File)
    requires Roomy(p, target, maxDepth)
    ensures var s := WalkTarget(p, mode, maxDepth, target);
      Settled(p, target, s, []) && target in s.visited
  {
    assert [] + [target] == [target];
    WalkSettles(p, mode, maxDepth, target, [], target, Fresh);
  }

  lemma {:induction false} PathIsVisited(p: Project, source: File, s: State, path: seq<File>)
    requires Settled(p, source, s, []) && IsPath(p, path) && path[0] in s.visited
    ensures IsWalked(p, s, path[|path| - 1])
    ensures |path| >= 2 && Listable(p, path[|path| - 1]) ==> path[|path| - 1] in s.order
  {
    if |path| >= 2 {
      var front := path[..|path| - 1];
      PathIsVisited(p, source, s, front);
      var v := front[|front| - 1];
      assert Edge(p, v, path[|path| - 1]);
      assert Finished(p, s, v);
    }
  }

  /** When the limit cuts at no importer, the list is exactly the readable,
      parseable files that one or more imports reach. */
  lemma WalkIsExact(p: Project, mode: Mode, maxDepth: nat, target: File)
    requires Roomy(p, target, maxDepth)
    ensures forall w :: w in WalkTarget(p, mode, maxDepth, target).order <==> Listable(p, w) && Reached(p, target, w)
  {
    var s := WalkTarget(p, mode, maxDepth, target);
    TargetSettles(p, mode, maxDepth, target);
    WalkIsSound(p, mode, maxDepth, target);
    forall w | Listable(p, w) && Reached(p, target, w)
      ensures w in s.order
    {
      var path :| IsPath(p, path) && path[0] == target && path[|path| - 1] == w && 2 <= |path|;
      PathIsVisited(p, target, s, path);
    }
  }

  /** In a topological order a dependency of a listed file stands before it, however long the
      chain of imports. */
  lemma {:induction false} ChainDescends(p: Project, order: seq<File>, path: seq<File>, i: nat)
    requires Topological(p, order) && IsPath(p, path) && |path| >= 2
    requires i < |order| && order[i] == path[0] && Listable(p, path[|path| - 1])
    ensures path[|path| - 1] in order[..i]
    decreases |path|
  {
    assert Edge(p, path[0], path[1]);
    if |path| > 2 {
      PathFrom(p, path, 1);
      assert Edge(p, path[1], path[2]);
      assert Edge(p, order[i], path[1]) && Listable(p, path[1]);
      var j :| 0 <= j < i && order[..i][j] == path[1];
      ChainDescends(p, order, path[1..], j);
    }
  }

  /** A file that imports itself is read and parsed. */
  lemma CycleIsListable(p: Project, v: File)
    requires Reached(p, v, v)
    ensures Listable(p, v)
  {
    var path :| IsPath(p, path) && path[0] == v && path[|path| - 1] == v && 2 <= |path|;
    assert Edge(p, path[0], path[1]);
    assert Edge(p, path[|path| - 1 - 1], path[|path| - 1]);
  }

  lemma CycleIsNotTopological(p: Project, order: seq<File>, v: File)
    requires NoDuplicates(order) && v in order && Reached(p, v, v)
    ensures !Topological(p, order)
  {
    CycleIsListable(p, v);
    if Topological(p, order) {
      var path :| IsPath(p, path) && path[0] == v && path[|path| - 1] == v && 2 <= |path|;
      var i :| 0 <= i < |order| && order[i] == v;
      ChainDescends(p, order, path, i);
    }
  }

  /** When the limit cuts at no importer, the order is topological exactly when no file that the walk
      can come to is on a cycle, and the target is listed exactly when it is on one. */
  lemma WalkIsTopological(p: Project, mode: Mode, maxDepth: nat, target: File)
    requires Roomy(p, target, maxDepth)
    ensures var order := WalkTarget(p, mode, maxDepth, target).order;
      && (Topological(p, order) <==> AcyclicFrom(p, target))
      && (target !in order <==> !Reached(p, target, target))
  {
    var order := WalkTarget(p, mode, maxDepth, target).order;
    TargetSettles(p, mode, maxDepth, target);
    WalkIsExact(p, mode, maxDepth, target);
    WalkIsSound(p, mode, maxDepth, target);
    if Reached(p, target, target) {
      CycleIsListable(p, target);
    }
    if !AcyclicFrom(p, target) {
      var v :| InReach(p, target, v) && Reached(p, v, v);
      CycleIsListable(p, v);
      CycleIsNotTopological(p, order, v);
    }
  }

  lemma {:induction false} DistinctWithin<T>(s: seq<T>, whole: set<T>)
    requires NoDuplicates(s) && forall x :: x in s ==> x in whole
    ensures |s| <= |whole|
  {
    if s != [] {
      forall x | x in s[1..]
        ensures x in whole - {s[0]}
      {
        var i :| 0 <= i < |s[1..]| && s[1..][i] == x;
        assert s[i + 1] == x;
      }
      DistinctWithin(s[1..], whole - {s[0]});
    }
  }

  /** A limit of at least the number of readable files never cuts, cycles or not. */
  lemma RoomyByFileCount(p: Project, source: File, maxDepth: nat)
    requires |p.readable| <= maxDepth
    ensures Roomy(p, source, maxDepth)
  {
    forall path | IsPath(p, path) && path[0] == source && NoDuplicates(path)
      ensures |path| - 1 <= maxDepth
    {
      forall w | w in path[1..]
        ensures w in p.readable
      {
        var i :| 0 <= i < |path[1..]| && path[1..][i] == w;
        assert Edge(p, path[i + 1 - 1], path[i + 1]);
      }
      DistinctWithin(path[1..], p.readable);
    }
  }

  /** The limit matters: when it cuts the walk, the order need not be topological. With
      limit 1, `t` imports `a` and then `b`, `a` imports `b` and `b` imports `c`. The walk of
      `b` below `a` is cut, so `b` is listed before its own dependency `c`. A cut file is not
      marked as visited, so the second import of `b` still walks it. */
  lemma CutOrderIsNotTopological(p: Project, mode: Mode, a: Import, b: Import, c: Import)
    requires p.readable == {"a", "b", "c"} && p.parses == {"t", "a", "b", "c"}
    requires a.file == Some("a") && b.file == Some("b") && c.file == Some("c")
    requires p.imports("t") == [a, b] && p.imports("a") == [b] && p.imports("b") == [c]
    ensures WalkTarget(p, mode, 1, "t").order == ["b", "c", "a"]
    ensures !Topological(p, WalkTarget(p, mode, 1, "t").order)
  {
    var s1 := Fresh.(visited := Fresh.visited + {"t"}, ran := Fresh.ran + ["t"]);
    var s3 := Walk(p, mode, 1, "a", 1, s1);
    CutWalkOfA(p, mode, b, s1);
    var s5 := Walk(p, mode, 1, "b", 1, s3);
    CutWalkOfB(p, mode, c, s3);
    assert [a, b][1..] == [b] && [b][1..] == [];
    assert RecurseInto(p, mode, 1, a, 0, s1) == s3 && RecurseInto(p, mode, 1, b, 0, s3) == s5;
    assert Recurse(p, mode, 1, [b], 0, s3) == Recurse(p, mode, 1, [], 0, s5) == s5;
    assert Recurse(p, mode, 1, [a, b], 0, s1) == s5;
    var s6 := ExtractOne(p, mode, a, 0, s5);
    assert Extract(p, mode, [b], 0, s6) == Extract(p, mode, [], 0, ExtractOne(p, mode, b, 0, s6));
    var s := WalkTarget(p, mode, 1, "t");
    assert s == Extract(p, mode, [a, b], 0, s5) == Extract(p, mode, [b], 0, s6);
    assert [c][0].file == Some("c");
    assert Edge(p, s.order[0], "c") && Listable(p, "c") && "c" !in s.order[..0];
  }

  lemma {:induction false} CutWalkOfA(p: Project, mode: Mode, b: Import, s1: State)
    requires {"a", "b"} <= p.readable && {"a", "b"} <= p.parses && b.file == Some("b")
    requires p.imports("a") == [b] && s1.visited == {"t"} && s1.order == []
    ensures var s3 := Walk(p, mode, 1, "a", 1, s1); s3.visited == {"t", "a"} && s3.order == ["b"]
  {
    var s2 := s1.(visited := s1.visited + {"a"}, ran := s1.ran + ["a"]);
    assert [b][1..] == [];
    assert Walk(p, mode, 1, "b", 2, s2) == s2;
    assert Recurse(p, mode, 1, [b], 1, s2) == Recurse(p, mode, 1, [], 1, s2) == s2;
    assert Extract(p, mode, [b], 1, s2) == Extract(p, mode, [], 1, ExtractOne(p, mode, b, 1, s2));
  }

  lemma {:induction false} CutWalkOfB(p: Project, mode: Mode, c: Import, s3: State)
    requires {"b", "c"} <= p.readable && {"b", "c"} <= p.parses && c.file == Some("c")
    requires p.imports("b") == [c] && s3.visited == {"t", "a"} && s3.order == ["b"]
    ensures var s5 := Walk(p, mode, 1, "b", 1, s3); s5.order == ["b", "c"] && s5.visited == {"t", "a", "b"}
  {
    var s4 := s3.(visited := s3.visited + {"b"}, ran := s3.ran + ["b"]);
    assert [c][1..] == [];
    assert Recurse(p, mode, 1, [c], 1, s4) == Recurse(p, mode, 1, [], 1, s4) == s4;
    assert Extract(p, mode, [c], 1, s4) == Extract(p, mode, [], 1, ExtractOne(p, mode, c, 1, s4));
  }
}
