/** The dependency walk under a limit that cuts it: when the limit cuts every chain to a file or
    none, the list and its order are still exact. */
module DepCut {
  import opened Prelude
  import opened DepWalk

  ghost predicate LeadsTo(p: Project, source: File, path: seq<File>, w: File) {
    IsPath(p, path) && path[0] == source && path[|path| - 1] == w
  }

  /** Some import chain of at most `hops` imports leads from the source to the file. */
  ghost predicate Near(p: Project, source: File, hops: nat, w: File) {
    exists path :: LeadsTo(p, source, path, w) && |path| - 1 <= hops
  }

  /** Then all chains to the file are that short. */
  ghost predicate IsEven(p: Project, source: File, hops: nat, w: File) {
    Near(p, source, hops, w) ==> forall path :: LeadsTo(p, source, path, w) ==> |path| - 1 <= hops
  }

  /** The limit cuts all chains to an importer or none, and so it is with all files one import
      further, which are listed without being walked. */
  ghost predicate CutsEvenly(p: Project, source: File, maxDepth: nat) {
    && (forall v :: IsImporter(p, v) ==> IsEven(p, source, maxDepth, v))
    && AllEven(p, source, maxDepth + 1)
  }

  ghost predicate AllEven(p: Project, source: File, hops: nat) {
    forall w :: IsEven(p, source, hops, w)
  }

  /** Listed dependencies of a listed file stand before it. */
  ghost predicate InOrder(p: Project, order: seq<File>) {
    forall i, w :: 0 <= i < |order| && Edge(p, order[i], w) && w in order ==> w in order[..i]
  }

  // -- The project that the walk sees --------------------------------------

  /** The project without the imports of files that are too far away to be walked. */
  ghost function Seen(p: Project, source: File, maxDepth: nat): Project {
    p.(imports := (f: File) => if Near(p, source, maxDepth, f) then p.imports(f) else [])
  }

  lemma {:induction false} ExtractSees(p: Project, q: Project, mode: Mode, es: seq<Import>, depth: nat, s: State)
    requires q == p.(imports := q.imports)
    ensures Extract(p, mode, es, depth, s) == Extract(q, mode, es, depth, s)
    decreases |es|
  {
    if es != [] {
      assert ExtractOne(p, mode, es[0], depth, s) == ExtractOne(q, mode, es[0], depth, s);
      ExtractSees(p, q, mode, es[1..], depth, ExtractOne(p, mode, es[0], depth, s));
    }
  }

  lemma {:induction false} WalkSees(p: Project, mode: Mode, maxDepth: nat, source: File, chain: seq<File>, s: State)
    requires 1 <= |chain| <= maxDepth + 2 && LeadsTo(p, source, chain, chain[|chain| - 1])
    ensures var f, depth := chain[|chain| - 1], |chain| - 1;
      Walk(Seen(p, source, maxDepth), mode, maxDepth, f, depth, s) == Walk(p, mode, maxDepth, f, depth, s)
    decreases maxDepth + 2 - |chain|, 1, 0
  {
    var f, depth, q := chain[|chain| - 1], |chain| - 1, Seen(p, source, maxDepth);
    if depth <= maxDepth && f !in s.visited && f in p.parses {
      var entered := s.(visited := s.visited + {f}, ran := s.ran + [f]);
      assert Near(p, source, maxDepth, f);
      assert q.imports(f) == p.imports(f);
      RecurseSees(p, mode, maxDepth, source, chain, p.imports(f), entered);
      ExtractSees(p, q, mode, p.imports(f), depth, Recurse(p, mode, maxDepth, p.imports(f), depth, entered));
    }
  }

  lemma {:induction false} RecurseSees(p: Project, mode: Mode, maxDepth: nat, source: File, chain: seq<File>,
                                       es: seq<Import>, s: State)
    requires 1 <= |chain| <= maxDepth + 1 && LeadsTo(p, source, chain, chain[|chain| - 1])
    requires forall w :: Imports(es, w) && w in p.readable ==> Edge(p, chain[|chain| - 1], w)
    ensures var depth := |chain| - 1;
      Recurse(Seen(p, source, maxDepth), mode, maxDepth, es, depth, s) == Recurse(p, mode, maxDepth, es, depth, s)
    decreases maxDepth + 2 - |chain|, 0, |es|
  {
    if es != [] {
      ImportsFirst(es);
      var e, depth := es[0], |chain| - 1;
      if e.file.Some? && e.file.value !in s.visited && e.file.value in p.readable {
        PathSnoc(p, chain, e.file.value);
        WalkSees(p, mode, maxDepth, source, chain + [e.file.value], s);
      }
      RecurseSees(p, mode, maxDepth, source, chain, es[1..], RecurseInto(p, mode, maxDepth, e, depth, s));
    }
  }

  lemma SeenEdge(p: Project, source: File, maxDepth: nat)
    ensures forall v, w :: Edge(Seen(p, source, maxDepth), v, w) <==> Edge(p, v, w) && Near(p, source, maxDepth, v)
  {
  }

  lemma SeenPath(p: Project, source: File, maxDepth: nat, path: seq<File>)
    requires IsPath(Seen(p, source, maxDepth), path)
    ensures IsPath(p, path)
  {
    SeenEdge(p, source, maxDepth);
  }

  /** The walk sees a path up to the first file beyond the limit. */
  lemma PathIsSeen(p: Project, source: File, maxDepth: nat, path: seq<File>)
    requires IsPath(p, path) && path[0] == source && |path| - 1 <= maxDepth + 1
    ensures IsPath(Seen(p, source, maxDepth), path)
  {
    SeenEdge(p, source, maxDepth);
    var q := Seen(p, source, maxDepth);
    forall i {:trigger path[i]} | 0 < i < |path|
      ensures Edge(q, path[i - 1], path[i])
    {
      var front := path[..i];
      forall k {:trigger front[k]} | 0 < k < |front|
        ensures Edge(p, front[k - 1], front[k])
      {
        assert front[k] == path[k] && front[k - 1] == path[k - 1];
      }
      assert LeadsTo(p, source, front, path[i - 1]);
      assert Near(p, source, maxDepth, path[i - 1]);
    }
  }

  // -- Cycles are beyond the limit -----------------------------------------

  lemma PathAppend(p: Project, a: seq<File>, b: seq<File>)
    requires IsPath(p, a) && IsPath(p, b) && a[|a| - 1] == b[0]
    ensures IsPath(p, a + b[1..])
  {
    var path := a + b[1..];
    forall i {:trigger path[i]} | 0 < i < |path|
      ensures Edge(p, path[i - 1], path[i])
    {
      if i < |a| {
        assert path[i] == a[i] && path[i - 1] == a[i - 1];
      } else {
        assert path[i] == b[i - |a| + 1] && path[i - 1] == b[i - |a| + 1 - 1];
      }
    }
  }

  /** Around a cycle there are chains of any length. */
  lemma {:induction false} LongChain(p: Project, source: File, v: File, n: nat) returns (path: seq<File>)
    requires InReach(p, source, v) && Reached(p, v, v)
    ensures LeadsTo(p, source, path, v) && |path| - 1 >= n
  {
    if n == 0 {
      if v == source {
        path := [v];
      } else {
        path :| IsPath(p, path) && path[0] == source && path[|path| - 1] == v && 2 <= |path|;
      }
    } else {
      var front := LongChain(p, source, v, n - 1);
      var cycle :| IsPath(p, cycle) && cycle[0] == v && cycle[|cycle| - 1] == v && 2 <= |cycle|;
      PathAppend(p, front, cycle);
      path := front + cycle[1..];
      assert path[|path| - 1] == cycle[|cycle| - 1];
    }
  }

  lemma SeenReach(p: Project, source: File, maxDepth: nat, v: File, w: File)
    requires Reached(Seen(p, source, maxDepth), v, w)
    ensures Reached(p, v, w) && IsImporter(Seen(p, source, maxDepth), v)
  {
    var q := Seen(p, source, maxDepth);
    var path :| IsPath(q, path) && path[0] == v && path[|path| - 1] == w && 2 <= |path|;
    SeenPath(p, source, maxDepth, path);
    assert Edge(q, path[0], path[1]);
  }

  lemma SeenIsAcyclic(p: Project, source: File, maxDepth: nat)
    requires CutsEvenly(p, source, maxDepth)
    ensures AcyclicFrom(Seen(p, source, maxDepth), source)
  {
    var q := Seen(p, source, maxDepth);
    forall v | InReach(q, source, v)
      ensures !Reached(q, v, v)
    {
      if Reached(q, v, v) {
        SeenReach(p, source, maxDepth, v, v);
        if v != source {
          SeenReach(p, source, maxDepth, source, v);
        }
        SeenEdge(p, source, maxDepth);
        assert IsImporter(p, v) && IsEven(p, source, maxDepth, v);
        var path := LongChain(p, source, v, maxDepth + 1);
      }
    }
  }

  lemma SeenIsRoomy(p: Project, source: File, maxDepth: nat)
    requires CutsEvenly(p, source, maxDepth)
    ensures Roomy(Seen(p, source, maxDepth), source, maxDepth)
  {
    var q := Seen(p, source, maxDepth);
    SeenEdge(p, source, maxDepth);
    forall path | IsPath(q, path) && path[0] == source && NoDuplicates(path) && IsImporter(q, path[|path| - 1])
      ensures |path| - 1 <= maxDepth
    {
      SeenPath(p, source, maxDepth, path);
      var v := path[|path| - 1];
      assert IsImporter(p, v) && IsEven(p, source, maxDepth, v);
      assert LeadsTo(p, source, path, v);
    }
  }

  // -- The walk ------------------------------------------------------------

  /** A limit that cuts evenly: the list is exactly the readable, parseable files that at most
      one import more than the limit leads to, and listed dependencies stand before their
      importers. */
  lemma EvenCutIsExact(p: Project, mode: Mode, maxDepth: nat, target: File)
    requires CutsEvenly(p, target, maxDepth)
    ensures var order := WalkTarget(p, mode, maxDepth, target).order;
      && (forall w :: w in order <==> Listable(p, w) && Within(p, target, w, maxDepth + 1))
      && InOrder(p, order)
  {
    SeenOrder(p, mode, maxDepth, target);
    WalkIsSound(p, mode, maxDepth, target);
    hide Walk, WalkTarget;
    OrderOfSeen(p, maxDepth, target, WalkTarget(p, mode, maxDepth, target).order);
  }

  lemma OrderOfSeen(p: Project, maxDepth: nat, target: File, order: seq<File>)
    requires CutsEvenly(p, target, maxDepth)
    requires forall w :: w in order ==> Listable(p, w) && Within(p, target, w, maxDepth + 1)
    requires forall w :: Listable(p, w) && Reached(Seen(p, target, maxDepth), target, w) ==> w in order
    requires Topological(Seen(p, target, maxDepth), order)
    ensures forall w :: w in order <==> Listable(p, w) && Within(p, target, w, maxDepth + 1)
    ensures InOrder(p, order)
  {
    assert forall w :: Listable(Seen(p, target, maxDepth), w) <==> Listable(p, w);
    hide Seen, CutsEvenly, Within, Edge;
    forall w | Listable(p, w) && Within(p, target, w, maxDepth + 1)
      ensures w in order
    {
      SeenWithin(p, target, maxDepth, w);
    }
    forall i, w | 0 <= i < |order| && Edge(p, order[i], w) && w in order
      ensures w in order[..i]
    {
      assert order[i] in order;
      ListedIsSeen(p, target, maxDepth, order[i], w);
    }
  }

  lemma SeenOrder(p: Project, mode: Mode, maxDepth: nat, target: File)
    requires CutsEvenly(p, target, maxDepth)
    ensures var q, order := Seen(p, target, maxDepth), WalkTarget(p, mode, maxDepth, target).order;
      && (forall w :: w in order <==> Listable(p, w) && Reached(q, target, w))
      && Topological(q, order)
  {
    var q := Seen(p, target, maxDepth);
    hide Walk, CutsEvenly, Roomy, AcyclicFrom;
    WalkSees(p, mode, maxDepth, target, [target], Fresh);
    SeenIsRoomy(p, target, maxDepth);
    SeenIsAcyclic(p, target, maxDepth);
    WalkIsExact(q, mode, maxDepth, target);
    WalkIsTopological(q, mode, maxDepth, target);
  }

  lemma SeenWithin(p: Project, source: File, maxDepth: nat, w: File)
    requires Within(p, source, w, maxDepth + 1)
    ensures Reached(Seen(p, source, maxDepth), source, w)
  {
    var path :| IsPath(p, path) && path[0] == source && path[|path| - 1] == w && 2 <= |path| <= maxDepth + 2;
    PathIsSeen(p, source, maxDepth, path);
  }

  /** Files that are listed without being walked import no listed file. */
  lemma ListedIsSeen(p: Project, source: File, maxDepth: nat, v: File, w: File)
    requires CutsEvenly(p, source, maxDepth) && Edge(p, v, w)
    requires Within(p, source, v, maxDepth + 1) && Within(p, source, w, maxDepth + 1)
    ensures Edge(Seen(p, source, maxDepth), v, w)
  {
    SeenEdge(p, source, maxDepth);
    assert IsEven(p, source, maxDepth + 1, w);
    hide Edge, CutsEvenly;
    WithinIsNear(p, source, maxDepth + 1, w);
    var path :| IsPath(p, path) && path[0] == source && path[|path| - 1] == v && 2 <= |path| <= maxDepth + 2;
    PathSnoc(p, path, w);
    hide IsPath;
    assert LeadsTo(p, source, path + [w], w) && LeadsTo(p, source, path, v);
  }

  lemma WithinIsNear(p: Project, source: File, hops: nat, w: File)
    requires Within(p, source, w, hops)
    ensures Near(p, source, hops, w)
  {
    var path :| IsPath(p, path) && path[0] == source && path[|path| - 1] == w && 2 <= |path| <= hops + 1;
    assert LeadsTo(p, source, path, w);
  }

  /** Limits that cut at no importer, without cycles, are among these. */
  lemma RoomyCutsEvenly(p: Project, source: File, maxDepth: nat)
    requires Roomy(p, source, maxDepth) && AcyclicFrom(p, source)
    ensures CutsEvenly(p, source, maxDepth)
  {
    forall path | IsPath(p, path) && path[0] == source
      ensures |path| - 1 <= maxDepth + 1 && (IsImporter(p, path[|path| - 1]) ==> |path| - 1 <= maxDepth)
    {
      NoRepetition(p, path);
      if |path| > 1 {
        var front := path[..|path| - 1];
        NoRepetition(p, front);
        assert Edge(p, front[|front| - 1], path[|path| - 1]);
        assert front[|front| - 1] == path[|path| - 2];
      }
    }
  }

  lemma {:induction false} NoRepetition(p: Project, path: seq<File>)
    requires IsPath(p, path) && AcyclicFrom(p, path[0])
    ensures NoDuplicates(path)
  {
    if |path| > 1 {
      var front := path[..|path| - 1];
      assert Edge(p, path[|path| - 1 - 1], path[|path| - 1]);
      NoRepetition(p, front);
      NoBackEdge(p, front, path[|path| - 1]);
      assert path == front + [path[|path| - 1]];
    }
  }

  /** The condition goes beyond that: on a chain of imports every limit cuts evenly. With limit 1,
      `t` imports `a`, `a` imports `b` and `b`, which is cut, imports `c`. */
  lemma ChainCutsEvenly(p: Project, a: Import, b: Import, c: Import)
    requires p.readable == {"a", "b", "c"} && p.parses == {"t", "a", "b", "c"}
    requires a.file == Some("a") && b.file == Some("b") && c.file == Some("c")
    requires p.imports("t") == [a] && p.imports("a") == [b] && p.imports("b") == [c] && p.imports("c") == []
    ensures CutsEvenly(p, "t", 1) && !Roomy(p, "t", 1)
  {
    var chain := ["t", "a", "b", "c"];
    assert [a][0].file == Some("a") && [b][0].file == Some("b") && [c][0].file == Some("c");
    forall path | IsPath(p, path) && path[0] == "t"
      ensures |path| <= 4 && path == chain[..|path|]
    {
      ChainPosition(p, a, b, c, path);
    }
    var toB := ["t", "a", "b"];
    assert IsPath(p, toB) && NoDuplicates(toB) && Edge(p, toB[2], "c");
  }

  lemma {:induction false} ChainPosition(p: Project, a: Import, b: Import, c: Import, path: seq<File>)
    requires a.file == Some("a") && b.file == Some("b") && c.file == Some("c")
    requires p.imports("t") == [a] && p.imports("a") == [b] && p.imports("b") == [c] && p.imports("c") == []
    requires IsPath(p, path) && path[0] == "t"
    ensures |path| <= 4 && path == ["t", "a", "b", "c"][..|path|]
  {
    if |path| > 1 {
      var front, last := path[..|path| - 1], path[|path| - 1];
      ChainPosition(p, a, b, c, front);
      assert Edge(p, path[|path| - 2], last) && path[|path| - 2] == front[|front| - 1];
      assert path == front + [last];
    }
  }
}
