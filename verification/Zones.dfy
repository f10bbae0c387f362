/** The zone rules of `gleipnir_core` and what they mean for the dependency walker. */
module Zones {
  import opened Prelude
  import opened DepWalk

  datatype Level = L0 | L1 | L2 | L3 | L4 | L5 | L6 | L7 | L8 | Outside
  {
    function Ordinal(): (r: Option<nat>)
      ensures r.Some? ==> r.value <= 8
    {
      match this
      case L0 => Some(0)
      case L1 => Some(1)
      case L2 => Some(2)
      case L3 => Some(3)
      case L4 => Some(4)
      case L5 => Some(5)
      case L6 => Some(6)
      case L7 => Some(7)
      case L8 => Some(8)
      case Outside => None
    }

    predicate CanImport(target: Level) {
      var (source, to) := (this.Ordinal(), target.Ordinal());
      source.Some? && to.Some? && source.value > to.value
    }
  }

  datatype Zone =
    | Structure | StructureGen | StructureModel | StructureConfig | StructureExample
    | Pure | Impure | Transform | Orchestrate
  {
    predicate IsStructure() {
      Structure? || StructureGen? || StructureModel? || StructureConfig? || StructureExample?
    }

    predicate CanReach(target: Zone) {
      match this
      case Pure => target.Pure?
      case Impure => target.Impure? || target.Pure?
      case Transform => target.Transform?
      case Orchestrate => target.Orchestrate? || target.Pure? || target.Impure? || target.Transform?
      case _ => false
    }
  }

  datatype Classification = Classification(level: Level, zone: Zone)
  {
    predicate CanImport(target: Classification) {
      level.CanImport(target.level) && (target.zone.IsStructure() || zone.CanReach(target.zone))
    }
  }

  /** The zones apart from structure, and the pairs of them that may import. */
  const ALLOWED: set<(Zone, Zone)> := {
    (Pure, Pure), (Impure, Impure), (Impure, Pure), (Transform, Transform),
    (Orchestrate, Orchestrate), (Orchestrate, Pure), (Orchestrate, Impure), (Orchestrate, Transform)
  }

  const STRUCTURES: set<Zone> := {Structure, StructureGen, StructureModel, StructureConfig, StructureExample}

  const LEVELS: seq<Level> := [L0, L1, L2, L3, L4, L5, L6, L7, L8]

  /** The import rule in full: to a lower of the nine levels, and to structure or by the zone
      matrix. */
  lemma ImportRule(a: Classification, b: Classification)
    ensures a.CanImport(b) <==>
      && (exists i, j :: 0 <= j < i < |LEVELS| && LEVELS[i] == a.level && LEVELS[j] == b.level)
      && (b.zone in STRUCTURES || (a.zone, b.zone) in ALLOWED)
  {
    LevelsAreOrdinals(a.level);
    LevelsAreOrdinals(b.level);
  }

  lemma LevelsAreOrdinals(l: Level)
    ensures match l.Ordinal()
      case Some(n) => LEVELS[n] == l && forall i :: 0 <= i < |LEVELS| && LEVELS[i] == l ==> i == n
      case None => l !in LEVELS
  {
  }

  /** Every import of the project obeys the rules under the classification `kind`. */
  ghost predicate Governed(p: Project, kind: File -> Classification) {
    forall v, w :: Edge(p, v, w) ==> kind(v).CanImport(kind(w))
  }

  /** Levels fall along a chain, so a chain has at most as many imports as its first level. */
  lemma {:induction false} ChainsDescend(p: Project, kind: File -> Classification, path: seq<File>)
    requires Governed(p, kind) && IsPath(p, path) && |path| >= 2
    ensures var first, last := kind(path[0]).level.Ordinal(), kind(path[|path| - 1]).level.Ordinal();
      first.Some? && last.Some? && last.value + |path| - 1 <= first.value <= 8
  {
    var front := path[..|path| - 1];
    assert Edge(p, path[|path| - 2], path[|path| - 1]);
    if |path| > 2 {
      ChainsDescend(p, kind, front);
    }
  }

  /** The zone rules forbid cycles and bound every chain by 8 imports. */
  lemma GovernedGraphs(p: Project, kind: File -> Classification)
    requires Governed(p, kind)
    ensures forall v :: !Reached(p, v, v)
    ensures forall path :: IsPath(p, path) ==> |path| - 1 <= 8
  {
    forall path | IsPath(p, path) && |path| >= 2
      ensures |path| - 1 <= 8 && path[0] != path[|path| - 1]
    {
      ChainsDescend(p, kind, path);
    }
  }

  /** The zones that a file of `zone` may depend on, directly or not. */
  predicate MayDependOn(zone: Zone, target: Zone) {
    target.IsStructure() || zone.CanReach(target)
  }

  /** The zone matrix is closed under chains: what a file reaches in many imports it could
      import from in one. A pure file reaches only pure and structure files. */
  lemma {:induction false} ReachIsDirect(p: Project, kind: File -> Classification, path: seq<File>)
    requires Governed(p, kind) && IsPath(p, path) && |path| >= 2
    ensures MayDependOn(kind(path[0]).zone, kind(path[|path| - 1]).zone)
    ensures kind(path[0]).CanImport(kind(path[|path| - 1]))
  {
    ChainsDescend(p, kind, path);
    var front := path[..|path| - 1];
    assert Edge(p, path[|path| - 2], path[|path| - 1]);
    if |path| > 2 {
      ReachIsDirect(p, kind, front);
      assert front[|front| - 1] == path[|path| - 2];
    }
  }

  lemma PureReachesPure(p: Project, kind: File -> Classification, source: File, w: File)
    requires Governed(p, kind) && Reached(p, source, w) && kind(source).zone.Pure?
    ensures kind(w).zone.Pure? || kind(w).zone.IsStructure()
  {
    var path :| IsPath(p, path) && path[0] == source && path[|path| - 1] == w && 2 <= |path|;
    ReachIsDirect(p, kind, path);
  }

  /** The default of the command line. */
  const DEFAULT_MAX_DEPTH: nat := 10

  /** In a governed project the default depth never cuts: the walk lists exactly the
      reachable dependencies, in topological order, without the target. */
  lemma DefaultDepthSuffices(p: Project, kind: File -> Classification, mode: Mode, target: File)
    requires Governed(p, kind)
    ensures var order := WalkTarget(p, mode, DEFAULT_MAX_DEPTH, target).order;
      && (forall w :: w in order <==> Listable(p, w) && Reached(p, target, w))
      && Topological(p, order) && target !in order && NoDuplicates(order)
  {
    GovernedGraphs(p, kind);
    WalkIsExact(p, mode, DEFAULT_MAX_DEPTH, target);
    WalkIsTopological(p, mode, DEFAULT_MAX_DEPTH, target);
    WalkIsSound(p, mode, DEFAULT_MAX_DEPTH, target);
  }
}
