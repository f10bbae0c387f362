/** The walker of `dep_resolve_core` as it runs, and the groups it returns. */
module DepResolve {
  import opened DepWalk

  datatype Group = Group(sourceFile: File, symbols: seq<Symbol>)

  // -- Removing duplicate symbols ------------------------------------------

  predicate HasName(symbols: seq<Symbol>, name: string) {
    exists i :: 0 <= i < |symbols| && symbols[i].name == name
  }

  lemma HasNameSnoc(symbols: seq<Symbol>, last: Symbol, name: string)
    ensures HasName(symbols + [last], name) <==> HasName(symbols, name) || last.name == name
  {
    var all := symbols + [last];
    assert all[|symbols|] == last;
    assert forall i :: 0 <= i < |symbols| ==> all[i] == symbols[i];
  }

  /** The symbols whose name does not occur earlier. */
  function FirstOfEachName(symbols: seq<Symbol>): seq<Symbol> {
    if symbols == [] then []
    else
      var before, last := symbols[..|symbols| - 1], symbols[|symbols| - 1];
      FirstOfEachName(before) + if HasName(before, last.name) then [] else [last]
  }

  lemma {:induction false} FirstOfEachNameIsDistinct(symbols: seq<Symbol>)
    ensures forall name :: HasName(FirstOfEachName(symbols), name) <==> HasName(symbols, name)
    ensures forall i, j :: 0 <= i < j < |FirstOfEachName(symbols)| ==>
      FirstOfEachName(symbols)[i].name != FirstOfEachName(symbols)[j].name
  {
    if symbols != [] {
      var before, last := symbols[..|symbols| - 1], symbols[|symbols| - 1];
      FirstOfEachNameIsDistinct(before);
      var kept, all := FirstOfEachName(before), FirstOfEachName(symbols);
      assert forall i :: 0 <= i < |kept| ==> HasName(kept, kept[i].name) && all[i] == kept[i];
      forall name
        ensures HasName(all, name) <==> HasName(symbols, name)
      {
        assert symbols == before + [last];
        HasNameSnoc(before, last, name);
        if all != kept {
          assert all[|all| - 1] == last;
        }
      }
    }
  }

  /** `dedup_groups` for one group. */
  method DedupSymbols(symbols: seq<Symbol>) returns (kept: seq<Symbol>)
    ensures kept == FirstOfEachName(symbols)
  {
    var seen: set<string> := {};
    kept := [];
    for i := 0 to |symbols|
      invariant forall name :: name in seen <==> HasName(symbols[..i], name)
      invariant kept == FirstOfEachName(symbols[..i])
    {
      var before := symbols[..i];
      assert symbols[..i + 1][..i] == before;
      forall name
        ensures HasName(symbols[..i + 1], name) <==> HasName(before, name) || symbols[i].name == name
      {
        assert symbols[..i + 1] == before + [symbols[i]];
        HasNameSnoc(before, symbols[i], name);
      }
      if symbols[i].name !in seen {
        seen := seen + {symbols[i].name};
        kept := kept + [symbols[i]];
      }
    }
    assert symbols[..|symbols|] == symbols;
  }

  // -- The result ----------------------------------------------------------

  /** The groups returned: files with symbols, in walk order, without duplicate names. */
  function ResultGroups(order: seq<File>, groups: map<File, seq<Symbol>>): seq<Group> {
    if order == [] then []
    else
      var last := order[|order| - 1];
      ResultGroups(order[..|order| - 1], groups)
      + if last in groups && groups[last] != [] then [Group(last, FirstOfEachName(groups[last]))] else []
  }

  ghost predicate HasGroup(gs: seq<Group>, w: File) {
    exists i :: 0 <= i < |gs| && gs[i].sourceFile == w
  }

  ghost predicate GroupsTopological(p: Project, groups: map<File, seq<Symbol>>, gs: seq<Group>) {
    forall i, w :: 0 <= i < |gs| && Edge(p, gs[i].sourceFile, w) && Listable(p, w) && w in groups && groups[w] != [] ==>
      HasGroup(gs[..i], w)
  }

  lemma {:induction false} ResultFiles(order: seq<File>, groups: map<File, seq<Symbol>>)
    ensures forall w :: HasGroup(ResultGroups(order, groups), w) <==> w in order && w in groups && groups[w] != []
  {
    if order != [] {
      var before, last := order[..|order| - 1], order[|order| - 1];
      ResultFiles(before, groups);
      var gs, all := ResultGroups(before, groups), ResultGroups(order, groups);
      assert forall i :: 0 <= i < |gs| ==> all[i] == gs[i];
      forall w
        ensures HasGroup(all, w) <==> w in order && w in groups && groups[w] != []
      {
        assert w in order <==> w in before || w == last;
        if all != gs {
          assert all[|gs|].sourceFile == last;
          assert HasGroup(all, w) <==> HasGroup(gs, w) || w == last;
        }
      }
    }
  }

  /** Dropping files without symbols keeps the order topological. */
  lemma {:induction false} ResultIsTopological(p: Project, order: seq<File>, groups: map<File, seq<Symbol>>)
    requires Topological(p, order)
    ensures GroupsTopological(p, groups, ResultGroups(order, groups))
  {
    if order != [] {
      var before, last := order[..|order| - 1], order[|order| - 1];
      forall i, w | 0 <= i < |before| && Edge(p, before[i], w) && Listable(p, w)
        ensures w in before[..i]
      {
        assert order[i] == before[i] && order[..i] == before[..i];
      }
      ResultIsTopological(p, before, groups);
      ResultFiles(before, groups);
      var gs, all := ResultGroups(before, groups), ResultGroups(order, groups);
      forall i, w | 0 <= i < |all| && Edge(p, all[i].sourceFile, w) && Listable(p, w) && w in groups && groups[w] != []
        ensures HasGroup(all[..i], w)
      {
        if i < |gs| {
          assert all[i] == gs[i] && all[..i] == gs[..i];
        } else {
          assert all[i].sourceFile == order[|order| - 1] && all[..i] == gs;
        }
      }
    }
  }

  // -- The walker ----------------------------------------------------------

  class Resolver {
    const project: Project
    const mode: Mode
    const maxDepth: nat

    var visited: set<File>
    var order: seq<File>
    var groups: map<File, seq<Symbol>>

    /** The files whose body ran. */
    ghost var ran: seq<File>

    ghost function Now(): State
      reads this
    {
      State(visited, order, groups, ran)
    }

    constructor (project: Project, mode: Mode, maxDepth: nat)
      ensures Now() == Fresh
      ensures this.project == project && this.mode == mode && this.maxDepth == maxDepth
    {
      this.project, this.mode, this.maxDepth := project, mode, maxDepth;
      visited, order, groups, ran := {}, [], map[], [];
    }

    method WalkFile(f: File, depth: nat)
      requires depth <= maxDepth + 1
      modifies this
      ensures Now() == Walk(project, mode, maxDepth, f, depth, old(Now()))
      decreases maxDepth + 1 - depth, 1
    {
      if depth > maxDepth {
        return;
      }
      if f in visited {
        return;
      }
      visited := visited + {f};
      ran := ran + [f];
      if f !in project.parses {
        return;
      }
      var imports := project.imports(f);
      RecurseIntoDeps(imports, depth);
      ExtractFromDeps(imports, depth);
    }

    method RecurseIntoDeps(imports: seq<Import>, depth: nat)
      requires depth <= maxDepth
      modifies this
      ensures Now() == Recurse(project, mode, maxDepth, imports, depth, old(Now()))
      decreases maxDepth + 1 - depth, 0
    {
      for i := 0 to |imports|
        invariant Recurse(project, mode, maxDepth, imports[i..], depth, Now()) ==
                  Recurse(project, mode, maxDepth, imports, depth, old(Now()))
      {
        assert imports[i..][0] == imports[i] && imports[i..][1..] == imports[i + 1..];
        if imports[i].file.None? {
          continue;
        }
        var dep := imports[i].file.value;
        if dep in visited {
          continue;
        }
        if dep in project.readable {
          WalkFile(dep, depth + 1);
        }
      }
    }

    method ExtractFromDeps(imports: seq<Import>, depth: nat)
      modifies this
      ensures Now() == Extract(project, mode, imports, depth, old(Now()))
    {
      var effectiveMode := EffectiveMode(mode, depth);
      for i := 0 to |imports|
        invariant Extract(project, mode, imports[i..], depth, Now()) ==
                  Extract(project, mode, imports, depth, old(Now()))
      {
        assert imports[i..][0] == imports[i] && imports[i..][1..] == imports[i + 1..];
        if imports[i].file.None? {
          continue;
        }
        var dep := imports[i].file.value;
        if dep !in project.readable {
          continue;
        }
        if dep !in project.parses {
          continue;
        }
        var symbols := project.extract(imports[i], effectiveMode);
        if dep !in order {
          order := order + [dep];
        }
        groups := groups[dep := (if dep in groups then groups[dep] else []) + symbols];
      }
    }

    /** Take the groups out of the map, in walk order. */
    method TakeGroups() returns (result: seq<Group>)
      requires NoDuplicates(order)
      modifies `groups
      ensures result == ResultGroups(order, old(groups))
    {
      result := [];
      for i := 0 to |order|
        invariant forall w :: w in order[i..] ==> (w in groups <==> w in old(groups))
        invariant forall w :: w in order[i..] && w in groups ==> groups[w] == old(groups)[w]
        invariant result == ResultGroups(order[..i], old(groups))
      {
        assert order[..i + 1][..i] == order[..i];
        assert order[i..] == [order[i]] + order[i + 1..];
        assert order[i] !in order[i + 1..];
        if order[i] in groups {
          var symbols := groups[order[i]];
          groups := groups - {order[i]};
          if symbols != [] {
            var kept := DedupSymbols(symbols);
            result := result + [Group(order[i], kept)];
          }
        }
      }
      assert order[..|order|] == order;
    }

    /** `resolve_dependencies`. */
    method ResolveDependencies(target: File) returns (result: seq<Group>)
      requires Now() == Fresh
      modifies this
      ensures var s := WalkTarget(project, mode, maxDepth, target); result == ResultGroups(s.order, s.groups)
    {
      WalkFile(target, 0);
      WalkIsSound(project, mode, maxDepth, target);
      result := TakeGroups();
    }
  }
}
