/** The policy filter of `syn_core` and the grouping of `report_render_core`. */
module Grouping {
  import opened Prelude
  import FileNames

  datatype Issue = Issue(tool: string, code: string, severity: string, line: nat, message: string)

  datatype Report = Report(relativePath: string, issues: seq<Issue>)

  /** An issue with the file it was found in. */
  datatype Located = Located(file: string, issue: Issue)

  datatype Key = Key(tool: string, code: string)

  datatype Group = Group(key: Key, representative: Issue, issues: seq<Located>, fileCount: nat)

  function KeyOf(l: Located): Key {
    Key(l.issue.tool, l.issue.code)
  }

  // -- The filter ----------------------------------------------------------

  type Filter = Issue -> bool

  datatype Config = Config(warn: Filter, deny: Filter)

  datatype PolicyMode = ReportMode | Gate

  datatype Overrides = Overrides(
    tool: Option<string>,
    level: Option<string>,
    custom: Option<Filter>,
    narrow: Option<string>)

  datatype Decision = Deny | Warn | Allow

  function SeverityRank(severity: string): nat {
    if severity == "info" then 0
    else if severity == "warning" then 1
    else if severity == "error" then 2
    else if severity == "blocked" then 3
    else 0
  }

  predicate HasCliOverrides(mode: PolicyMode, o: Overrides) {
    mode == ReportMode && (o.tool.Some? || o.level.Some? || o.custom.Some? || o.narrow.Some?)
  }

  /** `is_visible`: overrides replace the warn filter. */
  predicate IsVisible(issue: Issue, config: Config, mode: PolicyMode, o: Overrides) {
    if HasCliOverrides(mode, o) then
      && (o.tool.Some? && o.tool.value != "all" ==> issue.tool == o.tool.value)
      && (o.level.Some? ==> SeverityRank(issue.severity) >= SeverityRank(o.level.value))
      && (o.custom.Some? ==> o.custom.value(issue))
      && (o.narrow.Some? ==> issue.code == o.narrow.value)
    else config.warn(issue)
  }

  function LocatedIn(file: string, issues: seq<Issue>): (r: seq<Located>)
    ensures |r| == |issues|
  {
    seq(|issues|, i requires 0 <= i < |issues| => Located(file, issues[i]))
  }

  /** The issues of all reports, in order. */
  function AllIssues(reports: seq<Report>): seq<Located> {
    if reports == [] then []
    else
      var last := reports[|reports| - 1];
      AllIssues(reports[..|reports| - 1]) + LocatedIn(last.relativePath, last.issues)
  }

  function Keep(all: seq<Located>, p: Located -> bool): seq<Located> {
    if all == [] then []
    else Keep(all[..|all| - 1], p) + if p(all[|all| - 1]) then [all[|all| - 1]] else []
  }

  lemma {:induction false} KeepAppend(a: seq<Located>, b: seq<Located>, p: Located -> bool)
    ensures Keep(a + b, p) == Keep(a, p) + Keep(b, p)
    decreases |b|
  {
    if b == [] {
      assert a + b == a;
    } else {
      var front := b[..|b| - 1];
      assert (a + b)[..|a + b| - 1] == a + front;
      KeepAppend(a, front, p);
    }
  }

  lemma {:induction false} KeepSnoc(a: seq<Located>, l: Located, p: Located -> bool)
    ensures Keep(a + [l], p) == Keep(a, p) + if p(l) then [l] else []
  {
    assert (a + [l])[..|a|] == a;
  }

  /** The issues of one check, in report order. */
  function OfKey(all: seq<Located>, key: Key): seq<Located> {
    Keep(all, (l: Located) => KeyOf(l) == key)
  }

  function VisibleOf(reports: seq<Report>, config: Config, mode: PolicyMode, o: Overrides): seq<Located> {
    Keep(AllIssues(reports), (l: Located) => IsVisible(l.issue, config, mode, o))
  }

  /** In gate mode overrides change nothing. */
  lemma GateIgnoresOverrides(reports: seq<Report>, config: Config, o: Overrides, p: Overrides)
    ensures VisibleOf(reports, config, Gate, o) == VisibleOf(reports, config, Gate, p)
  {
    var all := AllIssues(reports);
    KeepSame(all,
             (l: Located) => IsVisible(l.issue, config, Gate, o),
             (l: Located) => IsVisible(l.issue, config, Gate, p));
  }

  lemma {:induction false} KeepSame(all: seq<Located>, p: Located -> bool, q: Located -> bool)
    requires forall l :: p(l) == q(l)
    ensures Keep(all, p) == Keep(all, q)
    decreases |all|
  {
    if all != [] {
      KeepSame(all[..|all| - 1], p, q);
    }
  }

  // -- Grouping ------------------------------------------------------------

  predicate KeyLess(a: Key, b: Key) {
    LexLess(a.tool, b.tool) || (a.tool == b.tool && LexLess(a.code, b.code))
  }

  lemma KeyOrder(a: Key, b: Key, c: Key)
    ensures KeyLess(a, b) || a == b || KeyLess(b, a)
    ensures !(KeyLess(a, b) && KeyLess(b, a)) && !KeyLess(a, a)
    ensures KeyLess(a, b) && KeyLess(b, c) ==> KeyLess(a, c)
  {
    LexTotal(a.tool, b.tool);
    LexTotal(a.code, b.code);
    LexTotal(a.tool, a.tool);
    LexTotal(a.code, a.code);
    if LexLess(a.tool, b.tool) && LexLess(b.tool, c.tool) {
      LexTrans(a.tool, b.tool, c.tool);
    }
    if LexLess(a.code, b.code) && LexLess(b.code, c.code) {
      LexTrans(a.code, b.code, c.code);
    }
  }

  predicate Sorted(gs: seq<Group>) {
    forall i, j :: 0 <= i < j < |gs| ==> KeyLess(gs[i].key, gs[j].key)
  }

  predicate DistinctGroups(gs: seq<Group>) {
    forall i, j :: 0 <= i < j < |gs| ==> gs[i].key != gs[j].key
  }

  /** A sort by key. */
  function Insert(g: Group, gs: seq<Group>): seq<Group>
    decreases |gs|
  {
    if gs == [] then [g]
    else if KeyLess(g.key, gs[0].key) then [g] + gs
    else [gs[0]] + Insert(g, gs[1..])
  }

  function SortGroups(gs: seq<Group>): seq<Group> {
    if gs == [] then [] else Insert(gs[0], SortGroups(gs[1..]))
  }

  lemma {:induction false} InsertMembers(g: Group, gs: seq<Group>)
    ensures multiset(Insert(g, gs)) == multiset(gs) + multiset{g}
    ensures forall x :: x in Insert(g, gs) ==> x in gs || x == g
    decreases |gs|
  {
    if gs != [] && !KeyLess(g.key, gs[0].key) {
      InsertMembers(g, gs[1..]);
      HeadAndTail(gs);
    }
  }

  lemma SortedCons(g: Group, gs: seq<Group>)
    requires Sorted(gs) && forall x :: x in gs ==> KeyLess(g.key, x.key)
    ensures Sorted([g] + gs)
  {
  }

  lemma {:induction false} InsertSorts(g: Group, gs: seq<Group>)
    requires Sorted(gs) && forall i :: 0 <= i < |gs| ==> gs[i].key != g.key
    ensures Sorted(Insert(g, gs)) && multiset(Insert(g, gs)) == multiset(gs) + multiset{g}
    decreases |gs|
  {
    InsertMembers(g, gs);
    if gs == [] {
    } else if KeyLess(g.key, gs[0].key) {
      forall x | x in gs
        ensures KeyLess(g.key, x.key)
      {
        KeyOrder(g.key, gs[0].key, x.key);
      }
      SortedCons(g, gs);
    } else {
      InsertSorts(g, gs[1..]);
      InsertMembers(g, gs[1..]);
      KeyOrder(g.key, gs[0].key, g.key);
      SortedCons(gs[0], Insert(g, gs[1..]));
    }
  }

  lemma {:induction false} SortSorts(gs: seq<Group>)
    requires DistinctGroups(gs)
    ensures Sorted(SortGroups(gs)) && multiset(SortGroups(gs)) == multiset(gs)
    decreases |gs|
  {
    if gs != [] {
      assert gs == [gs[0]] + gs[1..];
      SortSorts(gs[1..]);
      forall i | 0 <= i < |SortGroups(gs[1..])|
        ensures SortGroups(gs[1..])[i].key != gs[0].key
      {
        assert SortGroups(gs[1..])[i] in multiset(gs[1..]);
      }
      InsertSorts(gs[0], SortGroups(gs[1..]));
    }
  }

  function FilesOf(issues: seq<Located>): set<string> {
    set i | 0 <= i < |issues| :: issues[i].file
  }

  /** `total_issues`. */
  function TotalIssues(gs: seq<Group>): nat {
    if gs == [] then 0 else |gs[0].issues| + TotalIssues(gs[1..])
  }

  lemma {:induction false} TotalInsert(g: Group, gs: seq<Group>)
    ensures TotalIssues(Insert(g, gs)) == |g.issues| + TotalIssues(gs)
    decreases |gs|
  {
    if gs == [] {
      assert [g][1..] == [];
    } else if KeyLess(g.key, gs[0].key) {
      assert ([g] + gs)[1..] == gs;
    } else {
      TotalInsert(g, gs[1..]);
      assert ([gs[0]] + Insert(g, gs[1..]))[1..] == Insert(g, gs[1..]);
    }
  }

  lemma {:induction false} TotalSort(gs: seq<Group>)
    ensures TotalIssues(SortGroups(gs)) == TotalIssues(gs)
    decreases |gs|
  {
    if gs != [] {
      TotalSort(gs[1..]);
      TotalInsert(gs[0], SortGroups(gs[1..]));
    }
  }

  lemma {:induction false} TotalUpdate(gs: seq<Group>, i: nat, g: Group)
    requires i < |gs|
    ensures TotalIssues(gs[i := g]) + |gs[i].issues| == TotalIssues(gs) + |g.issues|
    decreases |gs|
  {
    if i == 0 {
      assert gs[0 := g][1..] == gs[1..];
    } else {
      assert gs[i := g][1..] == gs[1..][i - 1 := g];
      TotalUpdate(gs[1..], i - 1, g);
    }
  }

  lemma {:induction false} TotalSnoc(gs: seq<Group>, g: Group)
    ensures TotalIssues(gs + [g]) == TotalIssues(gs) + |g.issues|
    decreases |gs|
  {
    if gs == [] {
      assert gs + [g] == [g] && [g][1..] == [];
    } else {
      assert (gs + [g])[0] == gs[0] && (gs + [g])[1..] == gs[1..] + [g];
      TotalSnoc(gs[1..], g);
    }
  }

  /** A group of a list of issues: all issues of its key in order, represented by the first. */
  predicate IsGroupOf(g: Group, all: seq<Located>) {
    && g.issues == OfKey(all, g.key) && g.issues != []
    && g.representative == g.issues[0].issue
    && g.fileCount == |FilesOf(g.issues)|
  }

  predicate HasGroupFor(gs: seq<Group>, key: Key) {
    exists i :: 0 <= i < |gs| && gs[i].key == key
  }

  /** Every issue is in exactly one group. */
  ghost predicate IsGrouping(gs: seq<Group>, all: seq<Located>) {
    && (forall i :: 0 <= i < |gs| ==> IsGroupOf(gs[i], all))
    && (forall l :: l in all ==> HasGroupFor(gs, KeyOf(l)))
    && TotalIssues(gs) == |all|
  }

  /** A group under construction: without its file count. */
  predicate IsPartial(g: Group, all: seq<Located>) {
    g.issues == OfKey(all, g.key) && g.issues != [] && g.representative == g.issues[0].issue
  }

  /** The index knows the position of every key. */
  ghost predicate IndexFits(gs: seq<Group>, index: map<Key, nat>) {
    && (forall k :: k in index ==> index[k] < |gs| && gs[index[k]].key == k)
    && (forall i :: 0 <= i < |gs| ==> gs[i].key in index && index[gs[i].key] == i)
  }

  ghost predicate IsIndexed(gs: seq<Group>, index: map<Key, nat>, all: seq<Located>) {
    && IndexFits(gs, index)
    && (forall i :: 0 <= i < |gs| ==> IsPartial(gs[i], all))
    && (forall k :: k !in index ==> OfKey(all, k) == [])
    && TotalIssues(gs) == |all|
  }

  lemma OfKeySnoc(all: seq<Located>, l: Located, k: Key)
    ensures OfKey(all + [l], k) == OfKey(all, k) + if KeyOf(l) == k then [l] else []
  {
    KeepSnoc(all, l, (x: Located) => KeyOf(x) == k);
  }

  lemma {:induction false} KeyIsIndexed(all: seq<Located>, l: Located)
    requires l in all
    ensures OfKey(all, KeyOf(l)) != []
    decreases |all|
  {
    var front, last := all[..|all| - 1], all[|all| - 1];
    assert all == front + [last];
    OfKeySnoc(front, last, KeyOf(l));
    if l != last {
      KeyIsIndexed(front, l);
    }
  }

  lemma OthersPartial(gs: seq<Group>, all: seq<Located>, l: Located, i: nat)
    requires i < |gs| && IsPartial(gs[i], all) && gs[i].key != KeyOf(l)
    ensures IsPartial(gs[i], all + [l])
  {
    OfKeySnoc(all, l, gs[i].key);
  }

  lemma UnindexedStay(index: map<Key, nat>, all: seq<Located>, l: Located)
    requires forall k :: k !in index ==> OfKey(all, k) == []
    ensures forall k :: k !in index && k != KeyOf(l) ==> OfKey(all + [l], k) == []
  {
    forall k | k !in index && k != KeyOf(l)
      ensures OfKey(all + [l], k) == []
    {
      OfKeySnoc(all, l, k);
    }
  }

  lemma PartialsStay(gs: seq<Group>, all: seq<Located>, l: Located)
    requires forall i :: 0 <= i < |gs| ==> IsPartial(gs[i], all) && gs[i].key != KeyOf(l)
    ensures forall i :: 0 <= i < |gs| ==> IsPartial(gs[i], all + [l])
  {
    forall i | 0 <= i < |gs|
      ensures IsPartial(gs[i], all + [l])
    {
      OthersPartial(gs, all, l, i);
    }
  }

  lemma AddToNew(gs: seq<Group>, index: map<Key, nat>, l: Located, all: seq<Located>)
    requires IsIndexed(gs, index, all) && KeyOf(l) !in index
    ensures IsIndexed(gs + [Group(KeyOf(l), l.issue, [l], 0)], index[KeyOf(l) := |gs|], all + [l])
  {
    hide OfKey, TotalIssues;
    var g := Group(KeyOf(l), l.issue, [l], 0);
    OfKeySnoc(all, l, KeyOf(l));
    assert [] + [l] == [l];
    TotalSnoc(gs, g);
    PartialsStay(gs, all, l);
    UnindexedStay(index, all, l);
  }

  lemma AddToOld(gs: seq<Group>, index: map<Key, nat>, l: Located, all: seq<Located>)
    requires IsIndexed(gs, index, all) && KeyOf(l) in index
    ensures var i := index[KeyOf(l)];
      IsIndexed(gs[i := gs[i].(issues := gs[i].issues + [l])], index, all + [l])
  {
    var i := index[KeyOf(l)];
    var grown := gs[i].(issues := gs[i].issues + [l]);
    OfKeySnoc(all, l, KeyOf(l));
    TotalUpdate(gs, i, grown);
    forall j | 0 <= j < |gs| && j != i
      ensures IsPartial(gs[j], all + [l])
    {
      OthersPartial(gs, all, l, j);
    }
    UnindexedStay(index, all, l);
  }

  method AddIssue(groups: seq<Group>, index: map<Key, nat>, l: Located, ghost all: seq<Located>)
    returns (gs: seq<Group>, ix: map<Key, nat>)
    requires IsIndexed(groups, index, all)
    ensures IsIndexed(gs, ix, all + [l])
  {
    var key := Key(l.issue.tool, l.issue.code);
    gs, ix := groups, index;
    if key in index {
      AddToOld(groups, index, l, all);
    } else {
      AddToNew(groups, index, l, all);
      ix := index[key := |groups|];
      gs := groups + [Group(key, l.issue, [], 0)];
      PushInto(groups, Group(key, l.issue, [], 0), l);
    }
    var i := ix[key];
    gs := gs[i := gs[i].(issues := gs[i].issues + [l])];
  }

  lemma PushInto(gs: seq<Group>, g: Group, l: Located)
    requires g.issues == []
    ensures var longer := gs + [g];
      longer[|gs| := longer[|gs|].(issues := longer[|gs|].issues + [l])] == gs + [g.(issues := [l])]
  {
    assert [] + [l] == [l];
  }

  /** The loop over the issues of one report. */
  method AddReport(groups: seq<Group>, index: map<Key, nat>, report: Report, ghost before: seq<Located>)
    returns (gs: seq<Group>, ix: map<Key, nat>)
    requires IsIndexed(groups, index, before)
    ensures IsIndexed(gs, ix, before + LocatedIn(report.relativePath, report.issues))
  {
    hide IsIndexed;
    gs, ix := groups, index;
    ghost var here := LocatedIn(report.relativePath, report.issues);
    assert before + here[..0] == before;
    for n := 0 to |report.issues|
      invariant IsIndexed(gs, ix, before + here[..n])
    {
      gs, ix := AddIssue(gs, ix, Located(report.relativePath, report.issues[n]), before + here[..n]);
      AppendAssociates(before, here[..n], [here[n]]);
      assert here[..n] + [here[n]] == here[..n + 1];
    }
    assert here[..|report.issues|] == here;
  }

  /** `group_issues`. */
  method GroupIssues(reports: seq<Report>) returns (result: seq<Group>)
    ensures Sorted(result) && IsGrouping(result, AllIssues(reports))
  {
    var index: map<Key, nat> := map[];
    var groups: seq<Group> := [];
    for r := 0 to |reports|
      invariant IsIndexed(groups, index, AllIssues(reports[..r]))
    {
      assert reports[..r + 1][..r] == reports[..r];
      groups, index := AddReport(groups, index, reports[r], AllIssues(reports[..r]));
    }
    assert reports[..|reports|] == reports;
    result := Finish(groups, index, AllIssues(reports));
  }

  function Counted(gs: seq<Group>): (r: seq<Group>)
    ensures |r| == |gs|
  {
    seq(|gs|, i requires 0 <= i < |gs| => gs[i].(fileCount := FileCount(gs[i].issues)))
  }

  function NamesOf(issues: seq<Located>): (r: seq<string>)
    ensures |r| == |issues|
  {
    seq(|issues|, i requires 0 <= i < |issues| => issues[i].file)
  }

  /** The file names of a group sorted, without equal neighbours, and counted. */
  function FileCount(issues: seq<Located>): nat {
    FileNames.CountDistinct(NamesOf(issues))
  }

  lemma FileCountIsExact(issues: seq<Located>)
    ensures FileCount(issues) == |FilesOf(issues)|
  {
    var names := NamesOf(issues);
    FileNames.CountIsExact(names);
    forall f
      ensures f in FileNames.NameSet(names) <==> f in FilesOf(issues)
    {
      if f in FilesOf(issues) {
        var i :| 0 <= i < |issues| && issues[i].file == f;
        assert names[i] == f;
      }
    }
    assert FileNames.NameSet(names) == FilesOf(issues);
  }

  lemma {:induction false} TotalCounted(gs: seq<Group>)
    ensures TotalIssues(Counted(gs)) == TotalIssues(gs)
    decreases |gs|
  {
    if gs != [] {
      assert Counted(gs)[1..] == Counted(gs[1..]);
      TotalCounted(gs[1..]);
    }
  }

  /** Counting files and sorting. */
  method Finish(groups: seq<Group>, ghost index: map<Key, nat>, ghost all: seq<Located>) returns (result: seq<Group>)
    requires IsIndexed(groups, index, all)
    ensures Sorted(result) && IsGrouping(result, all)
  {
    var counted := Counted(groups);
    result := SortGroups(counted);
    TotalCounted(groups);
    TotalSort(counted);
    SortSorts(counted);
    SortedGroups(groups, counted, result, all);
    forall l | l in all
      ensures HasGroupFor(result, KeyOf(l))
    {
      KeyIsIndexed(all, l);
      StillHasGroup(counted, result, index[KeyOf(l)]);
    }
  }

  lemma SortedGroups(groups: seq<Group>, counted: seq<Group>, result: seq<Group>, all: seq<Located>)
    requires forall i :: 0 <= i < |groups| ==> IsPartial(groups[i], all)
    requires counted == Counted(groups) && multiset(result) == multiset(counted)
    ensures forall i :: 0 <= i < |result| ==> IsGroupOf(result[i], all)
  {
    forall i | 0 <= i < |result|
      ensures IsGroupOf(result[i], all)
    {
      assert result[i] in multiset(counted);
      var j :| 0 <= j < |counted| && counted[j] == result[i];
      assert IsPartial(groups[j], all);
      FileCountIsExact(groups[j].issues);
    }
  }

  lemma StillHasGroup(counted: seq<Group>, result: seq<Group>, i: nat)
    requires i < |counted| && multiset(result) == multiset(counted)
    ensures HasGroupFor(result, counted[i].key)
  {
    assert counted[i] in multiset(result);
  }

  // -- The decision --------------------------------------------------------

  function DenyMatches(issues: seq<Located>, config: Config): seq<Located> {
    Keep(issues, (l: Located) => config.deny(l.issue))
  }

  lemma VisibleSnoc(reports: seq<Report>, last: Report, config: Config, mode: PolicyMode, o: Overrides)
    ensures VisibleOf(reports + [last], config, mode, o) ==
      VisibleOf(reports, config, mode, o)
      + Keep(LocatedIn(last.relativePath, last.issues), (l: Located) => IsVisible(l.issue, config, mode, o))
  {
    assert (reports + [last])[..|reports|] == reports;
    KeepAppend(AllIssues(reports), LocatedIn(last.relativePath, last.issues),
               (l: Located) => IsVisible(l.issue, config, mode, o));
  }

  /** The filter of one report. */
  method VisibleIssues(report: Report, config: Config, mode: PolicyMode, o: Overrides) returns (visible: seq<Issue>)
    ensures LocatedIn(report.relativePath, visible) ==
      Keep(LocatedIn(report.relativePath, report.issues), (l: Located) => IsVisible(l.issue, config, mode, o))
  {
    visible := [];
    ghost var here := LocatedIn(report.relativePath, report.issues);
    ghost var p := (l: Located) => IsVisible(l.issue, config, mode, o);
    for n := 0 to |report.issues|
      invariant LocatedIn(report.relativePath, visible) == Keep(here[..n], p)
    {
      assert here[..n + 1] == here[..n] + [here[n]];
      KeepSnoc(here[..n], here[n], p);
      if IsVisible(report.issues[n], config, mode, o) {
        ghost var shorter := visible;
        visible := visible + [report.issues[n]];
        assert LocatedIn(report.relativePath, visible) == LocatedIn(report.relativePath, shorter) + [here[n]];
      }
    }
    assert here[..|report.issues|] == here;
  }

  method CountDenied(file: string, issues: seq<Issue>, config: Config) returns (count: nat)
    ensures count == |DenyMatches(LocatedIn(file, issues), config)|
  {
    count := 0;
    ghost var here := LocatedIn(file, issues);
    for n := 0 to |issues|
      invariant count == |DenyMatches(here[..n], config)|
    {
      assert here[..n + 1] == here[..n] + [here[n]];
      KeepSnoc(here[..n], here[n], (l: Located) => config.deny(l.issue));
      if config.deny(issues[n]) {
        count := count + 1;
      }
    }
    assert here[..|issues|] == here;
  }

  /** `apply_filters`: the groups hold exactly the visible issues, and the decision is
      denial exactly in gate mode with a visible deny match. */
  method ApplyFilters(reports: seq<Report>, config: Config, mode: PolicyMode, o: Overrides)
    returns (groups: seq<Group>, denyIssues: nat, decision: Decision)
    ensures Sorted(groups) && IsGrouping(groups, VisibleOf(reports, config, mode, o))
    ensures denyIssues == |DenyMatches(VisibleOf(reports, config, mode, o), config)|
    ensures decision == Deny <==> mode == Gate && DenyMatches(VisibleOf(reports, config, mode, o), config) != []
    ensures decision == Allow <==> VisibleOf(reports, config, mode, o) == []
  {
    var visibleReports: seq<Report> := [];
    denyIssues := 0;
    for r := 0 to |reports|
      invariant AllIssues(visibleReports) == VisibleOf(reports[..r], config, mode, o)
      invariant denyIssues == |DenyMatches(AllIssues(visibleReports), config)|
    {
      var report := reports[r];
      assert reports[..r + 1] == reports[..r] + [report];
      VisibleSnoc(reports[..r], report, config, mode, o);
      var visible := VisibleIssues(report, config, mode, o);
      var denied := CountDenied(report.relativePath, visible, config);
      ghost var added := LocatedIn(report.relativePath, visible);
      KeepAppend(AllIssues(visibleReports), added, (l: Located) => config.deny(l.issue));
      denyIssues := denyIssues + denied;
      if visible != [] {
        ghost var shorter := visibleReports;
        visibleReports := visibleReports + [report.(issues := visible)];
        assert visibleReports[..|shorter|] == shorter;
      } else {
        assert AllIssues(visibleReports) + added == AllIssues(visibleReports);
      }
    }
    assert reports[..|reports|] == reports;
    groups := GroupIssues(visibleReports);
    GroupsShowIssues(groups, AllIssues(visibleReports), config);
    decision := if denyIssues > 0 && mode == Gate then Deny else if groups != [] then Warn else Allow;
  }

  lemma GroupsShowIssues(gs: seq<Group>, all: seq<Located>, config: Config)
    requires IsGrouping(gs, all)
    ensures gs == [] <==> all == []
    ensures all == [] ==> DenyMatches(all, config) == []
  {
    if gs != [] {
      assert IsGroupOf(gs[0], all);
    }
  }
}
