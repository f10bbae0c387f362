/** Which issues the policy filter of `syn_core` shows, and in which groups. */
module Visibility {
  import opened Prelude
  import opened Grouping

  // -- Visible issues ------------------------------------------------------

  const SEVERITIES: seq<string> := ["info", "warning", "error", "blocked"]

  /** The place of a severity among the four; any other word counts as the first. */
  predicate HasPlace(severity: string, n: nat) {
    n < |SEVERITIES| && (SEVERITIES[n] == severity || (n == 0 && severity !in SEVERITIES))
  }

  lemma RankIsPlace(severity: string, n: nat)
    ensures HasPlace(severity, n) <==> SeverityRank(severity) == n
  {
    assert SEVERITIES[0] == "info" && SEVERITIES[1] == "warning" && SEVERITIES[2] == "error" &&
      SEVERITIES[3] == "blocked";
  }

  /** In gate mode, and without overrides, the configured filter decides alone. */
  lemma FilterDecides(issue: Issue, config: Config, o: Overrides)
    ensures IsVisible(issue, config, Gate, o) <==> config.warn(issue)
    ensures o == Overrides(None, None, None, None) ==> (IsVisible(issue, config, ReportMode, o) <==> config.warn(issue))
  {
  }

  /** In report mode overrides decide alone: an issue is visible exactly when it is of the tool,
      unless that is `all`, at least as severe as the level, taken by the custom filter and of
      the code, as far as these are given. */
  lemma OverridesDecide(issue: Issue, config: Config, o: Overrides)
    requires o != Overrides(None, None, None, None)
    ensures IsVisible(issue, config, ReportMode, o) <==>
      && (o.tool == None || o.tool == Some("all") || o.tool == Some(issue.tool))
      && (o.level.Some? ==> exists n, m :: HasPlace(issue.severity, n) && HasPlace(o.level.value, m) && m <= n)
      && (o.custom.Some? ==> o.custom.value(issue))
      && (o.narrow == None || o.narrow == Some(issue.code))
  {
    RankIsPlace(issue.severity, SeverityRank(issue.severity));
    if o.level.Some? {
      RankIsPlace(o.level.value, SeverityRank(o.level.value));
      forall n: nat, m: nat
        ensures HasPlace(issue.severity, n) && HasPlace(o.level.value, m) ==>
          n == SeverityRank(issue.severity) && m == SeverityRank(o.level.value)
      {
        RankIsPlace(issue.severity, n);
        RankIsPlace(o.level.value, m);
      }
    }
  }

  // -- Lists of issues -----------------------------------------------------

  /** `kept` is what `all` has at these positions, which are those of the issues of the kind. */
  ghost predicate Picks(all: seq<Located>, p: Located -> bool, kept: seq<Located>, at: seq<nat>) {
    && |at| == |kept| && Increasing(at)
    && (forall i :: 0 <= i < |at| ==> at[i] < |all| && kept[i] == all[at[i]])
    && (forall k: nat :: k < |all| ==> (p(all[k]) <==> k in at))
  }

  lemma PicksSnoc(all: seq<Located>, p: Located -> bool, kept: seq<Located>, at: seq<nat>, l: Located)
    requires Picks(all, p, kept, at)
    ensures p(l) ==> Picks(all + [l], p, kept + [l], at + [|all|])
    ensures !p(l) ==> Picks(all + [l], p, kept, at)
  {
    var longer := all + [l];
    assert forall k :: 0 <= k < |all| ==> longer[k] == all[k];
    assert forall k :: k in at + [|all|] <==> k in at || k == |all|;
    assert forall k :: k in at ==> k < |all|;
  }

  lemma SplitLast(all: seq<Located>)
    requires all != []
    ensures all == all[..|all| - 1] + [all[|all| - 1]]
  {
  }

  /** Keeping leaves exactly the issues of the kind, in order. */
  lemma {:induction false} KeepMeaning(all: seq<Located>, p: Located -> bool) returns (at: seq<nat>)
    ensures Picks(all, p, Keep(all, p), at)
  {
    at := [];
    if all == [] {
      assert Picks([], p, [], []);
    } else {
      var before, l := all[..|all| - 1], all[|all| - 1];
      hide Picks, Keep;
      at := KeepMeaning(before, p);
      KeepSnoc(before, l, p);
      PicksSnoc(before, p, Keep(before, p), at, l);
      SplitLast(all);
      if p(l) {
        at := at + [|before|];
      } else {
        assert Keep(before, p) + [] == Keep(before, p);
      }
    }
  }

  /** All issues of all reports in order, each with the file of its report. */
  lemma {:induction false} AllIssuesMeaning(reports: seq<Report>, more: Report)
    ensures AllIssues([]) == []
    ensures var all, longer := AllIssues(reports), AllIssues(reports + [more]);
      && |longer| == |all| + |more.issues| && longer[..|all|] == all
      && forall i :: 0 <= i < |more.issues| ==> longer[|all| + i] == Located(more.relativePath, more.issues[i])
  {
    assert (reports + [more])[..|reports|] == reports;
  }

  // -- Groups --------------------------------------------------------------

  /** A group holds exactly the issues of its tool and code, in order; its file count is the
      number of their files. */
  lemma GroupMeaning(g: Group, all: seq<Located>) returns (at: seq<nat>)
    requires IsGroupOf(g, all)
    ensures |at| == |g.issues| > 0 && Increasing(at)
    ensures forall i :: 0 <= i < |at| ==> at[i] < |all| && g.issues[i] == all[at[i]]
    ensures forall k: nat :: k < |all| ==>
      (k in at <==> all[k].issue.tool == g.key.tool && all[k].issue.code == g.key.code)
    ensures g.fileCount == |set l | l in g.issues :: l.file|
  {
    var p := (l: Located) => KeyOf(l) == g.key;
    at := KeepMeaning(all, p);
    assert FilesOf(g.issues) == set l | l in g.issues :: l.file;
  }

  /** Groups stand in the order of their tools, and within a tool of their codes, compared
      character by character. */
  lemma OrderMeaning(gs: seq<Group>, i: nat, j: nat)
    requires Sorted(gs) && i < j < |gs|
    ensures LexLess(gs[i].key.tool, gs[j].key.tool) ||
      (gs[i].key.tool == gs[j].key.tool && LexLess(gs[i].key.code, gs[j].key.code))
  {
  }

  /** Something is denied exactly when some visible issue matches the filter. */
  lemma DenyMeaning(issues: seq<Located>, config: Config)
    ensures DenyMatches(issues, config) != [] <==> exists l :: l in issues && config.deny(l.issue)
  {
    var p := (l: Located) => config.deny(l.issue);
    var at := KeepMeaning(issues, p);
    assert DenyMatches(issues, config) == Keep(issues, p);
    if at != [] {
      assert issues[at[0]] in issues && p(issues[at[0]]);
    }
    if l :| l in issues && config.deny(l.issue) {
      var k :| 0 <= k < |issues| && issues[k] == l;
      assert p(issues[k]) && k in at;
    }
  }
}
