/** The session logs of `session_io` and the routing of `intercept_core` and `bifrost_proxy`. */
module Session {
  import opened Prelude
  import opened Utf8

  // -- Classification ------------------------------------------------------

  datatype Kind = Main | Compaction | Subagent

  function Tools(value: Doc): seq<Doc> {
    match value.Get("tools")
    case Some(DocArr(items)) => items
    case _ => []
  }

  predicate HasTool(value: Doc, name: string) {
    exists i :: 0 <= i < |Tools(value)| && Tools(value)[i].Get("name") == Some(DocStr(name))
  }

  /** `classify_exchange`. */
  function Classify(value: Doc): Option<Kind> {
    if |Tools(value)| == 0 then None
    else if |Tools(value)| == 1 && HasTool(value, "Read") then Some(Compaction)
    else if HasTool(value, "Task") || HasTool(value, "ToolSearch")
         || HasTool(value, "EnterPlanMode") || HasTool(value, "ExitPlanMode")
    then Some(Main)
    else Some(Subagent)
  }

  /** The tool has this name. */
  predicate IsNamed(tool: Doc, name: string) {
    tool.Get("name") == Some(DocStr(name))
  }

  /** A request is about the names of its tools: none at all, only `Read`, one of the four that
      the main agent alone has, or anything else. */
  lemma ClassifyMeaning(value: Doc, items: seq<Doc>)
    requires value.Get("tools") == Some(DocArr(items))
    ensures Classify(value) == None <==> items == []
    ensures Classify(value) == Some(Compaction) <==> |items| == 1 && IsNamed(items[0], "Read")
    ensures Classify(value) == Some(Main) <==>
      exists i :: 0 <= i < |items| &&
        (IsNamed(items[i], "Task") || IsNamed(items[i], "ToolSearch") || IsNamed(items[i], "EnterPlanMode")
         || IsNamed(items[i], "ExitPlanMode"))
  {
    assert "Read" != "Task" && "Read" != "ToolSearch" && "Read" != "EnterPlanMode" && "Read" != "ExitPlanMode";
  }

  lemma NoToolsNoKind(value: Doc)
    requires match value.Get("tools") case Some(DocArr(_)) => false case _ => true
    ensures Classify(value) == None
  {
  }

  // -- Log files -----------------------------------------------------------

  /** A line that a log keeps apart from its neighbours and from blank lines. */
  predicate IsLogLine(line: Text) {
    '\n' !in line && !IsBlank(line, Ascii) && StripCarriageReturn(line) == line
  }

  /** `append_line_fsync`. */
  function Append(content: Text, line: Text): Text {
    content + line + "\n"
  }

  /** A file of whole lines. */
  function FileOf(lines: seq<Text>): Text {
    if lines == [] then "" else lines[0] + "\n" + FileOf(lines[1..])
  }

  lemma {:induction false} FileOfSnoc(lines: seq<Text>, line: Text)
    ensures FileOf(lines + [line]) == Append(FileOf(lines), line)
    decreases |lines|
  {
    if lines == [] {
      assert lines + [line] == [line] && [line][1..] == [];
      assert FileOf([line]) == line + "\n" + "" == "" + line + "\n";
    } else {
      assert (lines + [line])[0] == lines[0] && (lines + [line])[1..] == lines[1..] + [line];
      FileOfSnoc(lines[1..], line);
      assert lines[0] + "\n" + Append(FileOf(lines[1..]), line) == Append(lines[0] + "\n" + FileOf(lines[1..]), line);
    }
  }

  predicate AreLogLines(lines: seq<Text>) {
    forall i :: 0 <= i < |lines| ==> IsLogLine(lines[i])
  }

  lemma {:induction false} LinesOfFile(lines: seq<Text>)
    requires AreLogLines(lines)
    ensures Lines(FileOf(lines)) == lines
    decreases |lines|
  {
    if lines != [] {
      assert IsLogLine(lines[0]);
      LinesCons(lines[0], FileOf(lines[1..]));
      LinesOfFile(lines[1..]);
      HeadAndTail(lines);
    }
  }

  function LastNonBlank(lines: seq<Text>): Option<Text> {
    if lines == [] then None
    else if !IsBlank(Trim(lines[|lines| - 1], Ascii), Ascii) then Some(lines[|lines| - 1])
    else LastNonBlank(lines[..|lines| - 1])
  }

  /** `read_last_line` on the content of a file; a missing file is an empty one. */
  function ReadLastLine(content: Text): Option<Text> {
    LastNonBlank(Lines(content))
  }

  lemma {:induction false} TrimBlank(s: Text)
    ensures IsBlank(Trim(s, Ascii), Ascii) <==> IsBlank(s, Ascii)
  {
    TrimStartAppend(s, "", Ascii);
    assert s + "" == s;
    if !IsBlank(s, Ascii) {
      NonBlankStart(s);
      NonBlankEnd(TrimStart(s, Ascii));
    }
  }

  lemma {:induction false} NonBlankStart(s: Text)
    requires !IsBlank(s, Ascii)
    ensures TrimStart(s, Ascii) != ""
    decreases |s|
  {
    if IsSpace(s[0], Ascii) {
      assert s == [s[0]] + s[1..];
      NonBlankStart(s[1..]);
    }
  }

  lemma {:induction false} NonBlankEnd(s: Text)
    requires s != "" && !IsSpace(s[0], Ascii)
    ensures TrimEnd(s, Ascii) != "" && !IsBlank(TrimEnd(s, Ascii), Ascii)
    decreases |s|
  {
    if IsSpace(s[|s| - 1], Ascii) {
      NonBlankEnd(s[..|s| - 1]);
    } else {
      assert s[0] in s;
    }
  }

  /** `lines[i]` is not blank and every later line is. */
  predicate IsLastText(lines: seq<Text>, i: nat) {
    i < |lines| && !IsBlank(lines[i], Ascii) && forall k :: i < k < |lines| ==> IsBlank(lines[k], Ascii)
  }

  lemma LastTextLonger(front: seq<Text>, last: Text, i: nat)
    ensures IsBlank(last, Ascii) && IsLastText(front, i) ==> IsLastText(front + [last], i)
    ensures !IsBlank(last, Ascii) ==> IsLastText(front + [last], |front|)
  {
    hide IsBlank;
    assert forall k :: 0 <= k < |front| ==> (front + [last])[k] == front[k];
  }

  /** Of any file the last line is read that is not blank. */
  lemma {:induction false} LastNonBlankMeaning(lines: seq<Text>) returns (i: nat)
    ensures LastNonBlank(lines).Some? ==> IsLastText(lines, i) && lines[i] == LastNonBlank(lines).value
    ensures LastNonBlank(lines).None? ==> AllBlank(lines)
    decreases |lines|
  {
    i := 0;
    if lines != [] {
      var front, last := lines[..|lines| - 1], lines[|lines| - 1];
      TrimBlank(last);
      hide IsBlank, Trim, IsLastText, AllBlank;
      if IsBlank(last, Ascii) {
        i := LastNonBlankMeaning(front);
      } else {
        i := |front|;
      }
      LastTextLonger(front, last, i);
      SplitLast(lines);
    }
  }

  predicate AllBlank(lines: seq<Text>) {
    forall k :: 0 <= k < |lines| ==> IsBlank(lines[k], Ascii)
  }

  lemma SplitLast(lines: seq<Text>)
    requires lines != []
    ensures lines == lines[..|lines| - 1] + [lines[|lines| - 1]]
    ensures AllBlank(lines) <==> AllBlank(lines[..|lines| - 1]) && IsBlank(lines[|lines| - 1], Ascii)
  {
    hide IsBlank;
    assert forall k :: 0 <= k < |lines| - 1 ==> lines[..|lines| - 1][k] == lines[k];
  }

  lemma {:induction false} LastLineOfFile(lines: seq<Text>)
    requires AreLogLines(lines)
    ensures ReadLastLine(FileOf(lines)) == if lines == [] then None else Some(lines[|lines| - 1])
  {
    LinesOfFile(lines);
    if lines != [] {
      TrimBlank(lines[|lines| - 1]);
    }
  }

  // -- A history and what it should leave in the logs ----------------------

  /** A request body and what schema validation says of it: an error, a body that is not valid,
      or its value. */
  datatype Request = Request(body: Text, checked: Result<Option<Doc>>)
  {
    function Value(): Option<Doc> {
      if checked.Ok? then checked.value else None
    }
  }

  function KindOf(r: Request): Option<Kind> {
    if r.Value().Some? then Classify(r.Value().value) else None
  }

  /** The lines of the requests of one kind, in order. */
  function Project(h: seq<Request>, kind: Kind, render: Doc -> Text): seq<Text> {
    if h == [] then []
    else
      var last := h[|h| - 1];
      Project(h[..|h| - 1], kind, render) + if KindOf(last) == Some(kind) then [render(last.Value().value)] else []
  }

  /** A compaction with a main exchange before it. */
  predicate Effective(h: seq<Request>, i: nat, render: Doc -> Text)
    requires i < |h|
  {
    KindOf(h[i]) == Some(Compaction) && Project(h[..i], Main, render) != []
  }

  function EffectiveCount(h: seq<Request>, render: Doc -> Text): nat {
    if h == [] then 0
    else EffectiveCount(h[..|h| - 1], render) + if Effective(h, |h| - 1, render) then 1 else 0
  }

  /** How many main exchanges the main log has dropped: all before the last one that
      preceded the latest effective compaction. */
  function Dropped(h: seq<Request>, render: Doc -> Text): (r: nat)
    ensures r <= |Project(h, Main, render)|
    ensures r < |Project(h, Main, render)| || Project(h, Main, render) == []
  {
    if h == [] then 0
    else if Effective(h, |h| - 1, render) then |Project(h[..|h| - 1], Main, render)| - 1
    else Dropped(h[..|h| - 1], render)
  }

  function Bodies(h: seq<Request>): (r: seq<Text>)
    ensures |r| == |h|
  {
    seq(|h|, i requires 0 <= i < |h| => h[i].body)
  }

  /** `Dropped` at the latest effective compaction, named by its position. */
  lemma {:induction false} DroppedAtLatest(h: seq<Request>, c: nat, render: Doc -> Text)
    requires c < |h| && Effective(h, c, render)
    requires forall i :: c < i < |h| ==> !Effective(h, i, render)
    ensures Dropped(h, render) == |Project(h[..c], Main, render)| - 1
    decreases |h|
  {
    if c < |h| - 1 {
      var before := h[..|h| - 1];
      forall i: nat | c <= i < |before|
        ensures Effective(before, i, render) == Effective(h, i, render)
      {
        assert before[..i] == h[..i];
      }
      DroppedAtLatest(before, c, render);
      assert before[..c] == h[..c];
    }
  }

  /** Line `k` of the snapshots is the last main exchange before the `k`-th effective
      compaction. */
  ghost predicate SnapshotsOf(h: seq<Request>, snapshots: seq<Text>, render: Doc -> Text) {
    && |snapshots| == EffectiveCount(h, render)
    && forall i: nat :: i < |h| && Effective(h, i, render) ==> IsSnapshotOf(h[..i], snapshots, render)
  }

  /** The snapshot taken after `before`. */
  predicate IsSnapshotOf(before: seq<Request>, snapshots: seq<Text>, render: Doc -> Text) {
    var mains, k := Project(before, Main, render), EffectiveCount(before, render);
    k < |snapshots| && mains != [] && snapshots[k] == mains[|mains| - 1]
  }

  lemma {:induction false} ProjectSnoc(h: seq<Request>, r: Request, k: Kind, render: Doc -> Text)
    ensures KindOf(r) == Some(k) ==> Project(h + [r], k, render) == Project(h, k, render) + [render(r.Value().value)]
    ensures KindOf(r) != Some(k) ==> Project(h + [r], k, render) == Project(h, k, render)
  {
    assert (h + [r])[..|h|] == h;
  }

  lemma {:induction false} EffectiveSnoc(h: seq<Request>, r: Request, render: Doc -> Text)
    ensures Effective(h + [r], |h|, render) == (KindOf(r) == Some(Compaction) && Project(h, Main, render) != [])
    ensures EffectiveCount(h + [r], render) ==
      EffectiveCount(h, render) + if Effective(h + [r], |h|, render) then 1 else 0
    ensures Dropped(h + [r], render) ==
      if Effective(h + [r], |h|, render) then |Project(h, Main, render)| - 1 else Dropped(h, render)
  {
    assert (h + [r])[..|h|] == h;
  }

  lemma PrefixOfSnoc(h: seq<Request>, r: Request, i: nat, render: Doc -> Text)
    requires i < |h|
    ensures (h + [r])[..i] == h[..i] && Effective(h + [r], i, render) == Effective(h, i, render)
  {
    assert (h + [r])[i] == h[i];
  }

  lemma SnapshotStays(before: seq<Request>, snapshots: seq<Text>, longer: seq<Text>, render: Doc -> Text)
    requires IsSnapshotOf(before, snapshots, render) && snapshots <= longer
    ensures IsSnapshotOf(before, longer, render)
  {
  }

  lemma {:induction false} SnapshotsSnoc(h: seq<Request>, r: Request, snapshots: seq<Text>, render: Doc -> Text)
    requires SnapshotsOf(h, snapshots, render)
    ensures var mains := Project(h, Main, render);
      var taken := if Effective(h + [r], |h|, render) then snapshots + [mains[|mains| - 1]] else snapshots;
      SnapshotsOf(h + [r], taken, render)
  {
    hide Project, EffectiveCount, Effective, Dropped;
    EffectiveSnoc(h, r, render);
    var next, mains := h + [r], Project(h, Main, render);
    var longer := if Effective(next, |h|, render) then snapshots + [mains[|mains| - 1]] else snapshots;
    forall i: nat | i < |next| && Effective(next, i, render)
      ensures IsSnapshotOf(next[..i], longer, render)
    {
      if i < |h| {
        PrefixOfSnoc(h, r, i, render);
        SnapshotStays(h[..i], snapshots, longer, render);
      } else {
        assert next[..i] == h;
      }
    }
  }

  /** The content of the log files. */
  datatype Logs = Logs(raw: Text, main: Text, subagent: Text, compaction: Text, preCompact: Text)

  /** The main log after the history: the main exchanges not dropped. */
  function Kept(h: seq<Request>, render: Doc -> Text): seq<Text> {
    Project(h, Main, render)[Dropped(h, render)..]
  }

  lemma TailSnoc(s: seq<Text>, d: nat, x: Text)
    requires d <= |s|
    ensures (s + [x])[d..] == s[d..] + [x]
  {
  }

  lemma TailOfTail(s: seq<Text>, d: nat)
    requires d < |s|
    ensures s[d..][|s[d..]| - 1..] == s[|s| - 1..]
  {
  }

  /** What one more request changes in the main log. */
  lemma {:induction false} KeptSnoc(h: seq<Request>, r: Request, render: Doc -> Text)
    ensures var kept := Kept(h, render);
      Kept(h + [r], render) ==
        if KindOf(r) == Some(Main) then kept + [render(r.Value().value)]
        else if KindOf(r) == Some(Compaction) && kept != [] then kept[|kept| - 1..]
        else kept
    ensures Kept(h, render) == [] <==> Project(h, Main, render) == []
  {
    hide Project, EffectiveCount, Effective, Dropped;
    ProjectSnoc(h, r, Main, render);
    EffectiveSnoc(h, r, render);
    var mains, dropped := Project(h, Main, render), Dropped(h, render);
    if KindOf(r) == Some(Main) {
      TailSnoc(mains, dropped, render(r.Value().value));
    } else if mains != [] {
      TailOfTail(mains, dropped);
    }
  }

  /** Every log as a function of the history. */
  ghost predicate Holds(h: seq<Request>, snapshots: seq<Text>, logs: Logs, render: Doc -> Text) {
    && logs.raw == FileOf(Bodies(h))
    && logs.main == FileOf(Kept(h, render)) && AreLogLines(Kept(h, render))
    && logs.subagent == FileOf(Project(h, Subagent, render))
    && logs.compaction == FileOf(Project(h, Compaction, render))
    && logs.preCompact == FileOf(snapshots) && AreLogLines(snapshots) && SnapshotsOf(h, snapshots, render)
  }

  lemma BodiesSnoc(h: seq<Request>, r: Request)
    ensures FileOf(Bodies(h + [r])) == Append(FileOf(Bodies(h)), r.body)
  {
    FileOfSnoc(Bodies(h), r.body);
    assert Bodies(h + [r]) == Bodies(h) + [r.body];
  }

  /** The log of one kind after one more request. */
  function Noted(log: Text, kind: Kind, r: Request, render: Doc -> Text): Text {
    if KindOf(r) == Some(kind) then Append(log, render(r.Value().value)) else log
  }

  lemma {:induction false} ProjectFileSnoc(h: seq<Request>, r: Request, k: Kind, render: Doc -> Text)
    ensures FileOf(Project(h + [r], k, render)) == Noted(FileOf(Project(h, k, render)), k, r, render)
  {
    ProjectSnoc(h, r, k, render);
    if KindOf(r) == Some(k) {
      FileOfSnoc(Project(h, k, render), render(r.Value().value));
    }
  }

  /** A compaction takes a snapshot when the main log has a line. */
  predicate Snaps(kept: seq<Text>, r: Request) {
    KindOf(r) == Some(Compaction) && kept != []
  }

  function Taken(kept: seq<Text>, snapshots: seq<Text>, r: Request): seq<Text> {
    if Snaps(kept, r) then snapshots + [kept[|kept| - 1]] else snapshots
  }

  /** The logs after one more request. */
  function Routed(kept: seq<Text>, logs: Logs, r: Request, render: Doc -> Text): Logs {
    var snaps := Snaps(kept, r);
    Logs(
      Append(logs.raw, r.body),
      if snaps then FileOf([kept[|kept| - 1]]) else Noted(logs.main, Main, r, render),
      Noted(logs.subagent, Subagent, r, render),
      Noted(logs.compaction, Compaction, r, render),
      if snaps then Append(logs.preCompact, kept[|kept| - 1]) else logs.preCompact)
  }

  lemma RoutedMain(h: seq<Request>, r: Request, logs: Logs, render: Doc -> Text)
    requires logs.main == FileOf(Kept(h, render))
    ensures Routed(Kept(h, render), logs, r, render).main == FileOf(Kept(h + [r], render))
  {
    var kept := Kept(h, render);
    KeptSnoc(h, r, render);
    if KindOf(r) == Some(Main) {
      FileOfSnoc(kept, render(r.Value().value));
    } else if Snaps(kept, r) {
      LastOnly(kept);
    }
  }

  lemma LastOnly(lines: seq<Text>)
    requires lines != []
    ensures lines[|lines| - 1..] == [lines[|lines| - 1]]
  {
  }

  lemma KeptAreLogLines(h: seq<Request>, r: Request, render: Doc -> Text)
    requires AreLogLines(Kept(h, render))
    requires r.Value().Some? ==> IsLogLine(render(r.Value().value))
    ensures AreLogLines(Kept(h + [r], render))
  {
    KeptSnoc(h, r, render);
  }

  /** The last line kept is the last main exchange, and there is none without one. */
  lemma {:induction false} KeptLast(h: seq<Request>, render: Doc -> Text)
    ensures var kept, mains := Kept(h, render), Project(h, Main, render);
      (kept == [] <==> mains == []) && (mains != [] ==> kept[|kept| - 1] == mains[|mains| - 1])
  {
  }

  /** The snapshots after one more request, and that each is a log line. */
  lemma TakenSnapshots(h: seq<Request>, r: Request, snapshots: seq<Text>, render: Doc -> Text)
    requires AreLogLines(snapshots) && AreLogLines(Kept(h, render))
    requires SnapshotsOf(h, snapshots, render)
    ensures var taken := Taken(Kept(h, render), snapshots, r);
      AreLogLines(taken) && SnapshotsOf(h + [r], taken, render)
  {
    KeptLast(h, render);
    hide Project, EffectiveCount, Effective, Dropped, Kept, IsLogLine, KindOf;
    EffectiveSnoc(h, r, render);
    SnapshotsSnoc(h, r, snapshots, render);
  }

  lemma {:induction false} RoutedSnapshots(kept: seq<Text>, r: Request, snapshots: seq<Text>, logs: Logs,
                                           render: Doc -> Text)
    requires logs.preCompact == FileOf(snapshots)
    ensures Routed(kept, logs, r, render).preCompact == FileOf(Taken(kept, snapshots, r))
  {
    if Snaps(kept, r) {
      FileOfSnoc(snapshots, kept[|kept| - 1]);
    }
  }

  lemma {:induction false} RoutedOthers(h: seq<Request>, r: Request, logs: Logs, render: Doc -> Text)
    requires logs.raw == FileOf(Bodies(h))
    requires logs.subagent == FileOf(Project(h, Subagent, render))
    requires logs.compaction == FileOf(Project(h, Compaction, render))
    ensures var after := Routed(Kept(h, render), logs, r, render);
      && after.raw == FileOf(Bodies(h + [r]))
      && after.subagent == FileOf(Project(h + [r], Subagent, render))
      && after.compaction == FileOf(Project(h + [r], Compaction, render))
  {
    BodiesSnoc(h, r);
    ProjectFileSnoc(h, r, Subagent, render);
    ProjectFileSnoc(h, r, Compaction, render);
  }

  /** Routing a request keeps every log the function of the history it is. */
  lemma RoutedHolds(h: seq<Request>, r: Request, snapshots: seq<Text>, logs: Logs, render: Doc -> Text)
    requires Holds(h, snapshots, logs, render)
    requires r.Value().Some? ==> IsLogLine(render(r.Value().value))
    ensures var kept := Kept(h, render);
      Holds(h + [r], Taken(kept, snapshots, r), Routed(kept, logs, r, render), render)
  {
    RoutedOthers(h, r, logs, render);
    RoutedMain(h, r, logs, render);
    KeptAreLogLines(h, r, render);
    TakenSnapshots(h, r, snapshots, render);
    RoutedSnapshots(Kept(h, render), r, snapshots, logs, render);
  }

  // -- What is answered ----------------------------------------------------

  /** `inject_compaction_system_block`. */
  function Inject(value: Doc, instructions: string): Result<Doc> {
    match value.Get("system")
    case Some(DocArr(items)) => Ok(value.Set("system", DocArr(items + [SystemBlock(instructions)])))
    case _ => Err("no 'system' array in request JSON")
  }

  function SystemBlock(text: string): Doc {
    DocObj([DocMember("type", DocStr("text")), DocMember("text", DocStr(text))])
  }

  /** The rewritten request differs in the system blocks only, to which it adds one, and it is
      classified as before. */
  lemma InjectAdds(value: Doc, instructions: string)
    ensures var injected := Inject(value, instructions);
      injected.Ok? <==> value.Get("system").Some? && value.Get("system").value.DocArr?
    ensures var injected := Inject(value, instructions);
      injected.Ok? ==>
        && injected.value.Get("system") ==
             Some(DocArr(value.Get("system").value.items +
               [DocObj([DocMember("type", DocStr("text")), DocMember("text", DocStr(instructions))])]))
        && (forall key :: key != "system" ==> injected.value.Get(key) == value.Get(key))
        && injected.value.DocObj? && |injected.value.members| == |value.members|
        && (forall i :: 0 <= i < |value.members| ==> injected.value.members[i].key == value.members[i].key)
        && Classify(injected.value) == Classify(value)
  {
    match value.Get("system")
    case Some(DocArr(items)) =>
      var v := DocArr(items + [SystemBlock(instructions)]);
      ReplacedReads(value.members, "system", v, v);
      ReplacedKeys(value.members, "system", v);
      assert value.Set("system", v).Get("tools") == value.Get("tools");
    case _ =>
  }

  /** What the proxy is told: nothing to rewrite, the rewritten request, or an error. */
  function Answer(r: Request, instructions: string, render: Doc -> Text): Result<Option<Text>> {
    match r.checked
    case Err(message) => Err(message)
    case Ok(_) =>
      if KindOf(r) != Some(Compaction) then Ok(None)
      else
        match Inject(r.Value().value, instructions)
        case Err(message) => Err(message)
        case Ok(value) => Ok(Some(render(value)))
  }

  /** The answer to a request: an error of validation or of the rewriting is passed on, a
      compaction is answered with its rewritten text, and everything else is left as it is. */
  lemma AnswerMeaning(r: Request, instructions: string, render: Doc -> Text)
    ensures match r.checked
      case Err(message) => Answer(r, instructions, render) == Err(message) && KindOf(r) == None
      case Ok(None) => Answer(r, instructions, render) == Ok(None) && KindOf(r) == None
      case Ok(Some(value)) =>
        && KindOf(r) == Classify(value)
        && (Classify(value) != Some(Compaction) ==> Answer(r, instructions, render) == Ok(None))
        && (Classify(value) == Some(Compaction) ==>
              match Inject(value, instructions)
              case Ok(rewritten) => Answer(r, instructions, render) == Ok(Some(render(rewritten)))
              case Err(message) => Answer(r, instructions, render) == Err(message))
  {
  }

  // -- The session directory -----------------------------------------------

  class SessionDir {
    const render: Doc -> Text
    const instructions: string

    var rawLog: Text
    var mainLog: Text
    var subagentLog: Text
    var compactionLog: Text
    var preCompactLog: Text

    ghost var history: seq<Request>
    ghost var snapshots: seq<Text>

    ghost function Now(): Logs
      reads this
    {
      Logs(rawLog, mainLog, subagentLog, compactionLog, preCompactLog)
    }

    ghost predicate Valid()
      reads this
    {
      Holds(history, snapshots, Now(), render)
    }

    constructor (render: Doc -> Text, instructions: string)
      ensures Valid() && history == [] && this.render == render && this.instructions == instructions
    {
      this.render, this.instructions := render, instructions;
      rawLog, mainLog, subagentLog, compactionLog, preCompactLog := "", "", "", "", "";
      history, snapshots := [], [];
    }

    /** `capture_precompaction`: the number of the new snapshot line. */
    method CapturePrecompaction(ghost mains: seq<Text>) returns (number: Option<nat>)
      requires mainLog == FileOf(mains) && preCompactLog == FileOf(snapshots)
      requires AreLogLines(mains) && AreLogLines(snapshots)
      modifies `preCompactLog, `snapshots
      ensures snapshots == if mains == [] then old(snapshots) else old(snapshots) + [mains[|mains| - 1]]
      ensures preCompactLog ==
        if mains == [] then old(preCompactLog) else Append(old(preCompactLog), mains[|mains| - 1])
      ensures number == if mains == [] then None else Some(|snapshots|)
    {
      hide FileOf, Lines, LastNonBlank;
      var last := ReadLastLine(mainLog);
      LastLineOfFile(mains);
      if last.None? {
        return None;
      }
      FileOfSnoc(snapshots, last.value);
      preCompactLog := Append(preCompactLog, last.value);
      snapshots := snapshots + [last.value];
      LinesOfFile(snapshots);
      return Some(|Lines(preCompactLog)|);
    }

    /** `truncate_mainexch`. */
    method TruncateMain(ghost mains: seq<Text>)
      requires mainLog == FileOf(mains) && AreLogLines(mains)
      modifies `mainLog
      ensures mainLog == if mains == [] then old(mainLog) else FileOf([mains[|mains| - 1]])
    {
      var last := ReadLastLine(mainLog);
      LastLineOfFile(mains);
      if last.None? {
        return;
      }
      mainLog := last.value + "\n";
      assert FileOf([last.value]) == last.value + "\n" + "" == last.value + "\n";
    }

    /** `record_compaction`: the number of the snapshot line, 0 when there is none. */
    method RecordCompaction(value: Doc, ghost mains: seq<Text>) returns (line: nat)
      requires mainLog == FileOf(mains) && preCompactLog == FileOf(snapshots)
      requires AreLogLines(mains) && AreLogLines(snapshots)
      modifies `mainLog, `compactionLog, `preCompactLog, `snapshots
      ensures compactionLog == Append(old(compactionLog), render(value))
      ensures mains == [] ==>
        snapshots == old(snapshots) && preCompactLog == old(preCompactLog) && mainLog == old(mainLog) && line == 0
      ensures mains != [] ==>
        && snapshots == old(snapshots) + [mains[|mains| - 1]] && line == |snapshots|
        && preCompactLog == Append(old(preCompactLog), mains[|mains| - 1])
        && mainLog == FileOf([mains[|mains| - 1]])
    {
      var number := CapturePrecompaction(mains);
      compactionLog := Append(compactionLog, render(value));
      if number.Some? {
        TruncateMain(mains);
      }
      line := if number.Some? then number.value else 0;
    }

    /** `intercept` without its bookkeeping: the raw log first, then the log of the kind. */
    method Route(r: Request, ghost mains: seq<Text>) returns (answer: Result<Option<Text>>, line: nat)
      requires mainLog == FileOf(mains) && preCompactLog == FileOf(snapshots)
      requires AreLogLines(mains) && AreLogLines(snapshots)
      modifies `rawLog, `mainLog, `subagentLog, `compactionLog, `preCompactLog, `snapshots
      ensures !IsUtf8(r.body) ==> answer.Err? && line == 0 && Now() == old(Now()) && snapshots == old(snapshots)
      ensures IsUtf8(r.body) ==>
        && Now() == Routed(mains, old(Now()), r, render) && snapshots == Taken(mains, old(snapshots), r)
        && answer == Answer(r, instructions, render)
        && line == if Snaps(mains, r) then |snapshots| else 0
    {
      line := 0;
      if !IsUtf8(r.body) {
        return Err("invalid UTF-8"), 0;
      }
      rawLog := Append(rawLog, r.body);
      if r.checked.Err? {
        return Err(r.checked.message), 0;
      }
      if r.checked.value.None? {
        return Ok(None), 0;
      }
      var value := r.checked.value.value;
      var kind := Classify(value);
      if kind.None? {
        return Ok(None), 0;
      }
      match kind.value
      case Main =>
        mainLog := Append(mainLog, render(value));
        answer := Ok(None);
      case Subagent =>
        subagentLog := Append(subagentLog, render(value));
        answer := Ok(None);
      case Compaction =>
        line := RecordCompaction(value, mains);
        var injected := Inject(value, instructions);
        if injected.Err? {
          return Err(injected.message), line;
        }
        answer := Ok(Some(render(injected.value)));
    }

    /** `intercept`. A body that is not UTF-8 is refused before anything is logged. Any other
        becomes part of the history, also when the answer is an error; `line` is the number of
        the snapshot of a compaction. */
    method Intercept(r: Request) returns (answer: Result<Option<Text>>, line: nat)
      requires Valid() && (r.Value().Some? ==> IsLogLine(render(r.Value().value)))
      modifies this
      ensures Valid()
      ensures !IsUtf8(r.body) ==> answer.Err? && line == 0 && Now() == old(Now()) && history == old(history)
      ensures IsUtf8(r.body) ==>
        && history == old(history) + [r] && answer == Answer(r, instructions, render)
        && line == if Effective(history, |history| - 1, render) then EffectiveCount(history, render) else 0
    {
      hide Project, Kept, Dropped, FileOf, Bodies, IsLogLine, Routed, EffectiveCount, IsSnapshotOf, Answer;
      RoutedHolds(history, r, snapshots, Now(), render);
      KeptSnoc(history, r, render);
      EffectiveSnoc(history, r, render);
      answer, line := Route(r, Kept(history, render));
      if IsUtf8(r.body) {
        history := history + [r];
      }
    }
  }
}
