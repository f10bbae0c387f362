/** Line lists of `report_render_core`: run-length text and its rows. */
module LineLists {
  import opened Prelude

  // -- Runs ----------------------------------------------------------------

  /** A line number and how often it is repeated. */
  datatype LineRun = LineRun(line: nat, count: nat)

  function Repeat(line: nat, count: nat): (r: seq<nat>)
    ensures |r| == count && forall i :: 0 <= i < count ==> r[i] == line
  {
    seq(count, _ => line)
  }

  /** The lines a run list stands for. */
  function Expand(runs: seq<LineRun>): seq<nat> {
    if runs == [] then [] else Repeat(runs[0].line, runs[0].count) + Expand(runs[1..])
  }

  /** No run is empty and neighbours differ. */
  ghost predicate Maximal(runs: seq<LineRun>) {
    && (forall i :: 0 <= i < |runs| ==> runs[i].count > 0)
    && (forall i, j :: 0 <= i < j < |runs| && j == i + 1 ==> runs[i].line != runs[j].line)
  }

  lemma {:induction false} ExpandSnoc(runs: seq<LineRun>, r: LineRun)
    ensures Expand(runs + [r]) == Expand(runs) + Repeat(r.line, r.count)
    decreases |runs|
  {
    if runs == [] {
      assert runs + [r] == [r] && [r][1..] == [];
      assert Repeat(r.line, r.count) + [] == [] + Repeat(r.line, r.count);
    } else {
      assert (runs + [r])[0] == runs[0] && (runs + [r])[1..] == runs[1..] + [r];
      ExpandSnoc(runs[1..], r);
      AppendAssociates(Repeat(runs[0].line, runs[0].count), Expand(runs[1..]), Repeat(r.line, r.count));
    }
  }

  // -- Text ----------------------------------------------------------------

  function ToText(n: nat): string {
    Decimal(n, 1)
  }

  function Part(r: LineRun): string {
    if r.count == 1 then ToText(r.line) else ToText(r.line) + "/" + ToText(r.count)
  }

  function Parts(runs: seq<LineRun>): (r: seq<string>)
    ensures |r| == |runs|
  {
    seq(|runs|, i requires 0 <= i < |runs| => Part(runs[i]))
  }

  /** `join(",")`. */
  function Commas(parts: seq<string>): string {
    if parts == [] then ""
    else if |parts| == 1 then parts[0]
    else parts[0] + "," + Commas(parts[1..])
  }

  /** `split(',')`. */
  function Split(s: string): seq<string> {
    var k := IndexOf(s, ',');
    if k == |s| then [s] else [s[..k]] + Split(s[k + 1..])
  }

  lemma {:induction false} SplitCommas(parts: seq<string>)
    requires parts != [] && forall i :: 0 <= i < |parts| ==> ',' !in parts[i]
    ensures Split(Commas(parts)) == parts
    decreases |parts|
  {
    var s := Commas(parts);
    if |parts| == 1 {
      IndexOfUnique(s, ',', |s|);
    } else {
      assert s[..|parts[0]|] == parts[0] && s[|parts[0]|] == ',' && s[|parts[0]| + 1..] == Commas(parts[1..]);
      IndexOfUnique(s, ',', |parts[0]|);
      SplitCommas(parts[1..]);
      HeadAndTail(parts);
    }
  }

  /** A run as text: the line, and behind a slash how often it comes unless that is once. */
  lemma PartText(r: LineRun)
    ensures IsNumber(ToText(r.line), r.line, 1) && IsNumber(ToText(r.count), r.count, 1)
    ensures Part(r) == if r.count == 1 then ToText(r.line) else ToText(r.line) + "/" + ToText(r.count)
    ensures Commas([]) == "" && Commas([Part(r)]) == Part(r)
    ensures Bracketed([Part(r)]) == "[" + Part(r) + "]"
  {
    DecimalMeaning(r.line, 1);
    DecimalMeaning(r.count, 1);
  }

  /** Parts stand behind each other with a comma between. */
  lemma {:induction false} CommasText(parts: seq<string>, last: string)
    requires parts != []
    ensures Commas(parts + [last]) == Commas(parts) + "," + last
    decreases |parts|
  {
    assert (parts + [last])[1..] == parts[1..] + [last];
    if |parts| > 1 {
      CommasText(parts[1..], last);
      AppendAssociates(parts[0] + ",", Commas(parts[1..]), "," + last);
    }
  }

  /** What a part of a line list says. */
  function ReadPart(part: string): LineRun {
    var k := IndexOf(part, '/');
    if k == |part| then LineRun(NumberOf(part), 1) else LineRun(NumberOf(part[..k]), NumberOf(part[k + 1..]))
  }

  lemma {:induction false} LineOnlyReads(line: string)
    requires '/' !in line
    ensures ReadPart(line) == LineRun(NumberOf(line), 1)
  {
    IndexOfUnique(line, '/', |line|);
  }

  lemma {:induction false} LineAndCountRead(line: string, count: string)
    requires '/' !in line
    ensures ReadPart(line + "/" + count) == LineRun(NumberOf(line), NumberOf(count))
  {
    var part := line + "/" + count;
    assert part[..|line|] == line && part[|line|] == '/' && part[|line| + 1..] == count;
    IndexOfUnique(part, '/', |line|);
  }

  /** A part reads back as its run. */
  lemma PartReads(r: LineRun)
    ensures ReadPart(Part(r)) == r
    ensures Part(r) != "" && ',' !in Part(r) && '[' !in Part(r)
  {
    hide ReadPart, NumberOf, Decimal;
    DecimalReads(r.line, 1);
    DecimalReads(r.count, 1);
    LineOnlyReads(ToText(r.line));
    LineAndCountRead(ToText(r.line), ToText(r.count));
  }

  function ReadParts(parts: seq<string>): (r: seq<LineRun>)
    ensures |r| == |parts|
  {
    seq(|parts|, i requires 0 <= i < |parts| => ReadPart(parts[i]))
  }

  /** The lines a text stands for. */
  function ReadLines(text: string): seq<nat> {
    if text == "" then [] else Expand(ReadParts(Split(text)))
  }

  /** The text of a run list gives the lines back: nothing is lost by collapsing. */
  lemma {:induction false} CollapsedReads(runs: seq<LineRun>)
    ensures ReadLines(Commas(Parts(runs))) == Expand(runs)
  {
    forall i | 0 <= i < |runs|
      ensures ReadPart(Part(runs[i])) == runs[i] && ',' !in Part(runs[i])
    {
      PartReads(runs[i]);
    }
    if runs != [] {
      SplitCommas(Parts(runs));
      assert ReadParts(Parts(runs)) == runs;
      PartReads(runs[0]);
    }
  }

  lemma {:induction false} RunsSnoc(lines: seq<nat>, i: nat, runs: seq<LineRun>, count: nat)
    requires i + count <= |lines| && count > 0
    requires Maximal(runs) && Expand(runs) == lines[..i] && (runs != [] ==> runs[|runs| - 1].line != lines[i])
    requires forall k :: i <= k < i + count ==> lines[k] == lines[i]
    ensures var longer := runs + [LineRun(lines[i], count)];
      && Maximal(longer) && Expand(longer) == lines[..i + count]
      && Parts(longer) == Parts(runs) + [Part(LineRun(lines[i], count))]
  {
    hide Expand, Part;
    ExpandSnoc(runs, LineRun(lines[i], count));
    NextRun(lines, i, count);
    PartsSnoc(runs, LineRun(lines[i], count));
    MaximalSnoc(runs, LineRun(lines[i], count));
  }

  lemma PartsSnoc(runs: seq<LineRun>, r: LineRun)
    ensures Parts(runs + [r]) == Parts(runs) + [Part(r)]
  {
    hide Part;
    forall i | 0 <= i < |runs|
      ensures Part((runs + [r])[i]) == Part(runs[i])
    {
    }
  }

  lemma MaximalSnoc(runs: seq<LineRun>, r: LineRun)
    requires Maximal(runs) && r.count > 0 && (runs != [] ==> runs[|runs| - 1].line != r.line)
    ensures Maximal(runs + [r])
  {
  }

  lemma NextRun(lines: seq<nat>, i: nat, count: nat)
    requires i + count <= |lines|
    requires forall k :: i <= k < i + count ==> lines[k] == lines[i]
    ensures count > 0 ==> lines[..i] + Repeat(lines[i], count) == lines[..i + count]
  {
  }

  /** `collapse_line_numbers`: the text of maximal runs, from which the lines can be read. */
  method CollapseLineNumbers(lines: seq<nat>) returns (text: string)
    ensures exists runs: seq<LineRun> :: Maximal(runs) && Expand(runs) == lines && text == Commas(Parts(runs))
    ensures ReadLines(text) == lines
  {
    var parts: seq<string> := [];
    ghost var runs: seq<LineRun> := [];
    var i := 0;
    while i < |lines|
      invariant 0 <= i <= |lines|
      invariant Maximal(runs) && parts == Parts(runs) && Expand(runs) == lines[..i]
      invariant runs != [] && i < |lines| ==> runs[|runs| - 1].line != lines[i]
    {
      var count := CountRun(lines, i);
      RunsSnoc(lines, i, runs, count);
      runs := runs + [LineRun(lines[i], count)];
      if count == 1 {
        parts := parts + [ToText(lines[i])];
      } else {
        parts := parts + [ToText(lines[i]) + "/" + ToText(count)];
      }
      i := i + count;
    }
    assert lines[..|lines|] == lines;
    CollapsedReads(runs);
    text := Commas(parts);
  }

  /** How often `lines[from]` is repeated from there on. */
  method CountRun(lines: seq<nat>, from: nat) returns (count: nat)
    requires from < |lines|
    ensures 0 < count <= |lines| - from
    ensures forall k :: from <= k < from + count ==> lines[k] == lines[from]
    ensures from + count < |lines| ==> lines[from + count] != lines[from]
  {
    count := 1;
    while from + count < |lines| && lines[from + count] == lines[from]
      invariant 0 < count <= |lines| - from
      invariant forall k :: from <= k < from + count ==> lines[k] == lines[from]
    {
      count := count + 1;
    }
  }

  // -- Rows ----------------------------------------------------------------

  /** The line list in brackets, as it stands when it fits on one row. */
  function Bracketed(parts: seq<string>): string {
    "[" + Commas(parts) + "]"
  }

  /** Each part behind a comma. */
  function Listed(parts: seq<string>): string {
    if parts == [] then "" else "," + parts[0] + Listed(parts[1..])
  }

  lemma {:induction false} CommasListed(parts: seq<string>)
    requires parts != []
    ensures Commas(parts) == parts[0] + Listed(parts[1..])
    decreases |parts|
  {
    if |parts| == 1 {
      assert parts[1..] == [];
      assert parts[0] + "" == parts[0];
    } else {
      CommasListed(parts[1..]);
    }
  }

  /** What the rows show in the end: those closed, the current one, what is still to come. */
  function Shown(rows: seq<string>, current: string, rest: string): string {
    Flatten(rows) + (current + rest)
  }

  lemma ShownSameRow(rows: seq<string>, current: string, entry: string, rest: string)
    ensures Shown(rows, current + entry, rest) == Shown(rows, current, entry + rest)
  {
    AppendAssociates(current, entry, rest);
  }

  lemma ShownNextRow(rows: seq<string>, current: string, part: string, rest: string)
    ensures Shown(rows + [current + ","], part, rest) == Shown(rows, current, "," + part + rest)
  {
    FlattenAppend(rows, [current + ","]);
    assert Flatten([current + ","]) == current + "," + "" == current + ",";
    AppendAssociates(Flatten(rows), current + ",", part + rest);
    AppendAssociates(current, ",", part + rest);
    AppendAssociates(",", part, rest);
  }

  /** The list as the rows show it: a first part that leaves no room for itself would get a
      comma of its own. */
  function InRows(parts: seq<string>, avail: nat): string
    requires parts != []
  {
    if |parts[0]| + 2 <= avail then Bracketed(parts) else "[" + Listed(parts) + "]"
  }

  /** What is still to come before part `i`, with the closing bracket. */
  function Ahead(parts: seq<string>, i: nat): string
    requires i <= |parts|
  {
    Listed(parts[i..]) + "]"
  }

  lemma AheadNext(parts: seq<string>, i: nat)
    requires i < |parts|
    ensures Ahead(parts, i) == "," + parts[i] + Ahead(parts, i + 1)
  {
    assert parts[i..][0] == parts[i] && parts[i..][1..] == parts[i + 1..];
    AppendAssociates("," + parts[i], Listed(parts[i + 1..]), "]");
  }

  lemma FirstPart(parts: seq<string>, avail: nat)
    requires parts != []
    ensures InRows(parts, avail) ==
      if |parts[0]| + 2 <= avail then Shown([], "[", parts[0] + Ahead(parts, 1))
      else Shown([], "[", "," + parts[0] + Ahead(parts, 1))
  {
    CommasListed(parts);
    AppendAssociates("[", parts[0] + Listed(parts[1..]), "]");
    AppendAssociates(parts[0], Listed(parts[1..]), "]");
    AheadNext(parts, 0);
    assert parts[0..] == parts;
    AppendAssociates("[", Listed(parts), "]");
    assert "" + ("[" + (parts[0] + Ahead(parts, 1))) == "[" + (parts[0] + Ahead(parts, 1));
    assert "" + ("[" + Ahead(parts, 0)) == "[" + Ahead(parts, 0);
  }

  predicate FitRows(parts: seq<string>, avail: nat) {
    forall i :: 0 <= i < |parts| ==> |parts[i]| + 2 <= avail
  }

  predicate EndsInComma(row: string) {
    row != "" && row[|row| - 1] == ','
  }

  /** The row loop of `format_file_location`: the rows are the bracketed list cut after
      commas, none wider than there is room. */
  method SplitRows(parts: seq<string>, avail: nat) returns (rows: seq<string>)
    requires parts != [] && forall i :: 0 <= i < |parts| ==> parts[i] != "" && '[' !in parts[i]
    ensures Flatten(rows) == InRows(parts, avail)
    ensures forall i :: 0 <= i < |rows| - 1 ==> EndsInComma(rows[i])
    ensures FitRows(parts, avail) ==> forall i :: 0 <= i < |rows| ==> |rows[i]| <= avail
  {
    hide Shown, Ahead, InRows;
    rows := [];
    var current := "[";
    assert FitRows(parts, avail) ==> |parts[0]| + 2 <= avail;
    for i := 0 to |parts|
      invariant forall k :: 0 <= k < |rows| ==> EndsInComma(rows[k])
      invariant FitRows(parts, avail) ==> |current| + 1 <= avail && forall k :: 0 <= k < |rows| ==> |rows[k]| <= avail
      invariant if i == 0 then rows == [] && current == "["
                else current != "[" && Shown(rows, current, Ahead(parts, i)) == InRows(parts, avail)
    {
      var entry := if current == "[" then parts[i] else "," + parts[i];
      if i == 0 {
        FirstPart(parts, avail);
      } else {
        AheadNext(parts, i);
      }
      if |current| + |entry| + 1 > avail {
        ShownNextRow(rows, current, parts[i], Ahead(parts, i + 1));
        rows := rows + [current + ","];
        current := parts[i];
      } else {
        ShownSameRow(rows, current, entry, Ahead(parts, i + 1));
        current := current + entry;
        assert current != "[" by {
          assert |current| > 1;
        }
      }
    }
    LastRow(rows, current, parts);
    rows := rows + [current + "]"];
  }

  lemma {:induction false} LastRow(rows: seq<string>, current: string, parts: seq<string>)
    ensures Flatten(rows + [current + "]"]) == Shown(rows, current, Ahead(parts, |parts|))
  {
    FlattenAppend(rows, [current + "]"]);
    assert Flatten([current + "]"]) == current + "]" + "" == current + "]";
    assert parts[|parts|..] == [] && "" + "]" == "]";
  }

  // -- One location --------------------------------------------------------

  const MAX_WIDTH: nat := 79

  lemma {:induction false} DecimalFits(n: nat, width: nat)
    requires n < Pow10(width)
    ensures |Decimal(n, 1)| <= (if width == 0 then 1 else width)
    decreases width
  {
    if n >= 10 {
      DecimalFits(n / 10, width - 1);
      DecimalWidths(n / 10);
    }
  }

  /** A positive number has no leading zeros. */
  lemma {:induction false} DecimalWidths(n: nat)
    requires n > 0
    ensures Decimal(n, 0) == Decimal(n, 1)
  {
  }

  lemma PartFits(r: LineRun)
    requires r.line < Pow10(20) && r.count < Pow10(20)
    ensures |Part(r)| <= 41
  {
    DecimalFits(r.line, 20);
    DecimalFits(r.count, 20);
  }

  /** The texts of `format_file_location` without padding and colour: beside the file, on
      one row below it, or on several. Numbers of 64 bits always fit, so the rows together
      are the bracketed list, and the lines can be read from it. */
  method FormatFileLocation(file: string, lines: seq<nat>) returns (beside: bool, rows: seq<string>)
    requires forall i :: 0 <= i < |lines| ==> lines[i] < Pow10(20)
    requires |lines| < Pow10(20)
    ensures exists text: string :: Flatten(rows) == "[" + text + "]" && ReadLines(text) == lines
    ensures beside <==> 4 + |file| + |Flatten(rows)| <= MAX_WIDTH
    ensures |Flatten(rows)| <= MAX_WIDTH - 3 ==> |rows| == 1
    ensures forall i :: 0 <= i < |rows| ==> |rows[i]| <= MAX_WIDTH - 3
    ensures forall i :: 0 <= i < |rows| - 1 ==> EndsInComma(rows[i])
  {
    var text := CollapseLineNumbers(lines);
    var lineList := "[" + text + "]";
    var avail := MAX_WIDTH - 3;
    assert Flatten([lineList]) == lineList + "" == lineList;
    if 3 + |file| + 1 + |lineList| <= MAX_WIDTH {
      return true, [lineList];
    }
    if |lineList| <= avail {
      return false, [lineList];
    }
    CollapsedParts(lines, text);
    rows := SplitRows(Split(text), avail);
    return false, rows;
  }

  lemma {:induction false} RunBounds(runs: seq<LineRun>, i: nat)
    requires i < |runs| && Maximal(runs)
    ensures runs[i].line in Expand(runs) && runs[i].count <= |Expand(runs)|
    decreases |runs|
  {
    if i == 0 {
      assert Repeat(runs[0].line, runs[0].count)[0] == runs[0].line;
    } else {
      assert Maximal(runs[1..]);
      RunBounds(runs[1..], i - 1);
    }
  }

  /** Splitting the text at commas gives the parts again. */
  lemma {:induction false} CollapsedParts(lines: seq<nat>, text: string)
    requires text != ""
    requires exists runs: seq<LineRun> :: Maximal(runs) && Expand(runs) == lines && text == Commas(Parts(runs))
    requires |lines| < Pow10(20) && forall i :: 0 <= i < |lines| ==> lines[i] < Pow10(20)
    ensures var parts := Split(text);
      && Commas(parts) == text && FitRows(parts, MAX_WIDTH - 3) && parts != []
      && forall i :: 0 <= i < |parts| ==> parts[i] != "" && '[' !in parts[i]
  {
    var runs: seq<LineRun> :| Maximal(runs) && Expand(runs) == lines && text == Commas(Parts(runs));
    forall i | 0 <= i < |runs|
      ensures Part(runs[i]) != "" && ',' !in Part(runs[i]) && '[' !in Part(runs[i]) && |Part(runs[i])| <= 41
    {
      PartReads(runs[i]);
      RunBounds(runs, i);
      PartFits(runs[i]);
    }
    SplitCommas(Parts(runs));
  }
}
