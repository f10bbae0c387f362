/** Greedy line wrapping of `report_render_core`. */
module Wrap {
  import opened Prelude

  /** A line is a sequence of words. */
  type Line = seq<string>

  function Join(line: Line): string {
    if line == [] then ""
    else if |line| == 1 then line[0]
    else Join(line[..|line| - 1]) + " " + line[|line| - 1]
  }

  /** A line as text: its words with one space between. */
  lemma {:induction false} JoinMeaning(line: Line, last: string)
    ensures Join([]) == "" && Join([last]) == last
    ensures line != [] ==> Join(line + [last]) == Join(line) + " " + last
  {
    assert (line + [last])[..|line|] == line;
  }

  /** Each word with one separator. */
  function Total(line: Line): nat {
    if line == [] then 0 else |line[0]| + 1 + Total(line[1..])
  }

  lemma {:induction false} TotalAppend(a: Line, b: Line)
    ensures Total(a + b) == Total(a) + Total(b)
    decreases |a|
  {
    if a == [] {
      assert a + b == b;
    } else {
      assert (a + b)[0] == a[0] && (a + b)[1..] == a[1..] + b;
      TotalAppend(a[1..], b);
    }
  }

  lemma {:induction false} JoinLength(line: Line)
    requires line != []
    ensures |Join(line)| + 1 == Total(line)
    decreases |line|
  {
    if |line| == 1 {
      assert line[1..] == [];
    } else {
      var front, last := line[..|line| - 1], line[|line| - 1];
      JoinLength(front);
      assert line == front + [last];
      TotalAppend(front, [last]);
      assert [last][1..] == [];
    }
  }

  /** A line that may stand: short enough, or a single word. */
  predicate Fits(line: Line, width: nat) {
    |line| == 1 || (line != [] && |Join(line)| <= width)
  }

  /** A wrapping of `words`: the first line has width `first`, the others `rest`. */
  predicate IsWrapping(lines: seq<Line>, words: Line, first: nat, rest: nat)
    decreases |lines|
  {
    if lines == [] then words == []
    else Fits(lines[0], first) && lines[0] <= words && IsWrapping(lines[1..], words[|lines[0]|..], rest, rest)
  }

  lemma {:induction false} WrappingKeepsWords(lines: seq<Line>, words: Line, first: nat, rest: nat)
    requires IsWrapping(lines, words, first, rest)
    ensures Flatten(lines) == words
    decreases |lines|
  {
    if lines != [] {
      WrappingKeepsWords(lines[1..], words[|lines[0]|..], rest, rest);
    }
  }

  /** The lines of the greedy loop when `current` is the line being filled. */
  function Continue(current: Line, words: Line, width: nat, rest: nat): seq<Line>
    decreases |words|
  {
    if words == [] then [current]
    else if |Join(current)| + 1 + |words[0]| > width then [current] + Continue([words[0]], words[1..], rest, rest)
    else Continue(current + [words[0]], words[1..], width, rest)
  }

  function Greedy(words: Line, first: nat, rest: nat): seq<Line> {
    if words == [] then [] else Continue([words[0]], words[1..], first, rest)
  }

  lemma {:induction false} ContinueWraps(current: Line, words: Line, width: nat, rest: nat)
    requires Fits(current, width)
    ensures IsWrapping(Continue(current, words, width, rest), current + words, width, rest)
    decreases |words|
  {
    if words == [] {
      assert [current][1..] == [] && (current + words)[|current|..] == [];
    } else {
      HeadAndTail(words);
      if |Join(current)| + 1 + |words[0]| > width {
        ContinueWraps([words[0]], words[1..], rest, rest);
        WrappingCons(current, Continue([words[0]], words[1..], rest, rest), words, width, rest);
      } else {
        JoinSnoc(current, words[0]);
        ContinueWraps(current + [words[0]], words[1..], width, rest);
        AppendAssociates(current, [words[0]], words[1..]);
      }
    }
  }

  lemma {:induction false} WrappingCons(line: Line, lines: seq<Line>, words: Line, width: nat, rest: nat)
    requires Fits(line, width) && IsWrapping(lines, words, rest, rest)
    ensures IsWrapping([line] + lines, line + words, width, rest)
  {
    assert ([line] + lines)[1..] == lines && (line + words)[|line|..] == words;
  }

  /** Greedy wrapping is a wrapping. */
  lemma {:induction false} GreedyWraps(words: Line, first: nat, rest: nat)
    ensures IsWrapping(Greedy(words, first, rest), words, first, rest)
    ensures Flatten(Greedy(words, first, rest)) == words
  {
    if words != [] {
      ContinueWraps([words[0]], words[1..], first, rest);
      assert [words[0]] + words[1..] == words;
    }
    WrappingKeepsWords(Greedy(words, first, rest), words, first, rest);
  }

  /** A part of a line that fits also fits. */
  lemma {:induction false} PartIsShorter(before: Line, part: Line, after: Line)
    requires part != []
    ensures |Join(part)| <= |Join(before + part + after)|
  {
    TotalAppend(before, part);
    TotalAppend(before + part, after);
    JoinLength(part);
    JoinLength(before + part + after);
  }

  lemma {:induction false} JoinSnoc(line: Line, word: string)
    requires line != []
    ensures Join(line + [word]) == Join(line) + " " + word
  {
    assert (line + [word])[..|line|] == line;
  }

  /** A line that fits ends before the word that does not fit after a part of it. */
  lemma {:induction false} LineEndsBefore(line: Line, before: Line, current: Line, words: Line, width: nat)
    requires current != [] && words != [] && line <= before + current + words
    requires Fits(line, width) && |Join(current)| + 1 + |words[0]| > width
    ensures |line| <= |before + current|
  {
    if |line| > |before + current| {
      var after := line[|before + current| + 1..];
      JoinSnoc(current, words[0]);
      assert line == before + (current + [words[0]]) + after;
      PartIsShorter(before, current + [words[0]], after);
    }
  }

  lemma WordsAfter(line: Line, before: Line, current: Line, words: Line) returns (skipped: Line)
    requires words != [] && line <= before + current + words && |line| <= |before + current|
    ensures (before + current + words)[|line|..] == skipped + [words[0]] + words[1..]
  {
    skipped := (before + current)[|line|..];
  }

  /** Greedy stays ahead: when what it still has to place is a suffix of what another
      wrapping has to place, it needs no more lines. */
  lemma {:induction false} ContinueStaysAhead(before: Line, current: Line, words: Line, width: nat, rest: nat,
                                              other: seq<Line>)
    requires current != []
    requires IsWrapping(other, before + current + words, width, rest)
    ensures |Continue(current, words, width, rest)| <= |other|
    decreases |words|
  {
    var all := before + current + words;
    assert all != [];
    if words == [] {
    } else if |Join(current)| + 1 + |words[0]| <= width {
      assert all == before + (current + [words[0]]) + words[1..];
      ContinueStaysAhead(before, current + [words[0]], words[1..], width, rest, other);
    } else {
      LineEndsBefore(other[0], before, current, words, width);
      var skipped := WordsAfter(other[0], before, current, words);
      ContinueStaysAhead(skipped, [words[0]], words[1..], rest, rest, other[1..]);
    }
  }

  /** No wrapping with the same widths has fewer lines. */
  lemma {:induction false} GreedyIsShortest(words: Line, first: nat, rest: nat, other: seq<Line>)
    requires IsWrapping(other, words, first, rest)
    ensures |Greedy(words, first, rest)| <= |other|
  {
    if words != [] {
      assert words == [] + [words[0]] + words[1..];
      ContinueStaysAhead([], [words[0]], words[1..], first, rest, other);
    }
  }

  function Joined(lines: seq<Line>): (r: seq<string>)
    ensures |r| == |lines|
  {
    seq(|lines|, i requires 0 <= i < |lines| => Join(lines[i]))
  }

  lemma {:induction false} JoinedSnoc(lines: seq<Line>, line: Line)
    ensures Joined(lines + [line]) == Joined(lines) + [Join(line)]
  {
  }

  /** One turn of the loop: what is done, the line being filled and the words to come. */
  lemma {:induction false} ContinueStep(done: seq<Line>, line: Line, word: string, later: Line, width: nat, rest: nat)
    requires line != []
    ensures var all := done + Continue(line, [word] + later, width, rest);
      all == if |Join(line)| + 1 + |word| > width then (done + [line]) + Continue([word], later, rest, rest)
             else done + Continue(line + [word], later, width, rest)
  {
    assert ([word] + later)[1..] == later;
    AppendAssociates(done, [line], Continue([word], later, rest, rest));
  }

  /** `wrap_adaptive` on the words of the text. There is always a line. */
  method WrapAdaptive(words: seq<string>, firstWidth: nat, restWidth: nat) returns (lines: seq<string>)
    requires forall w :: w in words ==> w != ""
    ensures lines == if words == [] then [""] else Joined(Greedy(words, firstWidth, restWidth))
  {
    lines := [];
    var current := "";
    var width := firstWidth;
    ghost var done: seq<Line> := [];
    ghost var line: Line := [];
    for i := 0 to |words|
      invariant current == Join(line) && lines == Joined(done)
      invariant line == [] <==> current == ""
      invariant i == 0 ==> line == [] && done == [] && width == firstWidth
      invariant i > 0 ==>
        line != [] && done + Continue(line, words[i..], width, restWidth) == Greedy(words, firstWidth, restWidth)
    {
      hide Continue, Greedy, Join, Joined;
      var word := words[i];
      assert words[i..] == [word] + words[i + 1..];
      assert word in words;
      if current == "" {
        FirstWord(words, firstWidth, restWidth);
        JoinOne(word);
        current := word;
        line := [word];
      } else {
        ContinueStep(done, line, word, words[i + 1..], width, restWidth);
        if |current| + 1 + |word| > width {
          JoinedSnoc(done, line);
          JoinOne(word);
          lines := lines + [current];
          done := done + [line];
          current := word;
          line := [word];
          width := restWidth;
        } else {
          JoinSnoc(line, word);
          current := current + " ";
          current := current + word;
          line := line + [word];
        }
      }
    }
    if current != "" {
      lines := lines + [current];
      JoinedSnoc(done, line);
    }
    if lines == [] {
      lines := [""];
    }
  }

  lemma JoinOne(word: string)
    ensures Join([word]) == word
  {
  }

  lemma {:induction false} FirstWord(words: Line, first: nat, rest: nat)
    requires words != []
    ensures [] + Continue([words[0]], words[1..], first, rest) == Greedy(words, first, rest)
  {
  }
}
