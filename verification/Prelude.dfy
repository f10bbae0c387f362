/** Types and text functions shared by the components of the model.

    A byte is the `char` of the same code and a Rust `str` is its sequence of
    bytes, so byte buffers and strings have the same type and the same operations. */
module Prelude {

  datatype Option<+T> = None | Some(value: T)

  datatype Result<+T> = Ok(value: T) | Err(message: string)

  type Text = seq<char>

  /** `serde_json::Number`. */
  datatype Number = PosInt(u: nat) | NegInt(i: int) | Float(r: real)

  /** `serde_json::Value` up to its own equality, which ignores the order of keys. */
  datatype Json =
    | Null
    | Bool(b: bool)
    | Num(n: Number)
    | Str(s: string)
    | Arr(items: seq<Json>)
    | Obj(fields: map<string, Json>)
  {
    function Get(key: string): Option<Json> {
      if Obj? && key in fields then Some(fields[key]) else None
    }
  }

  /** `serde_json::Value` with the order of keys. */
  datatype Doc =
    | DocNull
    | DocBool(b: bool)
    | DocNumber(n: Number)
    | DocStr(s: string)
    | DocArr(items: seq<Doc>)
    | DocObj(members: seq<DocMember>)
  {
    function Get(key: string): Option<Doc> {
      if DocObj? then ValueOf(members, key) else None
    }

    /** The document with another value for a key that it has, at the same place. */
    function Set(key: string, v: Doc): Doc {
      if DocObj? then DocObj(Replaced(members, key, v)) else this
    }
  }

  datatype DocMember = DocMember(key: string, value: Doc)

  function ValueOf(members: seq<DocMember>, key: string): Option<Doc> {
    if members == [] then None
    else if members[0].key == key then Some(members[0].value)
    else ValueOf(members[1..], key)
  }

  function Replaced(members: seq<DocMember>, key: string, v: Doc): seq<DocMember> {
    if members == [] then []
    else if members[0].key == key then [DocMember(key, v)] + members[1..]
    else [members[0]] + Replaced(members[1..], key, v)
  }

  lemma {:induction false} ReplacedReads(members: seq<DocMember>, key: string, v: Doc, w: Doc)
    ensures ValueOf(Replaced(members, key, v), key) == if ValueOf(members, key).Some? then Some(v) else None
    ensures forall x :: x != key ==> ValueOf(Replaced(members, key, v), x) == ValueOf(members, x)
    ensures Replaced(members, key, v) == members <==> ValueOf(members, key) in {None, Some(v)}
    ensures Replaced(Replaced(members, key, v), key, w) == Replaced(members, key, w)
  {
    if members != [] {
      assert members == [members[0]] + members[1..];
      if members[0].key != key {
        ReplacedReads(members[1..], key, v, w);
        var after := Replaced(members, key, v);
        assert after[0] == members[0] && after[1..] == Replaced(members[1..], key, v);
      }
    }
  }

  lemma {:induction false} ReplacedKeys(members: seq<DocMember>, key: string, v: Doc)
    ensures |Replaced(members, key, v)| == |members|
    ensures forall i :: 0 <= i < |members| ==> Replaced(members, key, v)[i].key == members[i].key
  {
    if members != [] && members[0].key != key {
      ReplacedKeys(members[1..], key, v);
    }
  }

  /** Position of the first `c` in `s`, or `|s|` when there is none. */
  function IndexOf(s: Text, c: char): (k: nat)
    ensures k <= |s|
    ensures c !in s[..k]
    ensures k < |s| ==> s[k] == c
  {
    if s == "" || s[0] == c then 0 else 1 + IndexOf(s[1..], c)
  }

  lemma {:induction false} IndexOfUnique(s: Text, c: char, k: nat)
    requires k <= |s|
    requires c !in s[..k]
    requires k < |s| ==> s[k] == c
    ensures IndexOf(s, c) == k
  {
  }

  /** `str::strip_prefix`. */
  function StripPrefix(s: Text, prefix: Text): (r: Option<Text>)
    ensures r.Some? ==> s == prefix + r.value
    ensures r.None? ==> !(prefix <= s)
  {
    if prefix <= s then Some(s[|prefix|..]) else None
  }

  function StripCarriageReturn(line: Text): Text {
    if line != "" && line[|line| - 1] == '\r' then line[..|line| - 1] else line
  }

  /** `str::lines`: split after each line feed; a line loses its line feed and one
      carriage return before it. */
  function Lines(s: Text): seq<Text> {
    var k := IndexOf(s, '\n');
    if s == "" then []
    else if k == |s| then [s]
    else [StripCarriageReturn(s[..k])] + Lines(s[k + 1..])
  }

  /** Lines end with a line feed, or a carriage return and one, or with the text. */
  lemma {:induction false} LinesMeaning(line: Text, rest: Text)
    requires '\n' !in line && (line == "" || line[|line| - 1] != '\r')
    ensures Lines(line + "\n" + rest) == [line] + Lines(rest)
    ensures Lines(line + "\r" + "\n" + rest) == [line] + Lines(rest)
    ensures Lines(line) == if line == "" then [] else [line]
    ensures Lines(line + "\r") == [line + "\r"]
  {
    LinesCons(line, rest);
    LinesCons(line + "\r", rest);
    assert StripCarriageReturn(line + "\r") == line;
    IndexOfUnique(line, '\n', |line|);
    IndexOfUnique(line + "\r", '\n', |line| + 1);
  }

  lemma {:induction false} LinesCons(line: Text, rest: Text)
    requires '\n' !in line
    ensures Lines(line + "\n" + rest) == [StripCarriageReturn(line)] + Lines(rest)
  {
    var s := line + "\n" + rest;
    assert s[..|line|] == line;
    IndexOfUnique(s, '\n', |line|);
    assert s[|line| + 1..] == rest;
  }

  /** White space of `str::trim`, as far as it is ASCII, and of section 2.3 of XML 1.0. */
  datatype White = Ascii | Markup

  predicate IsSpace(c: char, w: White) {
    c == ' ' || c == '\t' || c == '\n' || c == '\r' || (w.Ascii? && '\t' <= c <= '\r')
  }

  function TrimStart(s: Text, w: White): (r: Text)
    ensures |r| <= |s| && r == s[|s| - |r|..]
    ensures r == "" || !IsSpace(r[0], w)
  {
    if s != "" && IsSpace(s[0], w) then TrimStart(s[1..], w) else s
  }

  function TrimEnd(s: Text, w: White): (r: Text)
    ensures r <= s
    ensures r == "" || !IsSpace(r[|r| - 1], w)
  {
    if s != "" && IsSpace(s[|s| - 1], w) then TrimEnd(s[..|s| - 1], w) else s
  }

  /** `str::trim`. */
  function Trim(s: Text, w: White): Text {
    TrimEnd(TrimStart(s, w), w)
  }

  predicate IsTrimmed(s: Text, w: White) {
    s != "" && !IsSpace(s[0], w) && !IsSpace(s[|s| - 1], w)
  }

  predicate IsBlank(s: Text, w: White) {
    forall c :: c in s ==> IsSpace(c, w)
  }

  /** The code points of white space. */
  lemma SpaceIs(c: char, w: White)
    ensures IsSpace(c, w) <==> c as int in if w.Ascii? then {9, 10, 11, 12, 13, 32} else {9, 10, 13, 32}
  {
  }

  /** `s[i..j]` without white space at its ends, and nothing but white space around it. */
  ghost predicate IsCore(s: Text, i: nat, j: nat, w: White) {
    && i <= j <= |s| && (forall k :: 0 <= k < i || j <= k < |s| ==> IsSpace(s[k], w))
    && (i < j ==> !IsSpace(s[i], w) && !IsSpace(s[j - 1], w))
  }

  /** Trimming takes off white space at both ends, and all of it. */
  lemma {:induction false} TrimMeaning(s: Text, w: White)
    ensures exists i: nat, j: nat :: IsCore(s, i, j, w) && Trim(s, w) == s[i..j]
  {
    var rest := TrimStart(s, w);
    var core := TrimEnd(rest, w);
    assert Trim(s, w) == core;
    TrimStartTakes(s, w);
    TrimEndTakes(rest, w);
    hide IsSpace, TrimStart, TrimEnd, Trim, IsCore;
    CoreOfBoth(s, rest, core, w);
  }

  lemma {:induction false} CoreOfBoth(s: Text, rest: Text, core: Text, w: White)
    requires |rest| <= |s| && rest == s[|s| - |rest|..] && core <= rest
    requires forall k :: 0 <= k < |s| - |rest| ==> IsSpace(s[k], w)
    requires forall k :: |core| <= k < |rest| ==> IsSpace(rest[k], w)
    requires (rest == "" || !IsSpace(rest[0], w)) && (core == "" || !IsSpace(core[|core| - 1], w))
    ensures var i := |s| - |rest|; IsCore(s, i, i + |core|, w) && core == s[i..i + |core|]
  {
    hide IsSpace;
    var i := |s| - |rest|;
    forall k | i + |core| <= k < |s|
      ensures IsSpace(s[k], w)
    {
      assert s[k] == rest[k - i];
    }
    if core != "" {
      assert core[|core| - 1] == rest[|core| - 1] == s[i + |core| - 1];
    }
  }

  lemma {:induction false} TrimStartTakes(s: Text, w: White)
    ensures forall i :: 0 <= i < |s| - |TrimStart(s, w)| ==> IsSpace(s[i], w)
  {
    if s != "" && IsSpace(s[0], w) {
      TrimStartTakes(s[1..], w);
      assert forall i :: 0 < i < |s| ==> s[i] == s[1..][i - 1];
    }
  }

  lemma {:induction false} TrimEndTakes(s: Text, w: White)
    ensures forall i :: |TrimEnd(s, w)| <= i < |s| ==> IsSpace(s[i], w)
  {
    if s != "" && IsSpace(s[|s| - 1], w) {
      TrimEndTakes(s[..|s| - 1], w);
      assert forall i :: 0 <= i < |s| - 1 ==> s[i] == s[..|s| - 1][i];
    }
  }

  lemma {:induction false} TrimStartPadded(before: Text, s: Text, w: White)
    requires IsBlank(before, w)
    requires s == "" || !IsSpace(s[0], w)
    ensures TrimStart(before + s, w) == s
  {
    if before == "" {
      assert before + s == s;
    } else {
      assert (before + s)[1..] == before[1..] + s;
      TrimStartPadded(before[1..], s, w);
    }
  }

  lemma {:induction false} TrimEndPadded(s: Text, after: Text, w: White)
    requires IsBlank(after, w)
    requires s == "" || !IsSpace(s[|s| - 1], w)
    ensures TrimEnd(s + after, w) == s
  {
    if after == "" {
      assert s + after == s;
    } else {
      var fewer := after[..|after| - 1];
      assert (s + after)[..|s + after| - 1] == s + fewer;
      TrimEndPadded(s, fewer, w);
    }
  }

  /** Layout around a text that has none of its own is all that trimming removes. */
  lemma TrimPadded(before: Text, s: Text, after: Text, w: White)
    requires IsBlank(before, w) && IsBlank(after, w)
    requires s == "" || IsTrimmed(s, w)
    ensures Trim(before + s + after, w) == s
  {
    if s == "" {
      assert before + s + after == (before + after) + "";
      TrimStartPadded(before + after, "", w);
    } else {
      assert before + s + after == before + (s + after);
      TrimStartPadded(before, s + after, w);
      TrimEndPadded(s, after, w);
    }
  }

  lemma BlankTail(s: Text, w: White)
    requires s != "" && IsSpace(s[0], w)
    ensures IsBlank(s, w) <==> IsBlank(s[1..], w)
  {
    HeadAndTail(s);
  }

  lemma {:induction false} TrimStartKeeps(s: Text, after: Text, w: White)
    requires !IsBlank(s, w)
    ensures TrimStart(s + after, w) == TrimStart(s, w) + after
  {
    var whole := s + after;
    assert s != "" && whole[0] == s[0] && whole[1..] == s[1..] + after;
    hide IsBlank;
    if IsSpace(s[0], w) {
      BlankTail(s, w);
      TrimStartKeeps(s[1..], after, w);
    }
  }

  lemma {:induction false} TrimStartBlank(s: Text, w: White)
    requires IsBlank(s, w)
    ensures TrimStart(s, w) == ""
  {
    if s != "" {
      TrimStartBlank(s[1..], w);
    }
  }

  lemma {:induction false} TrimStartAppend(s: Text, after: Text, w: White)
    requires IsBlank(after, w)
    ensures TrimStart(s + after, w) == if IsBlank(s, w) then "" else TrimStart(s, w) + after
    ensures IsBlank(s, w) ==> TrimStart(s, w) == ""
  {
    if IsBlank(s, w) {
      TrimStartBlank(s, w);
      TrimStartBlank(s + after, w);
    } else {
      TrimStartKeeps(s, after, w);
    }
  }

  /** Layout after a text does not change what trimming leaves. */
  lemma TrimAppendBlank(s: Text, after: Text, w: White)
    requires IsBlank(after, w)
    ensures Trim(s + after, w) == Trim(s, w)
  {
    TrimStartAppend(s, after, w);
    TrimEndAppend(TrimStart(s, w), after, w);
  }

  lemma {:induction false} TrimEndAppend(s: Text, after: Text, w: White)
    requires IsBlank(after, w)
    ensures TrimEnd(s + after, w) == TrimEnd(s, w)
  {
    if after == "" {
      assert s + after == s;
    } else {
      var fewer := after[..|after| - 1];
      assert (s + after)[..|s + after| - 1] == s + fewer;
      TrimEndAppend(s, fewer, w);
    }
  }

  lemma AppendAssociates<T>(a: seq<T>, b: seq<T>, c: seq<T>)
    ensures (a + b) + c == a + (b + c)
  {
  }

  lemma HeadAndTail<T>(s: seq<T>)
    requires s != []
    ensures s == [s[0]] + s[1..]
  {
  }

  function AllButLast<T>(s: seq<T>): seq<T>
    requires s != []
  {
    s[..|s| - 1]
  }

  function Flatten<T>(parts: seq<seq<T>>): seq<T> {
    if parts == [] then [] else parts[0] + Flatten(parts[1..])
  }

  lemma {:induction false} FlattenAppend<T>(a: seq<seq<T>>, b: seq<seq<T>>)
    ensures Flatten(a + b) == Flatten(a) + Flatten(b)
  {
    if a == [] {
      assert a + b == b;
    } else {
      assert (a + b)[1..] == a[1..] + b;
      FlattenAppend(a[1..], b);
    }
  }

  function Digit(n: int): char
    requires 0 <= n < 10
  {
    (n + '0' as int) as char
  }

  /** `n` in decimal with at least `width` digits. */
  function Decimal(n: nat, width: nat): string
    decreases n, width
  {
    if n == 0 && width == 0 then ""
    else Decimal(n / 10, if width == 0 then 0 else width - 1) + [Digit(n % 10)]
  }

  /** The number that a text of digits stands for. */
  function NumberOf(s: string): nat {
    if s == "" then 0
    else
      var last := s[|s| - 1];
      10 * NumberOf(s[..|s| - 1]) + if '0' <= last <= '9' then last as int - '0' as int else 0
  }

  lemma {:induction false} DecimalReads(n: nat, width: nat)
    ensures NumberOf(Decimal(n, width)) == n
    ensures forall c :: c in Decimal(n, width) ==> '0' <= c <= '9'
    ensures width > 0 ==> Decimal(n, width) != ""
    decreases n, width
  {
    if n > 0 || width > 0 {
      var fewer := if width == 0 then 0 else width - 1;
      DecimalReads(n / 10, fewer);
      assert Decimal(n, width)[..|Decimal(n, width)| - 1] == Decimal(n / 10, fewer);
    }
  }

  /** Digits that stand for the number, filled up with zeros to the width and no further. */
  predicate IsNumber(s: string, n: nat, width: nat) {
    && NumberOf(s) == n && (forall c :: c in s ==> '0' <= c <= '9')
    && |s| >= width && (|s| > width ==> s[0] != '0')
  }

  lemma {:induction false} DecimalMeaning(n: nat, width: nat)
    ensures IsNumber(Decimal(n, width), n, width)
    decreases n, width
  {
    DecimalReads(n, width);
    if n > 0 || width > 0 {
      DecimalMeaning(n / 10, if width == 0 then 0 else width - 1);
    }
  }

  function Pow10(width: nat): nat {
    if width == 0 then 1 else 10 * Pow10(width - 1)
  }

  /** Positions in order. */
  predicate Increasing(at: seq<nat>) {
    forall i, k :: 0 <= i < k < |at| ==> at[i] < at[k]
  }

  /** The order of strings, character by character. */
  predicate LexLess(s: string, t: string) {
    t != "" && (s == "" || s[0] < t[0] || (s[0] == t[0] && LexLess(s[1..], t[1..])))
  }

  /** The first difference decides, and a text comes before its extensions. */
  lemma {:induction false} LexMeaning(s: string, t: string)
    ensures LexLess(s, t) <==>
      exists k :: 0 <= k <= |s| && k < |t| && s[..k] == t[..k] && (k < |s| ==> s[k] < t[k])
    decreases |s|
  {
    if s != "" && t != "" && s[0] == t[0] {
      var s', t' := s[1..], t[1..];
      LexMeaning(s', t');
      if k :| 0 <= k <= |s'| && k < |t'| && s'[..k] == t'[..k] && (k < |s'| ==> s'[k] < t'[k]) {
        assert s[..k + 1] == [s[0]] + s'[..k] && t[..k + 1] == [t[0]] + t'[..k];
        assert LexLess(s, t);
      }
      if k :| 0 <= k <= |s| && k < |t| && s[..k] == t[..k] && (k < |s| ==> s[k] < t[k]) {
        assert k > 0;
        assert s'[..k - 1] == s[..k][1..] && t'[..k - 1] == t[..k][1..];
      }
    } else if s == "" || (t != "" && s[0] < t[0]) {
      assert s[..0] == t[..0];
    } else if k :| 0 <= k <= |s| && k < |t| && s[..k] == t[..k] && (k < |s| ==> s[k] < t[k]) {
      assert k > 0 ==> s[..k][0] == t[..k][0];
    }
  }

  lemma {:induction false} LexTotal(s: string, t: string)
    ensures LexLess(s, t) || s == t || LexLess(t, s)
    ensures !(LexLess(s, t) && LexLess(t, s)) && !LexLess(s, s)
    decreases |s|
  {
    if s != "" {
      LexTotal(s[1..], s[1..]);
      if t != "" {
        LexTotal(s[1..], t[1..]);
        assert s == [s[0]] + s[1..] && t == [t[0]] + t[1..];
      }
    }
  }

  lemma {:induction false} LexTrans(s: string, t: string, u: string)
    requires LexLess(s, t) && LexLess(t, u)
    ensures LexLess(s, u)
    decreases |s|
  {
    if s != "" && s[0] == t[0] && t[0] == u[0] {
      LexTrans(s[1..], t[1..], u[1..]);
    }
  }
}
