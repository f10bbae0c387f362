/** Well-formed UTF-8 (section 4 of RFC 3629), and that it survives cutting at ASCII bytes. */
module Utf8 {
  import opened Prelude

  predicate Between(c: char, low: int, high: int) {
    low <= c as int <= high
  }

  /** `s` starts with `n` bytes of which the second is within the limits and later ones are
      continuation bytes. */
  predicate Follows(s: Text, n: nat, low: int, high: int)
    requires 2 <= n
  {
    n <= |s| && Between(s[1], low, high) && forall i :: 2 <= i < n ==> Between(s[i], 0x80, 0xBF)
  }

  /** The length of the encoded character at the start, or 0 if there is none. */
  function Width(s: Text): (n: nat)
    ensures n <= |s|
  {
    if s == "" then 0
    else if Between(s[0], 0, 0x7F) then 1
    else if Between(s[0], 0xC2, 0xDF) && Follows(s, 2, 0x80, 0xBF) then 2
    else if Between(s[0], 0xE0, 0xE0) && Follows(s, 3, 0xA0, 0xBF) then 3
    else if Between(s[0], 0xED, 0xED) && Follows(s, 3, 0x80, 0x9F) then 3
    else if (Between(s[0], 0xE1, 0xEC) || Between(s[0], 0xEE, 0xEF)) && Follows(s, 3, 0x80, 0xBF) then 3
    else if Between(s[0], 0xF0, 0xF0) && Follows(s, 4, 0x90, 0xBF) then 4
    else if Between(s[0], 0xF1, 0xF3) && Follows(s, 4, 0x80, 0xBF) then 4
    else if Between(s[0], 0xF4, 0xF4) && Follows(s, 4, 0x80, 0x8F) then 4
    else 0
  }

  /** `str::from_utf8` accepts the bytes. */
  predicate IsUtf8(s: Text)
    decreases |s|
  {
    s == "" || (Width(s) > 0 && IsUtf8(s[Width(s)..]))
  }

  predicate IsAscii(s: Text) {
    forall c :: c in s ==> Between(c, 0, 0x7F)
  }

  lemma {:induction false} AsciiIsUtf8(s: Text)
    requires IsAscii(s)
    ensures IsUtf8(s)
    decreases |s|
  {
    if s != "" {
      AsciiIsUtf8(s[1..]);
    }
  }

  lemma WidthOfLonger(a: Text, b: Text)
    ensures Width(a) > 0 ==> Width(a + b) == Width(a)
  {
  }

  /** Bytes after the first of a character are not ASCII. */
  lemma WidthAtAscii(a: Text, b: Text)
    requires a != "" && b != "" && Between(b[0], 0, 0x7F)
    ensures Width(a) == Width(a + b)
  {
    forall n, low, high | 2 <= n && 0x80 <= low
      ensures Follows(a, n, low, high) <==> Follows(a + b, n, low, high)
    {
      FollowsAtAscii(a, b, n, low, high);
    }
  }

  lemma FollowsAtAscii(a: Text, b: Text, n: nat, low: int, high: int)
    requires a != "" && b != "" && Between(b[0], 0, 0x7F) && 2 <= n && 0x80 <= low
    ensures Follows(a, n, low, high) <==> Follows(a + b, n, low, high)
  {
    var s := a + b;
    assert s[|a|] == b[0];
    assert forall i :: 0 <= i < |a| ==> s[i] == a[i];
    assert !Between(s[|a|], 0x80, 0xBF) && !Between(s[|a|], low, high);
  }

  lemma {:induction false} Utf8Append(a: Text, b: Text)
    requires IsUtf8(a)
    ensures IsUtf8(a + b) <==> IsUtf8(b)
    decreases |a|
  {
    if a == "" {
      assert a + b == b;
    } else {
      WidthOfLonger(a, b);
      assert (a + b)[Width(a)..] == a[Width(a)..] + b;
      Utf8Append(a[Width(a)..], b);
    }
  }

  /** A cut in front of an ASCII byte leaves two well-formed texts. */
  lemma {:induction false} Utf8Cut(a: Text, b: Text)
    requires IsUtf8(a + b) && b != "" && Between(b[0], 0, 0x7F)
    ensures IsUtf8(a) && IsUtf8(b)
    decreases |a|
  {
    if a == "" {
      assert a + b == b;
    } else {
      WidthAtAscii(a, b);
      assert (a + b)[Width(a)..] == a[Width(a)..] + b;
      Utf8Cut(a[Width(a)..], b);
    }
  }

  /** ASCII text at the start may be cut off, and an ASCII byte at the end. */
  lemma {:induction false} WithoutAsciiStart(start: Text, s: Text)
    requires IsAscii(start) && IsUtf8(start + s)
    ensures IsUtf8(s)
  {
    AsciiIsUtf8(start);
    Utf8Append(start, s);
  }

  lemma {:induction false} WithoutReturn(s: Text)
    requires IsUtf8(s)
    ensures IsUtf8(StripCarriageReturn(s))
  {
    if StripCarriageReturn(s) != s {
      assert s == StripCarriageReturn(s) + "\r";
      Utf8Cut(StripCarriageReturn(s), "\r");
    }
  }

  lemma {:induction false} LinesAreUtf8(s: Text)
    requires IsUtf8(s)
    ensures forall line :: line in Lines(s) ==> IsUtf8(line)
    decreases |s|
  {
    var k := IndexOf(s, '\n');
    if k < |s| {
      var line, rest := s[..k], s[k + 1..];
      assert s == line + s[k..] && s[k..] == "\n" + rest;
      Utf8Cut(line, s[k..]);
      WithoutAsciiStart("\n", rest);
      WithoutReturn(line);
      LinesAreUtf8(rest);
    }
  }

  // -- The encoding --------------------------------------------------------

  /** A Unicode scalar value. */
  predicate IsScalar(n: nat) {
    n < 0xD800 || 0xE000 <= n < 0x11_0000
  }

  function Trail(bits: nat): char {
    (0x80 + bits % 64) as char
  }

  /** The bytes of a character, by section 3 of RFC 3629. */
  function Encoding(n: nat): (s: Text)
    requires IsScalar(n)
  {
    if n < 0x80 then [n as char]
    else if n < 0x800 then [(0xC0 + n / 64) as char, Trail(n)]
    else if n < 0x1_0000 then [(0xE0 + n / 4096) as char, Trail(n / 64), Trail(n)]
    else [(0xF0 + n / 262144) as char, Trail(n / 4096), Trail(n / 64), Trail(n)]
  }

  /** Every character is one, whatever follows. */
  lemma {:induction false} EncodingIsCharacter(n: nat, rest: Text)
    requires IsScalar(n)
    ensures Width(Encoding(n) + rest) == |Encoding(n)|
    ensures IsUtf8(Encoding(n) + rest) <==> IsUtf8(rest)
  {
    var s := Encoding(n) + rest;
    EncodingWidth(n, rest);
    assert s[|Encoding(n)|..] == rest;
  }

  lemma EncodingWidth(n: nat, rest: Text)
    requires IsScalar(n)
    ensures Width(Encoding(n) + rest) == |Encoding(n)|
  {
    var s := Encoding(n) + rest;
    assert s[0] == Encoding(n)[0];
    assert |Encoding(n)| >= 2 ==> s[1] == Encoding(n)[1];
    assert |Encoding(n)| >= 3 ==> s[2] == Encoding(n)[2];
    assert |Encoding(n)| >= 4 ==> s[3] == Encoding(n)[3];
  }

  lemma Encoding2(x: nat, y: nat) returns (n: nat)
    requires 2 <= x < 32 && y < 64
    ensures IsScalar(n) && Encoding(n) == [(0xC0 + x) as char, (0x80 + y) as char]
  {
    n := 64 * x + y;
    assert n / 64 == x && n % 64 == y;
  }

  lemma Encoding3(x: nat, y: nat, z: nat) returns (n: nat)
    requires x < 16 && y < 64 && z < 64 && (x == 0 ==> 32 <= y) && (x == 13 ==> y < 32)
    ensures IsScalar(n) && Encoding(n) == [(0xE0 + x) as char, (0x80 + y) as char, (0x80 + z) as char]
  {
    n := 4096 * x + 64 * y + z;
    assert n / 64 == 64 * x + y && n % 64 == z;
    assert n / 4096 == x;
  }

  lemma Encoding4(x: nat, y: nat, z: nat, w: nat) returns (n: nat)
    requires x < 5 && y < 64 && z < 64 && w < 64 && (x == 0 ==> 16 <= y) && (x == 4 ==> y < 16)
    ensures IsScalar(n) &&
      Encoding(n) == [(0xF0 + x) as char, (0x80 + y) as char, (0x80 + z) as char, (0x80 + w) as char]
  {
    n := 262144 * x + 4096 * y + 64 * z + w;
    assert n / 64 == 4096 * x + 64 * y + z && n % 64 == w;
    assert n / 4096 == 64 * x + y && n / 262144 == x;
    assert (n / 64) % 64 == z && (n / 4096) % 64 == y;
  }

  /** And nothing else is. */
  lemma CharacterIsEncoding(s: Text) returns (n: nat)
    requires Width(s) > 0
    ensures IsScalar(n) && Encoding(n) == s[..Width(s)]
  {
    var w, a := Width(s), s[0] as int;
    hide Encoding;
    if w == 1 {
      n := a;
      AsciiEncoding(s[0]);
    } else if w == 2 {
      n := Encoding2(a - 0xC0, s[1] as int - 0x80);
      assert s[..2] == [s[0], s[1]];
    } else if w == 3 {
      n := Encoding3(a - 0xE0, s[1] as int - 0x80, s[2] as int - 0x80);
      assert s[..3] == [s[0], s[1], s[2]];
    } else {
      n := Encoding4(a - 0xF0, s[1] as int - 0x80, s[2] as int - 0x80, s[3] as int - 0x80);
      assert s[..4] == [s[0], s[1], s[2], s[3]];
    }
  }

  lemma AsciiEncoding(c: char)
    requires Between(c, 0, 0x7F)
    ensures Encoding(c as int) == [c]
  {
  }

  /** UTF-8 is what texts of characters are encoded to, and nothing else. */
  lemma {:induction false} Utf8Meaning(s: Text) returns (ns: seq<nat>)
    requires IsUtf8(s)
    ensures (forall n :: n in ns ==> IsScalar(n)) && s == EncodingOf(ns)
    decreases |s|
  {
    ns := [];
    if s != "" {
      hide Width, Encoding, IsScalar;
      var w := Width(s);
      var n := CharacterIsEncoding(s);
      var later := Utf8Meaning(s[w..]);
      ns := [n] + later;
      assert ns[1..] == later && s == s[..w] + s[w..];
    }
  }

  function EncodingOf(ns: seq<nat>): Text
    requires forall n :: n in ns ==> IsScalar(n)
  {
    if ns == [] then "" else Encoding(ns[0]) + EncodingOf(ns[1..])
  }

  lemma {:induction false} EncodingIsUtf8(ns: seq<nat>)
    requires forall n :: n in ns ==> IsScalar(n)
    ensures IsUtf8(EncodingOf(ns))
  {
    if ns != [] {
      EncodingIsUtf8(ns[1..]);
      EncodingIsCharacter(ns[0], EncodingOf(ns[1..]));
    }
  }
}
