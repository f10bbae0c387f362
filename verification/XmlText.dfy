/** Character escaping in the XML serializer of `format_core` and its inverse. */
module XmlText {
  import opened Prelude

  /** `str::replace` with a one-character pattern. */
  function Replace(s: Text, c: char, to: Text): Text {
    if s == "" then "" else (if s[0] == c then to else [s[0]]) + Replace(s[1..], c, to)
  }

  /** `escape_xml_text`. */
  function EscapeText(s: Text): Text {
    Replace(Replace(Replace(s, '&', "&amp;"), '<', "&lt;"), '>', "&gt;")
  }

  /** `escape_xml_attr`. */
  function EscapeAttr(s: Text): Text {
    Replace(Replace(Replace(Replace(s, '&', "&amp;"), '<', "&lt;"), '>', "&gt;"), '"', "&quot;")
  }

  /** The escape of one character. */
  function Entity(c: char, quotes: bool): Text {
    if c == '&' then "&amp;"
    else if c == '<' then "&lt;"
    else if c == '>' then "&gt;"
    else if c == '"' && quotes then "&quot;"
    else [c]
  }

  function EscapeEach(s: Text, quotes: bool): Text {
    if s == "" then "" else Entity(s[0], quotes) + EscapeEach(s[1..], quotes)
  }

  lemma {:induction false} ReplaceAppend(a: Text, b: Text, c: char, to: Text)
    ensures Replace(a + b, c, to) == Replace(a, c, to) + Replace(b, c, to)
    decreases |a|
  {
    if a == "" {
      assert a + b == b;
    } else {
      assert (a + b)[0] == a[0] && (a + b)[1..] == a[1..] + b;
      ReplaceAppend(a[1..], b, c, to);
    }
  }

  lemma {:induction false} ReplaceAbsent(s: Text, c: char, to: Text)
    requires c !in s
    ensures Replace(s, c, to) == s
    decreases |s|
  {
    if s != "" {
      ReplaceAbsent(s[1..], c, to);
      assert [s[0]] + s[1..] == s;
    }
  }

  lemma {:induction false} ReplaceOne(c: char, d: char, to: Text)
    ensures Replace([c], d, to) == if c == d then to else [c]
  {
    assert [c][1..] == "";
  }

  lemma {:induction false} LaterPasses(s: Text)
    requires '<' !in s && '>' !in s && '"' !in s
    ensures Replace(Replace(s, '<', "&lt;"), '>', "&gt;") == s && Replace(s, '"', "&quot;") == s
  {
    ReplaceAbsent(s, '<', "&lt;");
    ReplaceAbsent(s, '>', "&gt;");
    ReplaceAbsent(s, '"', "&quot;");
  }

  /** What the passes after the first make of one character other than `&`. */
  lemma LaterPassesOne(c: char)
    ensures var t := Replace(Replace([c], '<', "&lt;"), '>', "&gt;");
      c != '&' ==> t == Entity(c, false) && Replace(t, '"', "&quot;") == Entity(c, true)
  {
    ReplaceOne(c, '<', "&lt;");
    ReplaceOne(c, '>', "&gt;");
    ReplaceOne(c, '"', "&quot;");
    if c == '<' {
      LaterPasses("&lt;");
      ReplaceAbsent("&lt;", '>', "&gt;");
    } else if c == '>' {
      LaterPasses("&gt;");
    }
  }

  /** The passes of `escape_xml_text` on one character: because the pass for `&` comes
      first, no pass touches what another one wrote. */
  lemma EscapeOne(c: char)
    ensures EscapeText([c]) == Entity(c, false)
    ensures EscapeAttr([c]) == Entity(c, true)
  {
    ReplaceOne(c, '&', "&amp;");
    if c == '&' {
      LaterPasses("&amp;");
    } else {
      LaterPassesOne(c);
    }
  }

  lemma EscapeAppend(a: Text, b: Text)
    ensures EscapeText(a + b) == EscapeText(a) + EscapeText(b)
    ensures EscapeAttr(a + b) == EscapeAttr(a) + EscapeAttr(b)
  {
    ReplaceAppend(a, b, '&', "&amp;");
    var a1, b1 := Replace(a, '&', "&amp;"), Replace(b, '&', "&amp;");
    ReplaceAppend(a1, b1, '<', "&lt;");
    var a2, b2 := Replace(a1, '<', "&lt;"), Replace(b1, '<', "&lt;");
    ReplaceAppend(a2, b2, '>', "&gt;");
    ReplaceAppend(Replace(a2, '>', "&gt;"), Replace(b2, '>', "&gt;"), '"', "&quot;");
  }

  /** The chained replacements escape character by character. */
  lemma {:induction false} EscapeIsEach(s: Text)
    ensures EscapeText(s) == EscapeEach(s, false)
    ensures EscapeAttr(s) == EscapeEach(s, true)
    decreases |s|
  {
    if s != "" {
      assert s == [s[0]] + s[1..];
      EscapeAppend([s[0]], s[1..]);
      EscapeOne(s[0]);
      EscapeIsEach(s[1..]);
    }
  }

  /** The predefined entities of section 4.6 of XML 1.0. */
  function EntityValue(name: Text): Option<char> {
    if name == "amp" then Some('&')
    else if name == "lt" then Some('<')
    else if name == "gt" then Some('>')
    else if name == "quot" then Some('"')
    else if name == "apos" then Some('\'')
    else None
  }

  /** Replace entities by what they stand for; `None` for an unknown or unfinished one. */
  function Unescape(s: Text): Option<Text>
    decreases |s|
  {
    if s == "" then Some("")
    else if s[0] != '&' then
      match Unescape(s[1..])
      case Some(rest) => Some([s[0]] + rest)
      case None => None
    else
      var k := IndexOf(s, ';');
      if k == |s| || EntityValue(s[1..k]).None? then None
      else
        match Unescape(s[k + 1..])
        case Some(rest) => Some([EntityValue(s[1..k]).value] + rest)
        case None => None
  }

  lemma {:induction false} UnescapeEntity(name: Text, rest: Text)
    requires EntityValue(name).Some? && Unescape(rest).Some?
    ensures Unescape("&" + name + ";" + rest) == Some([EntityValue(name).value] + Unescape(rest).value)
  {
    var s := "&" + name + ";" + rest;
    var k := |name| + 1;
    assert s[1..k] == name && s[k] == ';' && s[k + 1..] == rest;
    assert ';' !in name;
    assert forall i :: 0 <= i < k ==> s[i] == (if i == 0 then '&' else name[i - 1]);
    IndexOfUnique(s, ';', k);
  }

  /** Five names stand for characters, and no other does; text without `&` stands for itself. */
  lemma {:induction false} UnescapeMeaning(name: Text, rest: Text)
    requires ';' !in name
    ensures var value := match Unescape(rest) case Some(s) => s case None => "";
      Unescape("&" + name + ";" + rest) ==
        if Unescape(rest).None? then None
        else if name == "lt" then Some("<" + value)
        else if name == "gt" then Some(">" + value)
        else if name == "amp" then Some("&" + value)
        else if name == "apos" then Some("'" + value)
        else if name == "quot" then Some("\"" + value)
        else None
    ensures '&' !in rest ==> Unescape(rest) == Some(rest)
    ensures Unescape("&" + name) == None
  {
    var s := "&" + name + ";" + rest;
    var k := |name| + 1;
    assert s[1..k] == name && s[k] == ';' && s[k + 1..] == rest;
    assert forall i :: 0 <= i < k ==> s[i] == (if i == 0 then '&' else name[i - 1]);
    IndexOfUnique(s, ';', k);
    IndexOfUnique("&" + name, ';', k);
    if '&' !in rest {
      PlainText(rest);
    }
  }

  lemma {:induction false} PlainText(s: Text)
    requires '&' !in s
    ensures Unescape(s) == Some(s)
    decreases |s|
  {
    if s != "" {
      PlainText(s[1..]);
      assert [s[0]] + s[1..] == s;
    }
  }

  lemma EntityNames(c: char, quotes: bool) returns (name: Text)
    requires Entity(c, quotes) != [c]
    ensures Entity(c, quotes) == "&" + name + ";" && EntityValue(name) == Some(c)
  {
    name := if c == '&' then "amp" else if c == '<' then "lt" else if c == '>' then "gt" else "quot";
  }

  lemma {:induction false} UnescapeOne(c: char, quotes: bool, rest: Text)
    requires Unescape(rest).Some?
    ensures Unescape(Entity(c, quotes) + rest) == Some([c] + Unescape(rest).value)
  {
    if Entity(c, quotes) == [c] {
      assert ([c] + rest)[1..] == rest;
    } else {
      var name := EntityNames(c, quotes);
      UnescapeEntity(name, rest);
    }
  }

  /** Unescaping inverts both escapes. */
  lemma {:induction false} UnescapeInverts(s: Text, quotes: bool)
    ensures Unescape(EscapeEach(s, quotes)) == Some(s)
    decreases |s|
  {
    if s != "" {
      UnescapeInverts(s[1..], quotes);
      UnescapeOne(s[0], quotes, EscapeEach(s[1..], quotes));
      assert [s[0]] + s[1..] == s;
    }
  }

  lemma EscapeRoundTrip(s: Text)
    ensures Unescape(EscapeText(s)) == Some(s)
    ensures Unescape(EscapeAttr(s)) == Some(s)
  {
    EscapeIsEach(s);
    UnescapeInverts(s, false);
    UnescapeInverts(s, true);
  }

  lemma {:induction false} EscapeEachSnoc(s: Text, c: char, quotes: bool)
    ensures EscapeEach(s + [c], quotes) == EscapeEach(s, quotes) + Entity(c, quotes)
    decreases |s|
  {
    if s == "" {
      assert s + [c] == [c] && [c][1..] == "";
    } else {
      assert (s + [c])[0] == s[0] && (s + [c])[1..] == s[1..] + [c];
      EscapeEachSnoc(s[1..], c, quotes);
    }
  }

  lemma EntityEnds(c: char, quotes: bool)
    requires !IsSpace(c, Markup)
    ensures IsTrimmed(Entity(c, quotes), Markup)
  {
  }

  lemma TrimmedEnds(first: Text, middle: Text, front: Text, last: Text)
    requires IsTrimmed(first, Markup) && IsTrimmed(last, Markup) && first + middle == front + last
    ensures IsTrimmed(first + middle, Markup)
  {
    assert (first + middle)[0] == first[0];
    assert (front + last)[|front + last| - 1] == last[|last| - 1];
  }

  /** Escaping adds no space at either end. */
  lemma EscapeKeepsTrimmed(s: Text)
    requires IsTrimmed(s, Markup)
    ensures IsTrimmed(EscapeText(s), Markup)
  {
    var front, last := s[..|s| - 1], s[|s| - 1];
    assert s == front + [last];
    assert EscapeEach(s, false) == Entity(s[0], false) + EscapeEach(s[1..], false);
    hide EscapeEach, Entity, EscapeText, Trim;
    EscapeIsEach(s);
    EscapeEachSnoc(front, last, false);
    EntityEnds(s[0], false);
    EntityEnds(last, false);
    TrimmedEnds(Entity(s[0], false), EscapeEach(s[1..], false), EscapeEach(front, false), Entity(last, false));
  }
}
