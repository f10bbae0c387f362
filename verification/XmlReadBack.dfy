/** What the XML parser of `format_core` reads from what the serializer wrote, for every
    value. */
module XmlReadBack {
  import opened Prelude
  import opened XmlText
  import opened Xml

  // -- What becomes of a value ---------------------------------------------

  /** A text loses its layout, and vanishes when nothing else is left. */
  function TextBack(s: string): Option<string> {
    if Trim(s, Markup) == "" then None else Some(Trim(s, Markup))
  }

  function InlineBack(text: Option<string>): Option<string> {
    if text.Some? then TextBack(text.value) else None
  }

  function AttrText(v: Doc, compact: Doc -> string): string {
    if v.DocStr? then v.s else compact(v)
  }

  function AttrFields(members: seq<DocMember>, compact: Doc -> string): seq<Child> {
    if members == [] then []
    else
      var m, rest := members[0], AttrFields(members[1..], compact);
      if IsAttrKey(m.key) then [Child(m.key, Str(AttrText(m.value, compact)))] + rest else rest
  }

  /** The value that is read from the element of `v`. */
  function Back(v: Doc, compact: Doc -> string): Json
    requires !v.DocArr?
    decreases v, 1
  {
    match v
    case DocNull => Obj(map[])
    case DocBool(b) => Str(if b then "true" else "false")
    case DocNumber(_) => Str(compact(v))
    case DocStr(s) => if TextBack(s).Some? then Str(TextBack(s).value) else Obj(map[])
    case DocObj(members) =>
      BuildElement(AttrFields(members, compact), Expand(members, compact), InlineBack(TextOf(members)))
  }

  /** The elements that are read for a value: one, or for an array those of its items. */
  function Elements(name: string, v: Doc, compact: Doc -> string): seq<Child>
    decreases v, 2
  {
    if v.DocArr? then ElementsOf(name, v.items, compact) else [Child(name, Back(v, compact))]
  }

  function ElementsOf(name: string, items: seq<Doc>, compact: Doc -> string): seq<Child>
    decreases items, 0
  {
    if items == [] then [] else Elements(name, items[0], compact) + ElementsOf(name, items[1..], compact)
  }

  function Expand(members: seq<DocMember>, compact: Doc -> string): seq<Child>
    decreases members, 0
  {
    if members == [] then []
    else
      var m, rest := members[0], Expand(members[1..], compact);
      if IsChild(m) then Elements(m.key, m.value, compact) + rest else rest
  }

  /** A text that needs no escape and loses nothing to trimming. */
  predicate IsPlain(s: Text) {
    IsTrimmed(s, Markup) && '&' !in s && '<' !in s && '>' !in s
  }

  /** A value as `serde_json` has it: the keys of an object are distinct, and numbers are
      written plainly. */
  predicate Sound(v: Doc, compact: Doc -> string)
    decreases v, 1
  {
    match v
    case DocNumber(_) => IsPlain(compact(v))
    case DocArr(items) => AllSound(items, compact)
    case DocObj(members) => DistinctKeys(members) && MembersSound(members, compact)
    case _ => true
  }

  predicate AllSound(items: seq<Doc>, compact: Doc -> string)
    decreases items, 0
  {
    items == [] || (Sound(items[0], compact) && AllSound(items[1..], compact))
  }

  predicate MembersSound(members: seq<DocMember>, compact: Doc -> string)
    decreases members, 0
  {
    members == [] || (Sound(members[0].value, compact) && MembersSound(members[1..], compact))
  }

  // -- Attributes ----------------------------------------------------------

  lemma DistinctTail(members: seq<DocMember>)
    requires members != [] && DistinctKeys(members)
    ensures DistinctKeys(members[1..])
    ensures forall i :: 0 <= i < |members[1..]| ==> members[1..][i].key != members[0].key
  {
  }

  lemma KeyOfAttr(key: string)
    requires IsAttrKey(key)
    ensures "@" + key[1..] == key
  {
  }

  lemma {:induction false} AttrNames(members: seq<DocMember>, compact: Doc -> string, a: Attr)
    requires a in AttrsOf(members, compact)
    ensures exists i :: 0 <= i < |members| && members[i].key == "@" + a.name
  {
    hide EscapeAttr;
    if a in AttrsOf(members[1..], compact) {
      AttrNames(members[1..], compact, a);
      var i :| 0 <= i < |members[1..]| && members[1..][i].key == "@" + a.name;
      assert members[i + 1].key == "@" + a.name;
    } else {
      KeyOfAttr(members[0].key);
    }
  }

  lemma {:induction false} AttrsParse(members: seq<DocMember>, compact: Doc -> string)
    requires DistinctKeys(members)
    ensures ParseAttrs(AttrsOf(members, compact)) == Ok(AttrFields(members, compact))
  {
    if members != [] {
      var m, attrs := members[0], AttrsOf(members, compact);
      DistinctTail(members);
      AttrsParse(members[1..], compact);
      if IsAttrKey(m.key) {
        EscapeRoundTrip(AttrText(m.value, compact));
        KeyOfAttr(m.key);
        assert attrs[1..] == AttrsOf(members[1..], compact);
        forall i | 1 <= i < |attrs|
          ensures attrs[i].name != attrs[0].name
        {
          AttrNames(members[1..], compact, attrs[1..][i - 1]);
        }
      }
    }
  }

  // -- Text ----------------------------------------------------------------

  /** Layout, or a text that unescapes to something. */
  predicate IsReadable(pending: Text) {
    Trim(pending, Markup) != "" ==> Unescape(Trim(pending, Markup)).Some? && Unescape(Trim(pending, Markup)).value != ""
  }

  function PendingTexts(pending: Text): seq<Text>
    requires IsReadable(pending)
  {
    if Trim(pending, Markup) == "" then [] else [Unescape(Trim(pending, Markup)).value]
  }

  /** The texts that a value's text contributes. */
  function BackTexts(text: Option<string>): seq<Text> {
    if InlineBack(text).Some? then [InlineBack(text).value] else []
  }

  lemma {:induction false} TrimStartSplits(s: Text) returns (lead: Text)
    ensures s == lead + TrimStart(s, Markup) && IsBlank(lead, Markup)
    decreases |s|
  {
    if s != "" && IsSpace(s[0], Markup) {
      lead := TrimStartSplits(s[1..]);
      lead := [s[0]] + lead;
      HeadAndTail(s);
      AppendAssociates([s[0]], lead[1..], TrimStart(s[1..], Markup));
    } else {
      lead := "";
      assert "" + s == s;
    }
  }

  lemma {:induction false} TrimEndSplits(s: Text) returns (trail: Text)
    ensures s == TrimEnd(s, Markup) + trail && IsBlank(trail, Markup)
    decreases |s|
  {
    if s != "" && IsSpace(s[|s| - 1], Markup) {
      var front, last := s[..|s| - 1], s[|s| - 1];
      trail := TrimEndSplits(front);
      AppendAssociates(TrimEnd(front, Markup), trail, [last]);
      assert s == front + [last];
      trail := trail + [last];
    } else {
      trail := "";
      assert s + "" == s;
    }
  }

  lemma TrimIsTrimmed(s: Text)
    ensures Trim(s, Markup) == "" || IsTrimmed(Trim(s, Markup), Markup)
  {
    if Trim(s, Markup) != "" {
      assert Trim(s, Markup)[0] == TrimStart(s, Markup)[0];
    }
  }

  lemma BlankIsUntouched(s: Text)
    requires IsBlank(s, Markup)
    ensures EscapeText(s) == s
  {
    EscapeUntouched(s);
  }

  lemma EscapeUntouched(s: Text)
    requires '&' !in s && '<' !in s && '>' !in s
    ensures EscapeText(s) == s
  {
    hide Replace;
    ReplaceAbsent(s, '&', "&amp;");
    ReplaceAbsent(s, '<', "&lt;");
    ReplaceAbsent(s, '>', "&gt;");
  }

  /** Escaping touches only what trimming leaves. */
  lemma EscapeAround(text: Text) returns (lead: Text, trail: Text)
    ensures IsBlank(lead, Markup) && IsBlank(trail, Markup)
    ensures EscapeText(text) == lead + EscapeText(Trim(text, Markup)) + trail
  {
    lead := TrimStartSplits(text);
    trail := TrimEndSplits(TrimStart(text, Markup));
    hide EscapeText, TrimStart, TrimEnd;
    EscapeAppend(lead, TrimStart(text, Markup));
    EscapeAppend(Trim(text, Markup), trail);
    BlankIsUntouched(lead);
    BlankIsUntouched(trail);
    AppendAssociates(lead, EscapeText(Trim(text, Markup)), trail);
  }

  lemma BlankAppend(a: Text, b: Text)
    requires IsBlank(a, Markup) && IsBlank(b, Markup)
    ensures IsBlank(a + b, Markup)
  {
  }

  /** An escaped text inside layout is read as the text without its own layout. */
  lemma EscapedReads(text: Text, before: Text, after: Text)
    requires IsBlank(before, Markup) && IsBlank(after, Markup)
    ensures var pending := before + EscapeText(text) + after;
      IsReadable(pending) && PendingTexts(pending) == BackTexts(Some(text))
  {
    var lead, trail := EscapeAround(text);
    var core := EscapeText(Trim(text, Markup));
    BlankAppend(before, lead);
    BlankAppend(trail, after);
    Regroup(before, lead, core, trail, after);
    TrimIsTrimmed(text);
    if Trim(text, Markup) == "" {
      assert core == "";
    } else {
      EscapeKeepsTrimmed(Trim(text, Markup));
      EscapeRoundTrip(Trim(text, Markup));
    }
    TrimPadded(before + lead, core, trail + after, Markup);
  }

  lemma Regroup(a: Text, b: Text, c: Text, d: Text, e: Text)
    ensures a + (b + c + d) + e == (a + b) + c + (d + e)
  {
  }

  // -- Reading the tokens --------------------------------------------------

  lemma {:induction false} FlushReads(pending: Text, tokens: seq<Token>, parent: string, children: seq<Child>,
                                      texts: seq<Text>)
    requires IsReadable(pending)
    ensures ParseChildren(TextTokens(pending) + tokens, parent, children, texts) ==
            ParseChildren(tokens, parent, children, texts + PendingTexts(pending))
  {
    if Trim(pending, Markup) == "" {
      assert [] + tokens == tokens;
      assert texts + [] == texts;
    } else {
      assert ([TokenText(Trim(pending, Markup))] + tokens)[1..] == tokens;
    }
  }

  lemma {:induction false} LexChars(s: Text, rest: seq<Piece>, pending: Text)
    ensures Lex([Chars(s)] + rest, pending) == Lex(rest, pending + s)
  {
    assert ([Chars(s)] + rest)[1..] == rest;
  }

  lemma {:induction false} LexTag(tag: Piece, rest: seq<Piece>, pending: Text)
    requires !tag.Chars? && !tag.Decl?
    ensures Lex([tag] + rest, pending) == TextTokens(pending) + ([TokenOf(tag)] + Lex(rest, ""))
  {
    assert ([tag] + rest)[1..] == rest;
    AppendAssociates(TextTokens(pending), [TokenOf(tag)], Lex(rest, ""));
  }

  function TokenOf(tag: Piece): Token
    requires !tag.Chars? && !tag.Decl?
  {
    match tag
    case Open(name, attrs) => TokenStart(name, attrs)
    case SelfClose(name, attrs) => TokenEmpty(name, attrs)
    case Close(name) => TokenEnd(name)
  }

  lemma {:induction false} IndentIsBlank(depth: nat)
    ensures IsBlank(Indent(depth), Markup)
  {
    if depth > 0 {
      IndentIsBlank(depth - 1);
    }
  }

  lemma LineFeedIsLayout()
    ensures Trim("\n", Markup) == "" && IsReadable("\n") && PendingTexts("\n") == []
  {
    TrimPadded("\n", "", "", Markup);
    assert "\n" + "" + "" == "\n";
  }

  /** At its closing tag an element hands over what was collected. */
  lemma {:induction false} CloseReads(name: string, rest: seq<Piece>, pending: Text, children: seq<Child>,
                                      texts: seq<Text>)
    requires IsReadable(pending)
    ensures ParseChildren(Lex(Closing(name) + rest, pending), name, children, texts) ==
            Ok(Content(children, Join(texts + PendingTexts(pending)), Lex(rest, "\n")))
  {
    hide Lex, IsReadable, PendingTexts, TextTokens, Trim;
    assert [Close(name), Chars("\n")] + rest == [Close(name)] + ([Chars("\n")] + rest);
    LexTag(Close(name), [Chars("\n")] + rest, pending);
    LexChars("\n", rest, "");
    assert "" + "\n" == "\n";
    FlushReads(pending, [TokenEnd(name)] + Lex(rest, "\n"), name, children, texts);
    assert ([TokenEnd(name)] + Lex(rest, "\n"))[1..] == Lex(rest, "\n");
  }

  lemma {:induction false} IndentWaits(depth: nat, rest: seq<Piece>, pending: Text)
    requires IsReadable(pending)
    ensures Lex([Chars(Indent(depth))] + rest, pending) == Lex(rest, pending + Indent(depth))
    ensures IsReadable(pending + Indent(depth)) && PendingTexts(pending + Indent(depth)) == PendingTexts(pending)
  {
    LexChars(Indent(depth), rest, pending);
    IndentIsBlank(depth);
    TrimAppendBlank(pending, Indent(depth), Markup);
  }

  /** What comes before a tag: the indentation ends the text that was waiting. */
  lemma {:induction false} TagWaits(tag: Piece, depth: nat, after: seq<Piece>, pending: Text, parent: string,
                 children: seq<Child>, texts: seq<Text>)
    requires !tag.Chars? && !tag.Decl? && IsReadable(pending)
    ensures ParseChildren(Lex([Chars(Indent(depth))] + ([tag] + after), pending), parent, children, texts) ==
            ParseChildren([TokenOf(tag)] + Lex(after, ""), parent, children, texts + PendingTexts(pending))
  {
    hide ParseChildren, Lex, IsReadable, PendingTexts, Trim;
    IndentWaits(depth, [tag] + after, pending);
    LexTag(tag, after, pending + Indent(depth));
    FlushReads(pending + Indent(depth), [TokenOf(tag)] + Lex(after, ""), parent, children, texts);
  }

  // -- The forms of an element ---------------------------------------------

  predicate IsSelfClosing(v: Doc) {
    v.DocObj? && ChildrenOf(v.members) == [] && TextOf(v.members).None?
  }

  /** The string or object that prints like `v`. */
  function Like(v: Doc, compact: Doc -> string): Doc
    requires !v.DocArr?
  {
    match v
    case DocNull => DocObj([])
    case DocBool(b) => DocStr(if b then "true" else "false")
    case DocNumber(_) => DocStr(compact(v))
    case _ => v
  }

  lemma TrimPlain(s: Text)
    requires IsTrimmed(s, Markup)
    ensures Trim(s, Markup) == s
  {
    hide Trim, IsTrimmed;
    TrimPadded("", s, "", Markup);
    assert "" + s + "" == s;
  }

  /** A plain text prints and reads as it is. */
  lemma PlainText(s: Text, compact: Doc -> string)
    requires IsPlain(s)
    ensures EscapeText(s) == s && Back(DocStr(s), compact) == Str(s)
  {
    hide EscapeText, Trim;
    EscapeUntouched(s);
    TrimPlain(s);
  }

  /** Null, booleans and numbers print like an empty object and like strings, and are read
      as such. */
  lemma {:induction false} PrintsAlike(name: string, v: Doc, depth: nat, compact: Doc -> string)
    requires !v.DocArr? && Sound(v, compact)
    ensures Element(name, v, depth, compact) == Element(name, Like(v, compact), depth, compact)
    ensures Back(v, compact) == Back(Like(v, compact), compact)
  {
    hide EscapeText, TextBack;
    match v
    case DocBool(b) =>
      WordIsPlain(b);
      PlainText(if b then "true" else "false", compact);
    case DocNumber(_) => PlainText(compact(v), compact);
    case DocNull => EmptyObject(compact);
    case _ =>
  }

  lemma WordIsPlain(b: bool)
    ensures IsPlain(if b then "true" else "false")
  {
  }

  lemma EmptyObject(compact: Doc -> string)
    ensures Back(DocObj([]), compact) == Obj(map[])
  {
  }

  function OpenAttrs(v: Doc, compact: Doc -> string): seq<Attr> {
    if v.DocObj? then AttrsOf(v.members, compact) else []
  }

  /** What follows the start tag of an element that is not self-closing. */
  function Body(name: string, v: Doc, depth: nat, compact: Doc -> string): seq<Piece>
    requires (v.DocStr? || v.DocObj?) && !IsSelfClosing(v)
  {
    if v.DocStr? then Leaf(EscapeText(v.s), name)
    else if ChildrenOf(v.members) == [] then Leaf(EscapeText(TextOf(v.members).value), name)
    else
      [Chars("\n")]
      + (Inline(TextOf(v.members), depth)
         + (ChildElements(v.members, depth + 1, compact) + ([Chars(Indent(depth))] + Closing(name))))
  }

  lemma SplitOpening(a: Piece, b: Piece, body: seq<Piece>, rest: seq<Piece>)
    ensures ([a, b] + body) + rest == [a] + ([b] + (body + rest))
  {
  }

  lemma {:induction false} ElementShape(name: string, v: Doc, depth: nat, compact: Doc -> string, rest: seq<Piece>)
    requires v.DocStr? || v.DocObj?
    ensures
      if IsSelfClosing(v)
      then Element(name, v, depth, compact) + rest ==
           [Chars(Indent(depth))] + ([SelfClose(name, OpenAttrs(v, compact))] + ([Chars("\n")] + rest))
      else Element(name, v, depth, compact) + rest ==
           [Chars(Indent(depth))] + ([Open(name, OpenAttrs(v, compact))] + (Body(name, v, depth, compact) + rest))
  {
    var attrs := OpenAttrs(v, compact);
    if IsSelfClosing(v) {
      assert SelfClosed(name, attrs, depth) == [Chars(Indent(depth)), SelfClose(name, attrs)] + [Chars("\n")];
      SplitOpening(Chars(Indent(depth)), SelfClose(name, attrs), [Chars("\n")], rest);
    } else {
      SplitOpening(Chars(Indent(depth)), Open(name, attrs), Body(name, v, depth, compact), rest);
    }
  }

  lemma {:induction false} NoChildren(members: seq<DocMember>, compact: Doc -> string)
    requires ChildrenOf(members) == []
    ensures Expand(members, compact) == []
  {
    if members != [] {
      NoChildren(members[1..], compact);
    }
  }

  lemma {:induction false} LeafReads(text: Text, name: string, rest: seq<Piece>)
    ensures ParseChildren(Lex(Leaf(EscapeText(text), name) + rest, ""), name, [], []) ==
            Ok(Content([], TextBack(text), Lex(rest, "\n")))
  {
    hide Lex, ParseChildren, EscapeText, IsReadable, PendingTexts, Trim;
    var esc := EscapeText(text);
    assert Leaf(esc, name) + rest == [Chars(esc)] + (Closing(name) + rest);
    LexChars(esc, Closing(name) + rest, "");
    EscapedReads(text, "", "");
    assert "" + esc + "" == "" + esc;
    CloseReads(name, rest, "" + esc, [], []);
    JoinBack(Some(text));
    assert [] + BackTexts(Some(text)) == BackTexts(Some(text));
  }

  lemma JoinBack(text: Option<string>)
    ensures Join(BackTexts(text)) == InlineBack(text)
  {
    if InlineBack(text).Some? {
      var t := InlineBack(text).value;
      assert [t][1..] == [] && t + "" == t;
      assert Flatten([t]) == t + Flatten([]);
    }
  }

  lemma {:induction false} InlineText(text: string, depth: nat)
    ensures var pending := "\n" + (Indent(depth) + "  " + EscapeText(text) + "\n");
      IsReadable(pending) && PendingTexts(pending) == BackTexts(Some(text))
  {
    hide EscapeText, IsReadable, PendingTexts;
    var before := "\n" + (Indent(depth) + "  ");
    IndentIsBlank(depth);
    EscapedReads(text, before, "\n");
    RegroupLine("\n", Indent(depth) + "  ", EscapeText(text), "\n");
  }

  lemma RegroupLine(a: Text, b: Text, c: Text, d: Text)
    ensures a + (b + c + d) == (a + b) + c + d
  {
  }

  /** The text line of an element with children is waiting when its first child starts. */
  lemma InlineWaits(text: Option<string>, depth: nat, rest: seq<Piece>) returns (pending: Text)
    ensures Lex([Chars("\n")] + (Inline(text, depth) + rest), "") == Lex(rest, pending)
    ensures IsReadable(pending) && PendingTexts(pending) == BackTexts(text)
  {
    hide IsReadable, PendingTexts, EscapeText;
    LexChars("\n", Inline(text, depth) + rest, "");
    assert "" + "\n" == "\n";
    if text.Some? {
      var line := Indent(depth) + "  " + EscapeText(text.value) + "\n";
      InlineText(text.value, depth);
      LexChars(line, rest, "\n");
      pending := "\n" + line;
    } else {
      LineFeedIsLayout();
      assert Inline(text, depth) + rest == rest;
      pending := "\n";
    }
  }

  // -- What waits after some elements --------------------------------------

  function Waiting(read: seq<Child>, pending: Text): Text {
    if read == [] then pending else "\n"
  }

  function Flushed(read: seq<Child>, pending: Text): seq<Text>
    requires IsReadable(pending)
  {
    if read == [] then [] else PendingTexts(pending)
  }

  lemma WaitingReads(read: seq<Child>, pending: Text)
    requires IsReadable(pending)
    ensures IsReadable(Waiting(read, pending))
    ensures Flushed(read, pending) + PendingTexts(Waiting(read, pending)) == PendingTexts(pending)
  {
    LineFeedIsLayout();
    assert [] + PendingTexts(pending) == PendingTexts(pending) && PendingTexts(pending) + [] == PendingTexts(pending);
  }

  lemma WaitingTwice(a: seq<Child>, b: seq<Child>, pending: Text)
    requires IsReadable(pending)
    ensures IsReadable(Waiting(a, pending))
    ensures Waiting(a + b, pending) == Waiting(b, Waiting(a, pending))
    ensures Flushed(a + b, pending) == Flushed(a, pending) + Flushed(b, Waiting(a, pending))
  {
    LineFeedIsLayout();
    if a == [] {
      assert a + b == b;
      assert [] + Flushed(b, pending) == Flushed(b, pending);
    } else {
      assert PendingTexts(pending) + [] == PendingTexts(pending);
    }
  }

  /** The state of the parser after it read some elements. */
  function After(read: seq<Child>, rest: seq<Piece>, pending: Text, parent: string,
                 children: seq<Child>, texts: seq<Text>): Result<Content>
    requires IsReadable(pending)
  {
    ParseChildren(Lex(rest, Waiting(read, pending)), parent, children + read, texts + Flushed(read, pending))
  }

  lemma AfterBoth(a: seq<Child>, b: seq<Child>, rest: seq<Piece>, pending: Text, parent: string,
                  children: seq<Child>, texts: seq<Text>)
    requires IsReadable(pending)
    ensures IsReadable(Waiting(a, pending))
    ensures After(b, rest, Waiting(a, pending), parent, children + a, texts + Flushed(a, pending)) ==
            After(a + b, rest, pending, parent, children, texts)
  {
    hide ParseChildren, Lex, IsReadable, Waiting, Flushed;
    WaitingTwice(a, b, pending);
    AppendAssociates(children, a, b);
    AppendAssociates(texts, Flushed(a, pending), Flushed(b, Waiting(a, pending)));
  }

  lemma {:induction false} AfterNothing(rest: seq<Piece>, pending: Text, parent: string, children: seq<Child>,
                                        texts: seq<Text>)
    requires IsReadable(pending)
    ensures After([], rest, pending, parent, children, texts) ==
      ParseChildren(Lex(rest, pending), parent, children, texts)
  {
    assert children + [] == children && texts + [] == texts;
  }

  // -- The element read back -----------------------------------------------

  lemma {:induction false} EmptyReads(name: string, attrs: seq<Attr>, fields: seq<Child>, after: seq<Token>,
                   parent: string, children: seq<Child>, texts: seq<Text>)
    requires ParseAttrs(attrs) == Ok(fields)
    ensures ParseChildren([TokenEmpty(name, attrs)] + after, parent, children, texts) ==
            ParseChildren(after, parent, children + [Child(name, BuildElement(fields, [], None))], texts)
  {
    assert ([TokenEmpty(name, attrs)] + after)[1..] == after;
  }

  lemma {:induction false} StartReads(name: string, attrs: seq<Attr>, after: seq<Token>, v: Json, rest: seq<Token>,
                   parent: string, children: seq<Child>, texts: seq<Text>)
    requires ParseElement(name, attrs, after) == Ok((v, rest))
    ensures ParseChildren([TokenStart(name, attrs)] + after, parent, children, texts) ==
            ParseChildren(rest, parent, children + [Child(name, v)], texts)
  {
    assert ([TokenStart(name, attrs)] + after)[1..] == after;
  }

  lemma {:induction false} SelfClosedReads(name: string, v: Doc, compact: Doc -> string, rest: seq<Piece>,
                        parent: string, children: seq<Child>, texts: seq<Text>)
    requires IsSelfClosing(v) && DistinctKeys(v.members)
    ensures var tag := SelfClose(name, OpenAttrs(v, compact));
      ParseChildren([TokenOf(tag)] + Lex([Chars("\n")] + rest, ""), parent, children, texts) ==
      ParseChildren(Lex(rest, "\n"), parent, children + [Child(name, Back(v, compact))], texts)
  {
    hide Lex, ParseChildren, ParseAttrs, AttrsOf;
    LexChars("\n", rest, "");
    assert "" + "\n" == "\n";
    AttrsParse(v.members, compact);
    EmptyReads(name, OpenAttrs(v, compact), AttrFields(v.members, compact), Lex(rest, "\n"), parent, children, texts);
    NoChildren(v.members, compact);
  }

  lemma {:induction false} SplitBody(text: Option<string>, inner: seq<Piece>, name: string, depth: nat,
                                     rest: seq<Piece>)
    ensures ([Chars("\n")] + (Inline(text, depth) + (inner + ([Chars(Indent(depth))] + Closing(name))))) + rest ==
            [Chars("\n")] + (Inline(text, depth) + (inner + ([Chars(Indent(depth))] + (Closing(name) + rest))))
  {
  }

  /** The end of an element with children: what is still waiting is its text. */
  lemma {:induction false} EndReads(name: string, depth: nat, rest: seq<Piece>, read: seq<Child>, pending: Text,
                                    text: Option<string>)
    requires IsReadable(pending) && PendingTexts(pending) == BackTexts(text)
    ensures After(read, [Chars(Indent(depth))] + (Closing(name) + rest), pending, name, [], []) ==
            Ok(Content(read, InlineBack(text), Lex(rest, "\n")))
  {
    hide ParseChildren, Lex, IsReadable, PendingTexts, Waiting, Flushed, Closing, Indent, Join, InlineBack, BackTexts;
    var waiting, texts := Waiting(read, pending), Flushed(read, pending);
    WaitingReads(read, pending);
    IndentWaits(depth, Closing(name) + rest, waiting);
    CloseReads(name, rest, waiting + Indent(depth), [] + read, [] + texts);
    JoinBack(text);
    assert [] + read == read && [] + texts == texts;
  }

  /** Text and children between the tags of an element that has children. */
  lemma {:induction false} ContentReads(name: string, members: seq<DocMember>, depth: nat, compact: Doc -> string,
                                        rest: seq<Piece>)
    requires MembersSound(members, compact)
    ensures var ending := [Chars(Indent(depth))] + (Closing(name) + rest);
      var inner := ChildElements(members, depth + 1, compact) + ending;
      ParseChildren(Lex([Chars("\n")] + (Inline(TextOf(members), depth) + inner), ""), name, [], []) ==
      Ok(Content(Expand(members, compact), InlineBack(TextOf(members)), Lex(rest, "\n")))
    decreases members, 1
  {
    hide ParseChildren, Lex, IsReadable, PendingTexts, After, Expand, ChildElements;
    var ending := [Chars(Indent(depth))] + (Closing(name) + rest);
    var pending := InlineWaits(TextOf(members), depth, ChildElements(members, depth + 1, compact) + ending);
    ChildrenRead(members, depth + 1, compact, ending, pending, name, [], []);
    EndReads(name, depth, rest, Expand(members, compact), pending, TextOf(members));
  }

  /** After its start tag an element is read back whole, up to the line feed after it. */
  lemma {:induction false} BodyReads(name: string, v: Doc, depth: nat, compact: Doc -> string, rest: seq<Piece>)
    requires (v.DocStr? || v.DocObj?) && !IsSelfClosing(v) && Sound(v, compact)
    ensures ParseElement(name, OpenAttrs(v, compact), Lex(Body(name, v, depth, compact) + rest, "")) ==
            Ok((Back(v, compact), Lex(rest, "\n")))
    decreases v, 1
  {
    if v.DocStr? {
      StringReads(name, v.s, depth, compact, rest);
    } else if ChildrenOf(v.members) == [] {
      TextOnlyReads(name, v, depth, compact, rest);
    } else {
      ContentReads(name, v.members, depth, compact, rest);
      hide Lex, ParseChildren, ChildElements, Expand;
      AttrsParse(v.members, compact);
      SplitBody(TextOf(v.members), ChildElements(v.members, depth + 1, compact), name, depth, rest);
    }
  }

  lemma {:induction false} StringReads(name: string, s: string, depth: nat, compact: Doc -> string, rest: seq<Piece>)
    ensures ParseElement(name, [], Lex(Body(name, DocStr(s), depth, compact) + rest, "")) ==
            Ok((Back(DocStr(s), compact), Lex(rest, "\n")))
  {
    hide Lex, ParseChildren, EscapeText, TextBack;
    LeafReads(s, name, rest);
  }

  lemma {:induction false} TextOnlyReads(name: string, v: Doc, depth: nat, compact: Doc -> string, rest: seq<Piece>)
    requires v.DocObj? && DistinctKeys(v.members) && ChildrenOf(v.members) == [] && !IsSelfClosing(v)
    ensures ParseElement(name, OpenAttrs(v, compact), Lex(Body(name, v, depth, compact) + rest, "")) ==
            Ok((Back(v, compact), Lex(rest, "\n")))
  {
    hide Lex, ParseChildren, EscapeText, TextBack;
    AttrsParse(v.members, compact);
    NoChildren(v.members, compact);
    LeafReads(TextOf(v.members).value, name, rest);
  }

  /** An element whose content is read back is read back as one more child of its parent. */
  lemma {:induction false} ReadsInside(name: string, v: Doc, depth: nat, compact: Doc -> string, rest: seq<Piece>,
                    pending: Text, parent: string, children: seq<Child>, texts: seq<Text>)
    requires (v.DocStr? || v.DocObj?) && Sound(v, compact) && IsReadable(pending)
    requires !IsSelfClosing(v) ==>
      ParseElement(name, OpenAttrs(v, compact), Lex(Body(name, v, depth, compact) + rest, "")) ==
      Ok((Back(v, compact), Lex(rest, "\n")))
    ensures ParseChildren(Lex(Element(name, v, depth, compact) + rest, pending), parent, children, texts) ==
            After([Child(name, Back(v, compact))], rest, pending, parent, children, texts)
  {
    hide Lex, ParseChildren, ParseElement, Element, Body, OpenAttrs, IsReadable, PendingTexts, Back, IsSelfClosing;
    ElementShape(name, v, depth, compact, rest);
    var attrs, next := OpenAttrs(v, compact), texts + PendingTexts(pending);
    if IsSelfClosing(v) {
      TagWaits(SelfClose(name, attrs), depth, [Chars("\n")] + rest, pending, parent, children, texts);
      SelfClosing(v);
      SelfClosedReads(name, v, compact, rest, parent, children, next);
    } else {
      var after := Body(name, v, depth, compact) + rest;
      TagWaits(Open(name, attrs), depth, after, pending, parent, children, texts);
      StartReads(name, attrs, Lex(after, ""), Back(v, compact), Lex(rest, "\n"), parent, children, next);
    }
  }

  lemma SelfClosing(v: Doc)
    requires IsSelfClosing(v)
    ensures v.DocObj?
  {
  }

  /** A value is read back as its elements, whatever it is. */
  lemma {:induction false} ElementReads(name: string, v: Doc, depth: nat, compact: Doc -> string, rest: seq<Piece>,
                                        pending: Text, parent: string, children: seq<Child>, texts: seq<Text>)
    requires Sound(v, compact) && IsReadable(pending)
    ensures ParseChildren(Lex(Element(name, v, depth, compact) + rest, pending), parent, children, texts) ==
            After(Elements(name, v, compact), rest, pending, parent, children, texts)
    decreases v, 3
  {
    hide Lex, ParseChildren, IsReadable, After, Back;
    match v
    case DocArr(items) => RepeatedReads(name, items, depth, compact, rest, pending, parent, children, texts);
    case DocObj(members) =>
      if !IsSelfClosing(v) {
        BodyReads(name, v, depth, compact, rest);
      }
      ReadsInside(name, v, depth, compact, rest, pending, parent, children, texts);
    case _ =>
      PrintsAlike(name, v, depth, compact);
      PlainReads(name, Like(v, compact), depth, compact, rest, pending, parent, children, texts);
  }

  /** Strings, and what prints like a string or an empty object. */
  lemma {:induction false} PlainReads(name: string, v: Doc, depth: nat, compact: Doc -> string, rest: seq<Piece>,
                   pending: Text, parent: string, children: seq<Child>, texts: seq<Text>)
    requires (v.DocStr? || v == DocObj([])) && IsReadable(pending)
    ensures ParseChildren(Lex(Element(name, v, depth, compact) + rest, pending), parent, children, texts) ==
            After([Child(name, Back(v, compact))], rest, pending, parent, children, texts)
  {
    hide Lex, ParseChildren, ParseElement, IsReadable, After, Back, Element, Body;
    if v.DocStr? {
      StringReads(name, v.s, depth, compact, rest);
    }
    ReadsInside(name, v, depth, compact, rest, pending, parent, children, texts);
  }

  lemma {:induction false} RepeatedReads(name: string, items: seq<Doc>, depth: nat, compact: Doc -> string,
                                         rest: seq<Piece>, pending: Text, parent: string,
                                         children: seq<Child>, texts: seq<Text>)
    requires AllSound(items, compact) && IsReadable(pending)
    ensures ParseChildren(Lex(Repeated(name, items, depth, compact) + rest, pending), parent, children, texts) ==
            After(ElementsOf(name, items, compact), rest, pending, parent, children, texts)
    decreases items, 0
  {
    hide Lex, ParseChildren, IsReadable, Element, Elements, Waiting, Flushed;
    if items == [] {
      assert Repeated(name, items, depth, compact) + rest == rest;
      AfterNothing(rest, pending, parent, children, texts);
    } else {
      var first, later := Elements(name, items[0], compact), ElementsOf(name, items[1..], compact);
      var more := Repeated(name, items[1..], depth, compact) + rest;
      AppendAssociates(Element(name, items[0], depth, compact), Repeated(name, items[1..], depth, compact), rest);
      ElementReads(name, items[0], depth, compact, more, pending, parent, children, texts);
      AfterBoth(first, later, rest, pending, parent, children, texts);
      RepeatedReads(name, items[1..], depth, compact, rest, Waiting(first, pending), parent,
                    children + first, texts + Flushed(first, pending));
    }
  }

  lemma {:induction false} ChildrenRead(members: seq<DocMember>, depth: nat, compact: Doc -> string, rest: seq<Piece>,
                                        pending: Text, parent: string, children: seq<Child>, texts: seq<Text>)
    requires MembersSound(members, compact) && IsReadable(pending)
    ensures ParseChildren(Lex(ChildElements(members, depth, compact) + rest, pending), parent, children, texts) ==
            After(Expand(members, compact), rest, pending, parent, children, texts)
    decreases members, 0
  {
    hide Lex, ParseChildren, IsReadable, Element, Elements, Waiting, Flushed;
    if members == [] {
      assert ChildElements(members, depth, compact) + rest == rest;
      AfterNothing(rest, pending, parent, children, texts);
    } else if !IsChild(members[0]) {
      ChildrenRead(members[1..], depth, compact, rest, pending, parent, children, texts);
    } else {
      var m := members[0];
      var first, later := Elements(m.key, m.value, compact), Expand(members[1..], compact);
      var more := ChildElements(members[1..], depth, compact) + rest;
      AppendAssociates(Element(m.key, m.value, depth, compact), ChildElements(members[1..], depth, compact), rest);
      ElementReads(m.key, m.value, depth, compact, more, pending, parent, children, texts);
      AfterBoth(first, later, rest, pending, parent, children, texts);
      ChildrenRead(members[1..], depth, compact, rest, Waiting(first, pending), parent,
                   children + first, texts + Flushed(first, pending));
    }
  }
}
