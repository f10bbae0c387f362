/** The XML serializer and parser of `format_core`, up to the lexer between them. */
module Xml {
  import opened Prelude
  import opened XmlText

  datatype Attr = Attr(name: string, raw: Text)

  /** What the serializer writes: tags and the characters between them. */
  datatype Piece =
    | Decl
    | Open(name: string, attrs: seq<Attr>)
    | SelfClose(name: string, attrs: seq<Attr>)
    | Close(name: string)
    | Chars(s: Text)

  // -- Serializing ---------------------------------------------------------

  function Indent(depth: nat): Text {
    if depth == 0 then "" else "  " + Indent(depth - 1)
  }

  predicate IsAttrKey(key: string) {
    key != "" && key[0] == '@'
  }

  predicate IsTextKey(key: string) {
    key == "#text"
  }

  /** The three lists of `classify_xml_object`; `compact` is `Value::to_string`. */
  function AttrsOf(members: seq<DocMember>, compact: Doc -> string): seq<Attr> {
    if members == [] then []
    else
      var m, rest := members[0], AttrsOf(members[1..], compact);
      if IsAttrKey(m.key)
      then [Attr(m.key[1..], EscapeAttr(if m.value.DocStr? then m.value.s else compact(m.value)))] + rest
      else rest
  }

  /** The last `#text` string. */
  function TextOf(members: seq<DocMember>): Option<string> {
    if members == [] then None
    else
      var later := TextOf(members[1..]);
      if later.Some? then later
      else if IsTextKey(members[0].key) && members[0].value.DocStr? then Some(members[0].value.s)
      else None
  }

  predicate IsChild(m: DocMember) {
    !IsAttrKey(m.key) && !IsTextKey(m.key)
  }

  function ChildrenOf(members: seq<DocMember>): (r: seq<DocMember>)
    ensures forall m :: m in r ==> m in members
  {
    if members == [] then []
    else if IsChild(members[0]) then [members[0]] + ChildrenOf(members[1..])
    else ChildrenOf(members[1..])
  }

  function Closing(name: string): seq<Piece> {
    [Close(name), Chars("\n")]
  }

  function Opening(name: string, attrs: seq<Attr>, depth: nat): seq<Piece> {
    [Chars(Indent(depth)), Open(name, attrs)]
  }

  function Leaf(text: Text, name: string): seq<Piece> {
    [Chars(text)] + Closing(name)
  }

  function SelfClosed(name: string, attrs: seq<Attr>, depth: nat): seq<Piece> {
    [Chars(Indent(depth)), SelfClose(name, attrs), Chars("\n")]
  }

  /** `write_xml_element`. */
  function Element(name: string, v: Doc, depth: nat, compact: Doc -> string): seq<Piece>
    decreases v, 1
  {
    match v
    case DocStr(s) => Opening(name, [], depth) + Leaf(EscapeText(s), name)
    case DocNumber(_) => Opening(name, [], depth) + Leaf(compact(v), name)
    case DocBool(b) => Opening(name, [], depth) + Leaf(if b then "true" else "false", name)
    case DocNull => SelfClosed(name, [], depth)
    case DocArr(items) => Repeated(name, items, depth, compact)
    case DocObj(members) => ObjectElement(name, members, depth, compact)
  }

  function Repeated(name: string, items: seq<Doc>, depth: nat, compact: Doc -> string): seq<Piece>
    decreases items, 0
  {
    if items == [] then []
    else Element(name, items[0], depth, compact) + Repeated(name, items[1..], depth, compact)
  }

  /** `write_xml_object`. */
  function ObjectElement(name: string, members: seq<DocMember>, depth: nat, compact: Doc -> string): seq<Piece>
    decreases members, 1
  {
    var attrs, text := AttrsOf(members, compact), TextOf(members);
    if ChildrenOf(members) == [] then
      if text.None? then SelfClosed(name, attrs, depth)
      else Opening(name, attrs, depth) + Leaf(EscapeText(text.value), name)
    else
      Opening(name, attrs, depth)
      + ([Chars("\n")]
         + (Inline(text, depth)
            + (ChildElements(members, depth + 1, compact) + ([Chars(Indent(depth))] + Closing(name)))))
  }

  /** The text of an element with children, on its own line. */
  function Inline(text: Option<string>, depth: nat): seq<Piece> {
    if text.Some? then [Chars(Indent(depth) + "  " + EscapeText(text.value) + "\n")] else []
  }

  /** `write_xml_children`: arrays become repeated elements. */
  function ChildElements(members: seq<DocMember>, depth: nat, compact: Doc -> string): seq<Piece>
    decreases members, 0
  {
    if members == [] then []
    else
      var rest := ChildElements(members[1..], depth, compact);
      if IsChild(members[0]) then Element(members[0].key, members[0].value, depth, compact) + rest else rest
  }

  /** `to_xml`. */
  function ToXml(value: Doc, compact: Doc -> string): Result<seq<Piece>> {
    if !value.DocObj? then Err("XML requires a root object")
    else if |value.members| != 1 then Err("XML requires exactly one root element")
    else if IsAttrKey(value.members[0].key) then Err("Root key looks like an attribute")
    else Ok([Decl, Chars("\n")] + Element(value.members[0].key, value.members[0].value, 0, compact))
  }

  // -- Lexing --------------------------------------------------------------

  /** The events of the `quick_xml` reader. */
  datatype Token =
    | TokenStart(name: string, attrs: seq<Attr>)
    | TokenEmpty(name: string, attrs: seq<Attr>)
    | TokenEnd(name: string)
    | TokenText(raw: Text)
    | TokenCData(s: Text)
    | TokenDecl
    | TokenComment
    | TokenDocType
    | TokenError

  /** Text is reported trimmed, and not at all when nothing is left: `trim_text(true)`. */
  function TextTokens(pending: Text): seq<Token> {
    if Trim(pending, Markup) == "" then [] else [TokenText(Trim(pending, Markup))]
  }

  function Lex(pieces: seq<Piece>, pending: Text): seq<Token> {
    if pieces == [] then TextTokens(pending)
    else
      match pieces[0]
      case Chars(s) => Lex(pieces[1..], pending + s)
      case Decl => TextTokens(pending) + [TokenDecl] + Lex(pieces[1..], "")
      case Open(name, attrs) => TextTokens(pending) + [TokenStart(name, attrs)] + Lex(pieces[1..], "")
      case SelfClose(name, attrs) => TextTokens(pending) + [TokenEmpty(name, attrs)] + Lex(pieces[1..], "")
      case Close(name) => TextTokens(pending) + [TokenEnd(name)] + Lex(pieces[1..], "")
  }

  // -- Parsing -------------------------------------------------------------

  datatype Child = Child(name: string, value: Json)

  /** `parse_xml_attributes`; the reader reports a repeated name as an error. */
  function ParseAttrs(attrs: seq<Attr>): Result<seq<Child>> {
    if attrs == [] then Ok([])
    else if exists i :: 1 <= i < |attrs| && attrs[i].name == attrs[0].name then Err("Attribute error")
    else
      match Unescape(attrs[0].raw)
      case None => Err("Attribute decode error")
      case Some(value) =>
        match ParseAttrs(attrs[1..])
        case Err(e) => Err(e)
        case Ok(rest) => Ok([Child("@" + attrs[0].name, Str(value))] + rest)
  }

  function InsertAll(fields: map<string, Json>, entries: seq<Child>): map<string, Json>
    decreases |entries|
  {
    if entries == [] then fields else InsertAll(fields[entries[0].name := entries[0].value], entries[1..])
  }

  /** One child: a repeated name becomes an array, a name that has one grows it. */
  function AddChild(fields: map<string, Json>, c: Child): map<string, Json> {
    if c.name in fields then
      match fields[c.name]
      case Arr(items) => fields[c.name := Arr(items + [c.value])]
      case existing => fields[c.name := Arr([existing, c.value])]
    else fields[c.name := c.value]
  }

  function AddChildren(fields: map<string, Json>, children: seq<Child>): map<string, Json>
    decreases |children|
  {
    if children == [] then fields else AddChildren(AddChild(fields, children[0]), children[1..])
  }

  /** `build_xml_element`. */
  function BuildElement(attrs: seq<Child>, children: seq<Child>, text: Option<string>): Json {
    if attrs == [] && children == [] then
      if text.Some? then Str(text.value) else Obj(map[])
    else
      var withAttrs := InsertAll(map[], attrs);
      var withText := if text.Some? then withAttrs["#text" := Str(text.value)] else withAttrs;
      Obj(AddChildren(withText, children))
  }

  function Join(parts: seq<Text>): Option<string> {
    if parts == [] then None else Some(Flatten(parts))
  }

  datatype Content = Content(children: seq<Child>, text: Option<string>, rest: seq<Token>)

  /** `parse_xml_children`, with what it has collected so far. */
  function ParseChildren(tokens: seq<Token>, parent: string, children: seq<Child>,
                         texts: seq<Text>): (r: Result<Content>)
    ensures r.Ok? ==> |r.value.rest| < |tokens|
    decreases |tokens|, 0
  {
    if tokens == [] then Err("Unexpected EOF")
    else
      var rest := tokens[1..];
      match tokens[0]
      case TokenStart(tag, raw) =>
        (match ParseElement(tag, raw, rest)
         case Err(e) => Err(e)
         case Ok((element, after)) => ParseChildren(after, parent, children + [Child(tag, element)], texts))
      case TokenEmpty(tag, raw) =>
        (match ParseAttrs(raw)
         case Err(e) => Err(e)
         case Ok(attrs) => ParseChildren(rest, parent, children + [Child(tag, BuildElement(attrs, [], None))], texts))
      case TokenText(raw) =>
        (match Unescape(raw)
         case None => Err("Text decode error")
         case Some(text) => ParseChildren(rest, parent, children, if text == "" then texts else texts + [text]))
      case TokenCData(s) => ParseChildren(rest, parent, children, if s == "" then texts else texts + [s])
      case TokenEnd(tag) =>
        if tag == parent then Ok(Content(children, Join(texts), rest)) else Err("Mismatched closing tag")
      case TokenError => Err("XML error")
      case _ => ParseChildren(rest, parent, children, texts)
  }

  /** An element whose start tag was just read, and the tokens after it. */
  function ParseElement(tag: string, raw: seq<Attr>, tokens: seq<Token>): (r: Result<(Json, seq<Token>)>)
    ensures r.Ok? ==> |r.value.1| < |tokens|
    decreases |tokens|, 1
  {
    match ParseAttrs(raw)
    case Err(e) => Err(e)
    case Ok(attrs) =>
      match ParseChildren(tokens, tag, [], [])
      case Err(e) => Err(e)
      case Ok(content) => Ok((BuildElement(attrs, content.children, content.text), content.rest))
  }

  /** `xml`: what follows the root element is not read. */
  function ParseDocument(tokens: seq<Token>): Result<Json> {
    if tokens == [] then Err("Empty XML document")
    else
      match tokens[0]
      case TokenStart(tag, raw) =>
        (match ParseElement(tag, raw, tokens[1..])
         case Err(e) => Err(e)
         case Ok((element, _)) => Ok(Obj(map[tag := element])))
      case TokenDecl => ParseDocument(tokens[1..])
      case TokenComment => ParseDocument(tokens[1..])
      case _ => Err("Unexpected event at document root")
  }

  // -- Normal form ---------------------------------------------------------

  predicate DistinctKeys(members: seq<DocMember>) {
    forall i, j :: 0 <= i < j < |members| ==> members[i].key != members[j].key
  }

  /** An element that reads back as itself: a trimmed string or an object of such. */
  predicate IsNormal(v: Doc)
    decreases v, 1
  {
    match v
    case DocStr(s) => IsTrimmed(s, Markup)
    case DocObj(members) => DistinctKeys(members) && AreNormal(members, |members| == 1)
    case _ => false
  }

  /** Attributes are strings, `#text` is a trimmed string and not alone, and a child is an
      element or an array of at least two. */
  predicate AreNormal(members: seq<DocMember>, alone: bool)
    decreases members, 0
  {
    members == [] ||
    (&& (var m := members[0];
         if IsAttrKey(m.key) then m.value.DocStr?
         else if IsTextKey(m.key) then m.value.DocStr? && IsTrimmed(m.value.s, Markup) && !alone
         else if m.value.DocArr? then |m.value.items| >= 2 && AllNormal(m.value.items)
         else IsNormal(m.value))
     && AreNormal(members[1..], alone))
  }

  predicate AllNormal(items: seq<Doc>)
    decreases items, 0
  {
    items == [] || (IsNormal(items[0]) && AllNormal(items[1..]))
  }

  /** A document: one root element that is not self-closing. */
  predicate IsNormalDocument(value: Doc) {
    && value.DocObj? && |value.members| == 1 && !IsAttrKey(value.members[0].key)
    && IsNormal(value.members[0].value)
    && (value.members[0].value.DocObj? ==>
          TextOf(value.members[0].value.members).Some? || ChildrenOf(value.members[0].value.members) != [])
  }

  /** The value up to the order of keys. */
  function Meaning(v: Doc): Json
    decreases v, 1
  {
    match v
    case DocNull => Null
    case DocBool(b) => Bool(b)
    case DocNumber(n) => Num(n)
    case DocStr(s) => Str(s)
    case DocArr(items) => Arr(Meanings(items))
    case DocObj(members) => Obj(FieldsOf(members))
  }

  function Meanings(items: seq<Doc>): (r: seq<Json>)
    ensures |r| == |items|
    decreases items, 0
  {
    if items == [] then [] else [Meaning(items[0])] + Meanings(items[1..])
  }

  function FieldsOf(members: seq<DocMember>): (r: map<string, Json>)
    ensures forall k :: k in r <==> exists i :: 0 <= i < |members| && members[i].key == k
    decreases members, 0
  {
    if members == [] then map[]
    else
      assert forall i :: 0 <= i < |members| ==> i == 0 || members[i] == members[1..][i - 1];
      FieldsOf(members[1..])[members[0].key := Meaning(members[0].value)]
  }
}
