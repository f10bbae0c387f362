/** What the XML parser of `format_core` makes of the content of an element, also of content that
    its printer never writes. */
module XmlContent {
  import opened Prelude
  import opened XmlText
  import opened Xml

  /** What stands between two tags. A note is a comment or anything else that is skipped. */
  datatype Item =
    | Words(raw: Text)
    | Verbatim(s: Text)
    | Note(token: Token)
    | Empty(name: string, attrs: seq<Attr>)
    | Nested(name: string, attrs: seq<Attr>, items: seq<Item>)

  function TokensOf(items: seq<Item>): seq<Token>
    decreases items, 0
  {
    if items == [] then [] else TokensOfOne(items[0]) + TokensOf(items[1..])
  }

  function TokensOfOne(item: Item): seq<Token>
    decreases item, 1
  {
    match item
    case Words(raw) => [TokenText(raw)]
    case Verbatim(s) => [TokenCData(s)]
    case Note(token) => [token]
    case Empty(name, attrs) => [TokenEmpty(name, attrs)]
    case Nested(name, attrs, items) => [TokenStart(name, attrs)] + TokensOf(items) + [TokenEnd(name)]
  }

  /** Texts and attributes can be decoded. */
  predicate IsReadable(items: seq<Item>)
    decreases items, 0
  {
    items == [] || (IsReadableOne(items[0]) && IsReadable(items[1..]))
  }

  predicate IsReadableOne(item: Item)
    decreases item, 1
  {
    match item
    case Words(raw) => Unescape(raw).Some?
    case Verbatim(_) => true
    case Note(token) => token.TokenComment? || token.TokenDecl? || token.TokenDocType?
    case Empty(_, attrs) => ParseAttrs(attrs).Ok?
    case Nested(_, attrs, items) => ParseAttrs(attrs).Ok? && IsReadable(items)
  }

  function OwnText(item: Item): string
    requires IsReadableOne(item)
  {
    match item
    case Words(raw) => Unescape(raw).value
    case Verbatim(s) => s
    case _ => ""
  }

  /** All text of the content itself, decoded, in order. */
  function TextIn(items: seq<Item>): string
    requires IsReadable(items)
  {
    if items == [] then "" else OwnText(items[0]) + TextIn(items[1..])
  }

  function SomeText(s: string): Option<string> {
    if s == "" then None else Some(s)
  }

  /** The elements of the content, in order, each made of its own attributes, elements and text. */
  function ElementsIn(items: seq<Item>): seq<Child>
    requires IsReadable(items)
    decreases items, 0
  {
    if items == [] then [] else ElementsInOne(items[0]) + ElementsIn(items[1..])
  }

  function ElementsInOne(item: Item): seq<Child>
    requires IsReadableOne(item)
    decreases item, 1
  {
    match item
    case Empty(name, attrs) => [Child(name, BuildElement(ParseAttrs(attrs).value, [], None))]
    case Nested(name, attrs, items) =>
      [Child(name, BuildElement(ParseAttrs(attrs).value, ElementsIn(items), SomeText(TextIn(items))))]
    case _ => []
  }

  /** The texts that the parser collects. */
  function Parts(items: seq<Item>): seq<Text>
    requires IsReadable(items)
  {
    if items == [] then [] else PartsOfOne(items[0]) + Parts(items[1..])
  }

  function PartsOfOne(item: Item): seq<Text>
    requires IsReadableOne(item)
  {
    if OwnText(item) == "" then [] else [OwnText(item)]
  }

  lemma {:induction false} PartsAreText(items: seq<Item>)
    requires IsReadable(items)
    ensures Join(Parts(items)) == SomeText(TextIn(items))
    ensures Flatten(Parts(items)) == TextIn(items) && (Parts(items) == [] <==> TextIn(items) == "")
  {
    if items != [] {
      PartsAreText(items[1..]);
      var s := OwnText(items[0]);
      if s == "" {
        assert [] + Parts(items[1..]) == Parts(items[1..]) && "" + TextIn(items[1..]) == TextIn(items[1..]);
      } else {
        FlattenAppend([s], Parts(items[1..]));
        assert Flatten([s]) == s + Flatten([s][1..]) == s;
      }
    }
  }

  /** The parser takes in the content of an element and goes on after it. */
  lemma {:induction false} TakesIn(items: seq<Item>, after: seq<Token>, parent: string, children: seq<Child>,
                                   texts: seq<Text>)
    requires IsReadable(items)
    ensures ParseChildren(TokensOf(items) + after, parent, children, texts) ==
      ParseChildren(after, parent, children + ElementsIn(items), texts + Parts(items))
    decreases items, 0
  {
    if items == [] {
      assert TokensOf(items) + after == after && children + [] == children && texts + [] == texts;
    } else {
      var first, later := TokensOfOne(items[0]), TokensOf(items[1..]) + after;
      AppendAssociates(first, TokensOf(items[1..]), after);
      TakesInOne(items[0], later, parent, children, texts);
      TakesIn(items[1..], after, parent, children + ElementsInOne(items[0]), texts + PartsOfOne(items[0]));
      AppendAssociates(children, ElementsInOne(items[0]), ElementsIn(items[1..]));
      AppendAssociates(texts, PartsOfOne(items[0]), Parts(items[1..]));
    }
  }

  lemma {:induction false} TakesInOne(item: Item, after: seq<Token>, parent: string, children: seq<Child>,
                                      texts: seq<Text>)
    requires IsReadableOne(item)
    ensures ParseChildren(TokensOfOne(item) + after, parent, children, texts) ==
      ParseChildren(after, parent, children + ElementsInOne(item), texts + PartsOfOne(item))
    decreases item, 1
  {
    assert children + [] == children && texts + [] == texts;
    var tokens := TokensOfOne(item) + after;
    match item
    case Nested(name, attrs, items) =>
      var inner := [TokenEnd(name)] + after;
      assert tokens[0] == TokenStart(name, attrs) && tokens[1..] == TokensOf(items) + inner;
      TakesIn(items, inner, name, [], []);
      PartsAreText(items);
      assert [] + ElementsIn(items) == ElementsIn(items) && [] + Parts(items) == Parts(items);
      assert inner[0] == TokenEnd(name) && inner[1..] == after;
    case _ =>
      assert tokens[1..] == after;
  }

  // -- What is read --------------------------------------------------------

  /** Whatever stands between the tags of an element: its elements in order, and as text all its
      texts put together, or none if they are all empty. */
  lemma {:induction false} ContentIsRead(items: seq<Item>, parent: string, rest: seq<Token>)
    requires IsReadable(items)
    ensures ParseChildren(TokensOf(items) + ([TokenEnd(parent)] + rest), parent, [], []) ==
      Ok(Content(ElementsIn(items), SomeText(TextIn(items)), rest))
  {
    TakesIn(items, [TokenEnd(parent)] + rest, parent, [], []);
    PartsAreText(items);
    assert [] + ElementsIn(items) == ElementsIn(items) && [] + Parts(items) == Parts(items);
    assert ([TokenEnd(parent)] + rest)[1..] == rest;
  }

  /** What makes the content unreadable: a missing or another closing tag, a text or attributes
      that cannot be decoded, and an error of the reader. */
  lemma {:induction false} BadContentFails(items: seq<Item>, parent: string, bad: Token, rest: seq<Token>)
    requires IsReadable(items)
    requires match bad
      case TokenEnd(tag) => tag != parent
      case TokenText(raw) => Unescape(raw).None?
      case TokenStart(_, attrs) => ParseAttrs(attrs).Err?
      case TokenEmpty(_, attrs) => ParseAttrs(attrs).Err?
      case TokenError => true
      case _ => false
    ensures ParseChildren(TokensOf(items), parent, [], []).Err?
    ensures ParseChildren(TokensOf(items) + ([bad] + rest), parent, [], []).Err?
  {
    TakesIn(items, [], parent, [], []);
    assert TokensOf(items) + [] == TokensOf(items);
    TakesIn(items, [bad] + rest, parent, [], []);
    assert ([bad] + rest)[1..] == rest;
  }

  /** A document: declarations and comments, and then one element; what follows is not read. */
  lemma {:induction false} DocumentIsRead(prolog: seq<Token>, name: string, attrs: seq<Attr>, items: seq<Item>,
                                          rest: seq<Token>)
    requires forall t :: t in prolog ==> t.TokenDecl? || t.TokenComment?
    requires ParseAttrs(attrs).Ok? && IsReadable(items)
    ensures ParseDocument(prolog + ([TokenStart(name, attrs)] + (TokensOf(items) + ([TokenEnd(name)] + rest)))) ==
      Ok(Obj(map[name := BuildElement(ParseAttrs(attrs).value, ElementsIn(items), SomeText(TextIn(items)))]))
    decreases |prolog|
  {
    var element := [TokenStart(name, attrs)] + (TokensOf(items) + ([TokenEnd(name)] + rest));
    if prolog == [] {
      assert prolog + element == element && element[1..] == TokensOf(items) + ([TokenEnd(name)] + rest);
      ContentIsRead(items, name, rest);
    } else {
      assert prolog[0] in prolog && (prolog + element)[1..] == prolog[1..] + element;
      DocumentIsRead(prolog[1..], name, attrs, items, rest);
    }
  }

  /** Anything else at the root is an error. */
  lemma {:induction false} BadDocumentFails(prolog: seq<Token>, bad: Token, rest: seq<Token>)
    requires forall t :: t in prolog ==> t.TokenDecl? || t.TokenComment?
    requires !bad.TokenStart? && !bad.TokenDecl? && !bad.TokenComment?
    ensures ParseDocument(prolog).Err? && ParseDocument(prolog + ([bad] + rest)).Err?
    decreases |prolog|
  {
    if prolog != [] {
      assert prolog[0] in prolog && (prolog + ([bad] + rest))[1..] == prolog[1..] + ([bad] + rest);
      BadDocumentFails(prolog[1..], bad, rest);
    } else {
      assert prolog + ([bad] + rest) == [bad] + rest;
    }
  }

  /** Attributes are read in order under their names with `@`; a name that is repeated and a value
      that cannot be decoded are errors. */
  lemma {:induction false} AttributesMeaning(attrs: seq<Attr>)
    ensures ParseAttrs(attrs).Ok? <==>
      && (forall i, k :: 0 <= i < k < |attrs| ==> attrs[i].name != attrs[k].name)
      && (forall i :: 0 <= i < |attrs| ==> Unescape(attrs[i].raw).Some?)
    ensures ParseAttrs(attrs).Ok? ==>
      && |ParseAttrs(attrs).value| == |attrs|
      && forall i :: 0 <= i < |attrs| ==>
           ParseAttrs(attrs).value[i] == Child("@" + attrs[i].name, Str(Unescape(attrs[i].raw).value))
    decreases |attrs|
  {
    if attrs != [] {
      var tail := attrs[1..];
      AttributesMeaning(tail);
      assert forall i :: 0 <= i < |tail| ==> tail[i] == attrs[i + 1];
      assert forall i :: 0 < i < |attrs| ==> attrs[i] == tail[i - 1];
    }
  }
}
