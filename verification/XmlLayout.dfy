/** The text that the XML printer of `format_core` writes, piece by piece. */
module XmlLayout {
  import opened Prelude
  import opened XmlText
  import opened Xml

  function AttrText(a: Attr): Text {
    " " + a.name + "=\"" + a.raw + "\""
  }

  function AttrsText(attrs: seq<Attr>): Text {
    if attrs == [] then "" else AttrText(attrs[0]) + AttrsText(attrs[1..])
  }

  function PieceText(p: Piece): Text {
    match p
    case Decl => "<?xml version=\"1.0\" encoding=\"UTF-8\"?>"
    case Open(name, attrs) => "<" + name + AttrsText(attrs) + ">"
    case SelfClose(name, attrs) => "<" + name + AttrsText(attrs) + "/>"
    case Close(name) => "</" + name + ">"
    case Chars(s) => s
  }

  function TextOfPieces(ps: seq<Piece>): Text {
    if ps == [] then "" else PieceText(ps[0]) + TextOfPieces(ps[1..])
  }

  lemma {:induction false} PiecesAppend(a: seq<Piece>, b: seq<Piece>)
    ensures TextOfPieces(a + b) == TextOfPieces(a) + TextOfPieces(b)
    decreases |a|
  {
    if a == [] {
      assert a + b == b;
    } else {
      assert (a + b)[0] == a[0] && (a + b)[1..] == a[1..] + b;
      PiecesAppend(a[1..], b);
      AppendAssociates(PieceText(a[0]), TextOfPieces(a[1..]), TextOfPieces(b));
    }
  }

  lemma OnePiece(p: Piece)
    ensures TextOfPieces([p]) == PieceText(p)
  {
    assert [p][1..] == [] && PieceText(p) + "" == PieceText(p);
  }

  /** Two spaces for each level. */
  lemma {:induction false} IndentMeaning(depth: nat)
    ensures |Indent(depth)| == 2 * depth && forall c :: c in Indent(depth) ==> c == ' '
  {
    if depth > 0 {
      IndentMeaning(depth - 1);
    }
  }

  lemma {:induction false} OpeningText(name: string, attrs: seq<Attr>, depth: nat)
    ensures TextOfPieces(Opening(name, attrs, depth)) == Indent(depth) + ("<" + name + AttrsText(attrs) + ">")
  {
    PiecesAppend([Chars(Indent(depth))], [Open(name, attrs)]);
    assert [Chars(Indent(depth))] + [Open(name, attrs)] == Opening(name, attrs, depth);
    OnePiece(Chars(Indent(depth)));
    OnePiece(Open(name, attrs));
  }

  lemma ClosingText(name: string)
    ensures TextOfPieces(Closing(name)) == ("</" + name + ">") + "\n"
  {
    PiecesAppend([Close(name)], [Chars("\n")]);
    assert [Close(name)] + [Chars("\n")] == Closing(name);
    OnePiece(Close(name));
    OnePiece(Chars("\n"));
  }

  lemma LeafText(text: Text, name: string)
    ensures TextOfPieces(Leaf(text, name)) == text + (("</" + name + ">") + "\n")
  {
    PiecesAppend([Chars(text)], Closing(name));
    OnePiece(Chars(text));
    ClosingText(name);
  }

  lemma {:induction false} SelfClosedText(name: string, attrs: seq<Attr>, depth: nat)
    ensures TextOfPieces(SelfClosed(name, attrs, depth)) ==
      Indent(depth) + (("<" + name + AttrsText(attrs) + "/>") + "\n")
  {
    var tail := [SelfClose(name, attrs)] + [Chars("\n")];
    PiecesAppend([Chars(Indent(depth))], tail);
    PiecesAppend([SelfClose(name, attrs)], [Chars("\n")]);
    assert [Chars(Indent(depth))] + tail == SelfClosed(name, attrs, depth);
    OnePiece(Chars(Indent(depth)));
    OnePiece(SelfClose(name, attrs));
    OnePiece(Chars("\n"));
  }

  /** A string, a number and a boolean stand between their tags on one line, and null is an empty
      tag. */
  lemma {:induction false} ScalarText(name: string, v: Doc, depth: nat, compact: Doc -> string)
    ensures var open, close := Indent(depth) + ("<" + name + "" + ">"), ("</" + name + ">") + "\n";
      var text := TextOfPieces(Element(name, v, depth, compact));
      match v
      case DocStr(s) => text == open + (EscapeText(s) + close)
      case DocNumber(_) => text == open + (compact(v) + close)
      case DocBool(b) => text == open + ((if b then "true" else "false") + close)
      case DocNull => text == Indent(depth) + (("<" + name + "" + "/>") + "\n")
      case _ => true
  {
    OpeningText(name, [], depth);
    SelfClosedText(name, [], depth);
    var inner := match v
      case DocStr(s) => EscapeText(s)
      case DocBool(b) => if b then "true" else "false"
      case _ => compact(v);
    LeafText(inner, name);
    PiecesAppend(Opening(name, [], depth), Leaf(inner, name));
  }

  /** An array is its items one after the other under the same name. */
  lemma {:induction false} ArrayText(name: string, items: seq<Doc>, item: Doc, depth: nat, compact: Doc -> string)
    ensures TextOfPieces(Element(name, DocArr([]), depth, compact)) == ""
    ensures TextOfPieces(Element(name, DocArr([item] + items), depth, compact)) ==
      TextOfPieces(Element(name, item, depth, compact)) + TextOfPieces(Element(name, DocArr(items), depth, compact))
  {
    assert ([item] + items)[1..] == items;
    PiecesAppend(Element(name, item, depth, compact), Repeated(name, items, depth, compact));
  }

  /** Keys with `@` are attributes, the last `#text` with a string is the text, and everything else
      is a child. */
  lemma {:induction false} MembersMeaning(m: DocMember, members: seq<DocMember>, compact: Doc -> string)
    ensures var all, isAttr := [m] + members, m.key != "" && m.key[0] == '@';
      var raw := EscapeAttr(if m.value.DocStr? then m.value.s else compact(m.value));
      && AttrsOf(all, compact) == (if isAttr then [Attr(m.key[1..], raw)] else []) + AttrsOf(members, compact)
      && TextOf(all) ==
           (if TextOf(members).Some? then TextOf(members)
            else if m.key == "#text" && m.value.DocStr? then Some(m.value.s)
            else None)
      && ChildrenOf(all) == (if isAttr || m.key == "#text" then [] else [m]) + ChildrenOf(members)
    ensures AttrsOf([], compact) == [] && TextOf([]) == None && ChildrenOf([]) == []
  {
    assert ([m] + members)[1..] == members;
  }

  /** The children are written one after the other, and nothing for the other members. */
  lemma {:induction false} ChildrenText(m: DocMember, members: seq<DocMember>, depth: nat, compact: Doc -> string)
    ensures TextOfPieces(ChildElements([m] + members, depth, compact)) ==
      (if (m.key != "" && m.key[0] == '@') || m.key == "#text" then ""
       else TextOfPieces(Element(m.key, m.value, depth, compact))) +
      TextOfPieces(ChildElements(members, depth, compact))
    ensures TextOfPieces(ChildElements([], depth, compact)) == ""
  {
    assert ([m] + members)[1..] == members;
    if IsChild(m) {
      PiecesAppend(Element(m.key, m.value, depth, compact), ChildElements(members, depth, compact));
    }
  }

  /** An object is an empty tag without text and children, stands on one line with text alone,
      and otherwise has its text and its children on lines of their own, one level further in. */
  lemma {:induction false} ObjectText(name: string, members: seq<DocMember>, depth: nat, compact: Doc -> string)
    ensures var attrs, text := AttrsText(AttrsOf(members, compact)), TextOf(members);
      var close := ("</" + name + ">") + "\n";
      TextOfPieces(Element(name, DocObj(members), depth, compact)) ==
        if ChildrenOf(members) != [] then
          Indent(depth) + ("<" + name + attrs + ">") +
            ("\n" +
             ((if text.Some? then Indent(depth) + "  " + EscapeText(text.value) + "\n" else "") +
              (TextOfPieces(ChildElements(members, depth + 1, compact)) + (Indent(depth) + close))))
        else if text.Some? then Indent(depth) + ("<" + name + attrs + ">") + (EscapeText(text.value) + close)
        else Indent(depth) + (("<" + name + attrs + "/>") + "\n")
  {
    var attrs, text := AttrsOf(members, compact), TextOf(members);
    if ChildrenOf(members) != [] {
      ParentText(name, attrs, text, ChildElements(members, depth + 1, compact), depth);
    } else if text.Some? {
      OpeningText(name, attrs, depth);
      LeafText(EscapeText(text.value), name);
      PiecesAppend(Opening(name, attrs, depth), Leaf(EscapeText(text.value), name));
    } else {
      SelfClosedText(name, attrs, depth);
    }
  }

  lemma {:induction false} ParentText(name: string, attrs: seq<Attr>, text: Option<string>, kids: seq<Piece>,
                                      depth: nat)
    ensures TextOfPieces(Opening(name, attrs, depth) +
        ([Chars("\n")] + (Inline(text, depth) + (kids + ([Chars(Indent(depth))] + Closing(name)))))) ==
      Indent(depth) + ("<" + name + AttrsText(attrs) + ">") +
        ("\n" +
         ((if text.Some? then Indent(depth) + "  " + EscapeText(text.value) + "\n" else "") +
          (TextOfPieces(kids) + (Indent(depth) + (("</" + name + ">") + "\n")))))
  {
    var closing := [Chars(Indent(depth))] + Closing(name);
    InlineText(text, depth);
    OpeningText(name, attrs, depth);
    ClosingText(name);
    OnePiece(Chars("\n"));
    OnePiece(Chars(Indent(depth)));
    hide TextOfPieces, Opening, Inline, Closing, AttrsText, Indent;
    PiecesAppend(Opening(name, attrs, depth), [Chars("\n")] + (Inline(text, depth) + (kids + closing)));
    PiecesAppend([Chars("\n")], Inline(text, depth) + (kids + closing));
    PiecesAppend(Inline(text, depth), kids + closing);
    PiecesAppend(kids, closing);
    PiecesAppend([Chars(Indent(depth))], Closing(name));
  }

  lemma {:induction false} InlineText(text: Option<string>, depth: nat)
    ensures TextOfPieces(Inline(text, depth)) ==
      if text.Some? then Indent(depth) + "  " + EscapeText(text.value) + "\n" else ""
  {
    if text.Some? {
      OnePiece(Chars(Indent(depth) + "  " + EscapeText(text.value) + "\n"));
    }
  }

  /** A document is the declaration, a line feed and the root element; it needs an object with one
      member whose key does not start with `@`. */
  lemma {:induction false} DocumentText(value: Doc, compact: Doc -> string)
    ensures var good := value.DocObj? && |value.members| == 1 &&
        (value.members[0].key == "" || value.members[0].key[0] != '@');
      && (ToXml(value, compact).Ok? <==> good)
      && (good ==>
            TextOfPieces(ToXml(value, compact).value) ==
              "<?xml version=\"1.0\" encoding=\"UTF-8\"?>" +
              ("\n" + TextOfPieces(Element(value.members[0].key, value.members[0].value, 0, compact))))
  {
    if ToXml(value, compact).Ok? {
      var root := Element(value.members[0].key, value.members[0].value, 0, compact);
      var head := [Decl, Chars("\n")];
      PiecesAppend(head, root);
      PiecesAppend([Decl], [Chars("\n")]);
      assert [Decl] + [Chars("\n")] == head;
      OnePiece(Decl);
      OnePiece(Chars("\n"));
      AppendAssociates(PieceText(Decl), "\n", TextOfPieces(root));
    }
  }
}
