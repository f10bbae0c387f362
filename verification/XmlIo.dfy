/** The XML serializer and parser of `format_core` as they run: one appends to an output,
    the other advances a reader. */
module XmlIo {
  import opened Prelude
  import opened XmlText
  import opened Xml
  import opened XmlReadBack
  import opened XmlRoundTrip

  lemma {:induction false} ChildElementsFiltered(members: seq<DocMember>, depth: nat, compact: Doc -> string)
    ensures ChildElements(ChildrenOf(members), depth, compact) == ChildElements(members, depth, compact)
    ensures forall c :: c in ChildrenOf(members) ==> IsChild(c)
    decreases |members|
  {
    if members != [] {
      ChildElementsFiltered(members[1..], depth, compact);
      if IsChild(members[0]) {
        assert ([members[0]] + ChildrenOf(members[1..]))[1..] == ChildrenOf(members[1..]);
      }
    }
  }

  lemma {:induction false} ClassifySnoc(members: seq<DocMember>, m: DocMember, compact: Doc -> string)
    ensures AttrsOf(members + [m], compact) == AttrsOf(members, compact) + AttrsOf([m], compact)
    ensures ChildrenOf(members + [m]) == ChildrenOf(members) + ChildrenOf([m])
    ensures TextOf(members + [m]) == if TextOf([m]).Some? then TextOf([m]) else TextOf(members)
    decreases |members|
  {
    if members == [] {
      assert members + [m] == [m];
    } else {
      assert (members + [m])[0] == members[0] && (members + [m])[1..] == members[1..] + [m];
      ClassifySnoc(members[1..], m, compact);
    }
  }

  class Writer {
    const compact: Doc -> string
    var output: seq<Piece>

    constructor (compact: Doc -> string)
      ensures output == [] && this.compact == compact
    {
      this.compact := compact;
      output := [];
    }

    /** `classify_xml_object`. */
    method Classify(members: seq<DocMember>) returns (attrs: seq<Attr>, text: Option<string>, children: seq<DocMember>)
      ensures attrs == AttrsOf(members, compact) && text == TextOf(members) && children == ChildrenOf(members)
    {
      attrs, text, children := [], None, [];
      for i := 0 to |members|
        invariant attrs == AttrsOf(members[..i], compact)
        invariant text == TextOf(members[..i])
        invariant children == ChildrenOf(members[..i])
      {
        var m := members[i];
        ClassifySnoc(members[..i], m, compact);
        assert members[..i + 1] == members[..i] + [m];
        assert [m][1..] == [];
        if IsAttrKey(m.key) {
          var raw := if m.value.DocStr? then m.value.s else compact(m.value);
          attrs := attrs + [Attr(m.key[1..], EscapeAttr(raw))];
        } else if IsTextKey(m.key) {
          if m.value.DocStr? {
            text := Some(m.value.s);
          }
        } else {
          children := children + [m];
        }
      }
      assert members[..|members|] == members;
    }

    method WriteElement(name: string, v: Doc, depth: nat)
      modifies this
      ensures output == old(output) + Element(name, v, depth, compact)
      decreases v, 2
    {
      match v
      case DocStr(s) => output := output + (Opening(name, [], depth) + Leaf(EscapeText(s), name));
      case DocNumber(_) => output := output + (Opening(name, [], depth) + Leaf(compact(v), name));
      case DocBool(b) => output := output + (Opening(name, [], depth) + Leaf(if b then "true" else "false", name));
      case DocNull => output := output + SelfClosed(name, [], depth);
      case DocArr(items) =>
        for i := 0 to |items|
          invariant output + Repeated(name, items[i..], depth, compact) ==
            old(output) + Repeated(name, items, depth, compact)
        {
          assert items[i..][0] == items[i] && items[i..][1..] == items[i + 1..];
          AppendAssociates(output, Element(name, items[i], depth, compact),
            Repeated(name, items[i + 1..], depth, compact));
          WriteElement(name, items[i], depth);
        }
      case DocObj(members) => WriteObject(name, v, depth);
    }

    method WriteObject(name: string, v: Doc, depth: nat)
      requires v.DocObj?
      modifies this
      ensures output == old(output) + Element(name, v, depth, compact)
      decreases v, 1
    {
      var attrs, text, children := Classify(v.members);
      if children == [] {
        if text.None? {
          output := output + SelfClosed(name, attrs, depth);
        } else {
          output := output + (Opening(name, attrs, depth) + Leaf(EscapeText(text.value), name));
        }
        return;
      }
      output := output + (Opening(name, attrs, depth) + ([Chars("\n")] + Inline(text, depth)));
      ChildElementsFiltered(v.members, depth + 1, compact);
      WriteChildren(v, children, depth + 1);
      output := output + ([Chars(Indent(depth))] + Closing(name));
      Assemble(old(output), Opening(name, attrs, depth), [Chars("\n")], Inline(text, depth),
               ChildElements(children, depth + 1, compact), [Chars(Indent(depth))] + Closing(name));
    }

    method WriteChildren(ghost owner: Doc, children: seq<DocMember>, depth: nat)
      requires forall c :: c in children ==> c.value < owner && IsChild(c)
      modifies this
      ensures output == old(output) + ChildElements(children, depth, compact)
      decreases owner, 0
    {
      for i := 0 to |children|
        invariant output + ChildElements(children[i..], depth, compact) ==
          old(output) + ChildElements(children, depth, compact)
      {
        var c := children[i];
        assert children[i..][0] == c && children[i..][1..] == children[i + 1..];
        AppendAssociates(output, Element(c.key, c.value, depth, compact),
          ChildElements(children[i + 1..], depth, compact));
        WriteElement(c.key, c.value, depth);
      }
    }
  }

  lemma Assemble(a: seq<Piece>, b: seq<Piece>, c: seq<Piece>, d: seq<Piece>, e: seq<Piece>, f: seq<Piece>)
    ensures ((a + (b + (c + d))) + e) + f == a + (b + (c + (d + (e + f))))
  {
  }

  /** `to_xml`. What is written parses back to the value exactly for normal documents. */
  method WriteDocument(value: Doc, compact: Doc -> string) returns (r: Result<seq<Piece>>)
    ensures r == ToXml(value, compact)
    ensures IsNormalDocument(value) ==> r.Ok? && ParseDocument(Lex(r.value, "")) == Ok(Meaning(value))
    ensures Sound(value, compact) && !IsNormalDocument(value) ==>
      r.Err? || ParseDocument(Lex(r.value, "")) != Ok(Meaning(value))
  {
    if IsNormalDocument(value) {
      NormalDocumentIsSound(value, compact);
    }
    if Sound(value, compact) {
      XmlRoundTrips(value, compact);
    }
    if !value.DocObj? {
      return Err("XML requires a root object");
    }
    if |value.members| != 1 {
      return Err("XML requires exactly one root element");
    }
    var root := value.members[0];
    if IsAttrKey(root.key) {
      return Err("Root key looks like an attribute");
    }
    var writer := new Writer(compact);
    writer.output := [Decl, Chars("\n")];
    writer.WriteElement(root.key, root.value, 0);
    return Ok(writer.output);
  }

  // -- The parser ----------------------------------------------------------

  /** `build_xml_element`. */
  method BuildXmlElement(attrs: seq<Child>, children: seq<Child>, text: Option<string>) returns (element: Json)
    ensures element == BuildElement(attrs, children, text)
  {
    if attrs == [] && children == [] {
      if text.Some? {
        return Str(text.value);
      }
      return Obj(map[]);
    }
    var fields := map[];
    for i := 0 to |attrs|
      invariant InsertAll(fields, attrs[i..]) == InsertAll(map[], attrs)
    {
      assert attrs[i..][0] == attrs[i] && attrs[i..][1..] == attrs[i + 1..];
      fields := fields[attrs[i].name := attrs[i].value];
    }
    if text.Some? {
      fields := fields["#text" := Str(text.value)];
    }
    ghost var start := fields;
    for i := 0 to |children|
      invariant AddChildren(fields, children[i..]) == AddChildren(start, children)
    {
      var c := children[i];
      assert children[i..][0] == c && children[i..][1..] == children[i + 1..];
      if c.name in fields {
        var existing := fields[c.name];
        var others := fields - {c.name};
        if existing.Arr? {
          assert others[c.name := Arr(existing.items + [c.value])] == fields[c.name := Arr(existing.items + [c.value])];
          fields := others[c.name := Arr(existing.items + [c.value])];
        } else {
          assert others[c.name := Arr([existing, c.value])] == fields[c.name := Arr([existing, c.value])];
          fields := others[c.name := Arr([existing, c.value])];
        }
      } else {
        fields := fields[c.name := c.value];
      }
    }
    return Obj(fields);
  }

  class Reader {
    /** The events not read yet. */
    var tokens: seq<Token>

    constructor (tokens: seq<Token>)
      ensures this.tokens == tokens
    {
      this.tokens := tokens;
    }

    /** An element whose start tag was just read. */
    method ReadElement(tag: string, raw: seq<Attr>) returns (r: Result<Json>)
      modifies this
      ensures match ParseElement(tag, raw, old(tokens))
        case Ok((element, rest)) => r == Ok(element) && tokens == rest
        case Err(e) => r == Err(e)
      decreases |tokens|, 1
    {
      var attrs := ParseAttrs(raw);
      if attrs.Err? {
        return Err(attrs.message);
      }
      var content := ReadChildren(tag);
      if content.Err? {
        return Err(content.message);
      }
      var element := BuildXmlElement(attrs.value, content.value.children, content.value.text);
      return Ok(element);
    }

    /** `parse_xml_children`. */
    method ReadChildren(parent: string) returns (r: Result<Content>)
      modifies this
      ensures r == ParseChildren(old(tokens), parent, [], [])
      ensures r.Ok? ==> tokens == r.value.rest
      decreases |tokens|, 0
    {
      var children: seq<Child> := [];
      var texts: seq<Text> := [];
      while tokens != []
        invariant ParseChildren(tokens, parent, children, texts) == ParseChildren(old(tokens), parent, [], [])
        invariant |tokens| <= |old(tokens)|
        decreases |tokens|
      {
        var token := tokens[0];
        tokens := tokens[1..];
        match token
        case TokenStart(tag, raw) =>
          var element := ReadElement(tag, raw);
          if element.Err? {
            return Err(element.message);
          }
          children := children + [Child(tag, element.value)];
        case TokenEmpty(tag, raw) =>
          var attrs := ParseAttrs(raw);
          if attrs.Err? {
            return Err(attrs.message);
          }
          var element := BuildXmlElement(attrs.value, [], None);
          children := children + [Child(tag, element)];
        case TokenText(raw) =>
          var text := Unescape(raw);
          if text.None? {
            return Err("Text decode error");
          }
          if text.value != "" {
            texts := texts + [text.value];
          }
        case TokenCData(s) =>
          if s != "" {
            texts := texts + [s];
          }
        case TokenEnd(tag) =>
          if tag == parent {
            return Ok(Content(children, Join(texts), tokens));
          }
          return Err("Mismatched closing tag");
        case TokenError => return Err("XML error");
        case _ =>
      }
      return Err("Unexpected EOF");
    }

    /** `xml`. */
    method ReadDocument() returns (r: Result<Json>)
      modifies this
      ensures r == ParseDocument(old(tokens))
    {
      while tokens != []
        invariant ParseDocument(tokens) == ParseDocument(old(tokens))
        decreases |tokens|
      {
        var token := tokens[0];
        tokens := tokens[1..];
        match token
        case TokenStart(tag, raw) =>
          var element := ReadElement(tag, raw);
          if element.Err? {
            return Err(element.message);
          }
          return Ok(Obj(map[tag := element.value]));
        case TokenDecl =>
        case TokenComment =>
        case _ => return Err("Unexpected event at document root");
      }
      return Err("Empty XML document");
    }
  }
}
