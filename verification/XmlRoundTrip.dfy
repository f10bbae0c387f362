/** When the XML of `format_core` gives a value back. */
module XmlRoundTrip {
  import opened Prelude
  import opened XmlText
  import opened Xml
  import opened XmlReadBack

  type Fields = map<string, Json>

  // -- The fields that are read for an object ------------------------------

  /** What the elements of one name become: nothing, a value or an array. */
  function Grouped(read: seq<Child>): Option<Json> {
    if read == [] then None
    else if |read| == 1 then Some(read[0].value)
    else Some(Arr(ValuesOf(read)))
  }

  function ValuesOf(read: seq<Child>): (r: seq<Json>)
    ensures |r| == |read| && forall i :: 0 <= i < |r| ==> r[i] == read[i].value
  {
    seq(|read|, i requires 0 <= i < |read| => read[i].value)
  }

  /** What is read for one member. */
  function FieldBack(m: DocMember, compact: Doc -> string): Option<Json> {
    if IsAttrKey(m.key) then Some(Str(AttrText(m.value, compact)))
    else if IsTextKey(m.key) then
      if m.value.DocStr? && TextBack(m.value.s).Some? then Some(Str(TextBack(m.value.s).value)) else None
    else Grouped(Elements(m.key, m.value, compact))
  }

  function FieldsBack(members: seq<DocMember>, compact: Doc -> string): (r: Fields)
    ensures forall k :: k in r ==> exists i :: 0 <= i < |members| && members[i].key == k
  {
    if members == [] then map[]
    else
      var rest := FieldsBack(members[1..], compact);
      assert forall i :: 0 <= i < |members| ==> i == 0 || members[i] == members[1..][i - 1];
      match FieldBack(members[0], compact)
      case Some(v) => rest[members[0].key := v]
      case None => rest
  }

  lemma HeadIsNew(members: seq<DocMember>, compact: Doc -> string)
    requires members != [] && DistinctKeys(members)
    ensures DistinctKeys(members[1..])
    ensures members[0].key !in FieldsBack(members[1..], compact) && members[0].key !in FieldsOf(members[1..])
  {
    DistinctTail(members);
  }

  // -- Putting an object together ------------------------------------------

  function AttrPart(f: Fields): Fields {
    map k | k in f && IsAttrKey(k) :: f[k]
  }

  predicate IsChildKey(key: string) {
    !IsAttrKey(key) && !IsTextKey(key)
  }

  function ChildPart(f: Fields): Fields {
    map k | k in f && IsChildKey(k) :: f[k]
  }

  function WithText(f: Fields, text: Option<Json>): Fields {
    if text.Some? then f["#text" := text.value] else f
  }

  lemma AttrPartInsert(f: Fields, key: string, v: Json)
    requires key !in f
    ensures AttrPart(f[key := v]) == if IsAttrKey(key) then AttrPart(f)[key := v] else AttrPart(f)
  {
  }

  lemma ChildPartInsert(f: Fields, key: string, v: Json)
    requires key !in f
    ensures ChildPart(f[key := v]) == if IsChildKey(key) then ChildPart(f)[key := v] else ChildPart(f)
  {
  }

  lemma Override(a: Fields, b: Fields, key: string, v: Json)
    requires key !in b
    ensures a + b[key := v] == a[key := v] + b
  {
  }

  lemma PartsMakeWhole(f: Fields)
    ensures WithText(AttrPart(f), if "#text" in f then Some(f["#text"]) else None) + ChildPart(f) == f
  {
  }

  lemma {:induction false} InsertFirst(fields: Fields, c: Child, rest: seq<Child>)
    ensures InsertAll(fields, [c] + rest) == InsertAll(fields[c.name := c.value], rest)
  {
    assert ([c] + rest)[1..] == rest;
  }

  lemma {:induction false} InsertAttrs(fields: Fields, members: seq<DocMember>, compact: Doc -> string)
    requires DistinctKeys(members)
    ensures InsertAll(fields, AttrFields(members, compact)) == fields + AttrPart(FieldsBack(members, compact))
    decreases |members|
  {
    if members == [] {
      assert fields + AttrPart(map[]) == fields;
    } else {
      var m, rest := members[0], FieldsBack(members[1..], compact);
      HeadIsNew(members, compact);
      var own := FieldBack(m, compact);
      if own.Some? {
        AttrPartInsert(rest, m.key, own.value);
      }
      if IsAttrKey(m.key) {
        InsertFirst(fields, Child(m.key, own.value), AttrFields(members[1..], compact));
        InsertAttrs(fields[m.key := own.value], members[1..], compact);
        Override(fields, AttrPart(rest), m.key, own.value);
      } else {
        InsertAttrs(fields, members[1..], compact);
      }
    }
  }

  lemma {:induction false} NoTextKey(members: seq<DocMember>)
    requires forall i :: 0 <= i < |members| ==> members[i].key != "#text"
    ensures TextOf(members).None?
  {
    if members != [] {
      NoTextKey(members[1..]);
    }
  }

  lemma {:induction false} FirstBack(members: seq<DocMember>, compact: Doc -> string)
    requires members != []
    ensures var rest, own := FieldsBack(members[1..], compact), FieldBack(members[0], compact);
      FieldsBack(members, compact) == if own.Some? then rest[members[0].key := own.value] else rest
  {
  }

  lemma {:induction false} TextValue(members: seq<DocMember>, compact: Doc -> string)
    requires DistinctKeys(members)
    ensures var back, text := FieldsBack(members, compact), InlineBack(TextOf(members));
      if text.Some? then "#text" in back && back["#text"] == Str(text.value) else "#text" !in back
  {
    if members != [] {
      hide TextBack, Grouped, AttrText, Elements, Back, DistinctKeys, FieldsBack;
      HeadIsNew(members, compact);
      FirstBack(members, compact);
      if IsTextKey(members[0].key) {
        DistinctTail(members);
        NoTextKey(members[1..]);
      } else {
        TextValue(members[1..], compact);
      }
    }
  }

  /** Elements of one name, none of them an array. */
  predicate AreNamed(name: string, read: seq<Child>) {
    forall i :: 0 <= i < |read| ==> read[i].name == name && !read[i].value.Arr?
  }

  lemma {:induction false} ElementsAreNamed(name: string, v: Doc, compact: Doc -> string)
    ensures AreNamed(name, Elements(name, v, compact))
    decreases v, 1
  {
    if v.DocArr? {
      ItemsAreNamed(name, v.items, compact);
    }
  }

  lemma {:induction false} ItemsAreNamed(name: string, items: seq<Doc>, compact: Doc -> string)
    ensures AreNamed(name, ElementsOf(name, items, compact))
    decreases items, 0
  {
    if items != [] {
      ElementsAreNamed(name, items[0], compact);
      ItemsAreNamed(name, items[1..], compact);
    }
  }

  lemma {:induction false} AddMore(fields: Fields, name: string, read: seq<Child>, had: seq<Json>)
    requires AreNamed(name, read)
    ensures AddChildren(fields[name := Arr(had)], read) == fields[name := Arr(had + ValuesOf(read))]
    decreases |read|
  {
    if read == [] {
      assert had + ValuesOf(read) == had;
    } else {
      var v := read[0].value;
      AddMore(fields, name, read[1..], had + [v]);
      assert fields[name := Arr(had)][name := Arr(had + [v])] == fields[name := Arr(had + [v])];
      assert ValuesOf(read) == [v] + ValuesOf(read[1..]);
      AppendAssociates(had, [v], ValuesOf(read[1..]));
    }
  }

  lemma AddSecond(fields: Fields, name: string, first: Json, second: Json)
    requires name !in fields && !first.Arr?
    ensures AddChild(AddChild(fields, Child(name, first)), Child(name, second)) == fields[name := Arr([first, second])]
  {
    assert fields[name := first][name := Arr([first, second])] == fields[name := Arr([first, second])];
  }

  /** Siblings of a new name become what they are grouped to. */
  lemma {:induction false} AddGrouped(fields: Fields, name: string, read: seq<Child>)
    requires name !in fields && AreNamed(name, read)
    ensures AddChildren(fields, read) ==
      match Grouped(read)
      case Some(v) => fields[name := v]
      case None => fields
  {
    if |read| == 1 {
      assert read == [Child(name, read[0].value)];
      assert read[1..] == [];
    } else if |read| > 1 {
      var first, second, more := read[0].value, read[1].value, read[1..][1..];
      assert read[0] == Child(name, first) && read[1..][0] == Child(name, second);
      AddSecond(fields, name, first, second);
      assert AreNamed(name, more);
      AddMore(fields, name, more, [first, second]);
      assert ValuesOf(read) == [first, second] + ValuesOf(more);
    }
  }

  lemma {:induction false} AddAppend(fields: Fields, a: seq<Child>, b: seq<Child>)
    ensures AddChildren(fields, a + b) == AddChildren(AddChildren(fields, a), b)
    decreases |a|
  {
    if a == [] {
      assert a + b == b;
    } else {
      assert (a + b)[0] == a[0] && (a + b)[1..] == a[1..] + b;
      AddAppend(AddChild(fields, a[0]), a[1..], b);
    }
  }

  lemma {:induction false} AddExpanded(fields: Fields, members: seq<DocMember>, compact: Doc -> string)
    requires DistinctKeys(members)
    requires forall i :: 0 <= i < |members| && IsChild(members[i]) ==> members[i].key !in fields
    ensures AddChildren(fields, Expand(members, compact)) == fields + ChildPart(FieldsBack(members, compact))
    decreases |members|
  {
    if members == [] {
      assert fields + ChildPart(map[]) == fields;
    } else {
      var m, rest, own := members[0], FieldsBack(members[1..], compact), FieldBack(members[0], compact);
      HeadIsNew(members, compact);
      DistinctTail(members);
      if own.Some? {
        ChildPartInsert(rest, m.key, own.value);
      }
      if IsChild(m) {
        ElementsAreNamed(m.key, m.value, compact);
        AddAppend(fields, Elements(m.key, m.value, compact), Expand(members[1..], compact));
        AddGrouped(fields, m.key, Elements(m.key, m.value, compact));
        if own.Some? {
          Override(fields, ChildPart(rest), m.key, own.value);
          AddExpanded(fields[m.key := own.value], members[1..], compact);
        } else {
          AddExpanded(fields, members[1..], compact);
        }
      } else {
        AddExpanded(fields, members[1..], compact);
      }
    }
  }

  /** An object with attributes or elements is read as its fields. */
  lemma {:induction false} ObjectBack(members: seq<DocMember>, compact: Doc -> string)
    requires DistinctKeys(members)
    requires AttrFields(members, compact) != [] || Expand(members, compact) != []
    ensures Back(DocObj(members), compact) == Obj(FieldsBack(members, compact))
  {
    hide AttrFields, Expand, FieldsBack, TextOf, InlineBack, DistinctKeys, AttrPart, ChildPart;
    var whole, text := FieldsBack(members, compact), InlineBack(TextOf(members));
    TextValue(members, compact);
    InsertAttrs(map[], members, compact);
    assert map[] + AttrPart(whole) == AttrPart(whole);
    var start := WithText(AttrPart(whole), if text.Some? then Some(Str(text.value)) else None);
    NoChildAtStart(whole, if text.Some? then Some(Str(text.value)) else None);
    AddExpanded(start, members, compact);
    PartsMakeWhole(whole);
  }

  lemma NoChildAtStart(f: Fields, text: Option<Json>)
    ensures forall k :: k in WithText(AttrPart(f), text) ==> !IsChildKey(k)
  {
  }

  // -- Which values come back ----------------------------------------------

  lemma TextBackSame(s: string)
    ensures TextBack(s) == Some(s) <==> IsTrimmed(s, Markup)
  {
    TrimIsTrimmed(s);
    if IsTrimmed(s, Markup) {
      TrimPlain(s);
    }
  }

  /** A member that is read back as it was. */
  predicate IsKept(m: DocMember, compact: Doc -> string) {
    FieldBack(m, compact) == Some(Meaning(m.value))
  }

  predicate AllKept(members: seq<DocMember>, compact: Doc -> string) {
    members == [] || (IsKept(members[0], compact) && AllKept(members[1..], compact))
  }

  lemma SameInsert(a: Fields, b: Fields, key: string, v: Option<Json>, w: Json)
    requires key !in a && key !in b
    ensures (if v.Some? then a[key := v.value] else a) == b[key := w] <==> a == b && v == Some(w)
  {
    var left := if v.Some? then a[key := v.value] else a;
    if left == b[key := w] {
      assert key in left && left[key] == w;
      assert a == left - {key} && b == b[key := w] - {key};
    }
  }

  /** The fields come back exactly when each does. */
  lemma {:induction false} FieldsIffKept(members: seq<DocMember>, compact: Doc -> string)
    requires DistinctKeys(members)
    ensures FieldsBack(members, compact) == FieldsOf(members) <==> AllKept(members, compact)
  {
    if members != [] {
      HeadIsNew(members, compact);
      FieldsIffKept(members[1..], compact);
      SameInsert(FieldsBack(members[1..], compact), FieldsOf(members[1..]), members[0].key,
                 FieldBack(members[0], compact), Meaning(members[0].value));
    }
  }

  /** The part of the normal form that is about one member. */
  predicate IsNormalMember(m: DocMember) {
    if IsAttrKey(m.key) then m.value.DocStr?
    else if IsTextKey(m.key) then m.value.DocStr? && IsTrimmed(m.value.s, Markup)
    else if m.value.DocArr? then |m.value.items| >= 2 && AllNormal(m.value.items)
    else IsNormal(m.value)
  }

  lemma {:induction false} NormalMembers(members: seq<DocMember>, alone: bool)
    ensures AreNormal(members, alone) <==>
      forall i :: 0 <= i < |members| ==> IsNormalMember(members[i]) && (IsTextKey(members[i].key) ==> !alone)
    decreases members
  {
    if members != [] {
      NormalMembers(members[1..], alone);
      assert forall i :: 1 <= i < |members| ==> members[i] == members[1..][i - 1];
    }
  }

  /** A value that is not an array comes back exactly when it is normal. */
  lemma {:induction false} BackIffNormal(v: Doc, compact: Doc -> string)
    requires !v.DocArr? && Sound(v, compact)
    ensures Back(v, compact) == Meaning(v) <==> IsNormal(v)
    decreases v, 2
  {
    match v
    case DocStr(s) => TextBackSame(s);
    case DocObj(members) => ObjectIffNormal(members, compact);
    case _ =>
  }

  lemma {:induction false} KeptIffNormal(m: DocMember, compact: Doc -> string)
    requires Sound(m.value, compact)
    ensures IsKept(m, compact) <==> IsNormalMember(m)
    decreases m, 3
  {
    if IsChild(m) {
      assert m.value.DocArr? ==> Meaning(m.value) == Arr(Meanings(m.value.items));
      hide Meaning, Grouped, Back, IsNormal, AllNormal, Elements, ElementsOf, Meanings;
      GroupedElements(m.key, m.value, compact);
      if m.value.DocArr? {
        ArrayIffNormal(m.key, m.value.items, compact);
      } else {
        BackIffNormal(m.value, compact);
      }
    } else {
      AttrOrTextKept(m, compact);
    }
  }

  lemma AttrOrTextKept(m: DocMember, compact: Doc -> string)
    requires !IsChild(m)
    ensures IsKept(m, compact) <==> IsNormalMember(m)
  {
    hide TextBack, IsTrimmed, Elements, Grouped;
    if IsTextKey(m.key) && m.value.DocStr? {
      TextBackSame(m.value.s);
    }
  }

  lemma {:induction false} GroupedElements(name: string, v: Doc, compact: Doc -> string)
    ensures Grouped(Elements(name, v, compact)) ==
      if v.DocArr? then Grouped(ElementsOf(name, v.items, compact)) else Some(Back(v, compact))
  {
  }

  lemma {:induction false} AllKeptIffNormal(members: seq<DocMember>, compact: Doc -> string)
    requires MembersSound(members, compact)
    ensures AllKept(members, compact) <==> forall i :: 0 <= i < |members| ==> IsNormalMember(members[i])
    decreases members, 0
  {
    if members != [] {
      KeptIffNormal(members[0], compact);
      AllKeptIffNormal(members[1..], compact);
      assert forall i :: 1 <= i < |members| ==> members[i] == members[1..][i - 1];
    }
  }

  /** An array comes back exactly when it has two items at least, all normal. */
  lemma {:induction false} ArrayIffNormal(name: string, items: seq<Doc>, compact: Doc -> string)
    requires AllSound(items, compact)
    ensures Grouped(ElementsOf(name, items, compact)) == Some(Arr(Meanings(items))) <==>
      |items| >= 2 && AllNormal(items)
    decreases items, 1
  {
    var read := ElementsOf(name, items, compact);
    ItemsAreNamed(name, items, compact);
    ItemsIffNormal(name, items, compact);
    if |read| >= 2 && AllNormal(items) {
      assert |ValuesOf(read)| == |Meanings(items)|;
    }
  }

  /** The items are read one by one as they were, exactly when all are normal: an array among
      them would be spread out. */
  lemma {:induction false} ItemsIffNormal(name: string, items: seq<Doc>, compact: Doc -> string)
    requires AllSound(items, compact)
    ensures ValuesOf(ElementsOf(name, items, compact)) == Meanings(items) <==> AllNormal(items)
    decreases items, 0
  {
    if items != [] {
      hide Back, Meaning, IsNormal;
      var first, later := items[0], ElementsOf(name, items[1..], compact);
      ItemsIffNormal(name, items[1..], compact);
      ItemsAreNamed(name, items, compact);
      if first.DocArr? {
        ArrayIsSpread(items, ElementsOf(name, items, compact), name);
        NormalIsNoArray(first);
      } else {
        BackIffNormal(first, compact);
        NormalIsNoArray(first);
        ConsSame(Back(first, compact), ValuesOf(later), Meaning(first), Meanings(items[1..]));
        assert ValuesOf([Child(name, Back(first, compact))] + later) == [Back(first, compact)] + ValuesOf(later);
      }
    }
  }

  lemma {:induction false} NormalIsNoArray(v: Doc)
    ensures IsNormal(v) ==> !v.DocArr?
  {
  }

  lemma {:induction false} ArrayIsSpread(items: seq<Doc>, read: seq<Child>, name: string)
    requires items != [] && items[0].DocArr? && AreNamed(name, read)
    ensures ValuesOf(read) != Meanings(items)
  {
    assert Meanings(items)[0] == Meaning(items[0]);
    if read != [] {
      assert ValuesOf(read)[0] == read[0].value;
    }
  }

  lemma ConsSame<T>(x: T, xs: seq<T>, y: T, ys: seq<T>)
    ensures [x] + xs == [y] + ys <==> x == y && xs == ys
  {
    if [x] + xs == [y] + ys {
      assert ([x] + xs)[0] == x && ([x] + xs)[1..] == xs && ([y] + ys)[1..] == ys;
    }
  }

  lemma {:induction false} NothingRead(members: seq<DocMember>, compact: Doc -> string)
    requires AttrFields(members, compact) == [] && Expand(members, compact) == []
    ensures forall i :: 0 <= i < |members| && IsNormalMember(members[i]) ==> IsTextKey(members[i].key)
    decreases members
  {
    if members != [] {
      NothingRead(members[1..], compact);
      var m := members[0];
      if IsChild(m) && m.value.DocArr? && |m.value.items| >= 2 && AllNormal(m.value.items) {
        NormalItemIsRead(m.key, m.value.items, compact);
      }
      assert forall i :: 1 <= i < |members| ==> members[i] == members[1..][i - 1];
    }
  }

  lemma {:induction false} NormalItemIsRead(name: string, items: seq<Doc>, compact: Doc -> string)
    requires items != [] && AllNormal(items)
    ensures ElementsOf(name, items, compact) != []
  {
    assert !items[0].DocArr?;
  }

  lemma {:induction false} ObjectIffNormal(members: seq<DocMember>, compact: Doc -> string)
    requires DistinctKeys(members) && MembersSound(members, compact)
    ensures Back(DocObj(members), compact) == Meaning(DocObj(members)) <==> AreNormal(members, |members| == 1)
    decreases members, 1
  {
    NormalMembers(members, |members| == 1);
    if AttrFields(members, compact) == [] && Expand(members, compact) == [] {
      EmptyIffNormal(members, compact);
    } else {
      ObjectBack(members, compact);
      FieldsIffKept(members, compact);
      AllKeptIffNormal(members, compact);
      NotTextAlone(members, compact);
    }
  }

  lemma {:induction false} NotTextAlone(members: seq<DocMember>, compact: Doc -> string)
    requires AttrFields(members, compact) != [] || Expand(members, compact) != []
    ensures |members| == 1 ==> !IsTextKey(members[0].key)
  {
    if |members| == 1 {
      assert members[1..] == [];
      assert AttrFields([], compact) == [] && Expand([], compact) == [];
      assert [] + AttrFields([], compact) == [];
    }
  }

  /** An object of which only text is read, or nothing. */
  lemma {:induction false} EmptyIffNormal(members: seq<DocMember>, compact: Doc -> string)
    requires DistinctKeys(members)
    requires AttrFields(members, compact) == [] && Expand(members, compact) == []
    ensures Back(DocObj(members), compact) == Meaning(DocObj(members)) <==> AreNormal(members, |members| == 1)
  {
    NormalMembers(members, |members| == 1);
    NothingRead(members, compact);
    if members != [] {
      assert members[0].key in FieldsOf(members);
      if |members| > 1 {
        assert members[0].key != members[1].key;
      }
    }
  }

  lemma {:induction false} NormalIsSound(v: Doc, compact: Doc -> string)
    requires IsNormal(v)
    ensures Sound(v, compact)
    decreases v, 1
  {
    if v.DocObj? {
      NormalMembersAreSound(v.members, |v.members| == 1, compact);
    }
  }

  lemma {:induction false} NormalMembersAreSound(members: seq<DocMember>, alone: bool, compact: Doc -> string)
    requires AreNormal(members, alone)
    ensures MembersSound(members, compact)
    decreases members, 0
  {
    if members != [] {
      NormalMembersAreSound(members[1..], alone, compact);
      var m := members[0];
      if IsChild(m) && m.value.DocArr? {
        NormalItemsAreSound(m.value.items, compact);
      } else if IsChild(m) {
        NormalIsSound(m.value, compact);
      }
    }
  }

  lemma {:induction false} NormalItemsAreSound(items: seq<Doc>, compact: Doc -> string)
    requires AllNormal(items)
    ensures AllSound(items, compact)
    decreases items, 0
  {
    if items != [] {
      NormalIsSound(items[0], compact);
      NormalItemsAreSound(items[1..], compact);
    }
  }

  // -- Documents -----------------------------------------------------------

  lemma {:induction false} LexProlog(element: seq<Piece>)
    ensures Lex([Decl, Chars("\n")] + element, "") == [TokenDecl] + Lex(element, "\n")
  {
    var pieces := [Decl, Chars("\n")] + element;
    assert pieces[1..] == [Chars("\n")] + element;
    LexChars("\n", element, "");
    assert "" + "\n" == "\n";
    assert TextTokens("") == [];
    assert [] + [TokenDecl] == [TokenDecl];
  }

  /** The root element read back; a self-closing one is refused. */
  lemma {:induction false} RootReads(name: string, root: Doc, compact: Doc -> string)
    requires (root.DocStr? || root.DocObj?) && Sound(root, compact)
    ensures var r := ParseDocument(Lex(Element(name, root, 0, compact), "\n"));
      if IsSelfClosing(root) then r.Err? else r == Ok(Obj(map[name := Back(root, compact)]))
  {
    ElementShape(name, root, 0, compact, []);
    assert Element(name, root, 0, compact) + [] == Element(name, root, 0, compact);
    var attrs := OpenAttrs(root, compact);
    if IsSelfClosing(root) {
      RootTag(SelfClose(name, attrs), [Chars("\n")] + []);
    } else {
      var body := Body(name, root, 0, compact) + [];
      RootTag(Open(name, attrs), body);
      BodyReads(name, root, 0, compact, []);
      RootElement(name, attrs, Lex(body, ""), Back(root, compact), Lex([], "\n"));
    }
  }

  lemma {:induction false} RootTag(tag: Piece, after: seq<Piece>)
    requires !tag.Chars? && !tag.Decl?
    ensures Lex([Chars(Indent(0))] + ([tag] + after), "\n") == [TokenOf(tag)] + Lex(after, "")
  {
    hide Lex;
    LineFeedIsLayout();
    LexChars("", [tag] + after, "\n");
    assert "\n" + "" == "\n";
    LexTag(tag, after, "\n");
    assert [] + ([TokenOf(tag)] + Lex(after, "")) == [TokenOf(tag)] + Lex(after, "");
  }

  lemma {:induction false} RootElement(name: string, attrs: seq<Attr>, after: seq<Token>, v: Json, rest: seq<Token>)
    requires ParseElement(name, attrs, after) == Ok((v, rest))
    ensures ParseDocument([TokenStart(name, attrs)] + after) == Ok(Obj(map[name := v]))
  {
    assert ([TokenStart(name, attrs)] + after)[1..] == after;
  }

  /** Whatever is read, the root element is not an array. */
  lemma {:induction false} RootIsNoArray(tokens: seq<Token>, name: string, items: seq<Json>)
    ensures ParseDocument(tokens) != Ok(Obj(map[name := Arr(items)]))
    decreases |tokens|
  {
    if tokens != [] {
      match tokens[0]
      case TokenStart(tag, raw) =>
        var element := ParseElement(tag, raw, tokens[1..]);
        if element.Ok? {
          assert !element.value.0.Arr?;
          OneField(tag, element.value.0, name, Arr(items));
        }
      case TokenDecl => RootIsNoArray(tokens[1..], name, items);
      case TokenComment => RootIsNoArray(tokens[1..], name, items);
      case _ =>
    }
  }

  lemma OneField(a: string, v: Json, b: string, w: Json)
    ensures map[a := v] == map[b := w] <==> a == b && v == w
  {
    if map[a := v] == map[b := w] {
      assert a in map[b := w] && map[b := w][a] == v;
    }
  }

  /** The document of a value with one root element. */
  lemma {:induction false} DocumentReads(name: string, root: Doc, compact: Doc -> string)
    requires Sound(root, compact)
    ensures var tokens := Lex([Decl, Chars("\n")] + Element(name, root, 0, compact), "");
      ParseDocument(tokens) == Ok(Obj(map[name := Meaning(root)])) <==> IsNormal(root) && !IsSelfClosing(root)
  {
    hide Lex, Element, Back, Meaning, IsNormal, ParseDocument, IsSelfClosing, Sound, Like;
    var element := Element(name, root, 0, compact);
    PrologReads(element);
    if root.DocArr? {
      ArrayRoot(name, root, Lex(element, "\n"));
    } else {
      RootLike(name, root, compact);
      BackIffNormal(root, compact);
      OneField(name, Back(root, compact), name, Meaning(root));
      LikeCloses(root, compact);
    }
  }

  lemma {:induction false} PrologReads(element: seq<Piece>)
    ensures ParseDocument(Lex([Decl, Chars("\n")] + element, "")) == ParseDocument(Lex(element, "\n"))
  {
    LexProlog(element);
    assert ([TokenDecl] + Lex(element, "\n"))[1..] == Lex(element, "\n");
  }

  lemma {:induction false} ArrayRoot(name: string, root: Doc, tokens: seq<Token>)
    requires root.DocArr?
    ensures ParseDocument(tokens) != Ok(Obj(map[name := Meaning(root)])) && !IsNormal(root)
  {
    RootIsNoArray(tokens, name, Meanings(root.items));
  }

  lemma {:induction false} LikeCloses(root: Doc, compact: Doc -> string)
    requires !root.DocArr?
    ensures IsNormal(root) ==> IsSelfClosing(Like(root, compact)) == IsSelfClosing(root)
  {
  }

  lemma {:induction false} RootLike(name: string, root: Doc, compact: Doc -> string)
    requires !root.DocArr? && Sound(root, compact)
    ensures var r := ParseDocument(Lex(Element(name, root, 0, compact), "\n"));
      if IsSelfClosing(Like(root, compact)) then r.Err? else r == Ok(Obj(map[name := Back(root, compact)]))
  {
    PrintsAlike(name, root, 0, compact);
    LikeIsSound(root, compact);
    RootReads(name, Like(root, compact), compact);
  }

  lemma {:induction false} LikeIsSound(v: Doc, compact: Doc -> string)
    requires !v.DocArr? && Sound(v, compact)
    ensures Sound(Like(v, compact), compact)
  {
  }

  /** Parsing the printed document returns an equal value exactly when the document is in
      normal form. */
  lemma {:induction false} XmlRoundTrips(value: Doc, compact: Doc -> string)
    requires Sound(value, compact)
    ensures
      ToXml(value, compact).Ok? && ParseDocument(Lex(ToXml(value, compact).value, "")) == Ok(Meaning(value)) <==>
      IsNormalDocument(value)
  {
    if ToXml(value, compact).Ok? {
      var name, root := value.members[0].key, value.members[0].value;
      DocumentReads(name, root, compact);
      OneMember(value);
    }
  }

  lemma {:induction false} OneMember(value: Doc)
    requires value.DocObj? && |value.members| == 1
    ensures Meaning(value) == Obj(map[value.members[0].key := Meaning(value.members[0].value)])
  {
    assert value.members[1..] == [];
  }

  lemma {:induction false} NormalDocumentIsSound(value: Doc, compact: Doc -> string)
    requires IsNormalDocument(value)
    ensures Sound(value, compact)
  {
    NormalIsSound(value.members[0].value, compact);
    assert value.members[1..] == [];
  }

  // -- Why the normal form is needed ---------------------------------------

  /** Outside the normal form different values print alike: a singleton array and its item,
      an empty array and nothing, null and an empty object, a boolean or number and its
      text. */
  lemma {:induction false} PrintingMerges(name: string, v: Doc, n: Number, b: bool, depth: nat, compact: Doc -> string)
    ensures Element(name, DocArr([v]), depth, compact) == Element(name, v, depth, compact)
    ensures Element(name, DocArr([]), depth, compact) == []
    ensures Element(name, DocNull, depth, compact) == Element(name, DocObj([]), depth, compact)
    ensures Element(name, DocBool(b), depth, compact) ==
            Element(name, DocStr(if b then "true" else "false"), depth, compact)
    ensures EscapeText(compact(DocNumber(n))) == compact(DocNumber(n)) ==>
      Element(name, DocNumber(n), depth, compact) == Element(name, DocStr(compact(DocNumber(n))), depth, compact)
  {
    hide EscapeText;
    assert [v][0] == v && [v][1..] == [];
    assert Repeated(name, [v], depth, compact) == Element(name, v, depth, compact) + [];
    WordIsPlain(b);
    EscapeUntouched(if b then "true" else "false");
  }
}
