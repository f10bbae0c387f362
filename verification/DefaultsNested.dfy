/** What the pointer-driven passes of `default_apply_core` do to nested data, said on trees.

    The code addresses every object from the root by a pointer, one object after the other.
    Here the same result is given by functions that treat all fields of an object at once. */
module DefaultsNested {
  import opened Prelude
  import opened Schema
  import opened Defaults
  import opened DefaultsOneLevel

  // -- Values below a path -------------------------------------------------

  lemma {:induction false} AtChild(d: Json, path: seq<string>, key: string)
    ensures At(d, path + [key]) == if At(d, path).Some? then At(d, path).value.Get(key) else None
    decreases path
  {
    if path == [] {
      assert path + [key] == [key] && [key][1..] == [];
    } else {
      assert (path + [key])[0] == path[0] && (path + [key])[1..] == path[1..] + [key];
      if d.Get(path[0]).Some? {
        AtChild(d.Get(path[0]).value, path[1..], key);
      }
    }
  }

  /** `b` is `a` with the value at `path`, if there is one, replaced by `v`. */
  predicate Replaces(a: Json, path: seq<string>, v: Json, b: Json) {
    b == if At(a, path).Some? then Put(a, path, v) else a
  }

  lemma {:induction false} ReplacesTwice(a: Json, path: seq<string>, v: Json, b: Json, w: Json, c: Json)
    requires Replaces(a, path, v, b) && Replaces(b, path, w, c)
    ensures Replaces(a, path, w, c)
    ensures At(a, path).Some? ==> At(b, path) == Some(v)
  {
    if At(a, path).Some? {
      PutAt(a, path, v, w);
    }
  }

  /** Replacing a field of an object replaces the object. */
  lemma ReplacesChild(a: Json, path: seq<string>, key: string, v: Json, b: Json)
    requires Replaces(a, path + [key], v, b)
    ensures ObjectAt(a, path).Some? && key in ObjectAt(a, path).value ==>
      Replaces(a, path, Obj(ObjectAt(a, path).value[key := v]), b)
    ensures ObjectAt(a, path).None? || key !in ObjectAt(a, path).value ==> b == a
  {
    AtChild(a, path, key);
    if ObjectAt(a, path).Some? && key in ObjectAt(a, path).value {
      PutChild(a, path, key, v);
    }
  }

  lemma {:induction false} ReplacesNothing(a: Json, path: seq<string>)
    ensures At(a, path).Some? ==> Replaces(a, path, At(a, path).value, a)
  {
    if At(a, path).Some? {
      PutSame(a, path);
    }
  }

  // -- Members of a clause -------------------------------------------------

  /** No name occurs twice among the keys of one object of a clause. */
  predicate DistinctMembers(members: seq<Member>)
    decreases members
  {
    members == [] ||
    (&& FindMember(members[1..], members[0].name).None? && DistinctMembers(members[1..])
     && (Nested(members[0]).Some? ==> DistinctMembers(members[0].clause.properties.list)))
  }

  function Nested(m: Member): Option<seq<Member>> {
    if m.clause.Clause? && m.clause.properties.Members? then Some(m.clause.properties.list) else None
  }

  // -- Stripping across sections -------------------------------------------

  /** The value without the fields the members mark `false`, at every depth. */
  function Without(members: seq<Member>, d: Json): Json
    decreases d
  {
    if !d.Obj? then d
    else
      Obj(map k | k in d.fields && FindMember(members, k) != Some(Flag(false)) ::
        match FindMember(members, k)
        case Some(Clause(_, Members(list), _, _)) => Without(list, d.fields[k])
        case _ => d.fields[k])
  }

  /** The effect of one member. */
  function WithoutOne(m: Member, d: Json): Json {
    if !d.Obj? then d
    else if m.clause == Flag(false) then Obj(d.fields - {m.name})
    else if Nested(m).Some? && m.name in d.fields then
      Obj(d.fields[m.name := Without(Nested(m).value, d.fields[m.name])])
    else d
  }

  lemma {:induction false} WithoutNone(d: Json)
    ensures Without([], d) == d
  {
    if d.Obj? {
      assert Without([], d).fields == d.fields;
    }
  }

  lemma {:induction false} WithoutFirst(members: seq<Member>, d: Json)
    requires members != [] && DistinctMembers(members)
    ensures Without(members, d) == Without(members[1..], WithoutOne(members[0], d))
  {
    if d.Obj? {
      var left, right := Without(members, d).fields, Without(members[1..], WithoutOne(members[0], d)).fields;
      forall k
        ensures Agree(left, right, k)
      {
      }
      AgreeEverywhere(left, right);
    }
  }

  lemma {:induction false} StripAtOne(m: Member, path: seq<string>, g: Gate)
    requires !m.clause.Clause? && At(g.data, path).Some?
    ensures Replaces(g.data, path, WithoutOne(m, At(g.data, path).value), StripAt([m], path, g).data)
  {
    ReplacesNothing(g.data, path);
    if ObjectAt(g.data, path).Some? {
      var fields := ObjectAt(g.data, path).value;
      assert [m][1..] == [];
      assert Strip([m], fields, path).fields == StripOne(m, fields, path).fields;
      if m.name !in fields {
        assert fields - {m.name} == fields;
      }
    }
  }

  /** Stripping through pointers removes exactly the fields marked `false` below the path. */
  lemma {:induction false} StripNestedIsWithout(members: seq<Member>, path: seq<string>, g: Gate)
    requires DistinctMembers(members)
    ensures At(g.data, path).None? ==> StripNested(members, path, g).data == g.data
    ensures At(g.data, path).Some? ==>
      Replaces(g.data, path, Without(members, At(g.data, path).value), StripNested(members, path, g).data)
    decreases members
  {
    if members == [] {
      ReplacesNothing(g.data, path);
      if At(g.data, path).Some? {
        WithoutNone(At(g.data, path).value);
      }
    } else {
      StripMember(members[0], path, g);
      var next := StripNestedMember(members[0], path, g);
      if At(g.data, path).Some? {
        var d := At(g.data, path).value;
        PutAt(g.data, path, WithoutOne(members[0], d), d);
        StripNestedIsWithout(members[1..], path, next);
        WithoutFirst(members, d);
        ReplacesTwice(g.data, path, WithoutOne(members[0], d), next.data,
                      Without(members, d), StripNested(members[1..], path, next).data);
      } else {
        StripNestedIsWithout(members[1..], path, next);
      }
    }
  }

  lemma {:induction false} StripMember(m: Member, path: seq<string>, g: Gate)
    requires Nested(m).Some? ==> DistinctMembers(m.clause.properties.list)
    ensures At(g.data, path).None? ==> StripNestedMember(m, path, g).data == g.data
    ensures At(g.data, path).Some? ==>
      Replaces(g.data, path, WithoutOne(m, At(g.data, path).value), StripNestedMember(m, path, g).data)
    decreases m
  {
    ReplacesNothing(g.data, path);
    if !m.clause.Clause? {
      if At(g.data, path).Some? {
        StripAtOne(m, path, g);
      }
    } else if m.clause.properties.Members? {
      var list, child := m.clause.properties.list, path + [m.name];
      StripNestedIsWithout(list, child, g);
      AtChild(g.data, path, m.name);
      if At(g.data, child).Some? {
        ReplacesChild(g.data, path, m.name, Without(list, At(g.data, child).value), StripNested(list, child, g).data);
      }
    }
  }

  /** An `else` without flat flags strips from the root of the data. */
  lemma CrossElseIsWithout(clause: Clause, path: seq<string>, g: Gate)
    requires clause.Clause? && clause.properties.Members?
    requires !IsFlat(clause.properties.list) && DistinctMembers(clause.properties.list)
    ensures ElseStrip(clause, path, g).data == Without(clause.properties.list, g.data)
  {
    StripNestedIsWithout(clause.properties.list, [], g);
  }

  // -- Injecting across sections -------------------------------------------

  /** The properties that a schema level has for the object under `key`; an empty key does
      not lead to another level. */
  function PropertiesUnder(props: Properties, key: string): Properties {
    if key == "" || props.NoProperties? then props
    else
      match FindProperty(props.list, key)
      case Some(child) => child.properties
      case None => NoProperties
  }

  lemma {:induction false} ResolveUnder(s: Schema, path: seq<string>, key: string)
    ensures ResolveSchemaProperties(s, path + [key]) == PropertiesUnder(ResolveSchemaProperties(s, path), key)
    decreases |path|
  {
    if path == [] {
      assert path + [key] == [key] && [key][1..] == [];
    } else {
      assert (path + [key])[0] == path[0] && (path + [key])[1..] == path[1..] + [key];
      if path[0] == "" {
        ResolveUnder(s, path[1..], key);
      } else if s.properties.Properties? && FindProperty(s.properties.list, path[0]).Some? {
        ResolveUnder(FindProperty(s.properties.list, path[0]).value, path[1..], key);
      }
    }
  }

  /** One object with the missing defaults of its required fields. */
  function Injected(required: seq<Required>, props: Properties, d: Json): Json {
    if d.Obj? && props.Properties? then Obj(Inject(required, props.list, d.fields, []).fields) else d
  }

  /** The value with the defaults that the members of a clause require, at every depth. */
  function With(members: seq<Member>, props: Properties, d: Json): Json
    decreases d
  {
    if !d.Obj? then d
    else
      Obj(map k | k in d.fields ::
        match FindMember(members, k)
        case Some(Clause(Some(required), _, _, _)) => Injected(required, PropertiesUnder(props, k), d.fields[k])
        case Some(Clause(None, Members(list), _, _)) => With(list, PropertiesUnder(props, k), d.fields[k])
        case _ => d.fields[k])
  }

  /** The effect of one member. */
  function WithOne(m: Member, props: Properties, d: Json): Json {
    if !d.Obj? || m.name !in d.fields || !m.clause.Clause? then d
    else
      var child, under := d.fields[m.name], PropertiesUnder(props, m.name);
      if m.clause.required.Some? then Obj(d.fields[m.name := Injected(m.clause.required.value, under, child)])
      else if Nested(m).Some? then Obj(d.fields[m.name := With(Nested(m).value, under, child)])
      else d
  }

  lemma {:induction false} WithNone(props: Properties, d: Json)
    ensures With([], props, d) == d
  {
    if d.Obj? {
      assert With([], props, d).fields == d.fields;
    }
  }

  lemma {:induction false} WithFirst(members: seq<Member>, props: Properties, d: Json)
    requires members != [] && DistinctMembers(members)
    ensures With(members, props, d) == With(members[1..], props, WithOne(members[0], props, d))
  {
    if d.Obj? {
      var left := With(members, props, d).fields;
      var right := With(members[1..], props, WithOne(members[0], props, d)).fields;
      forall k
        ensures Agree(left, right, k)
      {
      }
      AgreeEverywhere(left, right);
    }
  }

  lemma {:induction false} InjectAnywhere(required: seq<Required>, props: seq<Property>, fields: Fields,
                                          path: seq<string>)
    ensures Inject(required, props, fields, path).fields == Inject(required, props, fields, []).fields
    decreases |required|
  {
    if required != [] {
      InjectAnywhere(required[1..], props, InjectOne(required[0], props, fields, path).fields, path);
    }
  }

  lemma {:induction false} InjectAtIs(required: seq<Required>, props: Properties, path: seq<string>, g: Gate)
    ensures At(g.data, path).None? ==> InjectAt(required, props, path, g).data == g.data
    ensures At(g.data, path).Some? ==>
      Replaces(g.data, path, Injected(required, props, At(g.data, path).value), InjectAt(required, props, path, g).data)
  {
    ReplacesNothing(g.data, path);
    if ObjectAt(g.data, path).Some? && props.Properties? {
      InjectAnywhere(required, props.list, ObjectAt(g.data, path).value, path);
    }
  }

  /** Injecting through pointers gives every object below the path that a clause requires
      fields of exactly the missing defaults of the root schema. */
  lemma {:induction false} NestedThenIsWith(members: seq<Member>, root: Schema, path: seq<string>, g: Gate)
    requires DistinctMembers(members)
    ensures At(g.data, path).None? ==> NestedThen(members, root, path, g).data == g.data
    ensures At(g.data, path).Some? ==>
      Replaces(g.data, path, With(members, ResolveSchemaProperties(root, path), At(g.data, path).value),
        NestedThen(members, root, path, g).data)
    decreases members
  {
    var props := ResolveSchemaProperties(root, path);
    if members == [] {
      ReplacesNothing(g.data, path);
      if At(g.data, path).Some? {
        WithNone(props, At(g.data, path).value);
      }
    } else {
      ThenMember(members[0], root, path, g);
      var next := NestedThenMember(members[0], root, path, g);
      if At(g.data, path).Some? {
        var d := At(g.data, path).value;
        PutAt(g.data, path, WithOne(members[0], props, d), d);
        NestedThenIsWith(members[1..], root, path, next);
        WithFirst(members, props, d);
        ReplacesTwice(g.data, path, WithOne(members[0], props, d), next.data,
                      With(members, props, d), NestedThen(members[1..], root, path, next).data);
      } else {
        NestedThenIsWith(members[1..], root, path, next);
      }
    }
  }

  lemma {:induction false} ThenMember(m: Member, root: Schema, path: seq<string>, g: Gate)
    requires Nested(m).Some? ==> DistinctMembers(m.clause.properties.list)
    ensures At(g.data, path).None? ==> NestedThenMember(m, root, path, g).data == g.data
    ensures At(g.data, path).Some? ==>
      Replaces(g.data, path, WithOne(m, ResolveSchemaProperties(root, path), At(g.data, path).value),
        NestedThenMember(m, root, path, g).data)
    decreases m
  {
    ReplacesNothing(g.data, path);
    AtChild(g.data, path, m.name);
    ResolveUnder(root, path, m.name);
    var child, under := path + [m.name], ResolveSchemaProperties(root, path + [m.name]);
    if m.clause.Clause? && m.clause.required.Some? {
      InjectAtIs(m.clause.required.value, under, child, g);
      if At(g.data, child).Some? {
        ReplacesChild(g.data, path, m.name, Injected(m.clause.required.value, under, At(g.data, child).value),
                      InjectAt(m.clause.required.value, under, child, g).data);
      }
    } else if Nested(m).Some? {
      NestedThenIsWith(Nested(m).value, root, child, g);
      if At(g.data, child).Some? {
        ReplacesChild(g.data, path, m.name, With(Nested(m).value, under, At(g.data, child).value),
                      NestedThen(Nested(m).value, root, child, g).data);
      }
    }
  }

  /** A `then` with `properties` works on the whole data with the root schema. */
  lemma CrossThenIsWith(clause: Clause, root: Schema, g: Gate)
    requires clause.Clause? && clause.properties.Members? && DistinctMembers(clause.properties.list)
    ensures CrossThen(clause, root, g).data == With(clause.properties.list, root.properties, g.data)
  {
    NestedThenIsWith(clause.properties.list, root, [], g);
  }

  // -- Levels --------------------------------------------------------------

  /** At every depth entries read and write only fields of their own level. */
  predicate SiblingOnly(s: Schema)
    decreases s, 1
  {
    (forall e :: e in EntriesOf(s) ==> IsSibling(e)) && (s.properties.Properties? ==> SiblingOnlyIn(s.properties.list))
  }

  predicate SiblingOnlyIn(props: seq<Property>)
    decreases props, 0
  {
    props == [] || ((props[0].schema.objectType ==> SiblingOnly(props[0].schema)) && SiblingOnlyIn(props[1..]))
  }

  /** The conditionals of a level applied to its object, then those of its object
      properties to theirs. */
  function Level(s: Schema, d: Json): Json
    decreases s, 1
  {
    if !d.Obj? then d
    else
      var own := EntriesOn(PropertiesOf(s), EntriesOf(s), d.fields);
      Obj(if s.properties.Properties? then Levels(s.properties.list, own) else own)
  }

  function Levels(props: seq<Property>, fields: Fields): Fields
    decreases props, 0
  {
    if props == [] then fields
    else Levels(props[1..], LevelOne(props[0], fields))
  }

  function LevelOne(prop: Property, fields: Fields): Fields
    decreases prop, 2
  {
    if prop.schema.objectType && prop.name in fields
    then fields[prop.name := Level(prop.schema, fields[prop.name])]
    else fields
  }

  lemma EntryAt(root: Schema, local: Schema, e: Entry, path: seq<string>, g: Gate)
    requires IsSibling(e)
    ensures var after := ApplyEntry(root, local, e, path, g).data;
      if ObjectAt(g.data, path).None? then after == g.data
      else Replaces(g.data, path, Obj(EntryOn(PropertiesOf(local), e, ObjectAt(g.data, path).value)), after)
  {
    ReplacesNothing(g.data, path);
    if ObjectAt(g.data, path).Some? && e.ifClause.Some? {
      var fields := ObjectAt(g.data, path).value;
      if MatchesIf(e.ifClause.value, g.data, path) {
        InjectAnywhere(ThenRequired(e), PropertiesOf(local), fields, path);
        NoDefaultsToInject(ThenRequired(e), fields);
      } else {
        StripAnywhere(ElseMembers(e), fields, path);
      }
    }
  }

  lemma {:induction false} StripAnywhere(members: seq<Member>, fields: Fields, path: seq<string>)
    ensures Strip(members, fields, path).fields == Strip(members, fields, []).fields
    decreases |members|
  {
    if members != [] {
      StripAnywhere(members[1..], StripOne(members[0], fields, path).fields, path);
    }
  }

  lemma {:induction false} EntriesAt(root: Schema, local: Schema, es: seq<Entry>, path: seq<string>, g: Gate)
    requires forall e :: e in es ==> IsSibling(e)
    ensures var after := ApplyEntries(root, local, es, path, g).data;
      if ObjectAt(g.data, path).None? then after == g.data
      else Replaces(g.data, path, Obj(EntriesOn(PropertiesOf(local), es, ObjectAt(g.data, path).value)), after)
    decreases |es|
  {
    if es == [] {
      ReplacesNothing(g.data, path);
    } else {
      assert es[0] in es;
      var next := ApplyEntry(root, local, es[0], path, g);
      EntryAt(root, local, es[0], path, g);
      EntriesAt(root, local, es[1..], path, next);
      if ObjectAt(g.data, path).Some? {
        var own := EntryOn(PropertiesOf(local), es[0], ObjectAt(g.data, path).value);
        PutAt(g.data, path, Obj(own), Obj(own));
        ReplacesTwice(g.data, path, Obj(own), next.data, Obj(EntriesOn(PropertiesOf(local), es[1..], own)),
                      ApplyEntries(root, local, es[1..], path, next).data);
      }
    }
  }

  lemma {:induction false} WalkIsLevel(root: Schema, s: Schema, path: seq<string>, g: Gate)
    requires SiblingOnly(s)
    ensures var after := WalkProperties(root, s, path, ProcessAllOf(root, s, path, g)).data;
      if At(g.data, path).None? then after == g.data
      else Replaces(g.data, path, Level(s, At(g.data, path).value), after)
    decreases s, 1
  {
    var next := ProcessAllOf(root, s, path, g);
    EntriesAt(root, s, EntriesOf(s), path, g);
    ReplacesNothing(g.data, path);
    if s.properties.Properties? {
      WalkIsLevels(root, s.properties.list, path, next);
    }
    if ObjectAt(g.data, path).Some? {
      var own := EntriesOn(PropertiesOf(s), EntriesOf(s), ObjectAt(g.data, path).value);
      PutAt(g.data, path, Obj(own), Obj(own));
      if s.properties.Properties? {
        ReplacesTwice(g.data, path, Obj(own), next.data, Obj(Levels(s.properties.list, own)),
                      WalkList(root, s.properties.list, path, next).data);
      }
    }
  }

  lemma {:induction false} WalkIsLevels(root: Schema, props: seq<Property>, path: seq<string>, g: Gate)
    requires SiblingOnlyIn(props)
    ensures var after := WalkList(root, props, path, g).data;
      if ObjectAt(g.data, path).None? then after == g.data
      else Replaces(g.data, path, Obj(Levels(props, ObjectAt(g.data, path).value)), after)
    decreases props, 0
  {
    ReplacesNothing(g.data, path);
    if props != [] {
      var prop := props[0];
      var child := path + [prop.name];
      var next := if prop.schema.objectType
        then WalkProperties(root, prop.schema, child, ProcessAllOf(root, prop.schema, child, g)) else g;
      if prop.schema.objectType {
        WalkIsLevel(root, prop.schema, child, g);
        AtChild(g.data, path, prop.name);
        if At(g.data, child).Some? {
          ReplacesChild(g.data, path, prop.name, Level(prop.schema, At(g.data, child).value), next.data);
        }
      }
      WalkIsLevels(root, props[1..], path, next);
      if ObjectAt(g.data, path).Some? {
        var one := LevelOne(prop, ObjectAt(g.data, path).value);
        PutAt(g.data, path, Obj(one), Obj(one));
        ReplacesTwice(g.data, path, Obj(one), next.data, Obj(Levels(props[1..], one)),
          WalkList(root, props[1..], path, next).data);
      }
    }
  }

  /** For conditionals among siblings, at any depth, the gate is the unconditional pass and
      then each level on its own object. */
  lemma {:induction false} GateIsLevels(s: Schema, d: Json)
    requires SiblingOnly(s)
    ensures Apply(s, d).data == Level(s, Unconditional(s, d, []).0)
  {
    var (filled, edits) := Unconditional(s, d, []);
    WalkIsLevel(s, s, [], Gate(filled, edits));
  }
}
