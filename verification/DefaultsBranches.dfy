/** What the unconditional pass and the two branches of a conditional do to the data, field by
    field. */
module DefaultsBranches {
  import opened Prelude
  import opened Schema
  import opened Defaults
  import opened DefaultsOneLevel
  import opened DefaultsNested
  import opened DefaultsTwice

  /** The first property of the name. */
  ghost predicate IsPropertyOf(props: seq<Property>, name: string, s: Schema) {
    exists i :: 0 <= i < |props| && props[i] == Property(name, s) && forall k :: 0 <= k < i ==> props[k].name != name
  }

  lemma {:induction false} FindPropertyMeaning(props: seq<Property>, name: string)
    ensures match FindProperty(props, name)
      case Some(s) => IsPropertyOf(props, name, s)
      case None => forall i :: 0 <= i < |props| ==> props[i].name != name
  {
    if props != [] && props[0].name == name {
      assert props[0] == Property(name, props[0].schema);
    } else if props != [] {
      var tail := props[1..];
      FindPropertyMeaning(tail, name);
      assert forall k :: 0 <= k < |tail| ==> tail[k] == props[k + 1];
      if FindProperty(tail, name).Some? {
        var s := FindProperty(tail, name).value;
        var i :| 0 <= i < |tail| && tail[i] == Property(name, s) && forall k :: 0 <= k < i ==> tail[k].name != name;
        assert props[i + 1] == Property(name, s);
        assert forall k :: 0 < k < i + 1 ==> props[k] == tail[k - 1];
      }
    }
  }

  lemma {:induction false} OnlyProperty(props: seq<Property>, x: string, s: Schema)
    requires IsPropertyOf(props, x, s)
    ensures FindProperty(props, x) == Some(s)
  {
    FindPropertyMeaning(props, x);
    var i :| 0 <= i < |props| && props[i] == Property(x, s) && forall k :: 0 <= k < i ==> props[k].name != x;
    if FindProperty(props, x).Some? {
      var t := FindProperty(props, x).value;
      var j :| 0 <= j < |props| && props[j] == Property(x, t) && forall k :: 0 <= k < j ==> props[k].name != x;
      assert i == j;
    }
  }

  /** The properties give the field this default. */
  ghost predicate HasDefault(props: seq<Property>, name: string, v: Json) {
    exists s: Schema :: IsPropertyOf(props, name, s) && s.default == Some(v)
  }

  lemma DefaultMeaning(props: seq<Property>, name: string, v: Json)
    ensures ResolveDefault(name, props) == Some(v) <==> HasDefault(props, name, v)
  {
    FindPropertyMeaning(props, name);
    forall s: Schema | IsPropertyOf(props, name, s)
      ensures FindProperty(props, name) == Some(s)
    {
      OnlyProperty(props, name, s);
    }
  }

  /** `after` has every field of `before`, and each other required field with a default, with
      that default; and nothing else. */
  ghost predicate IsCompletion(required: seq<Required>, props: seq<Property>, before: Fields, after: Fields) {
    && (forall x :: x in before ==> x in after && after[x] == before[x])
    && (forall x, v :: x !in before && Some(x) in required && HasDefault(props, x, v) ==> x in after && after[x] == v)
    && (forall x :: x in after && x !in before ==> Some(x) in required && HasDefault(props, x, after[x]))
  }

  lemma {:induction false} InjectCompletes(required: seq<Required>, props: seq<Property>, fields: Fields,
                                           path: seq<string>)
    ensures IsCompletion(required, props, fields, Inject(required, props, fields, path).fields)
  {
    var after := Inject(required, props, fields, path).fields;
    forall x
      ensures x in fields ==> x in after && after[x] == fields[x]
      ensures x in after && x !in fields ==> Some(x) in required && HasDefault(props, x, after[x])
    {
      InjectMeaning(required, props, fields, path, x);
      if x in after && x !in fields {
        DefaultMeaning(props, x, after[x]);
      }
    }
    forall x, v | x !in fields && Some(x) in required && HasDefault(props, x, v)
      ensures x in after && after[x] == v
    {
      InjectMeaning(required, props, fields, path, x);
      DefaultMeaning(props, x, v);
    }
  }

  // -- The unconditional pass ----------------------------------------------

  /** The pass over an object completes it and goes on into those of its fields, and only those,
      whose property is of type object. A level without `required` or `properties`, and a value
      that is no object, stay as they are. */
  lemma {:induction false} PassMeaning(s: Schema, d: Json, x: string) returns (own: Fields)
    requires s.properties.Properties? ==> DistinctIn(s.properties.list)
    ensures var after := Unconditional(s, d, []).0;
      if s.required.None? || s.properties.NoProperties? || !d.Obj? then after == d
      else
        && IsCompletion(s.required.value, s.properties.list, d.fields, own)
        && after.Obj? && (x in after.fields <==> x in own)
        && (x in own ==>
              if exists child: Schema :: IsPropertyOf(s.properties.list, x, child) && child.objectType
              then forall child: Schema :: IsPropertyOf(s.properties.list, x, child) ==>
                after.fields[x] == Unconditional(child, own[x], []).0
              else after.fields[x] == own[x])
  {
    own := map[];
    if s.required.Some? && s.properties.Properties? && d.Obj? {
      var props := s.properties.list;
      own := Inject(s.required.value, props, d.fields, []).fields;
      InjectCompletes(s.required.value, props, d.fields, []);
      FillNestedAt(props, own, x);
      FindPropertyMeaning(props, x);
      forall child: Schema | IsPropertyOf(props, x, child)
        ensures FindProperty(props, x) == Some(child)
      {
        OnlyProperty(props, x, child);
      }
    }
  }

  // -- The branches --------------------------------------------------------

  /** A flat `then` completes the object at the path of its entry, with the defaults of the schema
      level that the entry belongs to; without such an object nothing happens. */
  lemma FlatThenMeaning(clause: Clause, local: Schema, path: seq<string>, g: Gate) returns (after: Fields)
    requires clause.Clause? && clause.required.Some?
    ensures ObjectAt(g.data, path).None? || local.properties.NoProperties? ==> FlatThen(clause, local, path, g) == g
    ensures ObjectAt(g.data, path).Some? && local.properties.Properties? ==>
      && IsCompletion(clause.required.value, local.properties.list, ObjectAt(g.data, path).value, after)
      && FlatThen(clause, local, path, g).data == Put(g.data, path, Obj(after))
  {
    after := map[];
    if ObjectAt(g.data, path).Some? && local.properties.Properties? {
      var fields := ObjectAt(g.data, path).value;
      after := Inject(clause.required.value, local.properties.list, fields, path).fields;
      InjectCompletes(clause.required.value, local.properties.list, fields, path);
    }
  }

  /** An `else` with some boolean among its members takes the fields marked `false`, and no
      others, off the object at the path of its entry. */
  lemma FlatElseMeaning(clause: Clause, path: seq<string>, g: Gate, i: nat) returns (after: Fields)
    requires clause.Clause? && clause.properties.Members?
    requires i < |clause.properties.list| && clause.properties.list[i].clause.Flag?
    ensures ObjectAt(g.data, path).None? ==> ElseStrip(clause, path, g) == g
    ensures ObjectAt(g.data, path).Some? ==>
      var before := ObjectAt(g.data, path).value;
      && (forall x :: x in after <==> x in before && Member(x, Flag(false)) !in clause.properties.list)
      && (forall x :: x in after ==> after[x] == before[x])
      && ElseStrip(clause, path, g).data == Put(g.data, path, Obj(after))
  {
    after := map[];
    if ObjectAt(g.data, path).Some? {
      var fields := ObjectAt(g.data, path).value;
      after := Strip(clause.properties.list, fields, path).fields;
      forall x
        ensures x in after <==> x in fields && Member(x, Flag(false)) !in clause.properties.list
        ensures x in after ==> after[x] == fields[x]
      {
        StripMeaning(clause.properties.list, fields, path, x);
      }
    }
  }

  /** An `else` without any works across sections, from the root. */
  lemma AcrossElseMeaning(clause: Clause, path: seq<string>, g: Gate)
    requires clause.Clause? && clause.properties.Members? && DistinctMembers(clause.properties.list)
    requires forall i :: 0 <= i < |clause.properties.list| ==> !clause.properties.list[i].clause.Flag?
    ensures ElseStrip(clause, path, g).data == Without(clause.properties.list, g.data)
  {
    CrossElseIsWithout(clause, path, g);
  }

  /** An entry without `if` does nothing. Any other takes its `then` where the condition holds, at
      its own object with its own level and then across sections with the root schema; and its
      `else` where it does not. */
  lemma EntryBranches(root: Schema, local: Schema, e: Entry, path: seq<string>, g: Gate)
    ensures e.ifClause.None? ==> ApplyEntry(root, local, e, path, g) == g
    ensures e.ifClause.Some? && MatchesIf(e.ifClause.value, g.data, path) ==>
      match e.thenClause
      case Some(Clause(required, members, _, _)) =>
        var flat := if required.Some? then InjectAt(required.value, local.properties, path, g) else g;
        && (members.NoMembers? ==> ApplyEntry(root, local, e, path, g) == flat)
        && (members.Members? && DistinctMembers(members.list) ==>
              ApplyEntry(root, local, e, path, g).data == With(members.list, root.properties, flat.data))
      case _ => ApplyEntry(root, local, e, path, g) == g
    ensures e.ifClause.Some? && !MatchesIf(e.ifClause.value, g.data, path) ==>
      match e.elseClause
      case Some(clause) => ApplyEntry(root, local, e, path, g) == ElseStrip(clause, path, g)
      case None => ApplyEntry(root, local, e, path, g) == g
  {
    if e.thenClause.Some? && e.thenClause.value.Clause? {
      var clause := e.thenClause.value;
      if clause.properties.Members? && DistinctMembers(clause.properties.list) {
        CrossThenIsWith(clause, root, FlatThen(clause, local, path, g));
      }
    }
  }
}
