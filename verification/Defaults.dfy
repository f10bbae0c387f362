/** What `default_apply_core` does to the data, with the log of every edit it makes. */
module Defaults {
  import opened Prelude
  import opened Schema

  /** One edit: a field added to, or removed from, the object at `path`. */
  datatype Edit =
    | Added(path: seq<string>, field: string, value: Json)
    | Stripped(path: seq<string>, field: string)

  /** The result of one edit. An addition needs the object without the field, a removal
      the object with it; otherwise the edit is not possible. */
  function Perform(d: Json, e: Edit): Option<Json> {
    match ObjectAt(d, e.path)
    case None => None
    case Some(fields) =>
      match e
      case Added(path, field, value) =>
        if field in fields then None else Some(Put(d, path, Obj(fields[field := value])))
      case Stripped(path, field) => if field in fields then Some(Put(d, path, Obj(fields - {field}))) else None
  }

  function Replay(d: Json, edits: seq<Edit>): Option<Json>
    decreases |edits|
  {
    if edits == [] then Some(d)
    else
      match Perform(d, edits[0])
      case None => None
      case Some(next) => Replay(next, edits[1..])
  }

  lemma {:induction false} ReplayAppend(d: Json, a: seq<Edit>, b: seq<Edit>)
    requires Replay(d, a).Some?
    ensures Replay(d, a + b) == Replay(Replay(d, a).value, b)
    decreases a
  {
    if a == [] {
      assert a + b == b;
    } else {
      assert (a + b)[0] == a[0] && (a + b)[1..] == a[1..] + b;
      ReplayAppend(Perform(d, a[0]).value, a[1..], b);
    }
  }

  predicate OnlyAdds(edits: seq<Edit>) {
    forall e :: e in edits ==> e.Added?
  }

  // -- Edits of one object -------------------------------------------------

  /** The fields of an object and the edits made to it. */
  datatype Edited = Edited(fields: Fields, edits: seq<Edit>)

  function InjectOne(r: Required, props: seq<Property>, fields: Fields, path: seq<string>): Edited {
    if r.None? || r.value in fields then Edited(fields, [])
    else
      match ResolveDefault(r.value, props)
      case None => Edited(fields, [])
      case Some(v) => Edited(fields[r.value := v], [Added(path, r.value, v)])
  }

  /** `inject_required_defaults`. */
  function Inject(required: seq<Required>, props: seq<Property>, fields: Fields, path: seq<string>): Edited {
    if required == [] then Edited(fields, [])
    else
      var first := InjectOne(required[0], props, fields, path);
      var rest := Inject(required[1..], props, first.fields, path);
      Edited(rest.fields, first.edits + rest.edits)
  }

  function StripOne(m: Member, fields: Fields, path: seq<string>): Edited {
    if m.clause == Flag(false) && m.name in fields then Edited(fields - {m.name}, [Stripped(path, m.name)])
    else Edited(fields, [])
  }

  /** The flat form of `apply_else_strip`. */
  function Strip(members: seq<Member>, fields: Fields, path: seq<string>): Edited {
    if members == [] then Edited(fields, [])
    else
      var first := StripOne(members[0], fields, path);
      var rest := Strip(members[1..], first.fields, path);
      Edited(rest.fields, first.edits + rest.edits)
  }

  /** The edits turn the object at `path` of `d` from `fields` into `after.fields` and touch
      nothing else. */
  ghost predicate EditsObject(d: Json, path: seq<string>, fields: Fields, after: Edited) {
    ObjectAt(d, path) == Some(fields) ==> Replay(d, after.edits) == Some(Put(d, path, Obj(after.fields)))
  }

  lemma EditsNothing(d: Json, path: seq<string>, fields: Fields)
    ensures EditsObject(d, path, fields, Edited(fields, []))
  {
    if ObjectAt(d, path) == Some(fields) {
      PutSame(d, path);
    }
  }

  lemma EditsOnce(d: Json, path: seq<string>, fields: Fields, e: Edit, after: Fields)
    requires e.path == path
    requires match e
      case Added(_, field, value) => field !in fields && after == fields[field := value]
      case Stripped(_, field) => field in fields && after == fields - {field}
    ensures EditsObject(d, path, fields, Edited(after, [e]))
  {
    if ObjectAt(d, path) == Some(fields) {
      assert [e][1..] == [];
      assert Replay(Perform(d, e).value, []) == Perform(d, e);
    }
  }

  lemma {:induction false} EditsThen(d: Json, path: seq<string>, fields: Fields, a: Edited, b: Edited)
    requires EditsObject(d, path, fields, a)
    requires At(d, path).Some? ==> EditsObject(Put(d, path, Obj(a.fields)), path, a.fields, b)
    ensures EditsObject(d, path, fields, Edited(b.fields, a.edits + b.edits))
  {
    if ObjectAt(d, path) == Some(fields) {
      PutAt(d, path, Obj(a.fields), Obj(b.fields));
      ReplayAppend(d, a.edits, b.edits);
    }
  }

  lemma {:induction false} InjectEdits(required: seq<Required>, props: seq<Property>, fields: Fields,
                                       path: seq<string>, d: Json)
    ensures EditsObject(d, path, fields, Inject(required, props, fields, path))
    ensures OnlyAdds(Inject(required, props, fields, path).edits)
    decreases |required|
  {
    EditsNothing(d, path, fields);
    if required != [] {
      var first := InjectOne(required[0], props, fields, path);
      if first.edits != [] {
        EditsOnce(d, path, fields, first.edits[0], first.fields);
      }
      if At(d, path).Some? {
        InjectEdits(required[1..], props, first.fields, path, Put(d, path, Obj(first.fields)));
      } else {
        InjectEdits(required[1..], props, first.fields, path, d);
      }
      EditsThen(d, path, fields, first, Inject(required[1..], props, first.fields, path));
    }
  }

  lemma {:induction false} StripEdits(members: seq<Member>, fields: Fields, path: seq<string>, d: Json)
    ensures EditsObject(d, path, fields, Strip(members, fields, path))
    decreases |members|
  {
    EditsNothing(d, path, fields);
    if members != [] {
      var first := StripOne(members[0], fields, path);
      if first.edits != [] {
        EditsOnce(d, path, fields, first.edits[0], first.fields);
      }
      if At(d, path).Some? {
        StripEdits(members[1..], first.fields, path, Put(d, path, Obj(first.fields)));
      }
      EditsThen(d, path, fields, first, Strip(members[1..], first.fields, path));
    }
  }

  // -- Unconditional defaults ----------------------------------------------

  /** `apply_unconditional_defaults` on the value `d` found at `path`. A level without
      `required` or `properties` ends the descent. */
  function Unconditional(s: Schema, d: Json, path: seq<string>): (Json, seq<Edit>)
    decreases s, 1
  {
    if s.required.None? || s.properties.NoProperties? || !d.Obj? then (d, [])
    else
      var own := Inject(s.required.value, s.properties.list, d.fields, path);
      var nested := UnconditionalNested(s.properties.list, own.fields, path);
      (Obj(nested.fields), own.edits + nested.edits)
  }

  function UnconditionalNested(props: seq<Property>, fields: Fields, path: seq<string>): Edited
    decreases props, 0
  {
    if props == [] then Edited(fields, [])
    else
      var first := UnconditionalChild(props[0], fields, path);
      var rest := UnconditionalNested(props[1..], first.fields, path);
      Edited(rest.fields, first.edits + rest.edits)
  }

  function UnconditionalChild(prop: Property, fields: Fields, path: seq<string>): Edited
    decreases prop, 2
  {
    if !prop.schema.objectType || prop.name !in fields then Edited(fields, [])
    else
      var (child, edits) := Unconditional(prop.schema, fields[prop.name], path + [prop.name]);
      Edited(fields[prop.name := child], edits)
  }

  lemma {:induction false} UnconditionalEdits(s: Schema, d: Json, path: seq<string>, root: Json)
    requires At(root, path) == Some(d)
    ensures Replay(root, Unconditional(s, d, path).1) == Some(Put(root, path, Unconditional(s, d, path).0))
    ensures OnlyAdds(Unconditional(s, d, path).1)
    decreases s, 1
  {
    if s.required.None? || s.properties.NoProperties? || !d.Obj? {
      PutSame(root, path);
    } else {
      var own := Inject(s.required.value, s.properties.list, d.fields, path);
      InjectEdits(s.required.value, s.properties.list, d.fields, path, root);
      PutAt(root, path, Obj(own.fields), Obj(own.fields));
      UnconditionalNestedEdits(s.properties.list, own.fields, path, Put(root, path, Obj(own.fields)));
      EditsThen(root, path, d.fields, own, UnconditionalNested(s.properties.list, own.fields, path));
    }
  }

  lemma {:induction false} UnconditionalNestedEdits(props: seq<Property>, fields: Fields, path: seq<string>, root: Json)
    requires At(root, path).Some?
    ensures EditsObject(root, path, fields, UnconditionalNested(props, fields, path))
    ensures ObjectAt(root, path) == Some(fields) ==> OnlyAdds(UnconditionalNested(props, fields, path).edits)
    decreases props, 0
  {
    EditsNothing(root, path, fields);
    if props != [] && ObjectAt(root, path) == Some(fields) {
      var prop := props[0];
      var first := UnconditionalChild(prop, fields, path);
      if prop.schema.objectType && prop.name in fields {
        PutChild(root, path, prop.name, first.fields[prop.name]);
        UnconditionalEdits(prop.schema, fields[prop.name], path + [prop.name], root);
      }
      var next := Put(root, path, Obj(first.fields));
      PutAt(root, path, Obj(first.fields), Obj(first.fields));
      UnconditionalNestedEdits(props[1..], first.fields, path, next);
      EditsThen(root, path, fields, first, UnconditionalNested(props[1..], first.fields, path));
    }
  }

  /** JSON objects have distinct keys: at every level of the schema properties have distinct names. */
  predicate DistinctNames(s: Schema)
    decreases s, 1
  {
    s.properties.Properties? ==> DistinctIn(s.properties.list)
  }

  predicate DistinctIn(props: seq<Property>)
    decreases props, 0
  {
    props == [] ||
    (FindProperty(props[1..], props[0].name).None? && DistinctNames(props[0].schema) && DistinctIn(props[1..]))
  }

  /** Every required field with a default is present, at every level the pass reaches. */
  predicate Complete(s: Schema, d: Json)
    decreases s, 1
  {
    s.required.None? || s.properties.NoProperties? || !d.Obj? ||
    (&& (forall r :: r in s.required.value && r.Some? && ResolveDefault(r.value, s.properties.list).Some? ==>
          r.value in d.fields)
     && CompleteIn(s.properties.list, d.fields))
  }

  predicate CompleteIn(props: seq<Property>, fields: Fields)
    decreases props, 0
  {
    props == [] ||
    (&& (props[0].schema.objectType && props[0].name in fields ==> Complete(props[0].schema, fields[props[0].name]))
     && CompleteIn(props[1..], fields))
  }

  /** What injection means for each field: fields that are present keep their value, and of
      the others exactly the required ones with a default appear, with that default. */
  lemma {:induction false} InjectMeaning(required: seq<Required>, props: seq<Property>, fields: Fields,
                                         path: seq<string>, x: string)
    ensures var after := Inject(required, props, fields, path).fields;
      && (x in after <==> x in fields || (Some(x) in required && ResolveDefault(x, props).Some?))
      && (x in after ==> after[x] == if x in fields then fields[x] else ResolveDefault(x, props).value)
    decreases |required|
  {
    if required != [] {
      InjectMeaning(required[1..], props, InjectOne(required[0], props, fields, path).fields, path, x);
      assert Some(x) in required <==> required[0] == Some(x) || Some(x) in required[1..];
    }
  }

  lemma {:induction false} InjectNothing(required: seq<Required>, props: seq<Property>, fields: Fields,
                                         path: seq<string>)
    requires forall r :: r in required && r.Some? && ResolveDefault(r.value, props).Some? ==> r.value in fields
    ensures Inject(required, props, fields, path) == Edited(fields, [])
    decreases |required|
  {
    if required != [] {
      assert InjectOne(required[0], props, fields, path) == Edited(fields, []);
      InjectNothing(required[1..], props, fields, path);
    }
  }

  lemma {:induction false} CompleteInAgrees(props: seq<Property>, a: Fields, b: Fields)
    requires forall x :: FindProperty(props, x).Some? ==> (x in a <==> x in b) && (x in a ==> a[x] == b[x])
    requires CompleteIn(props, a)
    ensures CompleteIn(props, b)
  {
    if props != [] {
      assert FindProperty(props, props[0].name).Some?;
      CompleteInAgrees(props[1..], a, b);
    }
  }

  lemma {:induction false} NestedCompletes(props: seq<Property>, fields: Fields, path: seq<string>)
    requires DistinctIn(props)
    ensures var after := UnconditionalNested(props, fields, path).fields;
      && CompleteIn(props, after) && after.Keys == fields.Keys
      && (forall x :: x in fields && FindProperty(props, x).None? ==> after[x] == fields[x])
    decreases props, 0
  {
    if props != [] {
      var first := UnconditionalChild(props[0], fields, path).fields;
      if props[0].schema.objectType && props[0].name in fields {
        UnconditionalCompletes(props[0].schema, fields[props[0].name], path + [props[0].name]);
      }
      NestedCompletes(props[1..], first, path);
    }
  }

  /** One unconditional pass leaves every reached required field with a default present. */
  lemma {:induction false} UnconditionalCompletes(s: Schema, d: Json, path: seq<string>)
    requires DistinctNames(s)
    ensures Complete(s, Unconditional(s, d, path).0)
    decreases s, 1
  {
    if s.required.Some? && s.properties.Properties? && d.Obj? {
      var own := Inject(s.required.value, s.properties.list, d.fields, path);
      NestedCompletes(s.properties.list, own.fields, path);
      forall r | r in s.required.value && r.Some? && ResolveDefault(r.value, s.properties.list).Some?
        ensures r.value in own.fields
      {
        InjectMeaning(s.required.value, s.properties.list, d.fields, path, r.value);
      }
    }
  }

  lemma {:induction false} CompleteNestedIsFixed(props: seq<Property>, fields: Fields, path: seq<string>)
    requires CompleteIn(props, fields)
    ensures UnconditionalNested(props, fields, path) == Edited(fields, [])
    decreases props, 0
  {
    if props != [] {
      if props[0].schema.objectType && props[0].name in fields {
        CompleteIsFixed(props[0].schema, fields[props[0].name], path + [props[0].name]);
        assert fields[props[0].name := fields[props[0].name]] == fields;
      }
      CompleteNestedIsFixed(props[1..], fields, path);
    }
  }

  /** A second unconditional pass adds nothing. */
  lemma {:induction false} CompleteIsFixed(s: Schema, d: Json, path: seq<string>)
    requires Complete(s, d)
    ensures Unconditional(s, d, path) == (d, [])
    decreases s, 1
  {
    if s.required.Some? && s.properties.Properties? && d.Obj? {
      InjectNothing(s.required.value, s.properties.list, d.fields, path);
      CompleteNestedIsFixed(s.properties.list, d.fields, path);
      assert d == Obj(d.fields);
      var none: seq<Edit> := [];
      assert none + none == none;
    }
  }

  // -- Conditional entries -------------------------------------------------

  /** The data and all edits made so far. */
  datatype Gate = Gate(data: Json, edits: seq<Edit>)

  function OnObject(g: Gate, path: seq<string>, after: Edited): Gate
    requires ObjectAt(g.data, path).Some?
  {
    Gate(Put(g.data, path, Obj(after.fields)), g.edits + after.edits)
  }

  function InjectAt(required: seq<Required>, props: Properties, path: seq<string>, g: Gate): Gate {
    if ObjectAt(g.data, path).None? || props.NoProperties? then g
    else OnObject(g, path, Inject(required, props.list, ObjectAt(g.data, path).value, path))
  }

  /** `apply_flat_then`. */
  function FlatThen(clause: Clause, local: Schema, path: seq<string>, g: Gate): Gate {
    if !clause.Clause? || clause.required.None? then g
    else InjectAt(clause.required.value, local.properties, path, g)
  }

  /** `apply_cross_section_then`. */
  function CrossThen(clause: Clause, root: Schema, g: Gate): Gate {
    if !clause.Clause? || clause.properties.NoMembers? then g
    else NestedThen(clause.properties.list, root, [], g)
  }

  /** `apply_nested_then`. */
  function NestedThen(members: seq<Member>, root: Schema, path: seq<string>, g: Gate): Gate
    decreases members, 0
  {
    if members == [] then g
    else NestedThen(members[1..], root, path, NestedThenMember(members[0], root, path, g))
  }

  function NestedThenMember(m: Member, root: Schema, path: seq<string>, g: Gate): Gate
    decreases m, 1
  {
    if !m.clause.Clause? then g
    else
      var child := path + [m.name];
      if m.clause.required.Some? then InjectAt(m.clause.required.value, ResolveSchemaProperties(root, child), child, g)
      else if m.clause.properties.Members? then NestedThen(m.clause.properties.list, root, child, g)
      else g
  }

  function StripAt(members: seq<Member>, path: seq<string>, g: Gate): Gate {
    if ObjectAt(g.data, path).None? then g
    else OnObject(g, path, Strip(members, ObjectAt(g.data, path).value, path))
  }

  predicate IsFlat(members: seq<Member>) {
    exists i :: 0 <= i < |members| && members[i].clause.Flag?
  }

  /** `apply_else_strip`. */
  function ElseStrip(clause: Clause, path: seq<string>, g: Gate): Gate {
    if !clause.Clause? || clause.properties.NoMembers? then g
    else if IsFlat(clause.properties.list) then StripAt(clause.properties.list, path, g)
    else StripNested(clause.properties.list, [], g)
  }

  /** `strip_nested_else`. */
  function StripNested(members: seq<Member>, path: seq<string>, g: Gate): Gate
    decreases members, 0
  {
    if members == [] then g
    else StripNested(members[1..], path, StripNestedMember(members[0], path, g))
  }

  function StripNestedMember(m: Member, path: seq<string>, g: Gate): Gate
    decreases m, 1
  {
    if !m.clause.Clause? then StripAt([m], path, g)
    else if m.clause.properties.Members? then StripNested(m.clause.properties.list, path + [m.name], g)
    else g
  }

  function ApplyEntry(root: Schema, local: Schema, e: Entry, path: seq<string>, g: Gate): Gate {
    if e.ifClause.None? then g
    else if MatchesIf(e.ifClause.value, g.data, path) then
      if e.thenClause.None? then g
      else CrossThen(e.thenClause.value, root, FlatThen(e.thenClause.value, local, path, g))
    else if e.elseClause.None? then g
    else ElseStrip(e.elseClause.value, path, g)
  }

  function ApplyEntries(root: Schema, local: Schema, entries: seq<Entry>, path: seq<string>, g: Gate): Gate
    decreases |entries|
  {
    if entries == [] then g
    else ApplyEntries(root, local, entries[1..], path, ApplyEntry(root, local, entries[0], path, g))
  }

  /** `process_all_of`. */
  function ProcessAllOf(root: Schema, local: Schema, path: seq<string>, g: Gate): Gate {
    if local.allOf.None? then g else ApplyEntries(root, local, local.allOf.value, path, g)
  }

  /** `walk_properties_for_all_of`. */
  function WalkProperties(root: Schema, local: Schema, path: seq<string>, g: Gate): Gate
    decreases local, 1
  {
    if local.properties.NoProperties? then g else WalkList(root, local.properties.list, path, g)
  }

  function WalkList(root: Schema, props: seq<Property>, path: seq<string>, g: Gate): Gate
    decreases props, 0
  {
    if props == [] then g
    else
      var prop := props[0];
      var next :=
        if !prop.schema.objectType then g
        else
          var child := path + [prop.name];
          WalkProperties(root, prop.schema, child, ProcessAllOf(root, prop.schema, child, g));
      WalkList(root, props[1..], path, next)
  }

  /** `apply_conditional_defaults`. */
  function Apply(s: Schema, d: Json): Gate {
    var (filled, edits) := Unconditional(s, d, []);
    WalkProperties(s, s, [], ProcessAllOf(s, s, [], Gate(filled, edits)))
  }

  // -- The report is an exact edit log -------------------------------------

  ghost predicate Logged(d: Json, g: Gate) {
    Replay(d, g.edits) == Some(g.data)
  }

  lemma LogObject(d: Json, g: Gate, path: seq<string>, after: Edited)
    requires Logged(d, g) && ObjectAt(g.data, path).Some?
    requires EditsObject(g.data, path, ObjectAt(g.data, path).value, after)
    ensures Logged(d, OnObject(g, path, after))
  {
    ReplayAppend(d, g.edits, after.edits);
  }

  lemma LogInject(d: Json, required: seq<Required>, props: Properties, path: seq<string>, g: Gate)
    requires Logged(d, g)
    ensures Logged(d, InjectAt(required, props, path, g))
    ensures OnlyAdds(g.edits) ==> OnlyAdds(InjectAt(required, props, path, g).edits)
  {
    if ObjectAt(g.data, path).Some? && props.Properties? {
      var fields := ObjectAt(g.data, path).value;
      InjectEdits(required, props.list, fields, path, g.data);
      LogObject(d, g, path, Inject(required, props.list, fields, path));
    }
  }

  lemma {:induction false} LogNestedThen(d: Json, members: seq<Member>, root: Schema, path: seq<string>, g: Gate)
    requires Logged(d, g)
    ensures Logged(d, NestedThen(members, root, path, g))
    ensures OnlyAdds(g.edits) ==> OnlyAdds(NestedThen(members, root, path, g).edits)
    decreases members
  {
    if members != [] {
      var m, child := members[0], path + [members[0].name];
      if m.clause.Clause? {
        if m.clause.required.Some? {
          LogInject(d, m.clause.required.value, ResolveSchemaProperties(root, child), child, g);
        } else if m.clause.properties.Members? {
          LogNestedThen(d, m.clause.properties.list, root, child, g);
        }
      }
      LogNestedThen(d, members[1..], root, path, NestedThenMember(m, root, path, g));
    }
  }

  lemma LogStrip(d: Json, members: seq<Member>, path: seq<string>, g: Gate)
    requires Logged(d, g)
    ensures Logged(d, StripAt(members, path, g))
  {
    if ObjectAt(g.data, path).Some? {
      var fields := ObjectAt(g.data, path).value;
      StripEdits(members, fields, path, g.data);
      LogObject(d, g, path, Strip(members, fields, path));
    }
  }

  lemma {:induction false} LogStripNested(d: Json, members: seq<Member>, path: seq<string>, g: Gate)
    requires Logged(d, g)
    ensures Logged(d, StripNested(members, path, g))
    decreases members
  {
    if members != [] {
      var m := members[0];
      if !m.clause.Clause? {
        LogStrip(d, [m], path, g);
      } else if m.clause.properties.Members? {
        LogStripNested(d, m.clause.properties.list, path + [m.name], g);
      }
      LogStripNested(d, members[1..], path, StripNestedMember(m, path, g));
    }
  }

  lemma LogEntry(d: Json, root: Schema, local: Schema, e: Entry, path: seq<string>, g: Gate)
    requires Logged(d, g)
    ensures Logged(d, ApplyEntry(root, local, e, path, g))
    ensures OnlyAdds(g.edits) && e.elseClause.None? ==> OnlyAdds(ApplyEntry(root, local, e, path, g).edits)
  {
    if e.thenClause.Some? && e.thenClause.value.Clause? {
      var clause := e.thenClause.value;
      if clause.required.Some? {
        LogInject(d, clause.required.value, local.properties, path, g);
      }
      if clause.properties.Members? {
        LogNestedThen(d, clause.properties.list, root, [], FlatThen(clause, local, path, g));
      }
    }
    if e.elseClause.Some? && e.elseClause.value.Clause? && e.elseClause.value.properties.Members? {
      LogStrip(d, e.elseClause.value.properties.list, path, g);
      LogStripNested(d, e.elseClause.value.properties.list, [], g);
    }
  }

  lemma {:induction false} LogEntries(d: Json, root: Schema, local: Schema, entries: seq<Entry>, path: seq<string>,
                                      g: Gate)
    requires Logged(d, g)
    ensures Logged(d, ApplyEntries(root, local, entries, path, g))
    ensures OnlyAdds(g.edits) && (forall e :: e in entries ==> e.elseClause.None?) ==>
      OnlyAdds(ApplyEntries(root, local, entries, path, g).edits)
    decreases |entries|
  {
    if entries != [] {
      LogEntry(d, root, local, entries[0], path, g);
      LogEntries(d, root, local, entries[1..], path, ApplyEntry(root, local, entries[0], path, g));
    }
  }

  predicate NoElse(s: Schema)
    decreases s, 1
  {
    (s.allOf.Some? ==> forall e :: e in s.allOf.value ==> e.elseClause.None?) &&
    (s.properties.Properties? ==> NoElseIn(s.properties.list))
  }

  predicate NoElseIn(props: seq<Property>)
    decreases props, 0
  {
    props == [] || (NoElse(props[0].schema) && NoElseIn(props[1..]))
  }

  lemma {:induction false} LogWalk(d: Json, root: Schema, props: seq<Property>, path: seq<string>, g: Gate)
    requires Logged(d, g)
    ensures Logged(d, WalkList(root, props, path, g))
    ensures OnlyAdds(g.edits) && NoElseIn(props) ==> OnlyAdds(WalkList(root, props, path, g).edits)
    decreases props, 0
  {
    if props != [] {
      if props[0].schema.objectType {
        var s, child := props[0].schema, path + [props[0].name];
        LogLevel(d, root, s, child, g);
        LogWalk(d, root, props[1..], path, WalkProperties(root, s, child, ProcessAllOf(root, s, child, g)));
      } else {
        LogWalk(d, root, props[1..], path, g);
      }
    }
  }

  lemma {:induction false} LogLevel(d: Json, root: Schema, s: Schema, path: seq<string>, g: Gate)
    requires Logged(d, g)
    ensures var next := WalkProperties(root, s, path, ProcessAllOf(root, s, path, g));
      Logged(d, next) && (OnlyAdds(g.edits) && NoElse(s) ==> OnlyAdds(next.edits))
    decreases s, 1
  {
    if s.allOf.Some? {
      LogEntries(d, root, s, s.allOf.value, path, g);
    }
    if s.properties.Properties? {
      LogWalk(d, root, s.properties.list, path, ProcessAllOf(root, s, path, g));
    }
  }

  /** The edits, in order, turn the input into the output: every addition was of an absent
      field, every removal of a present one, and nothing else changed. */
  lemma {:induction false} ReportIsExactLog(s: Schema, d: Json)
    ensures Replay(d, Apply(s, d).edits) == Some(Apply(s, d).data)
    ensures NoElse(s) ==> OnlyAdds(Apply(s, d).edits)
  {
    var (filled, edits) := Unconditional(s, d, []);
    UnconditionalEdits(s, d, [], d);
    LogLevel(d, s, s, [], Gate(filled, edits));
  }

  // -- Additions extend the data -------------------------------------------

  /** `b` has everything `a` has, and perhaps more fields in its objects. */
  predicate Extends(a: Json, b: Json)
    decreases a
  {
    if a.Obj? then b.Obj? && forall k :: k in a.fields ==> k in b.fields && Extends(a.fields[k], b.fields[k])
    else a == b
  }

  lemma {:induction false} ExtendsSelf(a: Json)
    ensures Extends(a, a)
    decreases a
  {
    if a.Obj? {
      forall k | k in a.fields
        ensures Extends(a.fields[k], a.fields[k])
      {
        ExtendsSelf(a.fields[k]);
      }
    }
  }

  lemma {:induction false} ExtendsTrans(a: Json, b: Json, c: Json)
    requires Extends(a, b) && Extends(b, c)
    ensures Extends(a, c)
    decreases a
  {
    if a.Obj? {
      forall k | k in a.fields
        ensures k in c.fields && Extends(a.fields[k], c.fields[k])
      {
        ExtendsTrans(a.fields[k], b.fields[k], c.fields[k]);
      }
    }
  }

  lemma {:induction false} PutExtends(d: Json, path: seq<string>, v: Json)
    requires At(d, path).Some? && Extends(At(d, path).value, v)
    ensures Extends(d, Put(d, path, v))
    decreases path
  {
    if path != [] {
      PutExtends(d.fields[path[0]], path[1..], v);
      forall k | k in d.fields
        ensures Extends(d.fields[k], Put(d, path, v).fields[k])
      {
        ExtendsSelf(d.fields[k]);
      }
    }
  }

  lemma {:induction false} AdditionsExtend(d: Json, edits: seq<Edit>)
    requires Replay(d, edits).Some? && OnlyAdds(edits)
    ensures Extends(d, Replay(d, edits).value)
    decreases |edits|
  {
    if edits == [] {
      ExtendsSelf(d);
    } else {
      var e, next := edits[0], Perform(d, edits[0]).value;
      var fields := ObjectAt(d, e.path).value;
      ExtendsSelf(Obj(fields));
      assert Extends(Obj(fields), Obj(fields[e.field := e.value]));
      PutExtends(d, e.path, Obj(fields[e.field := e.value]));
      AdditionsExtend(next, edits[1..]);
      ExtendsTrans(d, next, Replay(d, edits).value);
    }
  }

  /** Without `else` clauses the gate only adds. */
  lemma {:induction false} WithoutElseOnlyExtends(s: Schema, d: Json)
    requires NoElse(s)
    ensures Extends(d, Apply(s, d).data)
  {
    ReportIsExactLog(s, d);
    AdditionsExtend(d, Apply(s, d).edits);
  }
}
