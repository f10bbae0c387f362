/** Schemas and data of `default_apply_core`, and the functions that only read them.

    A schema is given by the parts the code looks at. Paths are sequences of object keys. */
module Schema {
  import opened Prelude

  /** An entry of a `required` list; `None` is one that is not a string. */
  type Required = Option<string>

  type Fields = map<string, Json>

  datatype Schema = Schema(
    objectType: bool,
    required: Option<seq<Required>>,
    properties: Properties,
    allOf: Option<seq<Entry>>,
    default: Option<Json>)

  /** A `properties` object of a schema, in key order, or its absence. */
  datatype Properties = NoProperties | Properties(list: seq<Property>)

  datatype Property = Property(name: string, schema: Schema)

  /** One `allOf` entry. */
  datatype Entry = Entry(ifClause: Option<Clause>, thenClause: Option<Clause>, elseClause: Option<Clause>)

  /** A clause, or a value inside one. */
  datatype Clause =
    | Flag(b: bool)
    | Scalar
    | Clause(required: Option<seq<Required>>, properties: Members, constant: Option<Json>, choices: Option<seq<Json>>)

  datatype Members = NoMembers | Members(list: seq<Member>)

  datatype Member = Member(name: string, clause: Clause)

  // -- Paths into data -----------------------------------------------------

  /** `resolve_pointer`. */
  function At(d: Json, path: seq<string>): Option<Json> {
    if path == [] then Some(d)
    else
      match d.Get(path[0])
      case None => None
      case Some(child) => At(child, path[1..])
  }

  /** The fields of the object at `path`, if there is one. */
  function ObjectAt(d: Json, path: seq<string>): Option<Fields> {
    match At(d, path)
    case Some(Obj(fields)) => Some(fields)
    case _ => None
  }

  /** `d` with the value at `path` replaced. */
  function Put(d: Json, path: seq<string>, v: Json): Json
    requires At(d, path).Some?
  {
    if path == [] then v
    else Obj(d.fields[path[0] := Put(d.fields[path[0]], path[1..], v)])
  }

  lemma {:induction false} PutAt(d: Json, path: seq<string>, v: Json, w: Json)
    requires At(d, path).Some?
    ensures At(Put(d, path, v), path) == Some(v)
    ensures Put(Put(d, path, v), path, w) == Put(d, path, w)
    decreases path
  {
    if path != [] {
      PutAt(d.fields[path[0]], path[1..], v, w);
      assert d.fields[path[0] := Put(d.fields[path[0]], path[1..], w)] ==
        d.fields[path[0] := Put(d.fields[path[0]], path[1..], v)][path[0] := Put(d.fields[path[0]], path[1..], w)];
    }
  }

  lemma {:induction false} PutSame(d: Json, path: seq<string>)
    requires At(d, path).Some?
    ensures Put(d, path, At(d, path).value) == d
    decreases path
  {
    if path != [] {
      PutSame(d.fields[path[0]], path[1..]);
      assert d.fields[path[0] := d.fields[path[0]]] == d.fields;
    }
  }

  lemma {:induction false} PutChild(d: Json, path: seq<string>, key: string, v: Json)
    requires ObjectAt(d, path).Some? && key in ObjectAt(d, path).value
    ensures At(d, path + [key]) == Some(ObjectAt(d, path).value[key])
    ensures Put(d, path + [key], v) == Put(d, path, Obj(ObjectAt(d, path).value[key := v]))
    decreases path
  {
    if path == [] {
      assert path + [key] == [key];
    } else {
      assert (path + [key])[1..] == path[1..] + [key] && (path + [key])[0] == path[0];
      PutChild(d.fields[path[0]], path[1..], key, v);
    }
  }

  // -- Reading a schema ----------------------------------------------------

  function FindProperty(props: seq<Property>, name: string): Option<Schema> {
    if props == [] then None
    else if props[0].name == name then Some(props[0].schema)
    else FindProperty(props[1..], name)
  }

  /** `resolve_default`. */
  function ResolveDefault(name: string, props: seq<Property>): Option<Json> {
    match FindProperty(props, name)
    case Some(s) => s.default
    case None => None
  }

  /** `resolve_schema_properties`: empty segments are dropped. */
  function ResolveSchemaProperties(s: Schema, path: seq<string>): Properties
    decreases |path|
  {
    if path != [] && path[0] == "" then ResolveSchemaProperties(s, path[1..])
    else if s.properties.NoProperties? || path == [] then s.properties
    else
      match FindProperty(s.properties.list, path[0])
      case Some(child) => ResolveSchemaProperties(child, path[1..])
      case None => NoProperties
  }

  function FindMember(members: seq<Member>, name: string): Option<Clause> {
    if members == [] then None
    else if members[0].name == name then Some(members[0].clause)
    else FindMember(members[1..], name)
  }

  // -- Evaluating an `if` --------------------------------------------------

  /** `matches_constraint`: `const` wins over `enum`, and anything else never matches. */
  predicate MatchesConstraint(value: Json, constraint: Clause) {
    constraint.Clause? &&
    if constraint.constant.Some? then value == constraint.constant.value
    else constraint.choices.Some? && value in constraint.choices.value
  }

  predicate MatchesField(r: Required, members: Members, fields: Fields) {
    && r.Some? && r.value in fields
    && (members.Members? && FindMember(members.list, r.value).Some? ==>
          MatchesConstraint(fields[r.value], FindMember(members.list, r.value).value))
  }

  /** `matches_flat_condition` on an object. */
  predicate MatchesFields(required: seq<Required>, members: Members, fields: Fields) {
    required == [] || (MatchesField(required[0], members, fields) && MatchesFields(required[1..], members, fields))
  }

  predicate MatchesFlat(required: seq<Required>, members: Members, data: Option<Json>) {
    data.Some? && data.value.Obj? && MatchesFields(required, members, data.value.fields)
  }

  lemma {:induction false} MatchesFieldsMeaning(required: seq<Required>, members: Members, fields: Fields)
    ensures MatchesFields(required, members, fields) <==> forall r :: r in required ==> MatchesField(r, members, fields)
  {
    if required != [] {
      MatchesFieldsMeaning(required[1..], members, fields);
      assert forall r :: r in required <==> r == required[0] || r in required[1..];
    }
  }

  /** `matches_nested_condition`: the first segment that leads somewhere decides. */
  predicate MatchesNested(members: seq<Member>, data: Json)
    decreases members
  {
    members != [] && members[0].clause.Clause? && data.Get(members[0].name).Some? &&
    var nested, child := members[0].clause, data.Get(members[0].name);
    if nested.required.Some? then MatchesFlat(nested.required.value, nested.properties, child)
    else if nested.properties.Members? then MatchesNested(nested.properties.list, child.value)
    else MatchesNested(members[1..], data)
  }

  /** `matches_if_clause`: a clause with `required` looks at `path`, any other at the root. */
  predicate MatchesIf(clause: Clause, data: Json, path: seq<string>) {
    clause.Clause? &&
    if clause.required.Some? then MatchesFlat(clause.required.value, clause.properties, At(data, path))
    else clause.properties.Members? && MatchesNested(clause.properties.list, data)
  }
}
