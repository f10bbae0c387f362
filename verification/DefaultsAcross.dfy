/** A schema with a conditional between two of its sections, as in the repository's own
    example: the gate is idempotent on it. */
module DefaultsAcross {
  import opened Prelude
  import opened Schema
  import opened Defaults
  import opened DefaultsOneLevel
  import opened Scripts
  import opened DefaultsScript
  import opened DefaultsConditions
  import opened DefaultsOneJob

  function Section(name: string, required: Option<seq<Required>>, field: string, default: Json): Schema {
    var inner := Schema(true, required, Properties([ScalarProperty(field, default)]), None, None);
    Schema(true, if required.Some? then Some([Some(name)]) else None, Properties([Property(name, inner)]), None, None)
  }

  function Group(name: string, clause: Clause): Clause {
    Clause(None, Members([Member(name, clause)]), None, None)
  }

  /** The names along the path to a field. */
  datatype Place = Place(section: string, group: string, field: string)

  function Within(p: Place, clause: Clause): Clause {
    Group(p.section, Group(p.group, clause))
  }

  function Equals(p: Place, v: Json): Clause {
    Clause(Some([Some(p.field)]), Members([Member(p.field, Clause(None, NoMembers, Some(v), None))]), None, None)
  }

  /** The field at `to` goes with the value `yes` of the field at `from`. */
  function AcrossEntry(from: Place, to: Place, yes: Json): Entry {
    Entry(Some(Within(from, Equals(from, yes))), Some(Within(to, Requiring(to.field).value)),
      Some(Within(to, Forbid(to.field).value)))
  }

  function AcrossSchema(from: Place, to: Place, yes: Json, no: Json, default: Json): Schema {
    var source := Property(from.section, Section(from.group, Some([Some(from.field)]), from.field, no));
    var target := Property(to.section, Section(to.group, None, to.field, default));
    Schema(true, Some([Some(from.section), Some(to.section)]), Properties([target, source]),
      Some([AcrossEntry(from, to, yes)]), None)
  }

  lemma {:induction false} OneMember(m: Member, root: Schema, path: seq<string>)
    ensures NestedThenCommands([m], root, path) == ThenMemberCommands(m, root, path)
    ensures NestedElseCommands([m], path) == ElseMemberCommands(m, path)
  {
    assert [m][1..] == [];
  }

  lemma {:induction false} OneProperty(prop: Property, path: seq<string>)
    requires prop.schema.objectType
    ensures JobsIn([prop], path) == Jobs(prop.schema, path + [prop.name])
    ensures FillCommandsIn([prop], path) == FillCommands(prop.schema, path + [prop.name])
  {
    assert [prop][1..] == [];
  }

  lemma {:induction false} SectionHasNoJobs(name: string, required: Option<seq<Required>>, field: string, default: Json,
                                            path: seq<string>)
    ensures var s := Section(name, required, field, default);
      s.objectType && s.default.None? && Jobs(s, path) == []
  {
    var s := Section(name, required, field, default);
    var prop := s.properties.list[0];
    var inner, child := prop.schema, path + [name];
    assert inner.properties.list[1..] == [];
    OneProperty(prop, path);
    assert Jobs(inner, child) == JobsIn(inner.properties.list, child) == [];
    assert Jobs(s, path) == JobsIn([prop], path);
  }

  lemma {:induction false} SectionFill(name: string, required: Option<seq<Required>>, field: string, default: Json,
                                       path: seq<string>)
    requires required == None || required == Some([Some(field)])
    ensures FillCommands(Section(name, required, field, default), path) ==
      if required.Some? then [Add(path + [name], field, default)] else []
  {
    if required.Some? {
      var s := Section(name, required, field, default);
      var prop, child := s.properties.list[0], path + [name];
      var list := prop.schema.properties.list;
      OneProperty(prop, path);
      assert required.value[1..] == [] && [Some(name)][1..] == [] && list[1..] == [];
      assert FillCommandsIn(list, child) == [];
      assert AddCommands([Some(field)], list, child) == [Add(child, field, default)];
      assert AddCommands([Some(name)], [prop], path) == [];
    }
  }

  lemma TwoProperties(props: seq<Property>)
    requires |props| == 2 && props[0].schema.default.None? && props[1].schema.default.None?
    ensures forall x :: ResolveDefault(x, props).None?
  {
    forall x
      ensures ResolveDefault(x, props).None?
    {
      assert FindProperty(props[1..], x).Some? ==> FindProperty(props[1..], x) == Some(props[1].schema);
    }
  }

  lemma {:induction false} TwoSections(p: Property, q: Property, path: seq<string>)
    requires p.schema.objectType && q.schema.objectType
    ensures JobsIn([p, q], path) == Jobs(p.schema, path + [p.name]) + Jobs(q.schema, path + [q.name])
    ensures FillCommandsIn([p, q], path) ==
      FillCommands(p.schema, path + [p.name]) + FillCommands(q.schema, path + [q.name])
  {
    assert [p, q][1..] == [q];
    OneProperty(q, path);
  }

  /** A schema with one entry whose properties have none, and no defaults of its own. */
  lemma {:induction false} OneJob(s: Schema, e: Entry, path: seq<string>)
    requires s.allOf == Some([e]) && s.properties.Properties? && JobsIn(s.properties.list, path) == []
    requires s.required.Some? && forall x :: ResolveDefault(x, s.properties.list).None?
    ensures Jobs(s, path) == [Job(s, e, path)]
    ensures FillCommands(s, path) == FillCommandsIn(s.properties.list, path)
  {
    NoDefaultsToAdd(s.required.value, s.properties.list, path);
    assert EntriesOf(s) == [e] && [e][1..] == [];
    assert OwnJobs(s, [e], path) == [Job(s, e, path)];
  }

  /** The two sections have no entries, and only the source is filled. */
  lemma SectionsFill(from: Place, to: Place, no: Json, default: Json)
    ensures var target := Property(to.section, Section(to.group, None, to.field, default));
      var source := Property(from.section, Section(from.group, Some([Some(from.field)]), from.field, no));
      && JobsIn([target, source], []) == []
      && FillCommandsIn([target, source], []) == [Add([from.section, from.group], from.field, no)]
      && forall x :: ResolveDefault(x, [target, source]).None?
  {
    var target := Property(to.section, Section(to.group, None, to.field, default));
    var source := Property(from.section, Section(from.group, Some([Some(from.field)]), from.field, no));
    hide Section, Jobs, JobsIn, FillCommands, FillCommandsIn, AddCommands, ResolveDefault;
    assert [] + [from.section] == [from.section] && [] + [to.section] == [to.section];
    assert [from.section] + [from.group] == [from.section, from.group];
    SectionHasNoJobs(from.group, Some([Some(from.field)]), from.field, no, [from.section]);
    SectionHasNoJobs(to.group, None, to.field, default, [to.section]);
    SectionFill(from.group, Some([Some(from.field)]), from.field, no, [from.section]);
    SectionFill(to.group, None, to.field, default, [to.section]);
    TwoSections(target, source, []);
    TwoProperties([target, source]);
  }

  lemma AcrossFill(from: Place, to: Place, yes: Json, no: Json, default: Json)
    ensures var s := AcrossSchema(from, to, yes, no, default);
      && Jobs(s, []) == [Job(s, AcrossEntry(from, to, yes), [])]
      && FillCommands(s, []) == [Add([from.section, from.group], from.field, no)]
  {
    var s, e := AcrossSchema(from, to, yes, no, default), AcrossEntry(from, to, yes);
    hide AcrossEntry, Section, Jobs, JobsIn, FillCommands, FillCommandsIn, AddCommands, ResolveDefault;
    SectionsFill(from, to, no, default);
    OneJob(s, e, []);
  }

  lemma {:induction false} NoDefaultsToAdd(required: seq<Required>, props: seq<Property>, path: seq<string>)
    requires forall r :: r in required && r.Some? ==> ResolveDefault(r.value, props).None?
    ensures AddCommands(required, props, path) == []
    decreases |required|
  {
    if required != [] {
      NoDefaultsToAdd(required[1..], props, path);
    }
  }

  lemma AcrossThen(from: Place, to: Place, yes: Json, no: Json, default: Json)
    requires to.section != "" && to.group != ""
    ensures var s := AcrossSchema(from, to, yes, no, default);
      ThenCommands(s, Job(s, AcrossEntry(from, to, yes), [])) == [Add([to.section, to.group], to.field, default)]
  {
    var s, path := AcrossSchema(from, to, yes, no, default), [to.section, to.group];
    var section := Section(to.group, None, to.field, default);
    assert ResolveSchemaProperties(s, path) == Properties([ScalarProperty(to.field, default)]) by {
      assert path[1..] == [to.group] && [to.group][1..] == [];
      assert FindProperty(s.properties.list, to.section) == Some(section);
      assert ResolveSchemaProperties(s, path) == ResolveSchemaProperties(section, [to.group]);
      assert ResolveSchemaProperties(section, [to.group]) ==
        ResolveSchemaProperties(section.properties.list[0].schema, []);
    }
    var e, leaf := AcrossEntry(from, to, yes), Member(to.group, Requiring(to.field).value);
    assert e.thenClause == Some(Group(to.section, Group(to.group, leaf.clause)));
    hide AcrossSchema, AcrossEntry, Section, ResolveSchemaProperties;
    assert [] + [to.section] == [to.section] && [to.section] + [to.group] == path;
    OneMember(Member(to.section, Group(to.group, leaf.clause)), s, []);
    OneMember(leaf, s, [to.section]);
    assert [Some(to.field)][1..] == [];
    assert AddCommands([Some(to.field)], [ScalarProperty(to.field, default)], path) == [Add(path, to.field, default)];
  }

  lemma AcrossElse(from: Place, to: Place, yes: Json, s: Schema)
    ensures ElseCommands(Job(s, AcrossEntry(from, to, yes), [])) == [Drop([to.section, to.group], to.field)]
  {
    var drop, path := Member(to.field, Flag(false)), [to.section, to.group];
    var inner := Member(to.group, Group(to.field, drop.clause));
    var outer := Member(to.section, Group(to.group, inner.clause));
    var job := Job(s, AcrossEntry(from, to, yes), []);
    assert job.entry.elseClause == Some(Clause(None, Members([outer]), None, None));
    assert !IsFlat([outer]);
    assert ElseCommands(job) == NestedElseCommands([outer], []);
    hide AcrossEntry, ElseCommands, IsFlat;
    assert [] + [to.section] == [to.section] && [to.section] + [to.group] == path;
    assert [drop][1..] == [];
    assert DropCommands([drop], path) == [Drop(path, to.field)];
    OneMember(drop, s, path);
    OneMember(inner, s, [to.section]);
    OneMember(outer, s, []);
    assert ElseMemberCommands(inner, [to.section]) == NestedElseCommands([drop], path);
  }

  lemma OneMemberLooks(m: Member)
    ensures forall look :: look in NestedLooks([m]) ==> look.path[0] == m.name
  {
    assert NestedLooks([m][1..]) == [];
  }

  /** One entry that looks at one section and changes another. */
  lemma {:induction false} ApartIsConsistent(s: Schema, job: Job, fill: Command, add: Command, drop: Command,
                                             from: string, to: string)
    requires FillCommands(s, []) == [fill] && Jobs(s, []) == [job] && JobCommands(s, job) == [add, drop]
    requires drop.Drop? && from != to && Enters(fill, from) && Enters(add, to) && Enters(drop, to)
    requires forall look :: look in JobLooks(job) ==> look.path != [] && look.path[0] == from
    ensures IsConsistent(s)
  {
    hide FillCommands, Jobs, JobCommands, JobLooks, ThenCommands, ElseCommands;
    var all := AllCommands(s, [job]);
    assert all == [add, drop] by {
      assert AllCommands(s, [job][1..]) == [];
    }
    assert [fill] + all == [fill, add, drop] && [fill, add, drop][1..] == all && all[1..] == [drop];
    assert Leaves(fill, add) && Leaves(add, drop) && Leaves(fill, drop);
    assert Ready([drop]);
    assert Ready(all);
    assert Ready([fill] + all);
    assert LooksAreFinal(s, [job][1..]);
  }

  /** A conditional between two sections of a schema is consistent: the repository's own
      example, with any names and values. */
  lemma AcrossIsConsistent(from: Place, to: Place, yes: Json, no: Json, default: Json)
    requires from.section != to.section && to.section != "" && to.group != ""
    ensures IsConsistent(AcrossSchema(from, to, yes, no, default))
  {
    var s, e, path := AcrossSchema(from, to, yes, no, default), AcrossEntry(from, to, yes), [to.section, to.group];
    var job, condition := Job(s, e, []), Member(from.section, Group(from.group, Equals(from, yes)));
    AcrossFill(from, to, yes, no, default);
    AcrossThen(from, to, yes, no, default);
    AcrossElse(from, to, yes, s);
    OneMemberLooks(condition);
    assert JobLooks(job) == NestedLooks([condition]);
    ApartIsConsistent(s, job, Add([from.section, from.group], from.field, no), Add(path, to.field, default),
      Drop(path, to.field), from.section, to.section);
  }

  // -- What the gate does with it ------------------------------------------

  lemma {:induction false} PutApart(d: Json, p: seq<string>, v: Json, q: seq<string>)
    requires At(d, p).Some? && p != [] && q != [] && p[0] != q[0]
    ensures At(Put(d, p, v), q) == At(d, q)
  {
  }

  lemma {:induction false} RunOne(c: Command, d: Json)
    requires ObjectAt(d, c.path).Some?
    ensures Run([c], d) == Put(d, c.path, Do(c.(path := []), Obj(ObjectAt(d, c.path).value)))
  {
    DoAt(c, d);
    assert [c][1..] == [];
  }

  /** The condition of the entry, of the value at `from`. */
  lemma AcrossHolds(from: Place, to: Place, yes: Json, d: Json, fields: Fields)
    requires ObjectAt(d, [from.section, from.group]) == Some(fields) && from.field in fields
    ensures MatchesIf(AcrossEntry(from, to, yes).ifClause.value, d, []) <==> fields[from.field] == yes
  {
    var path, leaf := [from.section, from.group], Equals(from, yes);
    AcrossIfMeaning(path, leaf, d, []);
    AlongTwo(from, leaf);
    EqualsMeaning(from, yes, fields);
  }

  lemma {:induction false} AlongTwo(p: Place, leaf: Clause)
    ensures Along([p.section, p.group], leaf) == Within(p, leaf)
  {
    assert [p.section, p.group][1..] == [p.group] && [p.group][1..] == [];
    assert Along([p.group], leaf) == Group(p.group, leaf);
  }

  lemma EqualsMeaning(p: Place, yes: Json, fields: Fields)
    requires p.field in fields
    ensures MeetsAll(fields, Equals(p, yes).required.value, Equals(p, yes).properties) <==> fields[p.field] == yes
  {
    var list := Equals(p, yes).properties.list;
    assert IsFirstNamed(list, 0, p.field) && |list| == 1;
    assert MeetsClause(fields[p.field], list[0].clause) <==> fields[p.field] == yes;
    assert MeetsMembers(fields[p.field], p.field, Equals(p, yes).properties) <==> fields[p.field] == yes;
    assert Equals(p, yes).required.value[0] == Some(p.field);
  }

  lemma {:induction false} AcrossFilled(s: Schema, source: seq<string>, field: string, no: Json, d: Json, a: Fields,
                                        target: seq<string>)
    requires FillCommands(s, []) == [Add(source, field, no)] && ObjectAt(d, source) == Some(a)
    requires source != [] && target != [] && source[0] != target[0]
    ensures var filled := if field in a then a else a[field := no];
      && FilledData(s, d) == Put(d, source, Obj(filled))
      && ObjectAt(FilledData(s, d), source) == Some(filled) && At(FilledData(s, d), target) == At(d, target)
  {
    var filled := if field in a then a else a[field := no];
    RunOne(Add(source, field, no), d);
    PutAt(d, source, Obj(filled), Obj(filled));
    PutApart(d, source, Obj(filled), target);
  }

  /** The gate on data with both groups: the switch is filled in if it is absent; then the field
      at `to` is filled in if the switch is `yes` and stripped if it is not; nothing else changes. */
  lemma {:induction false} AcrossResult(from: Place, to: Place, yes: Json, no: Json, default: Json, d: Json,
                                        a: Fields, b: Fields)
    requires from.section != to.section && to.section != "" && to.group != ""
    requires ObjectAt(d, [from.section, from.group]) == Some(a) && ObjectAt(d, [to.section, to.group]) == Some(b)
    ensures var source, target := [from.section, from.group], [to.section, to.group];
      var filled := if from.field in a then a else a[from.field := no];
      var after := if filled[from.field] != yes then b - {to.field}
                   else if to.field in b then b else b[to.field := default];
      At(Put(d, source, Obj(filled)), target).Some? &&
      Apply(AcrossSchema(from, to, yes, no, default), d).data ==
        Put(Put(d, source, Obj(filled)), target, Obj(after))
  {
    var s, e := AcrossSchema(from, to, yes, no, default), AcrossEntry(from, to, yes);
    var source, target, job := [from.section, from.group], [to.section, to.group], Job(s, e, []);
    var filled := if from.field in a then a else a[from.field := no];
    AcrossFill(from, to, yes, no, default);
    AcrossThen(from, to, yes, no, default);
    AcrossElse(from, to, yes, s);
    assert e.ifClause.Some?;
    hide AcrossSchema, AcrossEntry, Jobs, FillCommands, ThenCommands, ElseCommands, FilledData, Put, At, Run;
    OneJobRuns(s, job, d);
    AcrossFilled(s, source, from.field, no, d, a, target);
    var next := FilledData(s, d);
    AcrossHolds(from, to, yes, next, filled);
    RunOne(Add(target, to.field, default), next);
    RunOne(Drop(target, to.field), next);
  }
}
