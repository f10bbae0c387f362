/** `default_apply_core` as it runs: the data edited in place and the report. */
module DefaultGate {
  import opened Prelude
  import opened Schema
  import opened Defaults

  /** The value stands for its summary in the report. */
  datatype DefaultApplied = DefaultApplied(path: seq<string>, field: string, value: Json)

  datatype FieldStripped = FieldStripped(path: seq<string>, field: string)

  function AdditionOf(edit: Edit): seq<DefaultApplied> {
    match edit
    case Added(path, field, value) => [DefaultApplied(path, field, value)]
    case Stripped(_, _) => []
  }

  function RemovalOf(edit: Edit): seq<FieldStripped> {
    match edit
    case Added(_, _, _) => []
    case Stripped(path, field) => [FieldStripped(path, field)]
  }

  function Additions(edits: seq<Edit>): seq<DefaultApplied> {
    if edits == [] then [] else AdditionOf(edits[0]) + Additions(edits[1..])
  }

  function Removals(edits: seq<Edit>): seq<FieldStripped> {
    if edits == [] then [] else RemovalOf(edits[0]) + Removals(edits[1..])
  }

  /** The report has, in order, path, field and value of each addition in one list, and path and
      field of each removal in the other. */
  lemma {:induction false} ReportMeaning(edits: seq<Edit>, path: seq<string>, field: string, v: Json)
    ensures Additions([]) == [] && Removals([]) == []
    ensures Additions(edits + [Added(path, field, v)]) == Additions(edits) + [DefaultApplied(path, field, v)]
    ensures Removals(edits + [Added(path, field, v)]) == Removals(edits)
    ensures Additions(edits + [Stripped(path, field)]) == Additions(edits)
    ensures Removals(edits + [Stripped(path, field)]) == Removals(edits) + [FieldStripped(path, field)]
  {
    ReportAppend(edits, [Added(path, field, v)]);
    ReportAppend(edits, [Stripped(path, field)]);
    assert [Added(path, field, v)][1..] == [] && [Stripped(path, field)][1..] == [];
  }

  lemma {:induction false} ReportAppend(a: seq<Edit>, b: seq<Edit>)
    ensures Additions(a + b) == Additions(a) + Additions(b)
    ensures Removals(a + b) == Removals(a) + Removals(b)
  {
    if a == [] {
      assert a + b == b;
    } else {
      assert (a + b)[0] == a[0] && (a + b)[1..] == a[1..] + b;
      ReportAppend(a[1..], b);
      AppendAssociates(AdditionOf(a[0]), Additions(a[1..]), Additions(b));
      AppendAssociates(RemovalOf(a[0]), Removals(a[1..]), Removals(b));
    }
  }

  /** A loop over `required` or `members` that has made the edits `soFar` and has `rest`
      still to do, out of `total`. */
  predicate Continues(total: Edited, soFar: seq<Edit>, rest: Edited) {
    rest.fields == total.fields && soFar + rest.edits == total.edits
  }

  function After(earlier: seq<Edit>, e: Edited): Edited {
    Edited(e.fields, earlier + e.edits)
  }

  lemma ContinueStep(total: Edited, soFar: seq<Edit>, first: Edited, rest: Edited)
    requires Continues(total, soFar, After(first.edits, rest))
    ensures Continues(total, soFar + first.edits, rest)
    ensures first.edits == [] ==> soFar + first.edits == soFar
  {
    assert soFar + (first.edits + rest.edits) == (soFar + first.edits) + rest.edits;
  }

  class Applier {
    var data: Json
    var defaultsApplied: seq<DefaultApplied>
    var fieldsStripped: seq<FieldStripped>

    /** Both lists of the report in the order of the edits. */
    ghost var edits: seq<Edit>

    ghost predicate Valid()
      reads this
    {
      defaultsApplied == Additions(edits) && fieldsStripped == Removals(edits)
    }

    ghost function Now(): Gate
      reads this
    {
      Gate(data, edits)
    }

    constructor (data: Json)
      ensures Valid() && Now() == Gate(data, [])
    {
      this.data, defaultsApplied, fieldsStripped, edits := data, [], [], [];
    }

    method PushDefault(path: seq<string>, field: string, value: Json)
      requires Valid()
      modifies `defaultsApplied, `edits
      ensures Valid() && edits == old(edits) + [Added(path, field, value)]
    {
      defaultsApplied := defaultsApplied + [DefaultApplied(path, field, value)];
      ReportAppend(edits, [Added(path, field, value)]);
      edits := edits + [Added(path, field, value)];
    }

    method PushStripped(path: seq<string>, field: string)
      requires Valid()
      modifies `fieldsStripped, `edits
      ensures Valid() && edits == old(edits) + [Stripped(path, field)]
    {
      fieldsStripped := fieldsStripped + [FieldStripped(path, field)];
      ReportAppend(edits, [Stripped(path, field)]);
      edits := edits + [Stripped(path, field)];
    }

    method InjectRequiredDefaults(required: seq<Required>, props: seq<Property>, fields: Fields,
                                  path: seq<string>) returns (after: Fields)
      requires Valid()
      modifies `defaultsApplied, `edits
      ensures Valid()
      ensures Edited(after, edits) == After(old(edits), Inject(required, props, fields, path))
    {
      after := fields;
      ghost var total := After(edits, Inject(required, props, fields, path));
      assert required[0..] == required;
      for i := 0 to |required|
        invariant Valid()
        invariant Continues(total, edits, Inject(required[i..], props, after, path))
      {
        assert required[i..][0] == required[i] && required[i..][1..] == required[i + 1..];
        ghost var first := InjectOne(required[i], props, after, path);
        ContinueStep(total, edits, first, Inject(required[i + 1..], props, first.fields, path));
        if required[i].None? {
          continue;
        }
        var field := required[i].value;
        if field in after {
          continue;
        }
        var default := ResolveDefault(field, props);
        if default.Some? {
          PushDefault(path, field, default.value);
          after := after[field := default.value];
        }
      }
    }

    method ApplyUnconditionalDefaults(s: Schema, d: Json, path: seq<string>) returns (after: Json)
      requires Valid()
      modifies `defaultsApplied, `edits
      ensures Valid()
      ensures after == Unconditional(s, d, path).0 && edits == old(edits) + Unconditional(s, d, path).1
      decreases s
    {
      if s.required.None? || s.properties.NoProperties? || !d.Obj? {
        return d;
      }
      var props := s.properties.list;
      ghost var own := Inject(s.required.value, props, d.fields, path);
      AppendAssociates(edits, own.edits, UnconditionalNested(props, own.fields, path).edits);
      var fields := InjectRequiredDefaults(s.required.value, props, d.fields, path);
      ghost var total := After(edits, UnconditionalNested(props, fields, path));
      assert props[0..] == props;
      for i := 0 to |props|
        invariant Valid()
        invariant Continues(total, edits, UnconditionalNested(props[i..], fields, path))
      {
        assert props[i..][0] == props[i] && props[i..][1..] == props[i + 1..];
        ghost var first := UnconditionalChild(props[i], fields, path);
        ContinueStep(total, edits, first, UnconditionalNested(props[i + 1..], first.fields, path));
        if !props[i].schema.objectType {
          continue;
        }
        if props[i].name in fields {
          var child := ApplyUnconditionalDefaults(props[i].schema, fields[props[i].name], path + [props[i].name]);
          fields := fields[props[i].name := child];
        }
      }
      return Obj(fields);
    }

    method InjectInto(required: seq<Required>, props: Properties, path: seq<string>)
      requires Valid()
      modifies this
      ensures Valid() && Now() == InjectAt(required, props, path, old(Now()))
    {
      var target := ObjectAt(data, path);
      if target.Some? {
        if props.NoProperties? {
          return;
        }
        var after := InjectRequiredDefaults(required, props.list, target.value, path);
        data := Put(data, path, Obj(after));
      }
    }

    method ApplyFlatThen(clause: Clause, local: Schema, path: seq<string>)
      requires Valid()
      modifies this
      ensures Valid() && Now() == FlatThen(clause, local, path, old(Now()))
    {
      if !clause.Clause? || clause.required.None? {
        return;
      }
      InjectInto(clause.required.value, local.properties, path);
    }

    method ApplyCrossSectionThen(clause: Clause, root: Schema)
      requires Valid()
      modifies this
      ensures Valid() && Now() == CrossThen(clause, root, old(Now()))
    {
      if !clause.Clause? || clause.properties.NoMembers? {
        return;
      }
      ApplyNestedThen(clause.properties.list, root, []);
    }

    method ApplyNestedThen(members: seq<Member>, root: Schema, path: seq<string>)
      requires Valid()
      modifies this
      ensures Valid() && Now() == NestedThen(members, root, path, old(Now()))
      decreases members
    {
      for i := 0 to |members|
        invariant Valid()
        invariant NestedThen(members[i..], root, path, Now()) == NestedThen(members, root, path, old(Now()))
      {
        var m := members[i];
        assert members[i..][0] == m && members[i..][1..] == members[i + 1..];
        if !m.clause.Clause? {
          continue;
        }
        var child := path + [m.name];
        if m.clause.required.Some? {
          InjectInto(m.clause.required.value, ResolveSchemaProperties(root, child), child);
          continue;
        }
        if m.clause.properties.Members? {
          ApplyNestedThen(m.clause.properties.list, root, child);
        }
      }
    }

    method StripFields(members: seq<Member>, path: seq<string>)
      requires Valid()
      modifies this
      ensures Valid() && Now() == StripAt(members, path, old(Now()))
    {
      var target := ObjectAt(data, path);
      if target.None? {
        return;
      }
      var fields := target.value;
      ghost var total := After(edits, Strip(members, fields, path));
      assert members[0..] == members;
      for i := 0 to |members|
        invariant Valid() && data == old(data)
        invariant Continues(total, edits, Strip(members[i..], fields, path))
      {
        assert members[i..][0] == members[i] && members[i..][1..] == members[i + 1..];
        ghost var first := StripOne(members[i], fields, path);
        ContinueStep(total, edits, first, Strip(members[i + 1..], first.fields, path));
        if members[i].clause == Flag(false) && members[i].name in fields {
          fields := fields - {members[i].name};
          PushStripped(path, members[i].name);
        }
      }
      data := Put(data, path, Obj(fields));
    }

    method ApplyElseStrip(clause: Clause, path: seq<string>)
      requires Valid()
      modifies this
      ensures Valid() && Now() == ElseStrip(clause, path, old(Now()))
    {
      if !clause.Clause? || clause.properties.NoMembers? {
        return;
      }
      if IsFlat(clause.properties.list) {
        StripFields(clause.properties.list, path);
        return;
      }
      StripNestedElse(clause.properties.list, []);
    }

    method StripNestedElse(members: seq<Member>, path: seq<string>)
      requires Valid()
      modifies this
      ensures Valid() && Now() == StripNested(members, path, old(Now()))
      decreases members
    {
      for i := 0 to |members|
        invariant Valid()
        invariant StripNested(members[i..], path, Now()) == StripNested(members, path, old(Now()))
      {
        var m := members[i];
        assert members[i..][0] == m && members[i..][1..] == members[i + 1..];
        if !m.clause.Clause? {
          StripFields([m], path);
          continue;
        }
        if m.clause.properties.Members? {
          StripNestedElse(m.clause.properties.list, path + [m.name]);
        }
      }
    }

    method ProcessAllOfEntries(root: Schema, local: Schema, path: seq<string>)
      requires Valid()
      modifies this
      ensures Valid() && Now() == ProcessAllOf(root, local, path, old(Now()))
    {
      if local.allOf.None? {
        return;
      }
      var entries := local.allOf.value;
      for i := 0 to |entries|
        invariant Valid()
        invariant ApplyEntries(root, local, entries[i..], path, Now()) ==
          ApplyEntries(root, local, entries, path, old(Now()))
      {
        var e := entries[i];
        assert entries[i..][0] == e && entries[i..][1..] == entries[i + 1..];
        if e.ifClause.None? {
          continue;
        }
        if MatchesIf(e.ifClause.value, data, path) {
          if e.thenClause.Some? {
            ApplyFlatThen(e.thenClause.value, local, path);
            ApplyCrossSectionThen(e.thenClause.value, root);
          }
        } else if e.elseClause.Some? {
          ApplyElseStrip(e.elseClause.value, path);
        }
      }
    }

    method WalkPropertiesForAllOf(root: Schema, local: Schema, path: seq<string>)
      requires Valid()
      modifies this
      ensures Valid() && Now() == WalkProperties(root, local, path, old(Now()))
      decreases local
    {
      if local.properties.NoProperties? {
        return;
      }
      var props := local.properties.list;
      for i := 0 to |props|
        invariant Valid()
        invariant WalkList(root, props[i..], path, Now()) == WalkList(root, props, path, old(Now()))
      {
        assert props[i..][0] == props[i] && props[i..][1..] == props[i + 1..];
        if !props[i].schema.objectType {
          continue;
        }
        var child := path + [props[i].name];
        ProcessAllOfEntries(root, props[i].schema, child);
        WalkPropertiesForAllOf(root, props[i].schema, child);
      }
    }

    /** `apply_conditional_defaults`. The report replays to the new data. */
    method ApplyConditionalDefaults(s: Schema)
      requires Valid() && edits == []
      modifies this
      ensures Valid() && Now() == Apply(s, old(data))
      ensures Replay(old(data), edits) == Some(data)
    {
      ReportIsExactLog(s, data);
      ghost var (filled, first) := Unconditional(s, data, []);
      data := ApplyUnconditionalDefaults(s, data, []);
      assert [] + first == first;
      assert Now() == Gate(filled, first);
      ProcessAllOfEntries(s, s, []);
      WalkPropertiesForAllOf(s, s, []);
    }
  }
}
