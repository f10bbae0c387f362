/** Schemas on which applying conditional defaults twice differs from once: the conditions of
    `DefaultsTwice` are needed. */
module DefaultsLimits {
  import opened Prelude
  import opened Schema
  import opened Defaults
  import opened DefaultsOneLevel
  import opened DefaultsNested
  import opened DefaultsTwice

  lemma {:induction false} OneScalar(name: string, default: Json, fields: Fields)
    ensures Levels([ScalarProperty(name, default)], fields) == fields
    ensures UnconditionalNested([ScalarProperty(name, default)], fields, []).fields == fields
    ensures ResolveDefault(name, [ScalarProperty(name, default)]) == Some(default)
  {
    assert [ScalarProperty(name, default)][1..] == [];
  }

  /** The object of a property `o` that requires `x`, with default `one`, and has no entries. */
  function NeedsX(one: Json): Schema {
    Schema(true, Some([Some("x")]), Properties([ScalarProperty("x", one)]), None, Some(Obj(map[])))
  }

  lemma NeedsXPasses(one: Json)
    ensures Level(NeedsX(one), Obj(map[])) == Obj(map[])
    ensures Pass(NeedsX(one), true, Obj(map[])) == Obj(map["x" := one])
    ensures Level(NeedsX(one), Obj(map["x" := one])) == Obj(map["x" := one])
    ensures Unconditional(NeedsX(one), Obj(map[]), ["o"]).0 == Obj(map["x" := one])
  {
    OneScalar("x", one, map[]);
    OneScalar("x", one, map["x" := one]);
    assert [Some("x")][1..] == [];
    assert InjectOne(Some("x"), [ScalarProperty("x", one)], map[], []).fields == map["x" := one];
    assert Inject([Some("x")], [ScalarProperty("x", one)], map[], []).fields == map["x" := one];
    FillAnywhere(NeedsX(one), Obj(map[]), ["o"]);
  }

  function RawSchema(e: Entry, one: Json): Schema {
    Schema(true, Some([]), Properties([Property("o", NeedsX(one))]), Some([e]), None)
  }

  lemma {:induction false} RawApply(e: Entry, one: Json, f: Fields)
    requires e == Entry(Requiring("a"), Requiring("o"), None)
    ensures var s, props := RawSchema(e, one), [Property("o", NeedsX(one))];
      Apply(s, Obj(f)).data == Obj(Levels(props, EntryOn(props, e, UnconditionalNested(props, f, []).fields)))
  {
    var s, props := RawSchema(e, one), [Property("o", NeedsX(one))];
    RawIsSibling(s, e, one);
    GateIsLevels(s, Obj(f));
    var filled := UnconditionalNested(props, f, []).fields;
    assert Inject([], props, f, []).fields == f;
    assert [e][1..] == [];
    assert EntriesOn(props, [e], filled) == EntriesOn(props, [], EntryOn(props, e, filled));
  }

  lemma RawFirst(e: Entry, one: Json)
    requires e == Entry(Requiring("a"), Requiring("o"), None)
    ensures var props := [Property("o", NeedsX(one))];
      var first, second := map["a" := one], map["a" := one, "o" := Obj(map[])];
      && UnconditionalNested(props, first, []).fields == first
      && EntryOn(props, e, first) == second && Levels(props, second) == second
  {
    var props, first, second := [Property("o", NeedsX(one))], map["a" := one], map["a" := one, "o" := Obj(map[])];
    NeedsXPasses(one);
    assert props[1..] == [];
    RequireAdds(props, e, first, "a", "o");
    assert LevelOne(props[0], second) == second["o" := Obj(map[])] == second;
  }

  lemma RawSecond(e: Entry, one: Json)
    requires e == Entry(Requiring("a"), Requiring("o"), None)
    ensures var props := [Property("o", NeedsX(one))];
      var second, third := map["a" := one, "o" := Obj(map[])], map["a" := one, "o" := Obj(map["x" := one])];
      && UnconditionalNested(props, second, []).fields == third
      && EntryOn(props, e, third) == third && Levels(props, third) == third
  {
    var props := [Property("o", NeedsX(one))];
    var second, third := map["a" := one, "o" := Obj(map[])], map["a" := one, "o" := Obj(map["x" := one])];
    NeedsXPasses(one);
    assert props[1..] == [] && [] + ["o"] == ["o"];
    RequireAdds(props, e, third, "a", "o");
    assert UnconditionalChild(props[0], second, []).fields == second["o" := Obj(map["x" := one])] == third;
    assert LevelOne(props[0], third) == third["o" := Obj(map["x" := one])] == third;
  }

  /** A default must settle: an entry that adds the object `{}` for `o` where `a` is, and an
      object that requires `x`. `{a}` becomes `{a, o: {}}`, and that `{a, o: {x}}`. */
  lemma {:induction false} RawDefaultIsNotIdempotent(s: Schema, e: Entry, one: Json)
    requires s == RawSchema(e, one) && e == Entry(Requiring("a"), Requiring("o"), None)
    ensures SiblingOnly(s) && ReadsAreFinal(PropertiesOf(s), EntriesOf(s))
    ensures !DefaultSettles(NeedsX(one), true, Obj(map[]))
    ensures Apply(s, Obj(map["a" := one])).data == Obj(map["a" := one, "o" := Obj(map[])])
    ensures Apply(s, Obj(map["a" := one, "o" := Obj(map[])])).data == Obj(map["a" := one, "o" := Obj(map["x" := one])])
  {
    RawIsSibling(s, e, one);
    hide EntryOn, Levels, UnconditionalNested, Apply, SiblingOnly, ReadsAreFinal, Pass, Level;
    NeedsXPasses(one);
    RawFirst(e, one);
    RawSecond(e, one);
    RawApply(e, one, map["a" := one]);
    RawApply(e, one, map["a" := one, "o" := Obj(map[])]);
    assert "x" in map["x" := one];
  }

  lemma {:induction false} RawIsSibling(s: Schema, e: Entry, one: Json)
    requires s == Schema(true, Some([]), Properties([Property("o", NeedsX(one))]), Some([e]), None)
    requires e == Entry(Requiring("a"), Requiring("o"), None)
    ensures SiblingOnly(s) && ReadsAreFinal(PropertiesOf(s), EntriesOf(s))
    ensures ResolveDefault("o", PropertiesOf(s)) == Some(Obj(map[]))
  {
    assert [Property("o", NeedsX(one))][1..] == [] && [ScalarProperty("x", one)][1..] == [];
    assert SiblingOnlyIn([ScalarProperty("x", one)]);
  }

  // -- An entry that compares an object ------------------------------------

  /** An object that adds `x` where `b` is. */
  function AddsX(one: Json): Schema {
    var e := Entry(Requiring("b"), Requiring("x"), None);
    Schema(true, None, Properties([ScalarProperty("x", one)]), Some([e]), None)
  }

  /** An entry that wants `y` where `o` is exactly `{b}`, and forbids it otherwise. */
  function WantsY(one: Json): Entry {
    var isB := Clause(None, NoMembers, Some(Obj(map["b" := one])), None);
    Entry(Some(Clause(Some([Some("o")]), Members([Member("o", isB)]), None, None)), Requiring("y"), Forbid("y"))
  }

  function ComparingProperties(one: Json): seq<Property> {
    [Property("o", AddsX(one)), ScalarProperty("y", one)]
  }

  lemma AddsXLevel(one: Json, f: Fields)
    requires "b" in f
    ensures Level(AddsX(one), Obj(f)) == Obj(if "x" in f then f else f["x" := one])
  {
    var props, e := [ScalarProperty("x", one)], Entry(Requiring("b"), Requiring("x"), None);
    OneScalar("x", one, f);
    OneScalar("x", one, f["x" := one]);
    RequireAdds(props, e, f, "b", "x");
    assert [e][1..] == [];
    assert EntriesOn(props, [e], f) == EntriesOn(props, [], EntryOn(props, e, f));
  }

  lemma WantsYDecides(one: Json, f: Fields)
    requires "o" in f
    ensures EntryOn(ComparingProperties(one), WantsY(one), f) ==
      if f["o"] != Obj(map["b" := one]) then f - {"y"} else if "y" in f then f else f["y" := one]
  {
    var props, e := ComparingProperties(one), WantsY(one);
    var members := e.ifClause.value.properties;
    assert [Some("o")][1..] == [] && [Some("y")][1..] == [] && props[1..] == [ScalarProperty("y", one)];
    assert FindMember(members.list, "o") == Some(members.list[0].clause);
    assert MatchesFields([Some("o")], members, f) == (f["o"] == Obj(map["b" := one]));
    assert FindProperty(props, "y") == FindProperty(props[1..], "y");
    assert ResolveDefault("y", props) == Some(one);
    if f["o"] == Obj(map["b" := one]) {
      assert Inject([Some("y")], props, f, []).fields == InjectOne(Some("y"), props, f, []).fields;
    } else {
      var strip := [Member("y", Flag(false))];
      assert ElseMembers(e) == strip && strip[1..] == [];
      assert Strip(strip, f, []).fields == StripOne(strip[0], f, []).fields;
      assert "y" !in f ==> f - {"y"} == f;
    }
  }

  lemma {:induction false} ComparingApply(s: Schema, one: Json, f: Fields)
    requires s == Schema(true, None, Properties(ComparingProperties(one)), Some([WantsY(one)]), None)
    ensures SiblingOnly(s) && ReadsAreFinal(PropertiesOf(s), EntriesOf(s))
    ensures Apply(s, Obj(f)).data ==
      Obj(Levels(ComparingProperties(one), EntryOn(ComparingProperties(one), WantsY(one), f)))
  {
    var props, e := ComparingProperties(one), WantsY(one);
    assert props[1..] == [ScalarProperty("y", one)] && props[1..][1..] == [] && [e][1..] == [];
    assert [ScalarProperty("x", one)][1..] == [] && SiblingOnlyIn([ScalarProperty("x", one)]);
    assert ElseMembers(e)[0].clause.Flag?;
    assert IsSibling(e) && SiblingOnly(AddsX(one));
    assert SiblingOnlyIn(props[1..]);
    assert SiblingOnly(s);
    GateIsLevels(s, Obj(f));
    assert EntriesOn(props, [e], f) == EntriesOn(props, [], EntryOn(props, e, f));
  }

  lemma {:induction false} ComparingLevels(one: Json, f: Fields, inner: Fields)
    requires "o" in f && f["o"] == Obj(inner) && "b" in inner
    ensures Levels(ComparingProperties(one), f) ==
      f["o" := Obj(if "x" in inner then inner else inner["x" := one])]
  {
    var props := ComparingProperties(one);
    AddsXLevel(one, inner);
    assert props[1..] == [ScalarProperty("y", one)];
    OneScalar("y", one, LevelOne(props[0], f));
  }

  lemma ComparingFirst(s: Schema, one: Json)
    requires s == Schema(true, None, Properties(ComparingProperties(one)), Some([WantsY(one)]), None)
    ensures var before, after := Obj(map["b" := one]), Obj(map["b" := one, "x" := one]);
      Apply(s, Obj(map["o" := before])).data == Obj(map["o" := after, "y" := one])
  {
    var inner, wider := map["b" := one], map["b" := one, "x" := one];
    var first, second := map["o" := Obj(inner)], map["o" := Obj(wider), "y" := one];
    ComparingApply(s, one, first);
    WantsYDecides(one, first);
    hide Levels, EntryOn, Apply, SiblingOnly, ReadsAreFinal, WantsY, ComparingProperties;
    assert "x" !in inner && inner["x" := one] == wider;
    ComparingLevels(one, first["y" := one], inner);
    assert first["y" := one]["o" := Obj(wider)] == second;
  }

  lemma ComparingSecond(s: Schema, one: Json)
    requires s == Schema(true, None, Properties(ComparingProperties(one)), Some([WantsY(one)]), None)
    ensures var after := Obj(map["b" := one, "x" := one]);
      Apply(s, Obj(map["o" := after, "y" := one])).data == Obj(map["o" := after])
  {
    var wider := map["b" := one, "x" := one];
    var second, third := map["o" := Obj(wider), "y" := one], map["o" := Obj(wider)];
    ComparingApply(s, one, second);
    WantsYDecides(one, second);
    hide Levels, EntryOn, Apply, SiblingOnly, ReadsAreFinal, WantsY, ComparingProperties;
    assert "x" in wider && "x" !in map["b" := one];
    ComparingLevels(one, third, wider);
    assert second - {"y"} == third == third["o" := Obj(wider)];
  }

  /** An object may not be compared: an entry that wants `y` while `o` is exactly `{b}`, above
      an object that adds `x` where `b` is. `{o: {b}}` becomes `{o: {b, x}, y}`, and that
      `{o: {b, x}}`. */
  lemma {:induction false} ComparedObjectIsNotIdempotent(s: Schema, one: Json)
    requires s == Schema(true, None, Properties(ComparingProperties(one)), Some([WantsY(one)]), None)
    ensures SiblingOnly(s) && ReadsAreFinal(PropertiesOf(s), EntriesOf(s))
    ensures var before, after := Obj(map["b" := one]), Obj(map["b" := one, "x" := one]);
      && Apply(s, Obj(map["o" := before])).data == Obj(map["o" := after, "y" := one])
      && Apply(s, Obj(map["o" := after, "y" := one])).data == Obj(map["o" := after])
  {
    ComparingApply(s, one, map[]);
    ComparingFirst(s, one);
    ComparingSecond(s, one);
  }
}
