/** Applying conditional defaults twice, for sibling conditionals at any depth. */
module DefaultsTwice {
  import opened Prelude
  import opened Schema
  import opened Defaults
  import opened DefaultsOneLevel
  import opened DefaultsNested

  /** The schema of a property that holds an object. */
  function ObjectSchema(props: seq<Property>, name: string): Option<Schema> {
    match FindProperty(props, name)
    case Some(child) => if child.objectType then Some(child) else None
    case None => None
  }

  // -- One pass ------------------------------------------------------------

  /** A pass over the data of a level; below a level without `required` or `properties`
      nothing is filled in. */
  function Pass(s: Schema, fill: bool, d: Json): Json {
    Level(s, if fill then Unconditional(s, d, []).0 else d)
  }

  predicate Descends(s: Schema, fill: bool) {
    fill && s.required.Some? && s.properties.Properties?
  }

  /** The schema as the pass uses it for the fields of the level itself. */
  function Filling(s: Schema, fill: bool): Schema {
    if Descends(s, fill) then s else s.(required := None)
  }

  // -- The schemas ---------------------------------------------------------

  /** A default that an entry adds for an object comes after the unconditional pass. What the
      levels make of it is not changed by another pass. */
  predicate DefaultSettles(child: Schema, fill: bool, default: Json) {
    Pass(child, fill, Level(child, default)) == Level(child, default)
  }

  /** Entries may ask whether a field with an object is present, and may strip it; they do not
      compare it, and add it only with a default that settles. */
  ghost predicate KeepsObjects(props: seq<Property>, es: seq<Entry>, fill: bool) {
    forall k, x :: 0 <= k < |es| && ObjectSchema(props, x).Some? ==>
      && !(Reads(es[k], x) && Compares(es[k], x))
      && (MayAdd(props, es[k], x) ==>
            DefaultSettles(ObjectSchema(props, x).value, fill, ResolveDefault(x, props).value))
  }

  /** At every depth: sibling conditionals that keep objects, none writing what it or an
      earlier one reads. */
  ghost predicate Orderly(s: Schema, fill: bool)
    decreases s, 1
  {
    && (forall e :: e in EntriesOf(s) ==> IsSibling(e))
    && ReadsAreFinal(PropertiesOf(s), EntriesOf(s))
    && KeepsObjects(PropertiesOf(s), EntriesOf(s), Descends(s, fill))
    && (s.properties.Properties? ==>
          DistinctIn(s.properties.list) && OrderlyIn(s.properties.list, Descends(s, fill)))
  }

  ghost predicate OrderlyIn(props: seq<Property>, fill: bool)
    decreases props, 0
  {
    props == [] ||
    ((props[0].schema.objectType ==> Orderly(props[0].schema, fill)) && OrderlyIn(props[1..], fill))
  }

  lemma {:induction false} OrderlySiblings(s: Schema, fill: bool)
    requires Orderly(s, fill)
    ensures SiblingOnly(s)
    decreases s, 1
  {
    if s.properties.Properties? {
      OrderlySiblingsIn(s.properties.list, Descends(s, fill));
    }
  }

  lemma {:induction false} OrderlySiblingsIn(props: seq<Property>, fill: bool)
    requires OrderlyIn(props, fill)
    ensures SiblingOnlyIn(props)
    decreases props, 0
  {
    if props != [] {
      if props[0].schema.objectType {
        OrderlySiblings(props[0].schema, fill);
      }
      OrderlySiblingsIn(props[1..], fill);
    }
  }

  // -- Filling and levels, field by field ----------------------------------

  lemma {:induction false} FillAnywhere(s: Schema, d: Json, path: seq<string>)
    ensures Unconditional(s, d, path).0 == Unconditional(s, d, []).0
    decreases s, 1
  {
    if s.required.Some? && s.properties.Properties? && d.Obj? {
      InjectAnywhere(s.required.value, s.properties.list, d.fields, path);
      FillNestedAnywhere(s.properties.list, Inject(s.required.value, s.properties.list, d.fields, path).fields, path);
    }
  }

  lemma {:induction false} FillNestedAnywhere(props: seq<Property>, fields: Fields, path: seq<string>)
    ensures UnconditionalNested(props, fields, path).fields == UnconditionalNested(props, fields, []).fields
    decreases props, 0
  {
    if props != [] {
      if props[0].schema.objectType && props[0].name in fields {
        FillAnywhere(props[0].schema, fields[props[0].name], path + [props[0].name]);
        FillAnywhere(props[0].schema, fields[props[0].name], [] + [props[0].name]);
      }
      FillNestedAnywhere(props[1..], UnconditionalChild(props[0], fields, path).fields, path);
    }
  }

  /** Filling below a level changes exactly the objects that are there. */
  lemma {:induction false} FillNestedAt(props: seq<Property>, fields: Fields, x: string)
    requires DistinctIn(props)
    ensures var after := UnconditionalNested(props, fields, []).fields;
      && (x in after <==> x in fields)
      && (x in fields && ObjectSchema(props, x).Some? ==>
           after[x] == Unconditional(ObjectSchema(props, x).value, fields[x], []).0)
      && (x in fields && ObjectSchema(props, x).None? ==> after[x] == fields[x])
    decreases props, 0
  {
    if props != [] {
      var first := UnconditionalChild(props[0], fields, []).fields;
      FillNestedAt(props[1..], first, x);
      if props[0].name in fields {
        FillAnywhere(props[0].schema, fields[props[0].name], [] + [props[0].name]);
      }
    }
  }

  /** Likewise for the conditionals of the levels below. */
  lemma {:induction false} LevelsAt(props: seq<Property>, fields: Fields, x: string)
    requires DistinctIn(props)
    ensures var after := Levels(props, fields);
      && (x in after <==> x in fields)
      && (x in fields && ObjectSchema(props, x).Some? ==> after[x] == Level(ObjectSchema(props, x).value, fields[x]))
      && (x in fields && ObjectSchema(props, x).None? ==> after[x] == fields[x])
    decreases props, 0
  {
    if props != [] {
      LevelsAt(props[1..], LevelOne(props[0], fields), x);
    }
  }

  // -- The entries of a level ----------------------------------------------

  /** Two objects that agree, but for the objects they hold. */
  ghost predicate AgreeOutside(props: seq<Property>, a: Fields, b: Fields) {
    forall x :: if ObjectSchema(props, x).None? then Agree(a, b, x) else x in a <==> x in b
  }

  /** The value of a field after the entries: what it was if it was there all the time, else
      the default. */
  lemma {:induction false} EntriesValue(props: seq<Property>, es: seq<Entry>, f: Fields, x: string)
    ensures var after := EntriesOn(props, es, f);
      && (Survives(props, es, f, x) ==> x in after && after[x] == f[x])
      && (!Survives(props, es, f, x) && x in after ==>
            (exists k :: 0 <= k < |es| && MayAdd(props, es[k], x)) && after[x] == ResolveDefault(x, props).value)
    decreases |es|
  {
    if es != [] {
      var e, tail, g := es[0], es[1..], EntryOn(props, es[0], f);
      EntryMeaning(props, e, f, x);
      EntriesValue(props, tail, g, x);
      if k :| 0 <= k < |tail| && MayAdd(props, tail[k], x) {
        assert MayAdd(props, es[k + 1], x);
      }
      if x !in f && x in g {
        assert MayAdd(props, es[0], x);
      }
    }
  }

  lemma EntryOutside(props: seq<Property>, e: Entry, a: Fields, b: Fields)
    requires IsSibling(e) && AgreeOutside(props, a, b)
    requires forall x :: ObjectSchema(props, x).Some? ==> !(Reads(e, x) && Compares(e, x))
    ensures AgreeOutside(props, EntryOn(props, e, a), EntryOn(props, e, b))
  {
    if e.ifClause.Some? {
      forall x | Reads(e, x)
        ensures Alike(e, a, b, x)
      {
        assert if ObjectSchema(props, x).None? then Agree(a, b, x) else x in a <==> x in b;
      }
      SameDecision(e, a, b);
    }
    forall x
      ensures if ObjectSchema(props, x).None? then Agree(EntryOn(props, e, a), EntryOn(props, e, b), x)
              else x in EntryOn(props, e, a) <==> x in EntryOn(props, e, b)
    {
      assert if ObjectSchema(props, x).None? then Agree(a, b, x) else x in a <==> x in b;
      hide EntryOn, Holds, ResolveDefault;
      EntryMeaning(props, e, a, x);
      EntryMeaning(props, e, b, x);
    }
  }

  lemma KeepsObjectsTail(props: seq<Property>, es: seq<Entry>, fill: bool)
    requires es != [] && KeepsObjects(props, es, fill)
    ensures KeepsObjects(props, es[1..], fill)
  {
    forall k, x | 0 <= k < |es[1..]| && ObjectSchema(props, x).Some?
      ensures es[1..][k] == es[k + 1]
    {
    }
  }

  lemma {:induction false} EntriesOutside(props: seq<Property>, es: seq<Entry>, fill: bool, a: Fields, b: Fields)
    requires KeepsObjects(props, es, fill) && (forall e :: e in es ==> IsSibling(e)) && AgreeOutside(props, a, b)
    ensures AgreeOutside(props, EntriesOn(props, es, a), EntriesOn(props, es, b))
    ensures forall x :: ObjectSchema(props, x).Some? ==> (Survives(props, es, a, x) <==> Survives(props, es, b, x))
    decreases |es|
  {
    if es != [] {
      assert es[0] in es;
      KeepsObjectsTail(props, es, fill);
      EntryOutside(props, es[0], a, b);
      EntriesOutside(props, es[1..], fill, EntryOn(props, es[0], a), EntryOn(props, es[0], b));
    }
  }

  lemma FillOutside(s: Schema, a: Fields, b: Fields, x: string)
    ensures Agree(a, b, x) ==> Agree(FillOn(s, a), FillOn(s, b), x)
    ensures (x in a <==> x in b) ==> (x in FillOn(s, a) <==> x in FillOn(s, b))
    ensures x in a ==> x in FillOn(s, a) && FillOn(s, a)[x] == a[x]
  {
    InjectMeaning(RequiredOf(s), PropertiesOf(s), a, [], x);
    InjectMeaning(RequiredOf(s), PropertiesOf(s), b, [], x);
  }

  // -- One pass, field by field --------------------------------------------

  /** The fields after the unconditional part of a pass. */
  function Filled(s: Schema, fill: bool, f: Fields): Fields {
    var own := FillOn(Filling(s, fill), f);
    if Descends(s, fill) then UnconditionalNested(PropertiesOf(s), own, []).fields else own
  }

  lemma PassIs(s: Schema, fill: bool, f: Fields)
    ensures Pass(s, fill, Obj(f)) ==
      Obj(Levels(PropertiesOf(s), EntriesOn(PropertiesOf(s), EntriesOf(s), Filled(s, fill, f))))
  {
    if !Descends(s, fill) {
      InjectNothing([], PropertiesOf(s), f, []);
    }
  }

  lemma {:induction false} FilledOutside(s: Schema, fill: bool, f: Fields)
    requires Orderly(s, fill)
    ensures AgreeOutside(PropertiesOf(s), Filled(s, fill, f), FillOn(Filling(s, fill), f))
  {
    var props, own := PropertiesOf(s), FillOn(Filling(s, fill), f);
    forall x
      ensures if ObjectSchema(props, x).None? then Agree(Filled(s, fill, f), own, x)
              else x in Filled(s, fill, f) <==> x in own
    {
      FillNestedAt(props, own, x);
    }
  }

  /** What a pass makes of an object that the level holds. */
  function ObjectAfter(s: Schema, fill: bool, f: Fields, child: Schema, x: string): Json {
    var props, own := PropertiesOf(s), FillOn(Filling(s, fill), f);
    if Survives(props, EntriesOf(s), own, x) then Pass(child, Descends(s, fill), own[x])
    else if ResolveDefault(x, props).Some? then Level(child, ResolveDefault(x, props).value)
    else Null
  }

  /** One field after a pass. Which fields are there, and all values but objects, is what the
      level's own entries give. An object that was there all the time is what a pass over it
      gives, one that an entry added its default at its level. */
  lemma {:induction false} PassAt(s: Schema, fill: bool, f: Fields, x: string)
    requires Orderly(s, fill)
    ensures var props, core := PropertiesOf(s), ApplyOn(Filling(s, fill), f);
      Pass(s, fill, Obj(f)).Obj? &&
      var after := Pass(s, fill, Obj(f)).fields;
      match ObjectSchema(props, x)
      case Some(child) => (x in after <==> x in core) && (x in after ==> after[x] == ObjectAfter(s, fill, f, child, x))
      case None => Agree(after, core, x)
  {
    var props, es, own, filled := PropertiesOf(s), EntriesOf(s), FillOn(Filling(s, fill), f), Filled(s, fill, f);
    PassIs(s, fill, f);
    LevelsAt(props, EntriesOn(props, es, filled), x);
    FilledOutside(s, fill, f);
    EntriesOutside(props, es, Descends(s, fill), filled, own);
    assert if ObjectSchema(props, x).None? then Agree(EntriesOn(props, es, filled), EntriesOn(props, es, own), x)
           else x in EntriesOn(props, es, filled) <==> x in EntriesOn(props, es, own);
    FillNestedAt(props, own, x);
    EntriesValue(props, es, filled, x);
    if Survives(props, es, own, x) {
      assert x in own;
    }
  }

  // -- The second pass -----------------------------------------------------

  lemma {:induction false} PassTwice(s: Schema, fill: bool, d: Json)
    requires Orderly(s, fill)
    ensures Pass(s, fill, Pass(s, fill, d)) == Pass(s, fill, d)
    decreases s, 2
  {
    if d.Obj? {
      PassAt(s, fill, d.fields, "");
      var once := Pass(s, fill, d).fields;
      PassAt(s, fill, once, "");
      var twice := Pass(s, fill, Obj(once)).fields;
      forall x
        ensures Agree(twice, once, x)
      {
        PassTwiceAt(s, fill, d.fields, once, twice, x);
      }
      AgreeEverywhere(twice, once);
    }
  }

  /** The second pass runs on fields that agree with what the level's own entries gave. */
  lemma {:induction false} SecondStart(s: Schema, fill: bool, f: Fields, once: Fields)
    requires Orderly(s, fill) && Obj(once) == Pass(s, fill, Obj(f))
    ensures var level := Filling(s, fill);
      AgreeOutside(PropertiesOf(s), FillOn(level, once), FillOn(level, ApplyOn(level, f)))
  {
    var props, level := PropertiesOf(s), Filling(s, fill);
    var core := ApplyOn(level, f);
    forall x
      ensures if ObjectSchema(props, x).None? then Agree(FillOn(level, once), FillOn(level, core), x)
              else x in FillOn(level, once) <==> x in FillOn(level, core)
    {
      PassAt(s, fill, f, x);
      FillOutside(level, once, core, x);
    }
  }

  lemma {:induction false} PassTwiceAt(s: Schema, fill: bool, f: Fields, once: Fields, twice: Fields, x: string)
    requires Orderly(s, fill) && Obj(once) == Pass(s, fill, Obj(f)) && Obj(twice) == Pass(s, fill, Obj(once))
    ensures Agree(twice, once, x)
    decreases s, 1
  {
    var props, es, level := PropertiesOf(s), EntriesOf(s), Filling(s, fill);
    var core := ApplyOn(level, f);
    PassAt(s, fill, f, x);
    PassAt(s, fill, once, x);
    SecondStart(s, fill, f, once);
    EntriesOutside(props, es, Descends(s, fill), FillOn(level, once), FillOn(level, core));
    FieldsTwice(level, f);
    assert if ObjectSchema(props, x).None? then Agree(ApplyOn(level, once), ApplyOn(level, core), x)
           else x in ApplyOn(level, once) <==> x in ApplyOn(level, core);
    if ObjectSchema(props, x).Some? && x in once {
      ObjectTwice(s, fill, f, once, x);
    }
  }

  /** An object that is there after the first pass is the same after the second. */
  lemma {:induction false} ObjectTwice(s: Schema, fill: bool, f: Fields, once: Fields, x: string)
    requires Orderly(s, fill) && Obj(once) == Pass(s, fill, Obj(f))
    requires ObjectSchema(PropertiesOf(s), x).Some? && x in once
    ensures ObjectAfter(s, fill, once, ObjectSchema(PropertiesOf(s), x).value, x) == once[x]
    decreases s, 0
  {
    var props, es, level := PropertiesOf(s), EntriesOf(s), Filling(s, fill);
    var own, core := FillOn(level, f), ApplyOn(level, f);
    var i := ChildIsOrderly(props, Descends(s, fill), x);
    var child := s.properties.list[i].schema;
    PassAt(s, fill, f, x);
    SecondStart(s, fill, f, once);
    EntriesOutside(props, es, Descends(s, fill), FillOn(level, once), FillOn(level, core));
    FieldsTwice(level, f);
    FillOutside(level, once, core, x);
    if Survives(props, es, own, x) {
      PassTwice(child, Descends(s, fill), own[x]);
    } else {
      EntriesValue(props, es, own, x);
    }
  }

  lemma {:induction false} ChildIsOrderly(props: seq<Property>, fill: bool, x: string) returns (i: nat)
    requires OrderlyIn(props, fill) && ObjectSchema(props, x).Some?
    ensures i < |props| && props[i].schema == ObjectSchema(props, x).value && Orderly(props[i].schema, fill)
  {
    if props[0].name == x {
      i := 0;
    } else {
      i := ChildIsOrderly(props[1..], fill, x);
      i := i + 1;
    }
  }

  /** For sibling conditionals at any depth, applying the gate twice gives the data of
      applying it once. */
  lemma {:induction false} GateTwiceIsOnce(s: Schema, d: Json)
    requires Orderly(s, true)
    ensures Apply(s, Apply(s, d).data).data == Apply(s, d).data
  {
    OrderlySiblings(s, true);
    GateIsLevels(s, d);
    GateIsLevels(s, Apply(s, d).data);
    PassTwice(s, true, d);
  }
}
