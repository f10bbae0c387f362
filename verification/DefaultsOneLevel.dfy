/** Applying conditional defaults twice, for schemas of one level. */
module DefaultsOneLevel {
  import opened Prelude
  import opened Schema
  import opened Defaults

  // -- One level as a function on fields -----------------------------------

  function ThenRequired(e: Entry): seq<Required> {
    if e.thenClause.Some? && e.thenClause.value.Clause? && e.thenClause.value.required.Some?
    then e.thenClause.value.required.value
    else []
  }

  function ElseMembers(e: Entry): seq<Member> {
    if e.elseClause.Some? && e.elseClause.value.Clause? && e.elseClause.value.properties.Members?
    then e.elseClause.value.properties.list
    else []
  }

  /** An entry that reads and writes only fields of its own level. */
  predicate IsSibling(e: Entry) {
    && (e.ifClause.Some? && e.ifClause.value.Clause? ==> e.ifClause.value.required.Some?)
    && (e.thenClause.Some? && e.thenClause.value.Clause? ==> e.thenClause.value.properties.NoMembers?)
    && (ElseMembers(e) != [] ==> IsFlat(ElseMembers(e)))
  }

  function PropertiesOf(s: Schema): seq<Property> {
    if s.properties.Properties? then s.properties.list else []
  }

  function RequiredOf(s: Schema): seq<Required> {
    if s.required.Some? then s.required.value else []
  }

  function EntriesOf(s: Schema): seq<Entry> {
    if s.allOf.Some? then s.allOf.value else []
  }

  /** No nested objects and only sibling conditionals. */
  predicate OneLevel(s: Schema) {
    && (forall prop :: prop in PropertiesOf(s) ==> !prop.schema.objectType)
    && (forall e :: e in EntriesOf(s) ==> IsSibling(e))
  }

  predicate Holds(e: Entry, f: Fields)
    requires e.ifClause.Some?
  {
    MatchesIf(e.ifClause.value, Obj(f), [])
  }

  function EntryOn(props: seq<Property>, e: Entry, f: Fields): Fields {
    if e.ifClause.None? then f
    else if Holds(e, f) then Inject(ThenRequired(e), props, f, []).fields
    else Strip(ElseMembers(e), f, []).fields
  }

  function EntriesOn(props: seq<Property>, es: seq<Entry>, f: Fields): Fields {
    if es == [] then f else EntriesOn(props, es[1..], EntryOn(props, es[0], f))
  }

  function FillOn(s: Schema, f: Fields): Fields {
    Inject(RequiredOf(s), PropertiesOf(s), f, []).fields
  }

  function ApplyOn(s: Schema, f: Fields): Fields {
    EntriesOn(PropertiesOf(s), EntriesOf(s), FillOn(s, f))
  }

  lemma {:induction false} NoDefaultsToInject(required: seq<Required>, f: Fields)
    ensures Inject(required, [], f, []).fields == f
  {
    InjectNothing(required, [], f, []);
  }

  lemma EntryIsOn(s: Schema, e: Entry, g: Gate)
    requires g.data.Obj? && IsSibling(e)
    ensures ApplyEntry(s, s, e, [], g).data == Obj(EntryOn(PropertiesOf(s), e, g.data.fields))
  {
    var f := g.data.fields;
    assert ObjectAt(g.data, []) == Some(f);
    NoDefaultsToInject(ThenRequired(e), f);
  }

  lemma {:induction false} EntriesAreOn(s: Schema, es: seq<Entry>, g: Gate)
    requires g.data.Obj? && forall e :: e in es ==> IsSibling(e)
    ensures ApplyEntries(s, s, es, [], g).data == Obj(EntriesOn(PropertiesOf(s), es, g.data.fields))
    decreases |es|
  {
    if es != [] {
      assert es[0] in es;
      EntryIsOn(s, es[0], g);
      EntriesAreOn(s, es[1..], ApplyEntry(s, s, es[0], [], g));
    }
  }

  lemma {:induction false} NothingNested(props: seq<Property>, f: Fields, root: Schema, g: Gate)
    requires forall prop :: prop in props ==> !prop.schema.objectType
    ensures UnconditionalNested(props, f, []) == Edited(f, [])
    ensures WalkList(root, props, [], g) == g
    decreases |props|
  {
    if props != [] {
      assert props[0] in props;
      NothingNested(props[1..], f, root, g);
    }
  }

  /** For one level the gate is `ApplyOn`. */
  lemma ApplyIsOn(s: Schema, f: Fields)
    requires OneLevel(s)
    ensures Apply(s, Obj(f)).data == Obj(ApplyOn(s, f))
  {
    var (filled, edits) := Unconditional(s, Obj(f), []);
    var g := Gate(filled, edits);
    NoDefaultsToInject(RequiredOf(s), f);
    NothingNested(PropertiesOf(s), FillOn(s, f), s, g);
    assert filled == Obj(FillOn(s, f));
    EntriesAreOn(s, EntriesOf(s), g);
    NothingNested(PropertiesOf(s), f, s, ProcessAllOf(s, s, [], g));
  }

  // -- What entries read and write -----------------------------------------

  predicate Reads(e: Entry, x: string) {
    e.ifClause.Some? && e.ifClause.value.Clause? && e.ifClause.value.required.Some? &&
      Some(x) in e.ifClause.value.required.value
  }

  predicate MayAdd(props: seq<Property>, e: Entry, x: string) {
    e.ifClause.Some? && Some(x) in ThenRequired(e) && ResolveDefault(x, props).Some?
  }

  predicate MayStrip(e: Entry, x: string) {
    e.ifClause.Some? && Member(x, Flag(false)) in ElseMembers(e)
  }

  predicate Writes(props: seq<Property>, e: Entry, x: string) {
    MayAdd(props, e, x) || MayStrip(e, x)
  }

  ghost predicate SomeWrites(props: seq<Property>, es: seq<Entry>, x: string) {
    exists k :: 0 <= k < |es| && Writes(props, es[k], x)
  }

  /** No entry writes a field that itself or an earlier entry reads. */
  ghost predicate ReadsAreFinal(props: seq<Property>, es: seq<Entry>) {
    forall i, k, x :: 0 <= i <= k < |es| && Reads(es[i], x) ==> !Writes(props, es[k], x)
  }

  /** Moreover each field is written by one entry only. */
  ghost predicate Ordered(props: seq<Property>, es: seq<Entry>) {
    && ReadsAreFinal(props, es)
    && (forall i, k, x :: 0 <= i < k < |es| && Writes(props, es[i], x) ==> !Writes(props, es[k], x))
  }

  lemma OrderedTail(props: seq<Property>, es: seq<Entry>)
    requires es != [] && Ordered(props, es)
    ensures Ordered(props, es[1..])
    ensures forall x :: SomeWrites(props, es, x) <==> Writes(props, es[0], x) || SomeWrites(props, es[1..], x)
    ensures forall x :: Reads(es[0], x) ==> !SomeWrites(props, es, x)
    ensures forall x :: Writes(props, es[0], x) ==> !SomeWrites(props, es[1..], x)
  {
    var tail := es[1..];
    forall x
      ensures SomeWrites(props, es, x) <==> Writes(props, es[0], x) || SomeWrites(props, tail, x)
    {
      if SomeWrites(props, es, x) {
        var k :| 0 <= k < |es| && Writes(props, es[k], x);
        assert k > 0 ==> tail[k - 1] == es[k];
      }
      if SomeWrites(props, tail, x) {
        var k :| 0 <= k < |tail| && Writes(props, tail[k], x);
        assert es[k + 1] == tail[k];
      }
    }
  }

  predicate Agree(a: Fields, b: Fields, x: string) {
    (x in a <==> x in b) && (x in a ==> a[x] == b[x])
  }

  lemma AgreeEverywhere(a: Fields, b: Fields)
    requires forall x :: Agree(a, b, x)
    ensures a == b
  {
    forall x
      ensures x in a.Keys <==> x in b.Keys
    {
      assert Agree(a, b, x);
    }
    forall x | x in a.Keys
      ensures a[x] == b[x]
    {
      assert Agree(a, b, x);
    }
  }

  lemma {:induction false} StripMeaning(members: seq<Member>, f: Fields, path: seq<string>, x: string)
    ensures var after := Strip(members, f, path).fields;
      && (x in after <==> x in f && Member(x, Flag(false)) !in members)
      && (x in after ==> after[x] == f[x])
    decreases |members|
  {
    if members != [] {
      StripMeaning(members[1..], StripOne(members[0], f, path).fields, path, x);
      var stripped := Member(x, Flag(false));
      assert stripped in members <==> members[0] == stripped || stripped in members[1..];
    }
  }

  /** What an entry does to one field. */
  lemma EntryMeaning(props: seq<Property>, e: Entry, f: Fields, x: string)
    ensures var after := EntryOn(props, e, f);
      && (!Writes(props, e, x) ==> Agree(after, f, x))
      && (e.ifClause.Some? && Holds(e, f) && MayAdd(props, e, x) ==>
            x in after && after[x] == if x in f then f[x] else ResolveDefault(x, props).value)
      && (e.ifClause.Some? && Holds(e, f) && !MayAdd(props, e, x) ==> Agree(after, f, x))
      && (e.ifClause.Some? && !Holds(e, f) && MayStrip(e, x) ==> x !in after)
      && (e.ifClause.Some? && !Holds(e, f) && !MayStrip(e, x) ==> Agree(after, f, x))
  {
    InjectMeaning(ThenRequired(e), props, f, [], x);
    StripMeaning(ElseMembers(e), f, [], x);
  }

  lemma {:induction false} UnwrittenStays(props: seq<Property>, es: seq<Entry>, f: Fields, x: string)
    requires !SomeWrites(props, es, x)
    ensures Agree(EntriesOn(props, es, f), f, x)
    decreases |es|
  {
    if es != [] {
      assert !Writes(props, es[0], x);
      forall k | 0 <= k < |es[1..]|
        ensures !Writes(props, es[1..][k], x)
      {
        assert es[1..][k] == es[k + 1];
      }
      EntryMeaning(props, es[0], f, x);
      UnwrittenStays(props, es[1..], EntryOn(props, es[0], f), x);
    }
  }

  /** The members compare the value of `x`; otherwise only its presence is asked for. */
  predicate Compared(members: Members, x: string) {
    members.Members? &&
    match FindMember(members.list, x)
    case Some(Clause(_, _, constant, choices)) => constant.Some? || choices.Some?
    case _ => false
  }

  predicate Compares(e: Entry, x: string) {
    e.ifClause.Some? && e.ifClause.value.Clause? && Compared(e.ifClause.value.properties, x)
  }

  /** The entry sees no difference in `x`. */
  predicate Alike(e: Entry, a: Fields, b: Fields, x: string) {
    (x in a <==> x in b) && (x in a && Compares(e, x) ==> a[x] == b[x])
  }

  /** The condition of an entry depends only on the fields it reads. */
  lemma SameDecision(e: Entry, a: Fields, b: Fields)
    requires e.ifClause.Some? && IsSibling(e)
    requires forall x :: Reads(e, x) ==> Alike(e, a, b, x)
    ensures Holds(e, a) == Holds(e, b)
  {
    if e.ifClause.value.Clause? {
      var required, members := e.ifClause.value.required.value, e.ifClause.value.properties;
      MatchesFieldsMeaning(required, members, a);
      MatchesFieldsMeaning(required, members, b);
      forall r | r in required
        ensures MatchesField(r, members, a) == MatchesField(r, members, b)
      {
        if r.Some? {
          assert Reads(e, r.value);
          assert Alike(e, a, b, r.value);
        }
      }
    }
  }

  /** What an entry asks of the final data: its `then` fields with a default are present,
      or its forbidden fields are absent. */
  ghost predicate Satisfied(props: seq<Property>, e: Entry, d: Fields) {
    e.ifClause.Some? ==>
      if Holds(e, d) then forall x :: MayAdd(props, e, x) ==> x in d
      else forall x :: MayStrip(e, x) ==> x !in d
  }

  /** The first entry decides on the final data as it decided when it ran, and later
      entries leave what it wrote. */
  lemma {:induction false} FirstEntrySettles(props: seq<Property>, es: seq<Entry>, f: Fields)
    requires es != [] && Ordered(props, es) && IsSibling(es[0])
    ensures var d := EntriesOn(props, es, f);
      && Satisfied(props, es[0], d)
      && (es[0].ifClause.Some? ==> Holds(es[0], d) == Holds(es[0], f))
      && (forall x :: Writes(props, es[0], x) ==> Agree(d, EntryOn(props, es[0], f), x))
  {
    OrderedTail(props, es);
    var e, d, next := es[0], EntriesOn(props, es, f), EntryOn(props, es[0], f);
    forall x | !SomeWrites(props, es[1..], x)
      ensures Agree(d, next, x)
    {
      UnwrittenStays(props, es[1..], next, x);
    }
    if e.ifClause.Some? {
      forall x | Reads(e, x)
        ensures Alike(e, f, d, x)
      {
        UnwrittenStays(props, es, f, x);
      }
      SameDecision(e, f, d);
      forall x
        ensures Holds(e, f) && MayAdd(props, e, x) ==> x in d
        ensures !Holds(e, f) && MayStrip(e, x) ==> x !in d
      {
        EntryMeaning(props, e, f, x);
      }
    }
  }

  lemma {:induction false} EntriesSatisfied(props: seq<Property>, es: seq<Entry>, f: Fields)
    requires Ordered(props, es) && forall e :: e in es ==> IsSibling(e)
    ensures forall e :: e in es ==> Satisfied(props, e, EntriesOn(props, es, f))
    decreases |es|
  {
    if es != [] {
      OrderedTail(props, es);
      FirstEntrySettles(props, es, f);
      EntriesSatisfied(props, es[1..], EntryOn(props, es[0], f));
      assert forall e :: e in es ==> e == es[0] || e in es[1..];
    }
  }

  /** The gate's result meets every conditional of the schema. */
  lemma ResultMeetsConditionals(s: Schema, f: Fields)
    requires OneLevel(s) && Ordered(PropertiesOf(s), EntriesOf(s))
    ensures Apply(s, Obj(f)).data.Obj?
    ensures forall e :: e in EntriesOf(s) ==> Satisfied(PropertiesOf(s), e, Apply(s, Obj(f)).data.fields)
  {
    ApplyIsOn(s, f);
    EntriesSatisfied(PropertiesOf(s), EntriesOf(s), FillOn(s, f));
  }

  // -- The second pass -----------------------------------------------------

  /** `after` is `before` with `v` for `x` where it was absent. */
  predicate AddedTo(before: Fields, after: Fields, x: string, v: Json) {
    x in after && after[x] == if x in before then before[x] else v
  }

  /** One field in the two passes so far, `s` from `f` and `t` from `d`: either some entry
      stripped it and they agree since, or nothing was done to it, or its default was added. */
  predicate Tracks(props: seq<Property>, f: Fields, d: Fields, s: Fields, t: Fields, x: string) {
    || Agree(t, s, x)
    || (Agree(s, f, x) && Agree(t, d, x))
    || match ResolveDefault(x, props)
       case Some(v) => AddedTo(f, s, x, v) && AddedTo(d, t, x, v)
       case None => false
  }

  lemma FillTracks(schema: Schema, f: Fields, d: Fields, x: string)
    ensures Tracks(PropertiesOf(schema), f, d, FillOn(schema, f), FillOn(schema, d), x)
  {
    InjectMeaning(RequiredOf(schema), PropertiesOf(schema), d, [], x);
    InjectMeaning(RequiredOf(schema), PropertiesOf(schema), f, [], x);
  }

  lemma EntryTracks(props: seq<Property>, e: Entry, f: Fields, d: Fields, s: Fields, t: Fields, x: string)
    requires Tracks(props, f, d, s, t, x)
    requires e.ifClause.Some? ==> Holds(e, s) == Holds(e, t)
    ensures Tracks(props, f, d, EntryOn(props, e, s), EntryOn(props, e, t), x)
  {
    hide EntryOn, Holds, ResolveDefault;
    EntryMeaning(props, e, s, x);
    EntryMeaning(props, e, t, x);
  }

  /** Every entry decides in the second pass as it did in the first. */
  predicate DecidesAlike(props: seq<Property>, es: seq<Entry>, s: Fields, t: Fields) {
    es == [] ||
    (&& (es[0].ifClause.Some? ==> Holds(es[0], s) == Holds(es[0], t))
     && DecidesAlike(props, es[1..], EntryOn(props, es[0], s), EntryOn(props, es[0], t)))
  }

  /** The field is there from the start to the end. */
  predicate Survives(props: seq<Property>, es: seq<Entry>, f: Fields, x: string)
    decreases |es|
  {
    x in f && (es == [] || Survives(props, es[1..], EntryOn(props, es[0], f), x))
  }

  lemma EntrySurvives(props: seq<Property>, e: Entry, s: Fields, t: Fields, x: string)
    requires e.ifClause.Some? ==> Holds(e, s) == Holds(e, t)
    requires x in EntryOn(props, e, s) && x in s && x in t
    ensures x in EntryOn(props, e, t)
  {
    hide EntryOn, Holds, ResolveDefault;
    EntryMeaning(props, e, s, x);
    EntryMeaning(props, e, t, x);
  }

  /** Then the second pass ends with the fields of the first, and what survived the first
      pass survives the second. */
  lemma {:induction false} AlikeCatchesUp(props: seq<Property>, es: seq<Entry>, f: Fields, d: Fields, s: Fields,
                                          t: Fields)
    requires DecidesAlike(props, es, s, t) && d == EntriesOn(props, es, s)
    requires forall x :: Tracks(props, f, d, s, t, x)
    ensures EntriesOn(props, es, t) == d
    ensures forall x :: Survives(props, es, s, x) && x in t ==> Survives(props, es, t, x)
    decreases |es|
  {
    if es == [] {
      forall x
        ensures Agree(t, s, x)
      {
        assert Tracks(props, f, d, s, t, x);
      }
      AgreeEverywhere(t, s);
    } else {
      var e := es[0];
      var s', t' := EntryOn(props, e, s), EntryOn(props, e, t);
      forall x
        ensures Tracks(props, f, d, s', t', x)
      {
        EntryTracks(props, e, f, d, s, t, x);
      }
      AlikeCatchesUp(props, es[1..], f, d, s', t');
      forall x | Survives(props, es, s, x) && x in t
        ensures Survives(props, es, t, x)
      {
        assert Survives(props, es[1..], s', x);
        EntrySurvives(props, e, s, t, x);
      }
    }
  }

  /** An entry that reads what no later entry writes decides the same. */
  lemma {:induction false} SameSecondTime(props: seq<Property>, es: seq<Entry>, f: Fields, s: Fields, t: Fields)
    requires es != [] && es[0].ifClause.Some? && IsSibling(es[0]) && ReadsAreFinal(props, es)
    requires forall x :: Tracks(props, f, EntriesOn(props, es, s), s, t, x)
    ensures Holds(es[0], s) == Holds(es[0], t)
  {
    forall x | Reads(es[0], x)
      ensures Alike(es[0], s, t, x)
    {
      assert Tracks(props, f, EntriesOn(props, es, s), s, t, x);
      assert !SomeWrites(props, es, x);
      UnwrittenStays(props, es, s, x);
    }
    SameDecision(es[0], s, t);
  }

  lemma {:induction false} FinalReadsDecide(props: seq<Property>, es: seq<Entry>, f: Fields, s: Fields, t: Fields)
    requires ReadsAreFinal(props, es) && forall e :: e in es ==> IsSibling(e)
    requires forall x :: Tracks(props, f, EntriesOn(props, es, s), s, t, x)
    ensures DecidesAlike(props, es, s, t)
    decreases |es|
  {
    if es != [] {
      var e, d := es[0], EntriesOn(props, es, s);
      assert e in es;
      if e.ifClause.Some? {
        SameSecondTime(props, es, f, s, t);
      }
      forall x
        ensures Tracks(props, f, d, EntryOn(props, e, s), EntryOn(props, e, t), x)
      {
        EntryTracks(props, e, f, d, s, t, x);
      }
      ReadsAreFinalTail(props, es);
      FinalReadsDecide(props, es[1..], f, EntryOn(props, e, s), EntryOn(props, e, t));
    }
  }

  lemma ReadsAreFinalTail(props: seq<Property>, es: seq<Entry>)
    requires es != [] && ReadsAreFinal(props, es)
    ensures ReadsAreFinal(props, es[1..])
  {
    forall i, k, x | 0 <= i <= k < |es[1..]| && Reads(es[1..][i], x)
      ensures !Writes(props, es[1..][k], x)
    {
      assert es[1..][i] == es[i + 1] && es[1..][k] == es[k + 1];
    }
  }

  /** For any data: when every entry decides in the second pass as in the first, the second
      pass changes nothing. */
  lemma FieldsTwiceIfAlike(s: Schema, f: Fields)
    requires DecidesAlike(PropertiesOf(s), EntriesOf(s), FillOn(s, f), FillOn(s, ApplyOn(s, f)))
    ensures ApplyOn(s, ApplyOn(s, f)) == ApplyOn(s, f)
    ensures forall x :: Survives(PropertiesOf(s), EntriesOf(s), FillOn(s, f), x) ==>
      Survives(PropertiesOf(s), EntriesOf(s), FillOn(s, ApplyOn(s, f)), x)
  {
    var props, es, d := PropertiesOf(s), EntriesOf(s), ApplyOn(s, f);
    forall x
      ensures Tracks(props, f, d, FillOn(s, f), FillOn(s, d), x)
    {
      FillTracks(s, f, d, x);
    }
    AlikeCatchesUp(props, es, f, d, FillOn(s, f), FillOn(s, d));
    forall x | Survives(props, es, FillOn(s, f), x)
      ensures x in FillOn(s, d)
    {
      SurvivorsStay(props, es, FillOn(s, f), x);
      InjectMeaning(RequiredOf(s), props, d, [], x);
    }
  }

  lemma {:induction false} SurvivorsStay(props: seq<Property>, es: seq<Entry>, f: Fields, x: string)
    requires Survives(props, es, f, x)
    ensures x in EntriesOn(props, es, f)
    decreases |es|
  {
    if es != [] {
      SurvivorsStay(props, es[1..], EntryOn(props, es[0], f), x);
    }
  }

  lemma FieldsTwice(s: Schema, f: Fields)
    requires (forall e :: e in EntriesOf(s) ==> IsSibling(e)) && ReadsAreFinal(PropertiesOf(s), EntriesOf(s))
    ensures ApplyOn(s, ApplyOn(s, f)) == ApplyOn(s, f)
    ensures forall x :: Survives(PropertiesOf(s), EntriesOf(s), FillOn(s, f), x) ==>
      Survives(PropertiesOf(s), EntriesOf(s), FillOn(s, ApplyOn(s, f)), x)
  {
    var d := ApplyOn(s, f);
    forall x
      ensures Tracks(PropertiesOf(s), f, d, FillOn(s, f), FillOn(s, d), x)
    {
      FillTracks(s, f, d, x);
    }
    FinalReadsDecide(PropertiesOf(s), EntriesOf(s), f, FillOn(s, f), FillOn(s, d));
    FieldsTwiceIfAlike(s, f);
  }

  /** The gate is idempotent on all data on which every entry decides in the second pass as in
      the first, whatever the entries read and write. */
  lemma ApplyTwiceIfAlike(s: Schema, f: Fields)
    requires OneLevel(s)
    requires DecidesAlike(PropertiesOf(s), EntriesOf(s), FillOn(s, f), FillOn(s, ApplyOn(s, f)))
    ensures var once := Apply(s, Obj(f)).data; Apply(s, once).data == once
  {
    ApplyIsOn(s, f);
    ApplyIsOn(s, ApplyOn(s, f));
    FieldsTwiceIfAlike(s, f);
  }

  /** Applying the gate twice gives the data of applying it once, also where an `else`
      strips a field that the unconditional pass puts back. */
  lemma ApplyTwiceIsOnce(s: Schema, f: Fields)
    requires OneLevel(s) && ReadsAreFinal(PropertiesOf(s), EntriesOf(s))
    ensures var once := Apply(s, Obj(f)).data; Apply(s, once).data == once
  {
    ApplyIsOn(s, f);
    ApplyIsOn(s, ApplyOn(s, f));
    FieldsTwice(s, f);
  }

  // -- The conditions are needed -------------------------------------------

  function ScalarProperty(name: string, default: Json): Property {
    Property(name, Schema(false, None, NoProperties, None, Some(default)))
  }

  /** A clause whose `required` is one field. */
  function Requiring(x: string): Option<Clause> {
    Some(Clause(Some([Some(x)]), NoMembers, None, None))
  }

  function Forbid(x: string): Option<Clause> {
    Some(Clause(None, Members([Member(x, Flag(false))]), None, None))
  }

  lemma RequireAdds(props: seq<Property>, e: Entry, f: Fields, x: string, y: string)
    requires e.ifClause == Requiring(x) && e.thenClause == Requiring(y) && e.elseClause.None?
    requires ResolveDefault(y, props).Some?
    ensures IsSibling(e)
    ensures EntryOn(props, e, f) ==
      if x in f && y !in f then f[y := ResolveDefault(y, props).value] else f
  {
    assert [Some(x)][1..] == [] && [Some(y)][1..] == [];
    assert MatchesFields([Some(x)], NoMembers, f) == (x in f);
    if x in f {
      assert Inject([Some(y)], props, f, []).fields == InjectOne(Some(y), props, f, []).fields;
    } else {
      assert Strip([], f, []).fields == f;
    }
  }

  /** A later entry may not write what an earlier one reads: an entry that adds `x` where `a`
      is, before one that adds `a` where `c` is, turns `{c}` into `{a, c}` and that into
      `{a, c, x}`. */
  lemma LateWriteIsNotIdempotent(s: Schema, e1: Entry, e2: Entry, one: Json)
    requires var props := [ScalarProperty("a", one), ScalarProperty("x", one)];
      s == Schema(true, None, Properties(props), Some([e1, e2]), None)
    requires e1 == Entry(Requiring("a"), Requiring("x"), None) && e2 == Entry(Requiring("c"), Requiring("a"), None)
    ensures OneLevel(s)
    ensures Apply(s, Obj(map["c" := one])).data == Obj(map["a" := one, "c" := one])
    ensures Apply(s, Obj(map["a" := one, "c" := one])).data == Obj(map["a" := one, "c" := one, "x" := one])
  {
    var props, first, second := PropertiesOf(s), map["c" := one], map["a" := one, "c" := one];
    TwoDefaults(props, one);
    RequireAdds(props, e1, first, "a", "x");
    RequireAdds(props, e2, first, "c", "a");
    RequireAdds(props, e1, second, "a", "x");
    RequireAdds(props, e2, second["x" := one], "c", "a");
    assert OneLevel(s);
    TwoEntries(s, e1, e2, first);
    TwoEntries(s, e1, e2, second);
  }

  lemma TwoDefaults(props: seq<Property>, one: Json)
    requires props == [ScalarProperty("a", one), ScalarProperty("x", one)]
    ensures ResolveDefault("a", props) == Some(one) && ResolveDefault("x", props) == Some(one)
  {
    assert props[1..] == [ScalarProperty("x", one)];
    assert FindProperty(props, "x") == FindProperty(props[1..], "x");
  }

  lemma TwoEntries(s: Schema, e1: Entry, e2: Entry, f: Fields)
    requires OneLevel(s) && s.required.None? && EntriesOf(s) == [e1, e2]
    ensures Apply(s, Obj(f)).data == Obj(EntryOn(PropertiesOf(s), e2, EntryOn(PropertiesOf(s), e1, f)))
  {
    ApplyIsOn(s, f);
    assert FillOn(s, f) == f;
    assert [e1, e2][1..] == [e2] && [e2][1..] == [];
    var g := EntryOn(PropertiesOf(s), e1, f);
    assert EntriesOn(PropertiesOf(s), [e1, e2], f) == EntriesOn(PropertiesOf(s), [e2], g);
    assert EntriesOn(PropertiesOf(s), [e2], g) == EntriesOn(PropertiesOf(s), [], EntryOn(PropertiesOf(s), e2, g));
  }

  /** Two writers do no harm to idempotence, but the result may fail the first: one entry
      adds `x` where `a` is, the next strips `x` where `c` is missing. */
  lemma TwoWritersConflict(s: Schema, e1: Entry, e2: Entry, one: Json)
    requires var props := [ScalarProperty("a", one), ScalarProperty("x", one)];
      s == Schema(true, None, Properties(props), Some([e1, e2]), None)
    requires e1 == Entry(Requiring("a"), Requiring("x"), None) && e2 == Entry(Requiring("c"), None, Forbid("x"))
    ensures OneLevel(s) && ReadsAreFinal(PropertiesOf(s), EntriesOf(s))
    ensures Apply(s, Obj(map["a" := one])).data == Obj(map["a" := one])
    ensures !Satisfied(PropertiesOf(s), e1, map["a" := one])
  {
    var props, f := PropertiesOf(s), map["a" := one];
    var strip := [Member("x", Flag(false))];
    TwoDefaults(props, one);
    assert strip[0].clause.Flag? && strip[1..] == [] && [Some("c")][1..] == [] && [Some("a")][1..] == [];
    assert ElseMembers(e2) == strip && IsFlat(strip);
    RequireAdds(props, e1, f, "a", "x");
    var g := f["x" := one];
    assert !MatchesFields([Some("c")], NoMembers, g);
    assert Strip(strip, g, []).fields == g - {"x"} == f;
    assert EntryOn(props, e2, g) == f;
    TwoEntries(s, e1, e2, f);
    assert MatchesFields([Some("a")], NoMembers, f);
    assert Holds(e1, f) && MayAdd(props, e1, "x");
  }

  /** The condition matters. Field `a` has default 1 and must be 1, otherwise it is
      stripped: the data `{a: 2}` becomes `{}`, and `{}` becomes `{a: 1}`. */
  lemma SelfReadIsNotIdempotent(s: Schema, e: Entry, one: Json, two: Json)
    requires one != two
    requires var a := Property("a", Schema(false, None, NoProperties, None, Some(one)));
      s == Schema(true, Some([Some("a")]), Properties([a]), Some([e]), None)
    requires e == Entry(
      Some(Clause(Some([Some("a")]), Members([Member("a", Clause(None, NoMembers, Some(one), None))]), None, None)),
      None,
      Some(Clause(None, Members([Member("a", Flag(false))]), None, None)))
    ensures OneLevel(s)
    ensures Apply(s, Obj(map["a" := two])).data == Obj(map[])
    ensures Apply(s, Obj(map[])).data == Obj(map["a" := one])
  {
    var strip := [Member("a", Flag(false))];
    assert strip[0].clause.Flag?;
    assert ElseMembers(e) == strip && IsFlat(strip);
    assert OneLevel(s);
    ApplyIsOn(s, map["a" := two]);
    ApplyIsOn(s, map[]);
    var props := PropertiesOf(s);
    assert ResolveDefault("a", props) == Some(one);
    assert [Some("a")][1..] == [] && [e][1..] == [] && strip[1..] == [];
    assert InjectOne(Some("a"), props, map["a" := two], []).fields == map["a" := two];
    assert FillOn(s, map["a" := two]) == Inject([], props, map["a" := two], []).fields == map["a" := two];
    assert InjectOne(Some("a"), props, map[], []).fields == map["a" := one];
    assert FillOn(s, map[]) == Inject([], props, map["a" := one], []).fields == map["a" := one];
    assert Inject([], props, map["a" := one], []).fields == map["a" := one];
    var members := e.ifClause.value.properties;
    assert MatchesFields([Some("a")], members, map["a" := one]) == MatchesFields([], members, map["a" := one]);
    assert !Holds(e, map["a" := two]) && Holds(e, map["a" := one]);
    assert Strip(strip, map["a" := two], []).fields == map["a" := two] - {"a"} == map[];
    assert EntryOn(props, e, map["a" := one]) == map["a" := one];
    assert EntriesOn(props, [e], map["a" := one]) == map["a" := one];
    assert EntriesOn(props, [e], map["a" := two]) == EntriesOn(props, [], map[]) == map[];
  }
}
