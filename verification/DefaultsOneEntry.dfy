/** One conditional on one level: exactly when applying the gate twice is applying it once. */
module DefaultsOneEntry {
  import opened Prelude
  import opened Schema
  import opened Defaults
  import opened DefaultsOneLevel

  ghost predicate TwiceIsOnce(s: Schema, d: Json) {
    Apply(s, Apply(s, d).data).data == Apply(s, d).data
  }

  /** A level without nested objects and with one entry. */
  predicate OneEntry(s: Schema, e: Entry) {
    OneLevel(s) && EntriesOf(s) == [e]
  }

  function After(s: Schema, e: Entry, f: Fields): Fields {
    EntryOn(PropertiesOf(s), e, FillOn(s, f))
  }

  lemma {:induction false} ApplyIsAfter(s: Schema, e: Entry, f: Fields)
    requires OneEntry(s, e)
    ensures Apply(s, Obj(f)).data == Obj(After(s, e, f))
  {
    ApplyIsOn(s, f);
    assert [e][1..] == [];
    assert EntriesOn(PropertiesOf(s), [e], FillOn(s, f)) == EntriesOn(PropertiesOf(s), [], After(s, e, f));
  }

  /** The entry strips first and, when what it stripped is filled in again, holds. */
  predicate FlipsOn(s: Schema, e: Entry, f: Fields) {
    e.ifClause.Some? && !Holds(e, FillOn(s, f)) && Holds(e, FillOn(s, After(s, e, f)))
  }

  // -- Single data ---------------------------------------------------------

  /** The fields that the condition reads, when it holds, are there and are not touched. */
  lemma HoldsOnLarger(e: Entry, a: Fields, b: Fields)
    requires IsSibling(e) && e.ifClause.Some? && Holds(e, a)
    requires forall x :: x in a ==> x in b && b[x] == a[x]
    ensures Holds(e, b)
  {
    var clause := e.ifClause.value;
    MatchesFieldsMeaning(clause.required.value, clause.properties, a);
    MatchesFieldsMeaning(clause.required.value, clause.properties, b);
  }

  lemma FillGrows(s: Schema, f: Fields)
    ensures forall x :: x in f ==> x in FillOn(s, f) && FillOn(s, f)[x] == f[x]
  {
    forall x | x in f
      ensures x in FillOn(s, f) && FillOn(s, f)[x] == f[x]
    {
      InjectMeaning(RequiredOf(s), PropertiesOf(s), f, [], x);
    }
  }

  lemma EntryGrowsOrShrinks(props: seq<Property>, e: Entry, f: Fields)
    requires e.ifClause.Some?
    ensures var after := EntryOn(props, e, f);
      && (Holds(e, f) ==> forall x :: x in f ==> x in after && after[x] == f[x])
      && (!Holds(e, f) ==> forall x :: x in after ==> x in f && after[x] == f[x])
  {
    hide EntryOn, Holds;
    forall x
      ensures Holds(e, f) && x in f ==> x in EntryOn(props, e, f) && EntryOn(props, e, f)[x] == f[x]
      ensures !Holds(e, f) && x in EntryOn(props, e, f) ==> x in f && EntryOn(props, e, f)[x] == f[x]
    {
      EntryMeaning(props, e, f, x);
    }
  }

  /** On single data: applying twice is applying once exactly when the entry does not flip. */
  lemma TwiceIffNoFlip(s: Schema, e: Entry, f: Fields)
    requires OneEntry(s, e)
    ensures TwiceIsOnce(s, Obj(f)) <==> !FlipsOn(s, e, f)
  {
    var props, once := PropertiesOf(s), After(s, e, f);
    ApplyIsAfter(s, e, f);
    ApplyIsAfter(s, e, once);
    assert e in EntriesOf(s);
    if FlipsOn(s, e, f) {
      FillGrows(s, once);
      EntryGrowsOrShrinks(props, e, FillOn(s, once));
      EntryGrowsOrShrinks(props, e, FillOn(s, f));
      if After(s, e, once) == once {
        HoldsOnLarger(e, FillOn(s, once), FillOn(s, f));
      }
    } else {
      if e.ifClause.Some? && Holds(e, FillOn(s, f)) {
        EntryGrowsOrShrinks(props, e, FillOn(s, f));
        FillGrows(s, once);
        HoldsOnLarger(e, FillOn(s, f), FillOn(s, once));
      }
      AlikeOne(props, e, FillOn(s, f), FillOn(s, once));
      assert ApplyOn(s, f) == once by {
        ApplyIsOn(s, f);
      }
      ApplyTwiceIfAlike(s, f);
    }
  }

  lemma {:induction false} AlikeOne(props: seq<Property>, e: Entry, a: Fields, b: Fields)
    requires e.ifClause.Some? ==> Holds(e, a) == Holds(e, b)
    ensures DecidesAlike(props, [e], a, b)
  {
    assert [e][1..] == [];
    assert DecidesAlike(props, [], EntryOn(props, e, a), EntryOn(props, e, b));
  }

  // -- All data ------------------------------------------------------------

  predicate Constrained(members: Members, x: string) {
    members.Members? && FindMember(members.list, x).Some?
  }

  predicate Meets(members: Members, x: string, v: Json) {
    Constrained(members, x) ==> MatchesConstraint(v, FindMember(members.list, x).value)
  }

  /** Some value meets the constraint. */
  predicate IsSatisfiable(members: Members, x: string) {
    Constrained(members, x) ==>
      match FindMember(members.list, x).value
      case Clause(_, _, constant, choices) => constant.Some? || (choices.Some? && choices.value != [])
      case _ => false
  }

  function MeetingValue(members: Members, x: string): (v: Json)
    requires IsSatisfiable(members, x)
    ensures Meets(members, x, v)
  {
    if !Constrained(members, x) then Null
    else
      var clause := FindMember(members.list, x).value;
      if clause.constant.Some? then clause.constant.value else clause.choices.value[0]
  }

  lemma MeetsIsSatisfiable(members: Members, x: string, v: Json)
    requires Meets(members, x, v)
    ensures IsSatisfiable(members, x)
  {
  }

  /** No constraint takes every value. */
  function FailingValue(members: Members, x: string): (v: Json)
    ensures Constrained(members, x) ==> !Meets(members, x, v)
  {
    if !Constrained(members, x) then Null
    else
      match FindMember(members.list, x).value
      case Clause(_, _, Some(v), _) => if v == Null then Bool(true) else Null
      case Clause(_, _, None, Some(choices)) => Arr(choices)
      case _ => Null
  }

  predicate IsRefilled(s: Schema, x: string) {
    Some(x) in RequiredOf(s) && ResolveDefault(x, PropertiesOf(s)).Some?
  }

  predicate CanHoldAgain(s: Schema, e: Entry, members: Members, x: string) {
    if MayStrip(e, x) then IsRefilled(s, x) && Meets(members, x, ResolveDefault(x, PropertiesOf(s)).value)
    else IsSatisfiable(members, x)
  }

  /** What the entry reads and strips is filled in again with a default that meets its
      condition, and what it reads and keeps can meet it; and one of the stripped fields is
      compared. */
  predicate Flips(s: Schema, e: Entry) {
    e.ifClause.Some? && e.ifClause.value.Clause? && e.ifClause.value.required.Some? &&
    var required, members := e.ifClause.value.required.value, e.ifClause.value.properties;
    && (forall r :: r in required ==> r.Some? && CanHoldAgain(s, e, members, r.value))
    && (exists r :: r in required && MayStrip(e, r.value) && Constrained(members, r.value))
  }

  /** The condition field by field. */
  lemma HoldsMeans(e: Entry, f: Fields)
    requires IsSibling(e) && e.ifClause.Some? && e.ifClause.value.Clause?
    ensures var required, members := e.ifClause.value.required.value, e.ifClause.value.properties;
      Holds(e, f) <==>
        (forall r :: r in required ==> r.Some?) &&
        (forall x :: Some(x) in required ==> x in f && Meets(members, x, f[x]))
  {
    var required, members := e.ifClause.value.required.value, e.ifClause.value.properties;
    MatchesFieldsMeaning(required, members, f);
    forall r | r in required && r.Some?
      ensures MatchesField(r, members, f) <==> r.value in f && Meets(members, r.value, f[r.value])
    {
    }
  }

  /** Where the entry strips, one field after it and after filling once more. */
  lemma StrippedAndFilled(s: Schema, e: Entry, f: Fields, x: string)
    requires e.ifClause.Some? && !Holds(e, FillOn(s, f))
    ensures var filled, again := FillOn(s, f), FillOn(s, After(s, e, f));
      if !MayStrip(e, x) then Agree(again, filled, x)
      else if IsRefilled(s, x) then x in filled && x in again && again[x] == ResolveDefault(x, PropertiesOf(s)).value
      else x !in again
  {
    InjectMeaning(RequiredOf(s), PropertiesOf(s), f, [], x);
    EntryMeaning(PropertiesOf(s), e, FillOn(s, f), x);
    InjectMeaning(RequiredOf(s), PropertiesOf(s), After(s, e, f), [], x);
  }

  lemma FlipOnSomeFlips(s: Schema, e: Entry, f: Fields)
    requires OneEntry(s, e) && FlipsOn(s, e, f)
    ensures Flips(s, e)
  {
    var clause, filled, again := e.ifClause.value, FillOn(s, f), FillOn(s, After(s, e, f));
    assert e in EntriesOf(s);
    HoldsMeans(e, filled);
    HoldsMeans(e, again);
    forall x | Some(x) in clause.required.value
      ensures CanHoldAgain(s, e, clause.properties, x)
    {
      StrippedAndFilled(s, e, f, x);
      MeetsIsSatisfiable(clause.properties, x, again[x]);
    }
    var x :| Some(x) in clause.required.value && !(x in filled && Meets(clause.properties, x, filled[x]));
    StrippedAndFilled(s, e, f, x);
    assert MayStrip(e, x) && Constrained(clause.properties, x);
  }

  /** Data on which the entry flips. */
  function FlippingFields(s: Schema, e: Entry): Fields
    requires Flips(s, e)
  {
    var required, members := e.ifClause.value.required.value, e.ifClause.value.properties;
    map r | r in required :: r.value :=
      if MayStrip(e, r.value) then FailingValue(members, r.value) else MeetingValue(members, r.value)
  }

  lemma FlippingFieldsFlip(s: Schema, e: Entry)
    requires OneEntry(s, e) && Flips(s, e)
    ensures FlipsOn(s, e, FlippingFields(s, e))
  {
    var required, members := e.ifClause.value.required.value, e.ifClause.value.properties;
    var f := FlippingFields(s, e);
    var filled, again := FillOn(s, f), FillOn(s, After(s, e, f));
    assert e in EntriesOf(s);
    FillGrows(s, f);
    forall x | Some(x) in required
      ensures x in filled && filled[x] == if MayStrip(e, x) then FailingValue(members, x) else MeetingValue(members, x)
    {
      assert Some(x).value in f;
    }
    HoldsMeans(e, filled);
    HoldsMeans(e, again);
    forall x | Some(x) in required
      ensures x in again && Meets(members, x, again[x])
    {
      StrippedAndFilled(s, e, f, x);
    }
  }

  /** With one conditional, applying the gate twice is applying it once on all data if and only
      if the conditional does not flip. */
  lemma OneEntryTwiceIffNoFlip(s: Schema, e: Entry)
    requires OneEntry(s, e)
    ensures (forall f :: TwiceIsOnce(s, Obj(f))) <==> !Flips(s, e)
  {
    forall f
      ensures !Flips(s, e) ==> TwiceIsOnce(s, Obj(f))
    {
      TwiceIffNoFlip(s, e, f);
      if FlipsOn(s, e, f) {
        FlipOnSomeFlips(s, e, f);
      }
    }
    if Flips(s, e) {
      FlippingFieldsFlip(s, e);
      TwiceIffNoFlip(s, e, FlippingFields(s, e));
    }
  }
}
