/** When the `if` of a conditional holds, said of the data alone. */
module DefaultsConditions {
  import opened Prelude
  import opened Schema

  /** The value meets the clause: equal to its `const`, or without one among its `enum`. A clause
      with neither is met by nothing. */
  ghost predicate MeetsClause(v: Json, c: Clause) {
    match c
    case Clause(_, _, Some(wanted), _) => v == wanted
    case Clause(_, _, None, Some(choices)) => exists i :: 0 <= i < |choices| && choices[i] == v
    case _ => false
  }

  /** The first clause that the members have for the name, if any, is met. */
  ghost predicate MeetsMembers(v: Json, name: string, members: Members) {
    members.Members? ==>
      forall i :: 0 <= i < |members.list| && IsFirstNamed(members.list, i, name) ==>
        MeetsClause(v, members.list[i].clause)
  }

  predicate IsFirstNamed(list: seq<Member>, i: nat, name: string)
    requires i < |list|
  {
    list[i].name == name && forall k :: 0 <= k < i ==> list[k].name != name
  }

  /** The object has every required field, and each meets its clause. */
  ghost predicate MeetsAll(fields: Fields, required: seq<Required>, members: Members) {
    forall k :: 0 <= k < |required| ==>
      required[k].Some? && required[k].value in fields &&
      MeetsMembers(fields[required[k].value], required[k].value, members)
  }

  lemma ConstraintMeaning(v: Json, c: Clause)
    ensures MatchesConstraint(v, c) <==> MeetsClause(v, c)
  {
  }

  lemma {:induction false} FindMeaning(list: seq<Member>, name: string)
    ensures match FindMember(list, name)
      case Some(c) => exists i :: 0 <= i < |list| && IsFirstNamed(list, i, name) && list[i].clause == c
      case None => forall i :: 0 <= i < |list| ==> list[i].name != name
  {
    if list != [] && list[0].name == name {
      assert IsFirstNamed(list, 0, name);
    } else if list != [] {
      var tail := list[1..];
      FindMeaning(tail, name);
      assert forall k :: 0 <= k < |tail| ==> tail[k] == list[k + 1];
      if FindMember(tail, name).Some? {
        var i :| 0 <= i < |tail| && IsFirstNamed(tail, i, name) && tail[i].clause == FindMember(tail, name).value;
        forall k | 0 <= k < i + 1
          ensures list[k].name != name
        {
          assert k > 0 ==> tail[k - 1] == list[k];
        }
        assert IsFirstNamed(list, i + 1, name);
      }
    }
  }

  lemma FieldMeaning(r: Required, members: Members, fields: Fields)
    ensures MatchesField(r, members, fields) <==>
      r.Some? && r.value in fields && MeetsMembers(fields[r.value], r.value, members)
  {
    if r.Some? && members.Members? {
      FindMeaning(members.list, r.value);
      forall i, k | 0 <= i < |members.list| && 0 <= k < |members.list| &&
          IsFirstNamed(members.list, i, r.value) && IsFirstNamed(members.list, k, r.value)
        ensures i == k
      {
      }
    }
  }

  lemma {:induction false} FieldsMeaning(required: seq<Required>, members: Members, fields: Fields)
    ensures MatchesFields(required, members, fields) <==> MeetsAll(fields, required, members)
  {
    MatchesFieldsMeaning(required, members, fields);
    forall k | 0 <= k < |required|
      ensures MatchesField(required[k], members, fields) <==>
        required[k].Some? && required[k].value in fields &&
        MeetsMembers(fields[required[k].value], required[k].value, members)
    {
      FieldMeaning(required[k], members, fields);
    }
  }

  /** A condition with `required` is about the object at the path of its entry. */
  lemma FlatIfMeaning(clause: Clause, d: Json, path: seq<string>)
    requires clause.Clause? && clause.required.Some?
    ensures MatchesIf(clause, d, path) <==>
      ObjectAt(d, path).Some? && MeetsAll(ObjectAt(d, path).value, clause.required.value, clause.properties)
  {
    if ObjectAt(d, path).Some? {
      FieldsMeaning(clause.required.value, clause.properties, ObjectAt(d, path).value);
    }
  }

  /** A condition that leads through one section after the other to `leaf`. */
  function Along(path: seq<string>, leaf: Clause): Clause {
    if path == [] then leaf else Clause(None, Members([Member(path[0], Along(path[1..], leaf))]), None, None)
  }

  /** A condition across sections is about the object at the end of its own path, from the root
      of the data, whatever the path of its entry. */
  lemma {:induction false} AcrossIfMeaning(path: seq<string>, leaf: Clause, d: Json, at: seq<string>)
    requires path != [] && leaf.Clause? && leaf.required.Some?
    ensures MatchesIf(Along(path, leaf), d, at) <==>
      ObjectAt(d, path).Some? && MeetsAll(ObjectAt(d, path).value, leaf.required.value, leaf.properties)
    decreases |path|
  {
    var child := d.Get(path[0]);
    if |path| == 1 {
      assert path[1..] == [] && At(d, path) == child;
      if child.Some? && child.value.Obj? {
        FieldsMeaning(leaf.required.value, leaf.properties, child.value.fields);
      }
    } else if child.Some? {
      AcrossIfMeaning(path[1..], leaf, child.value, at);
      assert At(d, path) == At(child.value, path[1..]);
    }
  }

  /** Of several sections the first that asks for something decides; those before it must only
      be there. */
  lemma {:induction false} FirstSectionDecides(skipped: seq<Member>, m: Member, rest: seq<Member>, d: Json)
    requires forall k :: 0 <= k < |skipped| ==>
      skipped[k].clause.Clause? && skipped[k].clause.required.None? && skipped[k].clause.properties.NoMembers?
    requires m.clause.Clause? ==> m.clause.required.Some? || m.clause.properties.Members?
    ensures MatchesNested(skipped + [m] + rest, d) <==>
      (forall k :: 0 <= k < |skipped| ==> d.Get(skipped[k].name).Some?) && MatchesNested([m], d)
    ensures !MatchesNested(skipped, d)
    decreases |skipped|
  {
    var all := skipped + [m] + rest;
    if skipped != [] {
      assert all[0] == skipped[0] && all[1..] == skipped[1..] + [m] + rest;
      FirstSectionDecides(skipped[1..], m, rest, d);
      assert forall k :: 0 < k < |skipped| ==> skipped[k] == skipped[1..][k - 1];
    } else {
      assert all[0] == m;
    }
  }

  /** Any other `if` never holds. */
  lemma OtherIfFails(clause: Clause, d: Json, path: seq<string>)
    requires clause.Clause? ==> clause.required.None? && clause.properties.NoMembers?
    ensures !MatchesIf(clause, d, path)
  {
  }
}
