/** One conditional anywhere in a schema, also across sections: exactly when applying the gate
    twice is applying it once. */
module DefaultsOneJob {
  import opened Prelude
  import opened Schema
  import opened Defaults
  import opened Scripts
  import opened DefaultsScript

  // -- Commands extend or reduce -------------------------------------------

  lemma {:induction false} DoExtends(c: Command, d: Json)
    ensures c.Add? ==> Extends(d, Do(c, d))
    ensures c.Drop? ==> Extends(Do(c, d), d)
    decreases |c.path|
  {
    ExtendsSelf(d);
    if d.Obj? {
      forall k | k in d.fields
        ensures Extends(d.fields[k], d.fields[k])
      {
        ExtendsSelf(d.fields[k]);
      }
      if c.path != [] && c.path[0] in d.fields {
        DoExtends(Below(c), d.fields[c.path[0]]);
      }
    }
  }

  lemma {:induction false} RunExtends(cs: seq<Command>, d: Json)
    ensures AllAdd(cs) ==> Extends(d, Run(cs, d))
    ensures AllDrop(cs) ==> Extends(Run(cs, d), d)
    decreases |cs|
  {
    ExtendsSelf(d);
    if cs != [] {
      var next := Do(cs[0], d);
      assert cs[0] in cs && forall c :: c in cs[1..] ==> c in cs;
      DoExtends(cs[0], d);
      RunExtends(cs[1..], next);
      if AllAdd(cs) {
        ExtendsTrans(d, next, Run(cs, d));
      }
      if AllDrop(cs) {
        ExtendsTrans(Run(cs, d), next, d);
      }
    }
  }

  lemma {:induction false} ExtendsBoth(a: Json, b: Json)
    requires Extends(a, b) && Extends(b, a)
    ensures a == b
    decreases a
  {
    if a.Obj? {
      forall k | k in a.fields
        ensures a.fields[k] == b.fields[k]
      {
        ExtendsBoth(a.fields[k], b.fields[k]);
      }
      assert a.fields == b.fields;
    }
  }

  // -- Conditions on more data ---------------------------------------------

  /** The clause compares its field with no object. */
  predicate ComparesNoObject(c: Clause) {
    c.Clause? ==>
      && (c.constant.Some? ==> !c.constant.value.Obj?)
      && (c.choices.Some? ==> forall v :: v in c.choices.value ==> !v.Obj?)
  }

  predicate CompareNoObjects(members: seq<Member>)
    decreases members
  {
    members == [] ||
    (&& ComparesNoObject(members[0].clause)
     && (members[0].clause.Clause? && members[0].clause.properties.Members? ==>
           CompareNoObjects(members[0].clause.properties.list))
     && CompareNoObjects(members[1..]))
  }

  /** An `if` that compares no object at any depth. */
  predicate IfComparesNoObject(c: Clause) {
    c.Clause? && c.properties.Members? ==> CompareNoObjects(c.properties.list)
  }

  lemma {:induction false} FoundComparesNoObject(members: seq<Member>, x: string)
    requires CompareNoObjects(members) && FindMember(members, x).Some?
    ensures ComparesNoObject(FindMember(members, x).value)
  {
    if members[0].name != x {
      FoundComparesNoObject(members[1..], x);
    }
  }

  lemma FieldStillMatches(r: Required, members: Members, a: Fields, b: Fields)
    requires members.Members? ==> CompareNoObjects(members.list)
    requires Extends(Obj(a), Obj(b)) && MatchesField(r, members, a)
    ensures MatchesField(r, members, b)
  {
    assert Extends(Obj(a).fields[r.value], Obj(b).fields[r.value]);
    if members.Members? && FindMember(members.list, r.value).Some? {
      FoundComparesNoObject(members.list, r.value);
    }
  }

  lemma {:induction false} FlatStillMatches(required: seq<Required>, members: Members, a: Json, b: Json)
    requires members.Members? ==> CompareNoObjects(members.list)
    requires Extends(a, b) && MatchesFlat(required, members, Some(a))
    ensures MatchesFlat(required, members, Some(b))
  {
    MatchesFieldsMeaning(required, members, a.fields);
    MatchesFieldsMeaning(required, members, b.fields);
    forall r | r in required
      ensures MatchesField(r, members, b.fields)
    {
      FieldStillMatches(r, members, a.fields, b.fields);
    }
  }

  lemma {:induction false} AtExtends(a: Json, b: Json, path: seq<string>)
    requires Extends(a, b) && At(a, path).Some?
    ensures At(b, path).Some? && Extends(At(a, path).value, At(b, path).value)
    decreases |path|
  {
    if path != [] {
      AtExtends(a.Get(path[0]).value, b.Get(path[0]).value, path[1..]);
    }
  }

  lemma {:induction false} NestedStillMatches(members: seq<Member>, a: Json, b: Json)
    requires CompareNoObjects(members) && Extends(a, b) && MatchesNested(members, a)
    ensures MatchesNested(members, b)
    decreases members
  {
    var m := members[0];
    var a', b' := a.Get(m.name).value, b.Get(m.name).value;
    if m.clause.required.Some? {
      FlatStillMatches(m.clause.required.value, m.clause.properties, a', b');
    } else if m.clause.properties.Members? {
      NestedStillMatches(m.clause.properties.list, a', b');
    } else {
      NestedStillMatches(members[1..], a, b);
    }
  }

  /** A condition that compares no object and holds, holds on any data with more fields. */
  lemma {:induction false} IfStillMatches(clause: Clause, path: seq<string>, a: Json, b: Json)
    requires IfComparesNoObject(clause) && Extends(a, b) && MatchesIf(clause, a, path)
    ensures MatchesIf(clause, b, path)
  {
    if clause.required.Some? {
      AtExtends(a, b, path);
      FlatStillMatches(clause.required.value, clause.properties, At(a, path).value, At(b, path).value);
    } else {
      NestedStillMatches(clause.properties.list, a, b);
    }
  }

  // -- The gate with one conditional ---------------------------------------

  predicate HoldsOn(job: Job, d: Json)
    requires job.entry.ifClause.Some?
  {
    MatchesIf(job.entry.ifClause.value, d, job.path)
  }

  /** The conditional strips first and, when what it stripped is filled in again, holds. */
  predicate FlipsOn(s: Schema, job: Job, d: Json) {
    job.entry.ifClause.Some? &&
    var filled := FilledData(s, d);
    !HoldsOn(job, filled) && HoldsOn(job, FilledData(s, Run(ElseCommands(job), filled)))
  }

  /** The only conditional, which compares no object and whose defaults are ready for the
      commands before them. */
  predicate IsOnlyJob(s: Schema, job: Job) {
    && Jobs(s, []) == [job]
    && (job.entry.ifClause.Some? ==> IfComparesNoObject(job.entry.ifClause.value))
    && Ready(FillCommands(s, []) + ThenCommands(s, job))
  }

  lemma {:induction false} OneJobRuns(s: Schema, job: Job, d: Json)
    requires Jobs(s, []) == [job]
    ensures var filled := FilledData(s, d);
      && Apply(s, d).data == Run(Chosen(s, job, filled), filled)
      && GateScript(s, d) == FillCommands(s, []) + Chosen(s, job, filled)
  {
    var filled := FilledData(s, d);
    var first := Chosen(s, job, filled);
    GateIsScript(s, d);
    assert [job][1..] == [];
    assert RunJobs(s, [job], filled) == RunJobs(s, [], Run(first, filled));
    assert Script(s, [job], filled) == first + Script(s, [], Run(first, filled)) == first;
  }

  lemma {:induction false} DropsAreReady(cs: seq<Command>)
    requires AllDrop(cs)
    ensures Ready(cs)
    decreases |cs|
  {
    if cs != [] {
      assert forall c :: c in cs[1..] ==> c in cs;
      DropsAreReady(cs[1..]);
    }
  }

  lemma {:induction false} ScriptSettles(s: Schema, job: Job, d: Json)
    requires IsOnlyJob(s, job)
    ensures Settled(GateScript(s, d))
  {
    var fill, adds, drops := FillCommands(s, []), ThenCommands(s, job), ElseCommands(job);
    OneJobRuns(s, job, d);
    ReadyAppend(fill, adds);
    DropsAreReady(drops);
    assert AllLeave(fill, drops);
    ReadyAppend(fill, drops);
    assert fill + [] == fill;
    ReadySettles(GateScript(s, d));
  }

  lemma {:induction false} SameBranch(s: Schema, job: Job, a: Json, b: Json)
    requires job.entry.ifClause.Some? ==> HoldsOn(job, a) == HoldsOn(job, b)
    ensures SameBranches(s, [job], a, b)
  {
    assert [job][1..] == [];
    assert SameBranches(s, [], Run(Chosen(s, job, a), a), Run(Chosen(s, job, b), b));
  }

  /** A conditional that flips ends with other data in the second pass: were they the same,
      it would have held in the first. */
  lemma FlipDiffers(s: Schema, job: Job, d: Json)
    requires IsOnlyJob(s, job) && FlipsOn(s, job, d)
    ensures Apply(s, Apply(s, d).data).data != Apply(s, d).data
  {
    var filled := FilledData(s, d);
    var once := Run(ElseCommands(job), filled);
    var again := FilledData(s, once);
    OneJobRuns(s, job, d);
    OneJobRuns(s, job, once);
    RunExtends(ElseCommands(job), filled);
    RunExtends(FillCommands(s, []), once);
    RunExtends(ThenCommands(s, job), again);
    if Run(ThenCommands(s, job), again) == once {
      ExtendsBoth(once, again);
      IfStillMatches(job.entry.ifClause.value, job.path, once, filled);
    }
  }

  /** Applying the gate twice gives the data of applying it once if and only if the conditional
      does not flip. */
  lemma OneJobTwiceIffNoFlip(s: Schema, job: Job, d: Json)
    requires IsOnlyJob(s, job)
    ensures Apply(s, Apply(s, d).data).data == Apply(s, d).data <==> !FlipsOn(s, job, d)
  {
    if FlipsOn(s, job, d) {
      FlipDiffers(s, job, d);
    } else {
      var filled, once := FilledData(s, d), Apply(s, d).data;
      OneJobRuns(s, job, d);
      if job.entry.ifClause.Some? && HoldsOn(job, filled) {
        RunExtends(ThenCommands(s, job), filled);
        RunExtends(FillCommands(s, []), once);
        ExtendsTrans(filled, once, FilledData(s, once));
        IfStillMatches(job.entry.ifClause.value, job.path, filled, FilledData(s, once));
      }
      SameBranch(s, job, filled, FilledData(s, once));
      ScriptSettles(s, job, d);
      TwiceIfSameBranches(s, d);
    }
  }
}
