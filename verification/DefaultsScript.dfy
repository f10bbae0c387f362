/** The gate as a script of commands, for every schema, and when applying it twice is applying
    it once, whatever sections its conditionals read and write. */
module DefaultsScript {
  import opened Prelude
  import opened Schema
  import opened Defaults
  import opened DefaultsOneLevel
  import opened DefaultsNested
  import opened Scripts

  // -- Commands at one path ------------------------------------------------

  /** A command reaches its object from the root as a pointer does. */
  lemma {:induction false} DoAt(c: Command, d: Json)
    ensures match ObjectAt(d, c.path)
      case Some(fields) => Do(c, d) == Put(d, c.path, Do(c.(path := []), Obj(fields)))
      case None => Do(c, d) == d
    decreases |c.path|
  {
    if c.path == [] {
      assert c.(path := []) == c;
    } else if d.Get(c.path[0]).Some? {
      DoAt(Below(c), d.Get(c.path[0]).value);
      assert Below(c).(path := []) == c.(path := []);
      assert d.fields[c.path[0] := d.fields[c.path[0]]] == d.fields;
    }
  }

  lemma {:induction false} RunNowhere(cs: seq<Command>, path: seq<string>, d: Json)
    requires ObjectAt(d, path).None? && forall c :: c in cs ==> c.path == path
    ensures Run(cs, d) == d
    decreases |cs|
  {
    if cs != [] {
      assert cs[0] in cs;
      DoAt(cs[0], d);
      RunNowhere(cs[1..], path, d);
    }
  }

  /** The defaults that a list of required fields may add. */
  function AddCommands(required: seq<Required>, props: seq<Property>, path: seq<string>): (cs: seq<Command>)
    ensures AllAdd(cs) && forall c :: c in cs ==> c.path == path
  {
    if required == [] then []
    else
      var rest := AddCommands(required[1..], props, path);
      if required[0].Some? && ResolveDefault(required[0].value, props).Some?
      then [Add(path, required[0].value, ResolveDefault(required[0].value, props).value)] + rest
      else rest
  }

  function DropCommands(members: seq<Member>, path: seq<string>): (cs: seq<Command>)
    ensures AllDrop(cs) && forall c :: c in cs ==> c.path == path
  {
    if members == [] then []
    else if members[0].clause == Flag(false) then [Drop(path, members[0].name)] + DropCommands(members[1..], path)
    else DropCommands(members[1..], path)
  }

  lemma {:induction false} InjectIsRun(required: seq<Required>, props: seq<Property>, path: seq<string>, d: Json)
    requires ObjectAt(d, path).Some?
    ensures Run(AddCommands(required, props, path), d) ==
      Put(d, path, Obj(Inject(required, props, ObjectAt(d, path).value, path).fields))
    decreases |required|
  {
    var fields := ObjectAt(d, path).value;
    PutSame(d, path);
    if required != [] {
      var after := InjectOne(required[0], props, fields, path).fields;
      var next := Put(d, path, Obj(after));
      PutAt(d, path, Obj(after), Obj(Inject(required[1..], props, after, path).fields));
      InjectIsRun(required[1..], props, path, next);
      if required[0].Some? && ResolveDefault(required[0].value, props).Some? {
        DoAt(Add(path, required[0].value, ResolveDefault(required[0].value, props).value), d);
      }
    }
  }

  lemma {:induction false} StripIsRun(members: seq<Member>, path: seq<string>, d: Json)
    requires ObjectAt(d, path).Some?
    ensures Run(DropCommands(members, path), d) ==
      Put(d, path, Obj(Strip(members, ObjectAt(d, path).value, path).fields))
    decreases |members|
  {
    var fields := ObjectAt(d, path).value;
    PutSame(d, path);
    if members != [] {
      var after := StripOne(members[0], fields, path).fields;
      var next := Put(d, path, Obj(after));
      PutAt(d, path, Obj(after), Obj(Strip(members[1..], after, path).fields));
      StripIsRun(members[1..], path, next);
      if members[0].clause == Flag(false) {
        DoAt(Drop(path, members[0].name), d);
        assert members[0].name !in fields ==> fields - {members[0].name} == fields;
      }
    }
  }

  // -- The commands of a clause --------------------------------------------

  function InjectCommands(required: seq<Required>, props: Properties, path: seq<string>): (cs: seq<Command>)
    ensures AllAdd(cs)
  {
    if props.NoProperties? then [] else AddCommands(required, props.list, path)
  }

  function NestedThenCommands(members: seq<Member>, root: Schema, path: seq<string>): (cs: seq<Command>)
    ensures AllAdd(cs)
    decreases members, 0
  {
    if members == [] then []
    else ThenMemberCommands(members[0], root, path) + NestedThenCommands(members[1..], root, path)
  }

  function ThenMemberCommands(m: Member, root: Schema, path: seq<string>): (cs: seq<Command>)
    ensures AllAdd(cs)
    decreases m, 1
  {
    if !m.clause.Clause? then []
    else
      var child := path + [m.name];
      if m.clause.required.Some?
      then InjectCommands(m.clause.required.value, ResolveSchemaProperties(root, child), child)
      else if m.clause.properties.Members? then NestedThenCommands(m.clause.properties.list, root, child)
      else []
  }

  function NestedElseCommands(members: seq<Member>, path: seq<string>): (cs: seq<Command>)
    ensures AllDrop(cs)
    decreases members, 0
  {
    if members == [] then []
    else ElseMemberCommands(members[0], path) + NestedElseCommands(members[1..], path)
  }

  function ElseMemberCommands(m: Member, path: seq<string>): (cs: seq<Command>)
    ensures AllDrop(cs)
    decreases m, 1
  {
    if !m.clause.Clause? then DropCommands([m], path)
    else if m.clause.properties.Members? then NestedElseCommands(m.clause.properties.list, path + [m.name])
    else []
  }

  lemma InjectAtIsRun(required: seq<Required>, props: Properties, path: seq<string>, g: Gate)
    ensures InjectAt(required, props, path, g).data == Run(InjectCommands(required, props, path), g.data)
  {
    if props.Properties? {
      if ObjectAt(g.data, path).Some? {
        InjectIsRun(required, props.list, path, g.data);
      } else {
        RunNowhere(AddCommands(required, props.list, path), path, g.data);
      }
    }
  }

  lemma {:induction false} StripAtIsRun(members: seq<Member>, path: seq<string>, g: Gate)
    ensures StripAt(members, path, g).data == Run(DropCommands(members, path), g.data)
  {
    if ObjectAt(g.data, path).Some? {
      StripIsRun(members, path, g.data);
    } else {
      RunNowhere(DropCommands(members, path), path, g.data);
    }
  }

  lemma {:induction false} NestedThenIsRun(members: seq<Member>, root: Schema, path: seq<string>, g: Gate)
    ensures NestedThen(members, root, path, g).data == Run(NestedThenCommands(members, root, path), g.data)
    decreases members, 0
  {
    if members != [] {
      ThenMemberIsRun(members[0], root, path, g);
      NestedThenIsRun(members[1..], root, path, NestedThenMember(members[0], root, path, g));
      RunAppend(ThenMemberCommands(members[0], root, path), NestedThenCommands(members[1..], root, path), g.data);
    }
  }

  lemma {:induction false} ThenMemberIsRun(m: Member, root: Schema, path: seq<string>, g: Gate)
    ensures NestedThenMember(m, root, path, g).data == Run(ThenMemberCommands(m, root, path), g.data)
    decreases m, 1
  {
    if m.clause.Clause? {
      var child := path + [m.name];
      if m.clause.required.Some? {
        InjectAtIsRun(m.clause.required.value, ResolveSchemaProperties(root, child), child, g);
      } else if m.clause.properties.Members? {
        NestedThenIsRun(m.clause.properties.list, root, child, g);
      }
    }
  }

  lemma {:induction false} NestedElseIsRun(members: seq<Member>, path: seq<string>, g: Gate)
    ensures StripNested(members, path, g).data == Run(NestedElseCommands(members, path), g.data)
    decreases members, 0
  {
    if members != [] {
      ElseMemberIsRun(members[0], path, g);
      NestedElseIsRun(members[1..], path, StripNestedMember(members[0], path, g));
      RunAppend(ElseMemberCommands(members[0], path), NestedElseCommands(members[1..], path), g.data);
    }
  }

  lemma {:induction false} ElseMemberIsRun(m: Member, path: seq<string>, g: Gate)
    ensures StripNestedMember(m, path, g).data == Run(ElseMemberCommands(m, path), g.data)
    decreases m, 1
  {
    if !m.clause.Clause? {
      StripAtIsRun([m], path, g);
    } else if m.clause.properties.Members? {
      NestedElseIsRun(m.clause.properties.list, path + [m.name], g);
    }
  }

  // -- Entries -------------------------------------------------------------

  /** An entry with the schema level and the path it is applied at. */
  datatype Job = Job(local: Schema, entry: Entry, path: seq<string>)

  function ThenCommands(root: Schema, job: Job): (cs: seq<Command>)
    ensures AllAdd(cs)
  {
    if job.entry.thenClause.None? || !job.entry.thenClause.value.Clause? then []
    else
      var clause := job.entry.thenClause.value;
      (if clause.required.Some? then InjectCommands(clause.required.value, job.local.properties, job.path) else []) +
      (if clause.properties.Members? then NestedThenCommands(clause.properties.list, root, []) else [])
  }

  function ElseCommands(job: Job): (cs: seq<Command>)
    ensures AllDrop(cs)
  {
    if job.entry.elseClause.None? || !job.entry.elseClause.value.Clause? then []
    else
      var members := job.entry.elseClause.value.properties;
      if members.NoMembers? then []
      else if IsFlat(members.list) then DropCommands(members.list, job.path)
      else NestedElseCommands(members.list, [])
  }

  /** The commands of the branch that the data decides for. */
  function Chosen(root: Schema, job: Job, d: Json): seq<Command> {
    if job.entry.ifClause.None? then []
    else if MatchesIf(job.entry.ifClause.value, d, job.path) then ThenCommands(root, job)
    else ElseCommands(job)
  }

  lemma EntryIsRun(root: Schema, job: Job, g: Gate)
    ensures ApplyEntry(root, job.local, job.entry, job.path, g).data == Run(Chosen(root, job, g.data), g.data)
  {
    var e, path := job.entry, job.path;
    if e.ifClause.Some? {
      if MatchesIf(e.ifClause.value, g.data, path) {
        if e.thenClause.Some? && e.thenClause.value.Clause? {
          ThenIsRun(root, job, e.thenClause.value, g);
        }
      } else if e.elseClause.Some? && e.elseClause.value.Clause? && e.elseClause.value.properties.Members? {
        var list := e.elseClause.value.properties.list;
        StripAtIsRun(list, path, g);
        NestedElseIsRun(list, [], g);
      }
    }
  }

  lemma ThenIsRun(root: Schema, job: Job, clause: Clause, g: Gate)
    requires job.entry.thenClause == Some(clause) && clause.Clause?
    ensures CrossThen(clause, root, FlatThen(clause, job.local, job.path, g)).data ==
      Run(ThenCommands(root, job), g.data)
  {
    var flat := if clause.required.Some?
      then InjectCommands(clause.required.value, job.local.properties, job.path) else [];
    var cross := if clause.properties.Members? then NestedThenCommands(clause.properties.list, root, []) else [];
    if clause.required.Some? {
      InjectAtIsRun(clause.required.value, job.local.properties, job.path, g);
    }
    if clause.properties.Members? {
      NestedThenIsRun(clause.properties.list, root, [], FlatThen(clause, job.local, job.path, g));
    }
    RunAppend(flat, cross, g.data);
  }

  // -- The whole gate ------------------------------------------------------

  function FillCommands(s: Schema, path: seq<string>): (cs: seq<Command>)
    ensures AllAdd(cs)
    decreases s, 1
  {
    if s.required.None? || s.properties.NoProperties? then []
    else AddCommands(s.required.value, s.properties.list, path) + FillCommandsIn(s.properties.list, path)
  }

  function FillCommandsIn(props: seq<Property>, path: seq<string>): (cs: seq<Command>)
    ensures AllAdd(cs)
    decreases props, 0
  {
    if props == [] then []
    else
      (if props[0].schema.objectType then FillCommands(props[0].schema, path + [props[0].name]) else []) +
      FillCommandsIn(props[1..], path)
  }

  lemma {:induction false} FillNowhere(s: Schema, path: seq<string>, d: Json)
    requires ObjectAt(d, path).None?
    ensures Run(FillCommands(s, path), d) == d
    decreases s, 1
  {
    if s.required.Some? && s.properties.Properties? {
      var own := AddCommands(s.required.value, s.properties.list, path);
      RunAppend(own, FillCommandsIn(s.properties.list, path), d);
      RunNowhere(own, path, d);
      FillInNowhere(s.properties.list, path, d);
    }
  }

  lemma {:induction false} FillInNowhere(props: seq<Property>, path: seq<string>, d: Json)
    requires ObjectAt(d, path).None?
    ensures Run(FillCommandsIn(props, path), d) == d
    decreases props, 0
  {
    if props != [] {
      var child := path + [props[0].name];
      if props[0].schema.objectType {
        AtChild(d, path, props[0].name);
        FillNowhere(props[0].schema, child, d);
        RunAppend(FillCommands(props[0].schema, child), FillCommandsIn(props[1..], path), d);
      } else {
        assert FillCommandsIn(props, path) == FillCommandsIn(props[1..], path);
      }
      FillInNowhere(props[1..], path, d);
    }
  }

  lemma {:induction false} FillIsRun(s: Schema, path: seq<string>, d: Json)
    requires At(d, path).Some?
    ensures Run(FillCommands(s, path), d) == Put(d, path, Unconditional(s, At(d, path).value, path).0)
    decreases s, 1
  {
    PutSame(d, path);
    if ObjectAt(d, path).None? {
      FillNowhere(s, path, d);
    } else if s.required.Some? && s.properties.Properties? {
      var required, props, fields := s.required.value, s.properties.list, ObjectAt(d, path).value;
      var own := Inject(required, props, fields, path).fields;
      InjectIsRun(required, props, path, d);
      RunAppend(AddCommands(required, props, path), FillCommandsIn(props, path), d);
      PutAt(d, path, Obj(own), Obj(UnconditionalNested(props, own, path).fields));
      FillInIsRun(props, path, Put(d, path, Obj(own)));
    }
  }

  lemma {:induction false} FillInIsRun(props: seq<Property>, path: seq<string>, d: Json)
    requires ObjectAt(d, path).Some?
    ensures Run(FillCommandsIn(props, path), d) ==
      Put(d, path, Obj(UnconditionalNested(props, ObjectAt(d, path).value, path).fields))
    decreases props, 0
  {
    PutSame(d, path);
    if props != [] {
      var fields := ObjectAt(d, path).value;
      var first := UnconditionalChild(props[0], fields, path).fields;
      FillChildIsRun(props[0], path, d);
      PutAt(d, path, Obj(first), Obj(UnconditionalNested(props[1..], first, path).fields));
      FillInIsRun(props[1..], path, Put(d, path, Obj(first)));
      if props[0].schema.objectType {
        RunAppend(FillCommands(props[0].schema, path + [props[0].name]), FillCommandsIn(props[1..], path), d);
      } else {
        assert FillCommandsIn(props, path) == FillCommandsIn(props[1..], path);
      }
    }
  }

  lemma {:induction false} FillChildIsRun(prop: Property, path: seq<string>, d: Json)
    requires ObjectAt(d, path).Some?
    ensures var cs := if prop.schema.objectType then FillCommands(prop.schema, path + [prop.name]) else [];
      Run(cs, d) == Put(d, path, Obj(UnconditionalChild(prop, ObjectAt(d, path).value, path).fields))
    decreases prop, 2
  {
    PutSame(d, path);
    if prop.schema.objectType {
      var fields, child := ObjectAt(d, path).value, path + [prop.name];
      AtChild(d, path, prop.name);
      if prop.name in fields {
        FillIsRun(prop.schema, child, d);
        PutChild(d, path, prop.name, Unconditional(prop.schema, fields[prop.name], child).0);
      } else {
        FillNowhere(prop.schema, child, d);
      }
    }
  }

  /** All entries of a schema in the order in which they are applied. */
  function Jobs(s: Schema, path: seq<string>): seq<Job>
    decreases s, 1
  {
    OwnJobs(s, EntriesOf(s), path) + if s.properties.Properties? then JobsIn(s.properties.list, path) else []
  }

  function JobsIn(props: seq<Property>, path: seq<string>): seq<Job>
    decreases props, 0
  {
    if props == [] then []
    else
      (if props[0].schema.objectType then Jobs(props[0].schema, path + [props[0].name]) else []) +
      JobsIn(props[1..], path)
  }

  function OwnJobs(s: Schema, es: seq<Entry>, path: seq<string>): seq<Job> {
    if es == [] then [] else [Job(s, es[0], path)] + OwnJobs(s, es[1..], path)
  }

  function RunJobs(root: Schema, jobs: seq<Job>, d: Json): Json {
    if jobs == [] then d else RunJobs(root, jobs[1..], Run(Chosen(root, jobs[0], d), d))
  }

  lemma {:induction false} RunJobsAppend(root: Schema, a: seq<Job>, b: seq<Job>, d: Json)
    ensures RunJobs(root, a + b, d) == RunJobs(root, b, RunJobs(root, a, d))
    decreases |a|
  {
    if a == [] {
      assert a + b == b;
    } else {
      assert (a + b)[0] == a[0] && (a + b)[1..] == a[1..] + b;
      RunJobsAppend(root, a[1..], b, Run(Chosen(root, a[0], d), d));
    }
  }

  lemma {:induction false} EntriesAreJobs(root: Schema, s: Schema, es: seq<Entry>, path: seq<string>, g: Gate)
    ensures ApplyEntries(root, s, es, path, g).data == RunJobs(root, OwnJobs(s, es, path), g.data)
    decreases |es|
  {
    if es != [] {
      EntryIsRun(root, Job(s, es[0], path), g);
      EntriesAreJobs(root, s, es[1..], path, ApplyEntry(root, s, es[0], path, g));
    }
  }

  lemma {:induction false} WalkIsJobs(root: Schema, s: Schema, path: seq<string>, g: Gate)
    ensures WalkProperties(root, s, path, ProcessAllOf(root, s, path, g)).data == RunJobs(root, Jobs(s, path), g.data)
    decreases s, 1
  {
    EntriesAreJobs(root, s, EntriesOf(s), path, g);
    if s.properties.Properties? {
      WalkListIsJobs(root, s.properties.list, path, ProcessAllOf(root, s, path, g));
      RunJobsAppend(root, OwnJobs(s, EntriesOf(s), path), JobsIn(s.properties.list, path), g.data);
    } else {
      assert Jobs(s, path) == OwnJobs(s, EntriesOf(s), path);
    }
  }

  lemma {:induction false} WalkListIsJobs(root: Schema, props: seq<Property>, path: seq<string>, g: Gate)
    ensures WalkList(root, props, path, g).data == RunJobs(root, JobsIn(props, path), g.data)
    decreases props, 0
  {
    if props != [] {
      if props[0].schema.objectType {
        var s, child := props[0].schema, path + [props[0].name];
        WalkIsJobs(root, s, child, g);
        WalkListIsJobs(root, props[1..], path, WalkProperties(root, s, child, ProcessAllOf(root, s, child, g)));
        RunJobsAppend(root, Jobs(s, child), JobsIn(props[1..], path), g.data);
      } else {
        assert JobsIn(props, path) == JobsIn(props[1..], path);
        WalkListIsJobs(root, props[1..], path, g);
      }
    }
  }

  /** The commands of a run: those of the branches that are taken. */
  function Script(root: Schema, jobs: seq<Job>, d: Json): seq<Command> {
    if jobs == [] then []
    else
      var first := Chosen(root, jobs[0], d);
      first + Script(root, jobs[1..], Run(first, d))
  }

  lemma {:induction false} JobsAreScript(root: Schema, jobs: seq<Job>, d: Json)
    ensures RunJobs(root, jobs, d) == Run(Script(root, jobs, d), d)
    decreases |jobs|
  {
    if jobs != [] {
      var first := Chosen(root, jobs[0], d);
      JobsAreScript(root, jobs[1..], Run(first, d));
      RunAppend(first, Script(root, jobs[1..], Run(first, d)), d);
    }
  }

  /** The data after the unconditional pass. */
  function FilledData(s: Schema, d: Json): Json {
    Run(FillCommands(s, []), d)
  }

  function GateScript(s: Schema, d: Json): seq<Command> {
    FillCommands(s, []) + Script(s, Jobs(s, []), FilledData(s, d))
  }

  /** On every schema and all data the gate runs its script. */
  lemma {:induction false} GateIsScript(s: Schema, d: Json)
    ensures FilledData(s, d) == Unconditional(s, d, []).0
    ensures Apply(s, d).data == RunJobs(s, Jobs(s, []), FilledData(s, d)) == Run(GateScript(s, d), d)
  {
    var (filled, edits) := Unconditional(s, d, []);
    FillIsRun(s, [], d);
    WalkIsJobs(s, s, [], Gate(filled, edits));
    JobsAreScript(s, Jobs(s, []), filled);
    RunAppend(FillCommands(s, []), Script(s, Jobs(s, []), filled), d);
  }

  // -- The second pass -----------------------------------------------------

  /** Every entry takes the same branch on both data. */
  predicate SameBranches(root: Schema, jobs: seq<Job>, a: Json, b: Json) {
    jobs == [] ||
    (&& (jobs[0].entry.ifClause.Some? ==>
          MatchesIf(jobs[0].entry.ifClause.value, a, jobs[0].path) ==
          MatchesIf(jobs[0].entry.ifClause.value, b, jobs[0].path))
     && SameBranches(root, jobs[1..], Run(Chosen(root, jobs[0], a), a), Run(Chosen(root, jobs[0], b), b)))
  }

  lemma {:induction false} SameBranchesScript(root: Schema, jobs: seq<Job>, a: Json, b: Json)
    requires SameBranches(root, jobs, a, b)
    ensures Script(root, jobs, a) == Script(root, jobs, b)
    decreases |jobs|
  {
    if jobs != [] {
      SameBranchesScript(root, jobs[1..], Run(Chosen(root, jobs[0], a), a), Run(Chosen(root, jobs[0], b), b));
    }
  }

  /** Data on which every entry decides in the second pass as in the first and the script is
      settled: the second pass changes nothing. */
  lemma {:induction false} TwiceIfSameBranches(s: Schema, d: Json)
    requires SameBranches(s, Jobs(s, []), FilledData(s, d), FilledData(s, Apply(s, d).data))
    requires Settled(GateScript(s, d))
    ensures Apply(s, Apply(s, d).data).data == Apply(s, d).data
  {
    GateIsScript(s, d);
    GateIsScript(s, Apply(s, d).data);
    SameBranchesScript(s, Jobs(s, []), FilledData(s, d), FilledData(s, Apply(s, d).data));
    SettledTwice(GateScript(s, d), d);
  }

  // -- What a condition looks at -------------------------------------------

  function FieldLooks(required: seq<Required>, members: Members): (looks: seq<Look>)
    ensures forall look :: look in looks ==> look.path != []
  {
    if required == [] then []
    else
      match required[0]
      case None => FieldLooks(required[1..], members)
      case Some(x) =>
        [Look([x], if Compared(members, x) then Whole else Presence)] + FieldLooks(required[1..], members)
  }

  function FlatLooks(required: seq<Required>, members: Members): seq<Look> {
    [Look([], Kind)] + FieldLooks(required, members)
  }

  /** The looks taken from the object at a path, as taken from the root. */
  function From(path: seq<string>, looks: seq<Look>): (r: seq<Look>)
    ensures forall look :: look in looks ==> look.(path := path + look.path) in r
    ensures path != [] ==> forall look :: look in r ==> look.path != [] && look.path[0] == path[0]
  {
    if looks == [] then [] else [looks[0].(path := path + looks[0].path)] + From(path, looks[1..])
  }

  function NestedLooks(members: seq<Member>): (looks: seq<Look>)
    ensures forall look :: look in looks ==> look.path != []
    decreases members
  {
    if members == [] || !members[0].clause.Clause? then []
    else
      var m := members[0];
      [Look([m.name], Presence)] +
      if m.clause.required.Some? then From([m.name], FlatLooks(m.clause.required.value, m.clause.properties))
      else if m.clause.properties.Members? then From([m.name], NestedLooks(m.clause.properties.list))
      else NestedLooks(members[1..])
  }

  function IfLooks(clause: Clause, path: seq<string>): seq<Look> {
    if !clause.Clause? then []
    else if clause.required.Some? then From(path, FlatLooks(clause.required.value, clause.properties))
    else if clause.properties.Members? then NestedLooks(clause.properties.list)
    else []
  }

  /** All the looks see no difference. */
  predicate AllSame(a: Json, b: Json, looks: seq<Look>) {
    forall look :: look in looks ==> Same(a, b, look)
  }

  lemma {:induction false} SameAt(a: Json, b: Json, path: seq<string>, look: Look)
    requires Same(a, b, look.(path := path + look.path))
    requires look.path == [] ==> !look.sight.Presence?
    ensures At(a, path).Some? == At(b, path).Some?
    ensures At(a, path).Some? ==> Same(At(a, path).value, At(b, path).value, look)
    decreases |path|
  {
    if path == [] {
      assert path + look.path == look.path;
    } else {
      assert (path + look.path)[0] == path[0] && (path + look.path)[1..] == path[1..] + look.path;
      if a.Get(path[0]).Some? {
        SameAt(a.Get(path[0]).value, b.Get(path[0]).value, path[1..], look);
      }
    }
  }

  lemma {:induction false} FieldDecidesSame(x: string, members: Members, a: Json, b: Json)
    requires a.Obj? && b.Obj? && Same(a, b, Look([x], if Compared(members, x) then Whole else Presence))
    ensures MatchesField(Some(x), members, a.fields) == MatchesField(Some(x), members, b.fields)
  {
    var look := Look([x], if Compared(members, x) then Whole else Presence);
    assert Further(look).path == [] && a.Get(x).Some? == b.Get(x).Some?;
    if a.Get(x).Some? {
      assert Same(a.Get(x).value, b.Get(x).value, Further(look));
    }
  }

  lemma {:induction false} FieldsDecideSame(required: seq<Required>, members: Members, a: Json, b: Json)
    requires a.Obj? && b.Obj? && AllSame(a, b, FieldLooks(required, members))
    ensures MatchesFields(required, members, a.fields) == MatchesFields(required, members, b.fields)
    decreases |required|
  {
    if required != [] {
      var looks, rest := FieldLooks(required, members), FieldLooks(required[1..], members);
      assert forall look :: look in rest ==> look in looks;
      FieldsDecideSame(required[1..], members, a, b);
      if required[0].Some? {
        var x := required[0].value;
        assert looks[0] == Look([x], if Compared(members, x) then Whole else Presence);
        assert Same(a, b, looks[0]);
        FieldDecidesSame(x, members, a, b);
      }
    }
  }

  lemma {:induction false} FlatDecidesSame(required: seq<Required>, members: Members, path: seq<string>, a: Json,
                                           b: Json)
    requires AllSame(a, b, From(path, FlatLooks(required, members)))
    ensures MatchesFlat(required, members, At(a, path)) == MatchesFlat(required, members, At(b, path))
  {
    var looks := FlatLooks(required, members);
    assert looks[0] in looks && looks[0] == Look([], Kind);
    SameAt(a, b, path, looks[0]);
    if ObjectAt(a, path).Some? {
      forall look | look in FieldLooks(required, members)
        ensures Same(At(a, path).value, At(b, path).value, look)
      {
        assert look in looks;
        SameAt(a, b, path, look);
      }
      FieldsDecideSame(required, members, At(a, path).value, At(b, path).value);
    }
  }

  lemma {:induction false} NestedDecidesSame(members: seq<Member>, a: Json, b: Json)
    requires AllSame(a, b, NestedLooks(members))
    ensures MatchesNested(members, a) == MatchesNested(members, b)
    decreases members
  {
    if members != [] && members[0].clause.Clause? {
      var m, looks := members[0], NestedLooks(members);
      assert looks[0] in looks && looks[0] == Look([m.name], Presence);
      if a.Get(m.name).Some? {
        var a', b', clause := a.Get(m.name).value, b.Get(m.name).value, m.clause;
        if clause.required.Some? {
          assert At(a', []) == Some(a') && At(b', []) == Some(b');
          FlatDecidesSame(clause.required.value, clause.properties, [m.name], a, b);
        } else if clause.properties.Members? {
          forall look | look in NestedLooks(clause.properties.list)
            ensures Same(a', b', look)
          {
            SameAt(a, b, [m.name], look);
          }
          NestedDecidesSame(clause.properties.list, a', b');
        } else {
          NestedDecidesSame(members[1..], a, b);
        }
      }
    }
  }

  lemma IfDecidesSame(clause: Clause, path: seq<string>, a: Json, b: Json)
    requires AllSame(a, b, IfLooks(clause, path))
    ensures MatchesIf(clause, a, path) == MatchesIf(clause, b, path)
  {
    if clause.Clause? {
      if clause.required.Some? {
        FlatDecidesSame(clause.required.value, clause.properties, path, a, b);
      } else if clause.properties.Members? {
        NestedDecidesSame(clause.properties.list, a, b);
      }
    }
  }

  // -- Entries that look at what is final ----------------------------------

  function JobLooks(job: Job): seq<Look> {
    if job.entry.ifClause.Some? then IfLooks(job.entry.ifClause.value, job.path) else []
  }

  /** All commands that the entries may give, in order. */
  function AllCommands(root: Schema, jobs: seq<Job>): seq<Command> {
    if jobs == [] then [] else JobCommands(root, jobs[0]) + AllCommands(root, jobs[1..])
  }

  function JobCommands(root: Schema, job: Job): seq<Command> {
    if job.entry.ifClause.None? then [] else ThenCommands(root, job) + ElseCommands(job)
  }

  /** No entry looks at what it or a later entry may change. */
  predicate LooksAreFinal(root: Schema, jobs: seq<Job>) {
    jobs == [] ||
    (&& (forall look, c :: look in JobLooks(jobs[0]) && c in AllCommands(root, jobs) ==> !Disturbs(c, look))
     && LooksAreFinal(root, jobs[1..]))
  }

  lemma {:induction false} ScriptIsPossible(root: Schema, jobs: seq<Job>, d: Json, c: Command)
    requires c in Script(root, jobs, d)
    ensures c in AllCommands(root, jobs)
    decreases |jobs|
  {
    var first := Chosen(root, jobs[0], d);
    if c !in first {
      ScriptIsPossible(root, jobs[1..], Run(first, d), c);
    }
  }

  /** The branch taken may be put in the place of both branches. */
  lemma {:induction false} ChosenIsReady(root: Schema, before: seq<Command>, jobs: seq<Job>, d: Json)
    requires jobs != [] && Ready(before + AllCommands(root, jobs))
    ensures Ready(before + Chosen(root, jobs[0], d) + AllCommands(root, jobs[1..]))
  {
    var job, rest, first := jobs[0], AllCommands(root, jobs[1..]), Chosen(root, jobs[0], d);
    var both := JobCommands(root, job);
    ReadyAppend(before, both + rest);
    ReadyAppend(both, rest);
    if job.entry.ifClause.Some? {
      ReadyAppend(ThenCommands(root, job), ElseCommands(job));
    }
    assert forall c :: c in first ==> c in both;
    ReadyAppend(before, first);
    ReadyAppend(before + first, rest);
  }

  /** The rest of the first pass, from `s` to `d`, and of the second, from `t`. */
  lemma {:induction false} FinalLooksDecide(root: Schema, before: seq<Command>, jobs: seq<Job>, f: Json, s: Json,
                                            t: Json)
    requires LooksAreFinal(root, jobs) && Ready(before + AllCommands(root, jobs))
    requires s == Run(before, f) && t == Run(before, RunJobs(root, jobs, s))
    ensures SameBranches(root, jobs, s, t)
    decreases |jobs|
  {
    if jobs != [] {
      var job, d := jobs[0], RunJobs(root, jobs, s);
      if job.entry.ifClause.Some? {
        forall look | look in JobLooks(job)
          ensures Same(s, t, look)
        {
          LookIsFinal(root, before, jobs, f, s, look);
        }
        IfDecidesSame(job.entry.ifClause.value, job.path, s, t);
      }
      var first := Chosen(root, job, s);
      assert first == Chosen(root, job, t);
      RunAppend(before, first, f);
      RunAppend(before, first, d);
      ChosenIsReady(root, before, jobs, s);
      FinalLooksDecide(root, before + first, jobs[1..], f, Run(first, s), Run(first, t));
    }
  }

  /** The first pass leaves what the entry sees, and what came before the entry makes the same
      of it again. */
  lemma {:induction false} LookIsFinal(root: Schema, before: seq<Command>, jobs: seq<Job>, f: Json, s: Json, look: Look)
    requires jobs != [] && LooksAreFinal(root, jobs) && Ready(before + AllCommands(root, jobs))
    requires s == Run(before, f) && look in JobLooks(jobs[0])
    ensures Same(s, Run(before, RunJobs(root, jobs, s)), look)
  {
    forall c | c in Script(root, jobs, s)
      ensures !Disturbs(c, look)
    {
      ScriptIsPossible(root, jobs, s, c);
    }
    JobsAreScript(root, jobs, s);
    RunUndisturbed(Script(root, jobs, s), s, look);
    RunSame(before, s, RunJobs(root, jobs, s), look);
    ReadyAppend(before, AllCommands(root, jobs));
    ReadySettles(before);
    SettledTwice(before, f);
  }

  lemma {:induction false} ScriptIsReady(root: Schema, before: seq<Command>, jobs: seq<Job>, d: Json)
    requires Ready(before + AllCommands(root, jobs))
    ensures Ready(before + Script(root, jobs, d))
    decreases |jobs|
  {
    if jobs != [] {
      var first := Chosen(root, jobs[0], d);
      ChosenIsReady(root, before, jobs, d);
      ScriptIsReady(root, before + first, jobs[1..], Run(first, d));
      AppendAssociates(before, first, Script(root, jobs[1..], Run(first, d)));
    }
  }

  /** What a schema must keep to: its entries look at what is final, and add only defaults
      that are ready for the commands before them. */
  predicate IsConsistent(s: Schema) {
    && LooksAreFinal(s, Jobs(s, []))
    && Ready(FillCommands(s, []) + AllCommands(s, Jobs(s, [])))
  }

  /** Then applying the gate twice gives the data of applying it once, on all data, also where
      conditionals read and write across sections. */
  lemma ConsistentTwice(s: Schema, d: Json)
    requires IsConsistent(s)
    ensures Apply(s, Apply(s, d).data).data == Apply(s, d).data
  {
    var fill, jobs := FillCommands(s, []), Jobs(s, []);
    GateIsScript(s, d);
    ScriptIsReady(s, fill, jobs, FilledData(s, d));
    ReadySettles(GateScript(s, d));
    FinalLooksDecide(s, fill, jobs, d, FilledData(s, d), FilledData(s, Apply(s, d).data));
    TwiceIfSameBranches(s, d);
  }
}
