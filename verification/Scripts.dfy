/** Straight-line programs over JSON data that add missing fields and drop fields, and exactly
    when running one of them twice is running it once. */
module Scripts {
  import opened Prelude

  /** One command for the object at a path. Where there is no object it does nothing, and a
      field that is there is not added again. */
  datatype Command =
    | Add(path: seq<string>, field: string, value: Json)
    | Drop(path: seq<string>, field: string)

  predicate AllAdd(cs: seq<Command>) {
    forall c :: c in cs ==> c.Add?
  }

  predicate AllDrop(cs: seq<Command>) {
    forall c :: c in cs ==> c.Drop?
  }

  /** The command as seen from the value of the first field of its path. */
  function Below(c: Command): Command
    requires c.path != []
  {
    c.(path := c.path[1..])
  }

  function Do(c: Command, d: Json): Json
    decreases |c.path|
  {
    if !d.Obj? then d
    else if c.path == [] then
      match c
      case Add(_, x, v) => if x in d.fields then d else Obj(d.fields[x := v])
      case Drop(_, x) => Obj(d.fields - {x})
    else if c.path[0] in d.fields then Obj(d.fields[c.path[0] := Do(Below(c), d.fields[c.path[0]])])
    else d
  }

  function Run(cs: seq<Command>, d: Json): Json {
    if cs == [] then d else Run(cs[1..], Do(cs[0], d))
  }

  lemma {:induction false} RunAppend(a: seq<Command>, b: seq<Command>, d: Json)
    ensures Run(a + b, d) == Run(b, Run(a, d))
    decreases |a|
  {
    if a == [] {
      assert a + b == b;
    } else {
      assert (a + b)[0] == a[0] && (a + b)[1..] == a[1..] + b;
      RunAppend(a[1..], b, Do(a[0], d));
    }
  }

  // -- One field -----------------------------------------------------------

  predicate Targets(c: Command, x: string) {
    c.path == [] && c.field == x
  }

  predicate Enters(c: Command, x: string) {
    c.path != [] && c.path[0] == x
  }

  /** What a command makes of one field of an object. */
  function DoField(c: Command, x: string, v: Option<Json>): Option<Json> {
    if Targets(c, x) then
      match c
      case Add(_, _, default) => if v.Some? then v else Some(default)
      case Drop(_, _) => None
    else if Enters(c, x) && v.Some? then Some(Do(Below(c), v.value))
    else v
  }

  function RunField(cs: seq<Command>, x: string, v: Option<Json>): Option<Json> {
    if cs == [] then v else RunField(cs[1..], x, DoField(cs[0], x, v))
  }

  lemma {:induction false} RunAt(cs: seq<Command>, d: Json, x: string)
    requires d.Obj?
    ensures Run(cs, d).Obj? && Run(cs, d).Get(x) == RunField(cs, x, d.Get(x))
    decreases |cs|
  {
    if cs != [] {
      assert Do(cs[0], d).Get(x) == DoField(cs[0], x, d.Get(x));
      RunAt(cs[1..], Do(cs[0], d), x);
    }
  }

  lemma {:induction false} RunElsewhere(cs: seq<Command>, d: Json)
    requires !d.Obj?
    ensures Run(cs, d) == d
    decreases |cs|
  {
    if cs != [] {
      RunElsewhere(cs[1..], d);
    }
  }

  /** The commands inside the field, as seen from its value. */
  function Inner(cs: seq<Command>, x: string): (inner: seq<Command>)
    ensures Weight(inner) + |inner| <= Weight(cs)
  {
    if cs == [] then []
    else if Enters(cs[0], x) then [Below(cs[0])] + Inner(cs[1..], x)
    else Inner(cs[1..], x)
  }

  /** The length of all paths. */
  function Weight(cs: seq<Command>): nat {
    if cs == [] then 0 else |cs[0].path| + Weight(cs[1..])
  }

  predicate Drops(cs: seq<Command>, x: string) {
    exists c :: c in cs && c.Drop? && Targets(c, x)
  }

  /** A field that is there and never dropped sees only the commands inside it. */
  lemma {:induction false} RunInner(cs: seq<Command>, x: string, v: Json)
    requires !Drops(cs, x)
    ensures RunField(cs, x, Some(v)) == Some(Run(Inner(cs, x), v))
    decreases |cs|
  {
    if cs != [] {
      assert cs[0] in cs && forall c :: c in cs[1..] ==> c in cs;
      if Enters(cs[0], x) {
        RunInner(cs[1..], x, Do(Below(cs[0]), v));
      } else {
        RunInner(cs[1..], x, v);
      }
    }
  }

  /** A field that is dropped ends the same whatever it was. */
  lemma {:induction false} DroppedForgets(cs: seq<Command>, x: string, v: Option<Json>, w: Option<Json>)
    requires Drops(cs, x)
    ensures RunField(cs, x, v) == RunField(cs, x, w)
    decreases |cs|
  {
    var v', w' := DoField(cs[0], x, v), DoField(cs[0], x, w);
    if Drops(cs[1..], x) {
      DroppedForgets(cs[1..], x, v', w');
    } else {
      assert cs == [cs[0]] + cs[1..];
      assert cs[0].Drop? && Targets(cs[0], x);
    }
  }

  // -- Running twice -------------------------------------------------------

  /** Every field that is never dropped: what the script makes out of nothing it leaves alone
      when it runs again, and so in the value of the field. */
  ghost predicate Settled(cs: seq<Command>)
    decreases Weight(cs)
  {
    forall x :: !Drops(cs, x) ==>
      && RunField(cs, x, RunField(cs, x, None)) == RunField(cs, x, None)
      && (Inner(cs, x) != [] ==> Settled(Inner(cs, x)))
  }

  predicate TwiceIsOnce(cs: seq<Command>, d: Json) {
    Run(cs, Run(cs, d)) == Run(cs, d)
  }

  lemma {:induction false} SettledTwice(cs: seq<Command>, d: Json)
    requires Settled(cs)
    ensures TwiceIsOnce(cs, d)
    decreases Weight(cs)
  {
    if !d.Obj? {
      RunElsewhere(cs, d);
    } else {
      RunAt(cs, d, "");
      var once := Run(cs, d);
      RunAt(cs, once, "");
      forall x
        ensures Run(cs, once).Get(x) == once.Get(x)
      {
        RunAt(cs, d, x);
        RunAt(cs, once, x);
        SettledField(cs, x, d.Get(x));
      }
      SameFields(Run(cs, once), once);
    }
  }

  lemma SameFields(a: Json, b: Json)
    requires a.Obj? && b.Obj? && forall x :: a.Get(x) == b.Get(x)
    ensures a == b
  {
    forall x
      ensures x in a.fields <==> x in b.fields
      ensures x in a.fields ==> a.fields[x] == b.fields[x]
    {
      assert a.Get(x) == b.Get(x);
    }
    assert a.fields == b.fields;
  }

  lemma {:induction false} SettledField(cs: seq<Command>, x: string, v: Option<Json>)
    requires Settled(cs)
    ensures RunField(cs, x, RunField(cs, x, v)) == RunField(cs, x, v)
    decreases Weight(cs), 0
  {
    if Drops(cs, x) {
      DroppedForgets(cs, x, RunField(cs, x, v), v);
    } else if v.Some? {
      RunInner(cs, x, v.value);
      RunInner(cs, x, Run(Inner(cs, x), v.value));
      if Inner(cs, x) != [] {
        SettledTwice(Inner(cs, x), v.value);
      }
    }
  }

  /** Running a script twice is running it once on all data if and only if it is settled. */
  lemma {:induction false} IdempotentIffSettled(cs: seq<Command>)
    ensures (forall d :: TwiceIsOnce(cs, d)) <==> Settled(cs)
    decreases Weight(cs)
  {
    if Settled(cs) {
      forall d
        ensures TwiceIsOnce(cs, d)
      {
        SettledTwice(cs, d);
      }
    }
    if forall d :: TwiceIsOnce(cs, d) {
      forall x | !Drops(cs, x)
        ensures RunField(cs, x, RunField(cs, x, None)) == RunField(cs, x, None)
        ensures Inner(cs, x) != [] ==> Settled(Inner(cs, x))
      {
        IdempotentField(cs, x, Obj(map[]));
        if Inner(cs, x) != [] {
          forall v
            ensures TwiceIsOnce(Inner(cs, x), v)
          {
            IdempotentField(cs, x, Obj(map[x := v]));
            RunInner(cs, x, v);
            RunInner(cs, x, Run(Inner(cs, x), v));
          }
          IdempotentIffSettled(Inner(cs, x));
        }
      }
    }
  }

  lemma {:induction false} IdempotentField(cs: seq<Command>, x: string, d: Json)
    requires d.Obj? && TwiceIsOnce(cs, d)
    ensures RunField(cs, x, RunField(cs, x, d.Get(x))) == RunField(cs, x, d.Get(x))
  {
    RunAt(cs, d, x);
    RunAt(cs, Run(cs, d), x);
  }

  // -- A condition on the commands -----------------------------------------

  /** If the later command adds a field that the earlier one works inside of, the earlier one
      would leave the default as it is. */
  predicate Leaves(earlier: Command, later: Command)
    decreases |later.path|
  {
    if later.Drop? || earlier.path == [] then true
    else if later.path == [] then
      Enters(earlier, later.field) ==> Do(Below(earlier), later.value) == later.value
    else Enters(earlier, later.path[0]) ==> Leaves(Below(earlier), Below(later))
  }

  /** Every default that is added is ready for the commands that came before. */
  predicate Ready(cs: seq<Command>) {
    cs == [] || ((forall c :: c in cs[1..] ==> Leaves(cs[0], c)) && Ready(cs[1..]))
  }

  lemma {:induction false} InnerMembers(cs: seq<Command>, x: string, c: Command)
    requires c in Inner(cs, x)
    ensures exists outer :: outer in cs && Enters(outer, x) && Below(outer) == c
    decreases |cs|
  {
    if Enters(cs[0], x) && c == Below(cs[0]) {
      assert cs[0] in cs;
    } else {
      InnerMembers(cs[1..], x, c);
    }
  }

  lemma {:induction false} InnerIsReady(cs: seq<Command>, x: string)
    requires Ready(cs)
    ensures Ready(Inner(cs, x))
    decreases |cs|
  {
    if cs != [] {
      InnerIsReady(cs[1..], x);
      if Enters(cs[0], x) {
        forall c | c in Inner(cs[1..], x)
          ensures Leaves(Below(cs[0]), c)
        {
          InnerMembers(cs[1..], x, c);
        }
        assert Inner(cs, x)[1..] == Inner(cs[1..], x);
      }
    }
  }

  /** What a script makes out of nothing is what the commands inside the field make of some
      default. */
  lemma {:induction false} FromNothing(cs: seq<Command>, x: string) returns (v: Json)
    requires Ready(cs) && !Drops(cs, x) && RunField(cs, x, None).Some?
    ensures RunField(cs, x, None) == Some(Run(Inner(cs, x), v))
    ensures exists c :: c in cs && c.Add? && Targets(c, x) && c.value == v
    decreases |cs|
  {
    assert cs[0] in cs && forall c :: c in cs[1..] ==> c in cs;
    if Targets(cs[0], x) {
      v := cs[0].value;
      RunInner(cs[1..], x, v);
    } else {
      v := FromNothing(cs[1..], x);
      var c :| c in cs[1..] && c.Add? && Targets(c, x) && c.value == v;
      assert Leaves(cs[0], c);
    }
  }

  lemma {:induction false} ReadySettles(cs: seq<Command>)
    requires Ready(cs)
    ensures Settled(cs)
    decreases Weight(cs)
  {
    forall x | !Drops(cs, x)
      ensures RunField(cs, x, RunField(cs, x, None)) == RunField(cs, x, None)
      ensures Inner(cs, x) != [] ==> Settled(Inner(cs, x))
    {
      var inner := Inner(cs, x);
      InnerIsReady(cs, x);
      if inner != [] {
        ReadySettles(inner);
      }
      if RunField(cs, x, None).Some? {
        var v := FromNothing(cs, x);
        RunInner(cs, x, Run(inner, v));
        if inner != [] {
          SettledTwice(inner, v);
        }
      }
    }
  }

  /** Every command of `later` adds only defaults that all of `earlier` leave as they are. */
  predicate AllLeave(earlier: seq<Command>, later: seq<Command>) {
    forall c, c' :: c in earlier && c' in later ==> Leaves(c, c')
  }

  lemma {:induction false} ReadyAppend(a: seq<Command>, b: seq<Command>)
    ensures Ready(a + b) <==> Ready(a) && Ready(b) && AllLeave(a, b)
    decreases |a|
  {
    if a == [] {
      assert a + b == b;
    } else {
      var all, tail := a + b, a[1..];
      assert all[0] == a[0] && all[1..] == tail + b;
      ReadyAppend(tail, b);
      assert AllLeave(a, b) <==> AllLeave(tail, b) && forall c :: c in b ==> Leaves(a[0], c) by {
        assert forall c :: c in a <==> c == a[0] || c in tail;
      }
    }
  }

  // -- What is seen of the data --------------------------------------------

  /** How much is seen of the value at the end of a path: whether it is there, whether it is
      an object, or all of it. */
  datatype Sight = Presence | Kind | Whole

  datatype Look = Look(path: seq<string>, sight: Sight)

  /** The look sees no difference. */
  predicate Same(a: Json, b: Json, look: Look)
    decreases |look.path|
  {
    if look.path == [] then
      match look.sight
      case Presence => true
      case Kind => a.Obj? == b.Obj?
      case Whole => a == b
    else
      var x := look.path[0];
      && a.Obj? == b.Obj? && a.Get(x).Some? == b.Get(x).Some?
      && (a.Get(x).Some? ==> Same(a.Get(x).value, b.Get(x).value, Further(look)))
  }

  function Further(look: Look): Look
    requires look.path != []
  {
    look.(path := look.path[1..])
  }

  /** The command may change what is seen. */
  predicate Disturbs(c: Command, look: Look)
    decreases |look.path|
  {
    if look.path == [] then look.sight.Whole?
    else if c.path == [] then c.field == look.path[0]
    else Enters(c, look.path[0]) && Disturbs(Below(c), Further(look))
  }

  lemma {:induction false} SameSelf(d: Json, look: Look)
    ensures Same(d, d, look)
    decreases |look.path|
  {
    if look.path != [] && d.Get(look.path[0]).Some? {
      SameSelf(d.Get(look.path[0]).value, Further(look));
    }
  }

  lemma {:induction false} SameTrans(a: Json, b: Json, c: Json, look: Look)
    requires Same(a, b, look) && Same(b, c, look)
    ensures Same(a, c, look)
    decreases |look.path|
  {
    if look.path != [] && a.Get(look.path[0]).Some? {
      var x := look.path[0];
      SameTrans(a.Get(x).value, b.Get(x).value, c.Get(x).value, Further(look));
    }
  }

  lemma {:induction false} Undisturbed(c: Command, d: Json, look: Look)
    requires !Disturbs(c, look)
    ensures Same(d, Do(c, d), look)
    decreases |look.path|
  {
    SameSelf(d, look);
    if look.path != [] && d.Get(look.path[0]).Some? && Enters(c, look.path[0]) {
      Undisturbed(Below(c), d.Get(look.path[0]).value, Further(look));
    }
  }

  lemma {:induction false} RunUndisturbed(cs: seq<Command>, d: Json, look: Look)
    requires forall c :: c in cs ==> !Disturbs(c, look)
    ensures Same(d, Run(cs, d), look)
    decreases |cs|
  {
    SameSelf(d, look);
    if cs != [] {
      Undisturbed(cs[0], d, look);
      RunUndisturbed(cs[1..], Do(cs[0], d), look);
      SameTrans(d, Do(cs[0], d), Run(cs, d), look);
    }
  }

  /** A command does not tell apart what a look does not tell apart. */
  lemma {:induction false} DoSame(c: Command, a: Json, b: Json, look: Look)
    requires Same(a, b, look)
    ensures Same(Do(c, a), Do(c, b), look)
    decreases |look.path|
  {
    if look.path != [] && a.Obj? {
      var x := look.path[0];
      if a.Get(x).Some? {
        if Enters(c, x) {
          DoSame(Below(c), a.Get(x).value, b.Get(x).value, Further(look));
        }
      } else if Targets(c, x) && c.Add? {
        SameSelf(c.value, Further(look));
      }
    }
  }

  lemma {:induction false} RunSame(cs: seq<Command>, a: Json, b: Json, look: Look)
    requires Same(a, b, look)
    ensures Same(Run(cs, a), Run(cs, b), look)
    decreases |cs|
  {
    if cs != [] {
      DoSame(cs[0], a, b, look);
      RunSame(cs[1..], Do(cs[0], a), Do(cs[0], b), look);
    }
  }
}
