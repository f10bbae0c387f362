/** Counting distinct file names as `report_render_core` does: sort, remove neighbours that
    are equal, count. */
module FileNames {
  import opened Prelude

  function Insert(name: string, names: seq<string>): (r: seq<string>)
    ensures r != [] && (r[0] == name || (names != [] && r[0] == names[0]))
  {
    if names == [] then [name]
    else if !LexLess(names[0], name) then [name] + names
    else [names[0]] + Insert(name, names[1..])
  }

  function Sort(names: seq<string>): seq<string> {
    if names == [] then [] else Insert(names[0], Sort(names[1..]))
  }

  /** `Vec::dedup`: of equal neighbours one stays. */
  function Dedup(names: seq<string>): seq<string> {
    if |names| <= 1 then names
    else if names[0] == names[1] then Dedup(names[1..])
    else [names[0]] + Dedup(names[1..])
  }

  function CountDistinct(names: seq<string>): nat {
    |Dedup(Sort(names))|
  }

  predicate Ascending(names: seq<string>) {
    |names| <= 1 || (!LexLess(names[1], names[0]) && Ascending(names[1..]))
  }

  function NameSet(names: seq<string>): set<string> {
    set n | n in names
  }

  lemma {:induction false} InsertAscends(name: string, names: seq<string>)
    requires Ascending(names)
    ensures Ascending(Insert(name, names))
    decreases |names|
  {
    if names != [] && LexLess(names[0], name) {
      InsertAscends(name, names[1..]);
      LexTotal(names[0], name);
      assert ([names[0]] + Insert(name, names[1..]))[1..] == Insert(name, names[1..]);
    } else {
      assert ([name] + names)[1..] == names;
    }
  }

  lemma NamesCons(first: string, rest: seq<string>)
    ensures NameSet([first] + rest) == NameSet(rest) + {first}
  {
  }

  lemma {:induction false} InsertNames(name: string, names: seq<string>)
    ensures NameSet(Insert(name, names)) == NameSet(names) + {name}
    decreases |names|
  {
    NamesCons(name, names);
    if names != [] && LexLess(names[0], name) {
      InsertNames(name, names[1..]);
      NamesCons(names[0], Insert(name, names[1..]));
      NamesCons(names[0], names[1..]);
      HeadAndTail(names);
    }
  }

  lemma {:induction false} SortKeeps(names: seq<string>)
    ensures Ascending(Sort(names)) && NameSet(Sort(names)) == NameSet(names)
    decreases |names|
  {
    if names != [] {
      SortKeeps(names[1..]);
      InsertAscends(names[0], Sort(names[1..]));
      InsertNames(names[0], Sort(names[1..]));
      HeadAndTail(names);
    }
  }

  /** In ascending names everything after a name is at least as great. */
  lemma {:induction false} AscendingFrom(names: seq<string>, first: string, n: string)
    requires Ascending([first] + names) && n in names
    ensures !LexLess(n, first)
    decreases |names|
  {
    var head, tail := names[0], names[1..];
    assert ([first] + names)[1..] == names;
    HeadAndTail(names);
    if n != head {
      AscendingFrom(tail, head, n);
      LexTotal(first, head);
      LexTotal(head, n);
      if LexLess(first, head) && LexLess(head, n) {
        LexTrans(first, head, n);
      }
      LexTotal(first, n);
    }
  }

  lemma {:induction false} DedupCounts(names: seq<string>)
    requires Ascending(names)
    ensures |Dedup(names)| == |NameSet(names)|
    decreases |names|
  {
    if |names| == 1 {
      assert NameSet(names) == {names[0]};
    } else if |names| > 1 {
      var first, tail := names[0], names[1..];
      HeadAndTail(names);
      HeadAndTail(tail);
      DedupCounts(tail);
      if first == tail[0] {
        assert NameSet(names) == NameSet(tail);
      } else {
        NotAmongLater(first, tail);
        assert NameSet(names) == NameSet(tail) + {first};
      }
    } else {
      assert NameSet(names) == {};
    }
  }

  /** A name that differs from its right neighbour does not come again. */
  lemma {:induction false} NotAmongLater(first: string, tail: seq<string>)
    requires tail != [] && Ascending([first] + tail) && first != tail[0]
    ensures first !in tail
  {
    assert ([first] + tail)[1..] == tail;
    if first in tail {
      HeadAndTail(tail);
      AscendingFrom(tail[1..], tail[0], first);
      LexTotal(first, tail[0]);
    }
  }

  /** The count is the number of different names. */
  lemma CountIsExact(names: seq<string>)
    ensures CountDistinct(names) == |NameSet(names)|
  {
    SortKeeps(names);
    DedupCounts(Sort(names));
  }
}
