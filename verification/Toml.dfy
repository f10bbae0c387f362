/** JSON and TOML values in `format_core`: conversion, null search and null stripping. */
module Toml {
  import opened Prelude

  datatype TomlFloat = Finite(r: real) | NonFinite

  datatype TomlValue =
    | TomlString(s: string)
    | TomlInteger(i: int)
    | TomlFloating(f: TomlFloat)
    | TomlBoolean(b: bool)
    | TomlDatetime(text: string)
    | TomlArray(items: seq<TomlValue>)
    | TomlTable(entries: seq<TomlEntry>)

  datatype TomlEntry = TomlEntry(key: string, value: TomlValue)

  const I64_MAX: int := 0x7FFF_FFFF_FFFF_FFFF

  /** `Number::as_i64`, else `as_f64`; one of them always succeeds. */
  function NumberToToml(n: Number): TomlValue {
    match n
    case PosInt(u) => if u <= I64_MAX then TomlInteger(u) else TomlFloating(Finite(u as real))
    case NegInt(i) => TomlInteger(i)
    case Float(r) => TomlFloating(Finite(r))
  }

  /** `json_value_to_toml_value`. */
  function ToToml(d: Doc): Result<TomlValue>
    decreases d, 1
  {
    match d
    case DocNull => Err("TOML does not support null values")
    case DocBool(b) => Ok(TomlBoolean(b))
    case DocNumber(n) => Ok(NumberToToml(n))
    case DocStr(s) => Ok(TomlString(s))
    case DocArr(items) =>
      (match ItemsToToml(items)
       case Ok(r) => Ok(TomlArray(r))
       case Err(e) => Err(e))
    case DocObj(members) =>
      (match MembersToToml(members)
       case Ok(r) => Ok(TomlTable(r))
       case Err(e) => Err(e))
  }

  function ItemsToToml(items: seq<Doc>): Result<seq<TomlValue>>
    decreases items, 0
  {
    if items == [] then Ok([])
    else
      match ToToml(items[0])
      case Err(e) => Err(e)
      case Ok(first) =>
        match ItemsToToml(items[1..])
        case Err(e) => Err(e)
        case Ok(rest) => Ok([first] + rest)
  }

  function MembersToToml(members: seq<DocMember>): Result<seq<TomlEntry>>
    decreases members, 0
  {
    if members == [] then Ok([])
    else
      match ToToml(members[0].value)
      case Err(e) => Err(e)
      case Ok(first) =>
        match MembersToToml(members[1..])
        case Err(e) => Err(e)
        case Ok(rest) => Ok([TomlEntry(members[0].key, first)] + rest)
  }

  /** `json_value_to_toml_value` as it fills arrays and tables. */
  method ConvertToToml(d: Doc) returns (r: Result<TomlValue>)
    ensures r == ToToml(d)
    decreases d
  {
    match d
    case DocNull => return Err("TOML does not support null values");
    case DocBool(b) => return Ok(TomlBoolean(b));
    case DocNumber(n) => return Ok(NumberToToml(n));
    case DocStr(s) => return Ok(TomlString(s));
    case DocArr(items) =>
      var converted: seq<TomlValue> := [];
      assert items[0..] == items;
      OntoNothing(ItemsToToml(items));
      for i := 0 to |items|
        invariant ItemsToToml(items) == Onto(converted, ItemsToToml(items[i..]))
      {
        assert items[i..][0] == items[i] && items[i..][1..] == items[i + 1..];
        var item := ConvertToToml(items[i]);
        if item.Err? {
          return Err(item.message);
        }
        OntoNext(converted, item.value, ItemsToToml(items[i + 1..]));
        converted := converted + [item.value];
      }
      assert items[|items|..] == [] && converted + [] == converted;
      return Ok(TomlArray(converted));
    case DocObj(members) =>
      var table: seq<TomlEntry> := [];
      assert members[0..] == members;
      OntoNothing(MembersToToml(members));
      for i := 0 to |members|
        invariant MembersToToml(members) == Onto(table, MembersToToml(members[i..]))
      {
        assert members[i..][0] == members[i] && members[i..][1..] == members[i + 1..];
        var value := ConvertToToml(members[i].value);
        if value.Err? {
          return Err(value.message);
        }
        OntoNext(table, TomlEntry(members[i].key, value.value), MembersToToml(members[i + 1..]));
        table := table + [TomlEntry(members[i].key, value.value)];
      }
      assert members[|members|..] == [] && table + [] == table;
      return Ok(TomlTable(table));
  }

  /** What is converted so far, before the result of converting the rest. */
  function Onto<T>(done: seq<T>, rest: Result<seq<T>>): Result<seq<T>> {
    match rest
    case Ok(more) => Ok(done + more)
    case Err(e) => Err(e)
  }

  lemma OntoNothing<T>(rest: Result<seq<T>>)
    ensures Onto([], rest) == rest
  {
    if rest.Ok? {
      assert [] + rest.value == rest.value;
    }
  }

  lemma OntoNext<T>(done: seq<T>, next: T, rest: Result<seq<T>>)
    ensures rest.Ok? ==> Onto(done, Ok([next] + rest.value)) == Onto(done + [next], rest)
  {
    if rest.Ok? {
      assert done + ([next] + rest.value) == (done + [next]) + rest.value;
    }
  }

  /** `toml_value_to_json_value`. */
  function ToJson(t: TomlValue): Doc
    decreases t, 1
  {
    match t
    case TomlString(s) => DocStr(s)
    case TomlInteger(i) => DocNumber(if i >= 0 then PosInt(i) else NegInt(i))
    case TomlFloating(Finite(r)) => DocNumber(Float(r))
    case TomlFloating(NonFinite) => DocNull
    case TomlBoolean(b) => DocBool(b)
    case TomlDatetime(text) => DocStr(text)
    case TomlArray(items) => DocArr(ItemsToJson(items))
    case TomlTable(entries) => DocObj(EntriesToJson(entries))
  }

  function ItemsToJson(items: seq<TomlValue>): seq<Doc>
    decreases items, 0
  {
    if items == [] then [] else [ToJson(items[0])] + ItemsToJson(items[1..])
  }

  function EntriesToJson(entries: seq<TomlEntry>): seq<DocMember>
    decreases entries, 0
  {
    if entries == [] then [] else [DocMember(entries[0].key, ToJson(entries[0].value))] + EntriesToJson(entries[1..])
  }

  // -- Which values survive ------------------------------------------------

  /** The parts of a value, by the keys and positions that lead to them. */
  datatype Step = Field(key: string) | Index(i: nat)

  predicate NullFree(d: Doc) {
    match d
    case DocNull => false
    case DocArr(items) => forall i :: 0 <= i < |items| ==> NullFree(items[i])
    case DocObj(members) => forall i :: 0 <= i < |members| ==> NullFree(members[i].value)
    case _ => true
  }

  /** Integers that a TOML integer can hold, in the form `serde_json` keeps them. */
  predicate IntegersFit(d: Doc) {
    match d
    case DocNumber(PosInt(u)) => u <= I64_MAX
    case DocNumber(NegInt(i)) => i < 0
    case DocArr(items) => forall i :: 0 <= i < |items| ==> IntegersFit(items[i])
    case DocObj(members) => forall i :: 0 <= i < |members| ==> IntegersFit(members[i].value)
    case _ => true
  }

  /** Conversion to TOML fails exactly on values with a null. */
  lemma {:induction false} ConvertsIffNullFree(d: Doc)
    ensures ToToml(d).Ok? <==> NullFree(d)
    decreases d, 1
  {
    match d
    case DocArr(items) => ItemsConvert(items);
    case DocObj(members) => MembersConvert(members);
    case _ =>
  }

  lemma {:induction false} ItemsConvert(items: seq<Doc>)
    ensures ItemsToToml(items).Ok? <==> forall i :: 0 <= i < |items| ==> NullFree(items[i])
    decreases items, 0
  {
    if items != [] {
      ConvertsIffNullFree(items[0]);
      ItemsConvert(items[1..]);
      assert forall i :: 1 <= i < |items| ==> items[i] == items[1..][i - 1];
    }
  }

  lemma {:induction false} MembersConvert(members: seq<DocMember>)
    ensures MembersToToml(members).Ok? <==> forall i :: 0 <= i < |members| ==> NullFree(members[i].value)
    decreases members, 0
  {
    if members != [] {
      ConvertsIffNullFree(members[0].value);
      MembersConvert(members[1..]);
      assert forall i :: 1 <= i < |members| ==> members[i] == members[1..][i - 1];
    }
  }

  /** The way to TOML and back is the identity exactly on convertible values whose integers
      fit; a larger integer comes back as a float. */
  lemma {:induction false} TomlRoundTrip(d: Doc)
    requires ToToml(d).Ok?
    ensures ToJson(ToToml(d).value) == d <==> IntegersFit(d)
    decreases d, 1
  {
    match d
    case DocArr(items) => ItemsRoundTrip(items);
    case DocObj(members) => MembersRoundTrip(members);
    case _ =>
  }

  lemma {:induction false} ItemsRoundTrip(items: seq<Doc>)
    requires ItemsToToml(items).Ok?
    ensures ItemsToJson(ItemsToToml(items).value) == items <==> forall i :: 0 <= i < |items| ==> IntegersFit(items[i])
    decreases items, 0
  {
    if items != [] {
      TomlRoundTrip(items[0]);
      ItemsRoundTrip(items[1..]);
      var t := ItemsToToml(items).value;
      assert t[1..] == ItemsToToml(items[1..]).value;
      assert items == [items[0]] + items[1..];
      assert ItemsToJson(t) == [ToJson(t[0])] + ItemsToJson(t[1..]);
      assert ItemsToJson(t) == items <==> ToJson(t[0]) == items[0] && ItemsToJson(t[1..]) == items[1..] by {
        if ItemsToJson(t) == items {
          assert ItemsToJson(t)[1..] == ItemsToJson(t[1..]);
        }
      }
      assert forall i :: 1 <= i < |items| ==> items[i] == items[1..][i - 1];
    }
  }

  lemma {:induction false} MembersRoundTrip(members: seq<DocMember>)
    requires MembersToToml(members).Ok?
    ensures EntriesToJson(MembersToToml(members).value) == members <==>
      forall i :: 0 <= i < |members| ==> IntegersFit(members[i].value)
    decreases members, 0
  {
    if members != [] {
      TomlRoundTrip(members[0].value);
      MembersRoundTrip(members[1..]);
      var t := MembersToToml(members).value;
      assert t[1..] == MembersToToml(members[1..]).value;
      assert members == [members[0]] + members[1..];
      assert EntriesToJson(t) == [DocMember(t[0].key, ToJson(t[0].value))] + EntriesToJson(t[1..]);
      var rest := EntriesToJson(t[1..]);
      assert EntriesToJson(t) == members <==> ToJson(t[0].value) == members[0].value && rest == members[1..] by {
        if EntriesToJson(t) == members {
          assert EntriesToJson(t)[1..] == EntriesToJson(t[1..]);
          assert EntriesToJson(t)[0] == members[0];
        }
      }
      assert forall i :: 1 <= i < |members| ==> members[i] == members[1..][i - 1];
    }
  }

  // -- Null paths ----------------------------------------------------------

  /** Whether `path` leads to a null of `d`. */
  predicate LeadsToNull(d: Doc, path: seq<Step>)
    decreases path
  {
    if path == [] then d == DocNull
    else
      match path[0]
      case Field(key) =>
        && d.DocObj?
        && exists i :: 0 <= i < |d.members| && d.members[i].key == key && LeadsToNull(d.members[i].value, path[1..])
      case Index(i) => d.DocArr? && i < |d.items| && LeadsToNull(d.items[i], path[1..])
  }

  function Under(step: Step, paths: seq<seq<Step>>): (r: seq<seq<Step>>)
    ensures |r| == |paths|
  {
    seq(|paths|, i requires 0 <= i < |paths| => [step] + paths[i])
  }

  /** `find_null_paths`, each path as its steps. */
  function NullPaths(d: Doc): seq<seq<Step>>
    decreases d, 1
  {
    match d
    case DocNull => [[]]
    case DocArr(items) => ItemPaths(items, 0)
    case DocObj(members) => MemberPaths(members)
    case _ => []
  }

  function ItemPaths(items: seq<Doc>, from: nat): seq<seq<Step>>
    decreases items, 0
  {
    if items == [] then [] else Under(Index(from), NullPaths(items[0])) + ItemPaths(items[1..], from + 1)
  }

  function MemberPaths(members: seq<DocMember>): seq<seq<Step>>
    decreases members, 0
  {
    if members == [] then [] else Under(Field(members[0].key), NullPaths(members[0].value)) + MemberPaths(members[1..])
  }

  /** The paths found are exactly the ones that lead to a null. */
  lemma {:induction false} NullPathsAreExact(d: Doc, path: seq<Step>)
    ensures path in NullPaths(d) <==> LeadsToNull(d, path)
    decreases d, 1
  {
    match d
    case DocArr(items) => ItemPathsAreExact(items, 0, path);
    case DocObj(members) => MemberPathsAreExact(members, path);
    case _ =>
  }

  lemma InUnder(step: Step, paths: seq<seq<Step>>, path: seq<Step>)
    ensures path in Under(step, paths) <==> path != [] && path[0] == step && path[1..] in paths
  {
    if path != [] && path[0] == step && path[1..] in paths {
      var i :| 0 <= i < |paths| && paths[i] == path[1..];
      assert Under(step, paths)[i] == path;
    }
  }

  /** An item `path` that starts at or after position `from`. */
  predicate IsItemPath(items: seq<Doc>, from: nat, path: seq<Step>) {
    path != [] && path[0].Index? && from <= path[0].i < from + |items| &&
      LeadsToNull(items[path[0].i - from], path[1..])
  }

  lemma ItemPathCases(items: seq<Doc>, from: nat, path: seq<Step>)
    requires items != []
    ensures IsItemPath(items, from, path) <==>
      (path != [] && path[0] == Index(from) && LeadsToNull(items[0], path[1..])) ||
        IsItemPath(items[1..], from + 1, path)
  {
  }

  lemma {:induction false} ItemPathsAreExact(items: seq<Doc>, from: nat, path: seq<Step>)
    ensures path in ItemPaths(items, from) <==> IsItemPath(items, from, path)
    decreases items, 0
  {
    if items != [] {
      hide LeadsToNull, NullPaths;
      InUnder(Index(from), NullPaths(items[0]), path);
      if path != [] {
        NullPathsAreExact(items[0], path[1..]);
      }
      ItemPathCases(items, from, path);
      hide IsItemPath;
      ItemPathsAreExact(items[1..], from + 1, path);
    }
  }

  lemma {:induction false} MemberPathsAreExact(members: seq<DocMember>, path: seq<Step>)
    ensures path in MemberPaths(members) <==>
      path != [] && path[0].Field? &&
      exists i :: 0 <= i < |members| && members[i].key == path[0].key && LeadsToNull(members[i].value, path[1..])
    decreases members, 0
  {
    if members != [] {
      InUnder(Field(members[0].key), NullPaths(members[0].value), path);
      if path != [] {
        NullPathsAreExact(members[0].value, path[1..]);
      }
      MemberPathsAreExact(members[1..], path);
      assert forall i :: 1 <= i < |members| ==> members[i] == members[1..][i - 1];
    }
  }

  /** The educational message lists a path exactly when conversion fails because of a null. */
  lemma {:induction false} NullPathsIffFails(d: Doc)
    ensures NullPaths(d) == [] <==> ToToml(d).Ok?
  {
    ConvertsIffNullFree(d);
    NullPathsEmpty(d);
  }

  lemma {:induction false} NullPathsEmpty(d: Doc)
    ensures NullPaths(d) == [] <==> NullFree(d)
    decreases d, 1
  {
    match d
    case DocArr(items) => ItemPathsEmpty(items, 0);
    case DocObj(members) => MemberPathsEmpty(members);
    case _ =>
  }

  lemma {:induction false} ItemPathsEmpty(items: seq<Doc>, from: nat)
    ensures ItemPaths(items, from) == [] <==> forall i :: 0 <= i < |items| ==> NullFree(items[i])
    decreases items, 0
  {
    if items != [] {
      NullPathsEmpty(items[0]);
      ItemPathsEmpty(items[1..], from + 1);
      assert forall i :: 1 <= i < |items| ==> items[i] == items[1..][i - 1];
    }
  }

  lemma {:induction false} MemberPathsEmpty(members: seq<DocMember>)
    ensures MemberPaths(members) == [] <==> forall i :: 0 <= i < |members| ==> NullFree(members[i].value)
    decreases members, 0
  {
    if members != [] {
      NullPathsEmpty(members[0].value);
      MemberPathsEmpty(members[1..]);
      assert forall i :: 1 <= i < |members| ==> members[i] == members[1..][i - 1];
    }
  }

  function NullCount(d: Doc): nat
    decreases d, 1
  {
    match d
    case DocNull => 1
    case DocArr(items) => ItemNulls(items)
    case DocObj(members) => MemberNulls(members)
    case _ => 0
  }

  function ItemNulls(items: seq<Doc>): nat
    decreases items, 0
  {
    if items == [] then 0 else NullCount(items[0]) + ItemNulls(items[1..])
  }

  function MemberNulls(members: seq<DocMember>): nat
    decreases members, 0
  {
    if members == [] then 0 else NullCount(members[0].value) + MemberNulls(members[1..])
  }

  /** A value that does not convert fails because of a null. */
  lemma {:induction false} ConversionError(d: Doc)
    ensures ToToml(d).Err? ==> ToToml(d) == Err("TOML does not support null values")
    decreases d, 1
  {
    match d
    case DocArr(items) => ItemsError(items);
    case DocObj(members) => MembersError(members);
    case _ =>
  }

  lemma {:induction false} ItemsError(items: seq<Doc>)
    ensures ItemsToToml(items).Err? ==> ItemsToToml(items) == Err("TOML does not support null values")
    decreases items, 0
  {
    if items != [] {
      ConversionError(items[0]);
      ItemsError(items[1..]);
    }
  }

  lemma {:induction false} MembersError(members: seq<DocMember>)
    ensures MembersToToml(members).Err? ==> MembersToToml(members) == Err("TOML does not support null values")
    decreases members, 0
  {
    if members != [] {
      ConversionError(members[0].value);
      MembersError(members[1..]);
    }
  }

  /** There is one path for each null. */
  lemma {:induction false} NullPathsCount(d: Doc)
    ensures |NullPaths(d)| == NullCount(d)
    decreases d, 1
  {
    match d
    case DocArr(items) => ItemPathsCount(items, 0);
    case DocObj(members) => MemberPathsCount(members);
    case _ =>
  }

  lemma {:induction false} ItemPathsCount(items: seq<Doc>, from: nat)
    ensures |ItemPaths(items, from)| == ItemNulls(items)
    decreases items, 0
  {
    if items != [] {
      NullPathsCount(items[0]);
      ItemPathsCount(items[1..], from + 1);
    }
  }

  lemma {:induction false} MemberPathsCount(members: seq<DocMember>)
    ensures |MemberPaths(members)| == MemberNulls(members)
    decreases members, 0
  {
    if members != [] {
      NullPathsCount(members[0].value);
      MemberPathsCount(members[1..]);
    }
  }

  /** One step further in the text of a path. */
  function Extend(prefix: string, step: Step): string {
    match step
    case Field(key) => if prefix == "" then key else prefix + "." + key
    case Index(i) => prefix + "[" + Decimal(i, 1) + "]"
  }

  /** The text of a path that goes on from `prefix`. */
  function ShowFrom(prefix: string, path: seq<Step>): string
    decreases |path|
  {
    if path != [] then ShowFrom(Extend(prefix, path[0]), path[1..])
    else if prefix == "" then "(root)"
    else prefix
  }

  /** The way to a value as text: keys with a dot between, positions in brackets. */
  function WayTo(path: seq<Step>): string {
    if path == [] then ""
    else
      var before := WayTo(path[..|path| - 1]);
      match path[|path| - 1]
      case Field(key) => if before == "" then key else before + "." + key
      case Index(i) => before + "[" + Decimal(i, 1) + "]"
  }

  lemma {:induction false} ShowFromWay(way: seq<Step>, path: seq<Step>)
    ensures ShowFrom(WayTo(way), path) == if WayTo(way + path) == "" then "(root)" else WayTo(way + path)
    decreases |path|
  {
    if path == [] {
      assert way + path == way;
    } else {
      var next := way + [path[0]];
      assert next[..|next| - 1] == way && next + path[1..] == way + path;
      ShowFromWay(next, path[1..]);
    }
  }

  /** A path is shown as the way to its value, and the root by a word of its own. */
  lemma ShowMeaning(paths: seq<seq<Step>>)
    ensures forall i :: 0 <= i < |paths| ==>
      Show("", paths)[i] == if WayTo(paths[i]) == "" then "(root)" else WayTo(paths[i])
  {
    forall i | 0 <= i < |paths|
      ensures Show("", paths)[i] == if WayTo(paths[i]) == "" then "(root)" else WayTo(paths[i])
    {
      ShowFromWay([], paths[i]);
      assert [] + paths[i] == paths[i];
    }
  }

  function Show(prefix: string, paths: seq<seq<Step>>): (r: seq<string>)
    ensures |r| == |paths|
  {
    seq(|paths|, i requires 0 <= i < |paths| => ShowFrom(prefix, paths[i]))
  }

  lemma ShowUnder(prefix: string, step: Step, paths: seq<seq<Step>>)
    ensures Show(prefix, Under(step, paths)) == Show(Extend(prefix, step), paths)
  {
    forall i | 0 <= i < |paths|
      ensures ShowFrom(prefix, [step] + paths[i]) == ShowFrom(Extend(prefix, step), paths[i])
    {
      assert ([step] + paths[i])[1..] == paths[i];
    }
  }

  lemma ShowBoth(prefix: string, head: seq<seq<Step>>, tail: seq<seq<Step>>)
    ensures Show(prefix, head + tail) == Show(prefix, head) + Show(prefix, tail)
  {
    hide ShowFrom;
  }

  lemma ShowStep(prefix: string, step: Step, head: seq<seq<Step>>, tail: seq<seq<Step>>, done: seq<string>)
    ensures done + Show(prefix, Under(step, head) + tail) ==
            (done + Show(Extend(prefix, step), head)) + Show(prefix, tail)
  {
    hide ShowFrom, Under, Extend;
    ShowUnder(prefix, step, head);
    ShowBoth(prefix, Under(step, head), tail);
    AppendAssociates(done, Show(Extend(prefix, step), head), Show(prefix, tail));
  }

  /** `find_null_paths` as it pushes. `prefix` is the text of the way from the root. */
  method FindNullPaths(d: Doc, prefix: string) returns (paths: seq<string>)
    ensures paths == Show(prefix, NullPaths(d))
    decreases d
  {
    paths := [];
    match d
    case DocNull =>
      paths := paths + [if prefix == "" then "(root)" else prefix];
    case DocObj(members) =>
      for i := 0 to |members|
        invariant paths + Show(prefix, MemberPaths(members[i..])) == Show(prefix, MemberPaths(members))
      {
        assert members[i..][0] == members[i] && members[i..][1..] == members[i + 1..];
        var path := if prefix == "" then members[i].key else prefix + "." + members[i].key;
        var found := FindNullPaths(members[i].value, path);
        ShowStep(prefix, Field(members[i].key), NullPaths(members[i].value), MemberPaths(members[i + 1..]), paths);
        paths := paths + found;
      }
    case DocArr(items) =>
      for i := 0 to |items|
        invariant paths + Show(prefix, ItemPaths(items[i..], i)) == Show(prefix, ItemPaths(items, 0))
      {
        assert items[i..][0] == items[i] && items[i..][1..] == items[i + 1..];
        var found := FindNullPaths(items[i], prefix + "[" + Decimal(i, 1) + "]");
        ShowStep(prefix, Index(i), NullPaths(items[i]), ItemPaths(items[i + 1..], i + 1), paths);
        paths := paths + found;
      }
    case _ =>
  }

  // -- Null stripping ------------------------------------------------------

  /** `strip_nulls`. */
  function StripNulls(d: Doc): Doc
    decreases d, 1
  {
    match d
    case DocArr(items) => DocArr(StripItems(items))
    case DocObj(members) => DocObj(StripMembers(members))
    case _ => d
  }

  function StripItems(items: seq<Doc>): seq<Doc>
    decreases items, 0
  {
    if items == [] then []
    else if items[0] == DocNull then StripItems(items[1..])
    else [StripNulls(items[0])] + StripItems(items[1..])
  }

  function StripMembers(members: seq<DocMember>): seq<DocMember>
    decreases members, 0
  {
    if members == [] then []
    else if members[0].value == DocNull then StripMembers(members[1..])
    else [DocMember(members[0].key, StripNulls(members[0].value))] + StripMembers(members[1..])
  }

  /** Of the items and members the nulls go, and the others stay in order, stripped themselves;
      nothing else changes. */
  lemma {:induction false} StripMeaning(items: seq<Doc>, item: Doc, members: seq<DocMember>, m: DocMember)
    ensures StripItems([]) == [] && StripMembers([]) == []
    ensures StripItems(items + [item]) == StripItems(items) + if item == DocNull then [] else [StripNulls(item)]
    ensures StripMembers(members + [m]) ==
      StripMembers(members) + if m.value == DocNull then [] else [DocMember(m.key, StripNulls(m.value))]
    ensures StripNulls(DocArr(items)) == DocArr(StripItems(items))
    ensures StripNulls(DocObj(members)) == DocObj(StripMembers(members))
    ensures !item.DocArr? && !item.DocObj? ==> StripNulls(item) == item
  {
    StripItemsLast(items, item);
    StripMembersLast(members, m);
  }

  lemma {:induction false} StripItemsLast(items: seq<Doc>, item: Doc)
    ensures StripItems(items + [item]) == StripItems(items) + if item == DocNull then [] else [StripNulls(item)]
    decreases |items|
  {
    if items == [] {
      assert [] + [item] == [item] && [item][1..] == [];
    } else {
      assert (items + [item])[0] == items[0] && (items + [item])[1..] == items[1..] + [item];
      StripItemsLast(items[1..], item);
    }
  }

  lemma {:induction false} StripMembersLast(members: seq<DocMember>, m: DocMember)
    ensures StripMembers(members + [m]) ==
      StripMembers(members) + if m.value == DocNull then [] else [DocMember(m.key, StripNulls(m.value))]
    decreases |members|
  {
    if members == [] {
      assert [] + [m] == [m] && [m][1..] == [];
    } else {
      assert (members + [m])[0] == members[0] && (members + [m])[1..] == members[1..] + [m];
      StripMembersLast(members[1..], m);
    }
  }

  /** Stripping a value that is not itself null removes every null, and changes nothing
      exactly when there was none; so it is idempotent and its result converts. */
  lemma {:induction false} StripRemovesNulls(d: Doc)
    requires d != DocNull
    ensures NullFree(StripNulls(d)) && (StripNulls(d) == d <==> NullFree(d))
    ensures StripNulls(StripNulls(d)) == StripNulls(d) && ToToml(StripNulls(d)).Ok?
    decreases d, 1
  {
    StripCleans(d);
    StripCleans(StripNulls(d));
    ConvertsIffNullFree(StripNulls(d));
  }

  lemma {:induction false} StripCleans(d: Doc)
    requires d != DocNull
    ensures NullFree(StripNulls(d)) && (NullFree(d) ==> StripNulls(d) == d)
    decreases d, 1
  {
    match d
    case DocArr(items) => StripItemsCleans(items);
    case DocObj(members) => StripMembersCleans(members);
    case _ =>
  }

  lemma {:induction false} StripItemsCleans(items: seq<Doc>)
    ensures forall i :: 0 <= i < |StripItems(items)| ==> NullFree(StripItems(items)[i])
    ensures (forall i :: 0 <= i < |items| ==> NullFree(items[i])) ==> StripItems(items) == items
    decreases items, 0
  {
    if items != [] {
      StripItemsCleans(items[1..]);
      if items[0] != DocNull {
        StripCleans(items[0]);
      }
      assert items == [items[0]] + items[1..];
    }
  }

  lemma {:induction false} StripMembersCleans(members: seq<DocMember>)
    ensures forall i :: 0 <= i < |StripMembers(members)| ==> NullFree(StripMembers(members)[i].value)
    ensures (forall i :: 0 <= i < |members| ==> NullFree(members[i].value)) ==> StripMembers(members) == members
    decreases members, 0
  {
    if members != [] {
      StripMembersCleans(members[1..]);
      if members[0].value != DocNull {
        StripCleans(members[0].value);
      }
      assert members == [members[0]] + members[1..];
    }
  }
}
