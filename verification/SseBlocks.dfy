/** Which events the interceptor of `bifrost_proxy` strips, renumbers and logs, said of the keys
    of their JSON. */
module SseBlocks {
  import opened Prelude
  import opened SseIntercept

  // -- What an event carries -----------------------------------------------

  /** The value has this index: its own, or 0 if it has none that is a natural number. */
  ghost predicate Carries(v: Doc, x: nat) {
    || v.Get("index") == Some(DocNumber(PosInt(x)))
    || (x == 0 && forall u :: v.Get("index") != Some(DocNumber(PosInt(u))))
  }

  /** The value of a start names a thinking block. */
  predicate IsThinkingValue(v: Doc) {
    v.Get("content_block").Some? && v.Get("content_block").value.Get("type") == Some(DocStr("thinking"))
  }

  /** The value of a delta has this thinking text: none if there is none. */
  ghost predicate HasThinking(v: Doc, s: string) {
    || (v.Get("delta").Some? && v.Get("delta").value.Get("thinking") == Some(DocStr(s)))
    || (s == "" && (v.Get("delta").Some? ==> forall t :: v.Get("delta").value.Get("thinking") != Some(DocStr(t))))
  }

  lemma CarriesIndex(v: Doc, x: nat)
    ensures Carries(v, x) <==> IndexField(v) == x
  {
  }

  lemma ThinkingIsRead(e: Event)
    requires e.Block? && e.kind == Start
    ensures IsThinkingStart(e) <==> IsThinkingValue(e.value)
  {
    assert "thinking" != "text";
  }

  lemma ThinkingTextIsRead(v: Doc, s: string)
    requires HasThinking(v, s)
    ensures ThinkingText(v) == s
  {
  }

  // -- Starts --------------------------------------------------------------

  /** The positions of the starts that are not of thinking blocks. */
  function Survivors(es: seq<Event>): (r: set<nat>)
  {
    set i: nat | i < |es| && es[i].Block? && es[i].kind == Start && !IsThinkingValue(es[i].value)
  }

  lemma {:induction false} SurvivorsAreForwarded(es: seq<Event>)
    ensures |Survivors(es)| == ForwardedStarts(es)
  {
    if es != [] {
      var before, last := AllButLast(es), |es| - 1;
      SurvivorsAreForwarded(before);
      if es[last].Block? && es[last].kind == Start {
        ThinkingIsRead(es[last]);
      }
      if IsForwardedStart(es[last]) {
        assert Survivors(es) == Survivors(before) + {last};
      } else {
        assert Survivors(es) == Survivors(before);
      }
    }
  }

  /** The event is sent under an index: only its own index changes, if it has one, and its data
      is what the serializer writes. */
  predicate IsSentAs(lib: Lib, e: Event, o: Event, index: nat)
    requires e.Block?
  {
    && o.Block? && o.kind == e.kind && o.data == lib.render(o.value)
    && (e.value.Get("index").Some? ==> o.value.Get("index") == Some(DocNumber(PosInt(index))))
    && (e.value.Get("index").None? ==> o.value == e.value)
  }

  /** Every other key keeps its value, at its place. */
  ghost predicate KeepsOthers(v: Doc, w: Doc) {
    && (forall key :: key != "index" ==> w.Get(key) == v.Get(key))
    && (v.DocObj? ==> w.DocObj? && |w.members| == |v.members|)
    && (v.DocObj? && w.DocObj? && |w.members| == |v.members| ==>
          forall i :: 0 <= i < |v.members| ==> w.members[i].key == v.members[i].key)
  }

  lemma RenumberedIsSent(lib: Lib, e: Event, index: nat)
    requires e.Block?
    ensures IsSentAs(lib, e, Renumbered(lib, e, index), index)
    ensures KeepsOthers(e.value, Renumbered(lib, e, index).value)
  {
    if e.value.DocObj? {
      var v := DocNumber(PosInt(index));
      ReplacedReads(e.value.members, "index", v, v);
      ReplacedKeys(e.value.members, "index", v);
    }
  }

  /** A start of a thinking block is not sent on. */
  lemma {:induction false} ThinkingStartIsStripped(lib: Lib, dir: bool, es: seq<Event>, e: Event, block: Doc)
    requires e.Block? && e.kind == Start
    requires e.value.Get("content_block") == Some(block) && block.Get("type") == Some(DocStr("thinking"))
    ensures Outputs(lib, dir, es + [e]) == Outputs(lib, dir, es)
  {
    ThinkingIsRead(e);
    OutputsSnoc(lib, dir, es, e);
    assert Outputs(lib, dir, es) + [] == Outputs(lib, dir, es);
  }

  /** Any other start is sent on under the number of those before it. */
  lemma OtherStartIsSent(lib: Lib, dir: bool, es: seq<Event>, e: Event) returns (o: Event)
    requires e.Block? && e.kind == Start && !IsThinkingValue(e.value)
    ensures Outputs(lib, dir, es + [e]) == Outputs(lib, dir, es) + [o]
    ensures IsSentAs(lib, e, o, |Survivors(es)|) && KeepsOthers(e.value, o.value)
  {
    o := Renumbered(lib, e, ForwardedStarts(es));
    ThinkingIsRead(e);
    OutputsSnoc(lib, dir, es, e);
    StepIsFate(lib, dir, es, e);
    RenumberedIsSent(lib, e, ForwardedStarts(es));
    SurvivorsAreForwarded(es);
  }

  // -- Deltas and stops ----------------------------------------------------

  /** No start or stop among the events has this index. */
  ghost predicate LeavesOpen(events: seq<Event>, x: nat) {
    forall e :: e in events && e.Block? && e.kind != Delta ==> !Carries(e.value, x)
  }

  /** `es[j]` is the start of the block that index `x` stands for at the end of `es`. */
  ghost predicate OpenSince(es: seq<Event>, x: nat, j: nat) {
    j < |es| && es[j].Block? && es[j].kind == Start && Carries(es[j].value, x) && LeavesOpen(es[j + 1..], x)
  }

  lemma OpenIsOwner(es: seq<Event>, x: nat, j: nat)
    ensures OpenSince(es, x, j) <==> IsOwner(es, x, j)
  {
    if j < |es| {
      forall k | j < k < |es|
        ensures es[k] in es[j + 1..]
      {
        assert es[j + 1..][k - j - 1] == es[k];
      }
      var tail := es[j + 1..];
      forall i | 0 <= i < |tail|
        ensures tail[i] == es[i + j + 1]
      {
      }
    }
  }

  lemma {:induction false} OwnerIs(es: seq<Event>, x: nat, j: nat)
    requires OpenSince(es, x, j)
    ensures Owner(es, x) == Some(j)
  {
    OpenIsOwner(es, x, j);
    if Owner(es, x).Some? {
      var i := Owner(es, x).value;
      assert IsOwner(es, x, i) && IsOwner(es, x, j);
    }
  }

  /** A delta or stop of an open thinking block is not sent on. */
  lemma {:induction false} ThinkingBlockIsStripped(lib: Lib, dir: bool, es: seq<Event>, e: Event, x: nat, j: nat)
    requires OpenSince(es, x, j) && IsThinkingValue(es[j].value)
    requires e.Block? && e.kind != Start && Carries(e.value, x)
    ensures Outputs(lib, dir, es + [e]) == Outputs(lib, dir, es)
  {
    OwnerIs(es, x, j);
    ThinkingIsRead(es[j]);
    OutputsSnoc(lib, dir, es, e);
    StepIsFate(lib, dir, es, e);
    assert Outputs(lib, dir, es) + [] == Outputs(lib, dir, es);
  }

  /** A delta or stop of any other open block is sent on under the number of its start. */
  lemma OtherBlockIsSent(lib: Lib, dir: bool, es: seq<Event>, e: Event, x: nat, j: nat) returns (o: Event)
    requires OpenSince(es, x, j) && !IsThinkingValue(es[j].value)
    requires e.Block? && e.kind != Start && Carries(e.value, x)
    ensures Outputs(lib, dir, es + [e]) == Outputs(lib, dir, es) + [o]
    ensures IsSentAs(lib, e, o, |Survivors(es[..j])|) && KeepsOthers(e.value, o.value)
  {
    o := Renumbered(lib, e, ForwardedStarts(es[..j]));
    OwnerIs(es, x, j);
    ThinkingIsRead(es[j]);
    OutputsSnoc(lib, dir, es, e);
    StepIsFate(lib, dir, es, e);
    RenumberedIsSent(lib, e, ForwardedStarts(es[..j]));
    SurvivorsAreForwarded(es[..j]);
  }

  /** Everything else is sent on as it came: events that are no readable block events, and
      deltas and stops of no open block. */
  lemma {:induction false} OthersPass(lib: Lib, dir: bool, es: seq<Event>, e: Event)
    requires e.Block? ==> e.kind != Start && forall x: nat, j: nat :: Carries(e.value, x) ==> !OpenSince(es, x, j)
    ensures Outputs(lib, dir, es + [e]) == Outputs(lib, dir, es) + [e]
  {
    OutputsSnoc(lib, dir, es, e);
    StepIsFate(lib, dir, es, e);
    if e.Block? {
      var x := IndexField(e.value);
      CarriesIndex(e.value, x);
      if Owner(es, x).Some? {
        OpenIsOwner(es, x, Owner(es, x).value);
      }
    }
  }

  // -- The side-log --------------------------------------------------------

  /** No thinking block is open but perhaps one of index `x`. */
  ghost predicate NoOtherThinking(es: seq<Event>, x: nat) {
    forall y: nat, j: nat :: OpenSince(es, y, j) && IsThinkingValue(es[j].value) ==> y == x
  }

  /** What an event adds to the text of thinking block `x`. */
  ghost predicate Adds(e: Event, x: nat, text: string) {
    if e.Block? && e.kind == Delta && Carries(e.value, x) then HasThinking(e.value, text) else text == ""
  }

  /** The events add these texts, one each, to the thinking block, which stays open, and no
      other thinking block starts. */
  ghost predicate AddTexts(during: seq<Event>, x: nat, texts: seq<string>) {
    && |texts| == |during| && LeavesOpen(during, x)
    && (forall i :: 0 <= i < |during| ==> Adds(during[i], x, texts[i]))
    && (forall e :: e in during && e.Block? && e.kind == Start ==> !IsThinkingValue(e.value))
  }

  /** The state in thinking block `x`: no other index is stripped. */
  predicate Within(s: State, x: nat, text: string, log: seq<string>) {
    && x in s.modes && s.modes[x] == Strip && s.thinking == text && s.log == log
    && forall y :: y in s.modes && s.modes[y] == Strip ==> y == x
  }

  lemma {:induction false} ThinkingBegins(lib: Lib, dir: bool, before: seq<Event>, start: Event, x: nat)
    requires NoOtherThinking(before, x)
    requires start.Block? && start.kind == Start && Carries(start.value, x) && IsThinkingValue(start.value)
    ensures Within(Run(lib, dir, before + [start]), x, "", Run(lib, dir, before).log)
  {
    OutputsSnoc(lib, dir, before, start);
    ThinkingIsRead(start);
    ModesAreOwners(lib, dir, before);
    var s := Run(lib, dir, before);
    forall y: nat | y in s.modes && s.modes[y] == Strip
      ensures y == x
    {
      var j := Owner(before, y).value;
      OpenIsOwner(before, y, j);
      ThinkingIsRead(before[j]);
    }
  }

  lemma {:induction false} ThinkingGoesOn(lib: Lib, dir: bool, es: seq<Event>, e: Event, x: nat, text: string,
                                          more: string, log: seq<string>)
    requires Within(Run(lib, dir, es), x, text, log)
    requires LeavesOpen([e], x) && Adds(e, x, more)
    requires e.Block? && e.kind == Start ==> !IsThinkingValue(e.value)
    ensures Within(Run(lib, dir, es + [e]), x, text + more, log)
  {
    OutputsSnoc(lib, dir, es, e);
    assert text + "" == text && e in [e];
    if e.Block? {
      CarriesIndex(e.value, x);
      if e.kind == Start {
        ThinkingIsRead(e);
      } else if e.kind == Delta && Carries(e.value, x) {
        ThinkingTextIsRead(e.value, more);
      }
    }
  }

  lemma {:induction false} ThinkingCollects(lib: Lib, dir: bool, es: seq<Event>, during: seq<Event>, x: nat,
                                            text: string, texts: seq<string>, log: seq<string>)
    requires Within(Run(lib, dir, es), x, text, log) && AddTexts(during, x, texts)
    ensures Within(Run(lib, dir, es + during), x, text + Flatten(texts), log)
    decreases |during|
  {
    if during == [] {
      assert es + during == es && text + Flatten(texts) == text;
    } else {
      var e, later := during[0], during[1..];
      assert e in during && forall d :: d in later ==> d in during;
      assert LeavesOpen([e], x) && AddTexts(later, x, texts[1..]);
      hide Within, AddTexts, Adds, LeavesOpen, Run;
      ThinkingGoesOn(lib, dir, es, e, x, text, texts[0], log);
      ThinkingCollects(lib, dir, es + [e], later, x, text + texts[0], texts[1..], log);
      assert es + [e] + later == es + during;
      AppendAssociates(text, texts[0], Flatten(texts[1..]));
    }
  }

  /** A thinking block that starts while no other is open: its stop adds one entry to the log,
      the strings at `thinking` in the `delta` of its deltas, in order, unless they are all
      empty or there is no session. */
  lemma {:induction false} ThinkingIsLogged(lib: Lib, dir: bool, before: seq<Event>, start: Event, during: seq<Event>,
                                            stop: Event, x: nat, texts: seq<string>)
    requires NoOtherThinking(before, x)
    requires start.Block? && start.kind == Start && Carries(start.value, x) && IsThinkingValue(start.value)
    requires AddTexts(during, x, texts)
    requires stop.Block? && stop.kind == Stop && Carries(stop.value, x)
    ensures Run(lib, dir, before + [start] + during + [stop]).log ==
      Run(lib, dir, before).log + if dir && Flatten(texts) != "" then [Flatten(texts)] else []
  {
    var log := Run(lib, dir, before).log;
    ThinkingBegins(lib, dir, before, start, x);
    ThinkingCollects(lib, dir, before + [start], during, x, "", texts, log);
    assert "" + Flatten(texts) == Flatten(texts) && log + [] == log;
    OutputsSnoc(lib, dir, before + [start] + during, stop);
    CarriesIndex(stop.value, x);
  }

  /** Nothing else is logged. */
  lemma {:induction false} OnlyThinkingIsLogged(lib: Lib, dir: bool, es: seq<Event>, e: Event)
    requires e.Block? && e.kind == Stop ==>
      forall x: nat, j: nat :: OpenSince(es, x, j) && Carries(e.value, x) ==> !IsThinkingValue(es[j].value)
    ensures Run(lib, dir, es + [e]).log == Run(lib, dir, es).log
  {
    OutputsSnoc(lib, dir, es, e);
    if e.Block? && e.kind == Stop {
      var x := IndexField(e.value);
      CarriesIndex(e.value, x);
      ModesAreOwners(lib, dir, es);
      if Owner(es, x).Some? {
        var j := Owner(es, x).value;
        OpenIsOwner(es, x, j);
        ThinkingIsRead(es[j]);
      }
    }
  }
}
