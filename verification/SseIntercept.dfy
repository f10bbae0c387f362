/** Block routing in `bifrost_proxy`: what the interceptor does to a stream of events. */
module SseIntercept {
  import opened Prelude
  import opened Utf8
  import opened SseFraming

  /** `serde_json::from_str` and `serde_json::to_string`, which keep the order of keys. */
  datatype Lib = Lib(parse: Text -> Option<Doc>, render: Doc -> Text)

  datatype Kind = Start | Delta | Stop

  /** One complete event: not a readable block event, a block event whose data is not
      JSON, or a block event. */
  datatype Event =
    | Other(raw: Text)
    | Unreadable(kind: Kind, data: Text)
    | Block(kind: Kind, data: Text, value: Doc)

  function TypeName(kind: Kind): Text {
    match kind
    case Start => "content_block_start"
    case Delta => "content_block_delta"
    case Stop => "content_block_stop"
  }

  function KindOf(eventType: Text): (r: Option<Kind>)
    ensures forall k :: r == Some(k) <==> eventType == TypeName(k)
  {
    if eventType == TypeName(Start) then Some(Start)
    else if eventType == TypeName(Delta) then Some(Delta)
    else if eventType == TypeName(Stop) then Some(Stop)
    else None
  }

  function ReadBlock(lib: Lib, kind: Kind, data: Text): Event {
    match lib.parse(data)
    case None => Unreadable(kind, data)
    case Some(value) => Block(kind, data, value)
  }

  function Decode(lib: Lib, raw: Text): Event {
    if !IsUtf8(raw) then Other(raw)
    else
      match ParseSseEvent(raw)
      case None => Other(raw)
      case Some((eventType, data)) =>
        match KindOf(eventType)
        case None => Other(raw)
        case Some(kind) => ReadBlock(lib, kind, data)
  }

  function Encode(e: Event): Text {
    match e
    case Other(raw) => raw
    case Unreadable(kind, data) => ReconstructSseEvent(TypeName(kind), data)
    case Block(kind, data, _) => ReconstructSseEvent(TypeName(kind), data)
  }

  function Decodes(lib: Lib, frames: seq<Text>): (r: seq<Event>)
    ensures |r| == |frames|
  {
    seq(|frames|, i requires 0 <= i < |frames| => Decode(lib, frames[i]))
  }

  function Encodes(events: seq<Event>): (r: seq<Text>)
    ensures |r| == |events|
  {
    seq(|events|, i requires 0 <= i < |events| => Encode(events[i]))
  }

  // -- What the handlers read from an event -------------------------------

  function IndexField(value: Doc): nat {
    match value.Get("index")
    case Some(DocNumber(PosInt(u))) => u
    case _ => 0
  }

  function BlockType(value: Doc): string {
    match value.Get("content_block")
    case Some(block) =>
      (match block.Get("type")
       case Some(DocStr(s)) => s
       case _ => "text")
    case None => "text"
  }

  function ThinkingText(value: Doc): string {
    match value.Get("delta")
    case Some(delta) =>
      (match delta.Get("thinking")
       case Some(DocStr(s)) => s
       case _ => "")
    case None => ""
  }

  function WithIndex(value: Doc, index: nat): Doc {
    value.Set("index", DocNumber(PosInt(index)))
  }

  function Renumbered(lib: Lib, e: Event, index: nat): Event
    requires e.Block?
  {
    var value := WithIndex(e.value, index);
    Block(e.kind, lib.render(value), value)
  }

  // -- The state machine ---------------------------------------------------

  datatype BlockMode = Forward(index: nat) | Strip

  /** `SseInterceptState` and the thinking side-log it writes. */
  datatype State = State(
    modes: map<nat, BlockMode>,
    next: nat,
    thinking: string,
    log: seq<string>)

  const Init := State(map[], 0, "", [])

  function WriteThinkingLog(log: seq<string>, hasSessionDir: bool, content: string): seq<string> {
    if hasSessionDir && content != "" then log + [content] else log
  }

  function Step(lib: Lib, hasSessionDir: bool, e: Event, s: State): (Option<Event>, State) {
    if !e.Block? then (Some(e), s)
    else
      var x := IndexField(e.value);
      match e.kind
      case Start =>
        if BlockType(e.value) == "thinking"
        then (None, s.(modes := s.modes[x := Strip], thinking := ""))
        else (Some(Renumbered(lib, e, s.next)),
              s.(modes := s.modes[x := Forward(s.next)], next := s.next + 1))
      case Delta =>
        if x !in s.modes then (Some(e), s)
        else
          (match s.modes[x]
           case Strip => (None, s.(thinking := s.thinking + ThinkingText(e.value)))
           case Forward(index) => (Some(Renumbered(lib, e, index)), s))
      case Stop =>
        if x !in s.modes then (Some(e), s)
        else
          var closed := s.(modes := s.modes - {x});
          match s.modes[x]
          case Strip =>
            (None, closed.(log := WriteThinkingLog(s.log, hasSessionDir, s.thinking), thinking := ""))
          case Forward(index) => (Some(Renumbered(lib, e, index)), closed)
  }

  function Last(es: seq<Event>): Event
    requires es != []
  {
    es[|es| - 1]
  }

  function Run(lib: Lib, dir: bool, es: seq<Event>): State {
    if es == [] then Init else Step(lib, dir, Last(es), Run(lib, dir, AllButLast(es))).1
  }

  function Emit(out: Option<Event>): seq<Event> {
    if out.Some? then [out.value] else []
  }

  /** The events sent on, in order. */
  function Outputs(lib: Lib, dir: bool, es: seq<Event>): seq<Event> {
    if es == [] then []
    else Outputs(lib, dir, AllButLast(es)) + Emit(Step(lib, dir, Last(es), Run(lib, dir, AllButLast(es))).0)
  }

  // -- What a stream means, without the state machine ----------------------

  predicate Opens(e: Event, x: nat) {
    e.Block? && e.kind == Start && IndexField(e.value) == x
  }

  predicate Closes(e: Event, x: nat) {
    e.Block? && e.kind == Stop && IndexField(e.value) == x
  }

  predicate IsDelta(e: Event, x: nat) {
    e.Block? && e.kind == Delta && IndexField(e.value) == x
  }

  predicate IsThinkingStart(e: Event) {
    e.Block? && e.kind == Start && BlockType(e.value) == "thinking"
  }

  predicate IsForwardedStart(e: Event) {
    e.Block? && e.kind == Start && BlockType(e.value) != "thinking"
  }

  /** Number of block starts that survive. */
  function ForwardedStarts(es: seq<Event>): nat {
    if es == [] then 0
    else ForwardedStarts(AllButLast(es)) + if IsForwardedStart(Last(es)) then 1 else 0
  }

  /** `es[j]` is the start of the block that index `x` denotes at the end of `es`. */
  predicate IsOwner(es: seq<Event>, x: nat, j: nat) {
    j < |es| && Opens(es[j], x) && forall k :: j < k < |es| ==> !Opens(es[k], x) && !Closes(es[k], x)
  }

  function Owner(es: seq<Event>, x: nat): (r: Option<nat>)
    ensures r.Some? ==> IsOwner(es, x, r.value)
    ensures r.None? ==> forall j: nat :: !IsOwner(es, x, j)
  {
    if es == [] then None
    else if Opens(Last(es), x) then Some(|es| - 1)
    else if Closes(Last(es), x) then
      assert forall j: nat :: IsOwner(es, x, j) ==> j < |es| - 1;
      None
    else
      assert forall j: nat :: IsOwner(es, x, j) ==> IsOwner(AllButLast(es), x, j);
      Owner(AllButLast(es), x)
  }

  /** What becomes of an event that follows `before`: thinking blocks vanish, every
      other block carries its rank among the surviving starts, and everything else,
      also a delta or stop of no open block, passes unchanged. */
  function Fate(lib: Lib, before: seq<Event>, e: Event): Option<Event> {
    if !e.Block? then Some(e)
    else if e.kind == Start then
      if IsThinkingStart(e) then None else Some(Renumbered(lib, e, ForwardedStarts(before)))
    else
      match Owner(before, IndexField(e.value))
      case None => Some(e)
      case Some(j) =>
        if IsThinkingStart(before[j]) then None
        else Some(Renumbered(lib, e, ForwardedStarts(before[..j])))
  }

  function Filtered(lib: Lib, es: seq<Event>): seq<Event> {
    if es == [] then [] else Filtered(lib, AllButLast(es)) + Emit(Fate(lib, AllButLast(es), Last(es)))
  }

  function ModeOf(es: seq<Event>, j: nat): BlockMode
    requires j < |es|
  {
    if IsThinkingStart(es[j]) then Strip else Forward(ForwardedStarts(es[..j]))
  }

  /** The block map is right about index `x`. */
  predicate ModeFits(es: seq<Event>, modes: map<nat, BlockMode>, x: nat) {
    match Owner(es, x)
    case Some(j) => x in modes && modes[x] == ModeOf(es, j)
    case None => x !in modes
  }

  lemma ModeOfLonger(es: seq<Event>, j: nat)
    requires es != [] && j < |es|
    ensures ModeOf(es, j) ==
      if j < |es| - 1 then ModeOf(AllButLast(es), j)
      else if IsThinkingStart(Last(es)) then Strip
      else Forward(ForwardedStarts(AllButLast(es)))
  {
    if j < |es| - 1 {
      assert es[..j] == AllButLast(es)[..j];
    } else {
      assert es[..j] == AllButLast(es);
    }
  }

  lemma {:induction false} StepFits(lib: Lib, dir: bool, es: seq<Event>, x: nat)
    requires es != []
    requires Run(lib, dir, AllButLast(es)).next == ForwardedStarts(AllButLast(es))
    requires ModeFits(AllButLast(es), Run(lib, dir, AllButLast(es)).modes, x)
    ensures ModeFits(es, Run(lib, dir, es).modes, x)
  {
    if Owner(es, x).Some? {
      ModeOfLonger(es, Owner(es, x).value);
    }
  }

  lemma {:induction false} RunFits(lib: Lib, dir: bool, es: seq<Event>)
    ensures Run(lib, dir, es).next == ForwardedStarts(es)
    ensures forall x: nat :: ModeFits(es, Run(lib, dir, es).modes, x)
  {
    if es != [] {
      RunFits(lib, dir, AllButLast(es));
      forall x: nat
        ensures ModeFits(es, Run(lib, dir, es).modes, x)
      {
        StepFits(lib, dir, es, x);
      }
    }
  }

  /** The block map holds exactly the open blocks, each with its fate. */
  lemma {:induction false} ModesAreOwners(lib: Lib, dir: bool, es: seq<Event>)
    ensures Run(lib, dir, es).next == ForwardedStarts(es)
    ensures forall x: nat :: x in Run(lib, dir, es).modes <==> Owner(es, x).Some?
    ensures forall x: nat :: Owner(es, x).Some? ==> Run(lib, dir, es).modes[x] == ModeOf(es, Owner(es, x).value)
  {
    RunFits(lib, dir, es);
    forall x: nat
      ensures x in Run(lib, dir, es).modes <==> Owner(es, x).Some?
      ensures Owner(es, x).Some? ==> Run(lib, dir, es).modes[x] == ModeOf(es, Owner(es, x).value)
    {
      hide Run, Owner, ModeOf;
      assert ModeFits(es, Run(lib, dir, es).modes, x);
    }
  }

  lemma {:induction false} StepIsFate(lib: Lib, dir: bool, before: seq<Event>, e: Event)
    ensures Step(lib, dir, e, Run(lib, dir, before)).0 == Fate(lib, before, e)
  {
    ModesAreOwners(lib, dir, before);
  }

  /** On every stream, well formed or not, the interceptor sends exactly the filtered
      stream. */
  lemma {:induction false} OutputsAreFiltered(lib: Lib, dir: bool, es: seq<Event>)
    ensures Outputs(lib, dir, es) == Filtered(lib, es)
  {
    if es != [] {
      OutputsAreFiltered(lib, dir, AllButLast(es));
      StepIsFate(lib, dir, AllButLast(es), Last(es));
    }
  }

  lemma {:induction false} OutputsSnoc(lib: Lib, dir: bool, es: seq<Event>, e: Event)
    ensures Outputs(lib, dir, es + [e]) == Outputs(lib, dir, es) + Emit(Step(lib, dir, e, Run(lib, dir, es)).0)
    ensures Run(lib, dir, es + [e]) == Step(lib, dir, e, Run(lib, dir, es)).1
  {
    assert AllButLast(es + [e]) == es;
  }

  predicate Distinct(s: State) {
    && (forall x :: x in s.modes && s.modes[x].Forward? ==> s.modes[x].index < s.next)
    && (forall x, y :: x in s.modes && y in s.modes && x != y && s.modes[x].Forward? ==> s.modes[x] != s.modes[y])
  }

  lemma StepKeepsDistinct(lib: Lib, dir: bool, e: Event, s: State)
    requires Distinct(s)
    ensures Distinct(Step(lib, dir, e, s).1)
  {
  }

  /** On every stream the forwarded indices of open blocks are distinct and already
      handed out. */
  lemma {:induction false} LiveIndicesDistinct(lib: Lib, dir: bool, es: seq<Event>)
    ensures Distinct(Run(lib, dir, es))
  {
    if es != [] {
      LiveIndicesDistinct(lib, dir, AllButLast(es));
      StepKeepsDistinct(lib, dir, Last(es), Run(lib, dir, AllButLast(es)));
    }
  }
}
