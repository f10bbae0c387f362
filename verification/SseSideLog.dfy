/** The thinking side-log of `bifrost_proxy`. */
module SseSideLog {
  import opened Prelude
  import opened SseIntercept

  predicate OpenThinking(es: seq<Event>, x: nat) {
    Owner(es, x).Some? && IsThinkingStart(es[Owner(es, x).value])
  }

  /** A delta or a stop of an open thinking block. */
  predicate IsThinking(before: seq<Event>, e: Event, kind: Kind) {
    e.Block? && e.kind == kind && OpenThinking(before, IndexField(e.value))
  }

  /** Events that empty the shared buffer: thinking starts, and stops of thinking blocks. */
  predicate Resets(before: seq<Event>, e: Event) {
    IsThinkingStart(e) || IsThinking(before, e, Stop)
  }

  /** A delta with text of an open thinking block. */
  predicate Thinks(before: seq<Event>, e: Event) {
    IsThinking(before, e, Delta) && ThinkingText(e.value) != ""
  }

  /** A delta with text of index `x`. */
  predicate Says(e: Event, x: nat) {
    IsDelta(e, x) && ThinkingText(e.value) != ""
  }

  /** A piece of thinking text and the position of its delta. */
  datatype Piece = Piece(at: nat, text: string)

  /** What the buffer holds: the thinking text since the last thinking start or stop. */
  function SharedPieces(es: seq<Event>): seq<Piece> {
    if es == [] then []
    else
      var before, e := AllButLast(es), Last(es);
      if Resets(before, e) then []
      else if Thinks(before, e) then SharedPieces(before) + [Piece(|before|, ThinkingText(e.value))]
      else SharedPieces(before)
  }

  /** The text of index `x` after position `j`. */
  function OwnPieces(es: seq<Event>, x: nat, j: nat): seq<Piece> {
    if |es| <= j + 1 then []
    else
      var before, e := AllButLast(es), Last(es);
      if Says(e, x)
      then OwnPieces(before, x, j) + [Piece(|before|, ThinkingText(e.value))]
      else OwnPieces(before, x, j)
  }

  function Text(pieces: seq<Piece>): string {
    if pieces == [] then "" else Text(pieces[..|pieces| - 1]) + pieces[|pieces| - 1].text
  }

  /** The buffer at each stop of a thinking block. */
  function SharedBlocks(es: seq<Event>): seq<seq<Piece>> {
    if es == [] then []
    else
      var before, e := AllButLast(es), Last(es);
      if IsThinking(before, e, Stop) then SharedBlocks(before) + [SharedPieces(before)] else SharedBlocks(before)
  }

  /** The block's own text at each stop of a thinking block. */
  function OwnBlocks(es: seq<Event>): seq<seq<Piece>> {
    if es == [] then []
    else
      var before, e := AllButLast(es), Last(es);
      if IsThinking(before, e, Stop)
      then OwnBlocks(before) + [PiecesOfOpen(before, IndexField(e.value))]
      else OwnBlocks(before)
  }

  /** The text of the block that `x` denotes. */
  function PiecesOfOpen(es: seq<Event>, x: nat): seq<Piece>
    requires Owner(es, x).Some?
  {
    OwnPieces(es, x, Owner(es, x).value)
  }

  /** The log entries for these blocks: those with text, if there is a session directory. */
  function Entries(dir: bool, blocks: seq<seq<Piece>>): seq<string> {
    if blocks == [] then []
    else WriteThinkingLog(Entries(dir, blocks[..|blocks| - 1]), dir, Text(blocks[|blocks| - 1]))
  }

  lemma {:induction false} TextSnoc(pieces: seq<Piece>, p: Piece)
    ensures Text(pieces + [p]) == Text(pieces) + p.text
  {
    assert (pieces + [p])[..|pieces|] == pieces;
  }

  lemma {:induction false} EntriesSnoc(dir: bool, blocks: seq<seq<Piece>>, block: seq<Piece>)
    ensures Entries(dir, blocks + [block]) == WriteThinkingLog(Entries(dir, blocks), dir, Text(block))
  {
    assert (blocks + [block])[..|blocks|] == blocks;
  }

  lemma {:induction false} ThinkingStep(lib: Lib, dir: bool, before: seq<Event>, e: Event)
    ensures var s := Run(lib, dir, before);
      var next := Step(lib, dir, e, s).1;
      && next.thinking == (if Resets(before, e) then ""
                           else if IsThinking(before, e, Delta) then s.thinking + ThinkingText(e.value)
                           else s.thinking)
      && next.log == if IsThinking(before, e, Stop) then WriteThinkingLog(s.log, dir, s.thinking) else s.log
  {
    ModesAreOwners(lib, dir, before);
  }

  /** On every stream the buffer and the side-log are those of the shared buffer. */
  lemma {:induction false} LogIsShared(lib: Lib, dir: bool, es: seq<Event>)
    ensures Run(lib, dir, es).thinking == Text(SharedPieces(es))
    ensures Run(lib, dir, es).log == Entries(dir, SharedBlocks(es))
  {
    if es != [] {
      var before, e := AllButLast(es), Last(es);
      LogIsShared(lib, dir, before);
      ThinkingStep(lib, dir, before, e);
      if Thinks(before, e) {
        TextSnoc(SharedPieces(before), Piece(|before|, ThinkingText(e.value)));
      } else if IsThinking(before, e, Stop) {
        EntriesSnoc(dir, SharedBlocks(before), SharedPieces(before));
      } else {
        assert Text(SharedPieces(before)) + "" == Text(SharedPieces(before));
      }
    }
  }

  // -- When a block's entry is its own text --------------------------------

  /** The number of events up to the last one that emptied the buffer. */
  function LastReset(es: seq<Event>): (r: nat)
    ensures r <= |es|
  {
    if es == [] then 0 else if Resets(AllButLast(es), Last(es)) then |es| else LastReset(AllButLast(es))
  }

  /** For the open thinking block of index `x`, started at `j`: none of its text came before
      the buffer was last emptied, and no text of another one has come since. */
  predicate Apart(es: seq<Event>, x: nat, j: nat) {
    && (forall k :: j < k < LastReset(es) ==> !Says(es[k], x))
    && (forall k :: LastReset(es) <= k < |es| && Thinks(es[..k], es[k]) ==> Says(es[k], x))
  }

  lemma {:induction false} OwnPositions(es: seq<Event>, x: nat, j: nat)
    ensures forall p :: p in OwnPieces(es, x, j) ==> p.at < |es|
    ensures OwnPieces(es, x, j) == [] <==> forall k :: j < k < |es| ==> !Says(es[k], x)
  {
    if |es| > j + 1 {
      OwnPositions(AllButLast(es), x, j);
      assert Says(Last(es), x) ==> OwnPieces(es, x, j) != [];
      assert forall k :: j < k < |es| - 1 ==> es[k] == AllButLast(es)[k];
    }
  }

  lemma LastPiece(a: seq<Piece>, b: seq<Piece>, p: Piece)
    ensures a + [p] == b + [p] <==> a == b
    ensures (forall q :: q in b ==> q.at < p.at) ==> a + [p] != b
  {
    if a + [p] == b + [p] {
      assert a == (a + [p])[..|a|] && b == (b + [p])[..|b|];
    }
    assert (a + [p])[|a|] == p;
  }

  /** What the last event, when it does not empty the buffer, does to `Apart`. */
  lemma ApartLast(es: seq<Event>, x: nat, j: nat)
    requires es != [] && !Resets(AllButLast(es), Last(es)) && j < |es| - 1
    ensures Apart(es, x, j) <==>
      Apart(AllButLast(es), x, j) && (Thinks(AllButLast(es), Last(es)) ==> Says(Last(es), x))
  {
    var before := AllButLast(es);
    assert es[..|before|] == before;
    forall k | 0 <= k < |before|
      ensures es[..k] == before[..k] && es[k] == before[k]
    {
    }
  }

  /** The buffer is the block's own text exactly then, whatever the texts are. */
  lemma {:induction false} OwnIffApart(es: seq<Event>, x: nat)
    requires OpenThinking(es, x)
    ensures SharedPieces(es) == PiecesOfOpen(es, x) <==> Apart(es, x, Owner(es, x).value)
    decreases |es|
  {
    var before, e, j := AllButLast(es), Last(es), Owner(es, x).value;
    OwnPositions(es, x, j);
    if !Opens(e, x) && !Resets(before, e) {
      assert Owner(before, x) == Some(j);
      OwnIffApart(before, x);
      ApartLast(es, x, j);
      OwnPositions(before, x, j);
      LastPiece(SharedPieces(before), OwnPieces(before, x, j),
        Piece(|before|, if e.Block? then ThinkingText(e.value) else ""));
    }
  }

  /** Every thinking block that is stopped has its buffer to itself. */
  predicate AllApart(es: seq<Event>) {
    forall i :: 0 <= i < |es| && IsThinking(es[..i], es[i], Stop) ==> ApartAt(es[..i], IndexField(es[i].value))
  }

  predicate ApartAt(es: seq<Event>, x: nat) {
    Owner(es, x).Some? && Apart(es, x, Owner(es, x).value)
  }

  lemma AllApartLast(es: seq<Event>)
    requires es != []
    ensures AllApart(es) <==>
      && AllApart(AllButLast(es))
      && (IsThinking(AllButLast(es), Last(es), Stop) ==> ApartAt(AllButLast(es), IndexField(Last(es).value)))
  {
    var before := AllButLast(es);
    assert es[..|before|] == before;
    forall i | 0 <= i < |before|
      ensures es[..i] == before[..i] && es[i] == before[i]
    {
    }
  }

  /** Every stopped thinking block logs its own deltas exactly when all are apart. */
  lemma {:induction false} BlocksIffApart(es: seq<Event>)
    ensures |SharedBlocks(es)| == |OwnBlocks(es)|
    ensures SharedBlocks(es) == OwnBlocks(es) <==> AllApart(es)
  {
    if es != [] {
      var before, e := AllButLast(es), Last(es);
      BlocksIffApart(before);
      AllApartLast(es);
      hide AllApart, Owner, SharedPieces, IsThinkingStart;
      if IsThinking(before, e, Stop) {
        var x := IndexField(e.value);
        StopIffApart(before, x);
        LastBlock(SharedBlocks(before), OwnBlocks(before), SharedPieces(before), PiecesOfOpen(before, x));
      }
    }
  }

  lemma {:induction false} StopIffApart(before: seq<Event>, x: nat)
    requires OpenThinking(before, x)
    ensures Owner(before, x).Some?
    ensures SharedPieces(before) == PiecesOfOpen(before, x) <==> ApartAt(before, x)
  {
    OwnIffApart(before, x);
  }

  lemma LastBlock(a: seq<seq<Piece>>, b: seq<seq<Piece>>, p: seq<Piece>, q: seq<Piece>)
    requires |a| == |b|
    ensures a + [p] == b + [q] <==> a == b && p == q
  {
    if a + [p] == b + [q] {
      assert a == (a + [p])[..|a|] && b == (b + [q])[..|b|];
      assert (a + [p])[|a|] == p && (b + [q])[|b|] == q;
    }
  }

  /** When each is apart, the side-log has one entry for each stopped thinking block with
      text: its own deltas, in order. */
  lemma {:induction false} SideLogIsPerBlock(lib: Lib, dir: bool, es: seq<Event>)
    requires AllApart(es)
    ensures Run(lib, dir, es).log == Entries(dir, OwnBlocks(es))
  {
    LogIsShared(lib, dir, es);
    BlocksIffApart(es);
  }

  // -- Streams without overlap ---------------------------------------------

  /** No thinking block starts while one of another index is open. */
  ghost predicate NoOverlap(es: seq<Event>) {
    forall i, x: nat :: 0 <= i < |es| && IsThinkingStart(es[i]) && x != IndexField(es[i].value) ==>
      !OpenThinking(es[..i], x)
  }

  lemma NoOverlapPrefix(es: seq<Event>)
    requires es != [] && NoOverlap(es)
    ensures NoOverlap(AllButLast(es))
    ensures forall x: nat :: IsThinkingStart(Last(es)) && x != IndexField(Last(es).value) ==>
      !OpenThinking(AllButLast(es), x)
  {
    var before := AllButLast(es);
    assert es[..|before|] == before;
    forall i | 0 <= i < |before|
      ensures es[..i] == before[..i]
    {
    }
  }

  /** At most one thinking block is open, and the buffer holds its deltas. */
  ghost predicate BufferIsOpenBlock(es: seq<Event>) {
    && (forall x: nat :: OpenThinking(es, x) ==> SharedPieces(es) == PiecesOfOpen(es, x))
    && (forall x: nat, y: nat :: OpenThinking(es, x) && OpenThinking(es, y) ==> x == y)
  }

  lemma {:induction false} OpenThinkingLast(es: seq<Event>, x: nat)
    requires es != []
    ensures var before, e := AllButLast(es), Last(es);
      && (OpenThinking(es, x) <==> if Opens(e, x) then IsThinkingStart(e) else !Closes(e, x) && OpenThinking(before, x))
      && (OpenThinking(es, x) && !Opens(e, x) ==> Owner(es, x) == Owner(before, x))
      && (Opens(e, x) ==> Owner(es, x) == Some(|before|))
  {
  }

  lemma {:induction false} OneOpenBlock(es: seq<Event>)
    requires NoOverlap(es)
    ensures BufferIsOpenBlock(es)
  {
    if es != [] {
      var before, e := AllButLast(es), Last(es);
      NoOverlapPrefix(es);
      OneOpenBlock(before);
      forall x: nat, y: nat | OpenThinking(es, x) && OpenThinking(es, y)
        ensures x == y
      {
        OpenThinkingLast(es, x);
        OpenThinkingLast(es, y);
      }
      forall x: nat | OpenThinking(es, x)
        ensures SharedPieces(es) == PiecesOfOpen(es, x)
      {
        OpenThinkingLast(es, x);
        if e.Block? && IndexField(e.value) != x {
          assert !OpenThinking(before, IndexField(e.value));
        }
      }
    }
  }

  /** Without overlap all thinking blocks are apart. */
  lemma {:induction false} NoOverlapIsApart(es: seq<Event>)
    requires NoOverlap(es)
    ensures AllApart(es)
  {
    if es != [] {
      NoOverlapPrefix(es);
      NoOverlapIsApart(AllButLast(es));
      AllApartLast(es);
      OneOpenBlock(AllButLast(es));
      if IsThinking(AllButLast(es), Last(es), Stop) {
        OwnIffApart(AllButLast(es), IndexField(Last(es).value));
      }
    }
  }

  /** Two thinking starts, at index 0 and index 1: both blocks are open. */
  lemma {:induction false} TwoThinkingStarts(open: seq<Event>)
    requires |open| == 2 && IsThinkingStart(open[0]) && IsThinkingStart(open[1])
    requires Opens(open[0], 0) && Opens(open[1], 1)
    ensures OpenThinking(open, 0) && OpenThinking(open, 1) && Owner(open, 0) == Some(0)
    ensures SharedPieces(open) == [] && SharedBlocks(open) == [] && OwnBlocks(open) == []
  {
    var first := AllButLast(open);
    assert |first| == 1 && Last(first) == open[0] && AllButLast(first) == [];
    assert Last(first).kind == Start && Last(open).kind == Start;
    assert Owner(first, 0) == Some(0);
    NoBlockEnds([], open[0]);
    NoBlockEnds([open[0]], open[1]);
    assert [] + [open[0]] == [open[0]] && [open[0]] + [open[1]] == open;
  }

  lemma {:induction false} NoBlockEnds(es: seq<Event>, e: Event)
    requires !IsThinking(es, e, Stop)
    ensures SharedBlocks(es + [e]) == SharedBlocks(es) && OwnBlocks(es + [e]) == OwnBlocks(es)
  {
    hide IsThinking, SharedPieces, PiecesOfOpen;
    assert AllButLast(es + [e]) == es;
  }

  lemma {:induction false} ThinkingDelta(es: seq<Event>, e: Event)
    requires Thinks(es, e)
    ensures SharedPieces(es + [e]) == SharedPieces(es) + [Piece(|es|, ThinkingText(e.value))]
  {
    hide OpenThinking, ThinkingText;
    assert AllButLast(es + [e]) == es;
  }

  lemma {:induction false} DeltaKeepsOwner(es: seq<Event>, e: Event, x: nat)
    requires e.Block? && e.kind == Delta
    ensures Owner(es + [e], x) == Owner(es, x) && (OpenThinking(es + [e], x) <==> OpenThinking(es, x))
    ensures |es| > 0 ==>
      OwnPieces(es + [e], x, 0) ==
        OwnPieces(es, x, 0) + if Says(e, x) then [Piece(|es|, ThinkingText(e.value))] else []
  {
    assert AllButLast(es + [e]) == es;
  }

  /** The condition matters: of two overlapping blocks the first to stop takes the text of
      both. */
  lemma {:induction false} OverlapMixesTexts(lib: Lib, open: seq<Event>, first: Event, second: Event, stop: Event)
    requires |open| == 2 && IsThinkingStart(open[0]) && IsThinkingStart(open[1])
    requires Opens(open[0], 0) && Opens(open[1], 1)
    requires IsDelta(first, 0) && ThinkingText(first.value) != ""
    requires IsDelta(second, 1) && ThinkingText(second.value) != ""
    requires Closes(stop, 0)
    ensures var es := open + [first] + [second] + [stop];
      && Run(lib, true, es).log == [ThinkingText(first.value) + ThinkingText(second.value)]
      && Entries(true, OwnBlocks(es)) == [ThinkingText(first.value)]
  {
    TwoThinkingStarts(open);
    DeltaKeepsOwner(open, first, 0);
    DeltaKeepsOwner(open, first, 1);
    ThinkingDelta(open, first);
    NoBlockEnds(open, first);
    var es := open + [first];
    DeltaKeepsOwner(es, second, 0);
    ThinkingDelta(es, second);
    NoBlockEnds(es, second);
    OwnPositions(open, 0, 0);
    var own := Piece(2, ThinkingText(first.value));
    assert [] + [own] == [own];
    StopOfFirst(lib, es + [second], stop, own, Piece(3, ThinkingText(second.value)));
  }

  lemma {:induction false} StopOfFirst(lib: Lib, es: seq<Event>, stop: Event, own: Piece, other: Piece)
    requires Closes(stop, 0) && OpenThinking(es, 0) && Owner(es, 0) == Some(0)
    requires SharedBlocks(es) == [] && OwnBlocks(es) == []
    requires OwnPieces(es, 0, 0) == [own] && SharedPieces(es) == [own] + [other]
    requires own.text != ""
    ensures var more := es + [stop];
      Run(lib, true, more).log == [own.text + other.text] && Entries(true, OwnBlocks(more)) == [own.text]
  {
    var more := es + [stop];
    assert AllButLast(more) == es;
    LogIsShared(lib, true, more);
    TextSnoc([], own);
    TextSnoc([own], other);
    EntriesSnoc(true, [], [own] + [other]);
    EntriesSnoc(true, [], [own]);
    assert "" + own.text == own.text && [] + [own] == [own];
    assert [] + [[own]] == [[own]] && [] + [[own] + [other]] == [[own] + [other]];
  }
}
