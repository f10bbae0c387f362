/** The response interceptor of `bifrost_proxy`: bytes in, bytes out. */
module SseProxy {
  import opened Prelude
  import opened Utf8
  import opened SseFraming
  import opened SseIntercept
  import opened SseRerun

  /** Everything the client receives from a stream that ended normally. */
  function Delivered(lib: Lib, dir: bool, received: Text): Text {
    Flatten(Encodes(Outputs(lib, dir, Decodes(lib, Frames(received))))) + Residue(received)
  }

  // -- What a reader makes of an event -------------------------------------

  /** A rebuilt event whose data is one line. */
  predicate IsOneLine(o: Event) {
    o.Other? || IsSingleLine(o.data)
  }

  /** The event a reader makes of the text of an event: each reading drops one carriage
      return at the end of the data. */
  function Reread(lib: Lib, o: Event): Event {
    if o.Other? then o else ReadBlock(lib, o.kind, StripCarriageReturn(o.data))
  }

  function Rereads(lib: Lib, out: seq<Event>): (r: seq<Event>)
    ensures |r| == |out|
  {
    seq(|out|, i requires 0 <= i < |out| => Reread(lib, out[i]))
  }

  /** An event with the text of one frame. */
  predicate IsSendable(lib: Lib, o: Event) {
    if o.Other? then IsFrame(o.raw) && Decode(lib, o.raw) == o else '\n' !in o.data && IsUtf8(o.data)
  }

  /** The value of the event is what the parser makes of its data. */
  predicate IsReadBack(lib: Lib, o: Event) {
    o.Other? || ReadBlock(lib, o.kind, o.data) == o
  }

  /** What `Decode` promises of an event. */
  predicate IsRead(lib: Lib, o: Event) {
    IsSendable(lib, o) && IsReadBack(lib, o)
  }

  lemma DecodedIsRead(lib: Lib, frame: Text)
    requires IsFrame(frame)
    ensures IsRead(lib, Decode(lib, frame))
  {
    if IsUtf8(frame) {
      LinesHoldNoFeed(frame);
      LinesAreUtf8(frame);
      DataOfLines(Lines(frame), Fields(None, None));
    }
  }

  lemma TypeNamesArePlain(kind: Kind)
    ensures IsTrimmed(TypeName(kind), Ascii) && '\n' !in TypeName(kind) && IsAscii(TypeName(kind))
  {
  }

  lemma {:induction false} RebuiltIsUtf8(kind: Kind, data: Text)
    requires IsUtf8(data)
    ensures IsUtf8(ReconstructSseEvent(TypeName(kind), data))
  {
    TypeNamesArePlain(kind);
    var start, end := ("event: " + TypeName(kind)) + "\n" + "data: ", "\n\n";
    assert ReconstructSseEvent(TypeName(kind), data) == start + (data + end);
    assert IsAscii("event: ") && IsAscii("\n") && IsAscii("data: ");
    AsciiIsUtf8(start);
    AsciiIsUtf8(end);
    Utf8Append(data, end);
    Utf8Append(start, data + end);
  }

  lemma {:induction false} RebuiltIsRead(lib: Lib, kind: Kind, data: Text)
    requires '\n' !in data && IsUtf8(data)
    ensures var raw := ReconstructSseEvent(TypeName(kind), data);
      IsFrame(raw) && Decode(lib, raw) == ReadBlock(lib, kind, StripCarriageReturn(data))
    ensures StripCarriageReturn(data) == data <==> IsSingleLine(data)
  {
    hide IsUtf8, IsFrame, ReconstructSseEvent, ParseSseEvent, IsTrimmed;
    TypeNamesArePlain(kind);
    RebuiltIsUtf8(kind, data);
    RebuiltEventParses(TypeName(kind), data);
    RebuiltEventIsFrame(TypeName(kind), data);
  }

  /** The text of such an event is one frame. It reads back as the event exactly when the data is
      one line and the parser reads the value back. */
  lemma {:induction false} SentReads(lib: Lib, o: Event)
    requires IsSendable(lib, o)
    ensures IsFrame(Encode(o)) && Decode(lib, Encode(o)) == Reread(lib, o)
    ensures Reread(lib, o) == o <==> IsOneLine(o) && IsReadBack(lib, o)
  {
    if !o.Other? {
      RebuiltIsRead(lib, o.kind, o.data);
    }
  }

  predicate AllSendable(lib: Lib, es: seq<Event>) {
    forall e :: e in es ==> IsSendable(lib, e)
  }

  predicate AllRead(lib: Lib, es: seq<Event>) {
    forall e :: e in es ==> IsRead(lib, e)
  }

  lemma {:induction false} DecodesAreRead(lib: Lib, received: Text)
    ensures AllRead(lib, Decodes(lib, Frames(received)))
  {
    var frames := Frames(received);
    FramesPartition(received);
    forall e | e in Decodes(lib, frames)
      ensures IsRead(lib, e)
    {
      var i :| 0 <= i < |frames| && Decode(lib, frames[i]) == e;
      assert frames[i] in frames;
      DecodedIsRead(lib, frames[i]);
    }
  }

  // -- The serializer ------------------------------------------------------

  /** What the serializer writes of a value is one line of UTF-8. */
  predicate IsPlainlyWritten(lib: Lib, v: Doc) {
    IsUtf8(lib.render(v)) && IsSingleLine(lib.render(v))
  }

  /** That holds of the values of these events, under every index that they may get. */
  ghost predicate IsPlain(lib: Lib, es: seq<Event>) {
    forall e, index: nat :: e in es && e.Block? && index < |es| ==> IsPlainlyWritten(lib, WithIndex(e.value, index))
  }

  /** Moreover the parser reads these values back. */
  ghost predicate IsFaithful(lib: Lib, es: seq<Event>) {
    forall e, index: nat :: e in es && e.Block? && index < |es| ==> IsWrittenBack(lib, WithIndex(e.value, index))
  }

  predicate IsWrittenBack(lib: Lib, v: Doc) {
    IsPlainlyWritten(lib, v) && lib.parse(lib.render(v)) == Some(v)
  }

  /** The event is a block event of the stream under an index that it may get. */
  ghost predicate IsRenumbered(lib: Lib, es: seq<Event>, o: Event) {
    exists e, index: nat :: e in es && e.Block? && index < |es| && o == Renumbered(lib, e, index)
  }

  lemma {:induction false} ForwardedAreFew(es: seq<Event>)
    ensures ForwardedStarts(es) <= |es|
  {
    if es != [] {
      ForwardedAreFew(AllButLast(es));
    }
  }

  lemma FateOrigin(lib: Lib, before: seq<Event>, e: Event)
    ensures match Fate(lib, before, e)
      case None => true
      case Some(o) =>
        o == e || (e.Block? && exists index: nat :: index <= |before| && o == Renumbered(lib, e, index))
  {
    if e.Block? {
      ForwardedAreFew(before);
      if e.kind != Start && Owner(before, IndexField(e.value)).Some? {
        ForwardedAreFew(before[..Owner(before, IndexField(e.value)).value]);
      }
    }
  }

  lemma {:induction false} OutputOrigin(lib: Lib, dir: bool, es: seq<Event>, o: Event)
    requires o in Outputs(lib, dir, es)
    ensures o in es || IsRenumbered(lib, es, o)
  {
    OutputsAreFiltered(lib, dir, es);
    FilteredOrigin(lib, es, o);
  }

  lemma {:induction false} FilteredOrigin(lib: Lib, es: seq<Event>, o: Event)
    requires o in Filtered(lib, es)
    ensures o in es || IsRenumbered(lib, es, o)
  {
    var before, e := AllButLast(es), Last(es);
    if o in Filtered(lib, before) {
      FilteredOrigin(lib, before, o);
      if o !in es {
        var e', index: nat :| e' in before && e'.Block? && index < |before| && o == Renumbered(lib, e', index);
        assert e' in es;
      }
    } else {
      assert o in Emit(Fate(lib, before, e));
      FateOrigin(lib, before, e);
      assert e in es;
    }
  }

  lemma RenumberedIsPlain(lib: Lib, es: seq<Event>, o: Event)
    requires IsPlain(lib, es) && IsRenumbered(lib, es, o)
    ensures IsSendable(lib, o) && IsOneLine(o)
  {
  }

  lemma RenumberedIsRead(lib: Lib, es: seq<Event>, o: Event)
    requires IsFaithful(lib, es) && IsRenumbered(lib, es, o)
    ensures IsRead(lib, o) && IsOneLine(o)
  {
  }

  /** Every event sent has the text of one frame. */
  lemma {:induction false} OutputsAreSendable(lib: Lib, dir: bool, es: seq<Event>)
    requires AllSendable(lib, es) && IsPlain(lib, es)
    ensures AllSendable(lib, Outputs(lib, dir, es))
  {
    forall o | o in Outputs(lib, dir, es)
      ensures IsSendable(lib, o)
    {
      OutputOrigin(lib, dir, es, o);
      if o !in es {
        RenumberedIsPlain(lib, es, o);
      }
    }
  }

  /** With a faithful serializer every event sent is one that a reader could have made. */
  lemma {:induction false} OutputsAreRead(lib: Lib, dir: bool, es: seq<Event>)
    requires AllRead(lib, es) && IsFaithful(lib, es)
    ensures AllRead(lib, Outputs(lib, dir, es))
  {
    forall o | o in Outputs(lib, dir, es)
      ensures IsRead(lib, o)
    {
      OutputOrigin(lib, dir, es, o);
      if o !in es {
        RenumberedIsRead(lib, es, o);
      }
    }
  }

  /** Every event sent is one frame, which reads back as the event exactly when the event's
      data is one line and the parser reads its value back. */
  lemma {:induction false} OutputRereads(lib: Lib, dir: bool, received: Text, o: Event)
    requires IsPlain(lib, Decodes(lib, Frames(received)))
    requires o in Outputs(lib, dir, Decodes(lib, Frames(received)))
    ensures IsFrame(Encode(o))
    ensures Decode(lib, Encode(o)) == o <==> IsOneLine(o) && IsReadBack(lib, o)
  {
    DecodesAreRead(lib, received);
    OutputsAreSendable(lib, dir, Decodes(lib, Frames(received)));
    SentReads(lib, o);
  }

  // -- A stream that was already filtered ----------------------------------

  /** Events that a reader could have made, followed by an unfinished rest, are framed one by
      one. */
  lemma {:induction false} SentFrames(lib: Lib, out: seq<Event>, rest: Text)
    requires FindEventBoundary(rest).None? && AllSendable(lib, out)
    ensures var bytes := Flatten(Encodes(out)) + rest;
      && Frames(bytes) == Encodes(out) && Residue(bytes) == rest
      && Decodes(lib, Frames(bytes)) == Rereads(lib, out)
  {
    forall i | 0 <= i < |out|
      ensures IsFrame(Encodes(out)[i]) && Decode(lib, Encodes(out)[i]) == Reread(lib, out[i])
    {
      assert out[i] in out;
      SentReads(lib, out[i]);
    }
    FramesOfFlatten(Encodes(out), rest);
    assert Frames(rest) == [] && Encodes(out) + [] == Encodes(out);
  }

  /** The serializer is as faithful to what a second interceptor reads, if it is to the events
      of the stream read once more. */
  lemma {:induction false} RereadIsFaithful(lib: Lib, dir: bool, es: seq<Event>)
    requires AllRead(lib, es) && IsFaithful(lib, es) && IsFaithful(lib, Rereads(lib, es))
    ensures IsFaithful(lib, Rereads(lib, Outputs(lib, dir, es)))
  {
    var out := Outputs(lib, dir, es);
    OutputsAreFiltered(lib, dir, es);
    FilteredFixed(lib, es);
    forall e, index: nat | e in Rereads(lib, out) && e.Block? && index < |out|
      ensures IsWrittenBack(lib, WithIndex(e.value, index))
    {
      var i :| 0 <= i < |out| && e == Reread(lib, out[i]);
      OutputOrigin(lib, dir, es, out[i]);
      if out[i] in es {
        var k :| 0 <= k < |es| && es[k] == out[i];
        assert Rereads(lib, es)[k] == e;
      } else {
        RenumberedAgain(lib, es, out[i], e, index);
      }
    }
  }

  lemma RenumberedAgain(lib: Lib, es: seq<Event>, o: Event, e: Event, index: nat)
    requires IsFaithful(lib, es) && IsRenumbered(lib, es, o) && e == Reread(lib, o) && index < |es|
    ensures e.Block? && IsWrittenBack(lib, WithIndex(e.value, index))
  {
    var first, i: nat :| first in es && first.Block? && i < |es| && o == Renumbered(lib, first, i);
    RenumberedIsRead(lib, es, o);
    SentReads(lib, o);
    WithIndexReads(first.value, i);
    assert WithIndex(e.value, index) == WithIndex(first.value, index);
  }

  /** The second pass reads what was sent, and changes no byte exactly when it changes no text of
      an event. */
  lemma {:induction false} SecondReads(lib: Lib, dir: bool, received: Text)
    requires var es := Decodes(lib, Frames(received));
      IsPlain(lib, es) && IsPlain(lib, Rereads(lib, Outputs(lib, dir, es)))
    ensures var out := Outputs(lib, dir, Decodes(lib, Frames(received)));
      Delivered(lib, dir, Delivered(lib, dir, received)) == Delivered(lib, dir, received) <==>
      Encodes(Outputs(lib, dir, Rereads(lib, out))) == Encodes(out)
  {
    var es, rest := Decodes(lib, Frames(received)), Residue(received);
    var out := Outputs(lib, dir, es);
    hide IsPlain, Frames, Residue, Decodes, Outputs, IsSendable;
    DecodesAreRead(lib, received);
    OutputsAreSendable(lib, dir, es);
    SentFrames(lib, out, rest);
    DecodesAreRead(lib, Delivered(lib, dir, received));
    OutputsAreSendable(lib, dir, Rereads(lib, out));
    SentFrames(lib, Outputs(lib, dir, Rereads(lib, out)), rest);
  }

  /** A carriage return at the end of data that is sent is lost in the second pass. */
  lemma {:induction false} ReturnIsLost(lib: Lib, dir: bool, out: seq<Event>, i: nat)
    requires IsPlain(lib, Rereads(lib, out)) && i < |out| && !IsOneLine(out[i]) && '\n' !in out[i].data
    ensures Encodes(Outputs(lib, dir, Rereads(lib, out))) != Encodes(out)
  {
    var es := Rereads(lib, out);
    var again := Outputs(lib, dir, es);
    if |again| == |es| {
      OutputsAreFiltered(lib, dir, es);
      FilteredFull(lib, es, i);
      assert es[i] == ReadBlock(lib, out[i].kind, StripCarriageReturn(out[i].data));
      FateOfReread(lib, es, i, again[i]);
      assert again[i].kind == out[i].kind;
      if Encode(again[i]) == Encode(out[i]) {
        ReconstructedData(TypeName(out[i].kind), again[i].data, out[i].data);
      }
      assert Encodes(again)[i] != Encodes(out)[i];
    }
  }

  lemma FateOfReread(lib: Lib, es: seq<Event>, i: nat, sent: Event)
    requires IsPlain(lib, es) && i < |es| && !es[i].Other? && Fate(lib, es[..i], es[i]) == Some(sent)
    ensures !sent.Other? && sent.kind == es[i].kind && (sent.data == es[i].data || IsSingleLine(sent.data))
  {
    FateOrigin(lib, es[..i], es[i]);
    assert es[i] in es;
  }

  /** The data is what the serializer writes of the value under the index. */
  predicate ReadsAs(lib: Lib, e: Event, index: nat)
    requires e.Block?
  {
    e.data == lib.render(WithIndex(e.value, index))
  }

  /** The event keeps its text in the stream: no thinking block claims it, and a start reads as
      its rank, a delta or stop that a block claims as the rank of that block. */
  predicate KeepsText(lib: Lib, es: seq<Event>, i: nat)
    requires i < |es|
  {
    es[i].Block? ==>
      if es[i].kind == Start then !IsThinkingStart(es[i]) && ReadsAs(lib, es[i], ForwardedStarts(es[..i]))
      else
        match Owner(es[..i], IndexField(es[i].value))
        case Some(j) => !IsThinkingStart(es[j]) && ReadsAs(lib, es[i], ForwardedStarts(es[..j]))
        case None => true
  }

  lemma FateKeepsText(lib: Lib, es: seq<Event>, i: nat)
    requires i < |es|
    ensures var fate := Fate(lib, es[..i], es[i]);
      KeepsText(lib, es, i) <==> fate.Some? && Encode(fate.value) == Encode(es[i])
  {
    var fate := Fate(lib, es[..i], es[i]);
    if es[i].Block? && fate.Some? && Encode(fate.value) == Encode(es[i]) {
      FateOrigin(lib, es[..i], es[i]);
      ReconstructedData(TypeName(es[i].kind), fate.value.data, es[i].data);
    }
    if es[i].Block? && es[i].kind != Start && Owner(es[..i], IndexField(es[i].value)).Some? {
      var j := Owner(es[..i], IndexField(es[i].value)).value;
      assert es[..i][..j] == es[..j];
    }
  }

  predicate NoneVanish(lib: Lib, es: seq<Event>) {
    forall i :: 0 <= i < |es| ==> Fate(lib, es[..i], es[i]).Some?
  }

  lemma NoneVanishLast(lib: Lib, es: seq<Event>)
    requires es != []
    ensures NoneVanish(lib, es) <==> NoneVanish(lib, AllButLast(es)) && Fate(lib, AllButLast(es), Last(es)).Some?
  {
    hide Fate;
    forall i | 0 <= i < |es| - 1
      ensures AllButLast(es)[..i] == es[..i]
    {
    }
    assert es[..|es| - 1] == AllButLast(es);
  }

  /** Filtering drops nothing exactly when no event vanishes. */
  lemma {:induction false} FilteredLength(lib: Lib, es: seq<Event>)
    ensures |Filtered(lib, es)| == |es| <==> NoneVanish(lib, es)
  {
    if es != [] {
      hide Fate, NoneVanish;
      FilteredFixed(lib, AllButLast(es));
      FilteredLength(lib, AllButLast(es));
      NoneVanishLast(lib, es);
    }
  }

  /** Filtering keeps the texts of all events exactly when each keeps its own. */
  lemma {:induction false} FilteredTexts(lib: Lib, es: seq<Event>)
    ensures Encodes(Filtered(lib, es)) == Encodes(es) <==> forall i :: 0 <= i < |es| ==> KeepsText(lib, es, i)
  {
    var kept := Filtered(lib, es);
    FilteredLength(lib, es);
    forall i | 0 <= i < |es|
      ensures |kept| == |es| ==> (Encodes(kept)[i] == Encodes(es)[i] <==> KeepsText(lib, es, i))
      ensures KeepsText(lib, es, i) ==> Fate(lib, es[..i], es[i]).Some?
    {
      FateKeepsText(lib, es, i);
      if |kept| == |es| {
        FilteredFull(lib, es, i);
      }
    }
  }

  /** Sending a filtered stream through a second interceptor changes no byte of it exactly
      when no data that was sent ends in a carriage return and every event, as it is read,
      keeps its text. */
  lemma {:induction false} SecondPassIsIdentity(lib: Lib, dir: bool, received: Text)
    requires var es := Decodes(lib, Frames(received));
      IsPlain(lib, es) && IsPlain(lib, Rereads(lib, Outputs(lib, dir, es)))
    ensures var out := Outputs(lib, dir, Decodes(lib, Frames(received)));
      var read := Rereads(lib, out);
      Delivered(lib, dir, Delivered(lib, dir, received)) == Delivered(lib, dir, received) <==>
      (forall o :: o in out ==> IsOneLine(o)) && forall i :: 0 <= i < |read| ==> KeepsText(lib, read, i)
  {
    var es := Decodes(lib, Frames(received));
    var out := Outputs(lib, dir, es);
    hide IsPlain, KeepsText;
    DecodesAreRead(lib, received);
    OutputsAreSendable(lib, dir, es);
    SecondReads(lib, dir, received);
    if i :| 0 <= i < |out| && !IsOneLine(out[i]) {
      assert IsSendable(lib, out[i]);
      ReturnIsLost(lib, dir, out, i);
    } else {
      OutputsAreFiltered(lib, dir, Rereads(lib, out));
      FilteredTexts(lib, Rereads(lib, out));
      RereadTexts(lib, out);
    }
  }

  lemma {:induction false} RereadTexts(lib: Lib, out: seq<Event>)
    requires forall o :: o in out ==> IsOneLine(o)
    ensures Encodes(Rereads(lib, out)) == Encodes(out)
  {
    forall i | 0 <= i < |out|
      ensures Encodes(Rereads(lib, out))[i] == Encodes(out)[i]
    {
      assert out[i] in out;
    }
  }

  /** When the parser reads back what the serializer writes, this says of the output itself
      that it is settled. */
  lemma {:induction false} SettledSecondPass(lib: Lib, dir: bool, received: Text)
    requires var es := Decodes(lib, Frames(received)); IsFaithful(lib, es) && IsFaithful(lib, Rereads(lib, es))
    ensures var out := Outputs(lib, dir, Decodes(lib, Frames(received)));
      Delivered(lib, dir, Delivered(lib, dir, received)) == Delivered(lib, dir, received) <==>
      IsSettled(lib, out) && forall o :: o in out ==> IsOneLine(o)
  {
    var es := Decodes(lib, Frames(received));
    var out := Outputs(lib, dir, es);
    hide IsSettled;
    DecodesAreRead(lib, received);
    OutputsAreRead(lib, dir, es);
    RereadIsFaithful(lib, dir, es);
    FaithfulIsPlain(lib, es);
    FaithfulIsPlain(lib, Rereads(lib, out));
    hide IsFaithful, IsPlain;
    SecondReads(lib, dir, received);
    if i :| 0 <= i < |out| && !IsOneLine(out[i]) {
      assert IsRead(lib, out[i]);
      ReturnIsLost(lib, dir, out, i);
    } else {
      AllReread(lib, out);
      RerunIsIdentity(lib, dir, es);
      OutputsFromTexts(lib, dir, out);
    }
  }

  lemma FaithfulIsPlain(lib: Lib, es: seq<Event>)
    requires IsFaithful(lib, es)
    ensures IsPlain(lib, es)
  {
    forall e, index: nat | e in es && e.Block? && index < |es|
      ensures IsPlainlyWritten(lib, WithIndex(e.value, index))
    {
      assert IsWrittenBack(lib, WithIndex(e.value, index));
    }
  }

  lemma {:induction false} AllReread(lib: Lib, out: seq<Event>)
    requires AllRead(lib, out) && forall o :: o in out ==> IsOneLine(o)
    ensures Rereads(lib, out) == out
  {
    forall i | 0 <= i < |out|
      ensures Reread(lib, out[i]) == out[i]
    {
      assert out[i] in out;
      SentReads(lib, out[i]);
    }
  }

  /** Equal texts of the two outputs mean equal outputs. */
  lemma {:induction false} OutputsFromTexts(lib: Lib, dir: bool, out: seq<Event>)
    requires AllRead(lib, out) && IsFaithful(lib, out) && forall o :: o in out ==> IsOneLine(o)
    ensures Encodes(Outputs(lib, dir, out)) == Encodes(out) ==> Outputs(lib, dir, out) == out
  {
    var again := Outputs(lib, dir, out);
    if Encodes(again) == Encodes(out) {
      forall i | 0 <= i < |out|
        ensures again[i] == out[i]
      {
        assert Encodes(again)[i] == Encodes(out)[i] && out[i] in out;
        SentReads(lib, out[i]);
        OutputOrigin(lib, dir, out, again[i]);
        if again[i] !in out {
          RenumberedIsRead(lib, out, again[i]);
        }
        SentReads(lib, again[i]);
      }
    }
  }

  /** Being settled is not enough: data that does not parse and ends in a carriage return is
      passed on, and each pass takes one of the returns away. */
  lemma {:induction false} TrailingReturnIsLost(lib: Lib, dir: bool, text: Text)
    requires '\n' !in text && IsUtf8(text) && lib.parse(text).None? && lib.parse(text + "\r").None?
    ensures var received := ReconstructSseEvent(TypeName(Delta), text + "\r" + "\r");
      && Outputs(lib, dir, Decodes(lib, Frames(received))) == [Unreadable(Delta, text + "\r")]
      && IsSettled(lib, [Unreadable(Delta, text + "\r")])
      && Delivered(lib, dir, Delivered(lib, dir, received)) != Delivered(lib, dir, received)
  {
    var data := text + "\r";
    var received := ReconstructSseEvent(TypeName(Delta), data + "\r");
    var e := Unreadable(Delta, data);
    ReturnFrame(lib, text);
    OneFrame(received);
    hide Frames, IsSettled, Delivered, ReconstructSseEvent, IsSingleLine, ParseSseEvent, Decode;
    OneUnreadable(lib, dir, received, data);
    LoneIsSettled(lib, e);
    assert Rereads(lib, [e]) == [Reread(lib, e)];
    SecondPassIsIdentity(lib, dir, received);
    assert e in [e] && !IsOneLine(e) by {
      NotOneLine(data);
    }
  }

  lemma NotOneLine(data: Text)
    requires data != "" && data[|data| - 1] == '\r'
    ensures !IsSingleLine(data)
  {
  }

  lemma LoneIsSettled(lib: Lib, e: Event)
    requires !e.Block?
    ensures IsSettled(lib, [e])
  {
  }

  lemma {:induction false} ReturnFrame(lib: Lib, text: Text)
    requires '\n' !in text && IsUtf8(text) && lib.parse(text).None? && lib.parse(text + "\r").None?
    ensures var received, e := ReconstructSseEvent(TypeName(Delta), text + "\r" + "\r"), Unreadable(Delta, text + "\r");
      && IsFrame(received) && Decode(lib, received) == e
      && Reread(lib, e) == Unreadable(Delta, text)
  {
    var data := text + "\r";
    assert StripCarriageReturn(data + "\r") == data && StripCarriageReturn(data) == text;
    assert '\n' !in data && '\n' !in data + "\r";
    hide IsUtf8, ReconstructSseEvent, Decode, StripCarriageReturn, IsFrame;
    AsciiIsUtf8("\r");
    Utf8Append(text, "\r");
    Utf8Append(data, "\r");
    RebuiltIsRead(lib, Delta, data + "\r");
  }

  lemma {:induction false} OneFrame(frame: Text)
    requires IsFrame(frame)
    ensures Frames(frame) == [frame]
  {
    FirstFrame(frame, "");
    assert frame + "" == frame && Frames("") == [] && [frame] + [] == [frame];
  }

  lemma {:induction false} OneUnreadable(lib: Lib, dir: bool, received: Text, data: Text)
    requires Frames(received) == [received] && Decode(lib, received) == Unreadable(Delta, data)
    ensures Outputs(lib, dir, Decodes(lib, Frames(received))) == [Unreadable(Delta, data)]
  {
    var e := Unreadable(Delta, data);
    assert Decodes(lib, [received]) == [e];
    assert AllButLast([e]) == [] && [] + [e] == [e];
  }

  lemma {:induction false} RoutedSnoc(lib: Lib, dir: bool, routed: seq<Text>, raw: Text)
    ensures var es, more := Decodes(lib, routed), Decodes(lib, routed + [raw]);
      var (out, next) := Step(lib, dir, Decode(lib, raw), Run(lib, dir, es));
      && Run(lib, dir, more) == next
      && Encodes(Outputs(lib, dir, more)) ==
           Encodes(Outputs(lib, dir, es)) + if out.Some? then [Encode(out.value)] else []
  {
    var es := Decodes(lib, routed);
    OutputsSnoc(lib, dir, es, Decode(lib, raw));
    assert Decodes(lib, routed + [raw]) == es + [Decode(lib, raw)];
  }

  lemma {:induction false} UnfoldFrames(routed: seq<Text>, buffer: Text, head: Text, rest: Text)
    requires FindEventBoundary(buffer).Some?
    requires head == buffer[..FindEventBoundary(buffer).value + 2]
    requires rest == buffer[FindEventBoundary(buffer).value + 2..]
    ensures routed + Frames(buffer) == (routed + [head]) + Frames(rest)
    ensures Residue(buffer) == Residue(rest)
  {
    assert Frames(buffer) == [head] + Frames(rest);
    Regroup(routed, head, Frames(rest));
  }

  lemma Regroup(a: seq<Text>, b: Text, c: seq<Text>)
    ensures a + ([b] + c) == (a + [b]) + c
  {
  }

  // -- The text of events --------------------------------------------------

  /** The text in front of the data of a block event. */
  function Head(kind: Kind): Text {
    var name := match kind
      case Start => "content_block_start"
      case Delta => "content_block_delta"
      case Stop => "content_block_stop";
    ("event: " + name) + "\n" + "data: "
  }

  lemma HeadIs(kind: Kind)
    ensures Head(kind) == ("event: " + TypeName(kind)) + "\n" + "data: "
  {
  }

  lemma Regrouped(a: Text, b: Text, c: Text, d: Text)
    ensures (a + b) + c + d == a + (b + c) + d
  {
  }

  /** The three kinds of block events by the text of their frames, as they are read and as they
      are written. */
  lemma {:induction false} FrameIsDecoded(lib: Lib, kind: Kind, data: Text)
    requires '\n' !in data && IsUtf8(data) && (data == "" || data[|data| - 1] != '\r')
    ensures Decode(lib, Head(kind) + data + "\n\n") == ReadBlock(lib, kind, data)
    ensures Encode(ReadBlock(lib, kind, data)) == Head(kind) + data + "\n\n"
  {
    HeadIs(kind);
    hide Head;
    RebuiltIsRead(lib, kind, data);
    Regrouped(("event: " + TypeName(kind)) + "\n", "data: ", data, "\n\n");
  }

  /** An event is passed on as it came when its bytes are not UTF-8, when it lacks a type or data
      and when it is no block event; a block event keeps its data, with the value it parses to. */
  lemma {:induction false} DecodeMeaning(lib: Lib, raw: Text)
    ensures !IsUtf8(raw) || ParseSseEvent(raw).None? ==> Decode(lib, raw) == Other(raw)
    ensures IsUtf8(raw) && ParseSseEvent(raw).Some? ==>
      var (event, data) := ParseSseEvent(raw).value;
      match Decode(lib, raw)
      case Other(same) =>
        same == raw && event !in ["content_block_start", "content_block_delta", "content_block_stop"]
      case Unreadable(kind, same) => same == data && lib.parse(data).None? && IsKind(kind, event)
      case Block(kind, same, value) => same == data && lib.parse(data) == Some(value) && IsKind(kind, event)
  {
  }

  predicate IsKind(kind: Kind, event: Text) {
    match kind
    case Start => event == "content_block_start"
    case Delta => event == "content_block_delta"
    case Stop => event == "content_block_stop"
  }

  // -- The running interceptor ---------------------------------------------

  datatype Frame = Data(bytes: Text) | NoData

  function DataOf(frames: seq<Frame>): Text {
    if frames == [] then ""
    else (if frames[0].Data? then frames[0].bytes else "") + DataOf(frames[1..])
  }

  lemma {:induction false} DataOfSnoc(frames: seq<Frame>, f: Frame)
    ensures DataOf(frames + [f]) == DataOf(frames) + if f.Data? then f.bytes else ""
  {
    if frames != [] {
      assert (frames + [f])[1..] == frames[1..] + [f];
      DataOfSnoc(frames[1..], f);
    }
  }

  /** What arrives at a receiver that closes after `capacity` sends, if it ever closes. */
  function Take<T>(sent: seq<T>, capacity: Option<nat>): seq<T> {
    if capacity.Some? && capacity.value < |sent| then sent[..capacity.value] else sent
  }

  predicate Fits(n: nat, capacity: Option<nat>) {
    capacity.None? || n <= capacity.value
  }

  lemma TakeLonger<T>(sent: seq<T>, longer: seq<T>, capacity: Option<nat>)
    requires sent <= longer && !Fits(|sent|, capacity)
    ensures Take(longer, capacity) == Take(sent, capacity) && !Fits(|longer|, capacity)
  {
  }

  /** The texts of the events sent on for these raw events. */
  function Sends(lib: Lib, dir: bool, routed: seq<Text>): seq<Text> {
    Encodes(Outputs(lib, dir, Decodes(lib, routed)))
  }

  lemma SendsSnoc(lib: Lib, dir: bool, routed: seq<Text>, raw: Text)
    ensures Sends(lib, dir, routed) <= Sends(lib, dir, routed + [raw])
  {
    hide Outputs, Encodes, Decodes;
    RoutedSnoc(lib, dir, routed, raw);
  }

  lemma {:induction false} SendsGrow(lib: Lib, dir: bool, routed: seq<Text>, more: seq<Text>)
    ensures Sends(lib, dir, routed) <= Sends(lib, dir, routed + more)
    decreases |more|
  {
    hide Sends;
    if more == [] {
      assert routed + more == routed;
    } else {
      var front, raw := more[..|more| - 1], more[|more| - 1];
      SendsGrow(lib, dir, routed, front);
      SendsSnoc(lib, dir, routed + front, raw);
      assert (routed + front) + [raw] == routed + more;
    }
  }

  /** Everything sent on for a stream that ended, the unfinished rest included if it ended
      normally. */
  function AllSends(lib: Lib, dir: bool, received: Text, failed: bool): seq<Text> {
    var rest := Residue(received);
    Sends(lib, dir, Frames(received)) + if failed || rest == "" then [] else [rest]
  }

  class Interceptor {
    const lib: Lib
    const sessionDir: bool

    /** How many sends the downstream receiver takes before it closes. */
    const capacity: Option<nat>

    var eventBuffer: Text
    var blockModes: map<nat, BlockMode>
    var nextForwardedIndex: nat
    var thinkingBuffer: string
    var sideLog: seq<string>
    var sent: seq<Text>

    /** All bytes received, and the events taken off the buffer so far. */
    ghost var received: Text
    ghost var routed: seq<Text>

    ghost function Now(): State
      reads this
    {
      State(blockModes, nextForwardedIndex, thinkingBuffer, sideLog)
    }

    /** State and output are those of the event stream routed so far. */
    ghost predicate Synced()
      reads this
    {
      && Now() == Run(lib, sessionDir, Decodes(lib, routed))
      && sent == Take(Sends(lib, sessionDir, routed), capacity)
    }

    /** No send has failed. */
    ghost predicate Open()
      reads this
    {
      Fits(|Sends(lib, sessionDir, routed)|, capacity)
    }

    /** Between frames everything is a function of the bytes received. */
    ghost predicate Valid()
      reads this
    {
      Synced() && Open() && routed == Frames(received) && eventBuffer == Residue(received)
    }

    constructor (lib: Lib, sessionDir: bool, capacity: Option<nat>)
      ensures Valid() && received == ""
      ensures this.lib == lib && this.sessionDir == sessionDir && this.capacity == capacity
    {
      this.lib, this.sessionDir, this.capacity := lib, sessionDir, capacity;
      eventBuffer, blockModes, nextForwardedIndex, thinkingBuffer := "", map[], 0, "";
      sideLog, sent := [], [];
      received, routed := "", [];
    }

    method HandleBlockStart(data: Text) returns (out: Option<Text>)
      modifies `blockModes, `nextForwardedIndex, `thinkingBuffer
      ensures Routes(ReadBlock(lib, Start, data), out)
    {
      var parsed := lib.parse(data);
      if parsed.None? {
        return Some(ReconstructSseEvent("content_block_start", data));
      }
      var value := parsed.value;
      var index := IndexField(value);
      if BlockType(value) == "thinking" {
        blockModes := blockModes[index := Strip];
        thinkingBuffer := "";
        return None;
      }
      var forwardedIndex := nextForwardedIndex;
      nextForwardedIndex := nextForwardedIndex + 1;
      blockModes := blockModes[index := Forward(forwardedIndex)];
      value := WithIndex(value, forwardedIndex);
      return Some(ReconstructSseEvent("content_block_start", lib.render(value)));
    }

    method HandleBlockDelta(data: Text) returns (out: Option<Text>)
      modifies `thinkingBuffer
      ensures Routes(ReadBlock(lib, Delta, data), out)
    {
      var parsed := lib.parse(data);
      if parsed.None? {
        return Some(ReconstructSseEvent("content_block_delta", data));
      }
      var value := parsed.value;
      var index := IndexField(value);
      if index !in blockModes {
        return Some(ReconstructSseEvent("content_block_delta", data));
      }
      match blockModes[index]
      case Strip =>
        thinkingBuffer := thinkingBuffer + ThinkingText(value);
        return None;
      case Forward(newIndex) =>
        value := WithIndex(value, newIndex);
        return Some(ReconstructSseEvent("content_block_delta", lib.render(value)));
    }

    method HandleBlockStop(data: Text) returns (out: Option<Text>)
      modifies `blockModes, `thinkingBuffer, `sideLog
      ensures Routes(ReadBlock(lib, Stop, data), out)
    {
      var parsed := lib.parse(data);
      if parsed.None? {
        return Some(ReconstructSseEvent("content_block_stop", data));
      }
      var value := parsed.value;
      var index := IndexField(value);
      if index !in blockModes {
        return Some(ReconstructSseEvent("content_block_stop", data));
      }
      var mode := blockModes[index];
      blockModes := blockModes - {index};
      match mode
      case Strip =>
        sideLog := WriteThinkingLog(sideLog, sessionDir, thinkingBuffer);
        thinkingBuffer := "";
        return None;
      case Forward(forwardedIndex) =>
        value := WithIndex(value, forwardedIndex);
        return Some(ReconstructSseEvent("content_block_stop", lib.render(value)));
    }

    /** One event was handled as the state machine says. */
    twostate predicate Routes(e: Event, new out: Option<Text>)
      reads this
    {
      var (forwarded, next) := Step(lib, sessionDir, e, old(Now()));
      Now() == next && out == if forwarded.Some? then Some(Encode(forwarded.value)) else None
    }

    method RouteSseEvent(raw: Text) returns (out: Option<Text>)
      modifies `blockModes, `nextForwardedIndex, `thinkingBuffer, `sideLog
      ensures Routes(Decode(lib, raw), out)
    {
      if !IsUtf8(raw) {
        return Some(raw);
      }
      var fields := ParseSseEvent(raw);
      if fields.None? {
        return Some(raw);
      }
      var (eventType, data) := fields.value;
      if eventType == "content_block_start" {
        out := HandleBlockStart(data);
      } else if eventType == "content_block_delta" {
        out := HandleBlockDelta(data);
      } else if eventType == "content_block_stop" {
        out := HandleBlockStop(data);
      } else {
        assert KindOf(eventType).None?;
        out := Some(raw);
      }
    }

    /** `sender.send`, which fails when the receiver has closed. */
    method Send(bytes: Text) returns (ok: bool)
      requires Fits(|sent|, capacity)
      modifies `sent
      ensures ok <==> Fits(|old(sent)| + 1, capacity)
      ensures sent == Take(old(sent) + [bytes], capacity)
    {
      ok := capacity.None? || |sent| < capacity.value;
      if ok {
        sent := sent + [bytes];
      }
    }

    /** Take one complete event off the buffer and send what becomes of it. */
    method RouteFirstEvent(eventEnd: nat) returns (ok: bool)
      requires Synced() && Open() && eventEnd <= |eventBuffer|
      modifies this
      ensures Synced() && received == old(received) && (ok <==> Open())
      ensures routed == old(routed) + [old(eventBuffer[..eventEnd])]
      ensures eventBuffer == old(eventBuffer[eventEnd..])
    {
      var raw := eventBuffer[..eventEnd];
      RoutedSnoc(lib, sessionDir, routed, raw);
      var output := RouteSseEvent(raw);
      eventBuffer := eventBuffer[eventEnd..];
      routed := routed + [raw];
      ok := true;
      if output.Some? {
        ok := Send(output.value);
      }
    }

    /** Take every complete event off the buffer, until a send fails. */
    method RouteCompleteEvents() returns (ok: bool)
      requires Synced() && Open()
      modifies this
      ensures Synced() && received == old(received) && (ok <==> Open())
      ensures ok ==> routed == old(routed) + Frames(old(eventBuffer)) && eventBuffer == Residue(old(eventBuffer))
      ensures routed <= old(routed) + Frames(old(eventBuffer))
    {
      var boundary := FindEventBoundary(eventBuffer);
      while boundary.Some?
        invariant Synced() && Open() && received == old(received)
        invariant boundary == FindEventBoundary(eventBuffer)
        invariant routed + Frames(eventBuffer) == old(routed) + Frames(old(eventBuffer))
        invariant Residue(eventBuffer) == Residue(old(eventBuffer))
        decreases |eventBuffer|
      {
        var eventEnd := boundary.value + 2;
        UnfoldFrames(routed, eventBuffer, eventBuffer[..eventEnd], eventBuffer[eventEnd..]);
        ok := RouteFirstEvent(eventEnd);
        if !ok {
          return false;
        }
        boundary := FindEventBoundary(eventBuffer);
      }
      return true;
    }

    /** One frame of the response body. When a send fails, the events routed are the first
        ones of the stream. */
    method Receive(frame: Frame) returns (ok: bool)
      requires Valid()
      modifies this
      ensures received == old(received) + DataOf([frame])
      ensures ok ==> Valid()
      ensures !ok ==> Synced() && !Open() && routed <= Frames(received)
    {
      assert DataOf([frame]) == (if frame.Data? then frame.bytes else "") + DataOf([]);
      if frame.NoData? {
        assert received == received + DataOf([frame]);
        return true;
      }
      eventBuffer := eventBuffer + frame.bytes;
      FramesSplit(received, frame.bytes);
      ok := RouteCompleteEvents();
      received := received + frame.bytes;
      assert DataOf([frame]) == frame.bytes;
    }

    /** The whole response: frames, and at a normal end the leftover bytes. What arrives is
        what the receiver takes of a text that does not depend on how the body was cut. */
    method Serve(frames: seq<Frame>, failed: bool)
      requires Valid() && received == ""
      modifies this
      ensures sent == Take(AllSends(lib, sessionDir, DataOf(frames), failed), capacity)
      ensures Fits(|Sends(lib, sessionDir, Frames(DataOf(frames)))|, capacity) ==>
        Now() == Run(lib, sessionDir, Decodes(lib, Frames(DataOf(frames))))
    {
      for i := 0 to |frames|
        invariant Valid() && received == DataOf(frames[..i])
      {
        DataOfSnoc(frames[..i], frames[i]);
        assert frames[..i + 1] == frames[..i] + [frames[i]];
        DataOfSnoc([], frames[i]);
        assert [] + [frames[i]] == [frames[i]];
        var ok := Receive(frames[i]);
        if !ok {
          Hangup(frames, i + 1, failed);
          return;
        }
      }
      assert frames[..|frames|] == frames;
      if !failed && eventBuffer != "" {
        var _ := Send(eventBuffer);
      }
    }

    /** After a failed send nothing that is still to come could arrive. */
    ghost method Hangup(frames: seq<Frame>, n: nat, failed: bool)
      requires Synced() && !Open() && n <= |frames| && received == DataOf(frames[..n]) && routed <= Frames(received)
      ensures sent == Take(AllSends(lib, sessionDir, DataOf(frames), failed), capacity)
      ensures !Fits(|Sends(lib, sessionDir, Frames(DataOf(frames)))|, capacity)
    {
      hide AllSends, Sends, Take, Fits, Frames, DataOf;
      DataOfAppend(frames[..n], frames[n..]);
      assert frames[..n] + frames[n..] == frames;
      HangupSends(lib, sessionDir, routed, received, DataOf(frames[n..]), failed, capacity);
    }
  }

  lemma {:induction false} HangupSends(lib: Lib, dir: bool, routed: seq<Text>, received: Text, later: Text,
                                       failed: bool, capacity: Option<nat>)
    requires routed <= Frames(received) && !Fits(|Sends(lib, dir, routed)|, capacity)
    ensures Take(AllSends(lib, dir, received + later, failed), capacity) == Take(Sends(lib, dir, routed), capacity)
    ensures !Fits(|Sends(lib, dir, Frames(received + later))|, capacity)
  {
    hide Frames, Residue, Sends, Take, Fits;
    FramesSplit(received, later);
    var all := Frames(received + later);
    assert routed <= all;
    SendsGrow(lib, dir, routed, all[|routed|..]);
    assert routed + all[|routed|..] == all;
    TakeLonger(Sends(lib, dir, routed), Sends(lib, dir, all), capacity);
    TakeLonger(Sends(lib, dir, all), AllSends(lib, dir, received + later, failed), capacity);
  }

  lemma {:induction false} DataOfAppend(a: seq<Frame>, b: seq<Frame>)
    ensures DataOf(a + b) == DataOf(a) + DataOf(b)
    decreases |a|
  {
    if a == [] {
      assert a + b == b;
    } else {
      assert (a + b)[0] == a[0] && (a + b)[1..] == a[1..] + b;
      DataOfAppend(a[1..], b);
      AppendAssociates(if a[0].Data? then a[0].bytes else "", DataOf(a[1..]), DataOf(b));
    }
  }

  /** The receiver that never closes gets the texts of the filtered events and, unless the stream
      failed, the unfinished rest. */
  lemma {:induction false} AllIsDelivered(lib: Lib, dir: bool, received: Text, failed: bool)
    ensures Flatten(Take(AllSends(lib, dir, received, false), None)) == Delivered(lib, dir, received)
    ensures Flatten(Take(AllSends(lib, dir, received, failed), None)) ==
      Flatten(Encodes(Filtered(lib, Decodes(lib, Frames(received))))) + if failed then "" else Residue(received)
  {
    var rest := Residue(received);
    OutputsAreFiltered(lib, dir, Decodes(lib, Frames(received)));
    FlattenAppend(Sends(lib, dir, Frames(received)), if rest == "" then [] else [rest]);
    assert Sends(lib, dir, Frames(received)) + [] == Sends(lib, dir, Frames(received));
    assert Flatten(Sends(lib, dir, Frames(received))) + "" == Flatten(Sends(lib, dir, Frames(received)));
    assert Flatten([rest]) == rest + "" == rest;
    assert Flatten([]) == "";
  }
}
