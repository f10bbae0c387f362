/** Framing and text form of server-sent events in `bifrost_proxy`. */
module SseFraming {
  import opened Prelude
  import opened Utf8

  /** Position of the first `\n\n`: `find_event_boundary`. */
  function FindEventBoundary(buffer: Text): (r: Option<nat>)
    ensures r.Some? ==> IsBoundary(buffer, r.value) && forall q: nat :: q < r.value ==> !IsBoundary(buffer, q)
    ensures r.None? ==> forall q: nat :: !IsBoundary(buffer, q)
  {
    if |buffer| < 2 then None
    else if buffer[0] == '\n' && buffer[1] == '\n' then Some(0)
    else
      match FindEventBoundary(buffer[1..])
      case None =>
        assert forall q: nat :: 0 < q && IsBoundary(buffer, q) ==> IsBoundary(buffer[1..], q - 1);
        None
      case Some(p) =>
        assert forall q: nat :: 0 < q && IsBoundary(buffer, q) ==> IsBoundary(buffer[1..], q - 1);
        Some(p + 1)
  }

  predicate IsBoundary(s: Text, p: nat) {
    p + 1 < |s| && s[p] == '\n' && s[p + 1] == '\n'
  }

  /** The complete events of a buffer, each with its closing `\n\n`. */
  function Frames(buffer: Text): seq<Text> {
    match FindEventBoundary(buffer)
    case None => []
    case Some(p) => [buffer[..p + 2]] + Frames(buffer[p + 2..])
  }

  /** The bytes left in a buffer after its complete events. */
  function Residue(buffer: Text): (r: Text)
    ensures FindEventBoundary(r).None?
  {
    match FindEventBoundary(buffer)
    case None => buffer
    case Some(p) => Residue(buffer[p + 2..])
  }

  /** A text that is one complete event: its only boundary is at its end. */
  predicate IsFrame(s: Text) {
    |s| >= 2 && FindEventBoundary(s) == Some(|s| - 2)
  }

  lemma {:induction false} BoundaryIs(s: Text, p: nat)
    requires IsBoundary(s, p)
    requires forall q: nat :: q < p ==> !IsBoundary(s, q)
    ensures FindEventBoundary(s) == Some(p)
  {
  }

  /** Cutting the first event off a buffer. */
  lemma {:induction false} FirstFrame(f: Text, rest: Text)
    requires IsFrame(f)
    ensures Frames(f + rest) == [f] + Frames(rest)
    ensures Residue(f + rest) == Residue(rest)
  {
    var s := f + rest;
    assert forall q: nat :: q <= |f| - 2 ==> (IsBoundary(s, q) <==> IsBoundary(f, q));
    BoundaryIs(s, |f| - 2);
    assert s[..|f|] == f && s[|f|..] == rest;
  }

  lemma FirstFrameOf(buffer: Text) returns (f: Text, rest: Text)
    requires FindEventBoundary(buffer).Some?
    ensures IsFrame(f) && buffer == f + rest
    ensures Frames(buffer) == [f] + Frames(rest) && Residue(buffer) == Residue(rest)
  {
    var p := FindEventBoundary(buffer).value;
    f, rest := buffer[..p + 2], buffer[p + 2..];
    assert forall q: nat :: q <= p ==> (IsBoundary(f, q) <==> IsBoundary(buffer, q));
    BoundaryIs(f, p);
  }

  /** Framing loses no byte. */
  lemma {:induction false} FramesPartition(buffer: Text)
    ensures Flatten(Frames(buffer)) + Residue(buffer) == buffer
    ensures forall f :: f in Frames(buffer) ==> IsFrame(f)
    decreases |buffer|
  {
    if FindEventBoundary(buffer).Some? {
      var f, rest := FirstFrameOf(buffer);
      FramesPartition(rest);
      assert ([f] + Frames(rest))[1..] == Frames(rest);
      assert Flatten([f] + Frames(rest)) == f + Flatten(Frames(rest));
    }
  }

  /** What a cut in the stream changes: nothing. Framing `a` first and then what it left
      followed by `b` gives the events of `a + b`. */
  lemma {:induction false} FramesSplit(a: Text, b: Text)
    ensures Frames(a + b) == Frames(a) + Frames(Residue(a) + b)
    ensures Residue(a + b) == Residue(Residue(a) + b)
    decreases |a|
  {
    if FindEventBoundary(a).Some? {
      var f, rest := FirstFrameOf(a);
      AppendAssociates(f, rest, b);
      FirstFrame(f, rest + b);
      FramesSplit(rest, b);
      AppendAssociates([f], Frames(rest), Frames(Residue(a) + b));
    }
  }

  /** Complete events written one after the other are framed one by one. */
  lemma {:induction false} FramesOfFlatten(frames: seq<Text>, rest: Text)
    requires forall f :: f in frames ==> IsFrame(f)
    ensures Frames(Flatten(frames) + rest) == frames + Frames(rest)
    ensures Residue(Flatten(frames) + rest) == Residue(rest)
  {
    if frames == [] {
      assert Flatten(frames) + rest == rest;
    } else {
      var first, later := frames[0], frames[1..];
      AppendAssociates(first, Flatten(later), rest);
      FirstFrame(first, Flatten(later) + rest);
      FramesOfFlatten(later, rest);
      AppendAssociates([first], later, Frames(rest));
      HeadAndTail(frames);
    }
  }

  /** Framing of a stream that arrives in chunks: each chunk is appended to what the
      earlier ones left, and the complete events are taken off. */
  function FramesOfChunks(chunks: seq<Text>, buffer: Text): (seq<Text>, Text) {
    if chunks == [] then ([], buffer)
    else
      var (frames, rest) := FramesOfChunks(chunks[1..], Residue(buffer + chunks[0]));
      (Frames(buffer + chunks[0]) + frames, rest)
  }

  lemma {:induction false} FramesOfChunksIsWhole(chunks: seq<Text>, buffer: Text)
    requires FindEventBoundary(buffer).None?
    ensures FramesOfChunks(chunks, buffer) == (Frames(buffer + Flatten(chunks)), Residue(buffer + Flatten(chunks)))
  {
    if chunks == [] {
      assert buffer + Flatten(chunks) == buffer;
    } else {
      var whole, later := buffer + chunks[0], chunks[1..];
      AppendAssociates(buffer, chunks[0], Flatten(later));
      FramesSplit(whole, Flatten(later));
      FramesOfChunksIsWhole(later, Residue(whole));
    }
  }

  /** Two ways of cutting one byte stream give the same events and the same leftover. */
  lemma {:induction false} ChunkingIndependence(a: seq<Text>, b: seq<Text>)
    requires Flatten(a) == Flatten(b)
    ensures FramesOfChunks(a, "") == FramesOfChunks(b, "")
    ensures FindEventBoundary(FramesOfChunks(a, "").1).None?
  {
    FramesOfChunksIsWhole(a, "");
    FramesOfChunksIsWhole(b, "");
  }

  // -- Text of one event ---------------------------------------------------

  /** The last `event: ` line (trimmed) and the last `data: ` line seen so far. */
  datatype Fields = Fields(eventType: Option<Text>, data: Option<Text>)

  function ReadLine(line: Text, fields: Fields): Fields {
    match StripPrefix(line, "event: ")
    case Some(rest) => fields.(eventType := Some(Trim(rest, Ascii)))
    case None =>
      match StripPrefix(line, "data: ")
      case Some(rest) => fields.(data := Some(rest))
      case None => fields
  }

  function ReadLines(lines: seq<Text>, fields: Fields): Fields {
    if lines == [] then fields else ReadLines(lines[1..], ReadLine(lines[0], fields))
  }

  /** `parse_sse_event`: both fields must be present. */
  function ParseSseEvent(raw: Text): Option<(Text, Text)> {
    var fields := ReadLines(Lines(raw), Fields(None, None));
    if fields.eventType.Some? && fields.data.Some?
    then Some((fields.eventType.value, fields.data.value))
    else None
  }

  /** `reconstruct_sse_event`. */
  function ReconstructSseEvent(eventType: Text, data: Text): Text {
    ("event: " + eventType) + "\n" + ("data: " + data) + "\n\n"
  }

  /** Data that survives a line: no line feed inside, no carriage return at the end. */
  predicate IsSingleLine(data: Text) {
    '\n' !in data && (data == "" || data[|data| - 1] != '\r')
  }

  lemma {:induction false} LinesHoldNoFeed(s: Text)
    ensures forall line :: line in Lines(s) ==> '\n' !in line
    decreases |s|
  {
    var k := IndexOf(s, '\n');
    if s != "" && k < |s| {
      LinesHoldNoFeed(s[k + 1..]);
    }
  }

  /** Lines hold no line feed and, of a UTF-8 text, are UTF-8; so is the data read from them. */
  lemma {:induction false} DataOfLines(lines: seq<Text>, fields: Fields)
    requires forall line :: line in lines ==> '\n' !in line && IsUtf8(line)
    requires fields.data.Some? ==> '\n' !in fields.data.value && IsUtf8(fields.data.value)
    ensures var data := ReadLines(lines, fields).data; data.Some? ==> '\n' !in data.value && IsUtf8(data.value)
    decreases |lines|
  {
    if lines != [] {
      assert lines[0] in lines;
      if StripPrefix(lines[0], "data: ").Some? {
        WithoutAsciiStart("data: ", StripPrefix(lines[0], "data: ").value);
      }
      DataOfLines(lines[1..], ReadLine(lines[0], fields));
    }
  }

  // -- What is read of an event --------------------------------------------

  /** What follows the prefix in the last line that starts with it. */
  function LastWith(lines: seq<Text>, prefix: Text): Option<Text> {
    if lines == [] then None
    else
      var last := lines[|lines| - 1];
      if prefix <= last then Some(last[|prefix|..]) else LastWith(lines[..|lines| - 1], prefix)
  }

  lemma {:induction false} ReadLinesLast(lines: seq<Text>, fields: Fields)
    requires lines != []
    ensures ReadLines(lines, fields) == ReadLine(lines[|lines| - 1], ReadLines(lines[..|lines| - 1], fields))
    decreases |lines|
  {
    if |lines| > 1 {
      assert lines[1..][..|lines| - 2] == lines[..|lines| - 1][1..];
      ReadLinesLast(lines[1..], ReadLine(lines[0], fields));
    } else {
      assert lines[..0] == [] && lines[1..] == [];
    }
  }

  lemma {:induction false} LastLinesAreRead(lines: seq<Text>)
    ensures var fields := ReadLines(lines, Fields(None, None));
      && fields.data == LastWith(lines, "data: ")
      && (fields.eventType.Some? <==> LastWith(lines, "event: ").Some?)
      && (fields.eventType.Some? ==> fields.eventType.value == Trim(LastWith(lines, "event: ").value, Ascii))
  {
    if lines != [] {
      var last := lines[|lines| - 1];
      ReadLinesLast(lines, Fields(None, None));
      LastLinesAreRead(lines[..|lines| - 1]);
      assert "event: " <= last ==> last[0] == 'e';
      assert "data: " <= last ==> last[0] == 'd';
    }
  }

  /** An event has a type and data exactly when some line starts with `event: ` and some with
      `data: `; the last of each counts, and of the type white space at both ends is dropped. */
  lemma {:induction false} ParseMeaning(raw: Text)
    ensures var event, data := LastWith(Lines(raw), "event: "), LastWith(Lines(raw), "data: ");
      ParseSseEvent(raw) ==
        if event.Some? && data.Some? then Some((Trim(event.value, Ascii), data.value)) else None
  {
    LastLinesAreRead(Lines(raw));
  }

  lemma LoneLineFeed()
    ensures Lines("\n") == [""]
  {
    assert "" + "\n" + "" == "\n";
    LinesCons("", "");
  }

  lemma EndOfTwoLines(first: Text, second: Text, end: Text, feed: Text)
    requires end == feed + feed
    ensures first + feed + second + end == first + feed + (second + feed + feed)
  {
    AppendAssociates(first + feed, second, end);
    AppendAssociates(second, feed, feed);
  }

  lemma {:induction false} LinesOfTwo(first: Text, second: Text, rest: Text)
    requires '\n' !in first && '\n' !in second
    ensures Lines(first + "\n" + (second + "\n" + rest)) ==
            [StripCarriageReturn(first)] + ([StripCarriageReturn(second)] + Lines(rest))
  {
    LinesCons(second, rest);
    LinesCons(first, second + "\n" + rest);
  }

  lemma {:induction false} TwoLines(first: Text, second: Text)
    requires '\n' !in first && '\n' !in second
    ensures Lines(first + "\n" + second + "\n\n") == [StripCarriageReturn(first), StripCarriageReturn(second), ""]
  {
    hide Lines, StripCarriageReturn;
    EndOfTwoLines(first, second, "\n\n", "\n");
    LinesOfTwo(first, second, "\n");
    LoneLineFeed();
  }

  lemma EventLine(eventType: Text, fields: Fields)
    requires IsTrimmed(eventType, Ascii)
    ensures ReadLine("event: " + eventType, fields) == fields.(eventType := Some(eventType))
  {
    assert ("event: " + eventType)[7..] == eventType;
    assert "" + eventType + "" == eventType;
    TrimPadded("", eventType, "", Ascii);
  }

  lemma DataLine(data: Text, fields: Fields)
    ensures ReadLine("data: " + data, fields) == fields.(data := Some(data))
  {
    assert ("data: " + data)[6..] == data;
    assert ("data: " + data)[0] == 'd';
  }

  lemma {:induction false} ReadTwoLines(first: Text, second: Text, fields: Fields)
    ensures ReadLines([first, second, ""], fields) == ReadLine(second, ReadLine(first, fields))
  {
    var f1 := ReadLine(first, fields);
    var f2 := ReadLine(second, f1);
    assert [first, second, ""][1..] == [second, ""] && [second, ""][1..] == [""];
    assert ReadLines([""], f2) == ReadLines([], ReadLine("", f2)) == f2;
    assert ReadLines([second, ""], f1) == f2;
  }

  /** A rebuilt event reads back as its type and its data without a last carriage return; so
      as the data it was built from exactly when that is a single line. */
  lemma RebuiltEventParses(eventType: Text, data: Text)
    requires IsTrimmed(eventType, Ascii) && '\n' !in eventType && '\n' !in data
    ensures ParseSseEvent(ReconstructSseEvent(eventType, data)) == Some((eventType, StripCarriageReturn(data)))
    ensures StripCarriageReturn(data) == data <==> IsSingleLine(data)
  {
    var first, second := "event: " + eventType, "data: " + data;
    assert first[|first| - 1] == eventType[|eventType| - 1];
    StripLabel(data);
    TwoLines(first, second);
    EventLine(eventType, Fields(None, None));
    DataLine(StripCarriageReturn(data), Fields(Some(eventType), None));
    ReadTwoLines(first, StripCarriageReturn(second), Fields(None, None));
  }

  lemma StripLabel(data: Text)
    ensures StripCarriageReturn("data: " + data) == "data: " + StripCarriageReturn(data)
  {
    var line := "data: " + data;
    if data == "" {
      assert line == "data: ";
    } else {
      assert line[|line| - 1] == data[|data| - 1];
      assert line[..|line| - 1] == "data: " + data[..|data| - 1];
    }
  }

  lemma ReconstructedData(eventType: Text, a: Text, b: Text)
    requires ReconstructSseEvent(eventType, a) == ReconstructSseEvent(eventType, b)
    ensures a == b
  {
    var s, start := ReconstructSseEvent(eventType, a), 14 + |eventType|;
    assert |s| == start + |a| + 2 && |s| == start + |b| + 2;
    assert s[start..|s| - 2] == a && s[start..|s| - 2] == b;
  }

  /** A rebuilt event is exactly one frame. */
  lemma RebuiltEventIsFrame(eventType: Text, data: Text)
    requires eventType != "" && '\n' !in eventType && '\n' !in data
    ensures IsFrame(ReconstructSseEvent(eventType, data))
  {
    var s := ReconstructSseEvent(eventType, data);
    var cut := 7 + |eventType|;
    assert s[cut] == '\n' && s[cut + 1] == 'd';
    assert s[7..cut] == eventType && s[cut + 7..|s| - 2] == data;
    forall q: nat | q < |s| - 2
      ensures !IsBoundary(s, q)
    {
      if q < 7 {
      } else if q < cut {
        assert s[q] == eventType[q - 7];
      } else if q < cut + 7 {
        assert s[cut..cut + 7] == "\ndata: ";
      } else {
        assert s[q] == data[q - cut - 7];
      }
    }
    assert IsBoundary(s, |s| - 2);
    BoundaryIs(s, |s| - 2);
  }
}
