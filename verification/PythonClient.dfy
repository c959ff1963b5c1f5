/** The command-line client (examples/sse_server/sse-client.py): what it makes of one received chunk. */
module PythonClient {
  import opened Prelude
  import opened EventStream
  import opened Ansi

  /** Where str.splitlines ends a line. */
  predicate EndsLine(c: char) {
    || '\U{0A}' <= c <= '\U{0D}' || '\U{1C}' <= c <= '\U{1E}' || c == '\U{85}'
    || c == '\U{2028}' || c == '\U{2029}'
  }

  /** What str.strip removes. */
  predicate IsSpace(c: char) {
    || '\U{09}' <= c <= '\U{0D}' || '\U{1C}' <= c <= ' ' || c == '\U{85}' || c == '\U{A0}' || c == '\U{1680}'
    || '\U{2000}' <= c <= '\U{200A}' || c == '\U{2028}' || c == '\U{2029}' || c == '\U{202F}'
    || c == '\U{205F}' || c == '\U{3000}'
  }

  function LineEnd(s: string): (i: nat)
    ensures i <= |s| && (i < |s| ==> EndsLine(s[i]))
    ensures forall k :: 0 <= k < i ==> !EndsLine(s[k])
  {
    if s == "" || EndsLine(s[0]) then 0 else 1 + LineEnd(s[1..])
  }

  /** str.splitlines: a last line without an end counts unless it is empty. */
  function SplitLines(s: string): seq<string>
    decreases |s|
  {
    var i := LineEnd(s);
    if s == "" then []
    else if i == |s| then [s]
    else if s[i] == CR && i + 1 < |s| && s[i + 1] == LF then [s[..i]] + SplitLines(s[i + 2..])
    else [s[..i]] + SplitLines(s[i + 1..])
  }

  function LStrip(s: string): (t: string)
    ensures |t| <= |s|
  {
    if s != "" && IsSpace(s[0]) then LStrip(s[1..]) else s
  }

  function RStrip(s: string): (t: string)
    ensures |t| <= |s|
  {
    if s != "" && IsSpace(s[|s| - 1]) then RStrip(s[..|s| - 1]) else s
  }

  function Strip(s: string): string { RStrip(LStrip(s)) }

  datatype Fields = Fields(typ: Option<string>, data: Option<string>)

  const NOTHING: Fields := Fields(None, None)

  function TakeLine(f: Fields, line: string): Fields {
    var colon := IndexOf(line, ':');
    if Strip(line) == "" || colon == 0 || colon == |line| then f
    else
      var field, value := Strip(line[..colon]), Strip(line[colon + 1..]);
      if field == "event" then f.(typ := Some(value))
      else if field == "data" then f.(data := Some(value))
      else f
  }

  function Fold(f: Fields, lines: seq<string>): Fields
    decreases |lines|
  {
    if lines == [] then f else Fold(TakeLine(f, lines[0]), lines[1..])
  }

  /** The line that is logged for the fields at the end of a chunk, if one is. */
  function Report(f: Fields): Option<string> {
    if f.typ == Some(LOG_LINE) && f.data.Some? && f.data.value != "" then Some(RStrip(StripPython(f.data.value)))
    else None
  }

  lemma {:induction false} FoldSnoc(f: Fields, lines: seq<string>, line: string)
    ensures Fold(f, lines + [line]) == TakeLine(Fold(f, lines), line)
    decreases |lines|
  {
    hide TakeLine;
    if lines == [] {
      assert lines + [line] == [line];
      assert [line][1..] == [];
    } else {
      assert (lines + [line])[1..] == lines[1..] + [line];
      FoldSnoc(TakeLine(f, lines[0]), lines[1..], line);
    }
  }

  /** The loop over the lines of one chunk. */
  method DecodeChunk(chunk: string) returns (logged: Option<string>)
    ensures logged == Report(Fold(NOTHING, SplitLines(chunk)))
  {
    var lines := SplitLines(chunk);
    var eventType: Option<string>, eventData: Option<string> := None, None;
    for i := 0 to |lines|
      invariant Fields(eventType, eventData) == Fold(NOTHING, lines[..i])
    {
      var line := lines[i];
      FoldSnoc(NOTHING, lines[..i], line);
      assert lines[..i + 1] == lines[..i] + [line];
      var colon := IndexOf(line, ':');
      if Strip(line) == "" || colon == 0 {
        continue;
      }
      if colon == |line| {
        continue;
      }
      var field := Strip(line[..colon]);
      if field == "event" {
        eventType := Some(Strip(line[colon + 1..]));
      } else if field == "data" {
        eventData := Some(Strip(line[colon + 1..]));
      }
    }
    assert lines[..|lines|] == lines;
    if eventType == Some(LOG_LINE) {
      if eventData.Some? && eventData.value != "" {
        return Some(RStrip(StripPython(eventData.value)));
      }
    }
    return None;
  }

  // ---------------------------------------------------------------- chunks of whole frames

  /** A frame the server writes whose text this client does not see as several lines. */
  predicate Readable(x: Item) {
    && (x.typ == LOG_LINE || x.typ == KEEPALIVE)
    && forall k :: 0 <= k < |Chomp(x.text)| ==> !EndsLine(x.text[k])
  }

  function Chunk(items: seq<Item>): string {
    if items == [] then "" else Frame(items[0].typ, items[0].text) + Chunk(items[1..])
  }

  lemma FirstLine(line: string, rest: string)
    requires forall k :: 0 <= k < |line| ==> !EndsLine(line[k])
    ensures SplitLines(line + [LF] + rest) == [line] + SplitLines(rest)
  {
    var s := line + [LF] + rest;
    assert s[|line|] == LF;
    assert forall k :: 0 <= k < |line| ==> s[k] == line[k];
    assert LineEnd(s) == |line|;
    assert s[..|line|] == line && s[|line| + 1..] == rest;
  }

  lemma FoldFirst(f: Fields, line: string, rest: string)
    requires forall k :: 0 <= k < |line| ==> !EndsLine(line[k])
    ensures Fold(f, SplitLines(line + [LF] + rest)) == Fold(TakeLine(f, line), SplitLines(rest))
  {
    hide TakeLine;
    FirstLine(line, rest);
    assert ([line] + SplitLines(rest))[1..] == SplitLines(rest);
  }

  lemma {:induction false} RStripKeeps(s: string, k: nat)
    requires k < |s| && !IsSpace(s[k])
    ensures |RStrip(s)| > k && RStrip(s)[k] == s[k]
    decreases |s|
  {
    if IsSpace(s[|s| - 1]) {
      RStripKeeps(s[..|s| - 1], k);
    }
  }

  /** A line "name: value" whose name is a plain word. */
  lemma TakeNamed(f: Fields, name: string, value: string)
    requires name == "event" || name == "data"
    ensures TakeLine(f, name + ": " + value) ==
            if name == "event" then f.(typ := Some(Strip(value))) else f.(data := Some(Strip(value)))
  {
    var line := name + ": " + value;
    var colon := IndexOf(line, ':');
    assert line[|name|] == ':' && forall k :: 0 <= k < |name| ==> line[k] == name[k] && name[k] != ':';
    assert colon == |name|;
    assert line[..colon] == name && line[colon + 1..] == " " + value;
    assert Strip(name) == name;
    RStripKeeps(line, 0);
    assert Strip(line) != "";
    assert (" " + value)[1..] == value;
    assert LStrip(" " + value) == LStrip(value);
  }

  lemma {:induction false} StripIgnoresEnd(s: string)
    ensures Strip(s + [LF]) == Strip(s)
    decreases |s|
  {
    if s == "" {
      assert [LF][1..] == "";
      assert LStrip([LF]) == "";
    } else if IsSpace(s[0]) {
      assert (s + [LF])[1..] == s[1..] + [LF];
      StripIgnoresEnd(s[1..]);
    } else {
      assert (s + [LF])[..|s|] == s;
    }
  }

  /** One frame replaces both fields, whatever was there before. */
  lemma FrameOverwrites(f: Fields, x: Item, rest: string)
    requires Readable(x)
    ensures Fold(f, SplitLines(Frame(x.typ, x.text) + rest)) == Fold(Fields(Some(x.typ), Some(Strip(x.text))), SplitLines(rest))
  {
    hide TakeLine, Strip, Fold, SplitLines;
    var body := Chomp(x.text);
    var head, line := "event: " + x.typ, "data: " + body;
    assert forall k :: 0 <= k < |body| ==> body[k] == x.text[k];
    var tail := if body == x.text then [LF] + rest else [LF] + ([LF] + rest);
    assert Frame(x.typ, x.text) + rest == head + [LF] + (line + [LF] + tail);
    assert head == "event" + ": " + x.typ && line == "data" + ": " + body;
    FoldFirst(f, head, line + [LF] + tail);
    TakeNamed(f, "event", x.typ);
    assert Strip(x.typ) == x.typ by { KnownTypes(); }
    var f1 := f.(typ := Some(x.typ));
    FoldFirst(f1, line, tail);
    TakeNamed(f1, "data", body);
    var f2 := f1.(data := Some(Strip(body)));
    assert Strip(body) == Strip(x.text) by {
      if body != x.text {
        assert x.text == body + [LF];
        StripIgnoresEnd(body);
      }
    }
    SkipBlank(f2, rest);
    if body != x.text {
      SkipBlank(f2, [LF] + rest);
    }
  }

  lemma KnownTypes()
    ensures Strip(LOG_LINE) == LOG_LINE && Strip(KEEPALIVE) == KEEPALIVE
  {
  }

  lemma SkipBlank(f: Fields, rest: string)
    ensures Fold(f, SplitLines([LF] + rest)) == Fold(f, SplitLines(rest))
  {
    FoldFirst(f, "", rest);
    assert "" + [LF] + rest == [LF] + rest;
    assert Strip("") == "";
  }

  /** Of a chunk of whole frames, the client keeps the last one. */
  lemma {:induction false} LastFrameWins(f: Fields, items: seq<Item>)
    requires items != [] && forall x :: x in items ==> Readable(x)
    ensures var x := items[|items| - 1];
            Fold(f, SplitLines(Chunk(items))) == Fields(Some(x.typ), Some(Strip(x.text)))
    decreases |items|
  {
    hide Readable, Fold, SplitLines, Strip, Frame;
    var x, rest := items[0], items[1..];
    assert x in items && Chunk(items) == Frame(x.typ, x.text) + Chunk(rest);
    FrameOverwrites(f, x, Chunk(rest));
    if rest == [] {
      FoldNothing(Fields(Some(x.typ), Some(Strip(x.text))));
    } else {
      LastFrameWins(Fields(Some(x.typ), Some(Strip(x.text))), rest);
    }
  }

  lemma FoldNothing(f: Fields)
    ensures Fold(f, SplitLines("")) == f
  {
  }

  predicate Loggable(x: Item) {
    x.typ == LOG_LINE && Strip(x.text) != ""
  }

  /** What ought to be logged: every log line that is not blank, without its colours. */
  function Expected(items: seq<Item>): seq<string> {
    if items == [] then []
    else
      var x := items[|items| - 1];
      Expected(items[..|items| - 1]) + if Loggable(x) then [RStrip(StripPython(Strip(x.text)))] else []
  }

  lemma {:induction false} ExpectedNothingIff(items: seq<Item>)
    ensures Expected(items) == [] <==> forall x :: x in items ==> !Loggable(x)
    decreases |items|
  {
    hide Loggable;
    if items == [] {
    } else {
      var init, x := items[..|items| - 1], items[|items| - 1];
      assert forall y :: y in items <==> y in init || y == x;
      ExpectedNothingIff(init);
    }
  }

  function Reported(r: Option<string>): seq<string> {
    match r
    case None => []
    case Some(line) => [line]
  }

  lemma ReportOfFrame(x: Item)
    requires Readable(x)
    ensures Reported(Report(Fields(Some(x.typ), Some(Strip(x.text))))) ==
            if Loggable(x) then [RStrip(StripPython(Strip(x.text)))] else []
  {
    hide Strip, StripPython, RStrip;
  }

  /** A chunk of whole frames is logged without loss exactly when no frame but the last carries a
      line worth logging; so a chunk of one frame always is. */
  lemma ChunkIsLosslessIff(items: seq<Item>)
    requires items != [] && forall x :: x in items ==> Readable(x)
    ensures Reported(Report(Fold(NOTHING, SplitLines(Chunk(items))))) == Expected(items)
       <==> forall x :: x in items[..|items| - 1] ==> !Loggable(x)
  {
    hide Readable, Fold, SplitLines, Strip, StripPython, RStrip, Loggable, Report;
    var init, x := items[..|items| - 1], items[|items| - 1];
    assert x in items;
    LastFrameWins(NOTHING, items);
    ExpectedNothingIff(init);
    ReportOfFrame(x);
    assert Expected(items) == Expected(init) + Reported(Report(Fields(Some(x.typ), Some(Strip(x.text)))));
  }

  const RECEIVE_SIZE: nat := 1024
  const DEFAULT_MAX_LENGTH: nat := 256

  /** With the default message length every frame fits one recv. */
  lemma FrameFitsOneReceive(message: string)
    requires |message| <= DEFAULT_MAX_LENGTH
    ensures |LogFrame(DEFAULT_MAX_LENGTH, message)| <= RECEIVE_SIZE
  {
    FramesAreWhole(DEFAULT_MAX_LENGTH, message, 0);
  }
}
