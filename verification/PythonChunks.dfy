/** The command-line client (examples/sse_server/sse-client.py) on a stream that recv() cuts anywhere:
    a frame in two pieces, and any chunks. */
module PythonChunks {
  import opened Prelude
  import opened EventStream
  import opened Ansi
  import opened PythonClient

  // ---------------------------------------------------------------- a frame cut in two

  /** A line and the line ends behind it. */
  lemma {:induction false} FoldLineTail(f: Fields, line: string, tail: string)
    requires forall k :: 0 <= k < |line| ==> !EndsLine(line[k])
    requires forall k :: 0 <= k < |tail| ==> tail[k] == LF
    ensures Fold(f, SplitLines(line + tail)) == TakeLine(f, line)
    decreases |tail|
  {
    if tail == "" {
      assert line + tail == line && LineEnd(line) == |line|;
      if line == "" {
        SkipBlankLine(f);
      } else {
        assert SplitLines(line) == [line] && [line][1..] == [];
      }
    } else {
      assert line + tail == line + [LF] + tail[1..];
      FoldFirst(f, line, tail[1..]);
      FoldLineTail(TakeLine(f, line), "", tail[1..]);
      assert "" + tail[1..] == tail[1..];
      SkipBlankLine(TakeLine(f, line));
    }
  }

  lemma SkipBlankLine(f: Fields)
    ensures TakeLine(f, "") == f && Fold(f, SplitLines("")) == f
  {
    assert Strip("") == "";
  }

  /** One line sets at most one of the two fields. */
  lemma OneLineReportsNothing(line: string)
    ensures Report(TakeLine(NOTHING, line)) == None
  {
    hide Strip, StripPython, RStrip;
  }

  const HEAD: string := EVENT_LINE + LOG_LINE

  /** Where the text begins in the frame of a log line. */
  const TEXT_START: nat := 22

  /** The frame of a log line: its event line, its data line, and two or three line ends. */
  lemma FrameParts(text: string) returns (data: string, tail: string)
    requires Readable(Item(LOG_LINE, text))
    ensures Frame(LOG_LINE, text) == HEAD + [LF] + (data + tail) && |HEAD| == 15
    ensures data == DATA_LINE + Chomp(text) && |DATA_LINE| == 6
    ensures forall k :: 0 <= k < |HEAD| ==> !EndsLine(HEAD[k])
    ensures forall k :: 0 <= k < |data| ==> !EndsLine(data[k])
    ensures forall k :: 0 <= k < |tail| ==> tail[k] == LF
  {
    var body := Chomp(text);
    data, tail := DATA_LINE + body, if body == text then [LF, LF] else [LF, LF, LF];
    assert text + [LF, LF] == body + tail;
    assert forall k :: 0 <= k < |body| ==> body[k] == text[k];
  }

  lemma TakeHead(f: Fields)
    ensures TakeLine(f, HEAD) == f.(typ := Some(LOG_LINE))
  {
    hide TakeLine, Strip;
    assert HEAD == "event" + ": " + LOG_LINE;
    TakeNamed(f, "event", LOG_LINE);
    KnownTypes();
  }

  /** The end of an event line is not one. */
  lemma HeadSuffix(k: nat)
    requires 0 < k <= |HEAD|
    ensures TakeLine(NOTHING, HEAD[k..]).typ == None
  {
    var line := HEAD[k..];
    var colon := IndexOf(line, ':');
    if k <= 5 {
      assert line[5 - k] == ':';
      assert colon <= 5 - k;
      assert |Strip(line[..colon])| < |"event"|;
    } else {
      assert forall j :: 0 <= j < |line| ==> line[j] != ':' by {
        assert forall j :: 0 <= j < |line| ==> line[j] == HEAD[k + j];
      }
      assert colon == |line|;
    }
  }

  /** The beginning of a data line before its text. */
  lemma DataPrefix(j: nat)
    requires j < |DATA_LINE|
    ensures Report(TakeLine(Fields(Some(LOG_LINE), None), DATA_LINE[..j])) == None
  {
    var line := DATA_LINE[..j];
    var colon := IndexOf(line, ':');
    assert forall i :: 0 <= i < j ==> line[i] == DATA_LINE[i];
    if j < 5 {
      assert colon == |line|;
    } else {
      assert line[4] == ':' && colon == 4;
      assert line[5..] == "" && Strip("") == "";
      hide StripPython, RStrip;
    }
  }

  /** As much of the text as the first k bytes of its frame contain. */
  function Begun(text: string, k: nat): string
    requires k >= TEXT_START
  {
    var body := Chomp(text);
    if k - TEXT_START < |body| then body[..k - TEXT_START] else body
  }

  /** What is logged when the first piece of a cut frame is read. */
  lemma FirstPiece(text: string, k: nat)
    requires Readable(Item(LOG_LINE, text)) && k <= |Frame(LOG_LINE, text)|
    ensures Report(Fold(NOTHING, SplitLines(Frame(LOG_LINE, text)[..k]))) ==
            if k < TEXT_START then None else Report(Fields(Some(LOG_LINE), Some(Strip(Begun(text, k)))))
  {
    hide TakeLine, Fold, SplitLines, Strip, Frame, Report, Chomp;
    var data, tail := FrameParts(text);
    var frame := Frame(LOG_LINE, text);
    if k <= |HEAD| {
      assert frame[..k] == HEAD[..k] + "";
      FoldLineTail(NOTHING, HEAD[..k], "");
      OneLineReportsNothing(HEAD[..k]);
    } else {
      var j := k - |HEAD| - 1;
      var line := if j < |data| then data[..j] else data;
      var rest := if j < |data| then "" else tail[..j - |data|];
      var f := Fields(Some(LOG_LINE), None);
      assert frame[..k] == HEAD + [LF] + (line + rest);
      FoldFirst(NOTHING, HEAD, line + rest);
      TakeHead(NOTHING);
      FoldLineTail(f, line, rest);
      if k < TEXT_START {
        assert line == DATA_LINE[..j];
        DataPrefix(j);
      } else {
        assert line == "data" + ": " + Begun(text, k);
        TakeNamed(f, "data", Begun(text, k));
      }
    }
  }

  /** The second piece is never logged. */
  lemma SecondPiece(text: string, k: nat)
    requires Readable(Item(LOG_LINE, text)) && 0 < k <= |Frame(LOG_LINE, text)|
    ensures Report(Fold(NOTHING, SplitLines(Frame(LOG_LINE, text)[k..]))) == None
  {
    hide TakeLine, Fold, SplitLines, Strip, Frame, Chomp;
    var data, tail := FrameParts(text);
    var frame := Frame(LOG_LINE, text);
    if k <= |HEAD| {
      assert frame[k..] == HEAD[k..] + [LF] + (data + tail);
      FoldFirst(NOTHING, HEAD[k..], data + tail);
      HeadSuffix(k);
      var f := TakeLine(NOTHING, HEAD[k..]);
      FoldLineTail(f, data, tail);
      assert data == "data" + ": " + Chomp(text);
      TakeNamed(f, "data", Chomp(text));
    } else {
      var j := k - |HEAD| - 1;
      var line := if j < |data| then data[j..] else "";
      var rest := if j < |data| then tail else tail[j - |data|..];
      assert frame[k..] == line + rest;
      FoldLineTail(NOTHING, line, rest);
      OneLineReportsNothing(line);
    }
  }

  /** What is logged of a frame that arrives in two chunks. */
  function LoggedOfPieces(text: string, k: nat): seq<string>
    requires k <= |Frame(LOG_LINE, text)|
  {
    var frame := Frame(LOG_LINE, text);
    Reported(Report(Fold(NOTHING, SplitLines(frame[..k])))) + Reported(Report(Fold(NOTHING, SplitLines(frame[k..]))))
  }

  /** A frame cut anywhere: nothing is logged when the cut lies before its text, the beginning of the
      text when it lies inside, and the whole line when it lies behind. */
  lemma SplitFrame(text: string, k: nat)
    requires Readable(Item(LOG_LINE, text)) && 0 < k < |Frame(LOG_LINE, text)|
    ensures LoggedOfPieces(text, k) == if k < TEXT_START then [] else Expected([Item(LOG_LINE, Begun(text, k))])
    ensures k >= TEXT_START + |Chomp(text)| ==> LoggedOfPieces(text, k) == Expected([Item(LOG_LINE, text)])
  {
    hide Fold, SplitLines, Strip, StripPython, RStrip, Report, Frame, Chomp, Reported, Expected;
    FirstPiece(text, k);
    SecondPiece(text, k);
    assert Reported(None) == [] by { NothingReported(); }
    if k >= TEXT_START {
      ReadableBegun(text, k);
      ReportOfFrame(Item(LOG_LINE, Begun(text, k)));
      ExpectedOne(Item(LOG_LINE, Begun(text, k)));
    }
    if k >= TEXT_START + |Chomp(text)| {
      ExpectedOne(Item(LOG_LINE, text));
      StripChomp(text);
    }
  }

  lemma NothingReported()
    ensures Reported(None) == []
  {
  }

  lemma ExpectedOne(x: Item)
    ensures Expected([x]) == if Loggable(x) then [RStrip(StripPython(Strip(x.text)))] else []
  {
    hide Strip, StripPython, RStrip, Loggable;
    assert [x][..0] == [] && Expected([]) == [];
  }

  lemma ReadableBegun(text: string, k: nat)
    requires Readable(Item(LOG_LINE, text)) && k >= TEXT_START
    ensures Readable(Item(LOG_LINE, Begun(text, k)))
  {
    assert forall j :: 0 <= j < |Begun(text, k)| ==> Begun(text, k)[j] == text[j];
  }

  lemma StripChomp(text: string)
    ensures Strip(Chomp(text)) == Strip(text)
  {
    if Chomp(text) != text {
      assert text == Chomp(text) + [LF];
      StripIgnoresEnd(Chomp(text));
    }
  }

  // ---------------------------------------------------------------- which cuts are harmless

  predicate Blank(s: string) {
    forall k :: 0 <= k < |s| ==> IsSpace(s[k])
  }

  lemma {:induction false} LStripAppend(p: string, r: string)
    ensures LStrip(p + r) == if Blank(p) then LStrip(r) else LStrip(p) + r
    ensures Blank(p) <==> LStrip(p) == ""
    decreases |p|
  {
    if p == "" {
      assert p + r == r;
    } else if IsSpace(p[0]) {
      assert (p + r)[1..] == p[1..] + r;
      LStripAppend(p[1..], r);
      assert Blank(p) <==> Blank(p[1..]) by {
        assert forall k :: 0 < k < |p| ==> p[k] == p[1..][k - 1];
      }
    }
  }

  lemma {:induction false} RStripAppend(p: string, r: string)
    ensures RStrip(p + r) == if Blank(r) then RStrip(p) else p + RStrip(r)
    ensures Blank(r) <==> RStrip(r) == ""
    decreases |r|
  {
    if r == "" {
      assert p + r == p;
    } else {
      var n := |r| - 1;
      assert (p + r)[|p + r| - 1] == r[n];
      if IsSpace(r[n]) {
        assert (p + r)[..|p + r| - 1] == p + r[..n];
        RStripAppend(p, r[..n]);
      }
    }
  }

  /** What is appended to a text shows, unless it is blank. */
  lemma StripAppend(p: string, r: string)
    ensures Strip(p + r) == Strip(p) <==> Blank(r)
    ensures Strip(p) == "" <==> Blank(p)
    ensures RStrip(Strip(p)) == Strip(p)
  {
    LStripAppend(p, r);
    LStripAppend(p, "");
    RStripAppend("", LStrip(p));
    assert "" + LStrip(p) == LStrip(p);
    FirstNotBlank(p);
    RStripTwice(LStrip(p));
    if Blank(p) {
      assert Strip(p) == "";
      LStripAppend(r, "");
      FirstNotBlank(r);
      RStripAppend("", LStrip(r));
      assert "" + LStrip(r) == LStrip(r);
    } else {
      RStripAppend(LStrip(p), r);
    }
  }

  lemma {:induction false} FirstNotBlank(s: string)
    ensures LStrip(s) != "" ==> !IsSpace(LStrip(s)[0])
    decreases |s|
  {
    if s != "" && IsSpace(s[0]) {
      FirstNotBlank(s[1..]);
    }
  }

  lemma {:induction false} RStripTwice(s: string)
    ensures RStrip(RStrip(s)) == RStrip(s)
    decreases |s|
  {
    if s != "" && IsSpace(s[|s| - 1]) {
      RStripTwice(s[..|s| - 1]);
    }
  }

  lemma {:induction false} StripIsPart(s: string)
    ensures forall c :: c in Strip(s) ==> c in s
  {
    LStripIsPart(s);
    RStripIsPart(LStrip(s));
  }

  lemma {:induction false} LStripIsPart(s: string)
    ensures forall c :: c in LStrip(s) ==> c in s
    decreases |s|
  {
    if s != "" && IsSpace(s[0]) { LStripIsPart(s[1..]); }
  }

  lemma {:induction false} RStripIsPart(s: string)
    ensures forall c :: c in RStrip(s) ==> c in s
    decreases |s|
  {
    if s != "" && IsSpace(s[|s| - 1]) { RStripIsPart(s[..|s| - 1]); }
  }

  /** What is logged of a line that is worth it. */
  function Clean(text: string): string { RStrip(StripPython(Strip(text))) }

  /** The characters a line of this client can contain. */
  predicate WithinLine(s: string) {
    forall k :: 0 <= k < |s| ==> !EndsLine(s[k])
  }

  /** A blank inside a line is neither a control character nor the end of a sequence. */
  lemma BlankIsPlain(c: char)
    requires IsSpace(c) && !EndsLine(c)
    ensures !IsControl(c) && !IsFinal(c)
  {
  }

  lemma {:induction false} LStripStray(t: string)
    requires WithinLine(t)
    ensures (Stray(LStrip(t)) <==> Stray(t)) && WithinLine(LStrip(t))
    decreases |t|
  {
    if t != "" && IsSpace(t[0]) {
      BlankIsPlain(t[0]);
      LStripStray(t[1..]);
      MatchConcat([t[0]], t[1..]);
      assert [t[0]] + t[1..] == t;
    }
  }

  lemma {:induction false} RStripStray(u: string)
    requires WithinLine(u)
    ensures (Stray(RStrip(u)) <==> Stray(u)) && WithinLine(RStrip(u))
    ensures !Stray(u) ==> RStrip(StripPython(RStrip(u))) == RStrip(StripPython(u))
    decreases |u|
  {
    hide StripPython, Stray;
    if u != "" && IsSpace(u[|u| - 1]) {
      var v, c := u[..|u| - 1], u[|u| - 1];
      BlankIsPlain(c);
      RStripStray(v);
      assert u == v + [c];
      if !Stray(v) {
        StripConcat(v, [c]);
        OneBlank(c);
        RStripAppend(StripPython(v), [c]);
      }
      if !Stray(u) {
        LastOutside(u);
      }
    }
  }

  lemma OneBlank(c: char)
    requires !IsControl(c)
    ensures !Stray([c]) && StripPython([c]) == [c]
  {
    assert MatchLength([c]) == 0 && [c][1..] == "";
  }

  /** Blanks around a line without stray control characters are no part of its sequences. */
  lemma CleanWhole(t: string)
    requires WithinLine(t) && !Stray(t)
    ensures Clean(t) == RStrip(StripPython(LStrip(t))) && !Stray(LStrip(t)) && !Stray(Strip(t))
  {
    LStripStray(t);
    RStripStray(LStrip(t));
  }

  /** Appending to a line changes what is logged, unless only blanks and sequences are appended. */
  lemma CleanAppend(p: string, r: string)
    requires WithinLine(p + r) && !Stray(p) && !Stray(p + r) && !Blank(p)
    ensures Clean(p + r) == Clean(p) <==> Blank(StripPython(r))
  {
    hide Stray, StripPython, Clean;
    assert WithinLine(p) by { assert forall k :: 0 <= k < |p| ==> p[k] == (p + r)[k]; }
    CleanWhole(p + r);
    CleanWhole(p);
    LStripAppend(p, r);
    StripConcat(LStrip(p), r);
    RStripAppend(StripPython(LStrip(p)), StripPython(r));
  }

  /** A stray control character is logged. */
  lemma StrayIsLogged(p: string)
    requires WithinLine(p) && Stray(p)
    ensures Strip(p) != "" && exists c :: c in Clean(p) && IsControl(c)
  {
    LStripStray(p);
    RStripStray(LStrip(p));
    ControlLeftIff(Strip(p));
    var t := StripPython(Strip(p));
    var c :| c in t && IsControl(c);
    var k :| 0 <= k < |t| && t[k] == c;
    StripIsPart(p);
    StripPythonIsPart(Strip(p));
    assert c in p && !EndsLine(c);
    hide StripPython, Strip;
    if IsSpace(c) {
      BlankIsPlain(c);
    } else {
      RStripKeeps(t, k);
      assert RStrip(t)[k] == c;
    }
  }

  lemma {:induction false} StripPythonIsPart(s: string)
    ensures forall c :: c in StripPython(s) ==> c in s
    decreases |s|
  {
    hide MatchLength;
    if s != "" {
      StripPythonIsPart(s[if MatchLength(s) > 0 then MatchLength(s) else 1..]);
    }
  }

  lemma NoStrayIsLogged(t: string)
    requires WithinLine(t) && !Stray(t)
    ensures forall c :: c in Clean(t) ==> !IsControl(c)
  {
    CleanWhole(t);
    ControlLeftIff(Strip(t));
    RStripIsPart(StripPython(Strip(t)));
  }

  /** What the two pieces of a line have to be for the first to be logged like the whole. */
  lemma CutIsLosslessIff(p: string, r: string)
    requires WithinLine(p + r) && !Stray(p + r) && !Blank(p + r)
    ensures Strip(p) != "" && Clean(p) == Clean(p + r) <==> !Blank(p) && !Stray(p) && Blank(StripPython(r))
  {
    hide Stray, StripPython, Clean, Strip;
    assert WithinLine(p) by { assert forall k :: 0 <= k < |p| ==> p[k] == (p + r)[k]; }
    StripAppend(p, "");
    if Stray(p) {
      StrayIsLogged(p);
      NoStrayIsLogged(p + r);
    } else if !Blank(p) {
      CleanAppend(p, r);
    }
  }

  /** A text, and what is logged of it, without the line end behind it. */
  lemma BodyOf(text: string)
    requires Readable(Item(LOG_LINE, text)) && !Stray(text)
    ensures WithinLine(Chomp(text)) && !Stray(Chomp(text)) && Strip(Chomp(text)) == Strip(text)
    ensures Blank(Chomp(text)) <==> Blank(text)
  {
    var body := Chomp(text);
    assert forall k :: 0 <= k < |body| ==> body[k] == text[k];
    StripChomp(text);
    StripAppend(body, "");
    StripAppend(text, "");
    if body != text {
      LastOutside(text);
    }
  }

  /** A cut frame is logged without loss, for a text without stray control characters, if and only if
      the text is blank, or the cut lies behind its first visible character, not inside a sequence,
      and there are only blanks and sequences behind it. */
  lemma SplitIsLosslessIff(text: string, k: nat)
    requires Readable(Item(LOG_LINE, text)) && !Stray(text) && 0 < k < |Frame(LOG_LINE, text)|
    ensures LoggedOfPieces(text, k) == Expected([Item(LOG_LINE, text)])
       <==> Blank(text)
            || (k >= TEXT_START && !Blank(Begun(text, k)) && !Stray(Begun(text, k))
                && Blank(StripPython(Chomp(text)[|Begun(text, k)|..])))
  {
    hide LoggedOfPieces, Expected, Strip, Frame, Stray, StripPython, Clean, Chomp;
    SplitFrame(text, k);
    BodyOf(text);
    ExpectedClean(text);
    StripAppend(text, "");
    if k >= TEXT_START {
      var p := Begun(text, k);
      var r := Chomp(text)[|p|..];
      assert p + r == Chomp(text);
      ExpectedClean(p);
      StripAppend(p, "");
      if Blank(text) {
        StripAppend(p, r);
        assert Blank(p) by { assert forall j :: 0 <= j < |p| ==> p[j] == Chomp(text)[j]; }
      } else {
        CutIsLosslessIff(p, r);
        assert Clean(Chomp(text)) == Clean(text) by { SameClean(Chomp(text), text); }
      }
    }
  }

  lemma SameClean(s: string, t: string)
    requires Strip(s) == Strip(t)
    ensures Clean(s) == Clean(t)
  {
  }

  lemma ExpectedClean(text: string)
    ensures Expected([Item(LOG_LINE, text)]) == if Strip(text) != "" then [Clean(text)] else []
  {
    ExpectedOne(Item(LOG_LINE, text));
    hide Strip, StripPython, RStrip, Expected;
  }

  function Visible(n: nat): (text: string)
    ensures |text| == n && forall k :: 0 <= k < n ==> text[k] == 'x'
  {
    seq(n, _ => 'x')
  }

  lemma {:induction false} VisibleIsPlain(s: string)
    requires forall k :: 0 <= k < |s| ==> s[k] == 'x'
    ensures !Stray(s) && StripPython(s) == s
    decreases |s|
  {
    if s != "" {
      assert MatchLength(s) == 0;
      VisibleIsPlain(s[1..]);
      assert s == [s[0]] + s[1..];
    }
  }

  /** The cuts that are harmless for every text of n characters are those behind the text. */
  lemma HarmlessCutIff(n: nat, k: nat)
    requires n > 0 && k > 0
    ensures (forall text :: |text| == n && Readable(Item(LOG_LINE, text)) && k < |Frame(LOG_LINE, text)| ==>
               LoggedOfPieces(text, k) == Expected([Item(LOG_LINE, text)]))
       <==> k >= TEXT_START + n
  {
    hide LoggedOfPieces, Expected;
    if k >= TEXT_START + n {
      forall text | |text| == n && Readable(Item(LOG_LINE, text)) && k < |Frame(LOG_LINE, text)|
        ensures LoggedOfPieces(text, k) == Expected([Item(LOG_LINE, text)])
      {
        SplitFrame(text, k);
      }
    } else {
      var text := Visible(n);
      assert Chomp(text) == text && Readable(Item(LOG_LINE, text));
      assert |Frame(LOG_LINE, text)| == TEXT_START + n + 2;
      VisibleIsPlain(text);
      SplitIsLosslessIff(text, k);
      assert !Blank(text) by { assert !IsSpace(text[0]); }
      if k >= TEXT_START {
        var r := Chomp(text)[|Begun(text, k)|..];
        VisibleIsPlain(r);
        assert !IsSpace(r[0]);
      }
    }
  }

  // ---------------------------------------------------------------- a stream in any chunks

  function EventLine(x: Item): string { EVENT_LINE + x.typ }
  function DataLine(x: Item): string { DATA_LINE + Chomp(x.text) }
  function LineEnds(x: Item): string { if Chomp(x.text) == x.text then [LF, LF] else [LF, LF, LF] }

  function Clamp(k: int, n: nat): (c: nat)
    ensures c <= n
  {
    if k < 0 then 0 else if k > n then n else k
  }

  /** As much of a line as lies between two positions. */
  function Portion(line: string, lo: int, hi: int): string
    requires lo <= hi
  {
    line[Clamp(lo, |line|)..Clamp(hi, |line|)]
  }

  /** The bytes a..b of a frame, read line by line. */
  function ReadPart(f: Fields, x: Item, a: nat, b: nat): Fields
    requires a <= b
  {
    var skip := |EventLine(x)| + 1;
    TakeLine(TakeLine(f, Portion(EventLine(x), a, b)), Portion(DataLine(x), a - skip, b - skip))
  }

  /** The bytes a..b of a stream of frames, read frame by frame. */
  function ReadStream(f: Fields, items: seq<Item>, a: nat, b: nat): Fields
    requires a <= b
    decreases |items|
  {
    if items == [] then f
    else
      var n := |Frame(items[0].typ, items[0].text)|;
      ReadStream(ReadPart(f, items[0], Clamp(a, n), Clamp(b, n)), items[1..], if a < n then 0 else a - n, if b < n then 0 else b - n)
  }

  lemma FrameLines(x: Item)
    requires Readable(x)
    ensures Frame(x.typ, x.text) == EventLine(x) + [LF] + (DataLine(x) + LineEnds(x))
    ensures WithinLine(EventLine(x)) && WithinLine(DataLine(x)) && LineEnds(x) != ""
    ensures forall k :: 0 <= k < |LineEnds(x)| ==> LineEnds(x)[k] == LF
  {
    assert x.text + [LF, LF] == Chomp(x.text) + LineEnds(x);
    assert forall k :: 0 <= k < |Chomp(x.text)| ==> Chomp(x.text)[k] == x.text[k];
  }

  /** A line, the line ends behind it, and what follows if there are any. */
  lemma {:induction false} LineThenRest(f: Fields, line: string, tail: string, rest: string)
    requires WithinLine(line) && (tail == "" ==> rest == "") && forall k :: 0 <= k < |tail| ==> tail[k] == LF
    ensures Fold(f, SplitLines(line + tail + rest)) == Fold(TakeLine(f, line), SplitLines(rest))
    decreases |tail|
  {
    hide TakeLine, Fold, SplitLines;
    if tail == "" {
      FoldLineTail(f, line, "");
      FoldNothing(TakeLine(f, line));
      assert line + tail + rest == line + "";
    } else {
      assert line + tail + rest == line + [LF] + (tail[1..] + rest);
      FoldFirst(f, line, tail[1..] + rest);
      if tail[1..] == "" {
        assert tail[1..] + rest == rest;
      } else {
        LineThenRest(TakeLine(f, line), "", tail[1..], rest);
        SkipBlankLine(TakeLine(f, line));
        assert "" + tail[1..] + rest == tail[1..] + rest;
      }
    }
  }

  /** The part of a frame from its data line on. */
  lemma DataPart(f: Fields, x: Item, i: nat, j: nat, rest: string)
    requires Readable(x) && i <= j <= |DataLine(x) + LineEnds(x)|
    requires j < |DataLine(x) + LineEnds(x)| ==> rest == ""
    ensures Fold(f, SplitLines((DataLine(x) + LineEnds(x))[i..j] + rest)) ==
            Fold(TakeLine(f, Portion(DataLine(x), i, j)), SplitLines(rest))
  {
    hide TakeLine, Fold, SplitLines, DataLine, LineEnds;
    FrameLines(x);
    var line, ends := DataLine(x), LineEnds(x);
    var portion := Portion(line, i, j);
    var tail := ends[if i > |line| then i - |line| else 0..if j > |line| then j - |line| else if i > |line| then i - |line| else 0];
    assert (line + ends)[i..j] == portion + tail;
    assert WithinLine(portion);
    if tail != "" || rest == "" {
      LineThenRest(f, portion, tail, rest);
    } else {
      assert portion == "" && portion + tail + rest == rest;
      SkipBlankLine(f);
    }
  }

  /** Any part of a frame; what follows it in the chunk follows the whole of it. */
  lemma PartOfFrame(f: Fields, x: Item, a: nat, b: nat, rest: string)
    requires Readable(x) && a <= b <= |Frame(x.typ, x.text)| && (b < |Frame(x.typ, x.text)| ==> rest == "")
    ensures Fold(f, SplitLines(Frame(x.typ, x.text)[a..b] + rest)) == Fold(ReadPart(f, x, a, b), SplitLines(rest))
  {
    hide TakeLine, Fold, SplitLines, Frame, EventLine, DataLine, LineEnds;
    FrameLines(x);
    var line, more := EventLine(x), DataLine(x) + LineEnds(x);
    var frame, skip := Frame(x.typ, x.text), |line| + 1;
    if b <= |line| {
      assert frame[a..b] + rest == Portion(line, a, b) + "" + "";
      LineThenRest(f, Portion(line, a, b), "", "");
      SkipBlankLine(TakeLine(f, Portion(line, a, b)));
    } else if a <= |line| {
      assert frame[a..b] + rest == Portion(line, a, b) + [LF] + (more[..b - skip] + rest);
      FoldFirst(f, Portion(line, a, b), more[..b - skip] + rest);
      DataPart(TakeLine(f, Portion(line, a, b)), x, 0, b - skip, rest);
      assert more[0..b - skip] == more[..b - skip];
      assert Portion(DataLine(x), 0, b - skip) == Portion(DataLine(x), a - skip, b - skip);
    } else {
      assert frame[a..b] == more[a - skip..b - skip];
      assert Portion(line, a, b) == "";
      SkipBlankLine(f);
      DataPart(f, x, a - skip, b - skip, rest);
    }
  }

  lemma {:induction false} StreamPart(f: Fields, items: seq<Item>, a: nat, b: nat)
    requires (forall x :: x in items ==> Readable(x)) && a <= b <= |Chunk(items)|
    ensures Fold(f, SplitLines(Chunk(items)[a..b])) == ReadStream(f, items, a, b)
    decreases |items|
  {
    hide TakeLine, Fold, SplitLines, ReadPart, Frame, Readable;
    if items == [] {
      FoldNothing(f);
      assert Chunk(items)[a..b] == "";
    } else {
      var x, rest := items[0], items[1..];
      assert x in items && forall y :: y in rest ==> y in items;
      var frame := Frame(x.typ, x.text);
      var n := |frame|;
      var a', b' := if a < n then 0 else a - n, if b < n then 0 else b - n;
      assert Chunk(items) == frame + Chunk(rest);
      assert Chunk(items)[a..b] == frame[Clamp(a, n)..Clamp(b, n)] + Chunk(rest)[a'..b'];
      PartOfFrame(f, x, Clamp(a, n), Clamp(b, n), Chunk(rest)[a'..b']);
      StreamPart(ReadPart(f, x, Clamp(a, n), Clamp(b, n)), rest, a', b');
    }
  }

  /** The lines logged for chunks received one after the other. */
  function LoggedOf(chunks: seq<string>): seq<string> {
    if chunks == [] then [] else Reported(Report(Fold(NOTHING, SplitLines(chunks[0])))) + LoggedOf(chunks[1..])
  }

  /** The same by the sizes of the chunks, from position a of the stream on. */
  function LoggedFrom(items: seq<Item>, a: nat, sizes: seq<nat>): seq<string>
    decreases |sizes|
  {
    if sizes == [] then []
    else Reported(Report(ReadStream(NOTHING, items, a, a + sizes[0]))) + LoggedFrom(items, a + sizes[0], sizes[1..])
  }

  /** What is logged of a stream of frames in whatever chunks it arrives: of each chunk, what its part
      of each frame says, read by itself. */
  lemma {:induction false} AnyChunks(items: seq<Item>, a: nat, chunks: seq<string>, sizes: seq<nat>)
    requires (forall x :: x in items ==> Readable(x)) && a <= |Chunk(items)| && Chunk(items)[a..] == Concat(chunks)
    requires |sizes| == |chunks| && forall k :: 0 <= k < |chunks| ==> sizes[k] == |chunks[k]|
    ensures LoggedOf(chunks) == LoggedFrom(items, a, sizes)
    decreases |chunks|
  {
    hide Fold, SplitLines, ReadStream, Report, Reported, Chunk, Readable;
    if chunks == [] {
    } else {
      var b := a + |chunks[0]|;
      assert Concat(chunks) == chunks[0] + Concat(chunks[1..]);
      assert Chunk(items)[a..][..|chunks[0]|] == chunks[0];
      assert Chunk(items)[a..][|chunks[0]|..] == Concat(chunks[1..]);
      assert Chunk(items)[a..b] == chunks[0] && Chunk(items)[b..] == Concat(chunks[1..]);
      StreamPart(NOTHING, items, a, b);
      AnyChunks(items, b, chunks[1..], sizes[1..]);
    }
  }

  // ---------------------------------------------------------------- what a part of a frame says

  lemma NoColonLine(f: Fields, line: string)
    requires ':' !in line
    ensures TakeLine(f, line) == f
  {
    assert IndexOf(line, ':') == |line|;
    hide Strip;
  }

  /** A name and its colon, without a value. */
  lemma TakeBare(f: Fields, name: string)
    requires name == "event" || name == "data"
    ensures TakeLine(f, name + ":") == if name == "event" then f.(typ := Some("")) else f.(data := Some(""))
  {
    var line := name + ":";
    assert line[|name|] == ':' && forall k :: 0 <= k < |name| ==> line[k] == name[k] && name[k] != ':';
    assert IndexOf(line, ':') == |name|;
    assert line[..|name|] == name && line[|name| + 1..] == "";
    assert Strip(name) == name && Strip("") == "";
    RStripKeeps(line, 0);
    assert Strip(line) != "";
  }

  lemma TypeIsStripped(typ: string)
    requires forall k :: 0 <= k < |typ| ==> !IsSpace(typ[k])
    ensures Strip(typ) == typ
  {
    if typ != "" {
      assert LStrip(typ) == typ;
    }
  }

  lemma TypesHaveNoBlanks()
    ensures forall k :: 0 <= k < |LOG_LINE| ==> !IsSpace(LOG_LINE[k])
    ensures forall k :: 0 <= k < |KEEPALIVE| ==> !IsSpace(KEEPALIVE[k])
  {
  }

  /** The beginning of an event line sets the type to as much of it as there is. */
  lemma EventPortion(f: Fields, x: Item, b: nat)
    requires Readable(x)
    ensures TakeLine(f, Portion(EventLine(x), 0, b)) ==
            if b < 6 then f else f.(typ := Some(x.typ[..Clamp(b - 7, |x.typ|)]))
  {
    hide TakeLine, Strip, IsSpace;
    var line := Portion(EventLine(x), 0, b);
    if b < 6 {
      assert line == "event"[..b];
      NoColonLine(f, line);
    } else if b == 6 {
      assert line == "event" + ":";
      TakeBare(f, "event");
      assert x.typ[..0] == "";
    } else {
      var typ := x.typ[..Clamp(b - 7, |x.typ|)];
      assert line == "event" + ": " + typ;
      TakeNamed(f, "event", typ);
      TypesHaveNoBlanks();
      TypeIsStripped(typ);
    }
  }

  /** The beginning of a data line sets the data to as much of the text as there is. */
  lemma DataPortion(f: Fields, x: Item, b: nat)
    ensures TakeLine(f, Portion(DataLine(x), 0, b)) ==
            if b < 5 then f else f.(data := Some(Strip(Chomp(x.text)[..Clamp(b - 6, |Chomp(x.text)|)])))
  {
    hide TakeLine, Strip, Chomp;
    var line := Portion(DataLine(x), 0, b);
    if b < 5 {
      assert line == "data"[..b];
      NoColonLine(f, line);
    } else if b == 5 {
      assert line == "data" + ":";
      TakeBare(f, "data");
      assert Strip("") == "" by { StripNothing(); }
      assert Chomp(x.text)[..0] == "";
    } else {
      var text := Chomp(x.text)[..Clamp(b - 6, |Chomp(x.text)|)];
      assert line == "data" + ": " + text;
      TakeNamed(f, "data", text);
    }
  }

  lemma StripNothing()
    ensures Strip("") == ""
  {
  }

  /** What the first k bytes of a frame say. */
  lemma FrameBegins(f: Fields, y: Item, k: nat)
    requires Readable(y)
    ensures var skip := |EventLine(y)| + 1;
            ReadPart(f, y, 0, k) ==
            Fields(if k < 6 then f.typ else Some(y.typ[..Clamp(k - 7, |y.typ|)]),
                   if k < skip + 5 then f.data else Some(Strip(Chomp(y.text)[..Clamp(k - skip - 6, |Chomp(y.text)|)])))
  {
    hide TakeLine, Strip, Chomp, EventLine, DataLine;
    var skip := |EventLine(y)| + 1;
    var g := TakeLine(f, Portion(EventLine(y), 0, k));
    EventPortion(f, y, k);
    assert 6 < skip by { EventLineLength(y); }
    if k <= skip {
      assert Portion(DataLine(y), 0 - skip, k - skip) == "";
      SkipBlankLine(g);
    } else {
      assert Portion(DataLine(y), 0 - skip, k - skip) == Portion(DataLine(y), 0, k - skip);
      DataPortion(g, y, k - skip);
    }
  }

  lemma EventLineLength(y: Item)
    ensures |EventLine(y)| == 7 + |y.typ|
  {
  }

  lemma ChunkHead(items: seq<Item>, rest: string)
    requires items != []
    ensures Chunk(items) + rest == Frame(items[0].typ, items[0].text) + (Chunk(items[1..]) + rest)
  {
    hide Frame;
  }

  lemma NoChunk()
    ensures Chunk([]) == ""
  {
  }

  lemma {:induction false} FramesThen(f: Fields, items: seq<Item>, rest: string)
    requires items != [] && forall x :: x in items ==> Readable(x)
    ensures var x := items[|items| - 1];
            Fold(f, SplitLines(Chunk(items) + rest)) == Fold(Fields(Some(x.typ), Some(Strip(x.text))), SplitLines(rest))
    decreases |items|
  {
    hide Readable, Fold, SplitLines, Strip, Frame, Chunk;
    var x, more := items[0], items[1..];
    assert x in items;
    ChunkHead(items, rest);
    FrameOverwrites(f, x, Chunk(more) + rest);
    if more == [] {
      assert Chunk(more) + rest == rest by { assert Chunk([]) == "" by { NoChunk(); } }
    } else {
      FramesThen(Fields(Some(x.typ), Some(Strip(x.text))), more, rest);
    }
  }

  /** What is logged of a chunk with at least one whole frame, x being the last, between the end of a
      frame w and the beginning of a frame y: the line of x only if at most "event" is there of y. A
      longer beginning suppresses it, until the type of y is complete: then x's text is logged as a
      line even if x was a keepalive, unless the text of y has begun and is logged in its place. */
  lemma ChunkWithFrames(w: Item, a: nat, items: seq<Item>, y: Item, k: nat)
    requires Readable(w) && Readable(y) && items != [] && forall x :: x in items ==> Readable(x)
    requires a <= |Frame(w.typ, w.text)| && k < |Frame(y.typ, y.text)|
    ensures var x := items[|items| - 1];
            Report(Fold(NOTHING, SplitLines(Frame(w.typ, w.text)[a..] + (Chunk(items) + Frame(y.typ, y.text)[..k])))) ==
            if k < 6 then Report(Fields(Some(x.typ), Some(Strip(x.text))))
            else if y.typ != LOG_LINE || k < |HEAD| then None
            else if k < TEXT_START - 1 then Report(Fields(Some(LOG_LINE), Some(Strip(x.text))))
            else Report(Fields(Some(LOG_LINE), Some(Strip(if k < TEXT_START then "" else Begun(y.text, k)))))
  {
    hide Fold, SplitLines, Strip, TakeLine, Frame, Readable, Report, ReadPart, Chunk, Chomp;
    ThreeParts(w, a, items, y, k);
    var x := items[|items| - 1];
    BeginningReports(Fields(Some(x.typ), Some(Strip(x.text))), y, k);
  }

  /** What is logged when the beginning of a frame has been read after other lines. */
  lemma BeginningReports(f: Fields, y: Item, k: nat)
    requires Readable(y)
    ensures Report(ReadPart(f, y, 0, k)) ==
            if k < 6 then Report(f)
            else if y.typ != LOG_LINE || k < |HEAD| then None
            else if k < TEXT_START - 1 then Report(f.(typ := Some(LOG_LINE)))
            else Report(Fields(Some(LOG_LINE), Some(Strip(if k < TEXT_START then "" else Begun(y.text, k)))))
  {
    FrameBegins(f, y, k);
    EventLineLength(y);
    hide Strip, Readable, Report, ReadPart, Chomp, EventLine, Begun;
    assert |HEAD| == 15;
    if k >= 6 {
      TypeComplete(y, k);
      if y.typ == LOG_LINE && k >= TEXT_START - 1 {
        TypedData(y, k);
      }
      if y.typ[..Clamp(k - 7, |y.typ|)] != LOG_LINE {
        OtherTypeReportsNothing(ReadPart(f, y, 0, k));
      }
    } else {
      TypesReadable(y);
    }
  }

  lemma TypesReadable(y: Item)
    requires Readable(y)
    ensures |y.typ| >= 8
  {
  }

  lemma ThreeParts(w: Item, a: nat, items: seq<Item>, y: Item, k: nat)
    requires Readable(w) && Readable(y) && items != [] && forall x :: x in items ==> Readable(x)
    requires a <= |Frame(w.typ, w.text)| && k < |Frame(y.typ, y.text)|
    ensures var x := items[|items| - 1];
            Fold(NOTHING, SplitLines(Frame(w.typ, w.text)[a..] + (Chunk(items) + Frame(y.typ, y.text)[..k]))) ==
            ReadPart(Fields(Some(x.typ), Some(Strip(x.text))), y, 0, k)
  {
    hide Fold, SplitLines, Strip, Frame, Readable, ReadPart, Chunk;
    var frame, more := Frame(w.typ, w.text), Chunk(items) + Frame(y.typ, y.text)[..k];
    var x := items[|items| - 1];
    var f := Fields(Some(x.typ), Some(Strip(x.text)));
    assert frame[a..|frame|] == frame[a..];
    PartOfFrame(NOTHING, w, a, |frame|, more);
    FramesThen(ReadPart(NOTHING, w, a, |frame|), items, Frame(y.typ, y.text)[..k]);
    PartOfFrame(f, y, 0, k, "");
    assert Frame(y.typ, y.text)[0..k] + "" == Frame(y.typ, y.text)[..k];
    FoldNothing(ReadPart(f, y, 0, k));
  }

  /** Only the whole type of a log line is one. */
  lemma TypeComplete(y: Item, k: nat)
    requires Readable(y) && k >= 6
    ensures y.typ[..Clamp(k - 7, |y.typ|)] == LOG_LINE <==> y.typ == LOG_LINE && k >= |HEAD|
  {
    var typ := y.typ[..Clamp(k - 7, |y.typ|)];
    assert LOG_LINE[0] == 'l' && KEEPALIVE[0] == 'k';
    assert |HEAD| == 15;
    if y.typ == LOG_LINE && k >= |HEAD| {
      assert typ == y.typ;
    }
  }

  lemma OtherTypeReportsNothing(f: Fields)
    requires f.typ != Some(LOG_LINE)
    ensures Report(f) == None
  {
  }

  /** The text of a log line begins at the same place in its data line and in its frame. */
  lemma TypedData(y: Item, k: nat)
    requires y.typ == LOG_LINE && k >= TEXT_START - 1
    ensures |EventLine(y)| + 1 == 16
    ensures Chomp(y.text)[..Clamp(k - 16 - 6, |Chomp(y.text)|)] == if k < TEXT_START then "" else Begun(y.text, k)
  {
  }
}
