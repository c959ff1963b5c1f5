/** Server-sent events: the frames the server writes (src/builtin_sse_server/sse_server.c)
    and the stream parser a browser runs on them, after the HTML Standard, section 9.2.5
    (parsing an event stream) and section 9.2.6 (interpreting an event stream). */
module EventStream {

  const NUL: char := '\0'
  const LF: char := '\n'
  const CR: char := '\r'

  // ---------------------------------------------------------------- frames

  /** What `%.*s` prints of a received message: the bytes before its first NUL. */
  function TextOf(message: string): (t: string)
    ensures NUL !in t && t <= message
    ensures |t| < |message| ==> message[|t|] == NUL
  {
    if message == "" || message[0] == NUL then "" else [message[0]] + TextOf(message[1..])
  }

  /** snprintf into `size` bytes: cut so that the terminating NUL still fits. */
  function Snprintf(size: nat, s: string): string
    requires size > 0
  {
    if |s| < size then s else s[..size - 1]
  }

  const EVENT_LINE: string := "event: "
  const DATA_LINE: string := "data: "
  const LOG_LINE: string := "log-line"
  const KEEPALIVE: string := "keepalive"

  function Frame(typ: string, text: string): string {
    EVENT_LINE + typ + [LF] + DATA_LINE + text + [LF, LF]
  }

  const FRAME_SLACK: nat := 64

  function LogFrame(maxLength: nat, message: string): string {
    Snprintf(maxLength + FRAME_SLACK, Frame(LOG_LINE, TextOf(message)))
  }

  function Digits(n: nat): (d: string)
    ensures d != "" && forall k :: 0 <= k < |d| ==> '0' <= d[k] <= '9'
  {
    if n < 10 then ['0' + n as char] else Digits(n / 10) + ['0' + (n % 10) as char]
  }

  function KeepaliveFrame(maxLength: nat, tick: nat): string {
    Snprintf(maxLength + FRAME_SLACK, Frame(KEEPALIVE, Digits(tick)))
  }

  const TICK_LIMIT: nat := 0x1_0000_0000

  lemma {:induction false} DigitsLength(n: nat, width: nat)
    requires width > 0 && n < Power10(width)
    ensures |Digits(n)| <= width
    decreases width
  {
    if n >= 10 {
      assert Power10(width) == 10 * Power10(width - 1);
      DigitsLength(n / 10, width - 1);
    }
  }

  function Power10(k: nat): nat {
    if k == 0 then 1 else 10 * Power10(k - 1)
  }

  /** Neither kind of frame is ever cut short: a message the server could receive leaves room
      to spare, and so does any 32-bit tick. */
  lemma FramesAreWhole(maxLength: nat, message: string, tick: nat)
    requires |message| <= maxLength && tick < TICK_LIMIT
    ensures LogFrame(maxLength, message) == Frame(LOG_LINE, TextOf(message))
    ensures |LogFrame(maxLength, message)| <= maxLength + 24
    ensures KeepaliveFrame(maxLength, tick) == Frame(KEEPALIVE, Digits(tick))
  {
    assert Power10(10) == 10_000_000_000 by {
      assert Power10(3) == 1000;
      assert Power10(6) == 1_000_000;
      assert Power10(9) == 1_000_000_000;
    }
    DigitsLength(tick, 10);
  }

  // ---------------------------------------------------------------- the parser

  datatype Event = Event(typ: string, data: string, lastId: string)

  /** The three buffers, the reconnection time and the dispatched events of section 9.2.6. */
  datatype Machine = Machine(typ: string, data: string, lastId: string, retry: string, out: seq<Event>)

  /** A machine fed character by character: `line` is the unfinished line, and `cr` says that the
      last character was a CR, so that a LF coming next belongs to the same line end. */
  datatype Parser = Parser(line: string, cr: bool, m: Machine)

  const START: Machine := Machine("", "", "", "", [])

  /** At the start of a line. */
  function Fresh(m: Machine): Parser {
    Parser("", false, m)
  }

  function IndexOf(s: string, c: char): (i: nat)
    ensures i <= |s| && (i < |s| ==> s[i] == c)
    ensures forall k :: 0 <= k < i ==> s[k] != c
  {
    if s == "" || s[0] == c then 0 else 1 + IndexOf(s[1..], c)
  }

  /** Without its final LF, if it has one. */
  function Chomp(s: string): string {
    if s != "" && s[|s| - 1] == LF then s[..|s| - 1] else s
  }

  function Dispatch(m: Machine): Machine {
    if m.data == "" then m.(typ := "")
    else
      m.(typ := "", data := "",
         out := m.out + [Event(if m.typ == "" then "message" else m.typ, Chomp(m.data), m.lastId)])
  }

  function ProcessField(m: Machine, field: string, value: string): Machine {
    if field == "event" then m.(typ := value)
    else if field == "data" then m.(data := m.data + value + [LF])
    else if field == "id" then (if NUL in value then m else m.(lastId := value))
    else if field == "retry" then
      (if forall k :: 0 <= k < |value| ==> '0' <= value[k] <= '9' then m.(retry := value) else m)
    else m
  }

  function ProcessLine(m: Machine, line: string): Machine {
    var colon := IndexOf(line, ':');
    if line == "" then Dispatch(m)
    else if colon == 0 then m
    else if colon == |line| then ProcessField(m, line, "")
    else
      var value := line[colon + 1..];
      ProcessField(m, line[..colon], if value != "" && value[0] == ' ' then value[1..] else value)
  }

  function FeedChar(p: Parser, c: char): Parser {
    if c == LF && p.cr then p.(cr := false)
    else if c == LF then Parser("", false, ProcessLine(p.m, p.line))
    else if c == CR then Parser("", true, ProcessLine(p.m, p.line))
    else p.(line := p.line + [c], cr := false)
  }

  function Feed(p: Parser, s: string): Parser
    decreases |s|
  {
    if s == "" then p else Feed(FeedChar(p, s[0]), s[1..])
  }

  function FeedChunks(p: Parser, chunks: seq<string>): Parser
    decreases |chunks|
  {
    if chunks == [] then p else FeedChunks(Feed(p, chunks[0]), chunks[1..])
  }

  function Concat(chunks: seq<string>): string {
    if chunks == [] then "" else chunks[0] + Concat(chunks[1..])
  }

  lemma {:induction false} FeedAppend(p: Parser, s: string, t: string)
    ensures Feed(p, s + t) == Feed(Feed(p, s), t)
    decreases |s|
  {
    if s == "" {
      assert s + t == t;
    } else {
      assert (s + t)[1..] == s[1..] + t;
      FeedAppend(FeedChar(p, s[0]), s[1..], t);
    }
  }

  // ---------------------------------------------------------------- line splitting, independently of chunks

  predicate IsBreak(c: char) { c == LF || c == CR }

  function FirstBreak(s: string): (i: nat)
    ensures i <= |s| && (i < |s| ==> IsBreak(s[i]))
    ensures forall k :: 0 <= k < i ==> !IsBreak(s[k])
  {
    if s == "" || IsBreak(s[0]) then 0 else 1 + FirstBreak(s[1..])
  }

  /** What follows the line that ends at the break s[i]: a CR and a LF behind it are one break. */
  function AfterBreak(s: string, i: nat): (rest: string)
    requires i < |s|
    ensures |rest| < |s|
  {
    if s[i] == CR && i + 1 < |s| && s[i + 1] == LF then s[i + 2..] else s[i + 1..]
  }

  /** The complete lines of a whole stream; characters after the last break form no line. */
  function Lines(s: string): seq<string>
    decreases |s|
  {
    var i := FirstBreak(s);
    if i == |s| then [] else [s[..i]] + Lines(AfterBreak(s, i))
  }

  function Interpret(m: Machine, lines: seq<string>): Machine
    decreases |lines|
  {
    if lines == [] then m else Interpret(ProcessLine(m, lines[0]), lines[1..])
  }

  lemma {:induction false} FeedPlain(p: Parser, s: string)
    requires forall k :: 0 <= k < |s| ==> !IsBreak(s[k])
    ensures Feed(p, s) == if s == "" then p else p.(line := p.line + s, cr := false)
    decreases |s|
  {
    if s == "" {
    } else {
      var q := FeedChar(p, s[0]);
      FeedPlain(q, s[1..]);
      assert p.line + s == (p.line + [s[0]]) + s[1..];
    }
  }

  /** One line and its line end, from the start of a line. */
  lemma FeedLine(m: Machine, line: string, c: char)
    requires IsBreak(c) && forall k :: 0 <= k < |line| ==> !IsBreak(line[k])
    ensures Feed(Fresh(m), line + [c]) == Parser("", c == CR, ProcessLine(m, line))
  {
    hide ProcessLine;
    FeedAppend(Fresh(m), line, [c]);
    FeedPlain(Fresh(m), line);
    var q := Feed(Fresh(m), line);
    assert q.line == line;
    assert Feed(q, [c]) == Feed(FeedChar(q, c), [c][1..]);
  }

  lemma {:induction false} FeedMeansLines(m: Machine, s: string)
    ensures Feed(Fresh(m), s).m == Interpret(m, Lines(s))
    decreases |s|
  {
    hide ProcessLine;
    var i := FirstBreak(s);
    if i == |s| {
      FeedPlain(Fresh(m), s);
    } else {
      var line, rest := s[..i], AfterBreak(s, i);
      var m' := ProcessLine(m, line);
      FeedLine(m, line, s[i]);
      FeedAppend(Fresh(m), line + [s[i]], s[i + 1..]);
      assert s == (line + [s[i]]) + s[i + 1..];
      assert Lines(s) == [line] + Lines(rest);
      assert Interpret(m, Lines(s)) == Interpret(m', Lines(rest));
      if s[i] == CR {
        FeedAfterCarriageReturn(m', s[i + 1..]);
        FeedMeansLines(m', rest);
      } else {
        FeedMeansLines(m', rest);
      }
    }
  }

  /** After a CR, a LF that comes next is swallowed; anything else starts the next line. */
  lemma FeedAfterCarriageReturn(m: Machine, s: string)
    ensures Feed(Parser("", true, m), s).m == Feed(Fresh(m), if s != "" && s[0] == LF then s[1..] else s).m
  {
    hide ProcessLine;
    if s != "" && s[0] != LF {
      assert FeedChar(Parser("", true, m), s[0]) == FeedChar(Fresh(m), s[0]);
    }
  }

  /** However the bytes are cut into chunks, the parser dispatches what the line structure of
      the whole stream says. */
  lemma ChunkingIsIrrelevant(chunks: seq<string>)
    ensures FeedChunks(Fresh(START), chunks).m == Interpret(START, Lines(Concat(chunks)))
  {
    FeedConcat(Fresh(START), chunks);
    FeedMeansLines(START, Concat(chunks));
  }

  lemma {:induction false} FeedConcat(p: Parser, chunks: seq<string>)
    ensures FeedChunks(p, chunks) == Feed(p, Concat(chunks))
    decreases |chunks|
  {
    if chunks == [] {
    } else {
      FeedAppend(p, chunks[0], Concat(chunks[1..]));
      FeedConcat(Feed(p, chunks[0]), chunks[1..]);
    }
  }

  // ---------------------------------------------------------------- frame by frame

  /** Between events nothing is buffered; the last event ID and the reconnection time persist. */
  ghost predicate Idle(m: Machine) {
    m.typ == "" && m.data == ""
  }

  predicate SingleLine(text: string) {
    forall k :: 0 <= k < |text| ==> text[k] != CR && (text[k] == LF ==> k == |text| - 1)
  }

  predicate Unbroken(s: string) {
    forall k :: 0 <= k < |s| ==> !IsBreak(s[k])
  }

  lemma ProcessNamedField(m: Machine, field: string, value: string)
    requires ':' !in field && field != ""
    ensures ProcessLine(m, field + ": " + value) == ProcessField(m, field, value)
  {
    hide ProcessField;
    var line := field + ": " + value;
    var colon := IndexOf(line, ':');
    assert line[|field|] == ':';
    assert forall k :: 0 <= k < |field| ==> line[k] == field[k];
    assert colon == |field|;
    assert line[..colon] == field;
    assert line[colon + 1..] == " " + value;
    assert (" " + value)[1..] == value;
  }

  lemma ProcessEventLine(m: Machine, typ: string)
    ensures ProcessLine(m, EVENT_LINE + typ) == m.(typ := typ)
  {
    ProcessNamedField(m, "event", typ);
    assert EVENT_LINE + typ == "event" + ": " + typ;
  }

  lemma ProcessDataLine(m: Machine, text: string)
    ensures ProcessLine(m, DATA_LINE + text) == m.(data := m.data + text + [LF])
  {
    ProcessNamedField(m, "data", text);
    assert DATA_LINE + text == "data" + ": " + text;
  }

  /** The first line of a frame sets the event type. */
  lemma FeedEventLine(m: Machine, typ: string)
    requires Unbroken(typ)
    ensures Feed(Fresh(m), EVENT_LINE + typ + [LF]) == Fresh(m.(typ := typ))
  {
    hide ProcessLine;
    FeedLine(m, EVENT_LINE + typ, LF);
    ProcessEventLine(m, typ);
  }

  lemma FeedDataLine(m: Machine, text: string, c: char)
    requires Unbroken(text) && IsBreak(c)
    ensures Feed(Fresh(m), DATA_LINE + text + [c]) == Parser("", c == CR, m.(data := m.data + text + [LF]))
  {
    hide ProcessLine;
    FeedLine(m, DATA_LINE + text, c);
    ProcessDataLine(m, text);
  }

  /** A blank line dispatches what has been buffered, or nothing. */
  lemma FeedBlank(m: Machine)
    ensures Feed(Fresh(m), [LF]) == Fresh(Dispatch(m))
  {
    hide Dispatch;
    assert [LF][1..] == "";
    assert Feed(FeedChar(Fresh(m), LF), "") == FeedChar(Fresh(m), LF);
  }

  /** A single-line text comes back whole: one event, its trailing LF removed, and the blank
      line a trailing LF adds dispatches nothing. */
  lemma FrameRoundTrip(m: Machine, typ: string, text: string)
    requires Idle(m) && typ != "" && Unbroken(typ) && SingleLine(text)
    ensures Feed(Fresh(m), Frame(typ, text)) == Fresh(m.(out := m.out + [Event(typ, Chomp(text), m.lastId)]))
  {
    var body := Chomp(text);
    var head, line := EVENT_LINE + typ + [LF], DATA_LINE + body + [LF];
    var tail := if body == text then [LF] else [LF] + [LF];
    assert Unbroken(body) && text + [LF, LF] == body + [LF] + tail;
    assert Frame(typ, text) == head + (line + tail);
    var m1 := m.(typ := typ);
    var m2 := m1.(data := body + [LF]);
    var m3 := m.(out := m.out + [Event(typ, body, m.lastId)]);
    FeedAppend(Fresh(m), head, line + tail);
    FeedEventLine(m, typ);
    FeedAppend(Fresh(m1), line, tail);
    FeedDataLine(m1, body, LF);
    assert m1.data + body + [LF] == body + [LF];
    FeedBlank(m2);
    assert Chomp(body + [LF]) == body;
    assert Dispatch(m2) == m3;
    if body != text {
      FeedAppend(Fresh(m2), [LF], [LF]);
      FeedBlank(m3);
      assert Dispatch(m3) == m3;
    }
  }

  // ---------------------------------------------------------------- which texts survive

  function Slack(n: nat): nat { if n > 3 then n - 3 else 0 }

  function DataTotal(out: seq<Event>): nat {
    if out == [] then 0 else DataTotal(out[..|out| - 1]) + |out[|out| - 1].data| + 1
  }

  function Weight(m: Machine): nat {
    DataTotal(m.out) + |m.data|
  }

  ghost predicate Terminated(m: Machine) {
    m.data == "" || m.data[|m.data| - 1] == LF
  }

  /** The field name costs at least four characters, of which one comes back as the line end. */
  lemma ProcessLineWeight(m: Machine, line: string)
    requires Terminated(m)
    ensures Terminated(ProcessLine(m, line))
    ensures Weight(ProcessLine(m, line)) <= Weight(m) + Slack(|line|)
  {
    if line == "" {
      if m.data != "" {
        var out' := Dispatch(m).out;
        assert out'[..|out'| - 1] == m.out;
      }
    }
  }

  lemma {:induction false} FeedWeight(p: Parser, s: string)
    requires Terminated(p.m)
    ensures Weight(Feed(p, s).m) <= Weight(p.m) + Slack(|p.line| + |s|)
    decreases |s|
  {
    hide ProcessLine;
    hide Weight;
    hide Terminated;
    if s == "" {
    } else {
      ProcessLineWeight(p.m, p.line);
      FeedWeight(FeedChar(p, s[0]), s[1..]);
    }
  }

  /** A text with a CR, or with a LF before its end, always loses characters. */
  lemma BrokenTextIsCut(m: Machine, typ: string, text: string)
    requires Idle(m) && Unbroken(typ) && !SingleLine(text)
    ensures Weight(Feed(Fresh(m), Frame(typ, text)).m) < DataTotal(m.out) + |Chomp(text)| + 1
  {
    var j := FirstBreak(text);
    assert j < |text|;
    var head, line, rest := EVENT_LINE + typ + [LF], DATA_LINE + text[..j] + [text[j]], text[j + 1..] + [LF, LF];
    assert text == text[..j] + [text[j]] + text[j + 1..];
    assert Frame(typ, text) == head + (line + rest);
    var m1 := m.(typ := typ);
    FeedAppend(Fresh(m), head, line + rest);
    FeedEventLine(m, typ);
    FeedAppend(Fresh(m1), line, rest);
    FeedDataLine(m1, text[..j], text[j]);
    FeedWeight(Feed(Fresh(m1), line), rest);
    assert text[j] == CR || j + 1 < |text|;
  }

  /** The exact condition for a frame to bring its text to the reader: no CR, and no LF except
      as the last character. */
  lemma FrameRoundTripIff(m: Machine, typ: string, text: string)
    requires Idle(m) && typ != "" && Unbroken(typ)
    ensures Feed(Fresh(m), Frame(typ, text)).m.out == m.out + [Event(typ, Chomp(text), m.lastId)]
       <==> SingleLine(text)
  {
    if SingleLine(text) {
      FrameRoundTrip(m, typ, text);
    } else {
      BrokenTextIsCut(m, typ, text);
      var out' := m.out + [Event(typ, Chomp(text), m.lastId)];
      assert out'[..|out'| - 1] == m.out;
      assert DataTotal(out') == DataTotal(m.out) + |Chomp(text)| + 1;
    }
  }

  lemma {:induction false} FeedShape(p: Parser, s: string)
    requires p.cr ==> p.line == ""
    ensures Feed(p, s).cr ==> Feed(p, s).line == ""
    ensures p.m.out <= Feed(p, s).m.out
    decreases |s|
  {
    if s != "" {
      ProcessLineGrows(p.m, p.line);
      hide ProcessLine;
      FeedShape(FeedChar(p, s[0]), s[1..]);
    }
  }

  lemma ProcessLineGrows(m: Machine, line: string)
    ensures m.out <= ProcessLine(m, line).out
  {
  }

  /** Whatever its text contains, a frame leaves the parser between events, so a line that breaks
      its own frame cannot spoil the next one. */
  lemma FrameResynchronises(p: Parser, typ: string, text: string)
    requires p.cr ==> p.line == ""
    ensures Idle(Feed(p, Frame(typ, text)).m) && Feed(p, Frame(typ, text)) == Fresh(Feed(p, Frame(typ, text)).m)
  {
    var s := EVENT_LINE + typ + [LF] + DATA_LINE + text;
    assert Frame(typ, text) == s + [LF, LF];
    FeedAppend(p, s, [LF, LF]);
    FeedShape(p, s);
    var q := Feed(p, s);
    var q1 := FeedChar(q, LF);
    assert q1 == Fresh(q1.m);
    assert [LF, LF][1..] == [LF];
    assert Feed(q, [LF, LF]) == Feed(q1, [LF]);
    FeedBlank(q1.m);
  }

  // ---------------------------------------------------------------- a whole stream

  datatype Item = Item(typ: string, text: string)

  predicate Printable(x: Item) {
    x.typ != "" && Unbroken(x.typ) && SingleLine(x.text)
  }

  function Stream(items: seq<Item>): string {
    if items == [] then ""
    else Stream(items[..|items| - 1]) + Frame(items[|items| - 1].typ, items[|items| - 1].text)
  }

  lemma StreamSnoc(items: seq<Item>, x: Item)
    ensures Stream(items + [x]) == Stream(items) + Frame(x.typ, x.text)
  {
    assert (items + [x])[..|items|] == items;
  }

  function EventsOf(items: seq<Item>): seq<Event> {
    seq(|items|, k requires 0 <= k < |items| => Event(items[k].typ, Chomp(items[k].text), ""))
  }

  lemma {:induction false} FeedStream(items: seq<Item>)
    requires forall x :: x in items ==> Printable(x)
    ensures Feed(Fresh(START), Stream(items)) == Fresh(START.(out := EventsOf(items)))
    decreases |items|
  {
    if items == [] {
    } else {
      var init, last := items[..|items| - 1], items[|items| - 1];
      assert Printable(last) by { assert last in items; }
      FeedStream(init);
      FeedAppend(Fresh(START), Stream(init), Frame(last.typ, last.text));
      FrameRoundTrip(START.(out := EventsOf(init)), last.typ, last.text);
      assert EventsOf(items) == EventsOf(init) + [Event(last.typ, Chomp(last.text), "")];
    }
  }

  /** Whole frames in, exactly their events out, in order, however the stream is chunked. */
  lemma StreamRoundTrip(items: seq<Item>, chunks: seq<string>)
    requires forall x :: x in items ==> Printable(x)
    requires Concat(chunks) == Stream(items)
    ensures FeedChunks(Fresh(START), chunks).m.out == EventsOf(items)
  {
    FeedConcat(Fresh(START), chunks);
    FeedStream(items);
  }

  /** With part of one more frame behind them: the events of the whole frames, and at most the
      event of the frame under way. */
  lemma StreamPrefix(items: seq<Item>, x: Item, k: nat)
    requires (forall y :: y in items ==> Printable(y)) && Printable(x) && k <= |Frame(x.typ, x.text)|
    ensures var out := Feed(Fresh(START), Stream(items) + Frame(x.typ, x.text)[..k]).m.out;
            out == EventsOf(items) || out == EventsOf(items + [x])
  {
    var m, f := START.(out := EventsOf(items)), Frame(x.typ, x.text);
    FeedStream(items);
    FeedAppend(Fresh(START), Stream(items), f[..k]);
    FrameRoundTrip(m, x.typ, x.text);
    assert f == f[..k] + f[k..];
    FeedAppend(Fresh(m), f[..k], f[k..]);
    FeedShape(Fresh(m), f[..k]);
    FeedShape(Feed(Fresh(m), f[..k]), f[k..]);
    var out := Feed(Fresh(m), f[..k]).m.out;
    var ev := Event(x.typ, Chomp(x.text), "");
    assert EventsOf(items + [x]) == EventsOf(items) + [ev];
    assert EventsOf(items) <= out <= EventsOf(items) + [ev];
    if |out| == |items| {
      assert out == EventsOf(items);
    } else {
      assert out == EventsOf(items) + [ev];
    }
  }

  // ---------------------------------------------------------------- frames with any text

  /** What the page's log-line listener is given of the dispatched events. */
  function LogLines(out: seq<Event>): seq<string> {
    if out == [] then []
    else LogLines(out[..|out| - 1]) + if out[|out| - 1].typ == LOG_LINE then [out[|out| - 1].data] else []
  }

  lemma LogLinesSnoc(out: seq<Event>, e: Event)
    ensures LogLines(out + [e]) == LogLines(out) + if e.typ == LOG_LINE then [e.data] else []
  {
    assert (out + [e])[..|out|] == out;
  }

  lemma {:induction false} LogLinesPrefix(out: seq<Event>, out': seq<Event>)
    requires out <= out'
    ensures LogLines(out) <= LogLines(out')
    decreases |out'|
  {
    if out != out' {
      LogLinesPrefix(out, out'[..|out'| - 1]);
    } else {
      assert LogLines(out) == LogLines(out');
    }
  }

  /** The machine without what earlier events leave behind and the listener does not see. */
  function Bare(m: Machine): Machine {
    m.(lastId := "", retry := "", out := [])
  }

  lemma ProcessLineBare(m: Machine, line: string)
    ensures Bare(ProcessLine(m, line)) == Bare(ProcessLine(Bare(m), line))
    ensures LogLines(ProcessLine(m, line).out) == LogLines(m.out) + LogLines(ProcessLine(Bare(m), line).out)
  {
    if line == "" && m.data != "" {
      var e, e' := Dispatch(m).out[|m.out|], Dispatch(Bare(m)).out[0];
      LogLinesSnoc(m.out, e);
      LogLinesSnoc([], e');
      assert [] + [e'] == [e'];
    }
  }

  /** What a stream adds for the listener depends on the line and the event under way only. */
  lemma {:induction false} FeedBare(p: Parser, s: string)
    ensures Bare(Feed(p, s).m) == Bare(Feed(p.(m := Bare(p.m)), s).m)
    ensures LogLines(Feed(p, s).m.out) == LogLines(p.m.out) + LogLines(Feed(p.(m := Bare(p.m)), s).m.out)
    decreases |s|
  {
    hide ProcessLine, LogLines, Bare;
    var q := p.(m := Bare(p.m));
    if s == "" {
      BareIdempotent(p.m);
    } else {
      var p1, q1 := FeedChar(p, s[0]), FeedChar(q, s[0]);
      ProcessLineBare(p.m, p.line);
      BareIdempotent(p.m);
      FeedBare(p1, s[1..]);
      FeedBare(q1, s[1..]);
      assert p1.(m := Bare(p1.m)) == q1.(m := Bare(q1.m));
    }
  }

  lemma BareIdempotent(m: Machine)
    ensures Bare(Bare(m)) == Bare(m) && LogLines(Bare(m).out) == []
  {
  }

  /** What the listener is given of one frame by itself. */
  function Alone(x: Item): seq<string> {
    LogLines(Feed(Fresh(START), Frame(x.typ, x.text)).m.out)
  }

  function Heard(items: seq<Item>): seq<string> {
    if items == [] then [] else Heard(items[..|items| - 1]) + Alone(items[|items| - 1])
  }

  lemma HeardSnoc(items: seq<Item>, x: Item)
    ensures Heard(items + [x]) == Heard(items) + Alone(x)
  {
    assert (items + [x])[..|items|] == items;
  }

  /** Whatever the texts contain, the frames of a stream do not disturb each other: the listener is
      given, in order, what each frame yields by itself. */
  lemma {:induction false} AnyStream(items: seq<Item>)
    ensures var p := Feed(Fresh(START), Stream(items));
            Idle(p.m) && p == Fresh(p.m) && LogLines(p.m.out) == Heard(items)
    decreases |items|
  {
    hide Feed, Frame, LogLines;
    if items == [] {
      assert Feed(Fresh(START), "") == Fresh(START) by { FeedNothing(Fresh(START)); }
      assert LogLines(START.out) == [] by { BareIdempotent(START); }
    } else {
      var init, x := items[..|items| - 1], items[|items| - 1];
      AnyStream(init);
      var p := Feed(Fresh(START), Stream(init));
      FeedAppend(Fresh(START), Stream(init), Frame(x.typ, x.text));
      FrameResynchronises(p, x.typ, x.text);
      FeedBare(p, Frame(x.typ, x.text));
      assert p.(m := Bare(p.m)) == Fresh(START);
    }
  }

  lemma FeedNothing(p: Parser)
    ensures Feed(p, "") == p
  {
  }

  /** With part of one more frame behind them, the listener has the beginning of what that frame
      yields. */
  lemma AnyStreamPrefix(items: seq<Item>, x: Item, k: nat)
    requires k <= |Frame(x.typ, x.text)|
    ensures var lines := LogLines(Feed(Fresh(START), Stream(items) + Frame(x.typ, x.text)[..k]).m.out);
            Heard(items) <= lines <= Heard(items + [x])
  {
    hide Feed, Frame, LogLines, Stream, Heard;
    var p, f := Feed(Fresh(START), Stream(items)), Frame(x.typ, x.text);
    AnyStream(items);
    HeardSnoc(items, x);
    FeedAppend(Fresh(START), Stream(items), f[..k]);
    FeedBare(p, f[..k]);
    assert p.(m := Bare(p.m)) == Fresh(START);
    var q := Feed(Fresh(START), f[..k]);
    FeedAppend(Fresh(START), f[..k], f[k..]);
    assert f == f[..k] + f[k..];
    FeedShape(Fresh(START), f[..k]);
    FeedShape(q, f[k..]);
    LogLinesPrefix(q.m.out, Feed(q, f[k..]).m.out);
  }

  lemma {:induction false} LongestData(out: seq<Event>, line: string)
    requires line in LogLines(out)
    ensures |line| < DataTotal(out)
    decreases |out|
  {
    if line in LogLines(out[..|out| - 1]) {
      LongestData(out[..|out| - 1], line);
    }
  }

  /** A log-line frame gives the listener its text, and nothing else, if and only if the text is a
      single line. */
  lemma AloneIff(text: string)
    ensures Alone(Item(LOG_LINE, text)) == [Chomp(text)] <==> SingleLine(text)
  {
    hide Feed, Frame, Weight;
    assert Unbroken(LOG_LINE);
    var out := Feed(Fresh(START), Frame(LOG_LINE, text)).m.out;
    if SingleLine(text) {
      FrameRoundTrip(START, LOG_LINE, text);
      LogLinesSnoc([], Event(LOG_LINE, Chomp(text), ""));
      assert [] + [Event(LOG_LINE, Chomp(text), "")] == out;
    } else if Chomp(text) in LogLines(out) {
      BrokenTextIsCut(START, LOG_LINE, text);
      LongestData(out, Chomp(text));
      TotalInWeight(Feed(Fresh(START), Frame(LOG_LINE, text)).m);
    }
  }

  lemma TotalInWeight(m: Machine)
    ensures DataTotal(m.out) <= Weight(m)
  {
  }

  /** A frame of another type whose text is a single line gives the listener nothing. */
  lemma AloneOther(typ: string, text: string)
    requires typ != "" && typ != LOG_LINE && Unbroken(typ) && SingleLine(text)
    ensures Alone(Item(typ, text)) == []
  {
    hide Feed, Frame;
    FrameRoundTrip(START, typ, text);
    LogLinesSnoc([], Event(typ, Chomp(text), ""));
    assert [] + [Event(typ, Chomp(text), "")] == Feed(Fresh(START), Frame(typ, text)).m.out;
  }
}
