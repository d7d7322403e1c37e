/**
 The text layer of the event stream: the server's printer and the browser's
 incremental parser. The parser follows sections 9.2.5 and 9.2.6 of the WHATWG
 HTML Living Standard with two deviations: the id does not outlive its frame,
 and an unterminated last frame is an error.
 */
module ServerSentEvents {
  import opened Prelude
  import Texts

  const MAX_FRAME := 32768

  datatype SseFrame = SseFrame(kind: string, id: Option<string>, data: string)

  /** Size in UTF-16 code units. */
  function Units(c: char): nat {
    if c as int >= 0x10000 then 2 else 1
  }

  function Size(s: string): nat {
    if s == "" then 0 else Units(s[0]) + Size(s[1..])
  }

  // --------------------------------------------------------------- parser

  datatype Parser = Parser(
    line: string, size: nat, skipLF: bool,
    kind: string, id: Option<string>, data: seq<string>,
    frames: seq<SseFrame>, oversized: bool)

  const INITIAL := Parser("", 0, false, "message", None, [], [], false)

  function IndexOfColon(s: string): (n: nat)
    ensures n <= |s| && (n < |s| ==> s[n] == ':') && ':' !in s[..n]
  {
    if s == "" then 0
    else if s[0] == ':' then 0
    else
      assert forall c :: c in s[..1 + IndexOfColon(s[1..])] ==> c == s[0] || c in s[1..][..IndexOfColon(s[1..])];
      1 + IndexOfColon(s[1..])
  }

  function FieldName(line: string): string {
    line[..IndexOfColon(line)]
  }

  /** The text after the colon, without one leading space. */
  function FieldValue(line: string): string {
    var colon := IndexOfColon(line);
    if colon == |line| then ""
    else if colon + 1 < |line| && line[colon + 1] == ' ' then line[colon + 2..]
    else line[colon + 1..]
  }

  function JoinLines(lines: seq<string>): string {
    if lines == [] then ""
    else if |lines| == 1 then lines[0]
    else lines[0] + "\n" + JoinLines(lines[1..])
  }

  function Dispatched(p: Parser): seq<SseFrame> {
    if p.data == [] then [] else [SseFrame(p.kind, p.id, JoinLines(p.data))]
  }

  function FinishLine(p: Parser): Parser {
    if p.line == "" then
      p.(frames := p.frames + Dispatched(p), kind := "message", id := None, data := [], size := 0)
    else if p.line[0] == ':' then p.(line := "")
    else
      var name := FieldName(p.line);
      var value := FieldValue(p.line);
      var q := p.(line := "");
      if name == "event" then q.(kind := value)
      else if name == "id" && '\0' !in value then q.(id := Some(value))
      else if name == "data" then q.(data := p.data + [value])
      else q
  }

  function FeedChar(p: Parser, c: char): Parser {
    if p.oversized then p
    else if p.skipLF && c == '\n' then p.(skipLF := false)
    else
      var q := p.(skipLF := false, size := p.size + Units(c));
      if q.size > MAX_FRAME then q.(oversized := true)
      else if c == '\r' || c == '\n' then FinishLine(q).(skipLF := c == '\r')
      else q.(line := q.line + [c])
  }

  function Feed(p: Parser, text: string): Parser
    decreases |text|, p
  {
    if text == "" then p else Feed(FeedChar(p, text[0]), text[1..])
  }

  function Concat(chunks: seq<string>): string {
    if chunks == [] then "" else Concat(chunks[..|chunks| - 1]) + chunks[|chunks| - 1]
  }

  /** What the reader reports when the bytes end. */
  datatype Verdict = Clean | Oversized | Incomplete

  function VerdictOf(p: Parser): Verdict {
    if p.oversized then Oversized
    else if p.line != "" || p.data != [] then Incomplete
    else Clean
  }

  /** The parser's variables, updated character by character. */
  class EventReader {
    var line: string
    var size: nat
    var skipLF: bool
    var kind: string
    var id: Option<string>
    var data: seq<string>
    var frames: seq<SseFrame>
    var oversized: bool

    function Now(): Parser
      reads this
    {
      Parser(line, size, skipLF, kind, id, data, frames, oversized)
    }

    constructor ()
      ensures Now() == INITIAL
    {
      line, size, skipLF, kind, id, data, frames, oversized := "", 0, false, "message", None, [], [], false;
    }

    method CloseLine()
      modifies this
      ensures Now() == FinishLine(old(Now()))
    {
      if line == "" {
        if data != [] {
          frames := frames + [SseFrame(kind, id, JoinLines(data))];
        }
        kind, id, data, size := "message", None, [], 0;
      } else if line[0] != ':' {
        var name, value := FieldName(line), FieldValue(line);
        if name == "event" {
          kind := value;
        } else if name == "id" && '\0' !in value {
          id := Some(value);
        } else if name == "data" {
          data := data + [value];
        }
      }
      line := "";
    }

    method Parse(text: string)
      modifies this
      ensures Now() == Feed(old(Now()), text)
    {
      var i := 0;
      while i < |text| && !oversized
        invariant 0 <= i <= |text|
        invariant Feed(old(Now()), text) == Feed(Now(), text[i..])
      {
        var c := text[i];
        assert text[i..][1..] == text[i + 1..];
        i := i + 1;
        if skipLF && c == '\n' {
          skipLF := false;
          continue;
        }
        skipLF := false;
        size := size + Units(c);
        if size > MAX_FRAME {
          oversized := true;
        } else if c == '\r' || c == '\n' {
          CloseLine();
          skipLF := c == '\r';
        } else {
          line := line + [c];
        }
      }
      OversizedStops(Now(), text[i..]);
    }

    /** Reads a whole body, however the transport cut it into chunks. */
    method Consume(chunks: seq<string>) returns (verdict: Verdict)
      modifies this
      ensures Now() == Feed(old(Now()), Concat(chunks))
      ensures verdict == VerdictOf(Now())
    {
      var i := 0;
      while i < |chunks|
        invariant 0 <= i <= |chunks|
        invariant Now() == Feed(old(Now()), Concat(chunks[..i]))
      {
        Parse(chunks[i]);
        assert chunks[..i + 1][..i] == chunks[..i];
        FeedAppend(old(Now()), Concat(chunks[..i]), chunks[i]);
        i := i + 1;
      }
      assert chunks[..i] == chunks;
      verdict := VerdictOf(Now());
    }
  }

  lemma {:induction false} OversizedStops(p: Parser, text: string)
    ensures p.oversized ==> Feed(p, text) == p
    decreases |text|
  {
    if text != "" {
      OversizedStops(p, text[1..]);
    }
  }

  lemma {:induction false} FeedAppend(p: Parser, a: string, b: string)
    ensures Feed(p, a + b) == Feed(Feed(p, a), b)
    decreases |a|
  {
    if a == "" {
      assert a + b == b;
    } else {
      FeedAppend(FeedChar(p, a[0]), a[1..], b);
      assert (a + b)[1..] == a[1..] + b;
    }
  }

  // -------------------------------------------------------------- printer

  function Digit(d: nat): char
    requires d < 10
  {
    "0123456789"[d]
  }

  function Digits(n: nat): string {
    if n < 10 then [Digit(n)] else Digits(n / 10) + [Digit(n % 10)]
  }

  datatype Item =
    | Message(kind: string, json: string, sequence: Option<nat>)
    | Heartbeat

  function IdLine(sequence: Option<nat>): string {
    match sequence
    case None => ""
    case Some(n) => "id: " + Digits(n) + "\n"
  }

  function EventLine(kind: string): string {
    "event: " + kind + "\n"
  }

  function DataLine(json: string): string {
    "data: " + json + "\n"
  }

  function Print(item: Item): string {
    match item
    case Message(kind, json, sequence) =>
      IdLine(sequence) + EventLine(kind) + DataLine(json) + "\n"
    case Heartbeat => ": heartbeat\n\n"
  }

  function PrintAll(items: seq<Item>): string {
    if items == [] then "" else Print(items[0]) + PrintAll(items[1..])
  }

  predicate OneLine(s: string) {
    '\n' !in s && '\r' !in s
  }

  /** A message whose fields fit on their lines and whose text fits the cap. */
  predicate Printable(item: Item) {
    match item
    case Message(kind, json, _) => OneLine(kind) && OneLine(json) && Size(Print(item)) <= MAX_FRAME
    case Heartbeat => true
  }

  function FramesOf(item: Item): seq<SseFrame> {
    match item
    case Message(kind, json, sequence) =>
      [SseFrame(kind, if sequence.Some? then Some(Digits(sequence.value)) else None, json)]
    case Heartbeat => []
  }

  function FramesOfAll(items: seq<Item>): seq<SseFrame> {
    if items == [] then [] else FramesOf(items[0]) + FramesOfAll(items[1..])
  }

  // ------------------------------------------------------------ round trip

  /** Between frames: nothing is left over from the previous one. */
  predicate Fresh(p: Parser) {
    p.line == "" && p.size == 0 && !p.skipLF && p.kind == "message" && p.id == None && p.data == []
    && !p.oversized
  }

  lemma {:induction false} SizeAppend(a: string, b: string)
    ensures Size(a + b) == Size(a) + Size(b)
  {
    if a == "" {
      assert a + b == b;
    } else {
      SizeAppend(a[1..], b);
      assert (a + b)[1..] == a[1..] + b;
    }
  }

  lemma {:induction false} FeedText(p: Parser, s: string)
    requires OneLine(s) && !p.oversized && !p.skipLF && p.size + Size(s) <= MAX_FRAME
    ensures Feed(p, s) == p.(line := p.line + s, size := p.size + Size(s))
    decreases |s|
  {
    if s == "" {
      assert p.line + s == p.line;
    } else {
      FeedText(FeedChar(p, s[0]), s[1..]);
      assert p.line + [s[0]] + s[1..] == p.line + s;
    }
  }

  lemma FeedNothing(p: Parser)
    ensures Feed(p, "") == p
  {
  }

  lemma FeedOne(p: Parser, c: char)
    ensures Feed(p, [c]) == FeedChar(p, c)
  {
    assert [c][1..] == "";
  }

  lemma FeedNewline(p: Parser)
    requires !p.oversized && !p.skipLF && p.size + 1 <= MAX_FRAME
    ensures FeedChar(p, '\n') == FinishLine(p.(size := p.size + 1))
  {
    FinishKeepsSkip(p.(size := p.size + 1));
  }

  lemma FinishKeepsSkip(p: Parser)
    ensures FinishLine(p).(skipLF := p.skipLF) == FinishLine(p)
  {
  }

  /** A whole line: its text, then one newline. */
  lemma FeedLine(p: Parser, s: string)
    requires OneLine(s) && p.line == "" && !p.oversized && !p.skipLF && p.size + Size(s) + 1 <= MAX_FRAME
    ensures Feed(p, s + "\n") == FinishLine(p.(line := s, size := p.size + Size(s) + 1))
  {
    hide Feed, FeedChar, FinishLine, Size;
    FeedAppend(p, s, ['\n']);
    FeedText(p, s);
    assert "" + s == s;
    var q := p.(line := s, size := p.size + Size(s));
    assert Feed(p, s) == q;
    FeedOne(q, '\n');
    FeedNewline(q);
  }

  lemma {:induction false} ColonAfter(name: string, rest: string)
    requires ':' !in name
    ensures IndexOfColon(name + ":" + rest) == |name|
  {
    var s := name + ":" + rest;
    var n := IndexOfColon(s);
    assert s[|name|] == ':';
  }

  lemma FieldOf(name: string, value: string)
    requires ':' !in name
    ensures FieldName(name + ": " + value) == name
    ensures FieldValue(name + ": " + value) == value
  {
    var line := name + ": " + value;
    assert line == name + ":" + (" " + value);
    ColonAfter(name, " " + value);
    assert line[..|name|] == name;
    assert line[|name| + 2..] == value;
  }

  lemma {:induction false} DigitsAreDigits(n: nat)
    ensures forall c :: c in Digits(n) ==> '0' <= c <= '9'
  {
    if n >= 10 {
      DigitsAreDigits(n / 10);
    }
  }

  lemma FeedField(p: Parser, name: string, value: string)
    requires name == "event" || name == "data" || (name == "id" && '\0' !in value)
    requires OneLine(value) && p.line == "" && !p.oversized && !p.skipLF
    requires p.size + Size(name + ": " + value + "\n") <= MAX_FRAME
    ensures var q := p.(size := p.size + Size(name + ": " + value + "\n"));
            Feed(p, name + ": " + value + "\n") ==
            if name == "event" then q.(kind := value)
            else if name == "id" then q.(id := Some(value))
            else q.(data := p.data + [value])
  {
    var line := name + ": " + value;
    assert Size("\n") == 1 by { assert "\n"[1..] == ""; }
    SizeAppend(line, "\n");
    hide Feed, Size;
    FeedLine(p, line);
    FieldOf(name, value);
    assert ':' !in name;
  }

  lemma FeedIdLine(p: Parser, sequence: Option<nat>)
    requires Fresh(p) && Size(IdLine(sequence)) <= MAX_FRAME
    ensures Feed(p, IdLine(sequence)) ==
            p.(id := if sequence.Some? then Some(Digits(sequence.value)) else None,
               size := Size(IdLine(sequence)))
  {
    FeedNothing(p);
    assert Size("") == 0;
    hide Feed, Size;
    if sequence.Some? {
      var digits := Digits(sequence.value);
      DigitsAreDigits(sequence.value);
      assert IdLine(sequence) == "id" + ": " + digits + "\n";
      FeedField(p, "id", digits);
    }
  }

  lemma FeedEventLine(p: Parser, kind: string)
    requires OneLine(kind) && p.line == "" && !p.oversized && !p.skipLF
    requires p.size + Size(EventLine(kind)) <= MAX_FRAME
    ensures Feed(p, EventLine(kind)) == p.(kind := kind, size := p.size + Size(EventLine(kind)))
  {
    hide Feed, Size;
    assert EventLine(kind) == "event" + ": " + kind + "\n";
    FeedField(p, "event", kind);
  }

  lemma FeedDataLine(p: Parser, json: string)
    requires OneLine(json) && p.line == "" && !p.oversized && !p.skipLF
    requires p.size + Size(DataLine(json)) <= MAX_FRAME
    ensures Feed(p, DataLine(json)) == p.(data := p.data + [json], size := p.size + Size(DataLine(json)))
  {
    hide Feed, Size;
    assert DataLine(json) == "data" + ": " + json + "\n";
    FeedField(p, "data", json);
  }

  lemma FeedBlank(p: Parser)
    requires p.line == "" && !p.oversized && !p.skipLF && p.size + 1 <= MAX_FRAME
    ensures Feed(p, "\n") ==
            p.(frames := p.frames + Dispatched(p), kind := "message", id := None, data := [], size := 0)
  {
    FeedLine(p, "");
    hide Feed;
    assert "" + "\n" == "\n";
  }

  lemma FourParts(p: Parser, a: string, b: string, c: string, d: string)
    ensures Feed(p, a + b + c + d) == Feed(Feed(Feed(Feed(p, a), b), c), d)
    ensures Size(a + b + c + d) == Size(a) + Size(b) + Size(c) + Size(d)
  {
    hide Feed, Size;
    FeedAppend(p, a + b + c, d);
    FeedAppend(p, a + b, c);
    FeedAppend(p, a, b);
    SizeAppend(a + b + c, d);
    SizeAppend(a + b, c);
    SizeAppend(a, b);
  }

  lemma FeedMessage(p: Parser, kind: string, json: string, sequence: Option<nat>)
    requires Fresh(p) && Printable(Message(kind, json, sequence))
    ensures Feed(p, Print(Message(kind, json, sequence)))
            == p.(frames := p.frames + FramesOf(Message(kind, json, sequence)))
  {
    assert Size("\n") == 1 by { assert "\n"[1..] == ""; }
    hide Feed, Size, IdLine, EventLine, DataLine, FinishLine;
    FourParts(p, IdLine(sequence), EventLine(kind), DataLine(json), "\n");
    FeedIdLine(p, sequence);
    var p1 := Feed(p, IdLine(sequence));
    FeedEventLine(p1, kind);
    var p2 := Feed(p1, EventLine(kind));
    FeedDataLine(p2, json);
    FeedBlank(Feed(p2, DataLine(json)));
    assert [] + [json] == [json];
  }

  lemma FeedComment(p: Parser, line: string)
    requires Fresh(p) && line != "" && line[0] == ':' && OneLine(line) && Size(line) + 2 <= MAX_FRAME
    ensures Feed(p, (line + "\n") + "\n") == p
  {
    FeedAppend(p, line + "\n", "\n");
    FeedLine(p, line);
    FeedBlank(Feed(p, line + "\n"));
    assert p.frames + [] == p.frames;
  }

  lemma FeedHeartbeat(p: Parser)
    requires Fresh(p)
    ensures Feed(p, Print(Heartbeat)) == p
  {
    var line := ": heartbeat";
    AsciiSize(line);
    hide Feed, Size;
    assert Print(Heartbeat) == (line + "\n") + "\n";
    FeedComment(p, line);
  }

  lemma {:induction false} AsciiSize(s: string)
    ensures Size(s) <= 2 * |s|
  {
    if s != "" {
      AsciiSize(s[1..]);
    }
  }

  lemma FeedItem(p: Parser, item: Item)
    requires Fresh(p) && Printable(item)
    ensures Feed(p, Print(item)) == p.(frames := p.frames + FramesOf(item))
  {
    match item
    case Message(kind, json, sequence) => FeedMessage(p, kind, json, sequence);
    case Heartbeat =>
      FeedHeartbeat(p);
      assert p.frames + [] == p.frames;
  }

  /** Parsing what the server printed gives back exactly the frames, heartbeats aside. */
  lemma {:induction false} ParsePrinted(p: Parser, items: seq<Item>)
    requires Fresh(p) && forall i :: 0 <= i < |items| ==> Printable(items[i])
    ensures Feed(p, PrintAll(items)) == p.(frames := p.frames + FramesOfAll(items))
    decreases |items|
  {
    hide Feed, Print, FramesOf, Printable, Size;
    if items == [] {
      FeedNothing(p);
      assert p.frames + [] == p.frames;
    } else {
      FeedAppend(p, Print(items[0]), PrintAll(items[1..]));
      FeedItem(p, items[0]);
      var q := p.(frames := p.frames + FramesOf(items[0]));
      ParsePrinted(q, items[1..]);
      assert p.frames + FramesOf(items[0]) + FramesOfAll(items[1..]) == p.frames + FramesOfAll(items);
    }
  }

  /** The whole body, in any chunks: the frames sent, and a clean end. */
  lemma RoundTrip(items: seq<Item>, chunks: seq<string>)
    requires forall i :: 0 <= i < |items| ==> Printable(items[i])
    requires Concat(chunks) == PrintAll(items)
    ensures var p := Feed(INITIAL, Concat(chunks));
            p.frames == FramesOfAll(items) && VerdictOf(p) == Clean
  {
    ParsePrinted(INITIAL, items);
    assert [] + FramesOfAll(items) == FramesOfAll(items);
  }

  lemma {:induction false} FramesOnlyGrow(p: Parser, text: string)
    ensures p.frames <= Feed(p, text).frames
    decreases |text|
  {
    if text != "" {
      FramesOnlyGrow(FeedChar(p, text[0]), text[1..]);
    }
  }

  /** A connection cut anywhere has delivered a prefix of the frames sent, each intact. */
  lemma CutDeliversPrefix(items: seq<Item>, received: string)
    requires forall i :: 0 <= i < |items| ==> Printable(items[i])
    requires received <= PrintAll(items)
    ensures Feed(INITIAL, received).frames <= FramesOfAll(items)
  {
    var lost := PrintAll(items)[|received|..];
    assert received + lost == PrintAll(items);
    FeedAppend(INITIAL, received, lost);
    FramesOnlyGrow(Feed(INITIAL, received), lost);
    ParsePrinted(INITIAL, items);
    assert [] + FramesOfAll(items) == FramesOfAll(items);
  }

  // --------------------------------------------------------- line endings

  /** The states agree except on whether the next LF is to be skipped. */
  predicate SameButSkip(p: Parser, q: Parser) {
    p == q.(skipLF := p.skipLF)
  }

  lemma FeedStep(p: Parser, text: string)
    requires text != ""
    ensures Feed(p, text) == Feed(FeedChar(p, text[0]), text[1..])
  {
  }

  /** An LF, a CR and a CR with its LF all do the same to the rest of the state. */
  lemma EndOfLine(p: Parser, q: Parser)
    requires SameButSkip(p, q) && !q.skipLF
    ensures SameButSkip(FeedChar(p, '\r'), FeedChar(q, '\n')) && !FeedChar(q, '\n').skipLF
    ensures !p.oversized ==>
              var r := FeedChar(FeedChar(p, '\r'), '\n');
              SameButSkip(r, FeedChar(q, '\n')) && !r.skipLF
  {
  }

  /** Decoding the line endings first makes no difference, wherever the reading starts. */
  lemma {:induction false} DecodedFirst(p: Parser, q: Parser, text: string)
    requires SameButSkip(p, q) && !q.skipLF
    requires p.skipLF && text != "" ==> text[0] != '\n'
    ensures SameButSkip(Feed(p, text), Feed(q, Texts.Universal(text)))
    decreases |text|
  {
    if p.oversized {
      OversizedStops(p, text);
      OversizedStops(q, Texts.Universal(text));
    } else if text != "" {
      var c := if text[0] == '\r' then '\n' else text[0];
      var n := Texts.StepLength(text);
      Texts.UniversalStep(text);
      FeedStep(p, text);
      FeedStep(q, Texts.Universal(text));
      assert Texts.Universal(text)[1..] == Texts.Universal(text[n..]);
      EndOfLine(p, q);
      var r := FeedChar(p, text[0]);
      if n == 2 {
        FeedStep(r, text[1..]);
        assert text[1..][1..] == text[2..];
        r := FeedChar(r, '\n');
      }
      hide Feed, Texts.Universal;
      DecodedFirst(r, FeedChar(q, c), text[n..]);
    }
  }

  /** LF, CRLF and CR, in any mixture, give the same frames and the same verdict as LF alone. */
  lemma LineEndingsDoNotMatter(text: string)
    ensures var p := Feed(INITIAL, text);
            var q := Feed(INITIAL, Texts.Universal(text));
            p.frames == q.frames && VerdictOf(p) == VerdictOf(q)
  {
    DecodedFirst(INITIAL, INITIAL, text);
  }

  // ----------------------------------------------------- reference by lines

  datatype Fields = Fields(kind: string, id: Option<string>, data: seq<string>)

  const NO_FIELDS := Fields("message", None, [])

  function Unlines(lines: seq<string>): string {
    if lines == [] then "" else lines[0] + "\n" + Unlines(lines[1..])
  }

  /** One field line of the block being collected; comments and unknown names change nothing. */
  function Collect(f: Fields, line: string): Fields {
    if line != "" && line[0] == ':' then f
    else
      match FieldName(line)
      case "event" => f.(kind := FieldValue(line))
      case "id" => if '\0' in FieldValue(line) then f else f.(id := Some(FieldValue(line)))
      case "data" => f.(data := f.data + [FieldValue(line)])
      case _ => f
  }

  /** The frames of a list of complete lines: a blank line ends a block. */
  function Interpret(lines: seq<string>, f: Fields): seq<SseFrame> {
    if lines == [] then []
    else if lines[0] == "" then
      (if f.data == [] then [] else [SseFrame(f.kind, f.id, JoinLines(f.data))])
      + Interpret(lines[1..], NO_FIELDS)
    else Interpret(lines[1..], Collect(f, lines[0]))
  }

  lemma {:induction false} OversizedStays(p: Parser, text: string)
    ensures Feed(p, text).oversized || !p.oversized
  {
    OversizedStops(p, text);
  }

  lemma {:induction false} FeedUncapped(p: Parser, s: string)
    requires OneLine(s) && !p.skipLF && !Feed(p, s + "\n").oversized
    ensures !p.oversized && p.size + Size(s) + 1 <= MAX_FRAME
    decreases |s|
  {
    OversizedStays(p, s + "\n");
    assert (s + "\n")[0] == if s == "" then '\n' else s[0];
    if s == "" {
      assert s + "\n" == "\n" && "\n"[1..] == "";
    } else {
      var q := FeedChar(p, s[0]);
      assert (s + "\n")[1..] == s[1..] + "\n";
      OversizedStays(q, s[1..] + "\n");
      FeedUncapped(q, s[1..]);
    }
  }

  function FieldsOf(p: Parser): Fields {
    Fields(p.kind, p.id, p.data)
  }

  lemma FinishIsCollect(p: Parser, s: string)
    requires p.line == s
    ensures var q := FinishLine(p);
            && q.line == "" && q.skipLF == p.skipLF
            && if s == "" then q.frames == p.frames + Dispatched(p) && FieldsOf(q) == NO_FIELDS
               else q.frames == p.frames && FieldsOf(q) == Collect(FieldsOf(p), s)
  {
  }

  /** Within the cap, the character automaton computes the reading by lines. */
  lemma {:induction false} ParserReadsLines(p: Parser, lines: seq<string>)
    requires forall i :: 0 <= i < |lines| ==> OneLine(lines[i])
    requires p.line == "" && !p.skipLF
    requires !Feed(p, Unlines(lines)).oversized
    ensures Feed(p, Unlines(lines)).frames
            == p.frames + Interpret(lines, FieldsOf(p))
    decreases |lines|
  {
    hide Feed, FinishLine, Collect, Size;
    if lines == [] {
      FeedNothing(p);
      assert p.frames + [] == p.frames;
    } else {
      var s := lines[0];
      FeedAppend(p, s + "\n", Unlines(lines[1..]));
      var q := Feed(p, s + "\n");
      OversizedStays(q, Unlines(lines[1..]));
      FeedUncapped(p, s);
      FeedLine(p, s);
      FinishIsCollect(p.(line := s, size := p.size + Size(s) + 1), s);
      ParserReadsLines(q, lines[1..]);
    }
  }
}
