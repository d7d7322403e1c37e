/** What the parser makes of every text: the fields, the size cap and the end, line by line. */
module ServerSentEventLaws {
  import opened Prelude
  import opened ServerSentEvents
  import Texts

  // ---------------------------------------------------------------- fields

  /** What a field of this name does; any other name does nothing. */
  function With(f: Fields, name: string, value: string): Fields {
    if name == "event" then f.(kind := value)
    else if name == "data" then f.(data := f.data + [value])
    else if name == "id" && forall c :: c in value ==> c != '\0' then f.(id := Some(value))
    else f
  }

  /** A line is a name, a colon and a value, without the one space after the colon; or a bare name; or a comment. */
  lemma FieldsAreReadExactly(f: Fields, name: string, value: string)
    requires ':' !in name && name != ""
    ensures Collect(f, name) == With(f, name, "")
    ensures Collect(f, name + ":" + " " + value) == With(f, name, value)
    ensures (value == "" || value[0] != ' ') ==> Collect(f, name + ":" + value) == With(f, name, value)
    ensures Collect(f, ":" + value) == f
  {
    FieldParts(name, value);
    var spaced, plain := name + ":" + " " + value, name + ":" + value;
    assert spaced[0] == name[0] && plain[0] == name[0] && name[0] in name;
    hide FieldName, FieldValue;
  }

  lemma FieldParts(name: string, value: string)
    requires ':' !in name
    ensures FieldName(name) == name && FieldValue(name) == ""
    ensures FieldName(name + ":" + " " + value) == name && FieldValue(name + ":" + " " + value) == value
    ensures FieldName(name + ":" + value) == name
    ensures (value == "" || value[0] != ' ') ==> FieldValue(name + ":" + value) == value
  {
    FieldOf(name, value);
    ColonAfter(name, value);
    var plain := name + ":" + value;
    assert name + ":" + " " + value == name + ": " + value;
    assert plain[..|name|] == name && plain[|name| + 1..] == value && name[..|name|] == name;
    hide IndexOfColon;
    NoColon(name);
  }

  lemma NoColon(name: string)
    requires ':' !in name
    ensures IndexOfColon(name) == |name|
  {
  }

  /** The data lines of a frame are joined by line feeds. */
  lemma {:induction false} DataIsJoinedExactly(lines: seq<string>, last: string)
    ensures JoinLines(lines + [last]) == if lines == [] then last else JoinLines(lines) + "\n" + last
  {
    if lines == [] {
      assert lines + [last] == [last];
    } else {
      DataIsJoinedExactly(lines[1..], last);
      assert (lines + [last])[1..] == lines[1..] + [last];
      if |lines| == 1 {
        assert lines == [lines[0]];
      } else {
        assert lines[0] + "\n" + (JoinLines(lines[1..]) + "\n" + last)
               == lines[0] + "\n" + JoinLines(lines[1..]) + "\n" + last;
      }
    }
  }

  // ------------------------------------------------------------------ size

  /** Some block, with its line ends and the blank line that closes it, is larger than the cap. */
  predicate TooLarge(lines: seq<string>, size: nat) {
    lines != [] &&
    var all := size + Size(lines[0]) + 1;
    all > 32768 || TooLarge(lines[1..], if lines[0] == "" then 0 else all)
  }

  /** The size of the block that is still open after these lines. */
  function OpenSize(lines: seq<string>, size: nat): nat {
    if lines == [] then size
    else OpenSize(lines[1..], if lines[0] == "" then 0 else size + Size(lines[0]) + 1)
  }

  /** The fields of the block that is still open after these lines. */
  function OpenFields(lines: seq<string>, f: Fields): Fields {
    if lines == [] then f
    else OpenFields(lines[1..], if lines[0] == "" then NO_FIELDS else Collect(f, lines[0]))
  }

  /** Sizes are counted in UTF-16 code units. */
  lemma UnitsAreCountedExactly(c: char, s: string)
    ensures Size([c] + s) == (if c as int < 0x10000 then 1 else 2) + Size(s)
    ensures Size("") == 0
  {
    assert ([c] + s)[1..] == s;
  }

  /** A text without line ends goes through exactly if it fits, and is otherwise too large. */
  lemma {:induction false} TextIsFedExactly(p: Parser, s: string)
    requires OneLine(s) && !p.oversized && !p.skipLF && p.size <= MAX_FRAME
    ensures Feed(p, s).oversized <==> p.size + Size(s) > MAX_FRAME
    ensures !Feed(p, s).oversized ==> Feed(p, s) == p.(line := p.line + s, size := p.size + Size(s))
    decreases |s|
  {
    if p.size + Size(s) <= MAX_FRAME {
      FeedText(p, s);
    } else {
      var q := FeedChar(p, s[0]);
      if q.oversized {
        OversizedStops(q, s[1..]);
      } else {
        TextIsFedExactly(q, s[1..]);
      }
    }
  }

  lemma LineIsFedExactly(p: Parser, s: string)
    requires OneLine(s) && p.line == "" && !p.oversized && !p.skipLF && p.size <= MAX_FRAME
    ensures var q := Feed(p, s + "\n");
            && (q.oversized <==> p.size + Size(s) + 1 > MAX_FRAME)
            && (!q.oversized ==>
                  && q.line == "" && !q.skipLF && q.size == (if s == "" then 0 else p.size + Size(s) + 1)
                  && FieldsOf(q) == (if s == "" then NO_FIELDS else Collect(FieldsOf(p), s))
                  && q.frames == p.frames + if s == "" then Dispatched(p) else [])
  {
    FeedAppend(p, s, "\n");
    TextIsFedExactly(p, s);
    var mid := Feed(p, s);
    if p.size + Size(s) + 1 <= MAX_FRAME {
      FeedLine(p, s);
      var full := p.(line := s, size := p.size + Size(s) + 1);
      FinishIsCollect(full, s);
      SizeAfterLine(full);
      assert p.frames + [] == p.frames;
    } else {
      hide Feed, Size;
      if mid.oversized {
        OversizedStops(mid, "\n");
      } else {
        FeedOne(mid, '\n');
      }
    }
  }

  lemma SizeAfterLine(p: Parser)
    ensures FinishLine(p).size == (if p.line == "" then 0 else p.size) && FinishLine(p).oversized == p.oversized
  {
  }

  // --------------------------------------------------------------- results

  lemma {:induction false} LinesAreFedExactly(p: Parser, lines: seq<string>)
    requires forall i :: 0 <= i < |lines| ==> OneLine(lines[i])
    requires p.line == "" && !p.oversized && !p.skipLF && p.size <= MAX_FRAME
    ensures var q := Feed(p, Unlines(lines));
            && (q.oversized <==> TooLarge(lines, p.size))
            && (!q.oversized ==>
                  && q.line == "" && !q.skipLF && q.size == OpenSize(lines, p.size) <= MAX_FRAME
                  && FieldsOf(q) == OpenFields(lines, FieldsOf(p))
                  && q.frames == p.frames + Interpret(lines, FieldsOf(p)))
    decreases |lines|
  {
    if lines == [] {
      FeedNothing(p);
      assert p.frames + [] == p.frames;
    } else {
      var rest := lines[1..];
      FeedAppend(p, lines[0] + "\n", Unlines(rest));
      LineIsFedExactly(p, lines[0]);
      var q := Feed(p, lines[0] + "\n");
      assert Unlines(lines) == lines[0] + "\n" + Unlines(rest);
      hide Feed, Size, Collect;
      if q.oversized {
        OversizedStops(q, Unlines(rest));
      } else {
        assert q.size <= MAX_FRAME;
        LinesAreFedExactly(q, rest);
      }
    }
  }

  /**
   The reading of every text of complete lines and a rest: the frames of its
   lines; too large exactly if a block is; and otherwise incomplete exactly if a
   line or data lines are left open.
   */
  lemma TextsAreReadExactly(lines: seq<string>, rest: string)
    requires OneLine(rest) && forall i :: 0 <= i < |lines| ==> OneLine(lines[i])
    ensures var p := Feed(INITIAL, Unlines(lines) + rest);
            var large := TooLarge(lines, 0) || OpenSize(lines, 0) + Size(rest) > 32768;
            && (VerdictOf(p) == Oversized <==> large)
            && (VerdictOf(p) == Incomplete <==> !large && (rest != "" || OpenFields(lines, NO_FIELDS).data != []))
            && (!large ==> p.frames == Interpret(lines, NO_FIELDS))
  {
    FeedAppend(INITIAL, Unlines(lines), rest);
    LinesAreFedExactly(INITIAL, lines);
    var p := Feed(INITIAL, Unlines(lines));
    assert [] + Interpret(lines, NO_FIELDS) == Interpret(lines, NO_FIELDS);
    hide Feed, Size, Collect;
    if p.oversized {
      OversizedStops(p, rest);
    } else {
      TextIsFedExactly(p, rest);
      assert "" + rest == rest;
    }
  }

  /** Every text without carriage returns is such lines and a rest, so the reading of any text is known. */
  lemma {:induction false} TextsAreLines(text: string) returns (lines: seq<string>, rest: string)
    requires '\r' !in text
    ensures text == Unlines(lines) + rest && OneLine(rest)
    ensures forall i :: 0 <= i < |lines| ==> OneLine(lines[i])
  {
    if text == "" {
      lines, rest := [], "";
    } else {
      lines, rest := TextsAreLines(text[1..]);
      var c := text[0];
      if c == '\n' {
        assert ([""] + lines)[1..] == lines;
        lines := [""] + lines;
      } else if lines == [] {
        rest := [c] + rest;
      } else {
        var longer := [[c] + lines[0]] + lines[1..];
        assert longer[1..] == lines[1..];
        assert [c] + lines[0] + "\n" + Unlines(lines[1..]) == [c] + (lines[0] + "\n" + Unlines(lines[1..]));
        lines := longer;
      }
    }
  }

  /** Reading any text at all, with line ends of any kind. */
  lemma EveryTextIsRead(text: string) returns (lines: seq<string>, rest: string)
    ensures Texts.Universal(text) == Unlines(lines) + rest
    ensures OneLine(rest) && forall i :: 0 <= i < |lines| ==> OneLine(lines[i])
    ensures var p := Feed(INITIAL, text);
            var large := TooLarge(lines, 0) || OpenSize(lines, 0) + Size(rest) > 32768;
            && VerdictOf(p) == (if large then Oversized
                                else if rest != "" || OpenFields(lines, NO_FIELDS).data != [] then Incomplete
                                else Clean)
            && (!large ==> p.frames == Interpret(lines, NO_FIELDS))
  {
    Texts.UniversalSettles(text);
    lines, rest := TextsAreLines(Texts.Universal(text));
    LineEndingsDoNotMatter(text);
    TextsAreReadExactly(lines, rest);
    hide Feed, Interpret, TooLarge, OpenSize, OpenFields;
  }

  /** The number that a run of digits stands for. */
  function NumberOf(s: string): int {
    if s == "" then 0 else 10 * NumberOf(s[..|s| - 1]) + (s[|s| - 1] as int - '0' as int)
  }

  /** Event numbers are printed in decimal, without leading zeros. */
  lemma {:induction false} NumbersArePrintedExactly(n: nat)
    ensures var s := Digits(n);
            s != "" && NumberOf(s) == n && (forall c :: c in s ==> '0' <= c <= '9') && (n > 0 ==> s[0] != '0')
  {
    DigitsAreDigits(n);
    var last := [Digit(n % 10)];
    assert last[..0] == "" && Digit(n % 10) as int == '0' as int + n % 10 by { DigitIsItself(n % 10); }
    if n >= 10 {
      NumbersArePrintedExactly(n / 10);
      assert Digits(n)[..|Digits(n)| - 1] == Digits(n / 10);
    }
  }

  lemma DigitIsItself(d: nat)
    requires d < 10
    ensures Digit(d) as int == '0' as int + d
  {
    var digits := "0123456789";
    assert digits[0] == '0' && digits[1] == '1' && digits[2] == '2' && digits[3] == '3' && digits[4] == '4';
    assert digits[5] == '5' && digits[6] == '6' && digits[7] == '7' && digits[8] == '8' && digits[9] == '9';
  }
}
