/** Text scanning as the workspace uses it: counting, replacing, newline decoding. */
module Texts {

  /** Bytes that one character takes in UTF-8. */
  function EncodedLength(c: char): nat {
    if c as int < 0x80 then 1
    else if c as int < 0x800 then 2
    else if c as int < 0x10000 then 3
    else 4
  }

  function EncodedSize(s: string): nat {
    if s == "" then 0 else EncodedLength(s[0]) + EncodedSize(s[1..])
  }

  predicate Occurs(s: string, part: string, i: nat) {
    i + |part| <= |s| && s[i..i + |part|] == part
  }

  /** Leftmost, non-overlapping occurrences. */
  function Count(s: string, part: string): nat
    requires part != ""
  {
    if |s| < |part| then 0
    else if part <= s then 1 + Count(s[|part|..], part)
    else Count(s[1..], part)
  }

  function ReplaceAll(s: string, part: string, other: string): string
    requires part != ""
  {
    if |s| < |part| then s
    else if part <= s then other + ReplaceAll(s[|part|..], part, other)
    else [s[0]] + ReplaceAll(s[1..], part, other)
  }

  function ReplaceFirst(s: string, part: string, other: string): string
    requires part != ""
  {
    if |s| < |part| then s
    else if part <= s then other + s[|part|..]
    else [s[0]] + ReplaceFirst(s[1..], part, other)
  }

  /** `i` is the first occurrence, and no other starts after it has ended. */
  ghost predicate FoundOnceAt(s: string, part: string, i: nat) {
    && Occurs(s, part, i)
    && (forall j: nat :: j < i ==> !Occurs(s, part, j))
    && (forall j: nat :: i + |part| <= j ==> !Occurs(s, part, j))
  }

  lemma OccursAtStart(s: string, part: string)
    ensures Occurs(s, part, 0) <==> part <= s
  {
    if |part| <= |s| {
      assert s[0..|part|] == s[..|part|];
    }
  }

  lemma OccursShifts(s: string, part: string, n: nat, i: nat)
    requires n <= |s|
    ensures Occurs(s[n..], part, i) <==> Occurs(s, part, n + i)
  {
    if n + i + |part| <= |s| {
      assert s[n..][i..i + |part|] == s[n + i..n + i + |part|];
    }
  }

  lemma {:induction false} CountZero(s: string, part: string)
    requires part != ""
    ensures Count(s, part) == 0 <==> forall i: nat :: !Occurs(s, part, i)
  {
    OccursAtStart(s, part);
    if |s| < |part| {
    } else if part <= s {
    } else {
      CountZero(s[1..], part);
      forall i: nat
        ensures Occurs(s[1..], part, i) <==> Occurs(s, part, 1 + i)
      {
        OccursShifts(s, part, 1, i);
      }
      forall i: nat | (forall k: nat :: !Occurs(s[1..], part, k))
        ensures !Occurs(s, part, i)
      {
        if i > 0 {
          assert !Occurs(s[1..], part, i - 1);
          OccursShifts(s, part, 1, i - 1);
        }
      }
    }
  }

  /** A leftmost scan finds exactly one hit iff some position is the only one in that sense. */
  lemma {:induction false} CountOne(s: string, part: string)
    requires part != ""
    ensures Count(s, part) == 1 <==> exists i: nat :: FoundOnceAt(s, part, i)
  {
    OccursAtStart(s, part);
    if |s| < |part| {
    } else if part <= s {
      CountZero(s[|part|..], part);
      forall j: nat
        ensures Occurs(s[|part|..], part, j) <==> Occurs(s, part, |part| + j)
      {
        OccursShifts(s, part, |part|, j);
      }
      if Count(s, part) == 1 {
        forall j: nat | |part| <= j
          ensures !Occurs(s, part, j)
        {
          assert !Occurs(s[|part|..], part, j - |part|);
          OccursShifts(s, part, |part|, j - |part|);
        }
        assert FoundOnceAt(s, part, 0);
      } else {
        var j: nat :| Occurs(s[|part|..], part, j);
        OccursShifts(s, part, |part|, j);
        forall i: nat
          ensures !FoundOnceAt(s, part, i)
        {
          assert if i > 0 then Occurs(s, part, 0) else Occurs(s, part, |part| + j);
        }
      }
    } else {
      CountOne(s[1..], part);
      if i: nat :| FoundOnceAt(s[1..], part, i) {
        FoundOnceShifts(s, part, i);
      }
      if i: nat :| FoundOnceAt(s, part, i) {
        assert i > 0;
        FoundOnceShifts(s, part, i - 1);
      }
    }
  }

  lemma FoundOnceShifts(s: string, part: string, i: nat)
    requires s != "" && part != "" && !Occurs(s, part, 0)
    ensures FoundOnceAt(s[1..], part, i) <==> FoundOnceAt(s, part, i + 1)
  {
    forall j: nat
      ensures Occurs(s[1..], part, j) <==> Occurs(s, part, 1 + j)
    {
      OccursShifts(s, part, 1, j);
    }
    if FoundOnceAt(s[1..], part, i) {
      forall j: nat | j < i + 1 || i + 1 + |part| <= j
        ensures !Occurs(s, part, j)
      {
        if j > 0 {
          assert !Occurs(s[1..], part, j - 1);
        }
      }
    }
    if FoundOnceAt(s, part, i + 1) {
      forall j: nat | j < i || i + |part| <= j
        ensures !Occurs(s[1..], part, j)
      {
        assert !Occurs(s, part, 1 + j);
      }
    }
  }

  lemma PrependHead(s: string, other: string, i: nat, j: nat)
    requires 0 < i <= j <= |s|
    ensures [s[0]] + (s[1..][..i - 1] + other + s[1..][j - 1..]) == s[..i] + other + s[j..]
  {
    assert [s[0]] + s[1..][..i - 1] == s[..i];
    assert s[1..][j - 1..] == s[j..];
  }

  lemma NotFirst(s: string, part: string, i: nat)
    requires part != "" && FoundOnceAt(s, part, i)
    ensures i + |part| <= |s|
    ensures part <= s <==> i == 0
    ensures i > 0 ==> FoundOnceAt(s[1..], part, i - 1)
  {
    OccursAtStart(s, part);
    if i > 0 {
      FoundOnceShifts(s, part, i - 1);
    }
  }

  /** Replacing the single hit changes that stretch of text and nothing else. */
  lemma {:induction false} ReplaceFirstAt(s: string, part: string, other: string, i: nat)
    requires part != "" && FoundOnceAt(s, part, i)
    ensures i + |part| <= |s| && ReplaceFirst(s, part, other) == s[..i] + other + s[i + |part|..]
    decreases |s|
  {
    hide FoundOnceAt, Occurs;
    NotFirst(s, part, i);
    if i > 0 {
      ReplaceFirstAt(s[1..], part, other, i - 1);
      PrependHead(s, other, i, i + |part|);
    }
  }

  /** "Exactly once" is a statement about the scan: overlapping hits are not seen. */
  lemma OverlapCountsOnce()
    ensures Count("aaa", "aa") == 1 && Occurs("aaa", "aa", 0) && Occurs("aaa", "aa", 1)
  {
    assert "aaa"[2..] == "a";
  }

  // ------------------------------------------------------------- newlines

  /** Universal-newline decoding in one pass, as a text-mode read does it. */
  function Universal(s: string): string {
    if s == "" then ""
    else if s[0] == '\r' then
      "\n" + Universal(if |s| > 1 && s[1] == '\n' then s[2..] else s[1..])
    else [s[0]] + Universal(s[1..])
  }

  /** The two replacements a preview applies instead of reading the file back. */
  function TwoPass(s: string): string {
    ReplaceAll(ReplaceAll(s, "\r\n", "\n"), "\r", "\n")
  }

  lemma SecondPassStep(c: char, rest: string)
    ensures ReplaceAll([c] + rest, "\r", "\n") ==
            [if c == '\r' then '\n' else c] + ReplaceAll(rest, "\r", "\n")
  {
    assert ([c] + rest)[1..] == rest;
  }

  lemma {:induction false} TwoPassIsUniversal(s: string)
    ensures TwoPass(s) == Universal(s)
  {
    if s == "" {
    } else if |s| > 1 && s[0] == '\r' && s[1] == '\n' {
      TwoPassIsUniversal(s[2..]);
      assert s[..2] == "\r\n" && "\r\n" <= s;
      SecondPassStep('\n', ReplaceAll(s[2..], "\r\n", "\n"));
    } else {
      TwoPassIsUniversal(s[1..]);
      SecondPassStep(s[0], ReplaceAll(s[1..], "\r\n", "\n"));
      if |s| == 1 {
        assert s == [s[0]] + "" && s[1..] == "";
      }
    }
  }

  /** Decoding leaves no carriage return, so decoding again changes nothing. */
  lemma {:induction false} UniversalSettles(s: string)
    ensures '\r' !in Universal(s)
    ensures Universal(Universal(s)) == Universal(s)
  {
    if s != "" {
      var rest := if s[0] == '\r' && |s| > 1 && s[1] == '\n' then s[2..] else s[1..];
      UniversalSettles(rest);
      assert Universal(s)[1..] == Universal(rest);
    }
  }

  /** A place that does not fall between the two characters of one line ending. */
  predicate CleanCut(s: string, i: nat) {
    i <= |s| && !(0 < i < |s| && s[i - 1] == '\r' && s[i] == '\n')
  }

  /** How many characters of the stored text make the first one of the decoded text. */
  function StepLength(s: string): (n: nat)
    requires s != ""
    ensures 1 <= n <= |s|
  {
    if s[0] == '\r' && |s| > 1 && s[1] == '\n' then 2 else 1
  }

  lemma UniversalStep(s: string)
    requires s != ""
    ensures Universal(s) == [if s[0] == '\r' then '\n' else s[0]] + Universal(s[StepLength(s)..])
  {
  }

  lemma {:induction false} UniversalSplits(s: string, i: nat)
    requires CleanCut(s, i)
    ensures Universal(s) == Universal(s[..i]) + Universal(s[i..])
    decreases |s|
  {
    if i == 0 {
      assert s[..0] == "" && s[0..] == s && Universal("") == "";
      return;
    }
    hide Universal;
    var n := StepLength(s);
    assert StepLength(s[..i]) == n;
    UniversalSplits(s[n..], i - n);
    assert s[..i][n..] == s[n..][..i - n] && s[n..][i - n..] == s[i..];
    UniversalStep(s);
    UniversalStep(s[..i]);
  }

  /** Every place of the decoded text has its place in the stored text. */
  lemma {:induction false} PlaceOf(s: string, p: nat) returns (i: nat)
    requires p <= |Universal(s)|
    ensures CleanCut(s, i) && |Universal(s[..i])| == p && (p > 0 ==> i > 0)
    decreases |s|
  {
    if p == 0 {
      i := 0;
    } else {
      var n := if s[0] == '\r' && |s| > 1 && s[1] == '\n' then 2 else 1;
      var k := PlaceOf(s[n..], p - 1);
      i := n + k;
      assert s[..i][n..] == s[n..][..k];
      if n == 1 && k == 0 {
        assert s[..1][1..] == "";
      }
    }
  }

  /** Decoding changes a text exactly when it has a carriage return, and never makes it longer. */
  lemma {:induction false} DecodingKeepsExactly(s: string)
    ensures Universal(s) == s <==> '\r' !in s
    ensures |Universal(s)| <= |s|
  {
    if s != "" {
      DecodingKeepsExactly(if s[0] == '\r' && |s| > 1 && s[1] == '\n' then s[2..] else s[1..]);
      if s[0] == '\r' {
        assert Universal(s)[0] == '\n';
      } else {
        assert Universal(s)[1..] == Universal(s[1..]);
      }
    }
  }

  /** The part of the stored text that decodes to the single hit of `part`. */
  ghost predicate StretchOf(s: string, part: string, i: nat, j: nat) {
    && i <= j && CleanCut(s, i) && CleanCut(s, j)
    && Universal(s[i..j]) == part
    && FoundOnceAt(Universal(s), part, |Universal(s[..i])|)
  }

  lemma ThreeParts(s: string, i: nat, j: nat)
    requires i <= j && CleanCut(s, i) && CleanCut(s, j)
    ensures Universal(s) == Universal(s[..i]) + Universal(s[i..j]) + Universal(s[j..])
  {
    UniversalSplits(s, j);
    UniversalSplits(s[..j], i);
    assert s[..j][..i] == s[..i] && s[..j][i..] == s[i..j];
  }

  lemma StretchExists(s: string, part: string, p: nat)
    requires part != "" && FoundOnceAt(Universal(s), part, p)
    ensures exists i, j :: StretchOf(s, part, i, j)
  {
    var i := PlaceOf(s, p);
    UniversalSplits(s, i);
    var k := PlaceOf(s[i..], |part|);
    UniversalSplits(s[i..], k);
    var j := i + k;
    assert s[i..][..k] == s[i..j];
    hide FoundOnceAt, Universal;
    assert CleanCut(s, j);
    HitIsThere(Universal(s), part, p);
    assert Universal(s)[p..] == Universal(s[i..]);
    assert Universal(s)[p..p + |part|] == Universal(s)[p..][..|part|] == Universal(s[i..j]);
    assert StretchOf(s, part, i, j);
  }

  lemma HitIsThere(s: string, part: string, p: nat)
    requires FoundOnceAt(s, part, p)
    ensures p + |part| <= |s| && s[p..p + |part|] == part
  {
  }

  /**
   What becomes of the stored text: line endings outside the stretch are
   rewritten, so the text keeps the rest exactly when there is no carriage
   return there; and it reads back as it is, unless `other` brings one.
   */
  predicate Rewrites(s: string, edited: string, other: string, i: nat, j: nat)
    requires i <= j <= |s|
  {
    && edited == Universal(s[..i]) + other + Universal(s[j..])
    && (edited == s[..i] + other + s[j..] <==> '\r' !in s[..i] && '\r' !in s[j..])
    && (Universal(edited) == edited <==> '\r' !in other)
  }

  lemma EditRewritesStretch(s: string, part: string, other: string, i: nat, j: nat)
    requires part != "" && StretchOf(s, part, i, j)
    ensures Rewrites(s, ReplaceFirst(Universal(s), part, other), other, i, j)
  {
    var head, tail := Universal(s[..i]), Universal(s[j..]);
    ThreeParts(s, i, j);
    ReplaceFirstAt(Universal(s), part, other, |head|);
    DecodingKeepsExactly(s[..i]);
    DecodingKeepsExactly(s[j..]);
    UniversalSettles(s[..i]);
    UniversalSettles(s[j..]);
    hide Universal, FoundOnceAt, ReplaceFirst;
    assert Universal(s)[..|head|] == head && Universal(s)[|head| + |part|..] == tail;
    SameParts(head, tail, s[..i], s[j..], other);
    DecodingKeepsExactly(head + other + tail);
  }

  lemma SameParts(a: string, b: string, c: string, d: string, middle: string)
    requires |a| <= |c| && |b| <= |d|
    ensures a + middle + b == c + middle + d <==> a == c && b == d
  {
    if a + middle + b == c + middle + d {
      assert |a| == |c|;
      assert a == (a + middle + b)[..|a|] == (c + middle + d)[..|a|] == c;
      assert b == (a + middle + b)[|a| + |middle|..] == (c + middle + d)[|a| + |middle|..] == d;
    }
  }
}
