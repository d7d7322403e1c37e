/** A research answer and its citations: inline markers and claim mappings must agree. */
module ResearchReports {
  import opened Prelude
  import opened Metering

  // -------------------------------------------------------------- markers

  /** What counts as a digit; brackets never do. */
  ghost predicate DigitClass(digit: char -> bool) {
    !digit('[') && !digit(']') && !digit('E')
  }

  function DigitRun(s: string, digit: char -> bool): (n: nat)
    ensures n <= |s| && (forall i :: 0 <= i < n ==> digit(s[i])) && (n < |s| ==> !digit(s[n]))
  {
    if s == "" || !digit(s[0]) then 0 else 1 + DigitRun(s[1..], digit)
  }

  /** The marker that starts here, without its brackets: `E` and at least one digit. */
  function MarkerAt(s: string, digit: char -> bool): Option<string> {
    if |s| < 4 || s[0] != '[' || s[1] != 'E' then None
    else
      var n := DigitRun(s[2..], digit);
      if n > 0 && 2 + n < |s| && s[2 + n] == ']' then Some(s[1..2 + n]) else None
  }

  /** A left-to-right scan that resumes after each marker found. */
  function Markers(s: string, digit: char -> bool): set<string> {
    if s == "" then {}
    else
      match MarkerAt(s, digit)
      case Some(w) => {w} + Markers(s[|w| + 2..], digit)
      case None => Markers(s[1..], digit)
  }

  predicate IsKey(w: string, digit: char -> bool) {
    |w| > 1 && w[0] == 'E' && forall i :: 1 <= i < |w| ==> digit(w[i])
  }

  predicate Bracketed(s: string, w: string, i: nat) {
    i + |w| + 2 <= |s| && s[i] == '[' && s[i + 1..i + 1 + |w|] == w && s[i + 1 + |w|] == ']'
  }

  lemma MarkerIsBracketed(s: string, digit: char -> bool, w: string)
    requires DigitClass(digit)
    ensures MarkerAt(s, digit) == Some(w) <==> IsKey(w, digit) && Bracketed(s, w, 0)
  {
    if |s| >= 4 && s[0] == '[' && s[1] == 'E' {
      var digits := s[2..];
      var n := DigitRun(digits, digit);
      if MarkerAt(s, digit) == Some(w) {
        assert w == s[1..2 + n];
        forall i | 1 <= i < |w|
          ensures digit(w[i])
        {
          assert w[i] == digits[i - 1];
        }
      }
      if IsKey(w, digit) && Bracketed(s, w, 0) {
        forall i | 0 <= i < |w| - 1
          ensures digits[i] == w[i + 1]
        {
          assert s[1..1 + |w|][i + 1] == s[i + 2];
        }
        assert n == |w| - 1;
      }
    }
  }

  lemma BracketedShifts(s: string, w: string, n: nat, i: nat)
    requires n <= |s|
    ensures Bracketed(s[n..], w, i) <==> Bracketed(s, w, n + i)
  {
    if n + i + |w| + 2 <= |s| {
      assert s[n..][i + 1..i + 1 + |w|] == s[n + i + 1..n + i + 1 + |w|];
    }
  }

  /** No marker starts inside another one. */
  lemma NothingInside(s: string, digit: char -> bool, w: string, v: string, i: nat)
    requires DigitClass(digit) && IsKey(w, digit) && Bracketed(s, w, 0) && 0 < i < |w| + 2
    ensures !Bracketed(s, v, i)
  {
    if i <= |w| {
      assert s[i] == s[1..1 + |w|][i - 1] == w[i - 1];
    }
  }

  predicate Appears(s: string, w: string) {
    exists i: nat :: i < |s| && Bracketed(s, w, i)
  }

  lemma AppearsFrom(s: string, w: string, n: nat)
    requires 0 < n <= |s| && forall i: nat :: 0 < i < n ==> !Bracketed(s, w, i)
    ensures Appears(s, w) <==> Bracketed(s, w, 0) || Appears(s[n..], w)
  {
    if Appears(s, w) && !Bracketed(s, w, 0) {
      var i: nat :| i < |s| && Bracketed(s, w, i);
      BracketedShifts(s, w, n, i - n);
    }
    if Appears(s[n..], w) {
      var i: nat :| i < |s[n..]| && Bracketed(s[n..], w, i);
      BracketedShifts(s, w, n, i);
    }
  }

  /** The scan finds exactly the bracketed keys of the text, wherever they stand. */
  lemma {:induction false} MarkersAreTheBracketedKeys(s: string, digit: char -> bool, v: string)
    requires DigitClass(digit)
    ensures v in Markers(s, digit) <==> IsKey(v, digit) && Appears(s, v)
    decreases |s|
  {
    if s == "" {
      return;
    }
    hide Bracketed, Appears, IsKey, MarkerAt;
    var found := MarkerAt(s, digit);
    MarkerIsBracketed(s, digit, v);
    var n := 1;
    if found.Some? {
      var w := found.value;
      MarkerIsBracketed(s, digit, w);
      n := |w| + 2;
      BracketedFits(s, w);
      forall i: nat | 0 < i < n
        ensures !Bracketed(s, v, i)
      {
        NothingInside(s, digit, w, v, i);
      }
    }
    AppearsFrom(s, v, n);
    MarkersAreTheBracketedKeys(s[n..], digit, v);
  }

  lemma BracketedFits(s: string, w: string)
    requires Bracketed(s, w, 0)
    ensures |w| + 2 <= |s|
  {
  }

  // ------------------------------------------------------------ citations

  /** One submitted mapping; a claim is already stripped of surrounding white space. */
  datatype Mapping = NotAnObject | Mapping(claim: string, ids: Option<seq<string>>)

  datatype Citation = Citation(claim: string, ids: seq<string>)

  datatype ReportError = MissingCitations | UnknownEvidence | MappingsDisagree

  predicate Distinct(s: seq<string>) {
    forall i, j :: 0 <= i < j < |s| ==> s[i] != s[j]
  }

  /** The identifiers without repetitions, each at its first place. */
  function Deduplicated(ids: seq<string>): (r: seq<string>)
    ensures Distinct(r) && forall id :: id in r <==> id in ids
  {
    if ids == [] then []
    else
      var n := |ids| - 1;
      var before := Deduplicated(ids[..n]);
      if ids[n] in before then before else before + [ids[n]]
  }

  /** A mapping counts when it has a claim and cites known evidence only. */
  predicate Counts(m: Mapping, valid: set<string>) {
    && m.Mapping? && m.claim != "" && m.ids.Some? && m.ids.value != []
    && forall id :: id in m.ids.value ==> id in valid
  }

  function KeptCitations(mappings: seq<Mapping>, valid: set<string>): seq<Citation> {
    if mappings == [] then []
    else
      var n := |mappings| - 1;
      KeptCitations(mappings[..n], valid)
      + if Counts(mappings[n], valid) then [Citation(mappings[n].claim, Deduplicated(mappings[n].ids.value))] else []
  }

  /** All evidence that the counting mappings cite. */
  function CitedIds(mappings: seq<Mapping>, valid: set<string>): set<string> {
    set i, id | 0 <= i < |mappings| && Counts(mappings[i], valid) && id in mappings[i].ids.value :: id
  }

  /** What an accepted report is: every marker is stored evidence, and markers and mappings cite the same. */
  predicate Agrees(markers: set<string>, mappings: seq<Mapping>, valid: set<string>) {
    markers != {} && markers <= valid && CitedIds(mappings, valid) == markers
  }

  lemma OneMoreMapping(mappings: seq<Mapping>, k: nat, valid: set<string>)
    requires k < |mappings|
    ensures CitedIds(mappings[..k + 1], valid) ==
            CitedIds(mappings[..k], valid)
            + if Counts(mappings[k], valid) then (set id | id in mappings[k].ids.value) else {}
    ensures KeptCitations(mappings[..k + 1], valid) ==
            KeptCitations(mappings[..k], valid)
            + if Counts(mappings[k], valid)
              then [Citation(mappings[k].claim, Deduplicated(mappings[k].ids.value))] else []
  {
    var longer, shorter := mappings[..k + 1], mappings[..k];
    assert longer[..k] == shorter;
    forall id
      ensures id in CitedIds(longer, valid) <==>
              id in CitedIds(shorter, valid) || (Counts(mappings[k], valid) && id in mappings[k].ids.value)
    {
      if id in CitedIds(longer, valid) {
        var i :| 0 <= i < |longer| && Counts(longer[i], valid) && id in longer[i].ids.value;
        if i < k {
          assert Counts(shorter[i], valid) && id in shorter[i].ids.value;
        }
      }
      if id in CitedIds(shorter, valid) {
        var i :| 0 <= i < |shorter| && Counts(shorter[i], valid) && id in shorter[i].ids.value;
        assert Counts(longer[i], valid) && id in longer[i].ids.value;
      }
      if Counts(mappings[k], valid) && id in mappings[k].ids.value {
        assert Counts(longer[k], valid) && id in longer[k].ids.value;
      }
    }
  }

  method ValidateReport(
      answer: string, mappings: Option<seq<Mapping>>, valid: set<string>, digit: char -> bool)
    returns (r: Result<seq<Citation>, ReportError>)
    ensures r.Ok? <==> mappings.Some? && Agrees(Markers(answer, digit), mappings.value, valid)
    ensures r == Err(MissingCitations) <==> mappings == None || Markers(answer, digit) == {}
    ensures r == Err(UnknownEvidence) <==>
              mappings.Some? && exists w :: w in Markers(answer, digit) && w !in valid
    ensures r.Ok? ==> r.value == KeptCitations(mappings.value, valid)
  {
    var markers := Markers(answer, digit);
    if answer == "" || mappings == None || markers == {} {
      return Err(MissingCitations);
    }
    if !(markers <= valid) {
      return Err(UnknownEvidence);
    }
    var citations: seq<Citation> := [];
    var mapped: set<string> := {};
    for i := 0 to |mappings.value|
      invariant citations == KeptCitations(mappings.value[..i], valid)
      invariant mapped == CitedIds(mappings.value[..i], valid)
      invariant mapped != {} ==> citations != []
    {
      OneMoreMapping(mappings.value, i, valid);
      var raw := mappings.value[i];
      if raw.NotAnObject? || raw.claim == "" || raw.ids == None {
        continue;
      }
      var ids := Deduplicated(raw.ids.value);
      if ids == [] || exists id :: id in ids && id !in valid {
        continue;
      }
      assert raw.ids.value != [] by {
        assert ids[0] in ids;
      }
      citations := citations + [Citation(raw.claim, ids)];
      mapped := mapped + (set id | id in ids);
    }
    assert mappings.value[..|mappings.value|] == mappings.value;
    if citations == [] || !(markers <= mapped) || !(mapped <= markers) {
      return Err(MappingsDisagree);
    }
    r := Ok(citations);
  }

  /** Every identifier of a kept citation is cited, and every cited identifier is in a kept citation. */
  lemma {:induction false} KeptCitationsCiteAll(mappings: seq<Mapping>, valid: set<string>, id: string)
    ensures id in CitedIds(mappings, valid) <==>
            exists c :: c in KeptCitations(mappings, valid) && id in c.ids
  {
    if mappings != [] {
      var n := |mappings| - 1;
      KeptCitationsCiteAll(mappings[..n], valid, id);
      OneMoreMapping(mappings, n, valid);
      assert mappings[..n + 1] == mappings;
      var before, after := KeptCitations(mappings[..n], valid), KeptCitations(mappings, valid);
      forall c | c in before
        ensures c in after
      {
      }
      if Counts(mappings[n], valid) {
        var last := Citation(mappings[n].claim, Deduplicated(mappings[n].ids.value));
        assert after == before + [last];
        assert last in after;
      }
    }
  }

  /** In an accepted report, the inline markers are the union of the kept citations' evidence. */
  lemma AcceptedReportAgrees(
      answer: string, mappings: seq<Mapping>, valid: set<string>, digit: char -> bool, id: string)
    requires Agrees(Markers(answer, digit), mappings, valid)
    ensures id in Markers(answer, digit) <==> exists c :: c in KeptCitations(mappings, valid) && id in c.ids
    ensures id in Markers(answer, digit) ==> id in valid
  {
    KeptCitationsCiteAll(mappings, valid, id);
  }

  // --------------------------------------------------------------- writer

  datatype Submission = Submission(answer: string, mappings: Option<seq<Mapping>>)

  datatype WriterError = InvalidCitations | ProviderRaised

  predicate Acceptable(a: Attempt<Submission>, valid: set<string>, digit: char -> bool) {
    a.Received? && a.value.mappings.Some?
    && Agrees(Markers(a.value.answer, digit), a.value.mappings.value, valid)
  }

  /**
   The first of two attempts that is accepted, with all usage received on the
   way. A second attempt is made exactly when the first neither is accepted nor
   raises.
   */
  method ResearchWriter(
      attempts: seq<Attempt<Submission>>, valid: set<string>, digit: char -> bool, start: Meter)
    returns (r: Result<(string, seq<Citation>), WriterError>, meter: Meter, used: nat)
    requires |attempts| == 2
    ensures used == if Acceptable(attempts[0], valid, digit) || Raises(attempts[0], false) then 1 else 2
    ensures meter == Metered(start, attempts[..used])
    ensures r.Ok? <==> Acceptable(attempts[used - 1], valid, digit)
    ensures r.Ok? ==>
              var s := attempts[used - 1].value;
              r.value == (s.answer, KeptCitations(s.mappings.value, valid))
    ensures r == Err(ProviderRaised) <==> Raises(attempts[used - 1], used == 2)
  {
    used, meter := 0, start;
    while used < 2
      invariant used <= 2 && meter == Metered(start, attempts[..used])
      invariant forall i :: 0 <= i < used ==>
                  !Acceptable(attempts[i], valid, digit) && !Raises(attempts[i], i == 1)
    {
      var attempt := attempts[used];
      OneMoreAttempt(start, attempts, used);
      used, meter := used + 1, Counted(meter, attempt);
      match attempt
      case Lost =>
        return Err(ProviderRaised), meter, used;
      case SchemaError(correctable, _) =>
        if used == 2 || !correctable {
          return Err(ProviderRaised), meter, used;
        }
      case Received(s, _) =>
        var citations := ValidateReport(s.answer, s.mappings, valid, digit);
        if citations.Ok? {
          return Ok((s.answer, citations.value)), meter, used;
        }
    }
    r := Err(InvalidCitations);
  }
}
