/** Evidence chosen by the model, checked against the candidates, in at most two attempts. */
module EvidenceSelection {
  import opened Prelude
  import opened Metering
  import ServerSentEvents
  import ResearchReports

  /** A search result offered to the model; its identifier is its key. */
  datatype Candidate = Candidate(
    topic: string, source: string, content: string, validUrl: bool, inScope: bool, url: string)

  datatype Item = NotAnObject | Pick(id: string, claim: string, relevance: Option<real>)

  datatype Reason =
    | InvalidResponse | InvalidItem | UnknownCandidate | DuplicateCandidate | MissingClaim
    | InvalidRelevance | EmptyContent | InvalidUrl | InvalidScope

  datatype Selection = Selection(id: string, claim: string, relevance: real)

  type Candidates = map<string, Candidate>

  // ------------------------------------------------------------ one answer

  predicate Usable(c: Candidate) {
    c.content != "" && c.validUrl && (c.source == "document" ==> c.inScope)
  }

  /** An item that is wrong in itself, whatever was selected before it. */
  predicate Sound(candidates: Candidates, item: Item) {
    && item.Pick? && item.id in candidates && item.claim != ""
    && item.relevance.Some? && 0.0 <= item.relevance.value <= 1.0
    && Usable(candidates[item.id])
  }

  function ReasonAgainst(candidates: Candidates, used: set<string>, item: Item): Option<Reason> {
    if item.NotAnObject? then Some(InvalidItem)
    else if item.id !in candidates then Some(UnknownCandidate)
    else if item.id in used then Some(DuplicateCandidate)
    else if item.claim == "" then Some(MissingClaim)
    else if item.relevance == None || !(0.0 <= item.relevance.value <= 1.0) then Some(InvalidRelevance)
    else if candidates[item.id].content == "" then Some(EmptyContent)
    else if !candidates[item.id].validUrl then Some(InvalidUrl)
    else if candidates[item.id].source == "document" && !candidates[item.id].inScope then Some(InvalidScope)
    else None
  }

  function IdsOf(selections: seq<Selection>): set<string> {
    set i | 0 <= i < |selections| :: selections[i].id
  }

  /** What the selections of an answer must be. */
  predicate SoundSelections(candidates: Candidates, selections: seq<Selection>) {
    && (forall i :: 0 <= i < |selections| ==>
          var s := selections[i];
          s.id in candidates && Usable(candidates[s.id]) && s.claim != "" && 0.0 <= s.relevance <= 1.0)
    && (forall i, j :: 0 <= i < j < |selections| ==> selections[i].id != selections[j].id)
  }

  predicate PickedSoundly(candidates: Candidates, items: seq<Item>, id: string) {
    exists k :: 0 <= k < |items| && Sound(candidates, items[k]) && items[k].id == id
  }

  /** The answer as read: sound, distinct selections of exactly the soundly picked candidates. */
  ghost predicate Reads(
      candidates: Candidates, items: seq<Item>, selections: seq<Selection>, rejections: seq<Reason>) {
    && SoundSelections(candidates, selections)
    && |selections| + |rejections| == |items|
    && (forall id :: id in IdsOf(selections) <==> PickedSoundly(candidates, items, id))
  }

  lemma ReadOne(
      candidates: Candidates, items: seq<Item>, k: nat, selections: seq<Selection>, rejections: seq<Reason>)
    requires k < |items| && Reads(candidates, items[..k], selections, rejections)
    ensures var item := items[k];
            match ReasonAgainst(candidates, IdsOf(selections), item)
            case Some(reason) => Reads(candidates, items[..k + 1], selections, rejections + [reason])
            case None =>
              Reads(candidates, items[..k + 1],
                selections + [Selection(item.id, item.claim, item.relevance.value)], rejections)
  {
    var item := items[k];
    forall id
      ensures PickedSoundly(candidates, items[..k + 1], id) <==>
              PickedSoundly(candidates, items[..k], id) || (Sound(candidates, item) && item.id == id)
    {
      PickedOneMore(candidates, items, k, id);
    }
    if ReasonAgainst(candidates, IdsOf(selections), item) == None {
      var next := Selection(item.id, item.claim, item.relevance.value);
      forall i | 0 <= i < |selections|
        ensures selections[i].id != next.id
      {
        assert selections[i].id in IdsOf(selections);
      }
      assert forall id :: id in IdsOf(selections + [next]) <==> id in IdsOf(selections) || id == next.id by {
        IdsOneMore(selections, next);
      }
    }
  }

  lemma IdsOneMore(selections: seq<Selection>, next: Selection)
    ensures IdsOf(selections + [next]) == IdsOf(selections) + {next.id}
  {
    var longer := selections + [next];
    assert longer[|selections|] == next;
    forall i | 0 <= i < |selections|
      ensures longer[i] == selections[i]
    {
    }
  }

  lemma PickedOneMore(candidates: Candidates, items: seq<Item>, k: nat, id: string)
    requires k < |items|
    ensures PickedSoundly(candidates, items[..k + 1], id) <==>
            PickedSoundly(candidates, items[..k], id) || (Sound(candidates, items[k]) && items[k].id == id)
  {
    var longer, shorter := items[..k + 1], items[..k];
    if PickedSoundly(candidates, longer, id) {
      var i :| 0 <= i < |longer| && Sound(candidates, longer[i]) && longer[i].id == id;
      if i < k {
        assert Sound(candidates, shorter[i]);
      }
    }
    if PickedSoundly(candidates, shorter, id) {
      var i :| 0 <= i < |shorter| && Sound(candidates, shorter[i]) && shorter[i].id == id;
      assert Sound(candidates, longer[i]);
    }
    if Sound(candidates, items[k]) && items[k].id == id {
      assert Sound(candidates, longer[k]);
    }
  }

  function Considered(items: seq<Item>, maxEvidence: nat): seq<Item> {
    if |items| < maxEvidence then items else items[..maxEvidence]
  }

  datatype Reading = Reading(selections: seq<Selection>, rejections: seq<Reason>)

  const NO_READING := Reading([], [InvalidResponse])

  /** The items read one after another. */
  function ReadingOfItems(candidates: Candidates, items: seq<Item>): Reading {
    if items == [] then Reading([], [])
    else
      var before := ReadingOfItems(candidates, items[..|items| - 1]);
      var item := items[|items| - 1];
      match ReasonAgainst(candidates, IdsOf(before.selections), item)
      case Some(reason) => before.(rejections := before.rejections + [reason])
      case None =>
        before.(selections := before.selections + [Selection(item.id, item.claim, item.relevance.value)])
  }

  function ReadingOf(candidates: Candidates, response: Option<seq<Item>>, maxEvidence: nat): Reading {
    if response == None then NO_READING
    else ReadingOfItems(candidates, Considered(response.value, maxEvidence))
  }

  /** Reading item by item selects exactly the candidates that were picked soundly, each once. */
  lemma {:induction false} ReadingIsSound(candidates: Candidates, items: seq<Item>)
    ensures var r := ReadingOfItems(candidates, items); Reads(candidates, items, r.selections, r.rejections)
  {
    if items != [] {
      var n := |items| - 1;
      ReadingIsSound(candidates, items[..n]);
      var before := ReadingOfItems(candidates, items[..n]);
      ReadOne(candidates, items, n, before.selections, before.rejections);
      assert items[..n + 1] == items;
      hide Reads;
    }
  }

  method ValidateSelection(candidates: Candidates, response: Option<seq<Item>>, maxEvidence: nat)
    returns (selections: seq<Selection>, rejections: seq<Reason>)
    ensures Reading(selections, rejections) == ReadingOf(candidates, response, maxEvidence)
    ensures response.Some? ==> Reads(candidates, Considered(response.value, maxEvidence), selections, rejections)
    ensures SoundSelections(candidates, selections) && |selections| <= maxEvidence
  {
    selections, rejections := [], [];
    if response == None {
      rejections := [InvalidResponse];
      return;
    }
    var items := Considered(response.value, maxEvidence);
    ReadingIsSound(candidates, items);
    var used: set<string> := {};
    for k := 0 to |items|
      invariant Reading(selections, rejections) == ReadingOfItems(candidates, items[..k])
      invariant used == IdsOf(selections)
    {
      assert items[..k + 1][..k] == items[..k];
      var item := items[k];
      var reason := ReasonAgainst(candidates, used, item);
      if reason.Some? {
        rejections := rejections + [reason.value];
      } else {
        IdsOneMore(selections, Selection(item.id, item.claim, item.relevance.value));
        selections := selections + [Selection(item.id, item.claim, item.relevance.value)];
        used := used + {item.id};
      }
    }
    assert items[..|items|] == items;
  }

  // -------------------------------------------------------------- coverage

  /** What the research asked for; topics are compared after case folding. */
  datatype Task = Task(candidates: Candidates, sources: set<string>, topics: set<string>, maxEvidence: nat)

  predicate CoversSource(task: Task, selections: seq<Selection>, source: string) {
    exists i :: 0 <= i < |selections| && selections[i].id in task.candidates
                && task.candidates[selections[i].id].source == source
  }

  predicate CoversTopic(task: Task, fold: string -> string, selections: seq<Selection>, topic: string) {
    exists i :: 0 <= i < |selections| && selections[i].id in task.candidates
                && fold(task.candidates[selections[i].id].topic) == fold(topic)
  }

  function MissingSources(task: Task, selections: seq<Selection>): set<string> {
    set source | source in task.sources && !CoversSource(task, selections, source)
  }

  function MissingTopics(task: Task, fold: string -> string, selections: seq<Selection>): set<string> {
    set topic | topic in task.topics && !CoversTopic(task, fold, selections, topic)
  }

  /** Ranked by what is missing, then by what was rejected, then by how much was selected. */
  datatype Rank = Rank(sources: nat, topics: nat, rejections: nat, selections: nat)

  predicate Better(a: Rank, b: Rank) {
    a.sources < b.sources || (a.sources == b.sources &&
    (a.topics < b.topics || (a.topics == b.topics &&
    (a.rejections < b.rejections || (a.rejections == b.rejections && a.selections > b.selections)))))
  }

  function RankOf(task: Task, fold: string -> string, r: Reading): Rank {
    Rank(|MissingSources(task, r.selections)|, |MissingTopics(task, fold, r.selections)|,
         |r.rejections|, |r.selections|)
  }

  datatype ExtractError = EvidenceUnavailable | ProviderRaised

  datatype Extraction = Extraction(reading: Reading, partial: bool)

  function Urls(task: Task, selections: seq<Selection>): set<string> {
    set i | 0 <= i < |selections| && selections[i].id in task.candidates
      :: task.candidates[selections[i].id].url
  }

  function Partial(task: Task, fold: string -> string, r: Reading, providerWarning: bool): bool {
    || MissingTopics(task, fold, r.selections) != {} || MissingSources(task, r.selections) != {}
    || |Urls(task, r.selections)| < 2 || providerWarning || r.rejections != []
  }

  /** Nothing wrong that another attempt could put right. */
  predicate GoodEnough(task: Task, fold: string -> string, r: Reading) {
    && r.rejections == []
    && (forall source :: source in MissingSources(task, r.selections) ==>
          forall id :: id in task.candidates ==> task.candidates[id].source != source)
    && (forall topic :: topic in MissingTopics(task, fold, r.selections) ==>
          forall id :: id in task.candidates ==> fold(task.candidates[id].topic) != fold(topic))
  }

  /** The best of the answers received: a later one replaces an earlier one only if it ranks above it. */
  function BestReading(task: Task, fold: string -> string, attempts: seq<Attempt<Option<seq<Item>>>>): Reading {
    if attempts == [] then NO_READING
    else
      var before := BestReading(task, fold, attempts[..|attempts| - 1]);
      var last := attempts[|attempts| - 1];
      if !last.Received? then before
      else
        var reading := ReadingOf(task.candidates, last.value, task.maxEvidence);
        if Better(RankOf(task, fold, reading), RankOf(task, fold, before)) then reading else before
  }

  /** The answer kept is one of those received, if any, and none of them ranks above it. */
  lemma {:induction false} BestReadingIsBest(task: Task, fold: string -> string, attempts: seq<Attempt<Option<seq<Item>>>>)
    ensures var best := BestReading(task, fold, attempts);
            && (best == NO_READING
                || exists k ::
                     0 <= k < |attempts| && attempts[k].Received?
                     && best == ReadingOf(task.candidates, attempts[k].value, task.maxEvidence))
            && !Better(RankOf(task, fold, NO_READING), RankOf(task, fold, best))
            && (forall k :: 0 <= k < |attempts| && attempts[k].Received? ==>
                  !Better(RankOf(task, fold, ReadingOf(task.candidates, attempts[k].value, task.maxEvidence)),
                          RankOf(task, fold, best)))
  {
    hide RankOf, ReadingOf;
    if attempts != [] {
      var n := |attempts| - 1;
      BestReadingIsBest(task, fold, attempts[..n]);
      assert forall k :: 0 <= k < n ==> attempts[..n][k] == attempts[k];
    }
  }

  /** The first attempt settles the matter: it raises, or nothing in its answer could be put right. */
  predicate Settles(task: Task, fold: string -> string, a: Attempt<Option<seq<Item>>>) {
    Raises(a, false)
    || (a.Received? && GoodEnough(task, fold, ReadingOf(task.candidates, a.value, task.maxEvidence)))
  }

  /**
   At most two answers are asked for, and the better one is kept. A second is
   asked for exactly when the first does not settle the matter; a result is
   returned exactly when no attempt raised and the best answer selects anything.
   */
  method ExtractEvidence(
      task: Task, fold: string -> string, attempts: seq<Attempt<Option<seq<Item>>>>, providerWarning: bool, start: Meter)
    returns (r: Result<Extraction, ExtractError>, meter: Meter, used: nat)
    requires |attempts| == 2
    ensures used == if task.candidates == map[] then 0 else if Settles(task, fold, attempts[0]) then 1 else 2
    ensures meter == Metered(start, attempts[..used])
    ensures r == Err(ProviderRaised) <==> used > 0 && Raises(attempts[used - 1], used == 2)
    ensures r.Ok? <==> used > 0 && !Raises(attempts[used - 1], used == 2)
                       && BestReading(task, fold, attempts[..used]).selections != []
    ensures r.Ok? ==>
              var reading := r.value.reading;
              && reading == BestReading(task, fold, attempts[..used])
              && |reading.selections| <= task.maxEvidence && SoundSelections(task.candidates, reading.selections)
              && r.value.partial == Partial(task, fold, reading, providerWarning)
  {
    used, meter := 0, start;
    if task.candidates == map[] {
      return Err(EvidenceUnavailable), meter, used;
    }
    var best := NO_READING;
    hide ReadingOf, SoundSelections, RankOf, GoodEnough;
    assert SoundSelections(task.candidates, best.selections) by {
      NothingIsSound(task.candidates);
    }
    while used < 2
      invariant used <= 2 && meter == Metered(start, attempts[..used])
      invariant SoundSelections(task.candidates, best.selections) && |best.selections| <= task.maxEvidence
      invariant best == BestReading(task, fold, attempts[..used])
      invariant used > 0 ==> !Settles(task, fold, attempts[0])
      invariant used == 2 ==> !Raises(attempts[1], true)
    {
      var attempt := attempts[used];
      OneMoreAttempt(start, attempts, used);
      assert attempts[..used + 1][..used] == attempts[..used];
      used, meter := used + 1, Counted(meter, attempt);
      match attempt
      case Lost =>
        return Err(ProviderRaised), meter, used;
      case SchemaError(correctable, _) =>
        if used == 2 || !correctable {
          return Err(ProviderRaised), meter, used;
        }
      case Received(response, _) =>
        var selections, rejections := ValidateSelection(task.candidates, response, task.maxEvidence);
        var reading := Reading(selections, rejections);
        if Better(RankOf(task, fold, reading), RankOf(task, fold, best)) {
          best := reading;
        }
        if GoodEnough(task, fold, reading) {
          break;
        }
    }
    if best.selections == [] {
      return Err(EvidenceUnavailable), meter, used;
    }
    r := Ok(Extraction(best, Partial(task, fold, best, providerWarning)));
  }

  lemma NothingIsSound(candidates: Candidates)
    ensures SoundSelections(candidates, [])
  {
  }

  /** A result that is not partial covers every required source and every required topic. */
  lemma CompleteMeansCovered(task: Task, fold: string -> string, r: Reading, providerWarning: bool)
    ensures !Partial(task, fold, r, providerWarning) <==>
            && (forall source :: source in task.sources ==> CoversSource(task, r.selections, source))
            && (forall topic :: topic in task.topics ==> CoversTopic(task, fold, r.selections, topic))
            && |Urls(task, r.selections)| >= 2 && !providerWarning && r.rejections == []
  {
    if !Partial(task, fold, r, providerWarning) {
      forall source | source in task.sources
        ensures CoversSource(task, r.selections, source)
      {
        assert source !in MissingSources(task, r.selections);
      }
      forall topic | topic in task.topics
        ensures CoversTopic(task, fold, r.selections, topic)
      {
        assert topic !in MissingTopics(task, fold, r.selections);
      }
    }
  }

  // ------------------------------------------------------------ stored keys

  /** The citation key of the `n`th stored item. */
  function Key(n: nat): string {
    "E" + ServerSentEvents.Digits(n)
  }

  function StoredKeys(n: nat): set<string> {
    set k | 1 <= k <= n :: Key(k)
  }

  lemma {:induction false} DigitsDiffer(m: nat, n: nat)
    requires ServerSentEvents.Digits(m) == ServerSentEvents.Digits(n)
    ensures m == n
    decreases m
  {
    var a, b := ServerSentEvents.Digits(m), ServerSentEvents.Digits(n);
    DigitsEnd(m);
    DigitsEnd(n);
    if m >= 10 && n >= 10 {
      assert a[..|a| - 1] == ServerSentEvents.Digits(m / 10);
      assert b[..|b| - 1] == ServerSentEvents.Digits(n / 10);
      DigitsDiffer(m / 10, n / 10);
    }
  }

  lemma {:induction false} DigitsEnd(n: nat)
    ensures var s := ServerSentEvents.Digits(n);
            && |s| >= 1 && s[|s| - 1] == ServerSentEvents.Digit(n % 10)
            && (n >= 10 <==> |s| > 1)
  {
    if n >= 10 {
      DigitsEnd(n / 10);
    }
  }

  /** Different items have different keys, and every key can be cited inline. */
  lemma KeysAreCitable(m: nat, n: nat)
    ensures Key(m) == Key(n) ==> m == n
    ensures ResearchReports.IsKey(Key(n), c => '0' <= c <= '9')
  {
    if Key(m) == Key(n) {
      assert Key(m)[1..] == ServerSentEvents.Digits(m) && Key(n)[1..] == ServerSentEvents.Digits(n);
      DigitsDiffer(m, n);
    }
    ServerSentEvents.DigitsAreDigits(n);
    DigitsEnd(n);
    forall i | 1 <= i < |Key(n)|
      ensures '0' <= Key(n)[i] <= '9'
    {
      assert Key(n)[i] == ServerSentEvents.Digits(n)[i - 1];
      assert ServerSentEvents.Digits(n)[i - 1] in ServerSentEvents.Digits(n);
    }
  }

  /** An accepted report cites only the evidence that was stored, by its number. */
  lemma ReportCitesStoredEvidence(
      answer: string, mappings: seq<ResearchReports.Mapping>, n: nat, digit: char -> bool, id: string)
    requires ResearchReports.Agrees(ResearchReports.Markers(answer, digit), mappings, StoredKeys(n))
    requires exists c :: c in ResearchReports.KeptCitations(mappings, StoredKeys(n)) && id in c.ids
    ensures exists k :: 1 <= k <= n && id == Key(k)
  {
    ResearchReports.AcceptedReportAgrees(answer, mappings, StoredKeys(n), digit, id);
    assert id in StoredKeys(n);
  }
}
