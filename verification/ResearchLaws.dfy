/** Exactly which evidence and which citations are kept, how answers are ranked, and what is counted. */
module ResearchLaws {
  import opened Prelude
  import opened Metering
  import E = EvidenceSelection
  import R = ResearchReports

  // ----------------------------------------------------------------- usage

  /** Every completion that was received counts as a call, with its tokens if it reports them; a lost one does not. */
  lemma UsageIsCountedExactly<T>(start: Meter, attempts: seq<Attempt<T>>, last: Attempt<T>)
    ensures Metered(start, attempts + [last]) ==
            match last
            case Lost => Metered(start, attempts)
            case Received(_, None) => Meter(Metered(start, attempts).calls + 1, Metered(start, attempts).tokens)
            case SchemaError(_, None) => Meter(Metered(start, attempts).calls + 1, Metered(start, attempts).tokens)
            case Received(_, Some(n)) => Meter(Metered(start, attempts).calls + 1, Metered(start, attempts).tokens + n)
            case SchemaError(_, Some(n)) => Meter(Metered(start, attempts).calls + 1, Metered(start, attempts).tokens + n)
    ensures Metered<T>(start, []) == start
  {
    assert (attempts + [last])[..|attempts|] == attempts;
  }

  // -------------------------------------------------------------- evidence

  /** A pick of a known candidate with a claim, a relevance between 0 and 1, content, and a source that may be cited. */
  predicate GoodPick(candidates: E.Candidates, item: E.Item) {
    && item.Pick? && item.id in candidates && |item.claim| > 0
    && item.relevance.Some? && item.relevance.value >= 0.0 && item.relevance.value <= 1.0
    && |candidates[item.id].content| > 0 && candidates[item.id].validUrl
    && (candidates[item.id].source == "document" ==> candidates[item.id].inScope)
  }

  /** The first good pick of its candidate. */
  predicate FirstGoodPick(candidates: E.Candidates, items: seq<E.Item>, k: nat)
    requires k < |items|
  {
    && GoodPick(candidates, items[k])
    && forall j :: 0 <= j < k && GoodPick(candidates, items[j]) ==> items[j].id != items[k].id
  }

  lemma SoundIsGood(candidates: E.Candidates, item: E.Item)
    ensures E.Sound(candidates, item) <==> GoodPick(candidates, item)
    ensures forall used :: E.ReasonAgainst(candidates, used, item) == None
                           <==> GoodPick(candidates, item) && item.id !in used
  {
  }

  /** The selections are the first good picks, each as it was submitted and in that order; all else is rejected. */
  lemma {:induction false} SelectionsAreTheFirstGoodPicks(candidates: E.Candidates, items: seq<E.Item>)
    returns (places: seq<nat>)
    ensures var r := E.ReadingOfItems(candidates, items);
            && |places| == |r.selections| && |r.rejections| == |items| - |places|
            && (forall i, j :: 0 <= i < j < |places| ==> places[i] < places[j])
            && (forall i :: 0 <= i < |places| ==>
                  places[i] < |items| && FirstGoodPick(candidates, items, places[i])
                  && items[places[i]]
                     == E.Pick(r.selections[i].id, r.selections[i].claim, Some(r.selections[i].relevance)))
            && (forall k :: 0 <= k < |items| && FirstGoodPick(candidates, items, k) ==> k in places)
  {
    places := [];
    if items != [] {
      var n := |items| - 1;
      var shorter := items[..n];
      places := SelectionsAreTheFirstGoodPicks(candidates, shorter);
      var before := E.ReadingOfItems(candidates, shorter);
      PicksOfPrefix(candidates, items, n);
      SoundIsGood(candidates, items[n]);
      SelectedBefore(candidates, items, n);
      assert E.ReasonAgainst(candidates, E.IdsOf(before.selections), items[n]) == None
             <==> FirstGoodPick(candidates, items, n);
      hide FirstGoodPick, GoodPick, E.ReasonAgainst, E.IdsOf;
      if FirstGoodPick(candidates, items, n) {
        places := places + [n];
      }
    }
  }

  lemma PicksOfPrefix(candidates: E.Candidates, items: seq<E.Item>, n: nat)
    requires n <= |items|
    ensures forall k :: 0 <= k < n ==>
              (FirstGoodPick(candidates, items[..n], k) <==> FirstGoodPick(candidates, items, k))
  {
  }

  lemma SelectedBefore(candidates: E.Candidates, items: seq<E.Item>, n: nat)
    requires n < |items|
    ensures var used := E.IdsOf(E.ReadingOfItems(candidates, items[..n]).selections);
            forall id :: id in used <==>
              exists j :: 0 <= j < n && GoodPick(candidates, items[j]) && items[j].id == id
  {
    E.ReadingIsSound(candidates, items[..n]);
    var used := E.IdsOf(E.ReadingOfItems(candidates, items[..n]).selections);
    forall id
      ensures id in used <==> exists j :: 0 <= j < n && GoodPick(candidates, items[j]) && items[j].id == id
    {
      if E.PickedSoundly(candidates, items[..n], id) {
        var j :| 0 <= j < n && E.Sound(candidates, items[..n][j]) && items[..n][j].id == id;
        SoundIsGood(candidates, items[j]);
      }
      if j :| 0 <= j < n && GoodPick(candidates, items[j]) && items[j].id == id {
        SoundIsGood(candidates, items[j]);
        assert E.Sound(candidates, items[..n][j]);
      }
    }
  }

  /** At most the first `maxEvidence` items of an answer are read; an answer that is no list counts as one rejection. */
  lemma AnswersAreReadExactly(candidates: E.Candidates, response: Option<seq<E.Item>>, maxEvidence: nat)
    ensures response == None ==> E.ReadingOf(candidates, response, maxEvidence) == E.Reading([], [E.InvalidResponse])
    ensures response.Some? ==>
              E.ReadingOf(candidates, response, maxEvidence)
              == E.ReadingOfItems(candidates, if |response.value| <= maxEvidence then response.value
                                              else response.value[..maxEvidence])
  {
    if response.Some? && |response.value| == maxEvidence {
      assert response.value[..maxEvidence] == response.value;
    }
  }

  // -------------------------------------------------------------- coverage

  /** A required source type that no selection has. */
  predicate SourceOpen(task: E.Task, r: E.Reading, source: string) {
    source in task.sources
    && forall s :: s in r.selections && s.id in task.candidates ==> task.candidates[s.id].source != source
  }

  /** A required topic that no selection has, up to case. */
  predicate TopicOpen(task: E.Task, fold: string -> string, r: E.Reading, topic: string) {
    topic in task.topics
    && forall s :: s in r.selections && s.id in task.candidates ==> fold(task.candidates[s.id].topic) != fold(topic)
  }

  lemma GapsAre(task: E.Task, fold: string -> string, r: E.Reading)
    ensures forall source :: source in E.MissingSources(task, r.selections) <==> SourceOpen(task, r, source)
    ensures forall topic :: topic in E.MissingTopics(task, fold, r.selections) <==> TopicOpen(task, fold, r, topic)
  {
    forall source
      ensures source in E.MissingSources(task, r.selections) <==> SourceOpen(task, r, source)
    {
      if SourceOpen(task, r, source) {
        assert forall i :: 0 <= i < |r.selections| ==> r.selections[i] in r.selections;
      }
      if source in task.sources && !E.CoversSource(task, r.selections, source) {
        forall s | s in r.selections && s.id in task.candidates
          ensures task.candidates[s.id].source != source
        {
          var i :| 0 <= i < |r.selections| && r.selections[i] == s;
        }
      }
    }
    forall topic
      ensures topic in E.MissingTopics(task, fold, r.selections) <==> TopicOpen(task, fold, r, topic)
    {
      if TopicOpen(task, fold, r, topic) {
        assert forall i :: 0 <= i < |r.selections| ==> r.selections[i] in r.selections;
      }
      if topic in task.topics && !E.CoversTopic(task, fold, r.selections, topic) {
        forall s | s in r.selections && s.id in task.candidates
          ensures fold(task.candidates[s.id].topic) != fold(topic)
        {
          var i :| 0 <= i < |r.selections| && r.selections[i] == s;
        }
      }
    }
  }

  function OpenSources(task: E.Task, r: E.Reading): set<string> {
    set source | source in task.sources && SourceOpen(task, r, source)
  }

  function OpenTopics(task: E.Task, fold: string -> string, r: E.Reading): set<string> {
    set topic | topic in task.topics && TopicOpen(task, fold, r, topic)
  }

  /** One answer ranks above another by open sources, then open topics, then rejections, then by selecting more. */
  lemma AnswersRankExactly(task: E.Task, fold: string -> string, a: E.Reading, b: E.Reading)
    ensures E.Better(E.RankOf(task, fold, a), E.RankOf(task, fold, b)) <==>
            if |OpenSources(task, a)| != |OpenSources(task, b)| then |OpenSources(task, a)| < |OpenSources(task, b)|
            else if |OpenTopics(task, fold, a)| != |OpenTopics(task, fold, b)|
            then |OpenTopics(task, fold, a)| < |OpenTopics(task, fold, b)|
            else if |a.rejections| != |b.rejections| then |a.rejections| < |b.rejections|
            else |a.selections| > |b.selections|
  {
    GapsAre(task, fold, a);
    GapsAre(task, fold, b);
    assert OpenSources(task, a) == E.MissingSources(task, a.selections);
    assert OpenSources(task, b) == E.MissingSources(task, b.selections);
    assert OpenTopics(task, fold, a) == E.MissingTopics(task, fold, a.selections);
    assert OpenTopics(task, fold, b) == E.MissingTopics(task, fold, b.selections);
    hide E.MissingSources, E.MissingTopics, OpenSources, OpenTopics;
  }

  /** A first answer settles the matter if asking again could not close a gap, or must not be done. */
  lemma AnswersSettleExactlyWhen(task: E.Task, fold: string -> string, a: Attempt<Option<seq<E.Item>>>)
    ensures E.Settles(task, fold, a) <==>
              match a
              case Lost => true
              case SchemaError(correctable, _) => !correctable
              case Received(response, _) =>
                var r := E.ReadingOf(task.candidates, response, task.maxEvidence);
                && r.rejections == []
                && (forall id :: id in task.candidates ==>
                      !SourceOpen(task, r, task.candidates[id].source)
                      && forall topic :: topic in task.topics && fold(topic) == fold(task.candidates[id].topic) ==>
                           !TopicOpen(task, fold, r, topic))
  {
    if a.Received? {
      GapsAre(task, fold, E.ReadingOf(task.candidates, a.value, task.maxEvidence));
      hide E.ReadingOf, SourceOpen, TopicOpen, E.MissingSources;
      var r := E.ReadingOf(task.candidates, a.value, task.maxEvidence);
      assert forall topic :: topic in E.MissingTopics(task, fold, r.selections) ==> topic in task.topics;
    }
  }

  /** The evidence is complete when nothing is open, two addresses are cited, and nothing was rejected or warned about. */
  lemma EvidenceIsCompleteExactlyWhen(task: E.Task, fold: string -> string, r: E.Reading, providerWarning: bool)
    requires forall s :: s in r.selections ==> s.id in task.candidates
    ensures !E.Partial(task, fold, r, providerWarning) <==>
              && (forall source :: !SourceOpen(task, r, source)) && (forall topic :: !TopicOpen(task, fold, r, topic))
              && (exists s, t :: s in r.selections && t in r.selections
                                 && task.candidates[s.id].url != task.candidates[t.id].url)
              && !providerWarning && r.rejections == []
  {
    GapsAre(task, fold, r);
    TwoUrls(task, r.selections);
    hide E.Urls, SourceOpen, TopicOpen;
  }

  lemma UrlsAre(task: E.Task, selections: seq<E.Selection>, u: string)
    requires forall s :: s in selections ==> s.id in task.candidates
    ensures u in E.Urls(task, selections) <==> exists s :: s in selections && task.candidates[s.id].url == u
  {
    if s :| s in selections && task.candidates[s.id].url == u {
      var i :| 0 <= i < |selections| && selections[i] == s;
      assert selections[i].id in task.candidates;
    }
    if u in E.Urls(task, selections) {
      var i :| 0 <= i < |selections| && selections[i].id in task.candidates && task.candidates[selections[i].id].url == u;
      assert selections[i] in selections;
    }
  }

  lemma TwoMembers(urls: set<string>)
    ensures |urls| >= 2 <==> exists u, v :: u in urls && v in urls && u != v
  {
    if |urls| >= 2 {
      var u :| u in urls;
      assert |urls - {u}| == |urls| - 1;
      var v :| v in urls - {u};
    }
    if u, v :| u in urls && v in urls && u != v {
      assert {u, v} <= urls && |{u, v}| == 2;
      assert |urls| == |{u, v}| + |urls - {u, v}|;
    }
  }

  lemma TwoUrls(task: E.Task, selections: seq<E.Selection>)
    requires forall s :: s in selections ==> s.id in task.candidates
    ensures |E.Urls(task, selections)| >= 2 <==>
              exists s, t :: s in selections && t in selections
                             && task.candidates[s.id].url != task.candidates[t.id].url
  {
    var urls := E.Urls(task, selections);
    forall u
      ensures u in urls <==> exists s :: s in selections && task.candidates[s.id].url == u
    {
      UrlsAre(task, selections, u);
    }
    TwoMembers(urls);
    hide E.Urls;
    if u, v :| u in urls && v in urls && u != v {
      var s :| s in selections && task.candidates[s.id].url == u;
      var t :| t in selections && task.candidates[t.id].url == v;
    }
    if s, t :| s in selections && t in selections && task.candidates[s.id].url != task.candidates[t.id].url {
      var u, v := task.candidates[s.id].url, task.candidates[t.id].url;
      assert u in urls && v in urls;
    }
  }

  // --------------------------------------------------------------- reports

  predicate Increasing(places: seq<nat>) {
    forall i, j :: 0 <= i < j < |places| ==> places[i] < places[j]
  }

  lemma OneMorePlace(places: seq<nat>, n: nat)
    requires Increasing(places) && forall i :: 0 <= i < |places| ==> places[i] < n
    ensures Increasing(places + [n])
  {
    var longer := places + [n];
    forall i, j | 0 <= i < j < |longer|
      ensures longer[i] < longer[j]
    {
      assert longer[i] == places[i] && (j < |places| ==> longer[j] == places[j]);
    }
  }

  lemma NoPlaces()
    ensures Increasing([])
  {
  }

  /** Identifier `id` is that at place `k`, and at none before. */
  predicate FirstAt(ids: seq<string>, k: nat, id: string) {
    k < |ids| && ids[k] == id && id !in ids[..k]
  }

  lemma FirstInPrefix(ids: seq<string>, n: nat, k: nat, id: string)
    requires n <= |ids| && FirstAt(ids[..n], k, id)
    ensures FirstAt(ids, k, id) && k < n
  {
    assert ids[..n][..k] == ids[..k];
  }

  lemma LastIsFirst(ids: seq<string>)
    requires ids != []
    ensures var n := |ids| - 1;
            && R.Deduplicated(ids) == (if ids[n] in ids[..n] then R.Deduplicated(ids[..n])
                                       else R.Deduplicated(ids[..n]) + [ids[n]])
            && (ids[n] !in ids[..n] ==> FirstAt(ids, n, ids[n]))
            && forall id :: id in ids <==> id in ids[..n] || id == ids[n]
  {
  }

  /** Identifiers are kept once each, in the order of their first places. */
  lemma {:induction false} IdentifiersAreKeptInOrder(ids: seq<string>) returns (places: seq<nat>)
    ensures |places| == |R.Deduplicated(ids)| && Increasing(places)
    ensures forall i :: 0 <= i < |places| ==> FirstAt(ids, places[i], R.Deduplicated(ids)[i])
    ensures forall id :: id in ids ==> id in R.Deduplicated(ids)
  {
    places := [];
    if ids == [] {
      NoPlaces();
    } else {
      var n := |ids| - 1;
      var before := R.Deduplicated(ids[..n]);
      places := IdentifiersAreKeptInOrder(ids[..n]);
      forall i | 0 <= i < |places|
        ensures FirstAt(ids, places[i], before[i]) && places[i] < n
      {
        FirstInPrefix(ids, n, places[i], before[i]);
      }
      OneMorePlace(places, n);
      LastIsFirst(ids);
      if ids[n] !in ids[..n] {
        places := places + [n];
      }
    }
    hide FirstAt, Increasing, R.Deduplicated;
  }

  /** A mapping that counts: a claim, and at least one identifier, all of them of stored evidence. */
  predicate Cites(m: R.Mapping, valid: set<string>) {
    m.Mapping? && |m.claim| > 0 && m.ids.Some? && |m.ids.value| > 0 && forall id :: id in m.ids.value ==> id in valid
  }

  predicate CitedAt(mappings: seq<R.Mapping>, valid: set<string>, k: nat, citation: R.Citation) {
    && k < |mappings| && Cites(mappings[k], valid)
    && citation == R.Citation(mappings[k].claim, R.Deduplicated(mappings[k].ids.value))
  }

  lemma KeptOneMore(mappings: seq<R.Mapping>, valid: set<string>)
    requires mappings != []
    ensures var n := |mappings| - 1;
            var before := R.KeptCitations(mappings[..n], valid);
            R.KeptCitations(mappings, valid) ==
            if Cites(mappings[n], valid)
            then before + [R.Citation(mappings[n].claim, R.Deduplicated(mappings[n].ids.value))] else before
  {
    var m := mappings[|mappings| - 1];
    assert R.Counts(m, valid) <==> Cites(m, valid);
    hide R.Deduplicated;
  }

  lemma CitedInPrefix(mappings: seq<R.Mapping>, valid: set<string>, n: nat, k: nat, citation: R.Citation)
    requires n <= |mappings| && CitedAt(mappings[..n], valid, k, citation)
    ensures CitedAt(mappings, valid, k, citation) && k < n
  {
  }

  lemma LastIsCited(mappings: seq<R.Mapping>, valid: set<string>)
    requires mappings != []
    ensures var n := |mappings| - 1;
            Cites(mappings[n], valid) ==>
              CitedAt(mappings, valid, n, R.Citation(mappings[n].claim, R.Deduplicated(mappings[n].ids.value)))
  {
  }

  /** The citations are the mappings that count, in order, with their claims and identifiers. */
  lemma {:induction false} CitationsAreKeptExactly(mappings: seq<R.Mapping>, valid: set<string>)
    returns (places: seq<nat>)
    ensures var kept := R.KeptCitations(mappings, valid);
            && |places| == |kept| && Increasing(places)
            && (forall i :: 0 <= i < |places| ==> CitedAt(mappings, valid, places[i], kept[i]))
            && (forall k :: 0 <= k < |mappings| && Cites(mappings[k], valid) ==> k in places)
  {
    hide Cites, CitedAt, Increasing, R.Deduplicated;
    places := [];
    if mappings == [] {
      assert Increasing(places) by { NoPlaces(); }
    } else {
      var n := |mappings| - 1;
      var before := R.KeptCitations(mappings[..n], valid);
      places := CitationsAreKeptExactly(mappings[..n], valid);
      KeptOneMore(mappings, valid);
      forall i | 0 <= i < |places|
        ensures places[i] < n && CitedAt(mappings, valid, places[i], before[i])
      {
        CitedInPrefix(mappings, valid, n, places[i], before[i]);
      }
      OneMorePlace(places, n);
      assert forall k :: 0 <= k < n ==> mappings[..n][k] == mappings[k];
      LastIsCited(mappings, valid);
      if Cites(mappings[n], valid) {
        places := places + [n];
      }
    }
  }

  /**
   A report is acceptable when it has markers, every marker is stored evidence,
   and exactly the marked evidence is cited by a mapping that counts.
   */
  lemma ReportsAreAcceptableExactlyWhen(a: Attempt<R.Submission>, valid: set<string>, digit: char -> bool)
    ensures R.Acceptable(a, valid, digit) <==>
              && a.Received? && a.value.mappings.Some? && R.Markers(a.value.answer, digit) != {}
              && (forall w :: w in R.Markers(a.value.answer, digit) ==> w in valid)
              && (forall id :: id in R.Markers(a.value.answer, digit) <==>
                    exists m :: m in a.value.mappings.value && Cites(m, valid) && id in m.ids.value)
  {
    if a.Received? && a.value.mappings.Some? {
      var mappings := a.value.mappings.value;
      forall id
        ensures id in R.CitedIds(mappings, valid) <==>
                exists m :: m in mappings && Cites(m, valid) && id in m.ids.value
      {
        if id in R.CitedIds(mappings, valid) {
          var i :| 0 <= i < |mappings| && R.Counts(mappings[i], valid) && id in mappings[i].ids.value;
          assert mappings[i] in mappings && Cites(mappings[i], valid);
        }
        if m :| m in mappings && Cites(m, valid) && id in m.ids.value {
          var i :| 0 <= i < |mappings| && mappings[i] == m;
          assert R.Counts(mappings[i], valid);
        }
      }
      hide R.CitedIds, Cites, R.Markers;
    }
  }
}
