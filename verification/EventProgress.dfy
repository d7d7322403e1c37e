/**
 Progress of the event stream: once a durable log is finished, every run
 without faults ends, and it ends with the whole log shown.
 */
module EventProgress {
  import opened Prelude
  import opened EventPages
  import opened EventDelivery
  import opened EventSafety

  const IN_TIME := Choice(false, false)

  /** A step that is due and meets no fault: connecting, a server turn in time, or a delivery. */
  predicate Due(s: System, a: Action) {
    Enabled(s, a) &&
    match a
    case Connect(_) => true
    case ServerActs(choice) => choice == IN_TIME && s.link.value.server.phase != Closed
    case Deliver => true
    case _ => false
  }

  /** The stream was opened on the finished log, and carries no ending but the terminal one. */
  ghost predicate Current(log: Log, v: Viewer, l: Link) {
    && l.server.asOf == log.eventSequence && l.server.page.status == log.status
    && (forall f :: f in l.channel ==> !f.ErrorFrame? && (f.End? ==> f.reason == Terminal && f.status == log.status))
    && (l.server.phase == Closed ==> l.automaton.ended || (exists f :: f in l.channel && f.End?))
    && (v.ending.Some? ==> v.ending.value.End? && v.ending.value.reason == Terminal)
  }

  predicate Finished(log: Log) {
    log.durable && TerminalStatus(log.status)
  }

  predicate AllDone(s: System) {
    s.viewer.activity == Complete(s.log.eventSequence) && s.viewer.cursor == s.log.eventSequence
  }

  ghost predicate Live(s: System) {
    && Safe(s) && Finished(s.log)
    && (AllDone(s) || s.viewer.activity.Connecting?
        || (s.viewer.activity.Streaming? && s.link.Some? && Current(s.log, s.viewer, s.link.value)))
  }

  // ----------------------------------------------------------------- bound

  /** A poll is due before the next event. */
  function PollDue(s: Server): nat {
    if s.next >= |s.page.items| && s.page.hasMore then 1 else 0
  }

  /** The turns a server has left: an ending, a greeting, and for each event at most one poll. */
  function TurnsLeft(log: Log, s: Server): int {
    if s.phase == Closed then 0
    else 2 + (if s.phase == Greeting then 2 else 0) + 3 * (log.eventSequence - s.cursor) + PollDue(s)
  }

  /** No more steps than this are due before everything is shown. */
  function StepsLeft(s: System): int {
    match s.viewer.activity
    case Connecting => 3 * s.log.eventSequence + 10
    case Streaming => if s.link.Some? then 1 + |s.link.value.channel| + TurnsLeft(s.log, s.link.value.server) else 0
    case _ => 0
  }

  // ----------------------------------------------------------------- steps

  lemma ConnectIsLive(s: System, after: nat)
    requires Live(s) && Due(s, Connect(after))
    ensures Live(Next(s, Connect(after))) && 0 <= StepsLeft(Next(s, Connect(after))) < StepsLeft(s)
  {
    NextIsSafe(s, Connect(after));
    PollFits(s.log, after);
    var page := ReadPage(s.log, Some(after), None, STREAM_PAGE).value;
    var server := OpenStream(s.log, page);
    if page.items != [] {
      assert after + 1 + 0 in s.log.rows && page.items[0] == s.log.rows[after + 1 + 0];
    }
    assert server.cursor == after <= s.log.eventSequence;
    hide Dense, ShownIsLog, LinkFits, Safe;
    assert s.link.None? && s.viewer.ending.None? by { IdleHasNoEnding(s); }
  }

  lemma IdleHasNoEnding(s: System)
    requires Safe(s) && s.viewer.activity.Connecting?
    ensures s.link.None? && s.viewer.ending.None?
  {
  }

  /** A turn in time of a current server sends an event, the terminal ending, or polls a page that has events. */
  lemma TurnInTime(log: Log, s: Server)
    requires Dense(log) && Finished(log) && PageIsLog(log, s) && s.phase != Closed
    requires s.asOf == log.eventSequence && s.page.status == log.status
    ensures var (t, f) := ServerTurn(log, s, IN_TIME);
            && t.asOf == log.eventSequence && t.page.status == log.status
            && t.cursor <= log.eventSequence
            && (f.None? ==> t.phase == Sending)
            && (f.Some? ==> !f.value.ErrorFrame? && (t.phase == Closed <==> f.value.End?)
                            && (f.value.End? ==> f.value.reason == Terminal && f.value.status == log.status))
            && TurnsLeft(log, t) + One(f) < TurnsLeft(log, s)
  {
    ServerTurnFits(log, s, IN_TIME);
    if s.phase == Sending && s.next >= |s.page.items| {
      PollInTime(log, s);
    }
    hide Dense, ReadPage, Slice;
  }

  function One(f: Option<Frame>): nat {
    if f.Some? then 1 else 0
  }

  lemma PollInTime(log: Log, s: Server)
    requires Dense(log) && PageIsLog(log, s) && s.phase == Sending && s.next == |s.page.items|
    ensures var polled := ReadPage(log, Some(s.cursor), None, STREAM_PAGE);
            && polled.Ok? && polled.value.status == log.status
            && (polled.value.hasMore ==> polled.value.items != [])
  {
    ForwardPage(log, s.cursor, STREAM_PAGE);
    hide ReadPage;
  }

  lemma TurnIsLive(s: System)
    requires Live(s) && Due(s, ServerActs(IN_TIME))
    ensures Live(Next(s, ServerActs(IN_TIME)))
    ensures 0 <= StepsLeft(Next(s, ServerActs(IN_TIME))) < StepsLeft(s)
  {
    NextIsSafe(s, ServerActs(IN_TIME));
    var l := s.link.value;
    LinkIsOpen(s);
    TurnInTime(s.log, l.server);
    var (server, frame) := ServerTurn(s.log, l.server, IN_TIME);
    hide Dense, ShownIsLog, LinkFits, Safe, ServerTurn, TurnsLeft, PageIsLog;
    TurnsAreLeft(s.log, server);
    if frame.Some? {
      forall f | f in l.channel + [frame.value]
        ensures f in l.channel || f == frame.value
      {
      }
      assert frame.value in l.channel + [frame.value];
    }
  }

  lemma TurnsAreLeft(log: Log, s: Server)
    requires s.cursor <= log.eventSequence
    ensures TurnsLeft(log, s) >= 0
  {
  }

  lemma LinkIsOpen(s: System)
    requires Safe(s) && s.link.Some?
    ensures var l := s.link.value;
            && s.viewer.activity.Streaming? && Dense(s.log) && PageIsLog(s.log, l.server)
            && l.server.cursor <= s.log.eventSequence
            && (l.automaton.ended <==> s.viewer.ending.Some?)
            && (l.automaton.ended ==>
                  l.channel == [] && l.server.phase == Closed
                  && s.viewer.ending.value.End? && s.viewer.ending.value.asOf == l.server.asOf)
  {
  }

  /** The client accepts whatever a current stream has in flight. */
  lemma HeadIsAccepted(s: System)
    requires Live(s) && s.link.Some? && s.link.value.channel != []
    ensures var l := s.link.value;
            && Accept(l.automaton, l.channel[0]).Ok?
            && (l.channel[0].End? <==> Accept(l.automaton, l.channel[0]).value.ended)
  {
    var l := s.link.value;
    var from: nat :| LinkFits(s.log, s.viewer, l, from);
    assert l.channel[0] in l.channel;
  }

  lemma FrameIsLive(s: System)
    requires Live(s) && Due(s, Deliver) && s.link.value.channel != []
    ensures Live(Next(s, Deliver)) && 0 <= StepsLeft(Next(s, Deliver)) < StepsLeft(s)
  {
    NextIsSafe(s, Deliver);
    HeadIsAccepted(s);
    LinkIsOpen(s);
    var l, t := s.link.value, Next(s, Deliver);
    TurnsAreLeft(s.log, l.server);
    SafeIsNoGap(s);
    SafeIsNoGap(t);
    hide Dense, ShownIsLog, LinkFits, Safe, TurnsLeft, PageIsLog, Accept;
    var rest := l.channel[1..];
    assert l.channel == [l.channel[0]] + rest && l.channel[0] in l.channel;
    assert t.link == Some(Link(l.server, rest, Accept(l.automaton, l.channel[0]).value));
    assert forall f :: f in rest ==> f in l.channel;
  }

  lemma SafeIsNoGap(s: System)
    requires Safe(s)
    ensures s.viewer.activity != Stopped(Gap)
    ensures s.link.Some? <==> s.viewer.activity == Streaming
  {
  }

  lemma DoneIsLive(s: System)
    requires Live(s) && Due(s, Deliver) && s.link.value.channel == []
    ensures AllDone(Next(s, Deliver)) && Live(Next(s, Deliver))
    ensures 0 <= StepsLeft(Next(s, Deliver)) < StepsLeft(s)
  {
    NextIsSafe(s, Deliver);
    LinkIsOpen(s);
    CompleteShowsAll(Next(s, Deliver));
    hide Dense, ShownIsLog, LinkFits, Safe, PageIsLog;
  }

  lemma CompleteShowsAll(s: System)
    requires Safe(s)
    ensures s.viewer.activity.Complete? ==> s.viewer.cursor == s.viewer.activity.asOf
  {
  }

  /** Each step that is due keeps the run alive and brings its end closer. */
  lemma DueStep(s: System, a: Action)
    requires Live(s) && Due(s, a)
    ensures Live(Next(s, a)) && Next(s, a).log == s.log
    ensures 0 <= StepsLeft(Next(s, a)) < StepsLeft(s)
  {
    hide Live, StepsLeft;
    match a
    case Connect(after) => ConnectIsLive(s, after);
    case ServerActs(_) => TurnIsLive(s);
    case Deliver => if s.link.value.channel == [] { DoneIsLive(s); } else { FrameIsLive(s); }
  }

  /** Until everything is shown, some step is due. */
  lemma SomethingIsDue(s: System) returns (a: Action)
    requires Live(s) && !AllDone(s)
    ensures Due(s, a)
  {
    if s.viewer.activity.Connecting? {
      IdleHasNoEnding(s);
      a := Connect(s.viewer.cursor);
    } else if s.link.value.server.phase == Closed {
      a := Deliver;
    } else {
      a := ServerActs(IN_TIME);
    }
  }

  // --------------------------------------------------------------- results

  ghost predicate AllDue(s: System, actions: seq<Action>) {
    forall k :: 0 <= k < |actions| ==> Due(Run(s, actions[..k]), actions[k])
  }

  /**
   However the due steps are ordered, a run without faults on a finished log is
   no longer than a bound fixed at its start; it can stop only with everything
   shown and the task reported complete.
   */
  lemma {:induction false} FaultFreeRunsComplete(s: System, actions: seq<Action>)
    requires Live(s) && AllDue(s, actions)
    ensures var t := Run(s, actions);
            && Live(t) && t.log == s.log
            && 0 <= StepsLeft(t) <= StepsLeft(s) - |actions|
            && (AllDone(t) || exists a :: Due(t, a))
  {
    hide Live, StepsLeft, Due;
    if actions == [] {
      StepsAreLeft(s);
    } else {
      var last := |actions| - 1;
      assert forall k :: 0 <= k < last ==> actions[..last][..k] == actions[..k];
      FaultFreeRunsComplete(s, actions[..last]);
      DueStep(Run(s, actions[..last]), actions[last]);
    }
    if !AllDone(Run(s, actions)) {
      var a := SomethingIsDue(Run(s, actions));
    }
  }

  lemma StepsAreLeft(s: System)
    requires Live(s)
    ensures StepsLeft(s) >= 0
  {
    if s.link.Some? {
      LinkIsOpen(s);
    }
  }

  /** A page opened on a finished log starts such a run. */
  lemma StartIsLive(log: Log)
    requires Dense(log) && Finished(log)
    ensures Start(log).Ok? && Live(Start(log).value)
  {
    StartIsSafe(log);
    BackwardPage(log, None, FIRST_PAGE);
  }

  lemma {:induction false} RunPrepends(s: System, a: Action, rest: seq<Action>)
    ensures Run(s, [a] + rest) == Run(Next(s, a), rest)
  {
    hide Next;
    if rest == [] {
      assert [a] + rest == [a] && [a][..0] == [];
      assert Run(s, [a]) == Next(Run(s, []), a);
    } else {
      var last := |rest| - 1;
      RunPrepends(s, a, rest[..last]);
      assert ([a] + rest)[..last + 1] == [a] + rest[..last];
    }
  }

  /** A run without faults to the end, from any live state. */
  lemma {:induction false} LiveCanComplete(s: System) returns (actions: seq<Action>)
    requires Live(s)
    ensures AllDone(Run(s, actions)) && Run(s, actions).log == s.log
    ensures forall a :: a in actions ==> a.Connect? || a == ServerActs(IN_TIME) || a == Deliver
    decreases StepsLeft(s)
  {
    if AllDone(s) {
      actions := [];
    } else {
      var a := SomethingIsDue(s);
      DueStep(s, a);
      hide Live, StepsLeft, Run;
      var rest := LiveCanComplete(Next(s, a));
      RunPrepends(s, a, rest);
      actions := [a] + rest;
    }
  }

  /**
   From every reachable state in which the viewer is connecting, or has a retry
   left, the rest of a finished log can still be shown: by steps without faults,
   after one disconnection if a stream was open.
   */
  lemma CanAlwaysComplete(s: System) returns (actions: seq<Action>)
    requires Safe(s) && Finished(s.log)
    requires s.viewer.activity.Connecting? || (s.viewer.activity.Streaming? && s.viewer.failures < RETRIES)
    ensures AllDone(Run(s, actions)) && Run(s, actions).log == s.log
    ensures forall i :: 0 <= i < |actions| ==>
              || actions[i].Connect? || actions[i] == ServerActs(IN_TIME) || actions[i] == Deliver
              || (i == 0 && actions[0] == Disconnect && s.viewer.activity.Streaming?)
  {
    if s.viewer.activity.Connecting? {
      actions := LiveCanComplete(s);
    } else {
      NextIsSafe(s, Disconnect);
      var rest := LiveCanComplete(Next(s, Disconnect));
      RunPrepends(s, Disconnect, rest);
      actions := [Disconnect] + rest;
    }
  }
}
