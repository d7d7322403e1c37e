/** Exactly what the server sends next, what the viewer makes of it, and when it gives up. */
module EventLaws {
  import opened Prelude
  import opened EventPages
  import opened EventDelivery
  import opened EventSafety

  // ---------------------------------------------------------------- server

  /** Everything on the page has been sent. */
  predicate PageSent(s: Server) {
    s.phase == Sending && s.next >= |s.page.items|
  }

  /** The page was the last one: nothing is behind it, and nothing can come. */
  predicate IsLast(page: Page) {
    !page.hasMore && (!page.durable || page.status in {Succeeded, Partial, Failed, BudgetExceeded, Cancelled})
  }

  /** What the server sends next, and when it ends the stream. */
  lemma FramesAreSentExactlyWhen(log: Log, s: Server, c: Choice)
    requires s.cursor <= log.eventSequence
    ensures var (t, f) := ServerTurn(log, s, c);
            && (f.Some? && f.value.Ready? <==> s.phase == Greeting)
            && (f.Some? && f.value.Workflow? <==> s.phase == Sending && s.next < |s.page.items|)
            && (f == Some(End(s.page.status, Terminal, s.asOf)) <==> PageSent(s) && IsLast(s.page) && s.page.durable)
            && (f == Some(End(s.page.status, Unsupported, s.asOf)) <==> PageSent(s) && IsLast(s.page) && !s.page.durable)
            && (f == Some(End(s.page.status, Rotate, s.asOf)) <==> PageSent(s) && !IsLast(s.page) && c.expired)
            && (f == Some(ErrorFrame) <==> PageSent(s) && !IsLast(s.page) && !c.expired && c.readFails)
            && (f == None <==> s.phase == Closed
                               || (PageSent(s) && !IsLast(s.page) && !c.expired && !c.readFails))
  {
    hide ReadPage;
    assert ReadPage(log, Some(s.cursor), None, STREAM_PAGE).Ok? by { CursorIsAccepted(log, s.cursor); }
  }

  lemma CursorIsAccepted(log: Log, cursor: nat)
    requires cursor <= log.eventSequence
    ensures ReadPage(log, Some(cursor), None, STREAM_PAGE).Ok?
  {
  }

  /** What each frame says, and what the server remembers of it. */
  lemma FramesSayWhatIsSent(log: Log, s: Server, c: Choice)
    requires s.cursor <= log.eventSequence
    ensures var (t, f) := ServerTurn(log, s, c);
            match f
            case Some(Ready(status, durable)) =>
              status == s.page.status && durable == s.page.durable && t == s.(phase := Sending)
            case Some(Workflow(e)) =>
              s.next < |s.page.items| && e == s.page.items[s.next] && t == s.(next := s.next + 1, cursor := e.sequence)
            case Some(_) => t == s.(phase := Closed)
            case None =>
              if s.phase == Closed then t == s
              else
                t == s.(page := t.page, next := 0, asOf := log.eventSequence)
                && Ok(t.page) == ReadPage(log, Some(s.cursor), None, 100)
  {
    CursorIsAccepted(log, s.cursor);
    hide ReadPage;
  }

  // ---------------------------------------------------------------- client

  /** A frame is accepted exactly once greeted and before an ending, and only with an ending that makes sense. */
  lemma FramesAreAcceptedExactlyWhen(a: Automaton, f: Frame)
    ensures var over := TerminalStatus(match f case End(status, _, _) => status case _ => Queued);
            Accept(a, f) ==
            if a.ended then Err(ProtocolError)
            else if f.ErrorFrame? then Err(Unavailable)
            else if f.Ready? && !a.ready then Ok(Automaton(true, f.durable, false))
            else if f.Workflow? && a.ready then Ok(a)
            else if f.End? && a.ready
                    && (if f.reason == Terminal then a.durable && over
                        else if f.reason == Rotate then a.durable && !over else !a.durable)
            then Ok(a.(ended := true))
            else Err(ProtocolError)
  {
  }

  /** A first page is shown as it is; only a durable task is followed. */
  lemma ViewersStartWithTheFirstPage(log: Log)
    requires Dense(log)
    ensures Start(log).Ok?
    ensures var s := Start(log).value;
            && s.log == log && s.link == None && s.viewer.failures == 0 && s.viewer.ending == None
            && s.viewer.activity == (if log.durable then Connecting else NotLive)
            && s.viewer.cursor == log.eventSequence && |s.viewer.events| == MinNat(50, log.eventSequence)
  {
    BackwardPage(log, None, FIRST_PAGE);
  }

  /** The viewer after losing its connection: five retries, then it gives up. */
  predicate LostOnce(before: Viewer, after: Viewer) {
    && after.cursor == before.cursor && after.events == before.events && after.ending == None
    && (before.failures < 5 ==> after.activity == Connecting && after.failures == before.failures + 1)
    && (before.failures >= 5 ==> after.activity == Stopped(TooManyFailures) && after.failures == before.failures)
  }

  /** What the end of a stream means, by the ending it carried. */
  lemma StreamsEndExactly(s: System)
    requires Enabled(s, Deliver) && s.link.value.channel == []
    ensures var v, w := s.viewer, Next(s, Deliver).viewer;
            && Next(s, Deliver).link == None && Next(s, Deliver).log == s.log
            && w.cursor == v.cursor && w.events == v.events
            && match v.ending
               case Some(End(_, Terminal, asOf)) => w == v.(activity := Complete(asOf))
               case Some(End(_, Unsupported, _)) => w == v.(activity := NotLive)
               case Some(End(_, Rotate, _)) => w == v.(activity := Connecting, failures := 0, ending := None)
               case _ => LostOnce(v, w)
  {
  }

  /** What one frame does: the next event is shown, an old one ignored, an ending kept, anything else ends the stream. */
  lemma FramesTakeEffectExactly(s: System)
    requires Enabled(s, Deliver) && s.link.value.channel != []
    ensures var l := s.link.value;
            var f, v, w := l.channel[0], s.viewer, Next(s, Deliver).viewer;
            var accepted := Accept(l.automaton, f);
            && Next(s, Deliver).log == s.log
            && (accepted == Err(Unavailable) ==> Next(s, Deliver).link == None && LostOnce(v, w))
            && (accepted == Err(ProtocolError) ==>
                  Next(s, Deliver).link == None && w == v.(activity := Stopped(InvalidFrame), ending := None))
            && (accepted.Ok? && f.Workflow? && f.event.sequence > v.cursor + 1 ==>
                  Next(s, Deliver).link == None && w == v.(activity := Stopped(Gap)))
            && (accepted.Ok? && !v.activity.Stopped? && !(f.Workflow? && f.event.sequence > v.cursor + 1) ==>
                  && Next(s, Deliver).link == Some(Link(l.server, l.channel[1..], accepted.value))
                  && (if f.Workflow? && f.event.sequence == v.cursor + 1 then
                        && w == v.(cursor := v.cursor + 1, failures := 0, events := w.events)
                        && w.events == (v.events + [f.event])[|v.events| + 1 - MinNat(200, |v.events| + 1)..]
                      else w == if f.End? then v.(ending := Some(f)) else v))
  {
  }

  /** Connecting resumes at a place already shown; a lost connection or attempt costs a retry. */
  lemma ConnectionsChangeExactly(s: System, after: nat)
    requires s.viewer.cursor <= s.log.eventSequence
    ensures Enabled(s, Connect(after)) <==> s.viewer.activity == Connecting && s.link == None && after <= s.viewer.cursor
    ensures Enabled(s, Connect(after)) ==>
              var t := Next(s, Connect(after));
              && t.log == s.log && t.viewer == s.viewer.(activity := Streaming) && t.link.Some?
              && t.link.value.channel == [] && t.link.value.automaton == Automaton(false, false, false)
              && t.link.value.server.phase == Greeting && t.link.value.server.asOf == s.log.eventSequence
              && Ok(t.link.value.server.page) == ReadPage(s.log, Some(after), None, 100)
    ensures Enabled(s, ConnectFails) ==>
              Next(s, ConnectFails) == s.(viewer := Next(s, ConnectFails).viewer)
              && LostOnce(s.viewer, Next(s, ConnectFails).viewer)
    ensures Enabled(s, Disconnect) ==>
              Next(s, Disconnect).link == None && Next(s, Disconnect).log == s.log
              && LostOnce(s.viewer, Next(s, Disconnect).viewer)
  {
    CursorIsAccepted(s.log, if after <= s.viewer.cursor then after else 0);
  }

  // --------------------------------------------------------------- retries

  /** A step that loses a connection, an attempt at one, or a stream that ends early or in an error. */
  predicate Loses(s: System, a: Action) {
    Enabled(s, a) &&
    match a
    case ConnectFails => true
    case Disconnect => true
    case Deliver =>
      var l := s.link.value;
      if l.channel == [] then s.viewer.ending.None? else l.channel[0].ErrorFrame? && !l.automaton.ended
    case _ => false
  }

  /** A step that shows a new event, or follows a rotation. */
  predicate Recovers(s: System, a: Action) {
    && a == Deliver && Enabled(s, a)
    && var l := s.link.value;
       if l.channel == [] then
         s.viewer.ending.Some? && s.viewer.ending.value.End? && s.viewer.ending.value.reason == Rotate
       else
         Accept(l.automaton, l.channel[0]).Ok? && l.channel[0].Workflow?
         && l.channel[0].event.sequence == s.viewer.cursor + 1
  }

  /** Losses since the last recovery of a run. */
  function Streak(s: System, actions: seq<Action>): nat {
    if actions == [] then 0
    else
      var prefix := actions[..|actions| - 1];
      var a := actions[|actions| - 1];
      if Recovers(Run(s, prefix), a) then 0
      else Streak(s, prefix) + if Loses(Run(s, prefix), a) then 1 else 0
  }

  predicate Counted(v: Viewer, streak: nat) {
    if v.activity == Stopped(TooManyFailures) then streak == RETRIES + 1
    else streak == v.failures && streak <= RETRIES
  }

  lemma StepIsCounted(s: System, a: Action, streak: nat)
    requires Safe(s) && Counted(s.viewer, streak)
    ensures Counted(Next(s, a).viewer,
                    if Recovers(s, a) then 0 else streak + if Loses(s, a) then 1 else 0)
  {
    hide Dense, ShownIsLog, LinkFits;
    if Enabled(s, a) {
      match a {
        case Deliver =>
          LinkHasEnding(s);
          if s.link.value.channel == [] { StreamsEndExactly(s); } else { FramesTakeEffectExactly(s); }
        case Connect(after) =>
          SafeCursor(s);
          ConnectionsChangeExactly(s, after);
        case ConnectFails =>
        case Disconnect =>
        case AppendEvent(_, _) =>
        case ChangeStatus(_) =>
        case ServerActs(_) =>
      }
    }
  }

  lemma SafeCursor(s: System)
    requires Safe(s)
    ensures s.viewer.cursor <= s.log.eventSequence
  {
  }

  lemma LinkHasEnding(s: System)
    requires Safe(s) && s.link.Some?
    ensures s.viewer.activity == Streaming
    ensures s.viewer.ending.Some? ==> s.viewer.ending.value.End?
    ensures s.viewer.ending.Some? <==> s.link.value.automaton.ended
  {
  }

  /**
   The viewer gives up exactly when six connections or streams in a row were
   lost, with no new event and no rotation between them, over every run.
   */
  lemma {:induction false} GivesUpExactlyWhen(s: System, actions: seq<Action>)
    requires Safe(s) && s.viewer.failures == 0 && s.viewer.activity != Stopped(TooManyFailures)
    ensures Run(s, actions).viewer.activity == Stopped(TooManyFailures) <==> Streak(s, actions) == RETRIES + 1
    ensures Counted(Run(s, actions).viewer, Streak(s, actions))
  {
    if actions != [] {
      var prefix := actions[..|actions| - 1];
      GivesUpExactlyWhen(s, prefix);
      RunIsSafe(s, prefix);
      StepIsCounted(Run(s, prefix), actions[|actions| - 1], Streak(s, prefix));
      hide Next, Recovers, Loses, Safe;
    }
  }
}
