/** Every interleaving of appends, disconnects, reconnects and rotations is safe. */
module EventSafety {
  import opened Prelude
  import opened EventPages
  import opened EventDelivery

  // ------------------------------------------------------ frames in flight

  /** A frame put behind the others, when no ending has been sent yet. */
  lemma {:induction false} ChannelExtends(
      log: Log, channel: seq<Frame>, f: Frame, greeted: bool, from: nat, upto: nat)
    requires ChannelFits(log, channel, greeted, from, upto) && Unended(channel)
    requires greeted || HasGreeting(channel)
    requires f.Workflow? ==> upto + 1 in log.rows && f.event == log.rows[upto + 1]
    requires f.End? ==> EndFits(f, log.durable, upto)
    requires !f.Ready?
    ensures ChannelFits(log, channel + [f], greeted, from, if f.Workflow? then upto + 1 else upto)
  {
    var after := if f.Workflow? then upto + 1 else upto;
    if channel == [] {
      assert channel + [f] == [f] && [f][1..] == [];
    } else {
      var rest := channel[1..];
      assert channel == [channel[0]] + rest && channel[0] in channel;
      assert Unended(rest) by { forall g | g in rest ensures g in channel {} }
      assert (channel + [f])[1..] == rest + [f];
      match channel[0] {
        case Ready(_, _) => ChannelExtends(log, rest, f, true, from, upto);
        case Workflow(_) =>
          ChannelExtends(log, rest, f, true, from + 1, upto);
          ChannelAdvances(log, rest, true, from + 1, upto);
      }
    }
  }

  lemma {:induction false} ChannelAdvances(log: Log, channel: seq<Frame>, greeted: bool, from: nat, upto: nat)
    requires ChannelFits(log, channel, greeted, from, upto)
    ensures from <= upto
  {
    if channel != [] {
      match channel[0]
      case Ready(_, _) => ChannelAdvances(log, channel[1..], true, from, upto);
      case Workflow(_) => ChannelAdvances(log, channel[1..], true, from + 1, upto);
      case End(_, _, _) =>
      case ErrorFrame =>
    }
  }

  lemma {:induction false} ChannelSurvivesAppend(
      log: Log, channel: seq<Frame>, greeted: bool, from: nat, upto: nat, body: string, status: Status)
    requires Dense(log) && ChannelFits(log, channel, greeted, from, upto)
    ensures ChannelFits(Append(log, body, status), channel, greeted, from, upto)
  {
    if channel != [] {
      match channel[0]
      case Ready(_, _) => ChannelSurvivesAppend(log, channel[1..], true, from, upto, body, status);
      case Workflow(_) => ChannelSurvivesAppend(log, channel[1..], true, from + 1, upto, body, status);
      case End(_, _, _) =>
      case ErrorFrame =>
    }
  }

  lemma {:induction false} ChannelSurvivesStatus(
      log: Log, channel: seq<Frame>, greeted: bool, from: nat, upto: nat, status: Status)
    requires ChannelFits(log, channel, greeted, from, upto)
    ensures ChannelFits(log.(status := status), channel, greeted, from, upto)
  {
    if channel != [] {
      match channel[0]
      case Ready(_, _) => ChannelSurvivesStatus(log, channel[1..], true, from, upto, status);
      case Workflow(_) => ChannelSurvivesStatus(log, channel[1..], true, from + 1, upto, status);
      case End(_, _, _) =>
      case ErrorFrame =>
    }
  }

  // ---------------------------------------------------------- server turns

  lemma PollFits(log: Log, cursor: nat)
    requires Dense(log) && cursor <= log.eventSequence
    ensures ReadPage(log, Some(cursor), None, STREAM_PAGE).Ok?
    ensures var page := ReadPage(log, Some(cursor), None, STREAM_PAGE).value;
            && (forall i :: 0 <= i < |page.items| ==>
                  cursor + 1 + i in log.rows && page.items[i] == log.rows[cursor + 1 + i])
            && cursor + |page.items| <= log.eventSequence
            && (!page.hasMore ==> cursor + |page.items| == log.eventSequence)
            && page.durable == log.durable
            && (page.items == [] ==> page.nextCursor == cursor)
  {
    ForwardPage(log, cursor, STREAM_PAGE);
  }

  /** A turn sends the next event, an ending that fits, or polls; it skips nothing. */
  ghost predicate TurnFits(log: Log, s: Server, t: Server, f: Option<Frame>) {
    && PageIsLog(log, t) && t.phase != Greeting && s.asOf <= t.asOf
    && (s.phase == Closed ==> t == s && f == None)
    && (f.Some? && f.value.Ready? <==> s.phase == Greeting)
    && (f.None? ==> t.cursor == s.cursor && t.phase == s.phase)
    && (f.Some? ==>
          && t.asOf == s.asOf
          && t.cursor == s.cursor + (if f.value.Workflow? then 1 else 0)
          && (t.phase == Closed <==> f.value.End? || f.value.ErrorFrame?)
          && (f.value.Ready? ==> f.value.durable == log.durable)
          && (f.value.Workflow? ==>
                s.cursor + 1 in log.rows && f.value.event == log.rows[s.cursor + 1])
          && (f.value.End? ==> EndFits(f.value, log.durable, s.cursor) && f.value.asOf == s.asOf))
  }

  lemma SendFits(log: Log, s: Server, c: Choice)
    requires Dense(log) && PageIsLog(log, s) && s.phase == Sending && s.next < |s.page.items|
    ensures TurnFits(log, s, ServerTurn(log, s, c).0, ServerTurn(log, s, c).1)
  {
    var n := s.cursor - s.next + 1 + s.next;
    assert n in log.rows && s.page.items[s.next] == log.rows[n];
    assert s.cursor - s.next == s.cursor + 1 - (s.next + 1);
  }

  lemma PollTurnFits(log: Log, s: Server, c: Choice)
    requires Dense(log) && PageIsLog(log, s) && s.phase == Sending && s.next == |s.page.items|
    ensures TurnFits(log, s, ServerTurn(log, s, c).0, ServerTurn(log, s, c).1)
  {
    PolledPageIsLog(log, s);
    assert s.cursor <= s.asOf <= log.eventSequence && s.page.durable == log.durable;
    assert !s.page.hasMore ==> s.cursor == s.asOf;
    assert PageIsLog(log, s.(phase := Closed));
    hide Dense, ReadPage, PageIsLog;
  }

  lemma PolledPageIsLog(log: Log, s: Server)
    requires Dense(log) && PageIsLog(log, s) && s.phase == Sending && s.next == |s.page.items|
    ensures ReadPage(log, Some(s.cursor), None, STREAM_PAGE).Ok?
    ensures var newer := ReadPage(log, Some(s.cursor), None, STREAM_PAGE).value;
            PageIsLog(log, s.(page := newer, next := 0, asOf := log.eventSequence))
  {
    PollFits(log, s.cursor);
    hide Dense, ReadPage;
  }

  lemma ServerTurnFits(log: Log, s: Server, c: Choice)
    requires Dense(log) && PageIsLog(log, s)
    ensures TurnFits(log, s, ServerTurn(log, s, c).0, ServerTurn(log, s, c).1)
  {
    if s.phase == Sending {
      if s.next < |s.page.items| { SendFits(log, s, c); } else { PollTurnFits(log, s, c); }
    }
  }

  lemma SilentTurnKeepsLink(log: Log, v: Viewer, l: Link, from: nat, server: Server)
    requires LinkFits(log, v, l, from) && TurnFits(log, l.server, server, None)
    ensures LinkFits(log, v, Link(server, l.channel, l.automaton), from)
  {
  }

  lemma GreetingKeepsLink(log: Log, v: Viewer, l: Link, from: nat, server: Server, f: Frame)
    requires LinkFits(log, v, l, from) && TurnFits(log, l.server, server, Some(f))
    requires l.server.phase == Greeting && f.Ready?
    ensures LinkFits(log, v, Link(server, l.channel + [f], l.automaton), from)
  {
    assert l.channel + [f] == [f] && [f][1..] == [] && f in [f];
  }

  lemma FrameKeepsLink(log: Log, v: Viewer, l: Link, from: nat, server: Server, f: Frame)
    requires LinkFits(log, v, l, from) && TurnFits(log, l.server, server, Some(f))
    requires l.server.phase == Sending && !f.Ready?
    ensures LinkFits(log, v, Link(server, l.channel + [f], l.automaton), from)
  {
    ChannelExtends(log, l.channel, f, l.automaton.ready, from, l.server.cursor);
    if HasGreeting(l.channel) {
      var g :| g in l.channel && g.Ready?;
      assert g in l.channel + [f];
    }
  }

  lemma ServerActsSafely(s: System, c: Choice)
    requires Safe(s) && s.link.Some?
    ensures Safe(Next(s, ServerActs(c)))
  {
    hide ShownIsLog, Dense, ServerTurn, PageIsLog;
    var l := s.link.value;
    var from: nat :| LinkFits(s.log, s.viewer, l, from);
    assert PageIsLog(s.log, l.server);
    hide LinkFits;
    ServerTurnFits(s.log, l.server, c);
    var (server, frame) := ServerTurn(s.log, l.server, c);
    match l.server.phase
    case Closed => SilentTurnKeepsLink(s.log, s.viewer, l, from, server);
    case Greeting => GreetingKeepsLink(s.log, s.viewer, l, from, server, frame.value);
    case Sending =>
      if frame.None? {
        SilentTurnKeepsLink(s.log, s.viewer, l, from, server);
      } else {
        FrameKeepsLink(s.log, s.viewer, l, from, server, frame.value);
      }
  }

  // ------------------------------------------------------------- delivery

  lemma RenderNext(log: Log, v: Viewer, e: Event)
    requires Dense(log) && ShownIsLog(log, v)
    requires e.sequence in log.rows && e == log.rows[e.sequence] && e.sequence <= v.cursor + 1
    ensures var w := Render(v, e);
            && ShownIsLog(log, w) && w.activity == v.activity && w.ending == v.ending
            && w.failures <= v.failures
            && w.cursor == if e.sequence == v.cursor + 1 then e.sequence else v.cursor
  {
    var w := Render(v, e);
    if e.sequence == v.cursor + 1 {
      var all := v.events + [e];
      var dropped := |all| - |w.events|;
      forall i | 0 <= i < |w.events|
        ensures var n := w.cursor - |w.events| + 1 + i;
                n in log.rows && w.events[i] == log.rows[n]
      {
        assert w.events[i] == all[dropped + i];
        if dropped + i < |v.events| {
          var n := v.cursor - |v.events| + 1 + (dropped + i);
          assert n in log.rows && v.events[dropped + i] == log.rows[n];
        }
      }
    }
  }

  lemma SequenceOf(log: Log, n: nat)
    requires Dense(log) && n in log.rows
    ensures log.rows[n].sequence == n
  {
  }

  lemma RestFits(s: System, from: nat)
    requires s.link.Some? && s.link.value.channel != [] && LinkFits(s.log, s.viewer, s.link.value, from)
    ensures var l := s.link.value;
            && from <= l.server.cursor && l.channel[0] in l.channel
            && forall g :: g in l.channel[1..] ==> g in l.channel
  {
    var l := s.link.value;
    ChannelAdvances(s.log, l.channel, l.automaton.ready, from, l.server.cursor);
  }

  lemma DeliverEvent(s: System, from: nat)
    requires Safe(s) && s.link.Some? && s.link.value.channel != [] && s.link.value.channel[0].Workflow?
    requires LinkFits(s.log, s.viewer, s.link.value, from)
    ensures Safe(Next(s, Deliver))
  {
    var l := s.link.value;
    var e, rest := l.channel[0].event, l.channel[1..];
    RestFits(s, from);
    SequenceOf(s.log, from + 1);
    hide Dense;
    RenderNext(s.log, s.viewer, e);
    ChannelAdvances(s.log, rest, true, from + 1, l.server.cursor);
    assert LinkFits(s.log, Render(s.viewer, e), Link(l.server, rest, l.automaton), from + 1);
  }

  lemma DeliverFrame(s: System)
    requires Safe(s) && s.link.Some? && s.link.value.channel != []
    ensures Safe(Next(s, Deliver))
  {
    var l := s.link.value;
    var from: nat :| LinkFits(s.log, s.viewer, l, from);
    var f := l.channel[0];
    var rest := l.channel[1..];
    RestFits(s, from);
    match f {
      case Ready(_, durable) =>
        var a := Automaton(true, durable, false);
        assert LinkFits(s.log, s.viewer, Link(l.server, rest, a), from);
      case Workflow(_) =>
        DeliverEvent(s, from);
      case End(status, reason, asOf) =>
        if EndAccepted(l.automaton.durable, status, reason) {
          assert rest == [];
          var w := s.viewer.(ending := Some(f));
          assert LinkFits(s.log, w, Link(l.server, [], l.automaton.(ended := true)), from);
        }
      case ErrorFrame =>
    }
  }

  lemma DeliverDone(s: System)
    requires Safe(s) && s.link.Some? && s.link.value.channel == [] && s.link.value.server.phase == Closed
    ensures Safe(Next(s, Deliver))
  {
    var l := s.link.value;
    var from: nat :| LinkFits(s.log, s.viewer, l, from);
  }

  // ------------------------------------------------------ everything else

  lemma AppendSafely(s: System, body: string, status: Status)
    requires Safe(s)
    ensures Safe(Next(s, AppendEvent(body, status)))
  {
    AppendKeepsDense(s.log, body, status);
    if s.link.Some? {
      var l := s.link.value;
      var from: nat :| LinkFits(s.log, s.viewer, l, from);
      if !l.automaton.ended {
        ChannelSurvivesAppend(s.log, l.channel, l.automaton.ready, from, l.server.cursor, body, status);
      }
      assert LinkFits(Append(s.log, body, status), s.viewer, l, from);
    }
  }

  lemma StatusSafely(s: System, status: Status)
    requires Safe(s)
    ensures Safe(Next(s, ChangeStatus(status)))
  {
    if s.link.Some? {
      var l := s.link.value;
      var from: nat :| LinkFits(s.log, s.viewer, l, from);
      if !l.automaton.ended {
        ChannelSurvivesStatus(s.log, l.channel, l.automaton.ready, from, l.server.cursor, status);
      }
      assert LinkFits(s.log.(status := status), s.viewer, l, from);
    }
  }

  lemma ConnectSafely(s: System, after: nat)
    requires Safe(s)
    ensures Safe(Next(s, Connect(after)))
  {
    if Enabled(s, Connect(after)) {
      PollFits(s.log, after);
      var page := ReadPage(s.log, Some(after), None, STREAM_PAGE).value;
      var server := OpenStream(s.log, page);
      if page.items != [] {
        assert after + 1 + 0 in s.log.rows && page.items[0] == s.log.rows[after + 1 + 0];
      }
      assert server.cursor == after;
      var v := s.viewer.(activity := Streaming);
      assert LinkFits(s.log, v, Link(server, [], Automaton(false, false, false)), after);
    }
  }

  lemma NextIsSafe(s: System, a: Action)
    requires Safe(s)
    ensures Safe(Next(s, a))
  {
    if Enabled(s, a) {
      match a
      case AppendEvent(body, status) => AppendSafely(s, body, status);
      case ChangeStatus(status) => StatusSafely(s, status);
      case Connect(after) => ConnectSafely(s, after);
      case ConnectFails =>
      case ServerActs(choice) => ServerActsSafely(s, choice);
      case Deliver =>
        if s.link.value.channel != [] { DeliverFrame(s); } else { DeliverDone(s); }
      case Disconnect =>
    }
  }

  lemma StartIsSafe(log: Log)
    requires Dense(log)
    ensures Start(log).Ok? && Safe(Start(log).value)
  {
    BackwardPage(log, None, FIRST_PAGE);
  }

  lemma {:induction false} RunIsSafe(s: System, actions: seq<Action>)
    requires Safe(s)
    ensures Safe(Run(s, actions))
  {
    if actions != [] {
      RunIsSafe(s, actions[..|actions| - 1]);
      NextIsSafe(Run(s, actions[..|actions| - 1]), actions[|actions| - 1]);
    }
  }

  // --------------------------------------------------------- nothing is lost

  /** From a first page over `start` events: every event since then is shown, up to what is retained. */
  predicate AllShown(start: nat, v: Viewer) {
    && v.cursor >= start
    && |v.events| == MinNat(RETAINED, MinNat(FIRST_PAGE, start) + (v.cursor - start))
  }

  lemma StartShowsAll(log: Log)
    requires Dense(log)
    ensures Start(log).Ok? && AllShown(log.eventSequence, Start(log).value.viewer)
  {
    BackwardPage(log, None, FIRST_PAGE);
  }

  lemma NextKeepsAllShown(start: nat, s: System, a: Action)
    requires AllShown(start, s.viewer)
    ensures AllShown(start, Next(s, a).viewer)
  {
  }

  lemma {:induction false} RunShowsAll(start: nat, s: System, actions: seq<Action>)
    requires AllShown(start, s.viewer)
    ensures AllShown(start, Run(s, actions).viewer)
  {
    if actions != [] {
      RunShowsAll(start, s, actions[..|actions| - 1]);
      NextKeepsAllShown(start, Run(s, actions[..|actions| - 1]), actions[|actions| - 1]);
    }
  }

  // --------------------------------------------------------------- results

  /**
   From any dense log and under any interleaving: the events shown are exactly
   the log's events in a contiguous run ending at the cursor, each shown once;
   none of the first page and of what came since is missing, up to the 200 that
   are retained; the gap error never fires and no cursor is rejected; and a
   viewer that reports the workflow complete has shown everything up to the
   counter that the server's ending was computed from.
   */
  lemma DeliveryIsExactlyOnce(log: Log, actions: seq<Action>)
    requires Dense(log)
    ensures Start(log).Ok?
    ensures var s := Run(Start(log).value, actions);
            var v := s.viewer;
            && log.eventSequence <= v.cursor <= s.log.eventSequence
            && |v.events| == MinNat(RETAINED, MinNat(FIRST_PAGE, log.eventSequence) + (v.cursor - log.eventSequence))
            && (forall i :: 0 <= i < |v.events| ==> v.events[i].sequence == v.cursor - |v.events| + 1 + i)
            && (forall i :: 0 <= i < |v.events| ==>
                  v.events[i].sequence in s.log.rows && v.events[i] == s.log.rows[v.events[i].sequence])
            && v.activity != Stopped(Gap) && v.activity != Stopped(Rejected)
            && (v.activity.Complete? ==> v.cursor == v.activity.asOf)
  {
    StartIsSafe(log);
    StartShowsAll(log);
    RunIsSafe(Start(log).value, actions);
    RunShowsAll(log.eventSequence, Start(log).value, actions);
    var s := Run(Start(log).value, actions);
    var v := s.viewer;
    forall i | 0 <= i < |v.events|
      ensures v.events[i].sequence == v.cursor - |v.events| + 1 + i
      ensures v.events[i].sequence in s.log.rows && v.events[i] == s.log.rows[v.events[i].sequence]
    {
      var n := v.cursor - |v.events| + 1 + i;
      assert n in s.log.rows && v.events[i] == s.log.rows[n];
    }
  }

  // ------------------------------------------------------- rejected endings

  /** The browser rejects no frame of this server except a rotation of a terminal task. */
  lemma OnlyTerminalRotationIsRejected(s: System)
    requires Safe(s) && s.link.Some? && s.link.value.channel != []
    ensures var l := s.link.value;
            var f := l.channel[0];
            Accept(l.automaton, f) == Err(ProtocolError)
            <==> f.End? && f.reason == Rotate && TerminalStatus(f.status)
  {
    var l := s.link.value;
    var from: nat :| LinkFits(s.log, s.viewer, l, from);
  }

  /** The server sends such a rotation exactly when its time is up with a terminal page unfinished. */
  lemma TerminalRotationIsSentExactlyWhen(log: Log, s: Server, c: Choice)
    requires s.phase == Sending && s.page.durable
    ensures (exists asOf :: ServerTurn(log, s, c).1 == Some(End(s.page.status, Rotate, asOf)))
            && TerminalStatus(s.page.status)
            <==> |s.page.items| <= s.next && s.page.hasMore && c.expired && TerminalStatus(s.page.status)
  {
    assert |s.page.items| <= s.next && s.page.hasMore && c.expired ==>
             ServerTurn(log, s, c).1 == Some(End(s.page.status, Rotate, s.asOf));
  }

  /** The server after `n` turns without expiry or failure. */
  function Turns(log: Log, s: Server, n: nat): Server {
    if n == 0 then s else ServerTurn(log, Turns(log, s, n - 1), Choice(false, false)).0
  }

  lemma OneMoreEvent(log: Log, page: Page, after: nat, k: nat)
    requires k < |page.items| && page.items[k].sequence == after + k + 1
    ensures ServerTurn(log, Server(Sending, page, k, after + k, log.eventSequence), Choice(false, false)).0
            == Server(Sending, page, k + 1, after + k + 1, log.eventSequence)
  {
  }

  lemma {:induction false} PageIsSentInOrder(log: Log, page: Page, after: nat, n: nat)
    requires n <= |page.items|
    requires forall i :: 0 <= i < |page.items| ==> page.items[i].sequence == after + i + 1
    requires page.items == [] ==> page.nextCursor == after
    ensures Turns(log, OpenStream(log, page), n + 1)
            == Server(Sending, page, n, after + n, log.eventSequence)
  {
    if n == 0 {
      assert Turns(log, OpenStream(log, page), 0) == OpenStream(log, page);
    } else {
      PageIsSentInOrder(log, page, after, n - 1);
      OneMoreEvent(log, page, after, n - 1);
    }
  }

  /**
   A finished task with more than a page of events behind the browser's cursor
   is rotated after its first page if time runs out, and the browser stops.
   */
  lemma LongFinishedHistoryIsRejected(log: Log, after: nat)
    requires Dense(log) && log.durable && TerminalStatus(log.status)
    requires after + STREAM_PAGE < log.eventSequence
    ensures ReadPage(log, Some(after), None, STREAM_PAGE).Ok?
    ensures var page := ReadPage(log, Some(after), None, STREAM_PAGE).value;
            var server := Turns(log, OpenStream(log, page), STREAM_PAGE + 1);
            var frame := ServerTurn(log, server, Choice(true, false)).1;
            && frame == Some(End(log.status, Rotate, log.eventSequence))
            && Accept(Automaton(true, true, false), frame.value) == Err(ProtocolError)
  {
    ForwardPage(log, after, STREAM_PAGE);
    PageIsSentInOrder(log, ReadPage(log, Some(after), None, STREAM_PAGE).value, after, STREAM_PAGE);
  }
}
