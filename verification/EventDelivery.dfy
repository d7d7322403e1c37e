/**
 Delivery of a task's events to one browser: the server's stream, the frames in
 flight, the frame automaton of the client, and the viewer that renders events.
 */
module EventDelivery {
  import opened Prelude
  import opened EventPages

  // --------------------------------------------------------------- frames

  datatype Reason = Terminal | Unsupported | Rotate

  /** `asOf` records the event counter of the snapshot an end was computed from. */
  datatype Frame =
    | Ready(status: Status, durable: bool)
    | Workflow(event: Event)
    | End(status: Status, reason: Reason, asOf: nat)
    | ErrorFrame

  // --------------------------------------------------------------- server

  const STREAM_PAGE := 100

  datatype Phase = Greeting | Sending | Closed

  /** The generator's variables; `asOf` is the counter read with `page`. */
  datatype Server = Server(phase: Phase, page: Page, next: nat, cursor: nat, asOf: nat)

  /** What the environment decides between two frames. */
  datatype Choice = Choice(expired: bool, readFails: bool)

  function OpenStream(log: Log, page: Page): Server {
    Server(Greeting, page, 0,
           if page.items == [] || page.items[0].sequence == 0 then page.nextCursor
           else page.items[0].sequence - 1,
           log.eventSequence)
  }

  /** One turn of the generator: at most one frame, or a poll of the log. */
  function ServerTurn(log: Log, s: Server, c: Choice): (Server, Option<Frame>) {
    var page := s.page;
    match s.phase
    case Closed => (s, None)
    case Greeting => (s.(phase := Sending), Some(Ready(page.status, page.durable)))
    case Sending =>
      if s.next < |page.items| then
        var item := page.items[s.next];
        (s.(next := s.next + 1, cursor := item.sequence), Some(Workflow(item)))
      else if !page.hasMore && (TerminalStatus(page.status) || !page.durable) then
        var reason := if page.durable then Terminal else Unsupported;
        (s.(phase := Closed), Some(End(page.status, reason, s.asOf)))
      else if c.expired then
        (s.(phase := Closed), Some(End(page.status, Rotate, s.asOf)))
      else if c.readFails then
        (s.(phase := Closed), Some(ErrorFrame))
      else
        match ReadPage(log, Some(s.cursor), None, STREAM_PAGE)
        case Err(_) => (s.(phase := Closed), Some(ErrorFrame))
        case Ok(newer) => (s.(page := newer, next := 0, asOf := log.eventSequence), None)
  }

  // ---------------------------------------------------- the client's automaton

  datatype StreamError = ProtocolError | Unavailable

  datatype Automaton = Automaton(ready: bool, durable: bool, ended: bool)

  predicate EndAccepted(durable: bool, status: Status, reason: Reason) {
    match reason
    case Terminal => durable && TerminalStatus(status)
    case Unsupported => !durable
    case Rotate => durable && !TerminalStatus(status)
  }

  function Accept(a: Automaton, f: Frame): Result<Automaton, StreamError> {
    if a.ended then Err(ProtocolError)
    else
      match f
      case ErrorFrame => Err(Unavailable)
      case Workflow(_) => if a.ready then Ok(a) else Err(ProtocolError)
      case Ready(_, durable) => if a.ready then Err(ProtocolError) else Ok(Automaton(true, durable, false))
      case End(status, reason, _) =>
        if a.ready && EndAccepted(a.durable, status, reason) then Ok(a.(ended := true))
        else Err(ProtocolError)
  }

  // ---------------------------------------------------------------- viewer

  datatype Fault = Gap | InvalidFrame | TooManyFailures | Rejected

  datatype Activity =
    | Connecting
    | Streaming
    | Complete(asOf: nat)
    | NotLive
    | Stopped(fault: Fault)

  const RETAINED := 200
  const RETRIES := 5

  datatype Viewer = Viewer(
    activity: Activity, cursor: nat, failures: nat, events: seq<Event>, ending: Option<Frame>)

  function LastOf(s: seq<Event>, n: nat): seq<Event> {
    if |s| <= n then s else s[|s| - n..]
  }

  /** An event is dropped if already shown, and must otherwise be the next one. */
  function Render(v: Viewer, e: Event): Viewer {
    if e.sequence <= v.cursor then v
    else if e.sequence != v.cursor + 1 then v.(activity := Stopped(Gap))
    else v.(cursor := e.sequence, failures := 0, events := LastOf(v.events + [e], RETAINED))
  }

  predicate GapAt(v: Viewer, f: Frame) {
    f.Workflow? && f.event.sequence > v.cursor + 1
  }

  /** A lost connection is retried a bounded number of times. */
  function Retry(v: Viewer): Viewer {
    if v.failures + 1 > RETRIES then v.(activity := Stopped(TooManyFailures), ending := None)
    else v.(activity := Connecting, failures := v.failures + 1, ending := None)
  }

  function OnFrame(v: Viewer, f: Frame): Viewer {
    match f
    case Workflow(e) => Render(v, e)
    case End(_, _, _) => v.(ending := Some(f))
    case Ready(_, _) => v
    case ErrorFrame => v
  }

  /** The stream is over: stop, start over after a rotation, or retry. */
  function OnDone(v: Viewer): Viewer {
    match v.ending
    case Some(End(_, Terminal, asOf)) => v.(activity := Complete(asOf))
    case Some(End(_, Unsupported, _)) => v.(activity := NotLive)
    case Some(End(_, Rotate, _)) => v.(activity := Connecting, failures := 0, ending := None)
    case _ => Retry(v)
  }

  function OnError(v: Viewer, e: StreamError): Viewer {
    match e
    case Unavailable => Retry(v)
    case ProtocolError => v.(activity := Stopped(InvalidFrame), ending := None)
  }

  // ------------------------------------------------- the viewer as it runs

  /** The variables of one stream and of the effect that reads it. */
  class EventViewer {
    var automaton: Automaton
    var viewer: Viewer

    constructor (first: Page)
      ensures automaton == Automaton(false, false, false)
      ensures viewer == Load(first)
    {
      automaton := Automaton(false, false, false);
      viewer := Load(first);
    }

    /** The callback for one frame; false when it throws. */
    method Receive(f: Frame) returns (ok: bool)
      modifies this
      ensures match Accept(old(automaton), f)
              case Ok(a) => automaton == a && viewer == OnFrame(old(viewer), f)
                            && (ok <==> !GapAt(old(viewer), f))
              case Err(e) => !ok && automaton == old(automaton) && viewer == OnError(old(viewer), e)
    {
      ok := false;
      if automaton.ended {
        viewer := OnError(viewer, ProtocolError);
        return;
      }
      match f {
        case ErrorFrame =>
          viewer := OnError(viewer, Unavailable);
          return;
        case Workflow(e) =>
          if !automaton.ready {
            viewer := OnError(viewer, ProtocolError);
            return;
          }
          if e.sequence <= viewer.cursor {
            return true;
          }
          if e.sequence != viewer.cursor + 1 {
            viewer := viewer.(activity := Stopped(Gap));
            return;
          }
          viewer := viewer.(cursor := e.sequence);
          viewer := viewer.(failures := 0);
          viewer := viewer.(events := LastOf(viewer.events + [e], RETAINED));
        case Ready(_, durable) =>
          if automaton.ready {
            viewer := OnError(viewer, ProtocolError);
            return;
          }
          automaton := Automaton(true, durable, false);
        case End(status, reason, _) =>
          if !automaton.ready || !EndAccepted(automaton.durable, status, reason) {
            viewer := OnError(viewer, ProtocolError);
            return;
          }
          automaton := automaton.(ended := true);
          viewer := viewer.(ending := Some(f));
      }
      ok := true;
    }
  }

  function Load(first: Page): Viewer {
    Viewer(if first.durable then Connecting else NotLive, first.nextCursor, 0, first.items, None)
  }

  // ---------------------------------------------------------------- system

  datatype Link = Link(server: Server, channel: seq<Frame>, automaton: Automaton)

  datatype System = System(log: Log, viewer: Viewer, link: Option<Link>)

  /**
   One step of anyone. A connection may resume at or before the viewer's cursor,
   so events can arrive again; a connection can be lost at any moment.
   */
  datatype Action =
    | AppendEvent(body: string, status: Status)
    | ChangeStatus(status: Status)
    | Connect(after: nat)
    | ConnectFails
    | ServerActs(choice: Choice)
    | Deliver
    | Disconnect

  const FIRST_PAGE := 50

  function Start(log: Log): Result<System, PageError> {
    match ReadPage(log, None, None, FIRST_PAGE)
    case Err(e) => Err(e)
    case Ok(page) => Ok(System(log, Load(page), None))
  }

  function Enabled(s: System, a: Action): bool {
    match a
    case AppendEvent(_, _) => true
    case ChangeStatus(_) => true
    case Connect(after) => s.viewer.activity == Connecting && s.link.None? && after <= s.viewer.cursor
    case ConnectFails => s.viewer.activity == Connecting && s.link.None?
    case ServerActs(_) => s.link.Some?
    case Deliver => s.link.Some? && (s.link.value.channel != [] || s.link.value.server.phase == Closed)
    case Disconnect => s.link.Some?
  }

  function DeliverTo(s: System, l: Link): System {
    if l.channel == [] then s.(viewer := OnDone(s.viewer), link := None)
    else
      var f := l.channel[0];
      match Accept(l.automaton, f)
      case Err(e) => s.(viewer := OnError(s.viewer, e), link := None)
      case Ok(automaton) =>
        var viewer := OnFrame(s.viewer, f);
        if viewer.activity.Stopped? then s.(viewer := viewer, link := None)
        else s.(viewer := viewer, link := Some(Link(l.server, l.channel[1..], automaton)))
  }

  function Next(s: System, a: Action): System {
    if !Enabled(s, a) then s
    else
      match a
      case AppendEvent(body, status) => s.(log := Append(s.log, body, status))
      case ChangeStatus(status) => s.(log := s.log.(status := status))
      case Connect(after) =>
        (match ReadPage(s.log, Some(after), None, STREAM_PAGE)
         case Err(_) => s.(viewer := s.viewer.(activity := Stopped(Rejected)))
         case Ok(page) =>
           s.(viewer := s.viewer.(activity := Streaming),
              link := Some(Link(OpenStream(s.log, page), [], Automaton(false, false, false)))))
      case ConnectFails => s.(viewer := Retry(s.viewer))
      case ServerActs(choice) =>
        var l := s.link.value;
        var (server, frame) := ServerTurn(s.log, l.server, choice);
        s.(link := Some(Link(server, if frame.Some? then l.channel + [frame.value] else l.channel, l.automaton)))
      case Deliver => DeliverTo(s, s.link.value)
      case Disconnect => s.(viewer := Retry(s.viewer), link := None)
  }

  function Run(s: System, actions: seq<Action>): System {
    if actions == [] then s
    else Next(Run(s, actions[..|actions| - 1]), actions[|actions| - 1])
  }

  // ------------------------------------------------------------- invariant

  /** The events shown are the log's events up to the cursor, newest 200 at most. */
  ghost predicate ShownIsLog(log: Log, v: Viewer) {
    && v.cursor <= log.eventSequence
    && |v.events| <= v.cursor && |v.events| <= RETAINED
    && forall i :: 0 <= i < |v.events| ==>
         var n := v.cursor - |v.events| + 1 + i;
         n in log.rows && v.events[i] == log.rows[n]
  }

  /** The page being sent is a run of the log that ends at `asOf` unless more is left. */
  ghost predicate PageIsLog(log: Log, s: Server) {
    && s.next <= |s.page.items| && s.next <= s.cursor
    && s.page.durable == log.durable
    && (forall i :: 0 <= i < |s.page.items| ==>
          var n := s.cursor - s.next + 1 + i;
          n in log.rows && s.page.items[i] == log.rows[n])
    && s.cursor - s.next + |s.page.items| <= s.asOf <= log.eventSequence
    && (!s.page.hasMore ==> s.cursor - s.next + |s.page.items| == s.asOf)
  }

  /** The ending the server may send when everything up to `upto` has been sent. */
  predicate EndFits(f: Frame, durable: bool, upto: nat)
    requires f.End?
  {
    && upto <= f.asOf
    && (f.reason == Terminal ==> f.asOf == upto && durable && TerminalStatus(f.status))
    && (f.reason == Unsupported ==> !durable)
  }

  /** Frames in flight: consecutive events after `from`, a greeting first, an ending last. */
  ghost predicate ChannelFits(log: Log, channel: seq<Frame>, greeted: bool, from: nat, upto: nat) {
    if channel == [] then from == upto
    else
      match channel[0]
      case Ready(_, durable) =>
        !greeted && durable == log.durable && ChannelFits(log, channel[1..], true, from, upto)
      case Workflow(e) =>
        && greeted && from + 1 in log.rows && e == log.rows[from + 1] && from + 1 <= upto
        && ChannelFits(log, channel[1..], true, from + 1, upto)
      case End(_, _, _) =>
        greeted && |channel| == 1 && from == upto && EndFits(channel[0], log.durable, upto)
      case ErrorFrame => greeted && |channel| == 1 && from == upto
  }

  predicate Unended(channel: seq<Frame>) {
    forall f :: f in channel ==> !f.End? && !f.ErrorFrame?
  }

  predicate HasGreeting(channel: seq<Frame>) {
    exists f :: f in channel && f.Ready?
  }

  predicate EndsAsOf(channel: seq<Frame>, asOf: nat) {
    forall f :: f in channel && f.End? ==> f.asOf == asOf
  }

  ghost predicate LinkFits(log: Log, v: Viewer, l: Link, from: nat) {
    && PageIsLog(log, l.server)
    && from <= v.cursor <= l.server.asOf
    && (l.automaton.ready ==> l.automaton.durable == log.durable)
    && (v.ending.Some? <==> l.automaton.ended)
    && (if l.automaton.ended then
          && l.channel == [] && l.server.phase == Closed && v.ending.value.End?
          && l.automaton.ready
          && EndFits(v.ending.value, log.durable, l.server.cursor)
          && v.ending.value.asOf == l.server.asOf
          && (v.ending.value.reason == Terminal ==> v.cursor == v.ending.value.asOf)
        else
          && EndsAsOf(l.channel, l.server.asOf)
          && ChannelFits(log, l.channel, l.automaton.ready, from, l.server.cursor)
          && (l.server.phase == Greeting ==> l.channel == [] && !l.automaton.ready && l.server.next == 0)
          && (l.server.phase == Sending ==>
                Unended(l.channel) && (l.automaton.ready || HasGreeting(l.channel))))
  }

  ghost predicate Safe(s: System) {
    && Dense(s.log)
    && ShownIsLog(s.log, s.viewer)
    && s.viewer.failures <= RETRIES
    && (s.link.Some? <==> s.viewer.activity == Streaming)
    && (s.link.Some? ==> exists from: nat :: LinkFits(s.log, s.viewer, s.link.value, from))
    && (s.link.None? && !s.viewer.activity.Complete? && s.viewer.activity != NotLive ==>
          s.viewer.ending.None?)
    && (s.viewer.activity.Complete? ==> s.viewer.cursor == s.viewer.activity.asOf)
    && s.viewer.activity != Stopped(Gap) && s.viewer.activity != Stopped(Rejected)
    && (s.viewer.activity.Streaming? || s.viewer.activity.Connecting? ==> s.log.durable)
  }
}
