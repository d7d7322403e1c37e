/**
 One request through the governance middleware: admission, audit, body,
 dispatch, reply, release. Every await may succeed, fail or be cancelled.
 */
module Governance {
  import opened Prelude

  type Bytes = seq<bv8>

  const CHUNK: nat := 65_536

  // ------------------------------------------------------------ the request

  datatype Category = Sse | Read | Agent | Llm | Submit | Upload | Other

  datatype Request = Request(http: bool, verb: string, path: string, lengths: seq<Option<int>>)

  datatype Settings = Settings(
    jsonMax: nat, documentMax: nat, multipartOverhead: nat, responseMax: nat, artifactMax: nat)

  /** What the middleware derives from a request before it does anything. */
  datatype Context = Context(
    bypassed: bool, critical: bool, bodyCap: nat, responseCap: nat, lengths: seq<Option<int>>)

  predicate Safe(verb: string) {
    verb in {"GET", "HEAD", "OPTIONS"}
  }

  predicate EndsWith(s: string, suffix: string) {
    |suffix| <= |s| && s[|s| - |suffix|..] == suffix
  }

  function CategoryFor(r: Request): Category {
    var path := if "/workbench" <= r.path then r.path[|"/workbench"|..] else r.path;
    if Safe(r.verb) then (if EndsWith(path, "/stream") then Sse else Read)
    else if path == "/agent/run" then Agent
    else if path == "/chat" || EndsWith(path, "/rag/query") then Llm
    else if path == "/agent/tasks" then Submit
    else if EndsWith(path, "/documents") && r.verb == "POST" then Upload
    else Other
  }

  predicate Bypassed(r: Request) {
    !r.http || (r.path == "/health/live" && r.verb in {"GET", "HEAD"})
  }

  function Max(a: nat, b: nat): nat {
    if a < b then b else a
  }

  /** Replies to requests that may change something are critical: held back until they are audited. */
  function ContextOf(r: Request, settings: Settings): Context {
    var category := CategoryFor(r);
    Context(
      Bypassed(r),
      !Safe(r.verb),
      if category == Upload then settings.documentMax + settings.multipartOverhead else settings.jsonMax,
      if Safe(r.verb) && category != Sse
      then Max(settings.responseMax, Max(settings.documentMax, settings.artifactMax))
      else settings.responseMax,
      r.lengths)
  }

  // ------------------------------------------------------------- outcomes

  datatype GovernanceError = GovernanceError(status: nat, code: string)

  /** How a piece of the request ended. */
  datatype Signal = Completed | Refused(error: GovernanceError) | Cancelled | Raised

  /** How an awaited call ended; a failure includes its timeout. */
  datatype Await = Done | Fails | Cancel

  datatype Acquisition = Accepted | Rejected | AcquireFails | AcquireCancelled

  datatype Received = Chunk(bytes: Bytes, more: bool) | Disconnect | TimedOut | ReceiveCancelled | ReceiveRaises

  datatype Message = Start(status: nat) | Body(bytes: Bytes)

  /** What the application does: it sends and reads as it likes, whatever it is told. */
  datatype AppStep = Sends(message: Message) | Reads

  /** The choices of everything outside the middleware, in one run. */
  datatype Environment = Environment(
    acquire: Acquisition,
    admitted: Await,
    receives: seq<Received>,
    keeperLostEarly: Option<GovernanceError>,
    app: seq<AppStep>,
    appEnd: Signal,               // how the dispatched application or the wait for it ended
    keeperLost: Option<GovernanceError>,
    completed: Await,
    flushed: seq<Await>,
    closing: Await,
    errorSends: (Await, Await),
    keeperJoin: Await,
    release: Await)

  datatype Phase = Admitted | Denied | CompletedPhase | Interrupted

  /** What the middleware does to the world. */
  datatype Effect =
    | Bypass
    | Acquire(accepted: bool)
    | Audit(phase: Phase, written: bool)
    | Dispatch(body: Bytes)
    | Deliver(bytes: Bytes, more: bool)
    | Send(message: Message, fromApp: bool)
    | Release

  // ------------------------------------------------------------- the body

  /** All bytes of a stretch of received chunks. */
  function Gathered(events: seq<Received>): Bytes {
    if events == [] then []
    else
      var last := events[|events| - 1];
      Gathered(events[..|events| - 1]) + if last.Chunk? then last.bytes else []
  }

  predicate LengthsAccepted(c: Context) {
    var lengths := c.lengths;
    lengths == [] || (|lengths| == 1 && lengths[0].Some? && 0 <= lengths[0].value <= c.bodyCap)
  }

  /** The first `n` messages are the whole body: only the last one says so, and it fits. */
  predicate CompleteBody(c: Context, events: seq<Received>, n: nat)
    requires n <= |events|
  {
    && LengthsAccepted(c)
    && n > 0
    && (forall i :: 0 <= i < n ==> events[i].Chunk? && (events[i].more <==> i < n - 1))
    && |Gathered(events[..n])| <= c.bodyCap
    && (c.lengths != [] ==> c.lengths[0] == Some(|Gathered(events[..n])|))
  }

  ghost predicate IsBody(c: Context, events: seq<Received>, body: Bytes) {
    exists n :: 0 <= n <= |events| && CompleteBody(c, events, n) && body == Gathered(events[..n])
  }

  ghost predicate HasBody(c: Context, events: seq<Received>) {
    exists n :: 0 <= n <= |events| && CompleteBody(c, events, n)
  }

  /** Admitted, audited and completely received, with the lease still held. */
  ghost predicate Ready(c: Context, env: Environment) {
    env.acquire == Accepted && env.admitted == Done && HasBody(c, env.receives) && env.keeperLostEarly == None
  }

  /** The replayed body: nonempty pieces of at most 64 KiB, or one empty message. */
  function Chunks(body: Bytes, position: nat): seq<(Bytes, bool)>
    requires position <= |body|
    decreases |body| - position
  {
    if position == |body| then []
    else
      var finish := if position + CHUNK < |body| then position + CHUNK else |body|;
      [(body[position..finish], finish < |body|)] + Chunks(body, finish)
  }

  function Replayed(body: Bytes): seq<(Bytes, bool)> {
    if body == [] then [([], false)] else Chunks(body, 0)
  }

  function Joined(chunks: seq<(Bytes, bool)>): Bytes {
    if chunks == [] then [] else chunks[0].0 + Joined(chunks[1..])
  }

  lemma {:induction false} ChunksAre(body: Bytes, position: nat)
    requires position <= |body|
    ensures var chunks := Chunks(body, position);
            && Joined(chunks) == body[position..]
            && (forall i :: 0 <= i < |chunks| ==>
                  0 < |chunks[i].0| <= 65_536 && (chunks[i].1 <==> i < |chunks| - 1)
                  && (i < |chunks| - 1 ==> |chunks[i].0| == 65_536))
            && (position < |body| ==> chunks != [])
    decreases |body| - position
  {
    if position < |body| {
      var finish := if position + CHUNK < |body| then position + CHUNK else |body|;
      ChunksAre(body, finish);
      assert body[position..] == body[position..finish] + body[finish..];
    }
  }

  /** The application is given the received body again, and only its last piece is marked final. */
  lemma ReplayIsTheBody(body: Bytes)
    ensures var chunks := Replayed(body);
            && Joined(chunks) == body && chunks != []
            && (forall i :: 0 <= i < |chunks| ==> |chunks[i].0| <= 65_536 && (chunks[i].1 <==> i < |chunks| - 1))
            && forall i :: 0 <= i < |chunks| - 1 ==> |chunks[i].0| == 65_536
  {
    ChunksAre(body, 0);
    if body == [] {
      assert Joined([([], false)][1..]) == [];
    }
  }

  // ---------------------------------------------------------- the response

  function Size(m: Message): nat {
    if m.Body? then |m.bytes| else 0
  }

  /** The bytes the application tried to send in its first `n` steps. */
  function BytesTried(app: seq<AppStep>, n: nat): nat
    requires n <= |app|
  {
    if n == 0 then 0
    else BytesTried(app, n - 1) + if app[n - 1].Sends? then Size(app[n - 1].message) else 0
  }

  /** What of the application's messages stays within the cap; the count runs on over what does not. */
  function Kept(cap: nat, app: seq<AppStep>, n: nat): seq<Message>
    requires n <= |app|
  {
    if n == 0 then []
    else
      var step := app[n - 1];
      Kept(cap, app, n - 1)
      + if step.Reads? || (step.message.Body? && BytesTried(app, n) > cap) then [] else [step.message]
  }

  /** All that the client may ever see of the application's reply. */
  function WholeReply(c: Context, env: Environment): seq<Message> {
    Kept(c.responseCap, env.app, |env.app|)
  }

  lemma {:induction false} KeptGrows(cap: nat, app: seq<AppStep>, n: nat, m: nat)
    requires n <= m <= |app|
    ensures Kept(cap, app, n) <= Kept(cap, app, m)
    decreases m
  {
    if n < m {
      KeptGrows(cap, app, n, m - 1);
    }
  }

  // ----------------------------------------------------------------- rules

  /** What has happened so far, by kind. */
  datatype History = History(
    bypassed: bool,
    decision: Option<bool>,
    audits: seq<(Phase, bool)>,
    bodies: seq<Bytes>,             // of the applications started
    delivered: seq<(Bytes, bool)>,  // to the application
    replies: seq<Message>,          // of the application, to the client
    errors: seq<Message>,           // of the middleware, to the client
    releases: nat)

  const NOTHING := History(false, None, [], [], [], [], [], 0)

  function Note(h: History, e: Effect): History {
    match e
    case Bypass => h.(bypassed := true)
    case Acquire(accepted) => h.(decision := Some(accepted))
    case Audit(phase, written) => h.(audits := h.audits + [(phase, written)])
    case Dispatch(body) => h.(bodies := h.bodies + [body])
    case Deliver(bytes, more) => h.(delivered := h.delivered + [(bytes, more)])
    case Send(message, fromApp) =>
      if fromApp then h.(replies := h.replies + [message]) else h.(errors := h.errors + [message])
    case Release => h.(releases := h.releases + 1)
  }

  function HistoryOf(effects: seq<Effect>): History {
    if effects == [] then NOTHING else Note(HistoryOf(effects[..|effects| - 1]), effects[|effects| - 1])
  }

  /** Which effect may follow which past. */
  ghost predicate Allowed(c: Context, env: Environment, past: History, next: Effect) {
    match next
    case Bypass => past == NOTHING && c.bypassed
    case Acquire(_) => past == NOTHING
    case Audit(Admitted, _) => past == NOTHING.(decision := Some(true))
    case Dispatch(body) =>
      past == NOTHING.(decision := Some(true), audits := [(Admitted, true)]) && IsBody(c, env.receives, body)
    case Deliver(bytes, more) =>
      |past.bodies| == 1 && past.delivered + [(bytes, more)] <= Replayed(past.bodies[0])
    case Audit(CompletedPhase, _) => past.bodies != [] && past.audits == [(Admitted, true)]
    case Send(message, true) =>
      && past.bodies != [] && past.errors == []
      && (c.critical ==> (CompletedPhase, true) in past.audits)
      && past.replies + [message] <= WholeReply(c, env)
    case Send(message, false) => past.replies == [] && (message.Start? ==> past.errors == [])
    case Audit(Denied, _) => past.bodies == []
    case Audit(Interrupted, _) => true
    case Release => past.decision == Some(true) && past.releases == 0
  }

  ghost predicate Lawful(c: Context, env: Environment, effects: seq<Effect>) {
    forall i :: 0 <= i < |effects| ==> Allowed(c, env, HistoryOf(effects[..i]), effects[i])
  }

  lemma LawfulStep(c: Context, env: Environment, effects: seq<Effect>, next: Effect)
    requires Lawful(c, env, effects) && Allowed(c, env, HistoryOf(effects), next)
    ensures Lawful(c, env, effects + [next])
    ensures HistoryOf(effects + [next]) == Note(HistoryOf(effects), next)
  {
    var longer := effects + [next];
    assert longer[..|effects|] == effects;
    forall i | 0 <= i < |longer|
      ensures Allowed(c, env, HistoryOf(longer[..i]), longer[i])
    {
      if i < |effects| {
        assert longer[..i] == effects[..i];
      }
    }
  }
}
