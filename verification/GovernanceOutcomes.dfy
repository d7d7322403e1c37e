/** What becomes of a request, as a function of what the environment chooses. */
module GovernanceOutcomes {
  import opened Prelude
  import opened Governance

  const UNAVAILABLE := GovernanceError(503, "admission_unavailable")
  const LIMITED := GovernanceError(429, "request_limit_exceeded")
  const UNAUDITED := GovernanceError(503, "audit_unavailable")
  const OUTCOME_UNKNOWN := GovernanceError(503, "audit_outcome_unknown")
  const BAD_LENGTH := GovernanceError(400, "invalid_content_length")
  const LENGTH_MISMATCH := GovernanceError(400, "content_length_mismatch")
  const TOO_LARGE := GovernanceError(413, "request_body_too_large")
  const DISCONNECTED := GovernanceError(400, "request_disconnected")
  const BODY_TIMEOUT := GovernanceError(408, "request_body_timeout")

  // ------------------------------------------------------------- the body

  /** Reading on from message `i`, with what was gathered so far. */
  function BodyFrom(c: Context, events: seq<Received>, i: nat, gathered: Bytes): Result<Bytes, Signal>
    requires i <= |events|
    decreases |events| - i
  {
    if i == |events| then Err(Refused(BODY_TIMEOUT))
    else
      match events[i]
      case Disconnect => Err(Refused(DISCONNECTED))
      case TimedOut => Err(Refused(BODY_TIMEOUT))
      case ReceiveCancelled => Err(Cancelled)
      case ReceiveRaises => Err(Raised)
      case Chunk(chunk, more) =>
        if |gathered + chunk| > c.bodyCap then Err(Refused(TOO_LARGE))
        else if more then BodyFrom(c, events, i + 1, gathered + chunk)
        else if c.lengths != [] && c.lengths[0] != Some(|gathered + chunk|) then Err(Refused(LENGTH_MISMATCH))
        else Ok(gathered + chunk)
  }

  function BodyRead(c: Context, events: seq<Received>): Result<Bytes, Signal> {
    var lengths := c.lengths;
    if lengths != [] && (|lengths| != 1 || lengths[0] == None || lengths[0].value < 0) then Err(Refused(BAD_LENGTH))
    else if lengths != [] && lengths[0].value > c.bodyCap then Err(Refused(TOO_LARGE))
    else BodyFrom(c, events, 0, [])
  }

  lemma {:induction false} GatheredGrows(events: seq<Received>, n: nat)
    requires n <= |events|
    ensures |Gathered(events[..n])| <= |Gathered(events)|
    decreases |events|
  {
    if n == |events| {
      assert events[..n] == events;
    } else {
      GatheredGrows(events[..|events| - 1], n);
      assert events[..|events| - 1][..n] == events[..n];
    }
  }

  predicate Announced(events: seq<Received>, i: nat)
    requires i <= |events|
  {
    forall k :: 0 <= k < i ==> events[k].Chunk? && events[k].more
  }

  /** While every message so far announces another, no shorter stretch is the whole body. */
  lemma NotYetComplete(c: Context, events: seq<Received>, i: nat, n: nat)
    requires n <= |events| && i <= |events| && Announced(events, i)
    requires CompleteBody(c, events, n)
    ensures i < n && events[i].Chunk? && (!events[i].more ==> n == i + 1)
    ensures |Gathered(events[..i + 1])| <= c.bodyCap
  {
    hide Gathered;
    assert n > 0 && events[n - 1].Chunk? && !events[n - 1].more;
    GatheredGrows(events[..n], i + 1);
    assert events[..n][..i + 1] == events[..i + 1];
  }

  lemma {:induction false} BodyFromExactly(c: Context, events: seq<Received>, i: nat)
    requires i <= |events| && Announced(events, i) && LengthsAccepted(c)
    requires |Gathered(events[..i])| <= c.bodyCap
    ensures var r := BodyFrom(c, events, i, Gathered(events[..i]));
            && (r.Ok? <==> HasBody(c, events))
            && (r.Ok? ==> IsBody(c, events, r.value))
            && (r.Err? ==> r.error != Completed)
    decreases |events| - i
  {
    forall n | 0 <= n <= |events| && CompleteBody(c, events, n)
      ensures i < n && events[i].Chunk? && (!events[i].more ==> n == i + 1)
      ensures |Gathered(events[..i + 1])| <= c.bodyCap
    {
      NotYetComplete(c, events, i, n);
    }
    if i < |events| && events[i].Chunk? {
      assert events[..i + 1][..i] == events[..i];
      var all := Gathered(events[..i + 1]);
      assert all == Gathered(events[..i]) + events[i].bytes;
      if |all| <= c.bodyCap {
        if events[i].more {
          BodyFromExactly(c, events, i + 1);
        } else if c.lengths == [] || c.lengths[0] == Some(|all|) {
          assert CompleteBody(c, events, i + 1);
        }
      }
    }
  }

  /** A body is read exactly when it is complete, within the cap and of the declared length. */
  lemma BodyReadExactly(c: Context, events: seq<Received>)
    ensures BodyRead(c, events).Ok? <==> HasBody(c, events)
    ensures BodyRead(c, events).Ok? ==> IsBody(c, events, BodyRead(c, events).value)
    ensures BodyRead(c, events).Err? ==> BodyRead(c, events).error != Completed
  {
    assert events[..0] == [];
    if LengthsAccepted(c) {
      BodyFromExactly(c, events, 0);
    }
  }

  // ---------------------------------------------------------- the main path

  /** Admission, audit and body: the body to dispatch, or why there is none. */
  function Preparation(c: Context, env: Environment): Result<Bytes, Signal> {
    match env.acquire
    case AcquireFails => Err(Refused(UNAVAILABLE))
    case AcquireCancelled => Err(Cancelled)
    case Rejected => Err(Refused(LIMITED))
    case Accepted =>
      match env.admitted
      case Fails => Err(Refused(UNAUDITED))
      case Cancel => Err(Cancelled)
      case Done =>
        var read := BodyRead(c, env.receives);
        if read.Ok? && env.keeperLostEarly.Some? then Err(Refused(env.keeperLostEarly.value)) else read
  }

  lemma PreparedExactlyWhenReady(c: Context, env: Environment)
    ensures Preparation(c, env).Ok? <==> Ready(c, env)
    ensures Preparation(c, env).Ok? ==> IsBody(c, env.receives, Preparation(c, env).value)
    ensures Preparation(c, env).Err? ==> Preparation(c, env).error != Completed
  {
    BodyReadExactly(c, env.receives);
  }

  /** The application ended normally while the lease was held. */
  predicate AppFinished(env: Environment) {
    env.keeperLost == None && env.appEnd == Completed
  }

  predicate Halts(waits: seq<Await>, i: nat) {
    i < |waits| && waits[i] != Done
  }

  /** The first of `n` sends, from `i` on, that does not succeed; `n` if all do. */
  function FirstHalt(waits: seq<Await>, i: nat, n: nat): (k: nat)
    requires i <= n
    ensures i <= k <= n && (k < n ==> Halts(waits, k)) && (forall j :: i <= j < k ==> !Halts(waits, j))
    decreases n - i
  {
    if i == n || Halts(waits, i) then i else FirstHalt(waits, i + 1, n)
  }

  /** A held-back reply goes out message by message, until a send does not succeed. */
  function FlushEnd(waits: seq<Await>, n: nat): Signal {
    var k := FirstHalt(waits, 0, n);
    if k == n then Completed else if waits[k] == Cancel then Cancelled else Raised
  }

  function FlushCount(waits: seq<Await>, n: nat): (k: nat)
    ensures k <= n
  {
    var k := FirstHalt(waits, 0, n);
    if k == n then n else k + 1
  }

  function HeldBack(c: Context, env: Environment): nat {
    if c.critical then |WholeReply(c, env)| else 0
  }

  /** How the main path ends, once the application has been started. */
  function AppCourse(c: Context, env: Environment): Signal {
    if env.keeperLost.Some? then Refused(env.keeperLost.value)
    else if env.appEnd != Completed then env.appEnd
    else
      match env.completed
      case Fails => Refused(OUTCOME_UNKNOWN)
      case Cancel => Cancelled
      case Done => FlushEnd(env.flushed, HeldBack(c, env))
  }

  function Course(c: Context, env: Environment): Signal {
    var prepared := Preparation(c, env);
    if prepared.Err? then prepared.error else AppCourse(c, env)
  }

  /** What the client gets of the reply of an application that was started. */
  function AppReplies(c: Context, env: Environment): seq<Message> {
    var whole := WholeReply(c, env);
    if !c.critical then whole
    else if AppFinished(env) && env.completed == Done then whole[..FlushCount(env.flushed, |whole|)]
    else []
  }

  function RepliesSent(c: Context, env: Environment): seq<Message> {
    if Preparation(c, env).Err? then [] else AppReplies(c, env)
  }

  function CompletedAudits(env: Environment): seq<(Phase, bool)> {
    if AppFinished(env) then [(CompletedPhase, env.completed == Done)] else []
  }

  /** How often the application asks for its input in its first `n` steps. */
  function ReadsIn(app: seq<AppStep>, n: nat): nat
    requires n <= |app|
  {
    if n == 0 then 0 else ReadsIn(app, n - 1) + if app[n - 1].Reads? then 1 else 0
  }

  function Min(a: nat, b: nat): nat {
    if a < b then a else b
  }

  /** What has been handed over after so many reads: one piece for each, until the body is over. */
  function HandedOver(body: Bytes, n: nat): seq<(Bytes, bool)> {
    Replayed(body)[..Min(n, |Replayed(body)|)]
  }

  // ------------------------------------------------------------ the closing

  /** A request that did not finish gets one error reply, unless something was sent or it is cancelled. */
  predicate AnswersError(c: Context, env: Environment) {
    var s := Course(c, env);
    s != Completed && s != Cancelled && env.closing != Cancel && RepliesSent(c, env) == []
  }

  function StatusOf(s: Signal): nat {
    if s.Refused? then s.error.status else 500
  }

  function ErrorReply(c: Context, env: Environment): seq<Message> {
    if !AnswersError(c, env) then []
    else [Start(StatusOf(Course(c, env)))] + if env.errorSends.0 == Done then [Body([])] else []
  }

  function SignalOf(a: Await): Signal {
    match a
    case Done => Completed
    case Cancel => Cancelled
    case Fails => Raised
  }

  /** How the request ends before its lease is given back. */
  function Closing(c: Context, env: Environment): Signal {
    var s := Course(c, env);
    if s == Completed then Completed
    else if s == Cancelled || env.closing == Cancel then Cancelled
    else if RepliesSent(c, env) != [] then s
    else if env.errorSends.0 != Done then SignalOf(env.errorSends.0)
    else SignalOf(env.errorSends.1)
  }

  function Ending(c: Context, env: Environment): Signal {
    if env.acquire == Accepted && (env.keeperJoin == Cancel || env.release == Cancel) then Cancelled
    else Closing(c, env)
  }

  function ClosingAudits(c: Context, env: Environment): seq<(Phase, bool)> {
    var s := Course(c, env);
    if s == Completed then []
    else [(if s.Refused? && Preparation(c, env).Err? then Denied else Interrupted, env.closing == Done)]
  }

  /** Everything before the application may start. */
  function PreparedHistory(env: Environment): History {
    NOTHING.(
      decision := match env.acquire case Accepted => Some(true) case Rejected => Some(false) case _ => None,
      audits := if env.acquire == Accepted then [(Admitted, env.admitted == Done)] else [])
  }

  /** Everything up to the end of the main path. */
  function MainHistory(c: Context, env: Environment): History {
    var prepared := Preparation(c, env);
    var h := PreparedHistory(env);
    if prepared.Err? then h
    else h.(bodies := [prepared.value],
            delivered := HandedOver(prepared.value, ReadsIn(env.app, |env.app|)),
            audits := h.audits + CompletedAudits(env),
            replies := AppReplies(c, env))
  }

  /** Everything that happens in one request. */
  function WholeHistory(c: Context, env: Environment): History {
    var h := MainHistory(c, env);
    h.(audits := h.audits + ClosingAudits(c, env),
       errors := ErrorReply(c, env),
       releases := if env.acquire == Accepted && env.keeperJoin != Cancel then 1 else 0)
  }

  // --------------------------------------------------------------- theorems

  /** Nothing goes wrong from the admission to the last message of the reply. */
  ghost predicate GoesWell(c: Context, env: Environment) {
    && Ready(c, env) && AppFinished(env) && env.completed == Done
    && (c.critical ==> forall i :: 0 <= i < |WholeReply(c, env)| ==> !Halts(env.flushed, i))
  }

  lemma CourseIsNormalExactlyWhen(c: Context, env: Environment)
    ensures Course(c, env) == Completed <==> GoesWell(c, env)
    ensures GoesWell(c, env) ==> RepliesSent(c, env) == WholeReply(c, env)
  {
    PreparedExactlyWhenReady(c, env);
    var whole := WholeReply(c, env);
    hide WholeReply, Preparation, Ready;
    assert whole[..|whole|] == whole;
  }

  /** What holds when a request is over, whatever went wrong. */
  ghost predicate Settled(c: Context, env: Environment, h: History, outcome: Signal) {
    && (h.decision == Some(true) <==> env.acquire == Accepted)
    // The application ran exactly when the request was admitted, audited and fully received.
    && (h.bodies != [] <==> Ready(c, env))
    // It was handed one piece of the body for each read, until the body was over.
    && (Ready(c, env) ==> h.delivered == HandedOver(h.bodies[0], ReadsIn(env.app, |env.app|)))
    // A started application always leaves a closing audit, at least attempted.
    && (Ready(c, env) ==> (CompletedPhase, true) in h.audits || exists w :: (Interrupted, w) in h.audits)
    // The lease is given back exactly when it was granted, unless the join of its keeper is cancelled.
    && h.releases == (if h.decision == Some(true) && env.keeperJoin != Cancel then 1 else 0)
    // The whole reply is sent when all goes well.
    && (GoesWell(c, env) ==> h.replies == WholeReply(c, env) && h.errors == [])
    // Otherwise one error is sent, exactly when nothing was sent before and nothing is cancelled.
    && (h.errors != [] <==> AnswersError(c, env))
    && (h.errors != [] ==> h.replies == [] && h.errors[0] == Start(StatusOf(Course(c, env))))
    // The end is normal exactly when one of the two went out in full and the lease was given back in peace.
    && (outcome == Completed <==>
          && (GoesWell(c, env) || (AnswersError(c, env) && env.errorSends == (Done, Done)))
          && (env.acquire == Accepted ==> env.keeperJoin != Cancel && env.release != Cancel))
  }

  lemma RequestSettles(c: Context, env: Environment)
    ensures Settled(c, env, WholeHistory(c, env), Ending(c, env))
  {
    PreparedExactlyWhenReady(c, env);
    CourseIsNormalExactlyWhen(c, env);
    ClosingIsNormalExactlyWhen(c, env);
    if Ready(c, env) {
      StartedLeavesAudit(c, env);
    }
    hide Course, AppCourse, Ready, WholeReply, Preparation, BodyRead;
  }

  lemma ClosingIsNormalExactlyWhen(c: Context, env: Environment)
    ensures Closing(c, env) == Completed <==>
            Course(c, env) == Completed || (AnswersError(c, env) && env.errorSends == (Done, Done))
  {
    hide Course, RepliesSent;
  }

  lemma StartedLeavesAudit(c: Context, env: Environment)
    requires Ready(c, env)
    ensures var audits := WholeHistory(c, env).audits;
            (CompletedPhase, true) in audits || exists w :: (Interrupted, w) in audits
  {
    PreparedExactlyWhenReady(c, env);
    CourseIsNormalExactlyWhen(c, env);
    assert env.acquire == Accepted;
    hide Course, AppCourse, Ready, WholeReply, Preparation, BodyRead;
    var audits := WholeHistory(c, env).audits;
    if Course(c, env) == Completed {
      assert audits[1] == (CompletedPhase, true);
    } else {
      assert audits[|audits| - 1] == (Interrupted, env.closing == Done);
    }
  }
}
