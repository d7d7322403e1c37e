/** The middleware itself: its flags, its buffers, and every path out of a request. */
module GovernedRequests {
  import opened Prelude
  import opened Governance
  import opened GovernanceOutcomes

  /** Accepts a body exactly when it is complete, within the cap and of the declared length. */
  method ReadBody(c: Context, events: seq<Received>) returns (r: Result<Bytes, Signal>)
    ensures r == BodyRead(c, events)
    ensures r.Ok? <==> HasBody(c, events)
    ensures r.Ok? ==> IsBody(c, events, r.value)
  {
    BodyReadExactly(c, events);
    hide HasBody, IsBody;
    var cap := c.bodyCap;
    var lengths := c.lengths;
    if lengths != [] {
      if |lengths| != 1 || lengths[0] == None || lengths[0].value < 0 {
        return Err(Refused(BAD_LENGTH));
      }
      if lengths[0].value > cap {
        return Err(Refused(TOO_LARGE));
      }
    }
    var target: Bytes := [];
    var count := 0;
    for i := 0 to |events|
      invariant count == |target| && BodyRead(c, events) == BodyFrom(c, events, i, target)
    {
      match events[i]
      case Disconnect => return Err(Refused(DISCONNECTED));
      case TimedOut => return Err(Refused(BODY_TIMEOUT));
      case ReceiveCancelled => return Err(Cancelled);
      case ReceiveRaises => return Err(Raised);
      case Chunk(chunk, more) =>
        count := count + |chunk|;
        if count > cap {
          return Err(Refused(TOO_LARGE));
        }
        target := target + chunk;
        if !more {
          if lengths != [] && count != lengths[0].value {
            return Err(Refused(LENGTH_MISMATCH));
          }
          return Ok(target);
        }
    }
    r := Err(Refused(BODY_TIMEOUT));
  }

  /** What has been delivered, and what remains to be, is the replayed body. */
  predicate ReplayedSoFar(body: Bytes, position: nat, replayedEmpty: bool, delivered: seq<(Bytes, bool)>) {
    && position <= |body|
    && (if body == [] then delivered == if replayedEmpty then [([], false)] else []
        else delivered + Chunks(body, position) == Replayed(body))
  }

  function PieceEnd(body: Bytes, position: nat): nat {
    if position + CHUNK < |body| then position + CHUNK else |body|
  }

  lemma NextPiece(body: Bytes, position: nat, delivered: seq<(Bytes, bool)>)
    requires position < |body| && ReplayedSoFar(body, position, false, delivered)
    ensures var finish := PieceEnd(body, position);
            var next := delivered + [(body[position..finish], finish < |body|)];
            ReplayedSoFar(body, finish, false, next) && next <= Replayed(body)
            && |delivered| < |Replayed(body)|
  {
    var finish := PieceEnd(body, position);
    var piece := (body[position..finish], finish < |body|);
    assert delivered + Chunks(body, position) == delivered + [piece] + Chunks(body, finish);
  }

  /** Without a body there is one empty piece; after the last piece there is none. */
  lemma NoPieceLeft(body: Bytes, position: nat, replayedEmpty: bool, delivered: seq<(Bytes, bool)>)
    requires position == |body| && ReplayedSoFar(body, position, replayedEmpty, delivered)
    ensures if body == [] && !replayedEmpty then
              var next := delivered + [([], false)];
              ReplayedSoFar(body, position, true, next) && next <= Replayed(body) && |delivered| < |Replayed(body)|
            else |delivered| == |Replayed(body)|
  {
    assert Chunks(body, |body|) == [];
  }

  /** All that was delivered, when it is as many pieces as were asked for. */
  lemma DeliveredInOrder(body: Bytes, position: nat, replayedEmpty: bool, delivered: seq<(Bytes, bool)>, n: nat)
    requires ReplayedSoFar(body, position, replayedEmpty, delivered)
    requires |delivered| == Min(n, |Replayed(body)|)
    ensures delivered == HandedOver(body, n)
  {
  }

  lemma OneMoreStep(cap: nat, app: seq<AppStep>, i: nat)
    requires i < |app|
    ensures match app[i]
            case Reads => BytesTried(app, i + 1) == BytesTried(app, i) && Kept(cap, app, i + 1) == Kept(cap, app, i)
            case Sends(m) =>
              && BytesTried(app, i + 1) == BytesTried(app, i) + Size(m)
              && Kept(cap, app, i + 1) == Kept(cap, app, i)
                 + if m.Body? && BytesTried(app, i + 1) > cap then [] else [m]
  {
  }

  // ------------------------------------------------------------ the request

  class GovernedRequest {
    const c: Context
    var started: bool
    var acquired: bool
    var dispatched: bool
    var status: nat
    var responseBytes: nat
    var buffered: seq<Message>
    var body: Bytes
    var position: nat
    var replayedEmpty: bool
    var effects: seq<Effect>
    ghost var past: History

    constructor (r: Request, settings: Settings)
      ensures c == ContextOf(r, settings)
      ensures !started && !acquired && !dispatched && responseBytes == 0 && buffered == []
      ensures body == [] && position == 0 && !replayedEmpty && effects == [] && past == NOTHING
    {
      c := ContextOf(r, settings);
      started, acquired, dispatched := false, false, false;
      status, responseBytes, buffered := 500, 0, [];
      body, position, replayedEmpty := [], 0, false;
      effects, past := [], NOTHING;
    }

    /** The effects are lawful, and `past` is their history. */
    ghost predicate Recorded(env: Environment)
      reads this
    {
      past == HistoryOf(effects) && Lawful(c, env, effects)
    }

    /** The application is running, `i` steps in. */
    ghost predicate Running(env: Environment, i: nat)
      requires i <= |env.app|
      reads this
    {
      && past.bodies == [body] && past.audits == [(Admitted, true)]
      && past.decision == Some(true) && past.releases == 0 && !past.bypassed
      && past.errors == [] && (past.replies != [] <==> started)
      && acquired && dispatched
      && SentSoFar(env.app, i)
      && (body != [] ==> !replayedEmpty)
      && |past.delivered| == Min(ReadsIn(env.app, i), |Replayed(body)|)
      && ReplayedSoFar(body, position, replayedEmpty, past.delivered)
    }

    ghost predicate SentSoFar(app: seq<AppStep>, i: nat)
      requires i <= |app|
      reads this
    {
      var kept := Kept(c.responseCap, app, i);
      && responseBytes == BytesTried(app, i)
      && buffered == (if c.critical then kept else [])
      && past.replies == (if c.critical then [] else kept)
    }

    /** Does to the world what the rules allow now. */
    method Perform(e: Effect, ghost env: Environment)
      requires Recorded(env) && Allowed(c, env, past, e)
      modifies this`effects, this`past
      ensures Recorded(env) && past == Note(old(past), e) && effects == old(effects) + [e]
    {
      LawfulStep(c, env, effects, e);
      effects, past := effects + [e], Note(past, e);
    }

    /** A message of the application: counted, then held back or passed on. */
    method GovernedSend(message: Message, ghost env: Environment, ghost i: nat)
      requires i < |env.app| && env.app[i].Sends? && env.app[i].message == message && Running(env, i)
      requires Recorded(env)
      modifies this`started, this`status, this`responseBytes, this`buffered, this`effects, this`past
      ensures Running(env, i + 1) && Recorded(env)
    {
      hide Lawful, HistoryOf, Kept, BytesTried, ReplayedSoFar;
      OneMoreStep(c.responseCap, env.app, i);
      KeptGrows(c.responseCap, env.app, i + 1, |env.app|);
      match message {
        case Start(s) => status := s;
        case Body(chunk) =>
          responseBytes := responseBytes + |chunk|;
          if responseBytes > c.responseCap {
            return;
          }
      }
      if c.critical {
        buffered := buffered + [message];
      } else {
        started := true;
        Perform(Send(message, true), env);
      }
    }

    /** The next piece of the body, or none when it is over. */
    method NextMessage(ghost delivered: seq<(Bytes, bool)>) returns (piece: Option<(Bytes, bool)>)
      requires ReplayedSoFar(body, position, replayedEmpty, delivered) && (body != [] ==> !replayedEmpty)
      modifies this`position, this`replayedEmpty
      ensures body != [] ==> !replayedEmpty
      ensures match piece
              case Some(p) =>
                && ReplayedSoFar(body, position, replayedEmpty, delivered + [p])
                && delivered + [p] <= Replayed(body) && |delivered| < |Replayed(body)|
              case None =>
                ReplayedSoFar(body, position, replayedEmpty, delivered) && |delivered| == |Replayed(body)|
    {
      assert position <= |body|;
      hide Chunks, Replayed, ReplayedSoFar;
      var finish := PieceEnd(body, position);
      var chunk := body[position..finish];
      if chunk != [] {
        NextPiece(body, position, delivered);
        position := finish;
        return Some((chunk, finish < |body|));
      }
      NoPieceLeft(body, position, replayedEmpty, delivered);
      if |body| == 0 && !replayedEmpty {
        replayedEmpty := true;
        return Some(([], false));
      }
      piece := None;
    }

    /** The body again, piece by piece; afterwards the client itself is listened to. */
    method Replay(ghost env: Environment, ghost i: nat)
      requires i < |env.app| && env.app[i].Reads? && Running(env, i) && Recorded(env)
      modifies this`position, this`replayedEmpty, this`effects, this`past
      ensures Running(env, i + 1) && Recorded(env)
    {
      hide Lawful, HistoryOf, Kept, BytesTried, Replayed, ReplayedSoFar;
      OneMoreStep(c.responseCap, env.app, i);
      var piece := NextMessage(past.delivered);
      if piece.Some? {
        Perform(Deliver(piece.value.0, piece.value.1), env);
      }
    }

    method RunApp(env: Environment)
      requires Running(env, 0) && Recorded(env)
      modifies this`started, this`status, this`responseBytes, this`buffered, this`position, this`replayedEmpty,
               this`effects, this`past
      ensures Running(env, |env.app|) && Recorded(env)
    {
      hide Lawful, HistoryOf;
      for i := 0 to |env.app|
        invariant Running(env, i) && Recorded(env)
      {
        match env.app[i]
        case Sends(message) => GovernedSend(message, env, i);
        case Reads => Replay(env, i);
      }
    }

    /** Sends the replies that were held back, now that the request is audited. */
    method Flush(env: Environment) returns (s: Signal)
      requires Recorded(env)
      requires past.bodies != [] && past.errors == [] && (CompletedPhase, true) in past.audits
      requires buffered == [] || past.replies == []
      requires past.replies + buffered == WholeReply(c, env)
      requires past.replies != [] <==> started
      modifies this`started, this`effects, this`past
      ensures Recorded(env)
      ensures past == old(past).(replies := old(past.replies) + buffered[..FlushCount(env.flushed, |buffered|)])
      ensures past.replies != [] <==> started
      ensures s == FlushEnd(env.flushed, |buffered|)
    {
      hide Lawful, HistoryOf, WholeReply, FirstHalt, FlushEnd, FlushCount, Allowed;
      ghost var before := past;
      assert before.replies + buffered[..0] == before.replies;
      for i := 0 to |buffered|
        invariant Recorded(env) && buffered == old(buffered)
        invariant past == before.(replies := before.replies + buffered[..i])
        invariant past.replies != [] <==> started
        invariant FirstHalt(env.flushed, 0, |buffered|) == FirstHalt(env.flushed, i, |buffered|)
      {
        started := true;
        NextHalt(env.flushed, i, |buffered|);
        AllowsReply(c, env, past, before.replies, buffered, i);
        Perform(Send(buffered[i], true), env);
        if i < |env.flushed| && env.flushed[i] != Done {
          FlushedUpTo(env.flushed, i, |buffered|);
          return if env.flushed[i] == Cancel then Cancelled else Raised;
        }
      }
      NextHalt(env.flushed, |buffered|, |buffered|);
      FlushedUpTo(env.flushed, |buffered|, |buffered|);
      s := Completed;
    }

    /** The flags say what has happened. */
    ghost predicate Tidy()
      reads this
    {
      && (acquired <==> past.decision == Some(true))
      && (dispatched <==> past.bodies != [])
      && (past.replies != [] <==> started)
    }

    /** Admission, audit and body: everything before the application may start. */
    method Prepare(env: Environment) returns (r: Result<Bytes, Signal>)
      requires Recorded(env) && past == NOTHING && !acquired && !dispatched && !started
      modifies this`acquired, this`effects, this`past
      ensures Recorded(env) && Tidy() && past == PreparedHistory(env)
      ensures r == Preparation(c, env)
    {
      hide Lawful, HistoryOf;
      match env.acquire {
        case AcquireFails => return Err(Refused(UNAVAILABLE));
        case AcquireCancelled => return Err(Cancelled);
        case Rejected =>
          Perform(Acquire(false), env);
          return Err(Refused(LIMITED));
        case Accepted =>
          Perform(Acquire(true), env);
          acquired := true;
      }
      Perform(Audit(Admitted, env.admitted == Done), env);
      match env.admitted {
        case Fails => return Err(Refused(UNAUDITED));
        case Cancel => return Err(Cancelled);
        case Done =>
      }
      r := ReadBody(c, env.receives);
      if r.Ok? && env.keeperLostEarly.Some? {
        r := Err(Refused(env.keeperLostEarly.value));
      }
    }

    /** The main path, up to the first thing that goes wrong. */
    method Serve(env: Environment) returns (s: Signal)
      requires Recorded(env) && past == NOTHING && !acquired && !dispatched && !started && responseBytes == 0 && buffered == []
      requires position == 0 && !replayedEmpty
      modifies this
      ensures Recorded(env) && Tidy()
      ensures s == Course(c, env) && past == MainHistory(c, env)
    {
      PreparedExactlyWhenReady(c, env);
      hide Lawful, HistoryOf, Preparation, AppCourse, Ready, IsBody, AppReplies, CompletedAudits;
      var prepared := Prepare(env);
      if prepared.Err? {
        return prepared.error;
      }
      assert env.acquire == Accepted && env.admitted == Done by {
        ReadyMeans(c, env);
      }
      body := prepared.value;
      dispatched := true;
      Perform(Dispatch(body), env);
      RunApp(env);
      DeliveredInOrder(body, position, replayedEmpty, past.delivered, ReadsIn(env.app, |env.app|));
      s := Finish(env);
    }

    /** The application is done or given up. */
    method Finish(env: Environment) returns (s: Signal)
      requires Running(env, |env.app|) && Recorded(env) && Tidy()
      modifies this`started, this`effects, this`past
      ensures Recorded(env) && Tidy()
      ensures s == AppCourse(c, env)
      ensures past == old(past).(audits := old(past.audits) + CompletedAudits(env), replies := AppReplies(c, env))
    {
      FinishedReply(c, env, past.replies, buffered);
      CompletionAudited(env, past.audits);
      hide Lawful, HistoryOf, WholeReply, Kept, BytesTried, AppReplies, CompletedAudits, ReplayedSoFar;
      if env.keeperLost.Some? {
        return Refused(env.keeperLost.value);
      }
      if env.appEnd != Completed {
        return env.appEnd;
      }
      s := Conclude(env);
    }

    /** Audits the completion, then lets the reply go. */
    method Conclude(env: Environment) returns (s: Signal)
      requires Recorded(env) && Tidy() && past.bodies != [] && past.audits == [(Admitted, true)] && past.errors == []
      requires buffered == [] || past.replies == []
      requires past.replies + buffered == WholeReply(c, env)
      modifies this`started, this`effects, this`past
      ensures Recorded(env) && Tidy()
      ensures s == match env.completed
                   case Fails => Refused(OUTCOME_UNKNOWN)
                   case Cancel => Cancelled
                   case Done => FlushEnd(env.flushed, |buffered|)
      ensures past == old(past).(
                audits := old(past.audits) + [(CompletedPhase, env.completed == Done)],
                replies := if env.completed == Done
                           then old(past.replies) + buffered[..FlushCount(env.flushed, |buffered|)]
                           else old(past.replies))
    {
      AllowsCompletion(c, env, past);
      hide Lawful, HistoryOf, WholeReply, Allowed, FlushEnd, FlushCount;
      Perform(Audit(CompletedPhase, env.completed == Done), env);
      match env.completed
      case Fails => s := Refused(OUTCOME_UNKNOWN);
      case Cancel => s := Cancelled;
      case Done => s := Flush(env);
    }

    /** The error reply; its text is not part of the model. */
    method ReplyError(status: nat, env: Environment) returns (s: Signal)
      requires Recorded(env) && past.replies == [] && past.errors == []
      modifies this`effects, this`past
      ensures Recorded(env)
      ensures past == old(past).(errors := [Start(status)] + if env.errorSends.0 == Done then [Body([])] else [])
      ensures s == SignalOf(if env.errorSends.0 == Done then env.errorSends.1 else env.errorSends.0)
    {
      hide Lawful, HistoryOf;
      Perform(Send(Start(status), false), env);
      if env.errorSends.0 != Done {
        return if env.errorSends.0 == Cancel then Cancelled else Raised;
      }
      Perform(Send(Body([]), false), env);
      s := match env.errorSends.1 case Done => Completed case Cancel => Cancelled case Fails => Raised;
    }

    /** What is done about a request that did not finish. */
    method Close(s: Signal, env: Environment) returns (outcome: Signal)
      requires Recorded(env) && Tidy()
      requires s == Course(c, env) && s != Completed && past == MainHistory(c, env)
      modifies this`effects, this`past
      ensures Recorded(env)
      ensures past == MainHistory(c, env).(
                audits := MainHistory(c, env).audits + ClosingAudits(c, env), errors := ErrorReply(c, env))
      ensures outcome == Closing(c, env)
    {
      hide Lawful, HistoryOf, Course, AppReplies, Preparation;
      var phase := if s.Refused? && !dispatched then Denied else Interrupted;
      Perform(Audit(phase, env.closing == Done), env);
      if s == Cancelled || env.closing == Cancel {
        return Cancelled;
      }
      if started {
        return s;
      }
      outcome := ReplyError(if s.Refused? then s.error.status else 500, env);
    }

    /** The whole middleware. */
    method Call(env: Environment) returns (outcome: Signal)
      requires effects == [] && past == NOTHING && !acquired && !dispatched && !started && responseBytes == 0 && buffered == []
      requires position == 0 && !replayedEmpty
      modifies this
      ensures Lawful(c, env, effects) && past == HistoryOf(effects)
      ensures c.bypassed ==> effects == [Bypass] && outcome == env.appEnd
      ensures !c.bypassed ==> past == WholeHistory(c, env) && outcome == Ending(c, env)
      ensures !c.bypassed ==> Settled(c, env, past, outcome)
    {
      RequestSettles(c, env);
      assert Recorded(env);
      hide Lawful, HistoryOf, Settled, Course, Preparation, AppReplies;
      if c.bypassed {
        Perform(Bypass, env);
        return env.appEnd;
      }
      outcome := Serve(env);
      if outcome != Completed {
        outcome := Close(outcome, env);
      } else {
        NothingToClose(c, env);
      }
      if acquired {
        if env.keeperJoin == Cancel {
          return Cancelled;
        }
        Perform(Release, env);
        if env.release == Cancel {
          outcome := Cancelled;
        }
      }
    }
  }

  lemma NextHalt(waits: seq<Await>, i: nat, n: nat)
    requires i <= n
    ensures FirstHalt(waits, i, n) == if i == n || Halts(waits, i) then i else FirstHalt(waits, i + 1, n)
  {
  }

  /** What was passed on and what was held back make up the reply. */
  lemma FinishedReply(c: Context, env: Environment, replies: seq<Message>, buffered: seq<Message>)
    requires buffered == if c.critical then WholeReply(c, env) else []
    requires replies == if c.critical then [] else WholeReply(c, env)
    ensures replies + buffered == WholeReply(c, env)
    ensures AppReplies(c, env) ==
            if AppFinished(env) && env.completed == Done
            then replies + buffered[..FlushCount(env.flushed, |buffered|)] else replies
    ensures |buffered| == HeldBack(c, env)
  {
    hide WholeReply, FlushCount;
    assert replies + [] == replies;
  }

  lemma AllowsReply(
      c: Context, env: Environment, past: History, before: seq<Message>, buffered: seq<Message>, i: nat)
    requires past.bodies != [] && past.errors == [] && (CompletedPhase, true) in past.audits
    requires i < |buffered| && before == [] && before + buffered == WholeReply(c, env)
    requires past.replies == before + buffered[..i]
    ensures Allowed(c, env, past, Send(buffered[i], true))
    ensures past.replies + [buffered[i]] == before + buffered[..i + 1]
  {
    assert buffered[..i + 1] == buffered[..i] + [buffered[i]];
    assert before + buffered[..i + 1] <= before + buffered;
  }

  lemma FlushedUpTo(waits: seq<Await>, i: nat, n: nat)
    requires i <= n && FirstHalt(waits, 0, n) == i
    ensures FlushCount(waits, n) == if i == n then n else i + 1
    ensures FlushEnd(waits, n) == if i == n then Completed else if waits[i] == Cancel then Cancelled else Raised
  {
  }

  lemma AllowsCompletion(c: Context, env: Environment, past: History)
    requires past.bodies != [] && past.audits == [(Admitted, true)]
    ensures forall w :: Allowed(c, env, past, Audit(CompletedPhase, w))
  {
  }

  lemma CompletionAudited(env: Environment, audits: seq<(Phase, bool)>)
    ensures audits + CompletedAudits(env) ==
            if AppFinished(env) then audits + [(CompletedPhase, env.completed == Done)] else audits
  {
    assert audits + [] == audits;
  }

  lemma NothingToClose(c: Context, env: Environment)
    requires Course(c, env) == Completed
    ensures ErrorReply(c, env) == [] && ClosingAudits(c, env) == [] && Closing(c, env) == Completed
    ensures WholeHistory(c, env).audits == MainHistory(c, env).audits
  {
  }

  lemma ReadyMeans(c: Context, env: Environment)
    requires Ready(c, env)
    ensures env.acquire == Accepted && env.admitted == Done
  {
  }
}
