/**
 Which requests are governed and how, and how each of them ends: by the request
 itself, and by the first thing that goes wrong.
 */
module GovernanceCases {
  import opened Prelude
  import opened Governance
  import opened GovernanceOutcomes

  // --------------------------------------------------------------- request

  predicate Ends(path: string, suffix: string) {
    |suffix| <= |path| && forall i :: 0 <= i < |suffix| ==> path[|path| - |suffix| + i] == suffix[i]
  }

  /** The path without the prefix of the workbench. */
  function Inner(path: string): string {
    if "/workbench" <= path then path[10..] else path
  }

  /** Everything but GET, HEAD and OPTIONS may change something, and is held back until audited. */
  lemma RequestsAreGovernedExactlyWhen(r: Request, settings: Settings)
    ensures var c := ContextOf(r, settings);
            var safe := r.verb == "GET" || r.verb == "HEAD" || r.verb == "OPTIONS";
            && (c.bypassed <==> !r.http || (r.path == "/health/live" && (r.verb == "GET" || r.verb == "HEAD")))
            && (c.critical <==> !safe)
            && c.lengths == r.lengths
            && c.bodyCap == (if r.verb == "POST" && Ends(Inner(r.path), "/documents")
                             then settings.documentMax + settings.multipartOverhead else settings.jsonMax)
            && (safe && !Ends(Inner(r.path), "/stream") ==>
                  && c.responseCap >= settings.responseMax && c.responseCap >= settings.documentMax
                  && c.responseCap >= settings.artifactMax
                  && c.responseCap in {settings.responseMax, settings.documentMax, settings.artifactMax})
            && (!safe || Ends(Inner(r.path), "/stream") ==> c.responseCap == settings.responseMax)
  {
    UploadsAreDocuments(r);
    StreamsAreSse(r);
    hide CategoryFor, Ends, EndsWith, Inner;
  }

  lemma UploadsAreDocuments(r: Request)
    ensures CategoryFor(r) == Upload <==> r.verb == "POST" && Ends(Inner(r.path), "/documents")
  {
    var path := Inner(r.path);
    EndsAgree(path, "/documents");
    EndsAgree(path, "/rag/query");
    assert !Safe("POST");
    if Ends(path, "/documents") {
      DocumentsIsNoOther(path);
    }
    hide Ends, EndsWith, Safe, Inner;
  }

  /** The last two letters tell this path from the others. */
  lemma DocumentsIsNoOther(path: string)
    requires Ends(path, "/documents")
    ensures path != "/agent/run" && path != "/chat" && path != "/agent/tasks" && !Ends(path, "/rag/query")
  {
    var suffix, n := "/documents", |path|;
    assert |suffix| == 10 && suffix[9] == 's' && suffix[8] == 't';
    assert path[n - 10 + 9] == 's' && path[n - 10 + 8] == 't';
    LastTwo("/agent/run", 'u', 'n');
    LastTwo("/chat", 'a', 't');
    LastTwo("/agent/tasks", 'k', 's');
    assert "/rag/query"[9] == 'y';
  }

  lemma LastTwo(s: string, c: char, d: char)
    requires |s| >= 2 && s[|s| - 2] == c && s[|s| - 1] == d
    ensures forall t: string :: |t| >= 2 && (t[|t| - 2] != c || t[|t| - 1] != d) ==> t != s
  {
  }

  lemma StreamsAreSse(r: Request)
    ensures CategoryFor(r) == Sse <==> Safe(r.verb) && Ends(Inner(r.path), "/stream")
  {
    EndsAgree(Inner(r.path), "/stream");
    hide Ends, EndsWith, Safe;
  }

  lemma EndsAgree(path: string, suffix: string)
    ensures Ends(path, suffix) <==> EndsWith(path, suffix)
  {
    if Ends(path, suffix) {
      assert path[|path| - |suffix|..] == suffix;
    }
  }

  /** Whatever a request may change, its client hears of it only after the completed audit was written. */
  lemma WritesAreAuditedBeforeReplies(r: Request, settings: Settings, env: Environment)
    requires r.http && r.verb != "GET" && r.verb != "HEAD" && r.verb != "OPTIONS"
    ensures var h := WholeHistory(ContextOf(r, settings), env);
            && !ContextOf(r, settings).bypassed
            && (h.replies != [] ==> h.decision == Some(true) && [(Admitted, true), (CompletedPhase, true)] <= h.audits)
  {
    var c := ContextOf(r, settings);
    assert c.critical;
    hide ContextOf, WholeReply, BodyRead;
  }

  // ----------------------------------------------------------------- reply

  /** The messages that the application sent, in order. */
  function AllSent(app: seq<AppStep>): seq<Message> {
    if app == [] then []
    else AllSent(app[..|app| - 1])
         + if app[|app| - 1].Sends? then [app[|app| - 1].message] else []
  }

  /** The bytes in a run of messages. */
  function BytesOf(messages: seq<Message>): nat {
    if messages == [] then 0
    else BytesOf(messages[..|messages| - 1])
         + if messages[|messages| - 1].Body? then |messages[|messages| - 1].bytes| else 0
  }

  lemma {:induction false} KeptOf(cap: nat, app: seq<AppStep>, n: nat)
    requires n <= |app|
    ensures BytesTried(app, n) == BytesOf(AllSent(app[..n]))
    ensures BytesTried(app, n) <= cap ==> Kept(cap, app, n) == AllSent(app[..n])
    ensures BytesTried(app, n) > cap ==> |Kept(cap, app, n)| < |AllSent(app[..n])|
    ensures |Kept(cap, app, n)| <= |AllSent(app[..n])|
  {
    if n > 0 {
      KeptOf(cap, app, n - 1);
      assert app[..n][..n - 1] == app[..n - 1];
      var sent := AllSent(app[..n - 1]);
      var longer := AllSent(app[..n]);
      if app[n - 1].Sends? {
        assert longer == sent + [app[n - 1].message] && longer[..|sent|] == sent;
      } else {
        assert longer == sent;
      }
    }
  }

  /** The reply is the application's, whole and in order, exactly if it fits the cap. */
  lemma RepliesAreWholeExactlyWhen(c: Context, env: Environment)
    ensures WholeReply(c, env) == AllSent(env.app) <==> BytesOf(AllSent(env.app)) <= c.responseCap
  {
    KeptOf(c.responseCap, env.app, |env.app|);
    assert env.app[..|env.app|] == env.app;
  }

  /** What the client got of a reply: all that was passed on, or what was flushed before a send failed. */
  lemma RepliesGoOutExactly(c: Context, env: Environment)
    requires Ready(c, env)
    ensures var whole := WholeReply(c, env);
            var sent := WholeHistory(c, env).replies;
            && (!c.critical ==> sent == whole)
            && (c.critical && (env.keeperLost.Some? || env.appEnd != Completed || env.completed != Done) ==> sent == [])
            && (c.critical && env.keeperLost == None && env.appEnd == Completed && env.completed == Done ==>
                  && sent <= whole
                  && (forall i :: 0 <= i < |sent| - 1 ==> !Halts(env.flushed, i))
                  && (|sent| < |whole| ==> sent != [] && Halts(env.flushed, |sent| - 1)))
  {
    PreparedExactlyWhenReady(c, env);
    hide WholeReply, Preparation, Ready, BodyRead, FirstHalt;
  }

  // ---------------------------------------------------------------- errors

  /** Where reading the body stops, and what it finds there. */
  lemma {:induction false} BodyStopsFrom(c: Context, events: seq<Received>, i: nat) returns (k: nat)
    requires i <= |events| && Announced(events, i) && |Gathered(events[..i])| <= c.bodyCap
    ensures i <= k <= |events| && Announced(events, k) && |Gathered(events[..k])| <= c.bodyCap
    ensures k < |events| && events[k].Chunk? ==> !events[k].more || |Gathered(events[..k + 1])| > c.bodyCap
    ensures BodyFrom(c, events, i, Gathered(events[..i])) == BodyFrom(c, events, k, Gathered(events[..k]))
    decreases |events| - i
  {
    k := i;
    if i < |events| && events[i].Chunk? && events[i].more {
      assert events[..i + 1][..i] == events[..i];
      if |Gathered(events[..i + 1])| <= c.bodyCap {
        k := BodyStopsFrom(c, events, i + 1);
      }
    }
  }

  predicate LengthsGood(c: Context) {
    c.lengths == [] || (|c.lengths| == 1 && c.lengths[0].Some? && c.lengths[0].value >= 0)
  }

  /** Why a body is refused: by its declared lengths, or by the first message that ends the reading. */
  lemma BodiesAreRefusedExactly(c: Context, events: seq<Received>) returns (k: nat)
    ensures !LengthsGood(c) ==> BodyRead(c, events) == Err(Refused(GovernanceError(400, "invalid_content_length")))
    ensures LengthsGood(c) && c.lengths != [] && c.lengths[0].value > c.bodyCap ==>
              BodyRead(c, events) == Err(Refused(GovernanceError(413, "request_body_too_large")))
    ensures LengthsAccepted(c) ==>
              && k <= |events| && Announced(events, k) && |Gathered(events[..k])| <= c.bodyCap
              && BodyRead(c, events) ==
                 if k == |events| then Err(Refused(GovernanceError(408, "request_body_timeout")))
                 else
                   match events[k]
                   case TimedOut => Err(Refused(GovernanceError(408, "request_body_timeout")))
                   case Disconnect => Err(Refused(GovernanceError(400, "request_disconnected")))
                   case ReceiveCancelled => Err(Cancelled)
                   case ReceiveRaises => Err(Raised)
                   case Chunk(_, more) =>
                     var all := Gathered(events[..k + 1]);
                     if |all| > c.bodyCap then Err(Refused(GovernanceError(413, "request_body_too_large")))
                     else if c.lengths != [] && c.lengths[0].value != |all|
                     then Err(Refused(GovernanceError(400, "content_length_mismatch")))
                     else Ok(all)
  {
    k := 0;
    assert events[..0] == [];
    if LengthsAccepted(c) {
      k := BodyStopsFrom(c, events, 0);
      if k < |events| {
        assert events[..k + 1][..k] == events[..k];
      }
    }
  }

  /** What went wrong before the application could run, first things first. */
  lemma RefusalsAreReportedExactly(c: Context, env: Environment)
    requires !Ready(c, env)
    ensures var s := Course(c, env);
            && (env.acquire == AcquireFails ==> s == Refused(GovernanceError(503, "admission_unavailable")))
            && (env.acquire == AcquireCancelled ==> s == Cancelled)
            && (env.acquire == Rejected ==> s == Refused(GovernanceError(429, "request_limit_exceeded")))
            && (env.acquire == Accepted ==>
                  && (env.admitted == Fails ==> s == Refused(GovernanceError(503, "audit_unavailable")))
                  && (env.admitted == Cancel ==> s == Cancelled)
                  && (env.admitted == Done && BodyRead(c, env.receives).Err? ==> s == BodyRead(c, env.receives).error)
                  && (env.admitted == Done && BodyRead(c, env.receives).Ok? ==>
                        env.keeperLostEarly.Some? && s == Refused(env.keeperLostEarly.value)))
  {
    PreparedExactlyWhenReady(c, env);
    hide Ready, BodyRead;
  }

  /** What went wrong once it ran: the lease, the application, its completed audit, or a send. */
  lemma InterruptionsAreReportedExactly(c: Context, env: Environment)
    requires Ready(c, env)
    ensures var s := Course(c, env);
            && (env.keeperLost.Some? ==> s == Refused(env.keeperLost.value))
            && (env.keeperLost == None && env.appEnd != Completed ==> s == env.appEnd)
            && (env.keeperLost == None && env.appEnd == Completed ==>
                  && (env.completed == Fails ==> s == Refused(GovernanceError(503, "audit_outcome_unknown")))
                  && (env.completed == Cancel ==> s == Cancelled)
                  && (env.completed == Done && s != Completed ==>
                        c.critical
                        && exists k :: 0 <= k < |WholeReply(c, env)| && Halts(env.flushed, k)
                             && (forall i :: 0 <= i < k ==> !Halts(env.flushed, i))
                             && s == if env.flushed[k] == Cancel then Cancelled else Raised))
  {
    PreparedExactlyWhenReady(c, env);
    hide Ready, Preparation, WholeReply;
  }

  /** The audits of a request: admitted, completed, and one that closes it unless it went well. */
  lemma AuditsAreWrittenExactly(c: Context, env: Environment)
    ensures var h := WholeHistory(c, env);
            var s := Course(c, env);
            var ran := Ready(c, env);
            && h.audits ==
               (if env.acquire == Accepted then [(Admitted, env.admitted == Done)] else [])
               + (if ran && env.keeperLost == None && env.appEnd == Completed
                  then [(CompletedPhase, env.completed == Done)] else [])
               + (if s == Completed then []
                  else [(if !ran && s != Cancelled && s != Raised then Denied else Interrupted, env.closing == Done)])
  {
    PreparedExactlyWhenReady(c, env);
    hide Ready, Course, Preparation, AppReplies, BodyRead;
  }

  /** The error reply: the status of what went wrong, once, and only to a client who has heard nothing. */
  lemma ErrorsAreSentExactly(c: Context, env: Environment)
    ensures var h := WholeHistory(c, env);
            var s := Course(c, env);
            && h.errors == if s in {Completed, Cancelled} || env.closing == Cancel || h.replies != [] then []
                           else [Start(if s == Raised then 500 else s.error.status)]
                                + if env.errorSends.0 == Done then [Body([])] else []
  {
    hide Course, Preparation, AppReplies;
  }

  /** How the request ends for the server: cancelled, failed, or normally. */
  lemma RequestsEndExactly(c: Context, env: Environment)
    ensures var s := Course(c, env);
            var answered := WholeHistory(c, env).errors != [];
            var end := Ending(c, env);
            var lastSend := if env.errorSends.0 != Done then env.errorSends.0 else env.errorSends.1;
            && (end == Cancelled <==>
                  || (env.acquire == Accepted && (env.keeperJoin == Cancel || env.release == Cancel))
                  || s == Cancelled || (s != Completed && env.closing == Cancel) || (answered && lastSend == Cancel))
            && (end != Cancelled && !answered ==> end == s)
            && (end != Cancelled && answered ==> end == if lastSend == Done then Completed else Raised)
  {
    hide Course, Preparation, AppReplies;
  }
}
