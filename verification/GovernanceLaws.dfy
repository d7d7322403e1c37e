/** What the rules of the middleware mean over a whole request. */
module GovernanceLaws {
  import opened Prelude
  import opened Governance
  import opened GovernanceOutcomes

  function Starts(messages: seq<Message>): nat {
    if messages == [] then 0
    else Starts(messages[..|messages| - 1]) + if messages[|messages| - 1].Start? then 1 else 0
  }

  function Bytes(messages: seq<Message>): nat {
    if messages == [] then 0 else Bytes(messages[..|messages| - 1]) + Size(messages[|messages| - 1])
  }

  function StartsTried(app: seq<AppStep>, n: nat): nat
    requires n <= |app|
  {
    if n == 0 then 0
    else StartsTried(app, n - 1) + if app[n - 1].Sends? && app[n - 1].message.Start? then 1 else 0
  }

  ghost predicate Orderly(c: Context, env: Environment, h: History) {
    && |h.bodies| <= 1 && h.releases <= 1
    && (h.bodies == [] ==> h.delivered == [] && h.replies == [])
    && (h.bodies != [] ==>
          && h.decision == Some(true) && (Admitted, true) in h.audits
          && (forall w :: (Denied, w) !in h.audits)
          && IsBody(c, env.receives, h.bodies[0])
          && h.delivered <= Replayed(h.bodies[0]))
    && (h.replies == [] || h.errors == [])
    && h.replies <= WholeReply(c, env)
    && Starts(h.errors) <= 1
  }

  lemma OrderlyStep(c: Context, env: Environment, h: History, e: Effect)
    requires Orderly(c, env, h) && Allowed(c, env, h, e)
    ensures Orderly(c, env, Note(h, e))
  {
    hide WholeReply, Replayed, IsBody, Starts;
    if e.Send? && !e.fromApp {
      OneMoreMessage(h.errors, e.message);
    }
  }

  lemma OneMoreMessage(messages: seq<Message>, m: Message)
    ensures Starts(messages + [m]) == Starts(messages) + if m.Start? then 1 else 0
    ensures Starts([]) == 0
  {
    assert (messages + [m])[..|messages|] == messages;
  }

  lemma {:induction false} LawfulIsOrderly(c: Context, env: Environment, effects: seq<Effect>)
    requires Lawful(c, env, effects)
    ensures Orderly(c, env, HistoryOf(effects))
  {
    if effects == [] {
      assert Starts([]) == 0;
    } else {
      var n := |effects| - 1;
      LawfulPrefix(c, env, effects, n);
      LawfulIsOrderly(c, env, effects[..n]);
      OrderlyStep(c, env, HistoryOf(effects[..n]), effects[n]);
    }
  }

  lemma LawfulPrefix(c: Context, env: Environment, effects: seq<Effect>, n: nat)
    requires Lawful(c, env, effects) && n <= |effects|
    ensures Lawful(c, env, effects[..n])
  {
    forall i | 0 <= i < n
      ensures Allowed(c, env, HistoryOf(effects[..n][..i]), effects[..n][i])
    {
      assert effects[..n][..i] == effects[..i];
    }
  }

  // ------------------------------------------------------------- theorems

  lemma NothingHappened(effects: seq<Effect>)
    requires HistoryOf(effects) == NOTHING
    ensures effects == []
  {
  }

  lemma OnlyAcquired(c: Context, env: Environment, effects: seq<Effect>, i: nat)
    requires Lawful(c, env, effects) && i <= |effects|
    requires HistoryOf(effects[..i]) == NOTHING.(decision := Some(true))
    ensures effects[..i] == [Acquire(true)]
  {
    hide IsBody, WholeReply, Replayed;
    assert effects[..0] == [];
    assert Allowed(c, env, HistoryOf(effects[..i - 1]), effects[i - 1]);
    assert effects[..i][..i - 1] == effects[..i - 1];
    NothingHappened(effects[..i - 1]);
  }

  lemma OnlyAdmitted(c: Context, env: Environment, effects: seq<Effect>, i: nat)
    requires Lawful(c, env, effects) && i <= |effects|
    requires HistoryOf(effects[..i]) == NOTHING.(decision := Some(true), audits := [(Admitted, true)])
    ensures effects[..i] == [Acquire(true), Audit(Admitted, true)]
  {
    hide IsBody, WholeReply, Replayed;
    assert effects[..0] == [];
    assert Allowed(c, env, HistoryOf(effects[..i - 1]), effects[i - 1]);
    assert effects[..i][..i - 1] == effects[..i - 1];
    var h, last := HistoryOf(effects[..i - 1]), effects[i - 1];
    assert last.Audit?;
    assert (h.audits + [(last.phase, last.written)])[|h.audits|] == (last.phase, last.written);
    assert last == Audit(Admitted, true);
    OnlyAcquired(c, env, effects, i - 1);
  }

  /** Before the application starts, exactly two things have happened: it was admitted, and that was audited. */
  lemma AppRunsOnlyAdmitted(c: Context, env: Environment, effects: seq<Effect>, i: nat)
    requires Lawful(c, env, effects) && i < |effects| && effects[i].Dispatch?
    ensures effects[..i] == [Acquire(true), Audit(Admitted, true)]
    ensures IsBody(c, env.receives, effects[i].body)
  {
    assert Allowed(c, env, HistoryOf(effects[..i]), effects[i]);
    OnlyAdmitted(c, env, effects, i);
  }

  lemma {:induction false} AuditsWereMade(effects: seq<Effect>, phase: Phase, written: bool)
    requires (phase, written) in HistoryOf(effects).audits
    ensures Audit(phase, written) in effects
  {
    var n := |effects| - 1;
    assert effects[n] in effects;
    if effects[n] != Audit(phase, written) {
      AuditsWereMade(effects[..n], phase, written);
    }
  }

  /** A critical reply reaches the client only after its completion is on record. */
  lemma CriticalReplyIsAudited(c: Context, env: Environment, effects: seq<Effect>, i: nat)
    requires Lawful(c, env, effects) && c.critical
    requires i < |effects| && effects[i].Send? && effects[i].fromApp
    ensures Audit(CompletedPhase, true) in effects[..i]
  {
    assert Allowed(c, env, HistoryOf(effects[..i]), effects[i]);
    AuditsWereMade(effects[..i], CompletedPhase, true);
  }

  lemma {:induction false} StartsOfPrefix(a: seq<Message>, b: seq<Message>)
    requires a <= b
    ensures Starts(a) <= Starts(b) && Bytes(a) <= Bytes(b)
    decreases |b|
  {
    if |a| == |b| {
      assert a == b;
    } else {
      StartsOfPrefix(a, b[..|b| - 1]);
    }
  }

  lemma {:induction false} KeptStarts(cap: nat, app: seq<AppStep>, n: nat)
    requires n <= |app|
    ensures Starts(Kept(cap, app, n)) <= StartsTried(app, n)
    ensures Bytes(Kept(cap, app, n)) <= cap && Bytes(Kept(cap, app, n)) <= BytesTried(app, n)
  {
    if n > 0 {
      KeptStarts(cap, app, n - 1);
      var before, after := Kept(cap, app, n - 1), Kept(cap, app, n);
      if |after| > |before| {
        assert after[..|after| - 1] == before;
      } else {
        assert after == before;
      }
    }
  }

  /** The client sees at most one response start, unless the application itself sends more. */
  lemma AtMostOneStart(c: Context, env: Environment, effects: seq<Effect>)
    requires Lawful(c, env, effects)
    ensures var h := HistoryOf(effects);
            Starts(h.replies) + Starts(h.errors) <= Max(1, StartsTried(env.app, |env.app|))
  {
    LawfulIsOrderly(c, env, effects);
    StartsOfPrefix(HistoryOf(effects).replies, WholeReply(c, env));
    KeptStarts(c.responseCap, env.app, |env.app|);
    assert Starts([]) == 0;
  }

  /** What the client is sent of the application's reply never exceeds the cap. */
  lemma ReplyFitsCap(c: Context, env: Environment, effects: seq<Effect>)
    requires Lawful(c, env, effects)
    ensures Bytes(HistoryOf(effects).replies) <= c.responseCap
  {
    LawfulIsOrderly(c, env, effects);
    StartsOfPrefix(HistoryOf(effects).replies, WholeReply(c, env));
    KeptStarts(c.responseCap, env.app, |env.app|);
  }

  /** A request recorded as denied never reached the application. */
  lemma DeniedNeverRan(c: Context, env: Environment, effects: seq<Effect>, written: bool)
    requires Lawful(c, env, effects) && (Denied, written) in HistoryOf(effects).audits
    ensures HistoryOf(effects).bodies == []
  {
    LawfulIsOrderly(c, env, effects);
  }

  /**
   A started application reads the received body, cut again: after any number
   of reads a prefix of it, and all of it exactly when a final piece was read or
   it asked often enough.
   */
  lemma AppReadsTheBody(c: Context, env: Environment)
    requires Ready(c, env)
    ensures var h := WholeHistory(c, env);
            var n := ReadsIn(env.app, |env.app|);
            && |h.bodies| == 1 && IsBody(c, env.receives, h.bodies[0])
            && |h.delivered| == Min(n, |Replayed(h.bodies[0])|)
            && Joined(h.delivered) <= h.bodies[0]
            && (n >= |Replayed(h.bodies[0])| ==> Joined(h.delivered) == h.bodies[0])
            && ((exists i :: 0 <= i < |h.delivered| && !h.delivered[i].1) <==> n >= |Replayed(h.bodies[0])|)
            && forall i :: 0 <= i < |h.delivered| ==> |h.delivered[i].0| <= CHUNK
  {
    PreparedExactlyWhenReady(c, env);
    hide Preparation, Ready, IsBody, AppReplies, AppCourse;
    var h := WholeHistory(c, env);
    var all := Replayed(h.bodies[0]);
    ReplayIsTheBody(h.bodies[0]);
    hide Replayed;
    JoinedPrefix(h.delivered, all);
    assert forall i :: 0 <= i < |h.delivered| ==> h.delivered[i] == all[i];
    if |h.delivered| == |all| {
      assert h.delivered == all;
      assert !h.delivered[|all| - 1].1;
    }
  }

  /** A granted lease is kept exactly when the join of its keeper is cancelled. */
  lemma LeaseIsKeptExactlyWhen(c: Context, env: Environment)
    ensures var h := WholeHistory(c, env);
            h.decision == Some(true) && h.releases == 0 <==> env.acquire == Accepted && env.keeperJoin == Cancel
  {
  }

  /** A request in which all goes well up to a cancellation during that join. */
  lemma LeaseCanBeKept()
    ensures exists c, env ::
              GoesWell(c, env) && WholeHistory(c, env).decision == Some(true) && WholeHistory(c, env).releases == 0
  {
    var c := Context(false, false, 100, 100, []);
    var env := Environment(
      Accepted, Done, [Chunk([], false)], None, [], Completed, None, Done, [], Done, (Done, Done), Cancel, Done);
    assert env.receives[..1][..0] == [];
    assert CompleteBody(c, env.receives, 1);
    assert HasBody(c, env.receives);
    LeaseIsKeptExactlyWhen(c, env);
    hide HasBody, CompleteBody, Gathered, WholeHistory, WholeReply;
    assert GoesWell(c, env);
  }

  lemma {:induction false} JoinedPrefix(a: seq<(seq<bv8>, bool)>, b: seq<(seq<bv8>, bool)>)
    requires a <= b
    ensures Joined(a) <= Joined(b)
  {
    if a != [] {
      JoinedPrefix(a[1..], b[1..]);
    }
  }
}
