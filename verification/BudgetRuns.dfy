/** What holds over every run of charges and model requests by one worker. */
module BudgetRuns {
  import opened Prelude
  import opened Budgets

  datatype Action =
    | Request(attempt: Attempt)
    | Spend(resource: Resource, amount: nat, expired: bool)
    | External(operation: Operation)

  predicate Permitted(action: Action) {
    action.Spend? ==> Limited(action.resource)
  }

  /** A request's receipt, whether a charge was granted, or how another operation went. */
  datatype Outcome =
    | Requested(receipt: Receipt)
    | Granted(resource: Resource, amount: nat)
    | Denied
    | Operated(conduct: Conduct)

  function Perform(a: Accounts, action: Action): (Accounts, Outcome)
    requires Permitted(action)
  {
    match action
    case Request(t) =>
      var (b, receipt) := Generated(a, t);
      (b, Requested(receipt))
    case Spend(r, amount, expired) =>
      if a.used.None? then (a, Granted(r, amount))
      else
        var consumed := Consumed(a.limits, a.used.value, expired, r, amount);
        if consumed.Err? then (a, Denied) else (a.(used := Some(consumed.value)), Granted(r, amount))
    case External(op) =>
      var (b, conduct) := Conducted(a, op);
      (b, Operated(conduct))
  }

  ghost predicate AllPermitted(actions: seq<Action>) {
    forall action :: action in actions ==> Permitted(action)
  }

  function Run(a: Accounts, actions: seq<Action>): (r: (Accounts, seq<Outcome>))
    requires AllPermitted(actions)
    ensures |r.1| == |actions|
  {
    if actions == [] then (a, [])
    else
      var last := |actions| - 1;
      assert actions[last] in actions;
      var (before, outcomes) := Run(a, actions[..last]);
      var (after, outcome) := Perform(before, actions[last]);
      (after, outcomes + [outcome])
  }

  lemma PrefixesPermitted(actions: seq<Action>, k: nat)
    requires AllPermitted(actions) && k <= |actions|
    ensures AllPermitted(actions[..k])
  {
    forall action | action in actions[..k]
      ensures action in actions
    {
    }
  }

  /** The accounts when it is action `k`'s turn. */
  ghost function Before(a: Accounts, actions: seq<Action>, k: nat): Accounts
    requires AllPermitted(actions) && k <= |actions|
  {
    PrefixesPermitted(actions, k);
    Run(a, actions[..k]).0
  }

  // -------------------------------------------------------- counted limits

  ghost predicate WithinLimits(a: Accounts) {
    a.used.Some? ==>
      && NonNegative(a.used.value)
      && forall r :: Limited(r) && r != TotalTokens ==> Get(a.used.value, r) <= a.limits.Of(r)
  }

  ghost predicate StaysWithinLimits(a: Accounts, b: Accounts) {
    && (WithinLimits(a) ==> WithinLimits(b))
    && b.limits == a.limits && b.used.Some? == a.used.Some? && b.row.Some? == a.row.Some?
  }

  lemma SpendKeepsLimits(a: Accounts, r: Resource, amount: nat, expired: bool)
    requires Limited(r)
    ensures StaysWithinLimits(a, Perform(a, Spend(r, amount, expired)).0)
  {
    if a.used.Some? && WithinLimits(a) {
      var b := Perform(a, Spend(r, amount, expired)).0;
      forall q
        ensures Get(b.used.value, q) >= 0
        ensures Limited(q) && q != TotalTokens ==> Get(b.used.value, q) <= a.limits.Of(q)
      {
        assert Get(a.used.value, q) >= 0;
      }
    }
  }

  lemma ChargeKeepsLimits(a: Accounts, expired: bool)
    ensures Charge(a, expired).Some? ==> StaysWithinLimits(a, Charge(a, expired).value)
  {
    if a.used.Some? {
      SpendKeepsLimits(a, ModelCalls, 1, expired);
    }
  }

  lemma ReserveKeepsLimits(a: Accounts, t: Attempt)
    ensures Reserve(a, t).Some? ==> StaysWithinLimits(a, Reserve(a, t).value)
  {
  }

  lemma UnsendKeepsLimits(a: Accounts, t: Attempt)
    ensures StaysWithinLimits(a, Unsend(a, t))
  {
    if a.used.Some? && WithinLimits(a) {
      forall r
        ensures Get(Unsend(a, t).used.value, r) >= 0
        ensures Get(Unsend(a, t).used.value, r) <= Get(a.used.value, r)
      {
        assert Get(a.used.value, r) >= 0;
      }
    }
  }

  lemma RespondKeepsLimits(a: Accounts, t: Attempt, usage: Option<Usage>)
    ensures StaysWithinLimits(a, Respond(a, t, usage))
  {
    if a.used.Some? && WithinLimits(a) {
      var b := Respond(a, t, usage);
      forall r
        ensures Get(b.used.value, r) >= 0
        ensures Limited(r) && r != TotalTokens ==> Get(b.used.value, r) <= a.limits.Of(r)
      {
        assert Get(a.used.value, r) >= 0;
      }
    }
  }

  lemma RequestKeepsLimits(a: Accounts, t: Attempt)
    ensures StaysWithinLimits(a, Generated(a, t).0)
  {
    ChargeKeepsLimits(a, t.expired);
    if Charge(a, t.expired).Some? {
      var charged := Charge(a, t.expired).value;
      ReserveKeepsLimits(charged, t);
      if Reserve(charged, t).Some? {
        var reserved := Reserve(charged, t).value;
        UnsendKeepsLimits(reserved, t);
        if t.outcome.Completed? || t.outcome.Unusable? {
          RespondKeepsLimits(reserved, t, t.outcome.usage);
        }
      }
    }
    hide Charge, Reserve, Unsend, Respond;
  }

  lemma PerformKeepsLimits(a: Accounts, action: Action)
    requires Permitted(action) && WithinLimits(a)
    ensures WithinLimits(Perform(a, action).0)
    ensures Perform(a, action).0.limits == a.limits
    ensures Perform(a, action).0.used.Some? == a.used.Some?
    ensures Perform(a, action).0.row.Some? == a.row.Some?
  {
    hide Generated, WithinLimits;
    match action
    case Request(t) => RequestKeepsLimits(a, t);
    case Spend(r, amount, expired) => SpendKeepsLimits(a, r, amount, expired);
    case External(op) => OperationKeepsUsed(a, op);
  }

  /** Another operation charges nothing; its charges are made beforehand. */
  lemma OperationKeepsUsed(a: Accounts, op: Operation)
    ensures var b := Conducted(a, op).0;
            b.limits == a.limits && b.used == a.used && b.row.Some? == a.row.Some?
    ensures WithinLimits(a) <==> WithinLimits(Conducted(a, op).0)
  {
  }

  /** No counted resource ever exceeds its limit, however requests end. */
  lemma {:induction false} LimitsHold(a: Accounts, actions: seq<Action>)
    requires AllPermitted(actions) && WithinLimits(a)
    ensures WithinLimits(Run(a, actions).0)
    ensures Run(a, actions).0.limits == a.limits
    ensures Run(a, actions).0.used.Some? == a.used.Some?
    ensures Run(a, actions).0.row.Some? == a.row.Some?
  {
    if actions != [] {
      var last := |actions| - 1;
      LimitsHold(a, actions[..last]);
      assert actions[last] in actions;
      PerformKeepsLimits(Run(a, actions[..last]).0, actions[last]);
    }
  }

  // ----------------------------------------------------- what a call costs

  predicate HandedOver(o: Outcome) {
    o.Requested? && Dispatched(o.receipt)
  }

  predicate ProvedUnsent(o: Outcome) {
    o.Requested? && o.receipt.Unsent?
  }

  predicate StartRefused(o: Outcome) {
    o.Requested? && o.receipt.Refused?
  }

  function Matching(outcomes: seq<Outcome>, p: Outcome -> bool): nat {
    if outcomes == [] then 0
    else Matching(outcomes[..|outcomes| - 1], p) + (if p(outcomes[|outcomes| - 1]) then 1 else 0)
  }

  ghost predicate NoDirectModelSpend(actions: seq<Action>) {
    forall action :: action in actions && action.Spend? ==> action.resource != ModelCalls
  }

  lemma OutcomeMatches(outcomes: seq<Outcome>, o: Outcome, p: Outcome -> bool)
    ensures Matching(outcomes + [o], p) == Matching(outcomes, p) + (if p(o) then 1 else 0)
  {
    assert (outcomes + [o])[..|outcomes|] == outcomes;
  }

  function One(condition: bool): nat {
    if condition then 1 else 0
  }

  lemma ModelCallsOfOne(a: Accounts, action: Action)
    requires Permitted(action) && (action.Spend? ==> action.resource != ModelCalls)
    requires a.used.Some? && WithinLimits(a)
    ensures var (b, o) := Perform(a, action);
            b.used.Some? &&
            Get(b.used.value, ModelCalls) ==
            Get(a.used.value, ModelCalls) + One(HandedOver(o)) - One(ProvedUnsent(o)) + One(StartRefused(o))
  {
    assert Get(a.used.value, ModelCalls) >= 0;
  }

  /**
   The model-call counter rises by the requests handed to the provider and not
   withdrawn, plus the requests whose start the audit sink or the journal
   refused: those were charged before the refusal and are not refunded.
   */
  lemma {:induction false} ModelCallsCounted(a: Accounts, actions: seq<Action>)
    requires AllPermitted(actions) && NoDirectModelSpend(actions)
    requires a.used.Some? && WithinLimits(a)
    ensures Run(a, actions).0.used.Some?
    ensures var (b, outcomes) := Run(a, actions);
            Get(b.used.value, ModelCalls) ==
            Get(a.used.value, ModelCalls)
            + Matching(outcomes, HandedOver) - Matching(outcomes, ProvedUnsent) + Matching(outcomes, StartRefused)
  {
    if actions != [] {
      var last := |actions| - 1;
      ModelCallsCounted(a, actions[..last]);
      LimitsHold(a, actions[..last]);
      var (before, outcomes) := Run(a, actions[..last]);
      assert actions[last] in actions;
      var (after, outcome) := Perform(before, actions[last]);
      ModelCallsOfOne(before, actions[last]);
      OutcomeMatches(outcomes, outcome, HandedOver);
      OutcomeMatches(outcomes, outcome, ProvedUnsent);
      OutcomeMatches(outcomes, outcome, StartRefused);
    }
  }

  /** The guard of a start that is refused after it was charged. */
  predicate WillBeRefused(a: Accounts, t: Attempt) {
    && t.available && t.admitted && Charge(a, t.expired).Some?
    && (!t.auditStarts || (a.row.Some? && (!t.journalStarts || PendingOf(a) != map[])))
  }

  lemma RefusalIsGuarded(a: Accounts, t: Attempt)
    ensures Generated(a, t).1 == Refused <==> WillBeRefused(a, t)
  {
  }

  /** Action `k` of the run is a request that meets the guard. */
  ghost predicate RefusedAt(a: Accounts, actions: seq<Action>, k: nat)
    requires k < |actions| && AllPermitted(actions)
  {
    actions[k].Request? && WillBeRefused(Before(a, actions, k), actions[k].attempt)
  }

  /** The outcome of action `k` is decided when it is its turn. */
  lemma {:induction false} OutcomeOf(a: Accounts, actions: seq<Action>, k: nat)
    requires AllPermitted(actions) && k < |actions|
    ensures Permitted(actions[k])
    ensures Run(a, actions).1[k] == Perform(Before(a, actions, k), actions[k]).1
    decreases |actions|
  {
    PrefixesPermitted(actions, k);
    assert actions[k] in actions;
    var last := |actions| - 1;
    if k < last {
      PrefixesPermitted(actions, last);
      OutcomeOf(a, actions[..last], k);
      assert actions[..last][..k] == actions[..k];
    }
  }

  /** The counter equals the requests sent exactly when no request of the run meets the guard of a refused start. */
  lemma CounterIsExactUnlessRefused(a: Accounts, actions: seq<Action>)
    requires AllPermitted(actions) && NoDirectModelSpend(actions)
    requires a.used.Some? && WithinLimits(a)
    ensures Run(a, actions).0.used.Some?
    ensures var (b, outcomes) := Run(a, actions);
            Get(b.used.value, ModelCalls) - Get(a.used.value, ModelCalls)
            == Matching(outcomes, HandedOver) - Matching(outcomes, ProvedUnsent)
            <==> forall k: nat :: k < |actions| ==> !RefusedAt(a, actions, k)
  {
    ModelCallsCounted(a, actions);
    var outcomes := Run(a, actions).1;
    NoneMatching(outcomes, StartRefused);
    forall k: nat | k < |actions|
      ensures StartRefused(outcomes[k]) <==> RefusedAt(a, actions, k)
    {
      OutcomeOf(a, actions, k);
      if actions[k].Request? {
        RefusalIsGuarded(Before(a, actions, k), actions[k].attempt);
      }
    }
    if forall k: nat :: k < |actions| ==> !RefusedAt(a, actions, k) {
      forall o | o in outcomes
        ensures !StartRefused(o)
      {
        var k :| 0 <= k < |outcomes| && outcomes[k] == o;
        assert !RefusedAt(a, actions, k);
      }
    } else {
      var k: nat :| k < |actions| && RefusedAt(a, actions, k);
      assert outcomes[k] in outcomes;
    }
  }

  lemma {:induction false} NoneMatching(outcomes: seq<Outcome>, p: Outcome -> bool)
    ensures Matching(outcomes, p) == 0 <==> forall o :: o in outcomes ==> !p(o)
  {
    if outcomes != [] {
      var last := |outcomes| - 1;
      NoneMatching(outcomes[..last], p);
      assert outcomes == outcomes[..last] + [outcomes[last]];
    }
  }

  /** A request charged and then refused by the journal is one such input. */
  lemma RefusedStartIsCharged()
    ensures exists a: Accounts, t: Attempt ::
              a.used.Some? && WithinLimits(a) && Generated(a, t).1 == Refused
              && Generated(a, t).0.used.Some?
              && Get(Generated(a, t).0.used.value, ModelCalls) == Get(a.used.value, ModelCalls) + 1
  {
    var limits := BudgetLimits(20, 3, 60, 50, 20, 3, 4, 40, 500000, 1800);
    var a := Accounts(limits, Some(map[]), Some(Row(map[7 := Llm], map[])));
    var t := Attempt(8, true, true, false, true, true, Interrupted, true, true, true, false);
    assert Consumed(limits, map[], false, ModelCalls, 1) == Ok(map[ModelCalls := 1]);
    assert 7 in a.row.value.pending;
    assert Generated(a, t) == (a.(used := Some(map[ModelCalls := 1])), Refused);
  }

  // ------------------------------------------------------- token overshoot

  function Tokens(a: Accounts): int
    requires a.used.Some?
  {
    Get(a.used.value, TotalTokens)
  }

  /** Once the token total reaches its limit, nothing is charged and no request is sent. */
  lemma {:induction false} ExhaustedTokensBlock(a: Accounts, actions: seq<Action>)
    requires AllPermitted(actions)
    requires a.used.Some? && Tokens(a) >= a.limits.totalTokens
    ensures Run(a, actions).0.used == a.used && Run(a, actions).0.limits == a.limits
    ensures forall o :: o in Run(a, actions).1 ==> o == Denied || o == Requested(Declined) || o.Operated?
  {
    if actions != [] {
      var last := |actions| - 1;
      ExhaustedTokensBlock(a, actions[..last]);
      assert actions[last] in actions;
    }
  }

  /** The one action that can take the token total to or past its limit. */
  lemma CrossingStep(a: Accounts, action: Action)
    requires Permitted(action) && WithinLimits(a)
    requires a.used.Some? && Tokens(a) < a.limits.totalTokens
    ensures var (b, o) := Perform(a, action);
            b.used.Some? && b.limits == a.limits &&
            (Tokens(b) >= a.limits.totalTokens ==>
               if o.Requested? then
                 o.receipt.Received? &&
                 Tokens(b) == if o.receipt.usage.None? then a.limits.totalTokens
                              else Tokens(a) + Max(0, o.receipt.usage.value.totalTokens)
               else Tokens(b) == a.limits.totalTokens && o == Granted(TotalTokens, action.amount))
  {
  }

  /**
   The token total overshoots by at most one response. If a run ends at or past
   the limit, there is exactly one crossing action: before it the total was
   below the limit, and after it no charge is granted and no request is sent.
   */
  lemma {:induction false} OvershootIsOneResponse(a: Accounts, actions: seq<Action>) returns (k: nat)
    requires AllPermitted(actions) && WithinLimits(a)
    requires a.used.Some? && Tokens(a) < a.limits.totalTokens
    requires Run(a, actions).0.used.Some? && Tokens(Run(a, actions).0) >= a.limits.totalTokens
    ensures k < |actions| && AllPermitted(actions[..k])
    ensures var (final, outcomes) := Run(a, actions);
            var before := Run(a, actions[..k]).0;
            && before.used.Some? && Tokens(before) < a.limits.totalTokens
            && (if outcomes[k].Requested? then
                  outcomes[k].receipt.Received? &&
                  Tokens(final) == if outcomes[k].receipt.usage.None? then a.limits.totalTokens
                                   else Tokens(before) + Max(0, outcomes[k].receipt.usage.value.totalTokens)
                else Tokens(final) == a.limits.totalTokens)
            && forall i :: k < i < |actions| ==>
                 outcomes[i] == Denied || outcomes[i] == Requested(Declined) || outcomes[i].Operated?
  {
    var last := |actions| - 1;
    var prefix := actions[..last];
    assert actions[last] in actions;
    LimitsHold(a, prefix);
    var before := Run(a, prefix).0;
    if Tokens(before) < a.limits.totalTokens {
      k := last;
      CrossingStep(before, actions[last]);
    } else {
      k := OvershootIsOneResponse(a, prefix);
      assert prefix[..k] == actions[..k];
      ExhaustedTokensBlock(before, [actions[last]]);
      assert Run(before, [actions[last]]).1 == [Perform(before, actions[last]).1] by {
        assert [actions[last]][..0] == [];
      }
      assert Perform(before, actions[last]).1 in Run(before, [actions[last]]).1;
    }
  }

  // ------------------------------------------------------ pending outcomes

  /** A response whose every account was written, or a proof that nothing was sent. */
  predicate Settled(a: Accounts, t: Attempt, receipt: Receipt) {
    match receipt
    case Declined => true
    case Refused => true
    case Unsent => t.journalEnds
    case Lost => false
    case Received(usage) => t.analytics && t.journalEnds && (usage.Some? || a.used.None?)
  }

  /**
   The pending set returns to its prior value exactly when the request is
   settled; otherwise it gains this operation and no other.
   */
  lemma PendingExactlyWhenUnsettled(a: Accounts, t: Attempt)
    requires a.row.Some?
    ensures var (b, receipt) := Generated(a, t);
            PendingOf(b) == if Settled(a, t, receipt) then PendingOf(a)
                            else PendingOf(a)[t.id := Llm]
    ensures !Settled(a, t, Generated(a, t).1) ==> PendingOf(a) == map[]
  {
    var (b, receipt) := Generated(a, t);
    var reserved := PendingOf(a)[t.id := Llm];
    if PendingOf(a) == map[] {
      assert t.id in reserved && reserved[t.id] == Llm;
      assert reserved - {t.id} == PendingOf(a);
    }
  }

  /** The same for any other operation: it stays pending exactly when it started and did not close. */
  lemma PendingExactlyWhenUncertain(a: Accounts, op: Operation)
    requires a.row.Some?
    ensures var (b, conduct) := Conducted(a, op);
            PendingOf(b) == if conduct == Uncertain then PendingOf(a)[op.id := OtherCall(op.name)]
                            else PendingOf(a)
    ensures Conducted(a, op).1 == Unstarted <==> !op.auditStarts || !op.journalStarts || PendingOf(a) != map[]
    ensures Conducted(a, op).1 == Closed ==> op.completes && op.journalEnds
  {
    var started := PendingOf(a)[op.id := OtherCall(op.name)];
    if PendingOf(a) == map[] {
      assert op.id in started && started - {op.id} == PendingOf(a);
    }
  }

  /** An uncertain operation stops every later request and every other operation before it starts. */
  lemma {:induction false} UncertaintyBlocksDispatch(a: Accounts, actions: seq<Action>)
    requires AllPermitted(actions)
    requires a.row.Some? && PendingOf(a) != map[]
    ensures Run(a, actions).0.row.Some?
    ensures PendingOf(Run(a, actions).0) == PendingOf(a)
    ensures forall o :: o in Run(a, actions).1 ==>
              (o.Requested? ==> !Dispatched(o.receipt)) && (o.Operated? ==> o.conduct == Unstarted)
  {
    if actions != [] {
      var last := |actions| - 1;
      UncertaintyBlocksDispatch(a, actions[..last]);
      assert actions[last] in actions;
    }
  }

  /** Over a whole run from a clean journal at most one operation is ever left pending. */
  lemma {:induction false} AtMostOneUncertain(a: Accounts, actions: seq<Action>)
    requires AllPermitted(actions)
    requires a.row.Some? && PendingOf(a) == map[]
    ensures |PendingOf(Run(a, actions).0)| <= 1
    ensures Run(a, actions).0.row.Some?
  {
    if actions != [] {
      var last := |actions| - 1;
      AtMostOneUncertain(a, actions[..last]);
      assert actions[last] in actions;
      var before := Run(a, actions[..last]).0;
      match actions[last]
      case Spend(_, _, _) =>
      case External(op) =>
        PendingExactlyWhenUncertain(before, op);
        assert PendingOf(before) == map[] ==> PendingOf(before)[op.id := OtherCall(op.name)] == map[op.id := OtherCall(op.name)];
      case Request(t) =>
        PendingExactlyWhenUnsettled(before, t);
        assert PendingOf(before) == map[] ==> PendingOf(before)[t.id := Llm] == map[t.id := Llm];
    }
  }

  // ---------------------------------------------------------- saved usage

  /** A write keeps every saved amount exactly when the worker counts each resource that has one. */
  lemma MergeKeepsSavedExactlyWhen(used: Used, saved: Used)
    ensures (forall r :: Get(saved, r) <= Get(Merged(used, saved), r))
            <==> forall r :: r in saved && saved[r] > 0 ==> r in used
  {
    forall r
      ensures Get(saved, r) <= Get(Merged(used, saved), r) <==> (r in saved && saved[r] > 0 ==> r in used)
    {
    }
  }

  /** A worker that does not count a saved resource loses it. */
  lemma UncountedIsLost()
    ensures Finished(Row(map[1 := Llm], map[Steps := 5]), 1, Llm, map[]) == Some(Row(map[], map[]))
  {
    var row := Row(map[1 := Llm], map[Steps := 5]);
    assert row.pending - {1} == map[];
    assert Merged(map[], row.usage) == map[];
  }

  /** The worker counts every resource with a saved amount, as it does when it resumes from them. */
  ghost predicate Counts(a: Accounts) {
    a.row.Some? && a.used.Some? && forall r :: r in a.row.value.usage ==> r in a.used.value
  }

  /** Nothing saved in `a` is lost in `b`, but for `lost` model calls. */
  ghost predicate KeepsSaved(a: Accounts, b: Accounts, lost: nat)
    requires a.row.Some? && b.row.Some?
  {
    forall r ::
      Get(a.row.value.usage, r) - (if r == ModelCalls then lost else 0) <= Get(b.row.value.usage, r)
  }

  lemma StepKeepsSaved(a: Accounts, action: Action)
    requires Permitted(action) && Counts(a)
    ensures var (b, o) := Perform(a, action);
            Counts(b) && KeepsSaved(a, b, One(ProvedUnsent(o)))
  {
    var (b, o) := Perform(a, action);
    match action
    case Spend(r, amount, expired) =>
    case External(op) =>
    case Request(t) => RequestKeepsSaved(a, t);
  }

  lemma RequestKeepsSaved(a: Accounts, t: Attempt)
    requires Counts(a)
    ensures var (b, receipt) := Generated(a, t);
            Counts(b) && KeepsSaved(a, b, One(receipt.Unsent?))
  {
    var charged := Charge(a, t.expired);
    if t.available && t.admitted && charged.Some? {
      assert Counts(charged.value) && charged.value.row == a.row;
      var reserved := Reserve(charged.value, t);
      if reserved.Some? {
        assert Counts(reserved.value) && KeepsSaved(a, reserved.value, 0);
        hide Charge, Reserve;
        SettlingKeepsSaved(a, reserved.value, t);
      }
    }
  }

  lemma SettlingKeepsSaved(a: Accounts, reserved: Accounts, t: Attempt)
    requires Counts(a) && Counts(reserved) && KeepsSaved(a, reserved, 0)
    ensures Counts(Unsend(reserved, t)) && KeepsSaved(a, Unsend(reserved, t), 1)
    ensures forall usage :: Counts(Respond(reserved, t, usage)) && KeepsSaved(a, Respond(reserved, t, usage), 0)
  {
  }

  /**
   From then on no saved amount ever falls, over every run, except that each
   request proved unsent may give back its one model call.
   */
  lemma {:induction false} SavedNeverFalls(a: Accounts, actions: seq<Action>)
    requires AllPermitted(actions) && Counts(a)
    ensures var (b, outcomes) := Run(a, actions);
            Counts(b) && KeepsSaved(a, b, Matching(outcomes, ProvedUnsent))
  {
    if actions != [] {
      var last := |actions| - 1;
      SavedNeverFalls(a, actions[..last]);
      var (before, outcomes) := Run(a, actions[..last]);
      assert actions[last] in actions;
      StepKeepsSaved(before, actions[last]);
      OutcomeMatches(outcomes, Perform(before, actions[last]).1, ProvedUnsent);
      hide Perform, Counts;
    }
  }

  /** The journal never claims more than the worker used. */
  ghost predicate SavedWithinUsed(a: Accounts) {
    a.row.Some? && a.used.Some? ==>
      forall r :: Get(a.row.value.usage, r) <= Get(a.used.value, r)
  }

  /** After a response closed its journal entry, the saved usage is the worker's usage. */
  ghost predicate SavedIsUsed(a: Accounts) {
    a.row.Some? && a.used.Some? ==>
      forall r :: Get(a.row.value.usage, r) == Get(a.used.value, r)
  }

  lemma MergedIsUsed(used: Used, saved: Used)
    requires NonNegative(used)
    requires forall r :: Get(saved, r) <= Get(used, r)
    ensures forall r :: Get(Merged(used, saved), r) == Get(used, r)
  {
    forall r
      ensures Get(Merged(used, saved), r) == Get(used, r)
    {
      assert Get(saved, r) <= Get(used, r);
    }
  }

  lemma ReservationSaves(a: Accounts, t: Attempt)
    requires WithinLimits(a) && SavedWithinUsed(a) && a.used.Some? && a.row.Some?
    requires Charge(a, t.expired).Some? && Reserve(Charge(a, t.expired).value, t).Some?
    ensures var reserved := Reserve(Charge(a, t.expired).value, t).value;
            reserved.used == Charge(a, t.expired).value.used && SavedIsUsed(reserved)
            && NonNegative(reserved.used.value)
            && reserved.row.value.pending == map[t.id := Llm]
            && Get(reserved.used.value, ModelCalls) >= 1
  {
    var charged := Charge(a, t.expired).value;
    var used := charged.used.value;
    assert Get(a.used.value, ModelCalls) >= 0;
    forall r
      ensures Get(used, r) >= 0 && Get(a.row.value.usage, r) <= Get(used, r)
    {
      assert Get(a.used.value, r) >= 0;
      assert Get(a.row.value.usage, r) <= Get(a.used.value, r);
    }
    MergedIsUsed(used, a.row.value.usage);
    assert a.row.value.pending[t.id := Llm] == map[t.id := Llm];
  }

  lemma AccountingRaises(limits: BudgetLimits, used: Used, usage: Option<Usage>)
    requires NonNegative(used) && Get(used, TotalTokens) < limits.totalTokens
    ensures NonNegative(Accounted(limits, used, usage))
    ensures forall r :: Get(used, r) <= Get(Accounted(limits, used, usage), r)
  {
    forall r
      ensures Get(used, r) <= Get(Accounted(limits, used, usage), r)
      ensures Get(Accounted(limits, used, usage), r) >= 0
    {
      assert Get(used, r) >= 0;
    }
  }

  lemma ResponseSaves(reserved: Accounts, t: Attempt, usage: Option<Usage>)
    requires reserved.used.Some? && reserved.row.Some? && SavedIsUsed(reserved)
    requires NonNegative(reserved.used.value)
    requires Get(reserved.used.value, TotalTokens) < reserved.limits.totalTokens
    requires reserved.row.value.pending == map[t.id := Llm]
    ensures SavedWithinUsed(Respond(reserved, t, usage))
    ensures t.analytics && t.journalEnds && usage.Some? ==> SavedIsUsed(Respond(reserved, t, usage))
  {
    var used := reserved.used.value;
    var after := Accounted(reserved.limits, used, usage);
    AccountingRaises(reserved.limits, used, usage);
    forall r
      ensures Get(reserved.row.value.usage, r) <= Get(after, r)
    {
      assert Get(reserved.row.value.usage, r) == Get(used, r);
    }
    MergedIsUsed(after, reserved.row.value.usage);
    assert t.id in reserved.row.value.pending;
  }

  lemma WithdrawalSaves(reserved: Accounts, t: Attempt)
    requires reserved.used.Some? && reserved.row.Some? && SavedIsUsed(reserved)
    requires NonNegative(reserved.used.value) && Get(reserved.used.value, ModelCalls) >= 1
    requires reserved.row.value.pending == map[t.id := Llm]
    requires t.journalEnds
    ensures SavedIsUsed(Unsend(reserved, t))
  {
    var used := reserved.used.value[ModelCalls := Max(0, Get(reserved.used.value, ModelCalls) - 1)];
    var saved := reserved.row.value.usage;
    var lowered := saved[ModelCalls := Max(0, Get(saved, ModelCalls) - 1)];
    assert Get(saved, ModelCalls) == Get(reserved.used.value, ModelCalls);
    forall r
      ensures Get(used, r) >= 0 && Get(lowered, r) <= Get(used, r)
    {
      assert Get(saved, r) == Get(reserved.used.value, r);
      assert Get(reserved.used.value, r) >= 0;
    }
    MergedIsUsed(used, lowered);
    assert t.id in reserved.row.value.pending;
  }

  /**
   After a settled dispatch the journal has saved exactly the usage in memory,
   including the refund of a withdrawn request, so a restart resumes from it.
   */
  lemma SettledRequestIsSaved(a: Accounts, t: Attempt)
    requires WithinLimits(a) && SavedWithinUsed(a) && a.used.Some? && a.row.Some?
    requires Dispatched(Generated(a, t).1) && Settled(a, t, Generated(a, t).1)
    ensures SavedIsUsed(Generated(a, t).0)
  {
    ReservationSaves(a, t);
    var reserved := Reserve(Charge(a, t.expired).value, t).value;
    assert Get(reserved.used.value, TotalTokens) == Get(a.used.value, TotalTokens);
    match t.outcome
    case RejectedLocally => WithdrawalSaves(reserved, t);
    case Interrupted =>
    case Completed(usage) => ResponseSaves(reserved, t, usage);
    case Unusable(usage) => ResponseSaves(reserved, t, usage);
  }

  lemma SpendingKeepsSaved(a: Accounts, action: Action)
    requires Permitted(action) && action.Spend?
    requires SavedWithinUsed(a) && a.used.Some? && a.row.Some?
    ensures SavedWithinUsed(Perform(a, action).0)
  {
    var b := Perform(a, action).0;
    forall r
      ensures Get(b.row.value.usage, r) <= Get(b.used.value, r)
    {
      assert Get(a.row.value.usage, r) <= Get(a.used.value, r);
    }
  }

  /** The guard of a withdrawal that is not recorded: a dispatched request is proved unsent while the journal is away. */
  predicate WithdrawalLost(a: Accounts, t: Attempt) {
    && t.available && t.admitted && Charge(a, t.expired).Some? && !WillBeRefused(a, t)
    && t.outcome.RejectedLocally? && !t.journalEnds && a.row.Some?
  }

  /** The journal claims one model call too many, and the operation that caused it is pending. */
  ghost predicate OverstatesOneCall(a: Accounts) {
    && a.row.Some? && a.used.Some? && PendingOf(a) != map[] && ModelCalls in a.used.value
    && Get(a.row.value.usage, ModelCalls) == Get(a.used.value, ModelCalls) + 1
    && forall r :: r != ModelCalls ==> Get(a.row.value.usage, r) <= Get(a.used.value, r)
  }

  /** One request makes the journal overstate exactly when its withdrawal is lost, and then by one model call. */
  lemma RequestOverstatesExactlyWhen(a: Accounts, t: Attempt)
    requires WithinLimits(a) && SavedWithinUsed(a) && a.used.Some? && a.row.Some?
    ensures if WithdrawalLost(a, t) then OverstatesOneCall(Generated(a, t).0)
            else SavedWithinUsed(Generated(a, t).0)
  {
    var (b, receipt) := Generated(a, t);
    if Dispatched(receipt) {
      ReservationSaves(a, t);
      var reserved := Reserve(Charge(a, t.expired).value, t).value;
      assert Get(reserved.used.value, TotalTokens) == Get(a.used.value, TotalTokens);
      match t.outcome
      case RejectedLocally =>
        if t.journalEnds { WithdrawalSaves(reserved, t); } else { UnrecordedWithdrawal(reserved, t); }
      case Interrupted =>
      case Completed(usage) => ResponseSaves(reserved, t, usage);
      case Unusable(usage) => ResponseSaves(reserved, t, usage);
    } else if receipt.Refused? {
      SpendingKeepsSaved(a, Spend(ModelCalls, 1, t.expired));
    } else {
      MergedIsUsed(a.used.value, a.row.value.usage);
    }
  }

  lemma UnrecordedWithdrawal(reserved: Accounts, t: Attempt)
    requires reserved.used.Some? && reserved.row.Some? && SavedIsUsed(reserved)
    requires NonNegative(reserved.used.value) && Get(reserved.used.value, ModelCalls) >= 1
    requires reserved.row.value.pending == map[t.id := Llm] && !t.journalEnds
    ensures OverstatesOneCall(Unsend(reserved, t))
  {
    var b := Unsend(reserved, t);
    assert t.id in PendingOf(b);
    forall r | r != ModelCalls
      ensures Get(b.row.value.usage, r) <= Get(b.used.value, r)
    {
      assert Get(reserved.row.value.usage, r) == Get(reserved.used.value, r);
    }
    assert Get(reserved.row.value.usage, ModelCalls) == Get(reserved.used.value, ModelCalls);
  }

  /** A concrete such request: saved one model call, used none. */
  lemma LostWithdrawalOverstates()
    ensures exists a: Accounts, t: Attempt ::
              WithinLimits(a) && SavedWithinUsed(a) && a.used.Some? && a.row.Some?
              && WithdrawalLost(a, t) && !SavedWithinUsed(Generated(a, t).0)
  {
    var limits := BudgetLimits(20, 3, 60, 50, 20, 3, 4, 40, 500000, 1800);
    var a := Accounts(limits, Some(map[]), Some(Row(map[], map[])));
    var t := Attempt(8, true, true, false, true, true, RejectedLocally, false, true, true, false);
    assert Consumed(limits, map[], false, ModelCalls, 1) == Ok(map[ModelCalls := 1]);
    RequestOverstatesExactlyWhen(a, t);
    var b := Generated(a, t).0;
    assert !(Get(b.row.value.usage, ModelCalls) <= Get(b.used.value, ModelCalls));
  }

  /** An action that is granted a model call. */
  predicate ChargesCall(a: Accounts, action: Action) {
    match action
    case Request(t) => t.available && t.admitted && Charge(a, t.expired).Some?
    case Spend(r, amount, expired) =>
      r == ModelCalls && amount > 0 && a.used.Some? && Consumed(a.limits, a.used.value, expired, r, amount).Ok?
    case External(_) => false
  }

  predicate LosesWithdrawal(a: Accounts, action: Action) {
    action.Request? && WithdrawalLost(a, action.attempt)
  }

  /** From an accurate journal, only a lost withdrawal overstates. */
  lemma SavedStep(a: Accounts, action: Action)
    requires Permitted(action) && WithinLimits(a) && SavedWithinUsed(a) && a.used.Some? && a.row.Some?
    ensures if LosesWithdrawal(a, action) then OverstatesOneCall(Perform(a, action).0)
            else SavedWithinUsed(Perform(a, action).0)
  {
    hide Generated;
    match action
    case Request(t) => RequestOverstatesExactlyWhen(a, t);
    case Spend(_, _, _) => SpendingKeepsSaved(a, action);
    case External(op) => MergedIsUsed(a.used.value, a.row.value.usage);
  }

  lemma OverstatedRequest(a: Accounts, t: Attempt)
    requires WithinLimits(a) && OverstatesOneCall(a)
    ensures if ChargesCall(a, Request(t)) then SavedWithinUsed(Generated(a, t).0)
            else OverstatesOneCall(Generated(a, t).0)
    ensures !WithdrawalLost(a, t)
  {
    var b := Generated(a, t).0;
    forall r
      ensures r != ModelCalls ==> Get(b.row.value.usage, r) <= Get(b.used.value, r)
    {
      assert Get(a.used.value, r) >= 0;
      assert r != ModelCalls ==> Get(a.row.value.usage, r) <= Get(a.used.value, r);
    }
  }

  lemma OverstatedSpend(a: Accounts, r: Resource, amount: nat, expired: bool)
    requires Limited(r) && OverstatesOneCall(a)
    ensures var b := Perform(a, Spend(r, amount, expired)).0;
            if ChargesCall(a, Spend(r, amount, expired)) then SavedWithinUsed(b) else OverstatesOneCall(b)
  {
    var b := Perform(a, Spend(r, amount, expired)).0;
    forall q | q != ModelCalls
      ensures Get(b.row.value.usage, q) <= Get(b.used.value, q)
    {
      assert Get(a.row.value.usage, q) <= Get(a.used.value, q);
    }
  }

  /** The overstatement lasts until the next model call that is charged; that one is refused, and evens it out. */
  lemma OverstatedStep(a: Accounts, action: Action)
    requires Permitted(action) && WithinLimits(a) && OverstatesOneCall(a)
    ensures if ChargesCall(a, action) then SavedWithinUsed(Perform(a, action).0)
            else OverstatesOneCall(Perform(a, action).0)
    ensures !LosesWithdrawal(a, action)
  {
    hide Generated, WithdrawalLost, ChargesCall, WithinLimits;
    match action
    case Request(t) => OverstatedRequest(a, t);
    case Spend(r, amount, expired) => OverstatedSpend(a, r, amount, expired);
    case External(op) => OverstatedOperation(a, op);
  }

  lemma OverstatedOperation(a: Accounts, op: Operation)
    requires OverstatesOneCall(a)
    ensures Conducted(a, op).0 == a && !ChargesCall(a, External(op))
  {
  }

  lemma BeforeInPrefix(a: Accounts, actions: seq<Action>, last: nat, k: nat)
    requires AllPermitted(actions) && k <= last <= |actions|
    ensures AllPermitted(actions[..last])
    ensures Before(a, actions[..last], k) == Before(a, actions, k)
  {
    PrefixesPermitted(actions, last);
    assert actions[..last][..k] == actions[..k];
  }

  /** No action between `k` and `n` is granted a model call. */
  ghost predicate NoCallBetween(a: Accounts, actions: seq<Action>, k: nat, n: nat)
    requires AllPermitted(actions) && n <= |actions|
  {
    forall i: nat :: k < i < n ==> !ChargesCall(Before(a, actions, i), actions[i])
  }

  /** Action `k` loses a withdrawal, and no later action of the run is granted a model call. */
  ghost predicate OverstatedSince(a: Accounts, actions: seq<Action>, k: nat)
    requires AllPermitted(actions) && k < |actions|
  {
    LosesWithdrawal(Before(a, actions, k), actions[k]) && NoCallBetween(a, actions, k, |actions|)
  }

  lemma NoCallInPrefix(a: Accounts, actions: seq<Action>, k: nat, last: nat)
    requires AllPermitted(actions) && last <= |actions|
    ensures AllPermitted(actions[..last])
    ensures NoCallBetween(a, actions[..last], k, last) <==> NoCallBetween(a, actions, k, last)
  {
    PrefixesPermitted(actions, last);
    forall i: nat | i < last
      ensures Before(a, actions[..last], i) == Before(a, actions, i)
    {
      BeforeInPrefix(a, actions, last, i);
    }
    hide Before, ChargesCall;
    forall i: nat | i < last
      ensures ChargesCall(Before(a, actions[..last], i), actions[..last][i])
              <==> ChargesCall(Before(a, actions, i), actions[i])
    {
    }
  }

  ghost predicate Overstated(a: Accounts, actions: seq<Action>)
    requires AllPermitted(actions)
  {
    exists k: nat :: k < |actions| && OverstatedSince(a, actions, k)
  }

  lemma OverstatedSinceStep(a: Accounts, actions: seq<Action>, k: nat)
    requires AllPermitted(actions) && k < |actions|
    ensures var last := |actions| - 1;
            AllPermitted(actions[..last]) &&
            (OverstatedSince(a, actions, k) <==>
              if k == last then LosesWithdrawal(Before(a, actions, last), actions[last])
              else OverstatedSince(a, actions[..last], k) && !ChargesCall(Before(a, actions, last), actions[last]))
  {
    var last := |actions| - 1;
    NoCallInPrefix(a, actions, k, last);
    if k < last {
      BeforeInPrefix(a, actions, last, k);
    }
    hide Before, LosesWithdrawal, ChargesCall;
    assert k < last ==> (NoCallBetween(a, actions, k, |actions|) <==>
             NoCallBetween(a, actions, k, last) && !ChargesCall(Before(a, actions, last), actions[last]));
  }

  /** Whether the run has overstated since, by whether it had before the last action. */
  lemma LastStep(a: Accounts, actions: seq<Action>)
    requires AllPermitted(actions) && actions != []
    ensures var last := |actions| - 1;
            var before := Before(a, actions, last);
            AllPermitted(actions[..last]) &&
            (Overstated(a, actions) <==>
              LosesWithdrawal(before, actions[last])
              || (Overstated(a, actions[..last]) && !ChargesCall(before, actions[last])))
  {
    var last := |actions| - 1;
    PrefixesPermitted(actions, last);
    forall k: nat | k <= last
      ensures OverstatedSince(a, actions, k) <==>
              if k == last then LosesWithdrawal(Before(a, actions, last), actions[last])
              else OverstatedSince(a, actions[..last], k) && !ChargesCall(Before(a, actions, last), actions[last])
    {
      OverstatedSinceStep(a, actions, k);
    }
    hide OverstatedSince, LosesWithdrawal, ChargesCall, Before;
    if Overstated(a, actions[..last]) && !ChargesCall(Before(a, actions, last), actions[last]) {
      var k: nat :| k < last && OverstatedSince(a, actions[..last], k);
      assert OverstatedSince(a, actions, k);
    }
    if LosesWithdrawal(Before(a, actions, last), actions[last]) {
      assert OverstatedSince(a, actions, last);
    }
  }

  lemma OverstatedIsNotWithin(b: Accounts)
    ensures OverstatesOneCall(b) ==> !SavedWithinUsed(b)
  {
    if OverstatesOneCall(b) {
      assert !(Get(b.row.value.usage, ModelCalls) <= Get(b.used.value, ModelCalls));
    }
  }

  /**
   Over any run, the saved usage overstates the usage in memory exactly when a
   withdrawal was lost and no model call has been charged since; and then by
   one model call.
   */
  lemma {:induction false} SavedOverstatesExactlyWhen(a: Accounts, actions: seq<Action>)
    requires AllPermitted(actions) && WithinLimits(a) && SavedWithinUsed(a)
    requires a.used.Some? && a.row.Some?
    ensures var b := Run(a, actions).0;
            && b.used.Some? && b.row.Some?
            && (SavedWithinUsed(b) <==> !Overstated(a, actions))
            && (!SavedWithinUsed(b) ==> OverstatesOneCall(b))
  {
    LimitsHold(a, actions);
    if actions != [] {
      var last := |actions| - 1;
      PrefixesPermitted(actions, last);
      SavedOverstatesExactlyWhen(a, actions[..last]);
      LimitsHold(a, actions[..last]);
      var before := Before(a, actions, last);
      assert actions[last] in actions;
      LastStep(a, actions);
      hide Overstated, SavedWithinUsed, OverstatesOneCall, LosesWithdrawal, ChargesCall, Perform;
      if SavedWithinUsed(before) {
        SavedStep(before, actions[last]);
      } else {
        OverstatedStep(before, actions[last]);
      }
      OverstatedIsNotWithin(Perform(before, actions[last]).0);
    }
  }

  /** In particular a run that left nothing pending has not overstated. */
  lemma SavedNeverOverstates(a: Accounts, actions: seq<Action>)
    requires AllPermitted(actions) && WithinLimits(a) && SavedWithinUsed(a)
    requires a.used.Some? && a.row.Some?
    ensures PendingOf(Run(a, actions).0) == map[] ==> SavedWithinUsed(Run(a, actions).0)
  {
    SavedOverstatesExactlyWhen(a, actions);
  }
}
