/** Exactly how requests and operations end, what they cost, and what a run of them adds up to. */
module BudgetLaws {
  import opened Prelude
  import opened Budgets
  import opened BudgetRuns

  /** A model call can be charged now. */
  predicate CallIsFree(a: Accounts, expired: bool) {
    a.used.Some? ==>
      !expired && Get(a.used.value, TotalTokens) < a.limits.totalTokens
      && Get(a.used.value, ModelCalls) < a.limits.modelCalls
  }

  /** The audit sink accepts the start, and the journal, if there is one, can take it. */
  predicate StartIsFree(a: Accounts, auditStarts: bool, journalStarts: bool) {
    auditStarts && (a.row.Some? ==> journalStarts && PendingOf(a) == map[])
  }

  /** How a request ends, by what stops it first. */
  lemma RequestsEndExactlyWhen(a: Accounts, t: Attempt)
    ensures var receipt := Generated(a, t).1;
            var asked := t.available && t.admitted && CallIsFree(a, t.expired);
            var sent := asked && StartIsFree(a, t.auditStarts, t.journalStarts);
            && (receipt == Declined <==> !asked)
            && (receipt == Refused <==> asked && !sent)
            && (receipt == Unsent <==> sent && t.outcome.RejectedLocally?)
            && (receipt == Lost <==> sent && t.outcome.Interrupted?)
            && forall usage :: receipt == Received(usage) <==>
                 sent && (t.outcome == Completed(usage) || t.outcome == Unusable(usage))
  {
  }

  /** What a request adds to one counter. */
  function Cost(limits: BudgetLimits, used: Used, receipt: Receipt, r: Resource): int {
    var call := if r == ModelCalls then 1 else 0;
    match receipt
    case Declined => 0
    case Unsent => 0
    case Refused => call
    case Lost => call
    case Received(None) => if r == TotalTokens then limits.totalTokens - Get(used, r) else call
    case Received(Some(u)) =>
      match r
      case TotalTokens => Max(0, u.totalTokens)
      case InputTokens => Max(0, u.inputTokens)
      case OutputTokens => Max(0, u.outputTokens)
      case _ => call
  }

  lemma CountersAfter(a: Accounts, t: Attempt)
    requires a.used.Some? && WithinLimits(a)
    ensures var (b, receipt) := Generated(a, t);
            var charged := a.used.value[ModelCalls := Get(a.used.value, ModelCalls) + 1];
            b.used == Some(match receipt
                           case Declined => a.used.value
                           case Unsent => a.used.value[ModelCalls := Get(a.used.value, ModelCalls)]
                           case Refused => charged
                           case Lost => charged
                           case Received(usage) => Accounted(a.limits, charged, usage))
  {
    var n := Get(a.used.value, ModelCalls);
    assert n >= 0 && Max(0, n + 1 - 1) == n;
    assert a.used.value[ModelCalls := n + 1][ModelCalls := n] == a.used.value[ModelCalls := n];
    hide WithinLimits, Accounted, Merged, Started, Finished, Withdrawn;
  }

  /**
   Every counter rises by exactly what the request cost: one call once it was
   charged, unless proved unsent; the tokens of a response, or all that are left
   if its usage is missing.
   */
  lemma RequestsCostExactly(a: Accounts, t: Attempt, r: Resource)
    requires a.used.Some? && WithinLimits(a)
    ensures var (b, receipt) := Generated(a, t);
            b.used.Some? && Get(b.used.value, r) == Get(a.used.value, r) + Cost(a.limits, a.used.value, receipt, r)
  {
    CountersAfter(a, t);
    hide Generated, WithinLimits;
  }

  /** What the caller gets: an answer or a protocol error exactly if everything after the response went well. */
  lemma RepliesExactlyWhen(a: Accounts, t: Attempt)
    requires a.used.Some? ==> WithinLimits(a)
    ensures var (b, receipt) := Generated(a, t);
            var reply := Replied(a, t);
            var recorded := t.analytics && t.auditEnds && (a.row.Some? ==> t.journalEnds);
            var open := a.used.Some? ==>
                          receipt.Received? && receipt.usage.Some? && !t.expiredAtEnd
                          && Get(a.used.value, TotalTokens) + Max(0, receipt.usage.value.totalTokens)
                             < a.limits.totalTokens;
            && (reply != Failure <==> receipt.Received? && recorded && open)
            && (reply == Answer <==> reply != Failure && t.outcome.Completed?)
  {
    if a.used.Some? {
      RequestsCostExactly(a, t, TotalTokens);
    }
  }

  /** What one write saves for a resource: the larger of what is used and what was saved before. */
  predicate Saves(used: Used, before: Row, after: Row) {
    && (forall r :: r in after.usage <==> r in used)
    && forall r :: r in used ==> after.usage[r] == Max(used[r], Get(before.usage, r))
  }

  /** A request that is not sent leaves the journal alone, but for saving usage when the preview rejects it. */
  lemma UnsentRequestsSave(a: Accounts, t: Attempt)
    requires a.row.Some? && !Dispatched(Generated(a, t).1)
    ensures var row := Generated(a, t).0.row;
            && row.Some? && row.value.pending == a.row.value.pending
            && if t.available && !t.admitted && t.journalEnds then Saves(UsedOf(a), a.row.value, row.value)
               else row == a.row
  {
  }

  /** How any other operation ends, and what it leaves in the journal. */
  lemma OperationsEndExactlyWhen(a: Accounts, op: Operation)
    ensures var (b, conduct) := Conducted(a, op);
            var started := StartIsFree(a, op.auditStarts, op.journalStarts);
            && (conduct == Unstarted <==> !started)
            && (conduct == Closed <==> started && op.completes && (a.row.Some? ==> op.journalEnds))
            && b.used == a.used && b.limits == a.limits && b.row.Some? == a.row.Some?
            && (a.row.Some? ==> if started then Saves(UsedOf(a), a.row.value, b.row.value) else b.row == a.row)
  {
  }

  // ------------------------------------------------------------ token sums

  predicate UsageMissing(o: Outcome) {
    o == Requested(Received(None))
  }

  /** The tokens that one action of a run adds. */
  function TokenCost(o: Outcome): int {
    match o
    case Requested(Received(Some(u))) => Max(0, u.totalTokens)
    case Granted(TotalTokens, amount) => amount
    case _ => 0
  }

  function TokensOf(outcomes: seq<Outcome>): int {
    if outcomes == [] then 0 else TokensOf(outcomes[..|outcomes| - 1]) + TokenCost(outcomes[|outcomes| - 1])
  }

  lemma TokensOfOne(a: Accounts, action: Action)
    requires Permitted(action) && WithinLimits(a) && a.used.Some?
    ensures var (b, o) := Perform(a, action);
            && b.used.Some? && b.limits == a.limits
            && Tokens(b) == (if UsageMissing(o) then a.limits.totalTokens else Tokens(a) + TokenCost(o))
            && (UsageMissing(o) ==> Tokens(a) < a.limits.totalTokens)
            && (Tokens(a) >= a.limits.totalTokens ==> TokenCost(o) == 0)
  {
    match action {
      case Request(t) =>
        RequestsCostExactly(a, t, TotalTokens);
        RequestsEndExactlyWhen(a, t);
      case Spend(r, amount, expired) =>
      case External(op) =>
    }
  }

  /**
   Over any run the token total is what it was plus every response and every
   grant; once a response came without usage it stands at the limit for good.
   */
  lemma {:induction false} TokensAddUp(a: Accounts, actions: seq<Action>)
    requires AllPermitted(actions) && WithinLimits(a) && a.used.Some?
    ensures var (b, outcomes) := Run(a, actions);
            && b.used.Some? && b.limits == a.limits
            && Tokens(b) == if exists o :: o in outcomes && UsageMissing(o) then a.limits.totalTokens
                            else Tokens(a) + TokensOf(outcomes)
  {
    if actions != [] {
      var last := |actions| - 1;
      PrefixesPermitted(actions, last);
      TokensAddUp(a, actions[..last]);
      LimitsHold(a, actions[..last]);
      assert actions[last] in actions;
      var (before, outcomes) := Run(a, actions[..last]);
      var o := Perform(before, actions[last]).1;
      TokensOfOne(before, actions[last]);
      hide Perform, WithinLimits;
      assert (outcomes + [o])[..|outcomes|] == outcomes;
      assert forall p :: p in outcomes + [o] <==> p in outcomes || p == o;
    }
  }
}
