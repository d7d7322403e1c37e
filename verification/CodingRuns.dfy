/** What holds over every run of the coding agent, whatever the environment does. */
module CodingRuns {
  import opened Prelude
  import opened Paths
  import opened Budgets
  import opened BudgetRuns
  import opened CodingAgents
  import W = Workspaces

  // ------------------------------------------------------------ invariant

  /** Between turns only a finished `submit_code_ready` may still be pending. */
  predicate OnlyReadyPending(s: State) {
    s.pending == [] || (|s.pending| == 1 && s.pending[0].SubmitReady?)
  }

  predicate PendingShape(c: Config, node: Node, s: State) {
    match node
    case Author => OnlyReadyPending(s) && s.handoff.None?
    case Tool =>
      && s.pending != [] && !s.pending[0].SubmitReady? && ReadyIsLast(s.pending) && s.handoff.None?
      && (c.snapshotMode ==> |s.pending| == 1 && WithinSnapshotLimits(s.pending[0]))
    case Validate => OnlyReadyPending(s)
    case Finalize => true
  }

  predicate Counters(c: Config, s: State) {
    && s.repairAttempts <= c.maxRepairs
    && s.toolCalls <= c.maxFileToolCalls
    && (c.snapshotMode ==> s.toolCalls <= EditAllowance(c))
    && s.promptRetries <= 1
    && s.filesWritten <= s.toolCalls
  }

  /** Model calls that the tool calls and repairs so far account for. */
  function Allowance(c: Config, s: State): nat {
    if c.snapshotMode then s.toolCalls + s.repairAttempts + s.promptRetries
    else 2 * (s.toolCalls + s.repairAttempts)
  }

  function ToolCallLimit(c: Config): nat {
    if c.snapshotMode then EditAllowance(c) else c.maxFileToolCalls
  }

  predicate CallsAccounted(c: Config, node: Node, s: State) {
    var slack := if c.snapshotMode then 1 else 2;
    var owed := if c.snapshotMode then 0 else s.promptRetries;
    match node
    case Author =>
      s.modelCalls <= Allowance(c, s) + (if s.toolCalls < ToolCallLimit(c) then owed else 0)
    case _ =>
      s.modelCalls <= Allowance(c, s) + (if s.toolCalls < ToolCallLimit(c) then slack else 0)
  }

  ghost predicate Invariant(c: Config, m: Machine) {
    && Counters(c, m.state)
    && (m.Running? ==> PendingShape(c, m.node, m.state) && CallsAccounted(c, m.node, m.state))
  }

  /** The bound on recorded model calls in each mode. */
  function CallBound(c: Config): nat {
    if c.snapshotMode then EditAllowance(c) + c.maxRepairs + 1
    else 2 * (c.maxFileToolCalls + c.maxRepairs)
  }

  lemma BeginInvariant(c: Config, prior: seq<Trace>, w: World)
    ensures Invariant(c, Begin(prior, w))
  {
  }

  lemma ReplyKeepsInvariant(c: Config, s: State, w: World, reply: Reply, t: Attempt, r: Response, next: World)
    requires Invariant(c, Running(Author, s, w)) && s.toolCalls < ToolCallLimit(c)
    ensures Invariant(c, Lift(AuthorUpdate(c, s, reply, t, r), next))
  {
    hide Correctable, WithinSnapshotLimits;
  }

  lemma AuthorKeepsInvariant(c: Config, s: State, w: World, t: Attempt, r: Response)
    requires Invariant(c, Running(Author, s, w))
    ensures Invariant(c, AuthorStep(c, s, w, t, r))
  {
    hide Generated, Replied, AuthorUpdate;
    if HandoffReason(c, s, w.accounts) == Ok(None) && s.toolCalls < c.maxFileToolCalls {
      ReplyKeepsInvariant(c, s, w, Replied(w.accounts, t), t, r, w.(accounts := Generated(w.accounts, t).0));
    }
  }

  lemma ToolKeepsInvariant(c: Config, s: State, w: World, t: ToolResult)
    requires Invariant(c, Running(Tool, s, w))
    ensures Invariant(c, ToolStep(c, s, w, t))
  {
    hide Spent, SandboxCharged, ToolEffect;
    assert forall i :: 0 <= i < |s.pending[1..]| ==> s.pending[1..][i] == s.pending[i + 1];
  }

  lemma ChecksKeepInvariant(c: Config, s: State, w: World, v: ValidationInput, a: Accounts, next: World)
    requires Invariant(c, Running(Validate, s, w))
    ensures Invariant(c, Lift(ChecksUpdate(c, s, v, a), next))
  {
  }

  lemma ValidateKeepsInvariant(c: Config, s: State, w: World, v: ValidationInput)
    requires Invariant(c, Running(Validate, s, w))
    ensures Invariant(c, ValidateStep(c, s, w, v))
  {
    var after := ValidateStep(c, s, w, v);
    var spent := ChecksMade(w.accounts, v).0;
    hide ChecksMade;
    ChecksKeepInvariant(c, s, w, v, spent, after.world);
    assert after.Running? ==> after == Lift(ChecksUpdate(c, s, v, spent), after.world);
    assert after.Raised? ==> after.state == s
                             || after == Lift(ChecksUpdate(c, s, v, spent), after.world);
  }

  lemma StepKeepsInvariant(c: Config, m: Machine, i: Input)
    requires Invariant(c, m)
    ensures Invariant(c, Step(c, m, i))
  {
    if !Terminal(m) {
      match m.node
      case Author => AuthorKeepsInvariant(c, m.state, m.world, i.attempt, i.response);
      case Tool => ToolKeepsInvariant(c, m.state, m.world, i.tool);
      case Validate => ValidateKeepsInvariant(c, m.state, m.world, i.validation);
    }
  }

  lemma {:induction false} ExecuteKeepsInvariant(c: Config, m: Machine, inputs: seq<Input>)
    requires Invariant(c, m)
    ensures Invariant(c, Execute(c, m, inputs))
  {
    if inputs != [] {
      ExecuteKeepsInvariant(c, m, inputs[..|inputs| - 1]);
      StepKeepsInvariant(c, Execute(c, m, inputs[..|inputs| - 1]), inputs[|inputs| - 1]);
    }
  }

  /**
   Over every run: recorded model calls, edits, repairs and protocol corrections
   stay within bounds fixed by the configuration alone.
   */
  lemma RunsAreBounded(c: Config, prior: seq<Trace>, w: World, inputs: seq<Input>)
    ensures var s := Execute(c, Begin(prior, w), inputs).state;
            && s.modelCalls <= CallBound(c)
            && s.toolCalls <= c.maxFileToolCalls
            && (c.snapshotMode ==> s.toolCalls <= 8)
            && s.repairAttempts <= c.maxRepairs
            && s.promptRetries <= 1
  {
    BeginInvariant(c, prior, w);
    CallsBounded(c, Begin(prior, w), inputs);
    ExecuteKeepsInvariant(c, Begin(prior, w), inputs);
  }

  lemma {:induction false} CallsBounded(c: Config, m: Machine, inputs: seq<Input>)
    requires Invariant(c, m) && m.state.modelCalls <= CallBound(c)
    ensures Execute(c, m, inputs).state.modelCalls <= CallBound(c)
  {
    if inputs != [] {
      var before := Execute(c, m, inputs[..|inputs| - 1]);
      CallsBounded(c, m, inputs[..|inputs| - 1]);
      ExecuteKeepsInvariant(c, m, inputs[..|inputs| - 1]);
      StepKeepsInvariant(c, before, inputs[|inputs| - 1]);
      StepCallsBounded(c, before, inputs[|inputs| - 1]);
    }
  }

  lemma StepCallsBounded(c: Config, m: Machine, i: Input)
    requires Invariant(c, m) && Invariant(c, Step(c, m, i))
    requires m.state.modelCalls <= CallBound(c)
    ensures Step(c, m, i).state.modelCalls <= CallBound(c)
  {
    hide Invariant, CallBound, AuthorStep, ToolStep, ValidateStep;
    var after := Step(c, m, i);
    if after.Running? {
      RunningCallsBounded(c, after);
    } else if !Terminal(m) {
      match m.node {
        case Author => RaisedAuthorKeepsCalls(c, m.state, m.world, i.attempt, i.response);
        case Tool => ToolRecordsNoCall(c, m.state, m.world, i.tool);
        case Validate => ValidateRecordsNoCall(c, m.state, m.world, i.validation);
      }
    }
  }

  lemma RunningCallsBounded(c: Config, m: Machine)
    requires Invariant(c, m) && m.Running?
    ensures m.state.modelCalls <= CallBound(c)
  {
    if c.snapshotMode {
      assert m.state.toolCalls + (if m.state.toolCalls < EditAllowance(c) then 1 else 0) <= EditAllowance(c);
    }
  }

  lemma RaisedAuthorKeepsCalls(c: Config, s: State, w: World, t: Attempt, r: Response)
    requires AuthorStep(c, s, w, t, r).Raised?
    ensures AuthorStep(c, s, w, t, r).state.modelCalls == s.modelCalls
  {
    hide Generated, Replied, HandoffReason, Correctable, Rejected;
  }

  lemma ToolRecordsNoCall(c: Config, s: State, w: World, t: ToolResult)
    ensures ToolStep(c, s, w, t).state.modelCalls == s.modelCalls
  {
    hide Spent, SandboxCharged, ToolEffect;
  }

  lemma ValidateRecordsNoCall(c: Config, s: State, w: World, v: ValidationInput)
    ensures ValidateStep(c, s, w, v).state.modelCalls == s.modelCalls
  {
    hide ChecksMade, Spent, ValidationOk, W.Snapshot;
  }

  // ---------------------------------------------------------- termination

  function Rank(m: Machine): nat
    requires m.Running?
  {
    if m.node != Author then 0 else if m.state.promptRetries == 0 then 2 else 1
  }

  /** More tool calls than `repairs` further repairs can make. */
  function RepairRoom(c: Config, repairs: nat): nat {
    repairs * (c.maxFileToolCalls + 1)
  }

  /** Lexicographic in repairs left, tool calls left and the turn, as one number. */
  function Measure(c: Config, m: Machine): nat
    requires Counters(c, m.state)
  {
    if Terminal(m) then 0
    else 1 + Rank(m)
         + 3 * (RepairRoom(c, c.maxRepairs - m.state.repairAttempts)
                + (c.maxFileToolCalls - m.state.toolCalls))
  }

  lemma OneRepairLess(c: Config, left: nat)
    requires left > 0
    ensures RepairRoom(c, left) == RepairRoom(c, left - 1) + c.maxFileToolCalls + 1
  {
  }

  /** One step ends the run, uses up the turn, makes a tool call, or starts a repair. */
  predicate Advances(m: Machine, after: Machine)
    requires m.Running?
  {
    || Terminal(after)
    || (after.state.repairAttempts == m.state.repairAttempts
        && after.state.toolCalls == m.state.toolCalls && Rank(after) < Rank(m))
    || (after.state.repairAttempts == m.state.repairAttempts
        && after.state.toolCalls == m.state.toolCalls + 1)
    || (after.state.repairAttempts == m.state.repairAttempts + 1
        && after.state.toolCalls == m.state.toolCalls)
  }

  lemma AuthorAdvances(c: Config, s: State, w: World, t: Attempt, r: Response)
    requires Invariant(c, Running(Author, s, w))
    ensures Advances(Running(Author, s, w), AuthorStep(c, s, w, t, r))
  {
  }

  lemma ToolAdvances(c: Config, s: State, w: World, t: ToolResult)
    ensures Advances(Running(Tool, s, w), ToolStep(c, s, w, t))
  {
  }

  lemma ValidateAdvances(c: Config, s: State, w: World, v: ValidationInput)
    ensures Advances(Running(Validate, s, w), ValidateStep(c, s, w, v))
  {
    hide ChecksMade, Spent, ValidationOk, W.Snapshot, CompletionTrigger;
  }

  lemma MeasureDrops(c: Config, m: Machine, after: Machine)
    requires !Terminal(m) && Advances(m, after)
    requires Counters(c, m.state) && Counters(c, after.state)
    ensures Measure(c, after) < Measure(c, m)
  {
    hide RepairRoom;
    var left := c.maxRepairs - m.state.repairAttempts;
    if !Terminal(after) && after.state.repairAttempts == m.state.repairAttempts + 1 {
      OneRepairLess(c, left);
      assert c.maxRepairs - after.state.repairAttempts == left - 1;
    }
  }

  lemma StepDecreases(c: Config, m: Machine, i: Input)
    requires Invariant(c, m) && !Terminal(m)
    ensures Invariant(c, Step(c, m, i))
    ensures Measure(c, Step(c, m, i)) < Measure(c, m)
  {
    StepKeepsInvariant(c, m, i);
    match m.node {
      case Author => AuthorAdvances(c, m.state, m.world, i.attempt, i.response);
      case Tool => ToolAdvances(c, m.state, m.world, i.tool);
      case Validate => ValidateAdvances(c, m.state, m.world, i.validation);
    }
    MeasureDrops(c, m, Step(c, m, i));
  }

  lemma {:induction false} MeasureAfter(c: Config, m: Machine, inputs: seq<Input>)
    requires Invariant(c, m)
    ensures Invariant(c, Execute(c, m, inputs))
    ensures Terminal(Execute(c, m, inputs))
            || Measure(c, Execute(c, m, inputs)) + |inputs| <= Measure(c, m)
  {
    ExecuteKeepsInvariant(c, m, inputs);
    if inputs != [] {
      var prefix := inputs[..|inputs| - 1];
      MeasureAfter(c, m, prefix);
      if !Terminal(Execute(c, m, prefix)) {
        StepDecreases(c, Execute(c, m, prefix), inputs[|inputs| - 1]);
      }
    }
  }

  /** Every run ends after a number of steps that the configuration fixes in advance. */
  lemma RunsTerminate(c: Config, prior: seq<Trace>, w: World, inputs: seq<Input>)
    requires |inputs| >= 3 + 3 * (c.maxRepairs * (c.maxFileToolCalls + 1) + c.maxFileToolCalls)
    ensures Terminal(Execute(c, Begin(prior, w), inputs))
  {
    var start := Begin(prior, w);
    BeginInvariant(c, prior, w);
    assert Measure(c, start) == 3 + 3 * (c.maxRepairs * (c.maxFileToolCalls + 1) + c.maxFileToolCalls);
    MeasureAfter(c, start, inputs);
    RunningIsPositive(c, Execute(c, start, inputs));
  }

  lemma RunningIsPositive(c: Config, m: Machine)
    requires Invariant(c, m)
    ensures Terminal(m) || Measure(c, m) > 0
  {
    hide RepairRoom;
  }

  // --------------------------------------------------------- shared calls

  /** The shared counter moves only by this agent's own completions. */
  ghost predicate CallsMatch(m: Machine, start: Accounts) {
    && WithinLimits(m.world.accounts)
    && m.world.accounts.limits == start.limits
    && m.world.accounts.used.Some? == start.used.Some?
    && (start.used.Some? && m.Running? ==>
          Get(m.world.accounts.used.value, ModelCalls)
          == Get(start.used.value, ModelCalls) + m.state.modelCalls)
  }

  function UsedCalls(a: Accounts): int {
    if a.used.Some? then Get(a.used.value, ModelCalls) else 0
  }

  lemma SpentKeeps(a: Accounts, r: Resource, expired: bool)
    requires WithinLimits(a) && Limited(r) && r != ModelCalls
    ensures match Spent(a, r, expired)
            case None => true
            case Some(b) => WithinLimits(b) && b.limits == a.limits && b.used.Some? == a.used.Some?
                            && UsedCalls(b) == UsedCalls(a)
  {
    PerformKeepsLimits(a, Spend(r, 1, expired));
  }

  lemma SandboxKeeps(a: Accounts, expired: bool)
    requires WithinLimits(a)
    ensures var b := SandboxCharged(a, expired).0;
            WithinLimits(b) && b.limits == a.limits && b.used.Some? == a.used.Some?
            && UsedCalls(b) == UsedCalls(a)
  {
    SpentKeeps(a, SandboxRuns, expired);
    if Spent(a, SandboxRuns, expired).Some? {
      SpentKeeps(Spent(a, SandboxRuns, expired).value, ToolCalls, expired);
    }
  }

  lemma GeneratedKeeps(a: Accounts, t: Attempt)
    requires WithinLimits(a)
    ensures var b := Generated(a, t).0;
            && WithinLimits(b) && b.limits == a.limits && b.used.Some? == a.used.Some?
            && UsedCalls(a) <= UsedCalls(b) <= UsedCalls(a) + 1
            && (Replied(a, t) != Failure && a.used.Some? ==> UsedCalls(b) == UsedCalls(a) + 1)
  {
    PerformKeepsLimits(a, Request(t));
    if a.used.Some? {
      ModelCallsOfOne(a, Request(t));
    }
    if Replied(a, t) != Failure {
      ResultsAreSettled(a, t);
    }
  }

  /** The reserve still holds, or the run began with fewer calls than the reserve. */
  predicate ReserveKept(c: Config, a: Accounts, start: Accounts) {
    c.snapshotMode && a.used.Some? ==>
      UsedCalls(a) <= Max(UsedCalls(start), a.limits.modelCalls - c.modelCallReserve)
  }

  lemma AuthorKeepsCalls(c: Config, s: State, w: World, t: Attempt, r: Response, start: Accounts)
    requires CallsMatch(Running(Author, s, w), start) && ReserveKept(c, w.accounts, start)
    ensures CallsMatch(AuthorStep(c, s, w, t, r), start)
    ensures ReserveKept(c, AuthorStep(c, s, w, t, r).world.accounts, start)
  {
    hide Generated, Replied, WithinLimits;
    GeneratedKeeps(w.accounts, t);
  }

  lemma ToolKeepsCalls(c: Config, s: State, w: World, t: ToolResult, start: Accounts)
    requires CallsMatch(Running(Tool, s, w), start) && ReserveKept(c, w.accounts, start)
    ensures CallsMatch(ToolStep(c, s, w, t), start)
    ensures ReserveKept(c, ToolStep(c, s, w, t).world.accounts, start)
  {
    hide Spent, SandboxCharged, ToolEffect, WithinLimits;
    SandboxKeeps(w.accounts, t.expired);
    SpentKeeps(w.accounts, ToolCalls, t.expired);
  }

  /** A validation step charges the checks and perhaps a repair, and records no model call. */
  lemma ValidateCharges(c: Config, s: State, w: World, v: ValidationInput)
    ensures var after := ValidateStep(c, s, w, v);
            var spent := ChecksMade(w.accounts, v).0;
            var repaired := Spent(spent, CodeRepairs, v.expired);
            && after.state.modelCalls == s.modelCalls
            && (after.world.accounts == w.accounts || after.world.accounts == spent
                || Some(after.world.accounts) == repaired)
  {
    hide ChecksMade, Spent, ValidationOk, W.Snapshot, CompletionTrigger, RouteAfterValidation;
  }

  lemma SameCalls(m: Machine, after: Machine, start: Accounts)
    requires CallsMatch(m, start) && m.Running?
    requires after.state.modelCalls == m.state.modelCalls
    requires WithinLimits(after.world.accounts)
    requires after.world.accounts.limits == m.world.accounts.limits
    requires after.world.accounts.used.Some? == m.world.accounts.used.Some?
    requires UsedCalls(after.world.accounts) == UsedCalls(m.world.accounts)
    ensures CallsMatch(after, start)
  {
  }

  lemma ValidateKeepsCalls(c: Config, s: State, w: World, v: ValidationInput, start: Accounts)
    requires CallsMatch(Running(Validate, s, w), start) && ReserveKept(c, w.accounts, start)
    ensures CallsMatch(ValidateStep(c, s, w, v), start)
    ensures ReserveKept(c, ValidateStep(c, s, w, v).world.accounts, start)
  {
    var after := ValidateStep(c, s, w, v);
    ValidateCharges(c, s, w, v);
    ChecksKeep(w.accounts, v);
    SpentKeeps(ChecksMade(w.accounts, v).0, CodeRepairs, v.expired);
    SameCalls(Running(Validate, s, w), after, start);
  }

  lemma ChecksKeep(a: Accounts, v: ValidationInput)
    requires WithinLimits(a)
    ensures var b := ChecksMade(a, v).0;
            WithinLimits(b) && b.limits == a.limits && b.used.Some? == a.used.Some?
            && UsedCalls(b) == UsedCalls(a)
  {
    SandboxKeeps(a, v.staticCheck.expired);
    SandboxKeeps(SandboxCharged(a, v.staticCheck.expired).0, v.pytest.expired);
  }

  lemma StepKeepsCalls(c: Config, m: Machine, i: Input, start: Accounts)
    requires CallsMatch(m, start) && ReserveKept(c, m.world.accounts, start)
    ensures CallsMatch(Step(c, m, i), start)
    ensures ReserveKept(c, Step(c, m, i).world.accounts, start)
  {
    if !Terminal(m) {
      match m.node
      case Author => AuthorKeepsCalls(c, m.state, m.world, i.attempt, i.response, start);
      case Tool => ToolKeepsCalls(c, m.state, m.world, i.tool, start);
      case Validate => ValidateKeepsCalls(c, m.state, m.world, i.validation, start);
    }
  }

  /**
   In snapshot mode under a shared budget that nobody else spends, the agent
   never spends a model call out of the reserve, and the shared counter rises
   by exactly the completions the agent recorded.
   */
  lemma {:induction false} ReserveIsNeverSpent(
      c: Config, prior: seq<Trace>, w: World, inputs: seq<Input>)
    requires WithinLimits(w.accounts)
    ensures var m := Execute(c, Begin(prior, w), inputs);
            && CallsMatch(m, w.accounts) && ReserveKept(c, m.world.accounts, w.accounts)
  {
    if inputs != [] {
      var prefix := inputs[..|inputs| - 1];
      ReserveIsNeverSpent(c, prior, w, prefix);
      StepKeepsCalls(c, Execute(c, Begin(prior, w), prefix), inputs[|inputs| - 1], w.accounts);
    }
  }

  /** A generation is requested only while more than the reserve remains. */
  lemma GenerationNeedsCallsBeyondReserve(c: Config, s: State, w: World, t: Attempt, r: Response)
    requires c.snapshotMode && w.accounts.used.Some?
    requires AuthorStep(c, s, w, t, r).world != w
    ensures RemainingCalls(w.accounts).value > c.modelCallReserve
    ensures s.toolCalls < EditAllowance(c)
  {
  }

  predicate NoneFalls(s: State, t: State) {
    && s.promptRetries <= t.promptRetries
    && s.modelCalls <= t.modelCalls
    && s.toolCalls <= t.toolCalls
    && s.repairAttempts <= t.repairAttempts
  }

  lemma AuthorAccumulates(c: Config, s: State, w: World, t: Attempt, r: Response)
    requires c.snapshotMode
    ensures NoneFalls(s, AuthorStep(c, s, w, t, r).state)
    ensures AuthorStep(c, s, w, t, r).world.tree == w.tree
    ensures AuthorStep(c, s, w, t, r).state.filesWritten == s.filesWritten
  {
  }

  lemma ToolAccumulates(c: Config, s: State, w: World, t: ToolResult)
    ensures NoneFalls(s, ToolStep(c, s, w, t).state)
  {
  }

  lemma ValidateAccumulates(c: Config, s: State, w: World, v: ValidationInput)
    ensures NoneFalls(s, ValidateStep(c, s, w, v).state)
    ensures ValidateStep(c, s, w, v).world.tree in {w.tree, v.tree}
    ensures ValidateStep(c, s, w, v).state.filesWritten == s.filesWritten
  {
    hide ChecksMade, Spent, ValidationOk, W.Snapshot;
  }

  /** In snapshot mode a correction is never forgiven: no counter ever falls. */
  lemma {:induction false} CorrectionsAccumulate(c: Config, m: Machine, inputs: seq<Input>)
    requires c.snapshotMode
    ensures NoneFalls(m.state, Execute(c, m, inputs).state)
  {
    if inputs != [] {
      var before := Execute(c, m, inputs[..|inputs| - 1]);
      var i := inputs[|inputs| - 1];
      CorrectionsAccumulate(c, m, inputs[..|inputs| - 1]);
      if !Terminal(before) {
        match before.node {
          case Author => AuthorAccumulates(c, before.state, before.world, i.attempt, i.response);
          case Tool => ToolAccumulates(c, before.state, before.world, i.tool);
          case Validate => ValidateAccumulates(c, before.state, before.world, i.validation);
        }
      }
    }
  }

  /**
   A submission left pending by a failed validation is not cleared by a rejected
   reply: the correction turn goes straight back to validation.
   */
  lemma StaleSubmissionRevalidates(c: Config, s: State, w: World, t: Attempt, r: Response)
    requires Invariant(c, Running(Author, s, w)) && s.pending != [] && s.promptRetries == 0
    requires HandoffReason(c, s, w.accounts) == Ok(None) && s.toolCalls < c.maxFileToolCalls
    requires Replied(w.accounts, t) == Answer && Rejected(c, r)
    requires c.snapshotMode ==> W.Snapshot(c.workspace, w.tree).Some?
    ensures AuthorStep(c, s, w, t, r).Running? && AuthorStep(c, s, w, t, r).node == Validate
    ensures AuthorStep(c, s, w, t, r).state.pending == s.pending
  {
  }

  /** A reply that answers, and what the environment grants everything else. */
  function Granted(outcome: ProviderOutcome): Attempt {
    Attempt(1, true, true, false, true, true, outcome, true, true, true, false)
  }

  function Submission(c: Config): Input {
    var failed := Check(false, true, SandboxResult(false, 1, false), true);
    Input(
      Granted(Completed(Some(Usage(1, 1, 2)))), Response([SubmitReady("")], false, false),
      ToolResult(false, true, true, false, true, W.Tree(map[], {[]}), true),
      ValidationInput(failed, failed, W.Tree(map[], {[]}), false))
  }

  lemma GrantedAnswers(a: Accounts)
    requires a.used.None? && a.row.None?
    ensures var t := Granted(Completed(Some(Usage(1, 1, 2))));
            Replied(a, t) == Answer && Generated(a, t).0 == a
  {
  }

  function Submitted(prior: seq<Trace>, w: World): Machine {
    Running(Validate, InitialState(prior).(modelCalls := 1, pending := [SubmitReady("")], handoff := Some(ModelReady)), w)
  }

  function SentBack(prior: seq<Trace>, w: World): Machine {
    Running(Author, Submitted(prior, w).state.(
      traces := prior + [Trace(StaticCheck, false)], sandboxRuns := 1, repairAttempts := 1, handoff := None), w)
  }

  lemma SubmitStep(c: Config, prior: seq<Trace>, w: World, i: Input)
    requires W.Snapshot(c.workspace, w.tree).Some?
    requires c.maxFileToolCalls > 0 && w.accounts.used.None? && w.accounts.row.None?
    requires i == Submission(c)
    ensures Step(c, Begin(prior, w), i) == Submitted(prior, w)
  {
    GrantedAnswers(w.accounts);
    hide Generated, Replied;
  }

  lemma FailedCheckStep(c: Config, prior: seq<Trace>, w: World, i: Input)
    requires c.maxFileToolCalls > 0 && c.maxRepairs > 0 && w.accounts.used.None?
    requires W.Snapshot(c.workspace, w.tree).Some? && W.Snapshot(c.workspace, w.tree).value != map[]
    requires i.validation == Submission(c).validation.(tree := w.tree)
    ensures Step(c, Submitted(prior, w), i) == SentBack(prior, w)
  {
    hide W.Snapshot;
    assert prior + [Trace(StaticCheck, false)] + [] == prior + [Trace(StaticCheck, false)];
  }

  lemma EmptyReplyStep(c: Config, prior: seq<Trace>, w: World, i: Input)
    requires W.Snapshot(c.workspace, w.tree).Some?
    requires c.maxFileToolCalls > 0 && w.accounts.used.None? && w.accounts.row.None?
    requires i.attempt == Submission(c).attempt && i.response.calls == []
    ensures var after := Step(c, SentBack(prior, w), i);
            after.Running? && after.node == Validate && after.state.pending == [SubmitReady("")]
  {
    GrantedAnswers(w.accounts);
    hide Generated, Replied;
  }

  lemma {:induction false} ThreeSteps(c: Config, m: Machine, i: Input, j: Input, k: Input)
    ensures Execute(c, m, [i, j]) == Step(c, Step(c, m, i), j)
    ensures Execute(c, m, [i, j, k]) == Step(c, Step(c, Step(c, m, i), j), k)
  {
    hide Step;
    assert [i][..0] == [] && [i, j][..1] == [i] && [i, j, k][..2] == [i, j];
    assert Execute(c, m, [i]) == Step(c, Execute(c, m, []), i);
    assert Execute(c, m, [i, j]) == Step(c, Execute(c, m, [i]), j);
  }

  /**
   Such a run exists from any workspace with sources, wherever a repair and a tool
   call are allowed: the model submits, the checks fail, and its next reply is
   empty. The submission it never repeated is validated again.
   */
  lemma StaleSubmissionIsReachable(c: Config, prior: seq<Trace>, w: World)
    returns (submit: Input, check: Input, reply: Input)
    requires c.maxFileToolCalls > 0 && c.maxRepairs > 0
    requires w.accounts.used.None? && w.accounts.row.None?
    requires W.Snapshot(c.workspace, w.tree).Some? && W.Snapshot(c.workspace, w.tree).value != map[]
    ensures var before := Execute(c, Begin(prior, w), [submit, check]);
            var after := Execute(c, Begin(prior, w), [submit, check, reply]);
            && before.Running? && before.node == Author && before.state.repairAttempts == 1
            && reply.response.calls == []
            && after.Running? && after.node == Validate
            && after.state.pending == before.state.pending == submit.response.calls == [SubmitReady("")]
  {
    submit := Submission(c);
    check := submit.(validation := submit.validation.(tree := w.tree));
    reply := submit.(response := Response([], false, false));
    SubmitStep(c, prior, w, submit);
    FailedCheckStep(c, prior, w, check);
    EmptyReplyStep(c, prior, w, reply);
    hide Step;
    ThreeSteps(c, Begin(prior, w), submit, check, reply);
  }

  // --------------------------------------------------------- finalization

  /** Both mandatory checks passed on `sources`, which are still the sources afterwards. */
  ghost predicate Validated(c: Config, m: Machine, v: ValidationInput, sources: map<Path, string>) {
    && m.Running? && m.node == Validate
    && sources != map[]
    && W.Snapshot(c.workspace, m.world.tree) == Some(sources)
    && W.Snapshot(c.workspace, v.tree) == Some(sources)
    && ValidationOk(v.staticCheck.result) && ValidationOk(v.pytest.result)
  }

  /**
   A run that reaches finalize ended with a validation step whose static check
   and test run both passed, untruncated, on one snapshot; the current sources
   are that snapshot.
   */
  lemma {:induction false} FinalizeMeansValidated(c: Config, m: Machine, inputs: seq<Input>)
    returns (k: nat, sources: map<Path, string>)
    requires !Terminal(m)
    requires Execute(c, m, inputs).Running? && Execute(c, m, inputs).node == Finalize
    ensures k < |inputs|
    ensures Validated(c, Execute(c, m, inputs[..k]), inputs[k].validation, sources)
    ensures W.Snapshot(c.workspace, Execute(c, m, inputs).world.tree) == Some(sources)
    ensures Execute(c, m, inputs).state.validationSucceeded
  {
    var prefix := inputs[..|inputs| - 1];
    var before := Execute(c, m, prefix);
    if Terminal(before) {
      k, sources := FinalizeMeansValidated(c, m, prefix);
      assert prefix[..k] == inputs[..k];
    } else {
      k := |inputs| - 1;
      sources := FinalStep(c, before, inputs[k]);
    }
  }

  lemma FinalStep(c: Config, m: Machine, i: Input) returns (sources: map<Path, string>)
    requires !Terminal(m) && Step(c, m, i).Running? && Step(c, m, i).node == Finalize
    ensures Validated(c, m, i.validation, sources)
    ensures W.Snapshot(c.workspace, Step(c, m, i).world.tree) == Some(sources)
    ensures Step(c, m, i).state.validationSucceeded
  {
    hide ChecksMade, Spent, W.Snapshot, CompletionTrigger, ToolEffect, ToolCharged;
    assert m.node == Validate;
    sources := W.Snapshot(c.workspace, m.world.tree).value;
  }

  // -------------------------------------------------------- source changes

  /** The edit that one step carried out, if any. */
  ghost function EditOf(c: Config, m: Machine, i: Input): seq<W.Operation> {
    if Terminal(m) || m.node != Tool then []
    else
      var after := Step(c, m, i);
      if after.state.filesWritten > m.state.filesWritten then [m.state.pending[0].operation] else []
  }

  ghost function EditsOf(c: Config, m: Machine, inputs: seq<Input>): seq<W.Operation> {
    if inputs == [] then []
    else
      var prefix := inputs[..|inputs| - 1];
      EditsOf(c, m, prefix) + EditOf(c, Execute(c, m, prefix), inputs[|inputs| - 1])
  }

  /** A tool step in snapshot mode makes one previewed edit, or leaves the sources alone. */
  lemma SnapshotToolStep(c: Config, s: State, w: World, t: ToolResult)
    requires c.snapshotMode && Invariant(c, Running(Tool, s, w))
    ensures s.pending != [] && s.pending[0].FileCall?
    ensures var after := ToolStep(c, s, w, t);
            var op := s.pending[0].operation;
            && (after.world.tree == w.tree
                || (W.Apply(c.workspace, w.tree, op) == (after.world.tree, true)
                    && PreviewPasses(c, w.tree, op) && t.fits))
            && (after.state.filesWritten == s.filesWritten + 1 ==>
                  W.Apply(c.workspace, w.tree, op) == (after.world.tree, true))
            && (after.Running? && after.state.filesWritten == s.filesWritten ==>
                  after.world.tree == w.tree)
            && s.filesWritten <= after.state.filesWritten <= s.filesWritten + 1
  {
    var call := s.pending[0];
    assert WithinSnapshotLimits(call);
    assert call.FileCall?;
    hide Spent, WithinSnapshotLimits, PreviewPasses, HandoffReason, ReadyIsLast, W.Apply, ToolEffect;
    SnapshotEffect(c, w.tree, call, t);
  }

  lemma SnapshotEffect(c: Config, tree: W.Tree, call: Call, t: ToolResult)
    requires c.snapshotMode && call.FileCall?
    ensures var effect := ToolEffect(c, tree, call, t);
            var applied := W.Apply(c.workspace, tree, call.operation);
            && (effect.tree == tree
                || (applied == (effect.tree, true) && PreviewPasses(c, tree, call.operation) && t.fits))
            && (effect.succeeded ==> applied == (effect.tree, true))
            && (!effect.succeeded && !effect.raised ==> effect.tree == tree)
  {
    ApplyFailureChangesNothing(c, tree, call.operation);
    hide W.Apply, PreviewPasses, W.Written;
  }

  lemma ApplyFailureChangesNothing(c: Config, tree: W.Tree, op: W.Operation)
    ensures !W.Apply(c.workspace, tree, op).1 ==> W.Apply(c.workspace, tree, op).0 == tree
  {
  }

  /** No one else touches the sources while the mandatory checks run. */
  predicate LeavesSources(m: Machine, i: Input) {
    m.Running? && m.node == Validate ==> i.validation.tree == m.world.tree
  }

  ghost predicate Undisturbed(c: Config, m: Machine, inputs: seq<Input>) {
    forall k :: 0 <= k < |inputs| ==> LeavesSources(Execute(c, m, inputs[..k]), inputs[k])
  }

  /** What one step does to the sources and to the count of files written. */
  lemma SnapshotStep(c: Config, m: Machine, i: Input)
    requires c.snapshotMode && Invariant(c, m)
    requires LeavesSources(m, i)
    ensures var after := Step(c, m, i);
            var edit := EditOf(c, m, i);
            && (W.Sound(c.workspace, m.world.tree) ==> W.Sound(c.workspace, after.world.tree))
            && after.state.filesWritten == m.state.filesWritten + |edit|
            && (after.Running? ==>
                  m.Running? &&
                  after.world.tree == if edit == [] then m.world.tree
                                      else W.Apply(c.workspace, m.world.tree, edit[0]).0)
  {
    hide AuthorStep, ToolStep, ValidateStep, Invariant, W.Apply, W.Sound, PreviewPasses;
    if !Terminal(m) {
      match m.node
      case Author => AuthorAccumulates(c, m.state, m.world, i.attempt, i.response);
      case Tool =>
        SnapshotToolStep(c, m.state, m.world, i.tool);
        if W.Sound(c.workspace, m.world.tree) {
          W.ApplyKeepsSound(c.workspace, m.world.tree, m.state.pending[0].operation);
        }
      case Validate => ValidateAccumulates(c, m.state, m.world, i.validation);
    }
  }

  /**
   In snapshot mode the sources of a run that has not raised are the initial
   sources with exactly the recorded successful edits applied in order, at most
   one per step and at most `min(8, max_file_tool_calls)` over the run.
   */
  lemma {:induction false} SourcesAreTheRecordedEdits(
      c: Config, prior: seq<Trace>, w: World, inputs: seq<Input>)
    requires c.snapshotMode
    requires Undisturbed(c, Begin(prior, w), inputs)
    ensures var m := Execute(c, Begin(prior, w), inputs);
            var edits := EditsOf(c, Begin(prior, w), inputs);
            && (W.Sound(c.workspace, w.tree) ==> W.Sound(c.workspace, m.world.tree))
            && (m.Running? ==> m.world.tree == W.ApplyAll(c.workspace, w.tree, edits))
            && |edits| == m.state.filesWritten <= EditAllowance(c)
  {
    var start := Begin(prior, w);
    BeginInvariant(c, prior, w);
    ExecuteKeepsInvariant(c, start, inputs);
    if inputs != [] {
      var prefix := inputs[..|inputs| - 1];
      var i := inputs[|inputs| - 1];
      assert forall k :: 0 <= k < |prefix| ==> prefix[..k] == inputs[..k];
      SourcesAreTheRecordedEdits(c, prior, w, prefix);
      ExecuteKeepsInvariant(c, start, prefix);
      var before := Execute(c, start, prefix);
      assert LeavesSources(before, i);
      SnapshotStep(c, before, i);
      AppendEdit(c, w.tree, EditsOf(c, start, prefix), EditOf(c, before, i));
    }
  }

  lemma AppendEdit(c: Config, tree: W.Tree, edits: seq<W.Operation>, edit: seq<W.Operation>)
    requires |edit| <= 1
    ensures var before := W.ApplyAll(c.workspace, tree, edits);
            W.ApplyAll(c.workspace, tree, edits + edit) ==
            if edit == [] then before else W.Apply(c.workspace, before, edit[0]).0
  {
    if edit == [] {
      assert edits + edit == edits;
    } else {
      assert (edits + edit)[..|edits|] == edits;
    }
  }
}
