/**
 Exactly when each node of the coding graph goes where, and what it leaves
 behind, in terms of the counters, the accounts and the replies themselves.
 */
module CodingLaws {
  import opened Prelude
  import opened Budgets
  import opened CodingAgents
  import W = Workspaces
  import L = WorkspaceLaws

  // ---------------------------------------------------------------- author

  /** Another edit is allowed in snapshot mode. */
  predicate EditLeft(c: Config, s: State) {
    s.toolCalls < 8 && s.toolCalls < c.maxFileToolCalls
  }

  /** More shared model calls remain than the workflow keeps for itself. */
  predicate CallLeft(c: Config, a: Accounts) {
    a.used.Some? ==> Get(a.used.value, ModelCalls) + c.modelCallReserve < a.limits.modelCalls
  }

  /** Authoring is over in snapshot mode. */
  predicate Over(c: Config, s: State, a: Accounts) {
    c.snapshotMode && !(EditLeft(c, s) && CallLeft(c, a))
  }

  /** The work so far may be handed over: the last thing done was a successful edit. */
  predicate Settled(s: State) {
    s.modelCalls > 0 && !s.feedback && s.traces != []
    && s.traces[|s.traces| - 1].tool == EditingTool && s.traces[|s.traces| - 1].succeeded
  }

  predicate Asks(c: Config, s: State, w: World) {
    && !Over(c, s, w.accounts) && s.toolCalls < c.maxFileToolCalls
    && (c.snapshotMode ==> W.Readable(c.workspace, w.tree))
  }

  /** Without asking the model: settled work is handed over with its reason, anything else raises. */
  lemma AuthoringEndsExactlyWhen(c: Config, s: State, w: World, t: Attempt, r: Response)
    requires !Asks(c, s, w)
    ensures var after := AuthorStep(c, s, w, t, r);
            && after.world == w
            && (after.Running? <==> Over(c, s, w.accounts) && Settled(s))
            && (after.Running? ==>
                  after.node == Validate
                  && after.state == s.(
                       pending := [], handoff := Some(if EditLeft(c, s) then ModelCallReserve else EditLimit)))
            && (after.Raised? ==>
                  after.state == s
                  && after.error == if Over(c, s, w.accounts) && s.modelCalls == 0 && EditLeft(c, s) then BudgetRefused
                                    else if Over(c, s, w.accounts) || s.toolCalls >= c.maxFileToolCalls
                                    then ToolBudgetExceeded else WorkspaceUnreadable)
  {
    hide W.Readable;
  }

  /** A call that fits snapshot mode's limits on names and texts. */
  predicate Fits(call: Call) {
    || (call.SubmitReady? && |call.summary| <= 240)
    || (call.FileCall? && call.operation.CreateFile?
        && 0 < |call.operation.path| <= 500 && |call.operation.content| <= 2048)
    || (call.FileCall? && call.operation.EditFile?
        && 0 < |call.operation.path| <= 500 && 0 < |call.operation.oldText| <= 1024
        && |call.operation.newText| <= 1024)
  }

  /** A reply whose calls may be carried out. */
  predicate Usable(c: Config, r: Response) {
    && r.calls != []
    && (c.snapshotMode ==> |r.calls| == 1 && Fits(r.calls[0]) && !r.oversized)
  }


  predicate Forgivable(c: Config, t: Attempt, r: Response) {
    && c.snapshotMode && r.schemaViolation && t.outcome.Unusable? && t.outcome.usage.Some?
    && t.outcome.usage.value.inputTokens >= 0 && t.outcome.usage.value.outputTokens >= 0
    && t.outcome.usage.value.totalTokens == t.outcome.usage.value.inputTokens + t.outcome.usage.value.outputTokens
  }

  /** The calls of a usable reply are carried out: in order, and validated at once if the first submits. */
  lemma RepliesAreCarriedOutExactlyWhen(c: Config, s: State, w: World, t: Attempt, r: Response)
    requires Asks(c, s, w) && Replied(w.accounts, t) == Answer
    ensures var after := AuthorStep(c, s, w, t, r);
            var submits := exists i :: 0 <= i < |r.calls| - 1 && r.calls[i].SubmitReady?;
            && after.world == w.(accounts := Generated(w.accounts, t).0)
            && (after.Running? && !after.state.feedback <==> Usable(c, r) && !submits)
            && (Usable(c, r) && submits ==> after == Raised(ProtocolViolation, s, after.world))
            && (Usable(c, r) && !submits ==>
                  after == Running(
                    if r.calls[0].SubmitReady? then Validate else Tool,
                    s.(modelCalls := s.modelCalls + 1, pending := r.calls, feedback := false,
                       promptRetries := if c.snapshotMode then s.promptRetries else 0,
                       handoff := if r.calls[0].SubmitReady? then Some(ModelReady) else None),
                    after.world))
  {
    hide Generated, Replied, W.Readable;
    assert Rejected(c, r) <==> !Usable(c, r);
  }

  /**
   Any other reply is corrected once and never carried out: an unusable one
   leaves what was pending, a schema violation drops it.
   */
  lemma RepliesAreCorrectedExactlyOnce(c: Config, s: State, w: World, t: Attempt, r: Response)
    requires Asks(c, s, w) && !(Replied(w.accounts, t) == Answer && Usable(c, r))
    ensures var after := AuthorStep(c, s, w, t, r);
            var reply := Replied(w.accounts, t);
            var correctable := reply == Answer || (reply == ProtocolError && Forgivable(c, t, r));
            var corrected := s.(modelCalls := s.modelCalls + 1, promptRetries := s.promptRetries + 1, feedback := true);
            && after.world == w.(accounts := Generated(w.accounts, t).0)
            && (after.Running? <==> correctable && s.promptRetries == 0)
            && (after.Running? ==>
                  after.state == if reply == Answer then corrected else corrected.(pending := [], handoff := None))
            && (after.Running? ==>
                  after.node == if after.state.handoff.Some? then Validate
                                else if after.state.pending == [] then Author
                                else if after.state.pending[0].SubmitReady? then Validate else Tool)
            && (after.Raised? ==>
                  after.state == s
                  && after.error == if !correctable then ReplyFailed
                                    else if reply == Answer && r.calls == [] then NativeToolRequired
                                    else ProtocolViolation)
  {
    hide Generated, Replied, W.Readable;
    assert Replied(w.accounts, t) == Answer ==> Rejected(c, r);
    assert Correctable(r, t) && c.snapshotMode <==> Forgivable(c, t, r);
  }

  // -------------------------------------------------------------- validate

  /** One more unit of a resource is granted now. */
  predicate Granted(a: Accounts, r: Resource, expired: bool)
    requires Limited(r)
  {
    a.used.Some? ==>
      !expired && Get(a.used.value, TotalTokens) < a.limits.totalTokens
      && Get(a.used.value, r) + 1 <= a.limits.Of(r)
  }

  /** The accounts after one unit of a resource, if there is a budget. */
  function WithOne(a: Accounts, r: Resource): Accounts {
    if a.used.None? then a else a.(used := Some(a.used.value[r := Get(a.used.value, r) + 1]))
  }

  /** A check is charged as a sandbox run, then as a tool call. */
  predicate Funded(a: Accounts, expired: bool) {
    Granted(a, SandboxRuns, expired) && Granted(WithOne(a, SandboxRuns), ToolCalls, expired)
  }

  function WithCheck(a: Accounts): Accounts {
    WithOne(WithOne(a, SandboxRuns), ToolCalls)
  }

  predicate Clean(r: SandboxResult) {
    r.succeeded && r.exitCode == 0 && !r.truncated
  }

  /** The test run follows a static check that passed, and only that. */
  lemma ChecksAreMadeExactlyWhen(a: Accounts, v: ValidationInput)
    ensures var (b, failure) := ChecksMade(a, v);
            var one := Funded(a, v.staticCheck.expired) && v.staticCheck.ran && v.staticCheck.stored;
            var both := one && Clean(v.staticCheck.result);
            && (failure == None <==>
                  one && (Clean(v.staticCheck.result) ==>
                            Funded(WithCheck(a), v.pytest.expired) && v.pytest.ran && v.pytest.stored))
            && (failure == None ==> b == if both then WithCheck(WithCheck(a)) else WithCheck(a))
            && (var last, before := if both then v.pytest else v.staticCheck, if both then WithCheck(a) else a;
                failure != None ==>
                  && failure.value == (if !Funded(before, last.expired) then BudgetRefused
                                       else if !last.ran then SandboxFailed else StoreFailed)
                  && b == if Funded(before, last.expired) then WithCheck(before)
                          else if Granted(before, SandboxRuns, last.expired) then WithOne(before, SandboxRuns)
                          else before)
  {
    CheckIs(a, v.staticCheck);
    CheckIs(WithCheck(a), v.pytest);
    hide SandboxCharged, Granted, WithOne, CheckMade;
  }

  lemma CheckIs(a: Accounts, check: Check)
    ensures var (b, failure) := CheckMade(a, check);
            && b == (if Funded(a, check.expired) then WithCheck(a)
                     else if Granted(a, SandboxRuns, check.expired) then WithOne(a, SandboxRuns) else a)
            && failure == if !Funded(a, check.expired) then Some(BudgetRefused)
                          else if !check.ran then Some(SandboxFailed)
                          else if !check.stored then Some(StoreFailed) else None
  {
    OneIsSpent(a, SandboxRuns, check.expired);
    OneIsSpent(WithOne(a, SandboxRuns), ToolCalls, check.expired);
    hide Granted, WithOne, Spent;
  }

  lemma OneIsSpent(a: Accounts, r: Resource, expired: bool)
    requires Limited(r)
    ensures Spent(a, r, expired) == if Granted(a, r, expired) then Some(WithOne(a, r)) else None
  {
  }

  /** Both sandbox runs were made on sources that are there and did not change. */
  predicate Examined(c: Config, w: World, v: ValidationInput) {
    && W.Readable(c.workspace, w.tree) && w.tree.files != map[]
    && ChecksMade(w.accounts, v).1 == None
    && W.Snapshot(c.workspace, v.tree) == W.Snapshot(c.workspace, w.tree)
  }

  predicate Passed(v: ValidationInput) {
    Clean(v.staticCheck.result) && Clean(v.pytest.result)
  }

  lemma NoSources(c: Config, tree: W.Tree)
    ensures W.Snapshot(c.workspace, tree).Some? <==> W.Readable(c.workspace, tree)
    ensures W.Snapshot(c.workspace, tree).Some? ==>
              (W.Snapshot(c.workspace, tree).value == map[] <==> tree.files == map[])
  {
    W.SnapshotNeedsAll(c.workspace, tree);
    if W.Readable(c.workspace, tree) {
      W.SnapshotReads(c.workspace, tree);
      assert W.Snapshot(c.workspace, tree).value.Keys == tree.files.Keys;
    }
  }

  /** Whatever stops the checks raises, with the first thing that was wrong. */
  lemma ValidationRaisesExactlyWhen(c: Config, s: State, w: World, v: ValidationInput)
    requires !Examined(c, w, v)
    ensures var (spent, failure) := ChecksMade(w.accounts, v);
            ValidateStep(c, s, w, v) ==
            if !W.Readable(c.workspace, w.tree) then Raised(WorkspaceUnreadable, s, w)
            else if w.tree.files == map[] then Raised(WorkspaceEmpty, s, w)
            else
              Raised(if failure.Some? then failure.value
                     else if !W.Readable(c.workspace, v.tree) then WorkspaceUnreadable else SourceChanged,
                     s, World(v.tree, spent))
  {
    NoSources(c, w.tree);
    NoSources(c, v.tree);
    hide ChecksMade, Spent, W.Readable, W.Snapshot;
  }

  lemma ExaminedConcludes(c: Config, s: State, w: World, v: ValidationInput)
    requires Examined(c, w, v)
    ensures ValidateStep(c, s, w, v) == Concluded(c, s, World(v.tree, ChecksMade(w.accounts, v).0), v)
  {
    NoSources(c, w.tree);
    hide ChecksMade, Concluded, W.Readable, W.Snapshot;
  }

  lemma FailureConcludes(c: Config, s: State, next: World, v: ValidationInput)
    requires !Passed(v)
    ensures Concluded(c, s, next, v) ==
            if s.repairAttempts >= c.maxRepairs then Raised(RepairExhausted, s, next)
            else if Over(c, s, next.accounts) then Raised(ToolBudgetExceeded, s, next)
            else if !Granted(next.accounts, CodeRepairs, v.expired) then Raised(BudgetRefused, s, next)
            else
              Running(
                Author,
                s.(validationSucceeded := false, repairAttempts := s.repairAttempts + 1, handoff := None,
                   sandboxRuns := s.sandboxRuns + (if Clean(v.staticCheck.result) then 2 else 1),
                   traces := s.traces + if Clean(v.staticCheck.result)
                                        then [Trace(StaticCheck, true), Trace(RunPytest, false)]
                                        else [Trace(StaticCheck, false)]),
                next.(accounts := WithOne(next.accounts, CodeRepairs)))
  {
    OneIsSpent(next.accounts, CodeRepairs, v.expired);
    hide Spent, Granted, WithOne;
    assert s.traces + [Trace(StaticCheck, true)] + [Trace(RunPytest, false)]
           == s.traces + [Trace(StaticCheck, true), Trace(RunPytest, false)];
    assert s.traces + [Trace(StaticCheck, false)] + [] == s.traces + [Trace(StaticCheck, false)];
  }

  lemma PassingConcludes(c: Config, s: State, next: World, v: ValidationInput)
    requires Passed(v)
    ensures Concluded(c, s, next, v) ==
            Running(
              Finalize,
              s.(validationSucceeded := true, sandboxRuns := s.sandboxRuns + 2,
                 traces := s.traces + [Trace(StaticCheck, true), Trace(RunPytest, true)],
                 handoff := if s.handoff.Some? then s.handoff
                            else if !Over(c, s, next.accounts) then None
                            else Some(if EditLeft(c, s) then ModelCallReserve else EditLimit)),
              next)
  {
    hide Spent;
    assert s.traces + [Trace(StaticCheck, true)] + [Trace(RunPytest, true)]
           == s.traces + [Trace(StaticCheck, true), Trace(RunPytest, true)];
  }

  /** Passing checks on unchanged sources finalize, whatever repairs or calls are left; nothing else does. */
  lemma FinalizesExactlyWhen(c: Config, s: State, w: World, v: ValidationInput)
    ensures var after := ValidateStep(c, s, w, v);
            var (spent, _) := ChecksMade(w.accounts, v);
            && (after.Running? && after.node == Finalize <==> Examined(c, w, v) && Passed(v))
            && (Examined(c, w, v) && Passed(v) ==>
                  after == Running(
                    Finalize,
                    s.(validationSucceeded := true, sandboxRuns := s.sandboxRuns + 2,
                       traces := s.traces + [Trace(StaticCheck, true), Trace(RunPytest, true)],
                       handoff := if s.handoff.Some? then s.handoff
                                  else if !Over(c, s, spent) then None
                                  else Some(if EditLeft(c, s) then ModelCallReserve else EditLimit)),
                    World(v.tree, spent)))
  {
    if !Examined(c, w, v) {
      ValidationRaisesExactlyWhen(c, s, w, v);
    } else {
      var next := World(v.tree, ChecksMade(w.accounts, v).0);
      ExaminedConcludes(c, s, w, v);
      if Passed(v) {
        PassingConcludes(c, s, next, v);
      } else {
        FailureConcludes(c, s, next, v);
      }
    }
    hide *;
  }

  /** A failing check sends the run back to the author, exactly while a repair is left and granted. */
  lemma RepairsExactlyWhen(c: Config, s: State, w: World, v: ValidationInput)
    requires Examined(c, w, v) && !Passed(v)
    ensures var after := ValidateStep(c, s, w, v);
            var (spent, _) := ChecksMade(w.accounts, v);
            var passedStatic := Clean(v.staticCheck.result);
            && (after.Running? <==>
                  s.repairAttempts < c.maxRepairs && !Over(c, s, spent) && Granted(spent, CodeRepairs, v.expired))
            && (after.Running? ==>
                  after == Running(
                    Author,
                    s.(validationSucceeded := false, repairAttempts := s.repairAttempts + 1, handoff := None,
                       sandboxRuns := s.sandboxRuns + (if passedStatic then 2 else 1),
                       traces := s.traces + if passedStatic then [Trace(StaticCheck, true), Trace(RunPytest, false)]
                                            else [Trace(StaticCheck, false)]),
                    World(v.tree, WithOne(spent, CodeRepairs))))
            && (after.Raised? ==>
                  after == Raised(
                    if s.repairAttempts >= c.maxRepairs then RepairExhausted
                    else if Over(c, s, spent) then ToolBudgetExceeded else BudgetRefused,
                    s, World(v.tree, spent)))
  {
    ExaminedConcludes(c, s, w, v);
    FailureConcludes(c, s, World(v.tree, ChecksMade(w.accounts, v).0), v);
    hide *;
  }

  // ------------------------------------------------------------------ tool

  /** A tool of this mode: only edits in snapshot mode, every known tool otherwise. */
  predicate Offered(c: Config, call: Call) {
    match call
    case SubmitReady(_) => false
    case FileCall(op) => c.snapshotMode ==> !op.DeleteSource?
    case SandboxCall(known) => known && !c.snapshotMode
    case OtherCall => !c.snapshotMode
  }

  predicate IsEdit(call: Call) {
    call.FileCall? && (call.operation.CreateFile? || call.operation.EditFile?)
  }

  /** What a call is charged: a sandbox run pays for itself, and an unknown one never runs. */
  predicate CallFunded(c: Config, a: Accounts, call: Call, expired: bool) {
    if !call.SandboxCall? then Granted(a, ToolCalls, expired)
    else Offered(c, call) ==> Funded(a, expired)
  }

  function WithCall(c: Config, a: Accounts, call: Call): Accounts {
    if !call.SandboxCall? then WithOne(a, ToolCalls)
    else if Offered(c, call) then WithCheck(a) else a
  }

  predicate MayUseTool(c: Config, s: State, w: World, t: ToolResult) {
    && s.pending != [] && s.toolCalls < c.maxFileToolCalls && (c.snapshotMode ==> s.toolCalls < 8)
    && CallFunded(c, w.accounts, s.pending[0], t.expired)
  }

  /** Nothing is carried out beyond the limits, or unpaid. */
  lemma ToolIsRefusedExactlyWhen(c: Config, s: State, w: World, t: ToolResult)
    requires !MayUseTool(c, s, w, t)
    ensures var after := ToolStep(c, s, w, t);
            && after.Raised? && after.state == s && after.world.tree == w.tree
            && after.error == (if s.pending == [] then ProtocolViolation
                               else if s.toolCalls >= c.maxFileToolCalls || (c.snapshotMode && s.toolCalls >= 8)
                               then ToolBudgetExceeded else BudgetRefused)
            && after.world.accounts ==
               if after.error == BudgetRefused && s.pending[0].SandboxCall?
                  && Granted(w.accounts, SandboxRuns, t.expired)
               then WithOne(w.accounts, SandboxRuns) else w.accounts
  {
    CallIsCharged(c, s, w, t);
    hide ToolEffect, ToolUpdate, Granted, WithOne, Spent, SandboxCharged;
  }

  lemma CallIsCharged(c: Config, s: State, w: World, t: ToolResult)
    ensures s.pending != [] ==>
              var call := s.pending[0];
              var (b, funded) := ToolCharged(c, w.accounts, call, t.expired);
              && (funded <==> CallFunded(c, w.accounts, call, t.expired))
              && (funded ==> b == WithCall(c, w.accounts, call))
              && (!funded ==>
                    b == if call.SandboxCall? && Granted(w.accounts, SandboxRuns, t.expired)
                         then WithOne(w.accounts, SandboxRuns) else w.accounts)
  {
    OneIsSpent(w.accounts, SandboxRuns, t.expired);
    OneIsSpent(WithOne(w.accounts, SandboxRuns), ToolCalls, t.expired);
    OneIsSpent(w.accounts, ToolCalls, t.expired);
    hide Granted, WithOne, Spent;
  }

  /** A file operation is allowed to touch the sources. */
  ghost predicate Attempted(c: Config, tree: W.Tree, call: Call, t: ToolResult) {
    && call.FileCall? && Offered(c, call) && t.reached
    && (c.snapshotMode ==> PreviewPasses(c, tree, call.operation) && t.fits)
  }

  /** What the call does to the sources, and whether it succeeded. */
  lemma ToolTakesEffectExactlyWhen(c: Config, tree: W.Tree, call: Call, t: ToolResult)
    ensures var effect := ToolEffect(c, tree, call, t);
            && (call.FileCall? ==>
                  var (after, done) := W.Apply(c.workspace, tree, call.operation);
                  && effect.tree == (if Attempted(c, tree, call, t) then after else tree)
                  && (effect.succeeded <==> Attempted(c, tree, call, t) && done))
            && (!call.FileCall? ==>
                  && effect.tree == (if Offered(c, call) && call.OtherCall? then t.tree else tree)
                  && (effect.succeeded <==> Offered(c, call) && t.succeeded))
            && (effect.raised <==>
                  && Offered(c, call)
                  && (call.FileCall? && c.snapshotMode ==> PreviewPasses(c, tree, call.operation) && t.fits)
                  && (t.raises || (Attempted(c, tree, call, t) && WriteRaises(c, tree, call.operation))))
  {
    if call.FileCall? {
      RaisingChangesNothing(c, tree, call.operation);
    }
    hide PreviewPasses, WriteRaises, W.Apply;
  }

  lemma RaisingChangesNothing(c: Config, tree: W.Tree, op: W.Operation)
    ensures WriteRaises(c, tree, op) ==> W.Apply(c.workspace, tree, op) == (tree, false)
  {
    hide W.Written;
  }

  /** A preview passes exactly when every source can be read and the operation would succeed, or raise. */
  lemma PreviewPassesExactlyWhen(c: Config, tree: W.Tree, op: W.Operation)
    requires W.WellFormed(tree) && !op.DeleteSource?
    ensures WriteRaises(c, tree, op) <==>
              op.CreateFile? && W.Resolve(op.path).Some?
              && L.RoomFor(c.workspace, tree, W.Resolve(op.path).value, op.content)
              && L.FileAbove(tree, W.Resolve(op.path).value)
    ensures PreviewPasses(c, tree, op) <==>
              W.Readable(c.workspace, tree)
              && (W.Apply(c.workspace, tree, op).1 || WriteRaises(c, tree, op))
  {
    match op {
      case CreateFile(path, content) =>
        L.WritesRaiseExactlyWhen(c.workspace, tree, path, content);
        W.PreviewPredictsWrite(c.workspace, tree, path, content, false);
      case EditFile(path, oldText, newText) =>
        if W.Edited(c.workspace, tree, path, oldText, newText).Ok? {
          W.PreviewPredictsEdit(c.workspace, tree, path, oldText, newText);
        }
    }
    hide W.Readable, W.Previewed, W.Prepared, W.Edited, W.FileAncestor, W.Resolve, W.Misread, W.Snapshot, W.WellFormed,
         L.RoomFor, L.FileAbove, W.Unreadable;
  }

  /** A call that was carried out is recorded, and the next is taken up, or the work is handed over. */
  lemma ToolIsRecordedExactlyWhen(c: Config, s: State, w: World, t: ToolResult)
    requires MayUseTool(c, s, w, t)
    ensures var call := s.pending[0];
            var effect := ToolEffect(c, w.tree, call, t);
            var after := ToolStep(c, s, w, t);
            var rest := s.pending[1..];
            var a := WithCall(c, w.accounts, call);
            var done := s.(
              pending := rest, toolCalls := s.toolCalls + 1,
              traces := s.traces + [Trace(if IsEdit(call) then EditingTool else OtherTool, effect.succeeded)],
              sandboxRuns := s.sandboxRuns + (if call == SandboxCall(true) then 1 else 0),
              filesWritten := s.filesWritten + (if effect.succeeded && call.FileCall? then 1 else 0));
            && after.world == World(effect.tree, a)
            && (effect.raised || !t.recorded ==>
                  after == Raised(if effect.raised then ToolRaised else StoreFailed, s, after.world))
            && (!effect.raised && t.recorded ==>
                  && after.state == done
                  && (after.Running? <==> (rest == [] && Over(c, done, a) ==> Settled(done)))
                  && (after.Running? ==>
                        after.node == if rest != [] then (if rest[0].SubmitReady? then Validate else Tool)
                                      else if Over(c, done, a) then Validate else Author)
                  && (after.Raised? ==>
                        after.error == if done.modelCalls == 0 && EditLeft(c, done)
                                       then BudgetRefused else ToolBudgetExceeded))
  {
    CallIsCharged(c, s, w, t);
    hide ToolEffect, Granted, WithOne, Spent, SandboxCharged, ToolCharged, CallFunded, WithCall;
  }
}
