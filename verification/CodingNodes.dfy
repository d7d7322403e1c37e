/**
 The graph's nodes as they run: each updates the shared budget, the journal and
 the workspace in place and returns the next graph state.
 */
module CodingNodes {
  import opened Prelude
  import opened Budgets
  import opened CodingAgents
  import opened CodingRuns
  import W = Workspaces

  class CodingAgent {
    const config: Config
    const limits: BudgetLimits
    const llm: BudgetedLLM
    const workspace: W.Workspace

    constructor (config: Config, limits: BudgetLimits, llm: BudgetedLLM, workspace: W.Workspace)
      requires llm.budget != null ==> llm.budget.limits == limits
      requires workspace.limits == config.workspace && workspace.Valid()
      ensures Valid()
      ensures this.config == config && this.limits == limits
      ensures this.llm == llm && this.workspace == workspace
    {
      this.config, this.limits, this.llm, this.workspace := config, limits, llm, workspace;
    }

    ghost predicate Valid()
      reads this, workspace
    {
      && (llm.budget != null ==> llm.budget.limits == limits)
      && workspace.limits == config.workspace && workspace.Valid()
    }

    function CurrentWorld(): World
      requires llm.budget != null ==> llm.budget.limits == limits
      reads this, workspace, llm, llm.budget, llm.journal
    {
      World(workspace.tree, llm.View(limits))
    }

    method AuthorTurn(s: State, attempt: Attempt, r: Response) returns (o: Outcome)
      requires Valid()
      modifies llm.budget, llm.journal
      ensures Valid()
      ensures Lift(o, CurrentWorld()) == AuthorStep(config, s, old(CurrentWorld()), attempt, r)
    {
      var handoff := HandoffReason(config, s, llm.View(limits));
      if handoff.Err? {
        return Raise(handoff.error, s);
      }
      if handoff.value.Some? {
        return Continue(Validate, s.(pending := [], handoff := handoff.value));
      }
      if s.toolCalls >= config.maxFileToolCalls {
        return Raise(ToolBudgetExceeded, s);
      }
      if config.snapshotMode {
        var sources := workspace.SourceSnapshot();
        if sources.Err? {
          return Raise(WorkspaceUnreadable, s);
        }
      }
      var reply, _ := llm.Generate(limits, attempt);
      o := AuthorUpdate(config, s, reply, attempt, r);
    }

    method Charge(r: Resource, expired: bool) returns (ok: bool)
      requires Valid() && Limited(r)
      modifies llm.budget
      ensures Valid()
      ensures match Spent(old(llm.View(limits)), r, expired)
              case None => !ok && llm.View(limits) == old(llm.View(limits))
              case Some(b) => ok && llm.View(limits) == b
    {
      ok := true;
      if llm.budget != null {
        var refusal := llm.budget.Consume(r, 1, expired);
        ok := refusal.None?;
      }
    }

    method ChargeSandbox(expired: bool) returns (ok: bool)
      requires Valid()
      modifies llm.budget
      ensures Valid()
      ensures (llm.View(limits), ok) == SandboxCharged(old(llm.View(limits)), expired)
    {
      ok := Charge(SandboxRuns, expired);
      if ok {
        ok := Charge(ToolCalls, expired);
      }
    }

    /** Charges one check; its run and its records may fail after that. */
    method MakeCheck(check: Check) returns (failure: Option<Error>)
      requires Valid()
      modifies llm.budget
      ensures Valid()
      ensures (llm.View(limits), failure) == CheckMade(old(llm.View(limits)), check)
    {
      var funded := ChargeSandbox(check.expired);
      if !funded {
        return Some(BudgetRefused);
      }
      if !check.ran {
        return Some(SandboxFailed);
      }
      failure := if check.stored then None else Some(StoreFailed);
    }

    method MakeChecks(v: ValidationInput) returns (failure: Option<Error>)
      requires Valid()
      modifies llm.budget
      ensures Valid()
      ensures (llm.View(limits), failure) == ChecksMade(old(llm.View(limits)), v)
    {
      failure := MakeCheck(v.staticCheck);
      if failure.None? && ValidationOk(v.staticCheck.result) {
        failure := MakeCheck(v.pytest);
      }
    }

    /** Previews an edit the way the tool node does before carrying it out. */
    method Preview(op: W.Operation) returns (passes: bool)
      requires Valid()
      ensures passes == PreviewPasses(config, workspace.tree, op)
    {
      match op {
        case CreateFile(path, content) =>
          var preview := workspace.PreviewText(path, content, false);
          passes := preview.Ok?;
        case EditFile(path, oldText, newText) =>
          var preview := workspace.PreviewEdit(path, oldText, newText);
          passes := preview.Ok?;
        case DeleteSource(_) =>
          passes := true;
      }
    }

    method CarryOut(op: W.Operation) returns (succeeded: bool, raised: bool)
      requires Valid()
      modifies workspace
      ensures Valid()
      ensures raised == WriteRaises(config, old(workspace.tree), op)
      ensures raised ==> !succeeded && workspace.tree == old(workspace.tree)
      ensures !raised ==>
                (workspace.tree, succeeded) == W.Apply(config.workspace, old(workspace.tree), op)
    {
      match op {
        case CreateFile(path, content) =>
          var r := workspace.WriteText(path, content, false);
          succeeded, raised := r.Ok?, r == Err(W.NotADirectory);
        case EditFile(path, oldText, newText) =>
          var r := workspace.EditText(path, oldText, newText);
          succeeded, raised := r.Ok?, false;
        case DeleteSource(path) =>
          var r := workspace.DeleteFile(path);
          succeeded, raised := r.None?, false;
      }
    }

    method UseTool(call: Call, t: ToolResult) returns (succeeded: bool, raised: bool)
      requires Valid() && W.WellFormed(t.tree)
      modifies workspace
      ensures Valid()
      ensures Effect(workspace.tree, succeeded, raised)
              == ToolEffect(config, old(workspace.tree), call, t)
    {
      succeeded, raised := false, false;
      if !OffersTool(config, call) {
        return;
      }
      if !call.FileCall? {
        if !call.SandboxCall? {
          workspace.tree := t.tree;
        }
        return t.succeeded, t.raises;
      }
      if config.snapshotMode {
        var passes := Preview(call.operation);
        if !passes || !t.fits {
          return;
        }
      }
      if t.reached {
        succeeded, raised := CarryOut(call.operation);
      }
      raised := raised || t.raises;
    }

    /** Sandbox tools are charged by the sandbox, and only if they are offered. */
    method ChargeTool(call: Call, expired: bool) returns (funded: bool)
      requires Valid()
      modifies llm.budget
      ensures Valid()
      ensures (llm.View(limits), funded) == ToolCharged(config, old(llm.View(limits)), call, expired)
    {
      if !call.SandboxCall? {
        funded := Charge(ToolCalls, expired);
      } else if OffersTool(config, call) {
        funded := ChargeSandbox(expired);
      } else {
        funded := true;
      }
    }

    method ExecuteTool(s: State, t: ToolResult) returns (o: Outcome)
      requires Valid() && W.WellFormed(t.tree)
      modifies llm.budget, workspace
      ensures Valid()
      ensures Lift(o, CurrentWorld()) == ToolStep(config, s, old(CurrentWorld()), t)
    {
      hide ToolEffect, W.WellFormed, ToolCharged, ToolUpdate, OffersTool;
      if s.pending == [] {
        return Raise(ProtocolViolation, s);
      }
      if (config.snapshotMode && s.toolCalls >= SNAPSHOT_EDITS) || s.toolCalls >= config.maxFileToolCalls {
        return Raise(ToolBudgetExceeded, s);
      }
      var call := s.pending[0];
      var funded := ChargeTool(call, t.expired);
      if !funded {
        return Raise(BudgetRefused, s);
      }
      var succeeded, raised := UseTool(call, t);
      if raised {
        return Raise(ToolRaised, s);
      }
      if !t.recorded {
        return Raise(StoreFailed, s);
      }
      o := ToolUpdate(config, s, succeeded, llm.View(limits));
    }

    /** The sources are read before and after the two checks, which others may overlap. */
    method RunValidation(s: State, v: ValidationInput) returns (o: Outcome)
      requires Valid() && W.WellFormed(v.tree)
      modifies llm.budget, workspace
      ensures Valid()
      ensures Lift(o, CurrentWorld()) == ValidateStep(config, s, old(CurrentWorld()), v)
    {
      hide W.WellFormed, W.Snapshot, ChecksMade, ValidationOk, Concluded;
      var snapshot := workspace.SourceSnapshot();
      if snapshot.Err? {
        return Raise(WorkspaceUnreadable, s);
      }
      if snapshot.value == map[] {
        return Raise(WorkspaceEmpty, s);
      }
      var failure := MakeChecks(v);
      workspace.tree := v.tree;
      if failure.Some? {
        return Raise(failure.value, s);
      }
      var again := workspace.SourceSnapshot();
      if again.Err? {
        return Raise(WorkspaceUnreadable, s);
      }
      if again != snapshot {
        return Raise(SourceChanged, s);
      }
      o := Conclude(s, v);
    }

    /** Passing checks finalize; failing ones cost a repair or end the run. */
    method Conclude(s: State, v: ValidationInput) returns (o: Outcome)
      requires Valid()
      modifies llm.budget
      ensures Valid()
      ensures Lift(o, CurrentWorld()) == Concluded(config, s, old(CurrentWorld()), v)
    {
      o := ChecksUpdate(config, s, v, llm.View(limits));
      if !o.Raise? && o.node != Finalize {
        var repaired := Charge(CodeRepairs, v.expired);
        if !repaired {
          return Raise(BudgetRefused, s);
        }
      }
    }

    method RunNode(o: Outcome, i: Input) returns (after: Outcome)
      requires Valid() && o.Continue? && o.node != Finalize
      requires W.WellFormed(i.tool.tree) && W.WellFormed(i.validation.tree)
      modifies llm.budget, llm.journal, workspace
      ensures Valid()
      ensures Lift(after, CurrentWorld()) == Step(config, Lift(o, old(CurrentWorld())), i)
    {
      match o.node {
        case Author => after := AuthorTurn(o.state, i.attempt, i.response);
        case Tool => after := ExecuteTool(o.state, i.tool);
        case Validate => after := RunValidation(o.state, i.validation);
      }
    }

    /** One more step of a run, which brings its end closer. */
    method Advance(o: Outcome, i: Input, ghost start: Machine, ghost inputs: seq<Input>) returns (after: Outcome)
      requires Valid() && o.Continue? && o.node != Finalize
      requires W.WellFormed(i.tool.tree) && W.WellFormed(i.validation.tree)
      requires Lift(o, CurrentWorld()) == Execute(config, start, inputs)
      requires Invariant(config, Lift(o, CurrentWorld()))
      modifies llm.budget, llm.journal, workspace
      ensures Valid()
      ensures Lift(after, CurrentWorld()) == Execute(config, start, inputs + [i])
      ensures Invariant(config, Lift(after, CurrentWorld()))
      ensures Measure(config, Lift(after, CurrentWorld())) < old(Measure(config, Lift(o, CurrentWorld())))
    {
      hide Step, Measure, Invariant, W.WellFormed, Execute;
      StepDecreases(config, Lift(o, CurrentWorld()), i);
      ExecuteOne(config, start, inputs, i);
      after := RunNode(o, i);
    }

    /** Runs the graph until it finalizes or raises; it always does. */
    method Run(prior: seq<Trace>, script: seq<Input>) returns (o: Outcome, ghost n: nat)
      requires Valid() && ShapedInputs(script) && LongEnough(config, |script|)
      modifies llm.budget, llm.journal, workspace
      ensures Valid()
      ensures n <= |script| && Terminal(Lift(o, CurrentWorld()))
      ensures Lift(o, CurrentWorld()) == Execute(config, Begin(prior, old(CurrentWorld())), script[..n])
    {
      hide Step, Measure, W.WellFormed, Execute, Begin, InitialState, LongEnough, Lift, Terminal;
      o := Continue(Author, InitialState(prior));
      ghost var start := Begin(prior, CurrentWorld());
      StartOfRun(config, prior, CurrentWorld(), |script|);
      assert script[..0] == [];
      ContinuesUntilTerminal(o, CurrentWorld());
      var i := 0;
      while !o.Raise? && o.node != Finalize
        invariant Valid() && i <= |script|
        invariant Terminal(Lift(o, CurrentWorld())) <==> o.Raise? || o.node == Finalize
        invariant Lift(o, CurrentWorld()) == Execute(config, start, script[..i])
        invariant Invariant(config, Lift(o, CurrentWorld()))
        invariant Terminal(Lift(o, CurrentWorld())) || Measure(config, Lift(o, CurrentWorld())) + i <= |script|
        decreases |script| - i
      {
        RunningIsPositive(config, Lift(o, CurrentWorld()));
        assert script[..i + 1] == script[..i] + [script[i]];
        o := Advance(o, script[i], start, script[..i]);
        ContinuesUntilTerminal(o, CurrentWorld());
        i := i + 1;
      }
      n := i;
    }
  }

  ghost predicate ShapedInputs(script: seq<Input>) {
    forall k :: 0 <= k < |script| ==>
      W.WellFormed(script[k].tool.tree) && W.WellFormed(script[k].validation.tree)
  }

  /** As many steps as a run can take. */
  predicate LongEnough(c: Config, n: nat) {
    n >= 3 + 3 * (c.maxRepairs * (c.maxFileToolCalls + 1) + c.maxFileToolCalls)
  }

  lemma StartOfRun(c: Config, prior: seq<Trace>, w: World, n: nat)
    requires LongEnough(c, n)
    ensures var start := Begin(prior, w);
            && start == Lift(Continue(Author, InitialState(prior)), w)
            && start == Execute(c, start, [])
            && Invariant(c, start) && Measure(c, start) <= n
  {
  }

  lemma ContinuesUntilTerminal(o: Outcome, w: World)
    ensures Terminal(Lift(o, w)) <==> o.Raise? || o.node == Finalize
  {
  }

  lemma ExecuteOne(c: Config, m: Machine, inputs: seq<Input>, i: Input)
    ensures Execute(c, m, inputs + [i]) == Step(c, Execute(c, m, inputs), i)
  {
    assert (inputs + [i])[..|inputs|] == inputs;
  }
}
