/** The compute graph: an executor that generates, a tool node, and limits on both. */
module ComputeLoops {
  import opened Prelude

  datatype Limits = Limits(maxIterations: nat, maxToolCalls: nat)

  datatype Call = Call(id: string, tool: string)

  datatype Role = User | Assistant

  datatype ChatMessage = Text(role: Role) | AssistantCall(id: string) | ToolResult(id: string)

  datatype Trace = Trace(sequence: nat, callId: string, tool: string, succeeded: bool)

  datatype State = State(
    planLength: nat, currentStep: nat, iterations: nat, promptRetries: nat, modelCalls: nat,
    pending: Option<Call>, messages: seq<ChatMessage>, traces: seq<Trace>,
    executorComplete: bool, budgetExceeded: bool)

  datatype Node = Executor | Tools

  datatype Machine = Running(node: Node, state: State) | AtWriter(state: State) | Raised(state: State)

  /** What the provider returns: the first native call, text, or nothing. */
  datatype Reply = ProviderFails | Calls(call: Call) | Says

  /** How one tool call goes: whether the tool exists, is affordable, succeeds and is recorded. */
  datatype ToolRun = ToolRun(known: bool, affordable: bool, succeeded: bool, recorded: bool)

  datatype Input = Input(reply: Reply, run: ToolRun)

  // ---------------------------------------------------------------- nodes

  function Begin(planLength: nat, modelCalls: nat): Machine {
    Running(Executor,
      State(planLength, 0, 0, 0, modelCalls, None, [Text(User)], [], false, false))
  }

  function RouteAfterExecutor(s: State): Machine {
    if s.executorComplete || s.budgetExceeded then AtWriter(s)
    else Running(if s.pending.Some? then Tools else Executor, s)
  }

  function RouteAfterTool(l: Limits, s: State): Machine {
    if s.budgetExceeded || s.iterations >= l.maxIterations then AtWriter(s) else Running(Executor, s)
  }

  function ExecutorStep(l: Limits, s: State, reply: Reply): Machine {
    if s.iterations >= l.maxIterations then
      RouteAfterExecutor(s.(budgetExceeded := true, executorComplete := true))
    else
      var t := s.(iterations := s.iterations + 1, modelCalls := s.modelCalls + 1);
      match reply
      case ProviderFails => Raised(s)
      case Calls(call) =>
        RouteAfterExecutor(t.(pending := Some(call), executorComplete := false,
                              messages := s.messages + [AssistantCall(call.id)]))
      case Says =>
        if s.traces != [] then
          RouteAfterExecutor(t.(pending := None, executorComplete := true,
                                messages := s.messages + [Text(Assistant)]))
        else if s.promptRetries >= 1 then Raised(s)
        else
          RouteAfterExecutor(t.(pending := None, executorComplete := false,
                                promptRetries := s.promptRetries + 1,
                                messages := s.messages + [Text(Assistant), Text(User)]))
  }

  function MinNat(a: nat, b: nat): nat {
    if a < b then a else b
  }

  function ToolStep(l: Limits, s: State, run: ToolRun): Machine {
    match s.pending
    case None => RouteAfterTool(l, s.(executorComplete := true))
    case Some(call) =>
      if |s.traces| >= l.maxToolCalls then
        RouteAfterTool(l, s.(budgetExceeded := true, executorComplete := true, pending := None))
      else if (run.known && !run.affordable) || !run.recorded then Raised(s)
      else
        var trace := Trace(|s.traces| + 1, call.id, call.tool, run.known && run.succeeded);
        RouteAfterTool(l, s.(
          pending := None, traces := s.traces + [trace],
          messages := s.messages + [ToolResult(call.id)],
          currentStep := MinNat(s.currentStep + 1, s.planLength),
          budgetExceeded := s.iterations >= l.maxIterations))
  }

  function Step(l: Limits, m: Machine, i: Input): Machine {
    if !m.Running? then m
    else
      match m.node
      case Executor => ExecutorStep(l, m.state, i.reply)
      case Tools => ToolStep(l, m.state, i.run)
  }

  function Execute(l: Limits, m: Machine, inputs: seq<Input>): Machine {
    if inputs == [] then m
    else Step(l, Execute(l, m, inputs[..|inputs| - 1]), inputs[|inputs| - 1])
  }

  // ------------------------------------------------------------ invariant

  /** Every assistant call is answered by the next message, and only calls are answered. */
  predicate Paired(messages: seq<ChatMessage>) {
    && (forall i :: 0 <= i < |messages| && messages[i].AssistantCall? ==>
          i + 1 < |messages| && messages[i + 1] == ToolResult(messages[i].id))
    && (forall i :: 0 <= i < |messages| && messages[i].ToolResult? ==>
          i > 0 && messages[i - 1] == AssistantCall(messages[i].id))
  }

  /** The identifiers answered, in order. */
  function Results(messages: seq<ChatMessage>): seq<string> {
    if messages == [] then []
    else
      var last := messages[|messages| - 1];
      Results(messages[..|messages| - 1]) + if last.ToolResult? then [last.id] else []
  }

  function CallIds(traces: seq<Trace>): seq<string> {
    if traces == [] then [] else CallIds(traces[..|traces| - 1]) + [traces[|traces| - 1].callId]
  }

  predicate Numbered(traces: seq<Trace>) {
    forall i :: 0 <= i < |traces| ==> traces[i].sequence == i + 1
  }

  predicate Bounded(l: Limits, s: State, before: nat) {
    && s.iterations <= l.maxIterations
    && |s.traces| <= MinNat(l.maxToolCalls, s.iterations)
    && s.modelCalls == before + s.iterations
    && s.promptRetries <= 1 && s.currentStep <= s.planLength
    && Numbered(s.traces)
  }

  predicate Invariant(l: Limits, m: Machine, before: nat) {
    var s := m.state;
    && Bounded(l, s, before)
    && Results(s.messages) == CallIds(s.traces)
    && (m.Running? ==> !s.budgetExceeded && !s.executorComplete)
    && (m.Running? && m.node == Executor ==> s.pending == None && Paired(s.messages))
    && (m.Running? && m.node == Tools ==>
          && s.pending.Some? && s.messages != [] && |s.traces| < s.iterations
          && s.messages[|s.messages| - 1] == AssistantCall(s.pending.value.id)
          && Paired(s.messages[..|s.messages| - 1]))
    && (m.AtWriter? && !s.budgetExceeded ==>
          s.traces != [] && s.pending == None && Paired(s.messages) && s.executorComplete)
  }

  lemma OneMoreMessage(messages: seq<ChatMessage>, m: ChatMessage)
    ensures Results(messages + [m]) == Results(messages) + if m.ToolResult? then [m.id] else []
    ensures (messages + [m])[..|messages|] == messages
    ensures m.Text? && Paired(messages) ==> Paired(messages + [m])
  {
    assert (messages + [m])[..|messages|] == messages;
  }

  lemma AnswerPairs(messages: seq<ChatMessage>, id: string)
    requires messages != [] && messages[|messages| - 1] == AssistantCall(id)
    requires Paired(messages[..|messages| - 1])
    ensures Paired(messages + [ToolResult(id)])
  {
    var before := messages[..|messages| - 1];
    var after := messages + [ToolResult(id)];
    forall i | 0 <= i < |before|
      ensures after[i] == before[i]
    {
    }
    forall i | 0 <= i < |after| && after[i].AssistantCall?
      ensures i + 1 < |after| && after[i + 1] == ToolResult(after[i].id)
    {
      if i < |before| {
        assert before[i].AssistantCall?;
      }
    }
    forall i | 0 <= i < |after| && after[i].ToolResult?
      ensures i > 0 && after[i - 1] == AssistantCall(after[i].id)
    {
      if i < |before| {
        assert before[i].ToolResult?;
      }
    }
  }

  lemma OneMoreTrace(traces: seq<Trace>, t: Trace)
    ensures CallIds(traces + [t]) == CallIds(traces) + [t.callId]
  {
    hide Numbered;
    assert (traces + [t])[..|traces|] == traces;
  }

  lemma OneMoreNumber(traces: seq<Trace>, t: Trace)
    requires Numbered(traces) && t.sequence == |traces| + 1
    ensures Numbered(traces + [t])
  {
  }

  lemma ExecutorKeepsInvariant(l: Limits, s: State, reply: Reply, before: nat)
    requires Invariant(l, Running(Executor, s), before)
    ensures Invariant(l, ExecutorStep(l, s, reply), before)
  {
    hide Results, CallIds, Paired, Numbered;
    OneMoreMessage(s.messages, Text(Assistant));
    OneMoreMessage(s.messages + [Text(Assistant)], Text(User));
    assert s.messages + [Text(Assistant), Text(User)] == s.messages + [Text(Assistant)] + [Text(User)];
    if reply.Calls? {
      OneMoreMessage(s.messages, AssistantCall(reply.call.id));
    }
  }

  lemma ToolKeepsInvariant(l: Limits, s: State, run: ToolRun, before: nat)
    requires Invariant(l, Running(Tools, s), before)
    ensures Invariant(l, ToolStep(l, s, run), before)
  {
    hide Results, CallIds, Paired, Numbered;
    var call := s.pending.value;
    OneMoreMessage(s.messages, ToolResult(call.id));
    AnswerPairs(s.messages, call.id);
    var trace := Trace(|s.traces| + 1, call.id, call.tool, run.known && run.succeeded);
    OneMoreTrace(s.traces, trace);
    OneMoreNumber(s.traces, trace);
  }

  lemma StepKeepsInvariant(l: Limits, m: Machine, i: Input, before: nat)
    requires Invariant(l, m, before)
    ensures Invariant(l, Step(l, m, i), before)
  {
    if m.Running? {
      match m.node
      case Executor => ExecutorKeepsInvariant(l, m.state, i.reply, before);
      case Tools => ToolKeepsInvariant(l, m.state, i.run, before);
    }
  }

  /**
   Over every run: the executor generates once per iteration and never beyond
   the limit, each recorded call is numbered and answered in order, every call
   in the conversation is answered whenever the executor is entered, and the
   writer is reached within budget only on evidence.
   */
  lemma {:induction false} LoopKeepsInvariant(l: Limits, planLength: nat, before: nat, inputs: seq<Input>)
    ensures Invariant(l, Execute(l, Begin(planLength, before), inputs), before)
  {
    if inputs == [] {
      OneMoreMessage([], Text(User));
    } else {
      var shorter := inputs[..|inputs| - 1];
      LoopKeepsInvariant(l, planLength, before, shorter);
      StepKeepsInvariant(l, Execute(l, Begin(planLength, before), shorter), inputs[|inputs| - 1], before);
    }
  }

  // ---------------------------------------------------------- termination

  function StepsLeft(l: Limits, m: Machine): nat
    requires m.state.iterations <= l.maxIterations
  {
    if !m.Running? then 0
    else 2 * (l.maxIterations - m.state.iterations) + if m.node == Tools then 2 else 1
  }

  lemma {:induction false} StepsRunOut(l: Limits, planLength: nat, before: nat, inputs: seq<Input>)
    ensures var m := Execute(l, Begin(planLength, before), inputs);
            && m.state.iterations <= l.maxIterations
            && (m.Running? ==> StepsLeft(l, m) + |inputs| <= 2 * l.maxIterations + 1)
  {
    LoopKeepsInvariant(l, planLength, before, inputs);
    if inputs != [] {
      var shorter := inputs[..|inputs| - 1];
      StepsRunOut(l, planLength, before, shorter);
      LoopKeepsInvariant(l, planLength, before, shorter);
    }
  }

  /** The loop reaches the writer or raises within two steps per iteration and one more. */
  lemma LoopTerminates(l: Limits, planLength: nat, before: nat, inputs: seq<Input>)
    requires |inputs| > 2 * l.maxIterations
    ensures !Execute(l, Begin(planLength, before), inputs).Running?
  {
    StepsRunOut(l, planLength, before, inputs);
  }

  // ----------------------------------------------------- the nodes, exactly

  /** The executor's first call is taken up, an answer ends the loop once there is evidence, and silence is forgiven once. */
  lemma ExecutorGoesOnExactlyWhen(l: Limits, s: State, reply: Reply)
    requires !s.executorComplete && !s.budgetExceeded
    ensures var m := ExecutorStep(l, s, reply);
            var asked := s.iterations < l.maxIterations;
            && (!asked ==> m == AtWriter(s.(budgetExceeded := true, executorComplete := true)))
            && (m.Raised? <==> asked && (reply.ProviderFails? || (reply.Says? && s.traces == [] && s.promptRetries >= 1)))
            && (m.Raised? ==> m.state == s)
            && (asked && !m.Raised? ==>
                  && m.state.iterations == s.iterations + 1 && m.state.modelCalls == s.modelCalls + 1
                  && m.state.traces == s.traces && m.state.currentStep == s.currentStep
                  && m.state.planLength == s.planLength && !m.state.budgetExceeded)
            && (asked && reply.Calls? ==>
                  && m.Running? && m.node == Tools && m.state.pending == Some(reply.call)
                  && m.state.promptRetries == s.promptRetries
                  && m.state.messages == s.messages + [AssistantCall(reply.call.id)])
            && (asked && reply.Says? && s.traces != [] ==>
                  && m.AtWriter? && m.state.pending == None && m.state.promptRetries == s.promptRetries
                  && m.state.messages == s.messages + [Text(Assistant)])
            && (asked && reply.Says? && s.traces == [] && !m.Raised? ==>
                  && m.Running? && m.node == Executor && m.state.pending == None
                  && m.state.promptRetries == s.promptRetries + 1
                  && m.state.messages == s.messages + [Text(Assistant), Text(User)])
  {
  }

  /** A pending call is run unless the calls are used up, and its result recorded and answered. */
  lemma ToolsRunExactlyWhen(l: Limits, s: State, run: ToolRun)
    requires s.pending.Some? && !s.budgetExceeded && !s.executorComplete
    ensures var m := ToolStep(l, s, run);
            var call := s.pending.value;
            var allowed := |s.traces| < l.maxToolCalls;
            && (!allowed ==> m == AtWriter(s.(budgetExceeded := true, executorComplete := true, pending := None)))
            && (m.Raised? <==> allowed && (!run.recorded || (run.known && !run.affordable)))
            && (m.Raised? ==> m.state == s)
            && (allowed && !m.Raised? ==>
                  && (m.AtWriter? <==> s.iterations >= l.maxIterations) && (m.Running? ==> m.node == Executor)
                  && m.state == s.(
                       pending := None,
                       traces := s.traces + [Trace(|s.traces| + 1, call.id, call.tool, run.known && run.succeeded)],
                       messages := s.messages + [ToolResult(call.id)],
                       currentStep := if s.currentStep < s.planLength then s.currentStep + 1 else s.planLength,
                       budgetExceeded := s.iterations >= l.maxIterations))
  {
  }
}
