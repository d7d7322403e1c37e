/**
 The coding agent's graph: author, tool, validate, finalize. Every decision of
 the environment (the model's reply, the sandbox results, failures of the
 stores) is an explicit input of the step that meets it.
 */
module CodingAgents {
  import opened Prelude
  import opened Budgets
  import W = Workspaces

  datatype Config = Config(
    maxFileToolCalls: nat,
    maxRepairs: nat,
    snapshotMode: bool,
    modelCallReserve: nat,
    workspace: W.Limits)

  datatype Call =
    | SubmitReady(summary: string)
    | FileCall(operation: W.Operation)
    | SandboxCall(known: bool)  // `known` is false for a sandbox action that is no tool
    | OtherCall

  datatype Handoff = ModelReady | EditLimit | ModelCallReserve

  datatype ToolName = EditingTool | OtherTool | StaticCheck | RunPytest

  datatype Trace = Trace(tool: ToolName, succeeded: bool)

  /** The graph state; `feedback` says that protocol feedback is outstanding. */
  datatype State = State(
    pending: seq<Call>,
    traces: seq<Trace>,
    toolCalls: nat,
    promptRetries: nat,
    modelCalls: nat,
    sandboxRuns: nat,
    repairAttempts: nat,
    filesWritten: nat,
    validationSucceeded: bool,
    handoff: Option<Handoff>,
    feedback: bool)

  /** What the steps change outside the graph state. */
  datatype World = World(tree: W.Tree, accounts: Accounts)

  datatype Error =
    | ProtocolViolation | NativeToolRequired | ToolBudgetExceeded | RepairExhausted
    | WorkspaceEmpty | WorkspaceUnreadable | SourceChanged
    | BudgetRefused | ReplyFailed | StoreFailed | SandboxFailed | ToolRaised

  datatype Node = Author | Tool | Validate | Finalize

  function InitialState(priorTraces: seq<Trace>): State {
    State([], priorTraces, 0, 0, 0, 0, 0, 0, false, None, false)
  }

  // --------------------------------------------------------------- inputs

  /** `oversized` and `schemaViolation` stand for checks on the encoded arguments. */
  datatype Response = Response(calls: seq<Call>, oversized: bool, schemaViolation: bool)

  datatype ToolResult = ToolResult(
    expired: bool,          // the wall clock at the charge
    fits: bool,             // the request after the previewed edit fits the provider
    reached: bool,          // the operation was carried out
    raises: bool,           // the tool raises, whether or not it was: its outcome is unknown
    succeeded: bool,        // the verdict of a tool that is not a file tool
    tree: W.Tree,           // the sources after a tool that is not a file tool
    recorded: bool)         // the trace was stored

  datatype SandboxResult = SandboxResult(succeeded: bool, exitCode: int, truncated: bool)

  datatype Check = Check(
    expired: bool,          // the wall clock at the charges
    ran: bool,              // the sandbox gave a result
    result: SandboxResult,
    stored: bool)           // its log and trace were stored

  datatype ValidationInput = ValidationInput(
    staticCheck: Check,
    pytest: Check,
    tree: W.Tree,           // the sources once the checks have begun
    expired: bool)          // the wall clock at the charge of a repair

  datatype Input = Input(
    attempt: Attempt, response: Response, tool: ToolResult, validation: ValidationInput)

  // ------------------------------------------------------- pure decisions

  const SNAPSHOT_EDITS := 8

  function Min(a: nat, b: nat): nat {
    if a < b then a else b
  }

  function EditAllowance(c: Config): nat {
    Min(SNAPSHOT_EDITS, c.maxFileToolCalls)
  }

  /** Shared model calls left, if there is a budget. */
  function RemainingCalls(a: Accounts): Option<nat> {
    if a.used.None? then None
    else Some(Max(0, a.limits.modelCalls - Get(a.used.value, ModelCalls)))
  }

  function CompletionTrigger(c: Config, s: State, a: Accounts): Option<Handoff> {
    if !c.snapshotMode then None
    else if s.toolCalls >= EditAllowance(c) then Some(EditLimit)
    else
      match RemainingCalls(a)
      case None => None
      case Some(left) => if left <= c.modelCallReserve then Some(ModelCallReserve) else None
  }

  predicate LastEditSucceeded(s: State) {
    s.traces != [] && s.traces[|s.traces| - 1] == Trace(EditingTool, true)
  }

  /** Whether authoring must stop, and whether it may stop here. */
  function HandoffReason(c: Config, s: State, a: Accounts): Result<Option<Handoff>, Error> {
    match CompletionTrigger(c, s, a)
    case None => Ok(None)
    case Some(reason) =>
      if s.modelCalls == 0 then Err(if reason == EditLimit then ToolBudgetExceeded else BudgetRefused)
      else if s.feedback || !LastEditSucceeded(s) then Err(ToolBudgetExceeded)
      else Ok(Some(reason))
  }

  /** The per-field character limits of a snapshot call; no other tool is allowed. */
  predicate WithinSnapshotLimits(call: Call) {
    match call
    case SubmitReady(summary) => |summary| <= 240
    case FileCall(CreateFile(path, content)) => 0 < |path| <= 500 && |content| <= 2048
    case FileCall(EditFile(path, oldText, newText)) =>
      0 < |path| <= 500 && 0 < |oldText| <= 1024 && |newText| <= 1024
    case FileCall(DeleteSource(_)) => false
    case SandboxCall(_) => false
    case OtherCall => false
  }

  predicate ReadyIsLast(calls: seq<Call>) {
    forall i :: 0 <= i < |calls| - 1 ==> !calls[i].SubmitReady?
  }

  /** A complete, metered completion that only broke the local tool schema. */
  predicate Correctable(r: Response, t: Attempt) {
    && r.schemaViolation
    && t.outcome.Unusable? && t.outcome.usage.Some?
    && var u := t.outcome.usage.value;
       u.inputTokens >= 0 && u.outputTokens >= 0 && u.totalTokens == u.inputTokens + u.outputTokens
  }

  predicate Rejected(c: Config, r: Response) {
    || r.calls == []
    || (c.snapshotMode && (|r.calls| != 1 || !WithinSnapshotLimits(r.calls[0]) || r.oversized))
  }

  predicate ValidationOk(r: SandboxResult) {
    r.succeeded && r.exitCode == 0 && !r.truncated
  }

  function RouteAfterAuthor(s: State): Node {
    if s.handoff.Some? then Validate
    else if s.pending == [] then Author
    else if s.pending[0].SubmitReady? then Validate
    else Tool
  }

  function RouteAfterTool(c: Config, s: State, a: Accounts): Result<Node, Error> {
    if s.pending == [] then
      match HandoffReason(c, s, a)
      case Err(e) => Err(e)
      case Ok(reason) => Ok(if reason.Some? then Validate else Author)
    else Ok(if s.pending[0].SubmitReady? then Validate else Tool)
  }

  function RouteAfterValidation(s: State): Node {
    if s.validationSucceeded then Finalize else Author
  }

  // ---------------------------------------------------------------- steps

  /** A running graph, or a run that raised. */
  datatype Machine =
    | Running(node: Node, state: State, world: World)
    | Raised(error: Error, state: State, world: World)

  predicate Terminal(m: Machine) {
    m.Raised? || m.node == Finalize
  }

  /** A node's updates and the route taken, or the error it raised. */
  datatype Outcome = Continue(node: Node, state: State) | Raise(error: Error, state: State)

  function Lift(o: Outcome, w: World): Machine {
    match o
    case Continue(node, state) => Running(node, state, w)
    case Raise(error, state) => Raised(error, state, w)
  }

  function Route(s: State): Outcome {
    Continue(RouteAfterAuthor(s), s)
  }

  /** What the author node makes of a reply. */
  function AuthorUpdate(c: Config, s: State, reply: Reply, attempt: Attempt, r: Response): Outcome {
    var counted := s.(modelCalls := s.modelCalls + 1);
    var corrected := counted.(promptRetries := s.promptRetries + 1, feedback := true);
    if reply == Failure then Raise(ReplyFailed, s)
    else if reply == ProtocolError then
      if !c.snapshotMode || !Correctable(r, attempt) then Raise(ReplyFailed, s)
      else if s.promptRetries >= 1 then Raise(ProtocolViolation, s)
      else Route(corrected.(pending := [], handoff := None))
    else if Rejected(c, r) then
      if s.promptRetries >= 1 then
        Raise(if r.calls == [] then NativeToolRequired else ProtocolViolation, s)
      else
        // The pending calls and the handoff reason are left as they were.
        Route(corrected)
    else if !ReadyIsLast(r.calls) then Raise(ProtocolViolation, s)
    else
      Route(counted.(
        pending := r.calls,
        promptRetries := if c.snapshotMode then s.promptRetries else 0,
        feedback := false,
        handoff := if r.calls[0].SubmitReady? then Some(ModelReady) else None))
  }

  function AuthorStep(c: Config, s: State, w: World, attempt: Attempt, r: Response): Machine {
    match HandoffReason(c, s, w.accounts)
    case Err(e) => Raised(e, s, w)
    case Ok(Some(reason)) =>
      Running(Validate, s.(pending := [], handoff := Some(reason)), w)
    case Ok(None) =>
      if s.toolCalls >= c.maxFileToolCalls then Raised(ToolBudgetExceeded, s, w)
      // In snapshot mode the prompt holds every source file.
      else if c.snapshotMode && W.Snapshot(c.workspace, w.tree).None? then Raised(WorkspaceUnreadable, s, w)
      else
        Lift(AuthorUpdate(c, s, Replied(w.accounts, attempt), attempt, r),
             w.(accounts := Generated(w.accounts, attempt).0))
  }

  /** Charges one resource of the shared budget, if there is one. */
  function Spent(a: Accounts, r: Resource, expired: bool): Option<Accounts>
    requires Limited(r)
  {
    if a.used.None? then Some(a)
    else
      match Consumed(a.limits, a.used.value, expired, r, 1)
      case Err(_) => None
      case Ok(u) => Some(a.(used := Some(u)))
  }

  /** A budgeted sandbox run; a refused second charge keeps the first one. */
  function SandboxCharged(a: Accounts, expired: bool): (Accounts, bool) {
    match Spent(a, SandboxRuns, expired)
    case None => (a, false)
    case Some(b) =>
      match Spent(b, ToolCalls, expired)
      case None => (b, false)
      case Some(d) => (d, true)
  }

  function NameOf(call: Call): ToolName {
    if call.FileCall? && !call.operation.DeleteSource? then EditingTool else OtherTool
  }

  predicate OffersTool(c: Config, call: Call) {
    if c.snapshotMode then NameOf(call) == EditingTool
    else !call.SubmitReady? && (call.SandboxCall? ==> call.known)
  }

  /** The preview that a snapshot edit must pass before it touches any file. */
  ghost predicate PreviewPasses(c: Config, tree: W.Tree, op: W.Operation) {
    match op
    case CreateFile(path, content) => W.Previewed(c.workspace, tree, path, content, false).Some?
    case EditFile(path, oldText, newText) =>
      var text := W.Edited(c.workspace, tree, path, oldText, newText);
      text.Ok? && W.Previewed(c.workspace, tree, path, text.value, true).Some?
    case DeleteSource(_) => true
  }

  /** A write through a path component that is a file raises instead of failing. */
  ghost predicate WriteRaises(c: Config, tree: W.Tree, op: W.Operation) {
    op.CreateFile? && W.Written(c.workspace, tree, op.path, op.content, false) == Err(W.NotADirectory)
  }

  datatype Effect = Effect(tree: W.Tree, succeeded: bool, raised: bool)

  ghost function ToolEffect(c: Config, tree: W.Tree, call: Call, t: ToolResult): Effect {
    if !OffersTool(c, call) then Effect(tree, false, false)
    else if !call.FileCall? then
      // A sandbox run sees a copy of the sources.
      Effect(if call.SandboxCall? then tree else t.tree, t.succeeded, t.raises)
    else if c.snapshotMode && !(PreviewPasses(c, tree, call.operation) && t.fits) then
      Effect(tree, false, false)
    else if !t.reached then Effect(tree, false, t.raises)
    else if WriteRaises(c, tree, call.operation) then Effect(tree, false, true)
    else
      var (after, succeeded) := W.Apply(c.workspace, tree, call.operation);
      Effect(after, succeeded, t.raises)
  }

  /** Sandbox tools are charged by the sandbox; every other tool is charged here. */
  function ToolCharged(c: Config, a: Accounts, call: Call, expired: bool): (Accounts, bool) {
    if call.SandboxCall? then (if OffersTool(c, call) then SandboxCharged(a, expired) else (a, true))
    else
      match Spent(a, ToolCalls, expired)
      case None => (a, false)
      case Some(b) => (b, true)
  }

  function ToolUpdate(c: Config, s: State, succeeded: bool, a: Accounts): Outcome
    requires s.pending != []
  {
    var call := s.pending[0];
    var after := s.(
      pending := s.pending[1..],
      traces := s.traces + [Trace(NameOf(call), succeeded)],
      toolCalls := s.toolCalls + 1,
      sandboxRuns := s.sandboxRuns + (if call.SandboxCall? && call.known then 1 else 0),
      filesWritten := s.filesWritten + (if succeeded && call.FileCall? then 1 else 0));
    match RouteAfterTool(c, after, a)
    case Err(e) => Raise(e, after)
    case Ok(node) => Continue(node, after)
  }

  ghost function ToolStep(c: Config, s: State, w: World, t: ToolResult): Machine {
    if s.pending == [] then Raised(ProtocolViolation, s, w)
    else if c.snapshotMode && s.toolCalls >= SNAPSHOT_EDITS then Raised(ToolBudgetExceeded, s, w)
    else if s.toolCalls >= c.maxFileToolCalls then Raised(ToolBudgetExceeded, s, w)
    else
      var (charged, funded) := ToolCharged(c, w.accounts, s.pending[0], t.expired);
      if !funded then Raised(BudgetRefused, s, w.(accounts := charged))
      else
        var effect := ToolEffect(c, w.tree, s.pending[0], t);
        var next := World(effect.tree, charged);
        if effect.raised then Raised(ToolRaised, s, next)
        else if !t.recorded then Raised(StoreFailed, s, next)
        else Lift(ToolUpdate(c, s, effect.succeeded, charged), next)
  }

  /** One check: charged, run, then its log and trace are stored. */
  function CheckMade(a: Accounts, check: Check): (Accounts, Option<Error>) {
    var (b, funded) := SandboxCharged(a, check.expired);
    (b, if !funded then Some(BudgetRefused)
        else if !check.ran then Some(SandboxFailed)
        else if !check.stored then Some(StoreFailed)
        else None)
  }

  /** The static check, and the test run too if the static check passed. */
  function ChecksMade(a: Accounts, v: ValidationInput): (Accounts, Option<Error>) {
    var (once, failure) := CheckMade(a, v.staticCheck);
    if failure.Some? || !ValidationOk(v.staticCheck.result) then (once, failure) else CheckMade(once, v.pytest)
  }

  /** What the validate node makes of the two checks; continuing to author costs a repair. */
  function ChecksUpdate(c: Config, s: State, v: ValidationInput, a: Accounts): Outcome {
    var passedStatic := ValidationOk(v.staticCheck.result);
    var passed := passedStatic && ValidationOk(v.pytest.result);
    var traces := s.traces + [Trace(StaticCheck, passedStatic)]
                  + (if passedStatic then [Trace(RunPytest, passed)] else []);
    var checked := s.(traces := traces, sandboxRuns := s.sandboxRuns + (if passedStatic then 2 else 1),
                      validationSucceeded := passed);
    var trigger := CompletionTrigger(c, s, a);
    if passed then
      var after := checked.(handoff := if s.handoff.Some? then s.handoff else trigger);
      Continue(RouteAfterValidation(after), after)
    else if s.repairAttempts >= c.maxRepairs then Raise(RepairExhausted, s)
    else if trigger.Some? then Raise(ToolBudgetExceeded, s)
    else
      // The pending calls are not cleared.
      var after := checked.(repairAttempts := s.repairAttempts + 1, handoff := None);
      Continue(RouteAfterValidation(after), after)
  }

  function Concluded(c: Config, s: State, next: World, v: ValidationInput): Machine {
    var update := ChecksUpdate(c, s, v, next.accounts);
    if update.Raise? || update.node == Finalize then Lift(update, next)
    else
      match Spent(next.accounts, CodeRepairs, v.expired)
      case None => Raised(BudgetRefused, s, next)
      case Some(repaired) => Lift(update, next.(accounts := repaired))
  }

  function ValidateStep(c: Config, s: State, w: World, v: ValidationInput): Machine {
    var sources := W.Snapshot(c.workspace, w.tree);
    if sources.None? then Raised(WorkspaceUnreadable, s, w)
    else if sources.value == map[] then Raised(WorkspaceEmpty, s, w)
    else
      var (spent, failure) := ChecksMade(w.accounts, v);
      var next := World(v.tree, spent);
      if failure.Some? then Raised(failure.value, s, next)
      else
        var again := W.Snapshot(c.workspace, v.tree);
        if again.None? then Raised(WorkspaceUnreadable, s, next)
        else if again != sources then Raised(SourceChanged, s, next)
        else Concluded(c, s, next, v)
  }

  ghost function Step(c: Config, m: Machine, i: Input): Machine {
    if Terminal(m) then m
    else
      match m.node
      case Author => AuthorStep(c, m.state, m.world, i.attempt, i.response)
      case Tool => ToolStep(c, m.state, m.world, i.tool)
      case Validate => ValidateStep(c, m.state, m.world, i.validation)
      case Finalize => m
  }

  ghost function Execute(c: Config, m: Machine, inputs: seq<Input>): Machine {
    if inputs == [] then m
    else Step(c, Execute(c, m, inputs[..|inputs| - 1]), inputs[|inputs| - 1])
  }

  function Begin(priorTraces: seq<Trace>, w: World): Machine {
    Running(Author, InitialState(priorTraces), w)
  }
}
