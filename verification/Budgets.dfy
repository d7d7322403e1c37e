/**
 Request-local budgets, the durable operation journal, and the language-model
 wrapper that charges one to the other.

 A run is a sequence of actions taken one after another by a single worker.
 Every point at which the wrapper may fail is an explicit field of `Attempt`.
 */
module Budgets {
  import opened Prelude

  datatype Resource =
    | Steps | Replans | ModelCalls | ToolCalls | SearchQueries | CodeRepairs
    | TrainingRuns | SandboxRuns | TotalTokens | WallSeconds
    | InputTokens | OutputTokens

  /** Resources named by a field of the limits; the other two are only counted. */
  predicate Limited(r: Resource) {
    r != InputTokens && r != OutputTokens
  }

  datatype BudgetLimits = BudgetLimits(
    steps: nat, replans: nat, modelCalls: nat, toolCalls: nat, searchQueries: nat,
    codeRepairs: nat, trainingRuns: nat, sandboxRuns: nat, totalTokens: nat, wallSeconds: nat)
  {
    function Of(r: Resource): nat
      requires Limited(r)
    {
      match r
      case Steps => steps
      case Replans => replans
      case ModelCalls => modelCalls
      case ToolCalls => toolCalls
      case SearchQueries => searchQueries
      case CodeRepairs => codeRepairs
      case TrainingRuns => trainingRuns
      case SandboxRuns => sandboxRuns
      case TotalTokens => totalTokens
      case WallSeconds => wallSeconds
    }
  }

  /** The dictionary of amounts used; an absent key counts as zero. */
  type Used = map<Resource, int>

  function Get(used: Used, r: Resource): int {
    if r in used then used[r] else 0
  }

  ghost predicate NonNegative(used: Used) {
    forall r :: Get(used, r) >= 0
  }

  function Max(a: int, b: int): int {
    if a < b then b else a
  }

  datatype Usage = Usage(inputTokens: int, outputTokens: int, totalTokens: int)

  // ---------------------------------------------------------------- budget

  /** `Exhausted(used, ...)` is the check made before every consumption. */
  function Exhausted(limits: BudgetLimits, used: Used, expired: bool): (r: Option<Resource>) {
    if expired then Some(WallSeconds)
    else if Get(used, TotalTokens) >= limits.totalTokens then Some(TotalTokens)
    else None
  }

  function Consumed(limits: BudgetLimits, used: Used, expired: bool, r: Resource, amount: int)
    : (result: Result<Used, Resource>)
    requires Limited(r)
  {
    var refusal := Exhausted(limits, used, expired);
    if refusal.Some? then Err(refusal.value)
    else if Get(used, r) + amount > limits.Of(r) then Err(r)
    else Ok(used[r := Get(used, r) + amount])
  }

  function Added(used: Used, usage: Usage): Used {
    used[InputTokens := Get(used, InputTokens) + Max(0, usage.inputTokens)]
        [OutputTokens := Get(used, OutputTokens) + Max(0, usage.outputTokens)]
        [TotalTokens := Get(used, TotalTokens) + Max(0, usage.totalTokens)]
  }

  /** What a response costs; a response without usage closes the budget. */
  function Accounted(limits: BudgetLimits, used: Used, usage: Option<Usage>): Used {
    match usage
    case None => used[TotalTokens := limits.totalTokens]
    case Some(u) => Added(used, u)
  }

  class Budget {
    const limits: BudgetLimits
    var used: Used

    constructor (limits: BudgetLimits, used: Used)
      ensures this.limits == limits && this.used == used
    {
      this.limits, this.used := limits, used;
    }

    method Check(expired: bool) returns (refusal: Option<Resource>)
      ensures refusal.None? <==> !expired && Get(used, TotalTokens) < limits.totalTokens
      ensures refusal == Exhausted(limits, used, expired)
    {
      if expired {
        return Some(WallSeconds);
      }
      if Get(used, TotalTokens) >= limits.totalTokens {
        return Some(TotalTokens);
      }
      return None;
    }

    /** Charges all of `amount`, or refuses and leaves the counters alone. */
    method Consume(r: Resource, amount: int, expired: bool) returns (refusal: Option<Resource>)
      requires Limited(r)
      modifies this`used
      ensures match Consumed(limits, old(used), expired, r, amount)
              case Ok(u) => refusal == None && used == u
              case Err(e) => refusal == Some(e) && used == old(used)
      ensures refusal.None? <==>
                !expired && Get(old(used), TotalTokens) < limits.totalTokens
                && Get(old(used), r) + amount <= limits.Of(r)
      ensures refusal.Some? ==>
                refusal.value == if expired then WallSeconds
                                 else if Get(old(used), TotalTokens) >= limits.totalTokens then TotalTokens else r
      ensures Get(used, r) == Get(old(used), r) + if refusal.None? then amount else 0
      ensures forall other :: other != r ==> Get(used, other) == Get(old(used), other)
    {
      refusal := Check(expired);
      if refusal.Some? {
        return;
      }
      var current := Get(used, r);
      if current + amount > limits.Of(r) {
        return Some(r);
      }
      used := used[r := current + amount];
    }

    /** Records the tokens of one response; `None` is a response without usage. */
    method Account(usage: Option<Usage>, expired: bool) returns (raised: bool)
      modifies this`used
      ensures used == Accounted(limits, old(used), usage)
      ensures Get(used, TotalTokens) == if usage.None? then limits.totalTokens
                                        else Get(old(used), TotalTokens) + Max(0, usage.value.totalTokens)
      ensures forall r :: r !in {InputTokens, OutputTokens, TotalTokens} || (usage.None? && r != TotalTokens) ==>
                Get(used, r) == Get(old(used), r)
      ensures usage.Some? ==>
                && Get(used, InputTokens) == Get(old(used), InputTokens) + Max(0, usage.value.inputTokens)
                && Get(used, OutputTokens) == Get(old(used), OutputTokens) + Max(0, usage.value.outputTokens)
      ensures raised <==> usage.None? || Exhausted(limits, used, expired).Some?
    {
      match usage {
        case None =>
          used := used[TotalTokens := limits.totalTokens];
          return true;
        case Some(u) =>
          used := used[InputTokens := Get(used, InputTokens) + Max(0, u.inputTokens)];
          used := used[OutputTokens := Get(used, OutputTokens) + Max(0, u.outputTokens)];
          used := used[TotalTokens := Get(used, TotalTokens) + Max(0, u.totalTokens)];
          var refusal := Check(expired);
          return refusal.Some?;
      }
    }

    method Refund()
      modifies this`used
      ensures used == old(used)[ModelCalls := Max(0, Get(old(used), ModelCalls) - 1)]
    {
      used := used[ModelCalls := Max(0, Get(used, ModelCalls) - 1)];
    }
  }

  // --------------------------------------------------------------- journal

  type OperationId = nat

  datatype Kind = Llm | OtherCall(name: string)

  /** The durable row: operations whose outcome is not known yet, and saved usage. */
  datatype Row = Row(pending: map<OperationId, Kind>, usage: Used)

  /** For the resources the worker counts, saved usage never goes below what an earlier write saved. */
  function Merged(used: Used, saved: Used): Used {
    map k | k in used :: Max(used[k], Get(saved, k))
  }

  /** An operation may start only when nothing is pending. */
  function Started(row: Row, id: OperationId, kind: Kind, used: Used): Option<Row> {
    if row.pending != map[] then None
    else Some(Row(row.pending[id := kind], Merged(used, row.usage)))
  }

  function Finished(row: Row, id: OperationId, kind: Kind, used: Used): Option<Row> {
    if id !in row.pending || row.pending[id] != kind then None
    else Some(Row(row.pending - {id}, Merged(used, row.usage)))
  }

  /** Withdraws a reservation that was proved never to have been sent. */
  function Withdrawn(row: Row, id: OperationId, used: Used): Option<Row> {
    if id !in row.pending || row.pending[id] != Llm then None
    else
      var usage := row.usage[ModelCalls := Max(0, Get(row.usage, ModelCalls) - 1)];
      Some(Row(row.pending - {id}, Merged(used, usage)))
  }

  class Journal {
    var row: Row

    constructor (row: Row)
      ensures this.row == row
    {
      this.row := row;
    }

    method Start(id: OperationId, kind: Kind, used: Used, reachable: bool) returns (ok: bool)
      modifies this
      ensures ok <==> reachable && old(row).pending == map[]
      ensures if ok then Some(row) == Started(old(row), id, kind, used) else row == old(row)
    {
      if !reachable || row.pending != map[] {
        return false;
      }
      row := Row(row.pending[id := kind], Merged(used, row.usage));
      return true;
    }

    method Finish(id: OperationId, kind: Kind, used: Used, reachable: bool) returns (ok: bool)
      modifies this
      ensures ok <==> reachable && id in old(row).pending && old(row).pending[id] == kind
      ensures if ok then Some(row) == Finished(old(row), id, kind, used) else row == old(row)
    {
      if !reachable || id !in row.pending || row.pending[id] != kind {
        return false;
      }
      row := Row(row.pending - {id}, Merged(used, row.usage));
      return true;
    }

    method Withdraw(id: OperationId, used: Used, reachable: bool) returns (ok: bool)
      modifies this
      ensures ok <==> reachable && id in old(row).pending && old(row).pending[id] == Llm
      ensures if ok then Some(row) == Withdrawn(old(row), id, used) else row == old(row)
    {
      if !reachable || id !in row.pending || row.pending[id] != Llm {
        return false;
      }
      var usage := row.usage[ModelCalls := Max(0, Get(row.usage, ModelCalls) - 1)];
      row := Row(row.pending - {id}, Merged(used, usage));
      return true;
    }

    /** A rejection before anything was reserved saves usage and nothing else. */
    method NoteRejection(used: Used, reachable: bool)
      modifies this
      ensures row == if reachable then old(row).(usage := Merged(used, old(row).usage)) else old(row)
    {
      if reachable {
        row := row.(usage := Merged(used, row.usage));
      }
    }
  }

  // ----------------------------------------------------- one model request

  datatype ProviderOutcome =
    | Completed(usage: Option<Usage>)      // a usable completion
    | Unusable(usage: Option<Usage>)       // a received completion that breaks the protocol
    | RejectedLocally                      // a late guard proved that nothing was sent
    | Interrupted                          // lost transport, timeout or cancellation

  /** Everything the environment decides during one request. */
  datatype Attempt = Attempt(
    id: OperationId,
    available: bool,          // the provider wrapper has not been stopped
    admitted: bool,           // the request preview fits the provider
    expired: bool,            // the wall clock at the charge
    auditStarts: bool,        // the audit sink accepts the dispatch
    journalStarts: bool,      // the journal is reachable at the start
    outcome: ProviderOutcome,
    journalEnds: bool,        // the journal is reachable at the end
    analytics: bool,          // the optional usage analytics succeed
    auditEnds: bool,          // the audit sink accepts the completion
    expiredAtEnd: bool)       // the wall clock after the response

  /** What one request did. The last three handed the request to the provider. */
  datatype Receipt =
    | Declined                       // stopped, rejected by the preview, or not funded
    | Refused                        // charged, but audit or journal refused the start
    | Unsent                         // handed over and proved not sent
    | Lost                           // handed over and the result is unknown
    | Received(usage: Option<Usage>) // a completion came back

  predicate Dispatched(r: Receipt) {
    r.Unsent? || r.Lost? || r.Received?
  }

  /** A worker's accounts: an optional shared budget and an optional journal. */
  datatype Accounts = Accounts(limits: BudgetLimits, used: Option<Used>, row: Option<Row>)

  function UsedOf(a: Accounts): Used {
    if a.used.Some? then a.used.value else map[]
  }

  function PendingOf(a: Accounts): map<OperationId, Kind> {
    if a.row.Some? then a.row.value.pending else map[]
  }

  function Charge(a: Accounts, expired: bool): Option<Accounts> {
    if a.used.None? then Some(a)
    else
      match Consumed(a.limits, a.used.value, expired, ModelCalls, 1)
      case Err(_) => None
      case Ok(u) => Some(a.(used := Some(u)))
  }

  function Reserve(a: Accounts, t: Attempt): Option<Accounts> {
    if !t.auditStarts then None
    else if a.row.None? then Some(a)
    else if !t.journalStarts then None
    else
      match Started(a.row.value, t.id, Llm, UsedOf(a))
      case None => None
      case Some(row) => Some(a.(row := Some(row)))
  }

  /** The journal is closed only if every step after the response succeeded. */
  function Settle(a: Accounts, t: Attempt): Accounts {
    if a.row.None? || !t.journalEnds then a
    else
      match Finished(a.row.value, t.id, Llm, UsedOf(a))
      case None => a
      case Some(row) => a.(row := Some(row))
  }

  function Respond(a: Accounts, t: Attempt, usage: Option<Usage>): Accounts {
    var charged := if a.used.Some? then a.(used := Some(Accounted(a.limits, a.used.value, usage))) else a;
    if (usage.None? && a.used.Some?) || !t.analytics then charged else Settle(charged, t)
  }

  function Unsend(a: Accounts, t: Attempt): Accounts {
    var refunded := if a.used.Some?
                    then a.(used := Some(a.used.value[ModelCalls := Max(0, Get(a.used.value, ModelCalls) - 1)]))
                    else a;
    if a.row.None? || !t.journalEnds then refunded
    else
      match Withdrawn(a.row.value, t.id, UsedOf(refunded))
      case None => refunded
      case Some(row) => refunded.(row := Some(row))
  }

  function Generated(a: Accounts, t: Attempt): (Accounts, Receipt) {
    if !t.available then (a, Declined)
    else if !t.admitted then
      (if a.row.Some? && t.journalEnds
       then a.(row := Some(a.row.value.(usage := Merged(UsedOf(a), a.row.value.usage))))
       else a, Declined)
    else
      match Charge(a, t.expired)
      case None => (a, Declined)
      case Some(charged) =>
        match Reserve(charged, t)
        case None => (charged, Refused)
        case Some(reserved) =>
          match t.outcome
          case RejectedLocally => (Unsend(reserved, t), Unsent)
          case Interrupted => (reserved, Lost)
          case Completed(usage) => (Respond(reserved, t, usage), Received(usage))
          case Unusable(usage) => (Respond(reserved, t, usage), Received(usage))
  }

  // ------------------------------------------------- any other operation

  /** What the environment decides during a search, sandbox run or tool call. */
  datatype Operation = Operation(
    id: OperationId,
    name: string,
    auditStarts: bool,
    journalStarts: bool,
    completes: bool,          // the body returned; otherwise its result is unknown
    journalEnds: bool,
    auditEnds: bool)

  datatype Conduct = Unstarted | Uncertain | Closed

  /** The row after an external operation that is not a model request. */
  function ConductedRow(row: Option<Row>, used: Used, op: Operation): (Option<Row>, Conduct) {
    if !op.auditStarts then (row, Unstarted)
    else if row.None? then (row, if op.completes then Closed else Uncertain)
    else if !op.journalStarts then (row, Unstarted)
    else
      match Started(row.value, op.id, OtherCall(op.name), used)
      case None => (row, Unstarted)
      case Some(started) =>
        if !op.completes || !op.journalEnds then (Some(started), Uncertain)
        else (Finished(started, op.id, OtherCall(op.name), used), Closed)
  }

  function Conducted(a: Accounts, op: Operation): (Accounts, Conduct) {
    var (row, conduct) := ConductedRow(a.row, UsedOf(a), op);
    (a.(row := row), conduct)
  }

  /** Audit and journal at the start, the body, then the journal and audit again. */
  method ExternalOperation(journal: Journal?, used: Used, op: Operation) returns (ok: bool, ghost conduct: Conduct)
    modifies journal
    ensures var before := if journal == null then None else Some(old(journal.row));
            var after := if journal == null then None else Some(journal.row);
            (after, conduct) == ConductedRow(before, used, op)
    ensures ok <==> conduct == Closed && op.auditEnds
  {
    if !op.auditStarts {
      return false, Unstarted;
    }
    if journal != null {
      var started := journal.Start(op.id, OtherCall(op.name), used, op.journalStarts);
      if !started {
        return false, Unstarted;
      }
    }
    if !op.completes {
      return false, Uncertain;
    }
    if journal != null {
      var finished := journal.Finish(op.id, OtherCall(op.name), used, op.journalEnds);
      if !finished {
        return false, Uncertain;
      }
    }
    ok, conduct := op.auditEnds, Closed;
  }

  /** The result handed back to the caller. */
  datatype Reply = Answer | ProtocolError | Failure

  /** An answer needs a completion, every account written, and a budget still open. */
  function Replied(a: Accounts, t: Attempt): Reply {
    var (b, receipt) := Generated(a, t);
    if receipt.Received? && t.analytics && (receipt.usage.Some? || a.used.None?)
       && (a.row.Some? ==> t.journalEnds) && t.auditEnds
       && (b.used.Some? ==> Exhausted(a.limits, b.used.value, t.expiredAtEnd).None?)
    then if t.outcome.Unusable? then ProtocolError else Answer
    else Failure
  }

  class BudgetedLLM {
    const budget: Budget?
    const journal: Journal?

    constructor (budget: Budget?, journal: Journal?)
      ensures this.budget == budget && this.journal == journal
    {
      this.budget, this.journal := budget, journal;
    }

    function View(limits: BudgetLimits): Accounts
      reads this, budget, journal
      requires budget != null ==> budget.limits == limits
    {
      Accounts(limits,
               if budget == null then None else Some(budget.used),
               if journal == null then None else Some(journal.row))
    }

    function CurrentUsed(): Used
      reads this, budget
    {
      if budget == null then map[] else budget.used
    }

    /** Entering the external operation: audit first, then the journal. */
    method Enter(ghost limits: BudgetLimits, t: Attempt) returns (ok: bool)
      requires budget != null ==> budget.limits == limits
      modifies journal
      ensures match Reserve(old(View(limits)), t)
              case None => !ok && View(limits) == old(View(limits))
              case Some(reserved) => ok && View(limits) == reserved
    {
      if !t.auditStarts {
        return false;
      }
      ok := true;
      if journal != null {
        ok := journal.Start(t.id, Llm, CurrentUsed(), t.journalStarts);
      }
    }

    /** A completion came back: charge its tokens, then close the journal entry. */
    method Receive(ghost limits: BudgetLimits, t: Attempt, usage: Option<Usage>) returns (closed: bool)
      requires budget != null ==> budget.limits == limits
      requires journal != null ==> t.id in journal.row.pending && journal.row.pending[t.id] == Llm
      modifies budget, journal
      ensures View(limits) == Respond(old(View(limits)), t, usage)
      ensures closed <==> t.analytics && (usage.Some? || budget == null)
                          && (journal != null ==> t.journalEnds) && t.auditEnds
    {
      if budget != null {
        var _ := budget.Account(usage, t.expiredAtEnd);
      }
      if !t.analytics || (usage.None? && budget != null) {
        return false;
      }
      closed := true;
      if journal != null {
        closed := journal.Finish(t.id, Llm, CurrentUsed(), t.journalEnds);
      }
      closed := closed && t.auditEnds;
    }

    /** A late local guard proved that nothing was sent: undo the charge. */
    method Undo(ghost limits: BudgetLimits, t: Attempt)
      requires budget != null ==> budget.limits == limits
      requires journal != null ==> t.id in journal.row.pending && journal.row.pending[t.id] == Llm
      modifies budget, journal
      ensures View(limits) == Unsend(old(View(limits)), t)
    {
      if budget != null {
        budget.Refund();
      }
      if journal != null {
        var _ := journal.Withdraw(t.id, CurrentUsed(), t.journalEnds);
      }
    }

    /**
     One model request. An answer reaches the caller only if the provider
     completed, every account was written, and the budget is still open.
     */
    method Generate(ghost limits: BudgetLimits, t: Attempt) returns (reply: Reply, receipt: Receipt)
      requires budget != null ==> budget.limits == limits
      modifies budget, journal
      ensures (View(limits), receipt) == Generated(old(View(limits)), t)
      ensures reply == Replied(old(View(limits)), t)
    {
      if !t.available {
        return Failure, Declined;
      }
      if !t.admitted {
        if journal != null {
          journal.NoteRejection(CurrentUsed(), t.journalEnds);
        }
        return Failure, Declined;
      }
      if budget != null {
        var refusal := budget.Consume(ModelCalls, 1, t.expired);
        if refusal.Some? {
          return Failure, Declined;
        }
      }
      var entered := Enter(limits, t);
      if !entered {
        return Failure, Refused;
      }
      if t.outcome.Interrupted? {
        return Failure, Lost;
      }
      if t.outcome.RejectedLocally? {
        Undo(limits, t);
        return Failure, Unsent;
      }
      var closed := Receive(limits, t, t.outcome.usage);
      receipt := Received(t.outcome.usage);
      var open := true;
      if budget != null {
        var refusal := budget.Check(t.expiredAtEnd);
        open := refusal.None?;
      }
      reply := if !closed || !open then Failure
               else if t.outcome.Unusable? then ProtocolError else Answer;
    }
  }

  /** A caller who gets a result leaves no operation pending and the budget open. */
  lemma ResultsAreSettled(a: Accounts, t: Attempt)
    requires Replied(a, t) != Failure
    ensures var (b, receipt) := Generated(a, t);
            && receipt.Received?
            && PendingOf(b) == PendingOf(a)
            && (Replied(a, t) == Answer <==> t.outcome.Completed?)
            && (b.used.Some? ==> receipt.usage.Some? && Get(b.used.value, TotalTokens) < a.limits.totalTokens)
            && (b.used.Some? ==> Get(b.used.value, ModelCalls) == Get(a.used.value, ModelCalls) + 1
                                 <= a.limits.modelCalls)
  {
    if a.row.Some? {
      assert PendingOf(a) == map[];
      assert t.id in PendingOf(a)[t.id := Llm];
      assert PendingOf(a)[t.id := Llm] - {t.id} == PendingOf(a);
    }
  }
}
