/** The per-execution budget of `app/orchestrator/watchdog.py`: counters, the cancellation
    flag and the order in which `check` looks at them. */
module AgentBudget {
  import opened Wrappers
  import G = ReasoningGraphs

  datatype Reason = Completed | IterationLimit | ToolCallLimit | RuntimeLimit | Cancelled | Error

  /** The value of a context. `partials` holds the saved (node, result) pairs. */
  datatype Budget = Budget(
    maxIterations: int, maxToolCalls: int, maxRuntime: real,
    iterations: int, toolCalls: int, cancelled: bool, reason: Reason,
    partials: seq<(G.Id, Option<string>)>)

  /** Which limit `check` reports after `elapsed` seconds, if any. */
  function Exhausted(b: Budget, elapsed: real): Option<Reason> {
    if b.cancelled then Some(Cancelled)
    else if b.iterations >= b.maxIterations then Some(IterationLimit)
    else if b.toolCalls >= b.maxToolCalls then Some(ToolCallLimit)
    else if elapsed >= b.maxRuntime then Some(RuntimeLimit)
    else None
  }

  function AfterCheck(b: Budget, elapsed: real): Budget {
    match Exhausted(b, elapsed)
    case None => b
    case Some(r) => b.(reason := r)
  }

  /** What a run can do to a context. */
  datatype Op = Iterate | CallTool | Cancel | Check(elapsed: real) | Save(id: G.Id, result: Option<string>)

  function Apply(b: Budget, op: Op): Budget {
    match op
    case Iterate => b.(iterations := b.iterations + 1)
    case CallTool => b.(toolCalls := b.toolCalls + 1)
    case Cancel => b.(cancelled := true)
    case Check(elapsed) => AfterCheck(b, elapsed)
    case Save(id, result) => b.(partials := b.partials + [(id, result)])
  }

  function ApplyAll(b: Budget, ops: seq<Op>): Budget {
    if ops == [] then b else Apply(ApplyAll(b, ops[..|ops| - 1]), ops[|ops| - 1])
  }

  function Count(ops: seq<Op>, op: Op): nat {
    multiset(ops)[op]
  }

  lemma {:induction false} CountersExact(b: Budget, ops: seq<Op>)
    ensures var c := ApplyAll(b, ops);
            && c.iterations == b.iterations + Count(ops, Iterate)
            && c.toolCalls == b.toolCalls + Count(ops, CallTool)
            && (c.cancelled <==> b.cancelled || Cancel in ops)
            && c.maxIterations == b.maxIterations && c.maxToolCalls == b.maxToolCalls && c.maxRuntime == b.maxRuntime
  {
    if ops != [] {
      var front, last := ops[..|ops| - 1], ops[|ops| - 1];
      CountersExact(b, front);
      assert ops == front + [last];
    }
  }

  /** Exhaustion is permanent: once a check would fail, every later check fails. */
  lemma {:induction false} ExhaustionPermanent(b: Budget, ops: seq<Op>, elapsed: real, later: real)
    requires elapsed <= later && Exhausted(b, elapsed).Some?
    ensures Exhausted(ApplyAll(b, ops), later).Some?
  {
    CountersExact(b, ops);
  }

  class AgentExecutionContext {
    const maxIterations: int
    const maxToolCalls: int
    const maxRuntime: real
    const startTime: real
    var iterationCount: int
    var toolCallCount: int
    var cancelled: bool
    var terminationReason: Reason
    var partialResults: seq<(G.Id, Option<string>)>

    function View(): Budget
      reads this
    {
      Budget(maxIterations, maxToolCalls, maxRuntime, iterationCount, toolCallCount, cancelled,
             terminationReason, partialResults)
    }

    constructor (maxIterations: int := 10, maxToolCalls: int := 20, maxRuntime: real := 30.0, startTime: real)
      ensures View() == Budget(maxIterations, maxToolCalls, maxRuntime, 0, 0, false, Completed, [])
      ensures this.startTime == startTime
    {
      this.startTime := startTime;
      this.maxIterations, this.maxToolCalls, this.maxRuntime := maxIterations, maxToolCalls, maxRuntime;
      iterationCount, toolCallCount, cancelled := 0, 0, false;
      terminationReason, partialResults := Completed, [];
    }

    method RecordIteration()
      modifies this
      ensures View() == old(View()).(iterations := old(iterationCount) + 1)
    {
      iterationCount := iterationCount + 1;
    }

    method RecordToolCall()
      modifies this
      ensures View() == old(View()).(toolCalls := old(toolCallCount) + 1)
    {
      toolCallCount := toolCallCount + 1;
    }

    method Cancel()
      modifies this
      ensures View() == old(View()).(cancelled := true)
    {
      cancelled := true;
    }

    /** `ok` is false where the source raises `AgentBudgetExceededError`. */
    method Check(elapsed: real) returns (ok: bool)
      modifies this
      ensures ok <==> Exhausted(old(View()), elapsed) == None
      ensures View() == AfterCheck(old(View()), elapsed)
      ensures ok <==> !cancelled && iterationCount < maxIterations && toolCallCount < maxToolCalls
                      && elapsed < maxRuntime
      ensures terminationReason == if cancelled then Cancelled
                                   else if iterationCount >= maxIterations then IterationLimit
                                   else if toolCallCount >= maxToolCalls then ToolCallLimit
                                   else if elapsed >= maxRuntime then RuntimeLimit
                                   else old(terminationReason)
      ensures iterationCount == old(iterationCount) && toolCallCount == old(toolCallCount)
      ensures cancelled == old(cancelled) && partialResults == old(partialResults)
    {
      if cancelled {
        terminationReason := Cancelled;
        return false;
      }
      if iterationCount >= maxIterations {
        terminationReason := IterationLimit;
        return false;
      }
      if toolCallCount >= maxToolCalls {
        terminationReason := ToolCallLimit;
        return false;
      }
      if elapsed >= maxRuntime {
        terminationReason := RuntimeLimit;
        return false;
      }
      return true;
    }

    method SavePartial(id: G.Id, result: Option<string>)
      modifies this
      ensures View() == old(View()).(partials := old(partialResults) + [(id, result)])
    {
      partialResults := partialResults + [(id, result)];
    }
  }
}
