/** The only path from a decision to an action: the approval gate, then the idempotency
    ledger, then the tool. */
module Executor {
  import opened Options

  // `State` holds the approval and operation tables together with the history of tool
  // runs; what the tools do is an input of each call.

  type TaskId = string
  type Tool = string
  type Args = string
  type Key = string
  type Data = string

  datatype Decision = Pending | Approved | Rejected | Expired

  /** One approval request; rows are kept in creation order. */
  datatype Approval = Approval(task: TaskId, tool: Tool, args: Args, decision: Decision, expires: int)

  /** One tool run that took place. `recorded` is false when the process died, or the
      write failed, between the run and its ledger entry. */
  datatype Run = Run(key: Option<Key>, task: TaskId, tool: Tool, args: Args,
                     gated: bool, verdict: bool, ok: bool, recorded: bool)

  datatype State = State(approvals: seq<Approval>, operations: map<Key, Data>, runs: seq<Run>)

  /** A call as the executor sees it, with everything it will be told by others. */
  datatype Call = Call(
    task: Option<TaskId>, tool: Tool, args: Args, digest: string,
    known: bool, permitted: bool, valid: bool,   // registry, permission level, argument check
    highRisk: bool, gateOn: bool, verdict: bool, // autonomy's verdict, if it is asked
    sideEffect: bool,
    ok: bool, data: Data,                        // how the tool run goes, if it happens
    dies: bool,                                  // the process dies right after the run
    now: int)

  datatype Response =
    | Denied | Invalid | ApprovalNeeded | OwnerRefused
    | Replayed(data: Data) | Answered(ok: bool, data: Data) | Died

  const WINDOW := 5
  const APPROVAL_TTL := 720 * 60

  function TaskName(c: Call): TaskId { if c.task.Some? then c.task.value else "" }

  function OperationKey(c: Call): Key {
    (if c.task.Some? && c.task.value != "" then c.task.value else "adhoc") + ":" + c.tool + ":" + c.digest
  }

  predicate Gated(c: Call) { c.highRisk && c.gateOn }

  // ------------------------------------------------------------------ //
  // The approval table
  // ------------------------------------------------------------------ //

  /** The newest undecided request of a task. */
  function NewestPending(rows: seq<Approval>, task: TaskId): Option<Approval> {
    if rows == [] then None
    else
      var last := rows[|rows| - 1];
      if last.task == task && last.decision == Pending then Some(last)
      else NewestPending(rows[..|rows| - 1], task)
  }

  /** The newest requests of a task for a tool, newest first, at most `limit`. */
  function Newest(rows: seq<Approval>, task: TaskId, tool: Tool, limit: nat): seq<Approval> {
    if rows == [] || limit == 0 then []
    else
      var last, rest := rows[|rows| - 1], rows[..|rows| - 1];
      if last.task == task && last.tool == tool then [last] + Newest(rest, task, tool, limit - 1)
      else Newest(rest, task, tool, limit)
  }

  /** The first answer the owner gave to exactly these arguments. */
  function FirstAnswer(rows: seq<Approval>, args: Args): Decision {
    if rows == [] then Pending
    else if rows[0].args == args && (rows[0].decision == Approved || rows[0].decision == Rejected)
    then rows[0].decision
    else FirstAnswer(rows[1..], args)
  }

  /** Approved, rejected, or pending. */
  function ApprovalAnswer(rows: seq<Approval>, task: TaskId, tool: Tool, args: Args): Decision {
    var pending := NewestPending(rows, task);
    if pending.Some? && pending.value.tool == tool then Pending
    else FirstAnswer(Newest(rows, task, tool, WINDOW), args)
  }

  /** The table after asking: a new request is filed exactly when nothing is known. */
  function AfterAsking(rows: seq<Approval>, task: TaskId, tool: Tool, args: Args, now: int): seq<Approval> {
    var pending := NewestPending(rows, task);
    if (pending.Some? && pending.value.tool == tool)
       || FirstAnswer(Newest(rows, task, tool, WINDOW), args) != Pending then rows
    else rows + [Approval(task, tool, args, Pending, now + APPROVAL_TTL)]
  }

  function Decide(rows: seq<Approval>, id: nat, approved: bool, now: int): seq<Approval> {
    if id >= |rows| || rows[id].decision != Pending then rows
    else rows[id := rows[id].(decision :=
      if rows[id].expires < now then Expired else if approved then Approved else Rejected)]
  }

  // ------------------------------------------------------------------ //
  // One call
  // ------------------------------------------------------------------ //

  /** What the gate says: go on, or stop with this response. */
  function Gate(rows: seq<Approval>, c: Call): Option<Response> {
    if !c.known || !c.permitted then Some(Denied)
    else if !c.valid then Some(Invalid)
    else if !Gated(c) || c.verdict then None
    else
      match ApprovalAnswer(rows, TaskName(c), c.tool, c.args)
      case Approved => None
      case Rejected => Some(OwnerRefused)
      case _ => Some(ApprovalNeeded)
  }

  function AfterGate(rows: seq<Approval>, c: Call): seq<Approval> {
    if c.known && c.permitted && c.valid && Gated(c) && !c.verdict
    then AfterAsking(rows, TaskName(c), c.tool, c.args, c.now)
    else rows
  }

  function KeyOf(c: Call): Option<Key> { if c.sideEffect then Some(OperationKey(c)) else None }

  function RunOf(c: Call): Run {
    Run(KeyOf(c), TaskName(c), c.tool, c.args, Gated(c), c.verdict, c.ok,
        c.ok && c.sideEffect && !c.dies)
  }

  function Execute(s: State, c: Call): (State, Response) {
    var stop := Gate(s.approvals, c);
    var asked := s.(approvals := AfterGate(s.approvals, c));
    if stop.Some? then (asked, stop.value)
    else if c.sideEffect && OperationKey(c) in s.operations then
      (asked, Replayed(s.operations[OperationKey(c)]))
    else
      var ran := asked.(runs := s.runs + [RunOf(c)]);
      if c.dies then (ran, Died)
      else
        (if c.ok && c.sideEffect then ran.(operations := s.operations[OperationKey(c) := c.data]) else ran,
         Answered(c.ok, c.data))
  }

  class ToolExecutor {
    var approvals: seq<Approval>
    var operations: map<Key, Data>
    ghost var runs: seq<Run>

    constructor ()
      ensures View() == State([], map[], [])
    {
      approvals, operations, runs := [], map[], [];
    }

    ghost function View(): State
      reads this
    {
      State(approvals, operations, runs)
    }

    /** The owner's answer; a request already answered, expired or unknown stays as it is. */
    method DecideApproval(id: nat, approved: bool, now: int)
      modifies this`approvals
      ensures approvals == Decide(old(approvals), id, approved, now)
    {
      if id < |approvals| && approvals[id].decision == Pending {
        var row := approvals[id];
        if row.expires < now {
          row := row.(decision := Expired);
        } else {
          row := row.(decision := if approved then Approved else Rejected);
        }
        approvals := approvals[id := row];
      }
    }

    method ApprovalState(task: TaskId, tool: Tool, args: Args, now: int) returns (answer: Decision)
      modifies this`approvals
      ensures answer == ApprovalAnswer(old(approvals), task, tool, args)
      ensures approvals == AfterAsking(old(approvals), task, tool, args, now)
    {
      var pending := NewestPending(approvals, task);
      if pending.Some? && pending.value.tool == tool {
        return Pending;
      }
      var candidates := Newest(approvals, task, tool, WINDOW);
      var i := 0;
      assert candidates[0..] == candidates;
      while i < |candidates|
        invariant 0 <= i <= |candidates|
        invariant FirstAnswer(candidates, args) == FirstAnswer(candidates[i..], args)
      {
        var row := candidates[i];
        assert candidates[i..][0] == row && candidates[i..][1..] == candidates[i + 1..];
        if row.args == args {
          if row.decision == Approved || row.decision == Rejected {
            return row.decision;
          }
        }
        i := i + 1;
      }
      approvals := approvals + [Approval(task, tool, args, Pending, now + APPROVAL_TTL)];
      return Pending;
    }

    /** Inserts unless the key is taken; tells whether it inserted. */
    method RecordOperation(key: Key, data: Data) returns (inserted: bool)
      modifies this`operations
      ensures inserted == (key !in old(operations))
      ensures operations == if inserted then old(operations)[key := data] else old(operations)
    {
      inserted := key !in operations;
      if inserted {
        operations := operations[key := data];
      }
    }

    method Perform(c: Call) returns (response: Response)
      modifies this
      ensures (View(), response) == Execute(old(View()), c)
    {
      if !c.known || !c.permitted {
        return Denied;
      }
      if !c.valid {
        return Invalid;
      }
      if c.highRisk && c.gateOn {
        if !c.verdict {
          var answer := ApprovalState(TaskName(c), c.tool, c.args, c.now);
          if answer == Rejected {
            return OwnerRefused;
          }
          if answer != Approved {
            return ApprovalNeeded;
          }
        }
      }
      var key := None;
      if c.sideEffect {
        key := Some(OperationKey(c));
        if key.value in operations {
          return Replayed(operations[key.value]);
        }
      }
      runs := runs + [RunOf(c)];
      if c.dies {
        return Died;
      }
      if c.ok && key.Some? {
        var _ := RecordOperation(key.value, c.data);
      }
      return Answered(c.ok, c.data);
    }
  }

  // ------------------------------------------------------------------ //
  // Whole traces
  // ------------------------------------------------------------------ //

  datatype Event = Called(call: Call) | Decided(id: nat, approved: bool, now: int)

  function Apply(s: State, e: Event): State {
    match e
    case Called(c) => Execute(s, c).0
    case Decided(id, approved, now) => s.(approvals := Decide(s.approvals, id, approved, now))
  }

  function After(s: State, events: seq<Event>): State
    decreases |events|
  {
    if events == [] then s else After(Apply(s, events[0]), events[1..])
  }

  const EMPTY := State([], map[], [])

  /** Requests are only ever added, never rewritten, and an answer is final. */
  predicate OnlyGrows(a: seq<Approval>, b: seq<Approval>) {
    && |a| <= |b|
    && forall i :: 0 <= i < |a| ==>
         && b[i].(decision := Pending) == a[i].(decision := Pending)
         && (a[i].decision != Pending ==> b[i] == a[i])
  }

  /** A decided approval never changes again, whatever is called or decided later, and no
      request ever changes what it is about. */
  lemma {:induction false} DecisionsAreFinal(s: State, events: seq<Event>)
    ensures OnlyGrows(s.approvals, After(s, events).approvals)
    decreases |events|
  {
    if events != [] {
      DecisionsAreFinal(Apply(s, events[0]), events[1..]);
    }
  }

  // Approval

  predicate Sanctions(row: Approval, r: Run) {
    row.decision == Approved && row.task == r.task && row.tool == r.tool && row.args == r.args
  }

  /** The run was not gated, or policy allowed it, or the owner approved exactly it. */
  ghost predicate Sanctioned(rows: seq<Approval>, r: Run) {
    !r.gated || r.verdict || exists row <- rows :: Sanctions(row, r)
  }

  lemma {:induction false} NewestAre(rows: seq<Approval>, task: TaskId, tool: Tool, limit: nat)
    ensures |Newest(rows, task, tool, limit)| <= limit
    ensures forall row <- Newest(rows, task, tool, limit) ::
              row in rows && row.task == task && row.tool == tool
  {
    if rows != [] && limit > 0 {
      var rest := rows[..|rows| - 1];
      NewestAre(rest, task, tool, limit);
      NewestAre(rest, task, tool, limit - 1);
    }
  }

  lemma {:induction false} AnswerHasARow(rows: seq<Approval>, args: Args)
    ensures var d := FirstAnswer(rows, args);
            d != Expired && (d != Pending ==> exists row <- rows :: row.args == args && row.decision == d)
  {
    if rows != [] {
      AnswerHasARow(rows[1..], args);
      assert rows[0] in rows;
      assert forall row <- rows[1..] :: row in rows;
    }
  }

  /** The gate says "approved" only on a row for this very task, tool and arguments. */
  lemma ApprovedHasARow(rows: seq<Approval>, task: TaskId, tool: Tool, args: Args)
    requires ApprovalAnswer(rows, task, tool, args) == Approved
    ensures exists row <- rows ::
              row.decision == Approved && row.task == task && row.tool == tool && row.args == args
  {
    NewestAre(rows, task, tool, WINDOW);
    AnswerHasARow(Newest(rows, task, tool, WINDOW), args);
  }

  lemma SanctionSurvives(a: seq<Approval>, b: seq<Approval>, r: Run)
    requires OnlyGrows(a, b) && Sanctioned(a, r)
    ensures Sanctioned(b, r)
  {
    if r.gated && !r.verdict {
      var row :| row in a && Sanctions(row, r);
      var i :| 0 <= i < |a| && a[i] == row;
      assert b[i] == row && b[i] in b;
    }
  }

  ghost predicate AllSanctioned(s: State) {
    forall r <- s.runs :: Sanctioned(s.approvals, r)
  }

  lemma StepSanctioned(s: State, e: Event)
    requires AllSanctioned(s)
    ensures AllSanctioned(Apply(s, e))
  {
    var n := Apply(s, e);
    DecisionsAreFinal(s, [e]);
    assert After(s, [e]) == n by { assert [e][1..] == []; }
    forall r | r in n.runs ensures Sanctioned(n.approvals, r) {
      if r in s.runs {
        SanctionSurvives(s.approvals, n.approvals, r);
      } else if Gated(e.call) && !e.call.verdict {
        ApprovedHasARow(s.approvals, TaskName(e.call), e.call.tool, e.call.args);
        SanctionSurvives(s.approvals, n.approvals, r);
      }
    }
  }

  /** In every trace, every run behind the gate had an allowing verdict or an approved row
      with the same task, tool and arguments. */
  lemma {:induction false} EveryGatedRunIsSanctioned(s: State, events: seq<Event>)
    requires AllSanctioned(s)
    ensures AllSanctioned(After(s, events))
    decreases |events|
  {
    if events != [] {
      StepSanctioned(s, events[0]);
      EveryGatedRunIsSanctioned(Apply(s, events[0]), events[1..]);
    }
  }

  lemma {:induction false} ShorterListKnowsNoMore(rows: seq<Approval>, task: TaskId, tool: Tool, limit: nat,
                                                  args: Args)
    requires FirstAnswer(Newest(rows, task, tool, limit + 1), args) == Pending
    ensures FirstAnswer(Newest(rows, task, tool, limit), args) == Pending
  {
    if rows != [] && limit > 0 {
      var last, rest := rows[|rows| - 1], rows[..|rows| - 1];
      if last.task == task && last.tool == tool {
        assert ([last] + Newest(rest, task, tool, limit))[1..] == Newest(rest, task, tool, limit);
        assert ([last] + Newest(rest, task, tool, limit - 1))[1..] == Newest(rest, task, tool, limit - 1);
        ShorterListKnowsNoMore(rest, task, tool, limit - 1, args);
      } else {
        ShorterListKnowsNoMore(rest, task, tool, limit, args);
      }
    }
  }

  /** Asking pays off: when a call stops to file a request and the owner answers it within
      twelve hours, the same call then goes through the gate, or is refused, as answered. A
      later answer counts for nothing: the request expires, and the call asks again. */
  lemma AnswerIsHeeded(rows: seq<Approval>, c: Call, yes: bool, now: int)
    requires Gate(rows, c) == Some(ApprovalNeeded) && AfterGate(rows, c) != rows
    ensures var answered := Decide(AfterGate(rows, c), |rows|, yes, now);
            && |answered| == |AfterGate(rows, c)| == |rows| + 1
            && (if now <= c.now + 12 * 3600 then Gate(answered, c) == if yes then None else Some(OwnerRefused)
                else
                  && answered[|rows|].decision == Expired
                  && Gate(answered, c) == Some(ApprovalNeeded)
                  && |AfterGate(answered, c)| == |answered| + 1)
  {
    var row := Approval(TaskName(c), c.tool, c.args, Pending, c.now + APPROVAL_TTL);
    var answered := Decide(AfterGate(rows, c), |rows|, yes, now);
    assert AfterGate(rows, c) == rows + [row];
    var late := now > c.now + APPROVAL_TTL;
    assert answered == rows + [row.(decision := if late then Expired else if yes then Approved else Rejected)];
    assert answered[..|answered| - 1] == rows;
    assert NewestPending(answered, TaskName(c)) == NewestPending(rows, TaskName(c));
    var newest := Newest(answered, TaskName(c), c.tool, WINDOW);
    assert newest[0] == answered[|rows|];
    if late {
      assert newest[1..] == Newest(rows, TaskName(c), c.tool, WINDOW - 1);
      ShorterListKnowsNoMore(rows, TaskName(c), c.tool, WINDOW - 1, c.args);
    }
  }

  /** The owner answered this request, and it is about exactly this. */
  predicate Answers(row: Approval, task: TaskId, tool: Tool, args: Args) {
    && row.task == task && row.tool == tool && row.args == args
    && (row.decision == Approved || row.decision == Rejected)
  }

  /** How many requests of the task for the tool came after this one. */
  function NewerThan(rows: seq<Approval>, id: nat, task: TaskId, tool: Tool): nat {
    if |rows| <= id + 1 then 0
    else
      var last := rows[|rows| - 1];
      NewerThan(rows[..|rows| - 1], id, task, tool) + if last.task == task && last.tool == tool then 1 else 0
  }

  lemma {:induction false} AnswerInTheWindow(rows: seq<Approval>, id: nat, limit: nat,
                                             task: TaskId, tool: Tool, args: Args)
    requires id < |rows| && Answers(rows[id], task, tool, args)
    requires forall i :: id < i < |rows| ==> !Answers(rows[i], task, tool, args)
    ensures FirstAnswer(Newest(rows, task, tool, limit), args)
            == if NewerThan(rows, id, task, tool) < limit then rows[id].decision else Pending
  {
    if limit > 0 {
      var n := |rows| - 1;
      var last, rest := rows[n], rows[..n];
      if id < n {
        assert rest[id] == rows[id] && forall i :: id < i < n ==> rest[i] == rows[i];
        AnswerInTheWindow(rest, id, limit, task, tool, args);
        if last.task == task && last.tool == tool {
          AnswerInTheWindow(rest, id, limit - 1, task, tool, args);
          assert ([last] + Newest(rest, task, tool, limit - 1))[1..] == Newest(rest, task, tool, limit - 1);
        }
      }
    }
  }

  lemma NoAnswerAtAll(rows: seq<Approval>, limit: nat, task: TaskId, tool: Tool, args: Args)
    requires forall row <- rows :: !Answers(row, task, tool, args)
    ensures FirstAnswer(Newest(rows, task, tool, limit), args) == Pending
  {
    NewestAre(rows, task, tool, limit);
    AnswerHasARow(Newest(rows, task, tool, limit), args);
  }

  /** The task's newest undecided request is one of this tool. */
  predicate Waits(rows: seq<Approval>, task: TaskId, tool: Tool) {
    exists i | 0 <= i < |rows| ::
      && rows[i].task == task && rows[i].decision == Pending && rows[i].tool == tool
      && forall j | i < j < |rows| :: !(rows[j].task == task && rows[j].decision == Pending)
  }

  lemma {:induction false} WaitsIff(rows: seq<Approval>, task: TaskId, tool: Tool)
    ensures Waits(rows, task, tool) <==>
              NewestPending(rows, task).Some? && NewestPending(rows, task).value.tool == tool
  {
    if rows != [] {
      var n := |rows| - 1;
      WaitsIff(rows[..n], task, tool);
      assert forall j :: 0 <= j < n ==> rows[..n][j] == rows[j];
      if rows[n].task == task && rows[n].decision == Pending {
        assert Waits(rows, task, tool) <==> rows[n].tool == tool;
      } else {
        assert Waits(rows, task, tool) <==> Waits(rows[..n], task, tool);
      }
    }
  }

  /** What the gate knows. It knows an answer exactly when no request of the same tool is
      the task's newest pending one, and fewer than five requests of that tool came after
      the newest answered one for these arguments; and then it is that one's. */
  lemma AnswerIsKnownIff(rows: seq<Approval>, id: nat, task: TaskId, tool: Tool, args: Args)
    requires id < |rows| && Answers(rows[id], task, tool, args)
    requires forall i :: id < i < |rows| ==> !Answers(rows[i], task, tool, args)
    ensures ApprovalAnswer(rows, task, tool, args)
            == if !Waits(rows, task, tool) && NewerThan(rows, id, task, tool) < 5
               then rows[id].decision else Pending
  {
    WaitsIff(rows, task, tool);
    AnswerInTheWindow(rows, id, WINDOW, task, tool, args);
  }

  /** Without any answer the gate knows none. */
  lemma NothingIsKnown(rows: seq<Approval>, task: TaskId, tool: Tool, args: Args)
    requires forall row <- rows :: !Answers(row, task, tool, args)
    ensures ApprovalAnswer(rows, task, tool, args) == Pending
  {
    NoAnswerAtAll(rows, WINDOW, task, tool, args);
  }

  /** How long an answer is heeded. Whatever is called and decided after it, as long as no
      other request for the same arguments is answered, a gated call is treated as answered
      exactly while no request of its tool is the task's newest pending one and fewer than
      five requests of the tool are newer; after that the owner is asked again. */
  lemma AnswerStaysHeededIff(s: State, events: seq<Event>, id: nat, c: Call)
    requires id < |s.approvals| && Answers(s.approvals[id], TaskName(c), c.tool, c.args)
    requires c.known && c.permitted && c.valid && Gated(c) && !c.verdict
    requires forall i :: id < i < |After(s, events).approvals| ==>
               !Answers(After(s, events).approvals[i], TaskName(c), c.tool, c.args)
    ensures
      var rows := After(s, events).approvals;
      && id < |rows| && rows[id] == s.approvals[id]
      && Gate(rows, c)
         == if Waits(rows, TaskName(c), c.tool) || NewerThan(rows, id, TaskName(c), c.tool) >= 5
            then Some(ApprovalNeeded)
            else if rows[id].decision == Approved then None
            else Some(OwnerRefused)
  {
    DecisionsAreFinal(s, events);
    hide After;
    var rows := After(s, events).approvals;
    assert rows[id] == s.approvals[id];
    AnswerIsKnownIff(rows, id, TaskName(c), c.tool, c.args);
  }

  // Idempotency

  function SuccessfulRuns(runs: seq<Run>, key: Key): nat {
    if runs == [] then 0
    else
      var last := runs[|runs| - 1];
      SuccessfulRuns(runs[..|runs| - 1], key) + if last.key == Some(key) && last.ok then 1 else 0
  }

  function LostRecords(runs: seq<Run>, key: Key): nat {
    if runs == [] then 0
    else
      var last := runs[|runs| - 1];
      LostRecords(runs[..|runs| - 1], key)
        + if last.key == Some(key) && last.ok && !last.recorded then 1 else 0
  }

  /** Successful runs that left no ledger entry, plus one if there is an entry. */
  predicate Accounted(s: State, key: Key) {
    SuccessfulRuns(s.runs, key) == LostRecords(s.runs, key) + if key in s.operations then 1 else 0
  }

  lemma CountSnoc(runs: seq<Run>, r: Run, key: Key)
    ensures SuccessfulRuns(runs + [r], key)
            == SuccessfulRuns(runs, key) + if r.key == Some(key) && r.ok then 1 else 0
    ensures LostRecords(runs + [r], key)
            == LostRecords(runs, key) + if r.key == Some(key) && r.ok && !r.recorded then 1 else 0
  {
    assert (runs + [r])[..|runs|] == runs;
  }

  /** What a call does to the history and the ledger: nothing, or one run of its own. */
  lemma CallEffect(s: State, c: Call)
    ensures var n := Execute(s, c).0;
            || (n.runs == s.runs && n.operations == s.operations)
            || (&& n.runs == s.runs + [RunOf(c)]
                && (c.sideEffect ==> OperationKey(c) !in s.operations)
                && n.operations == if c.ok && c.sideEffect && !c.dies
                                   then s.operations[OperationKey(c) := c.data] else s.operations)
  {
  }

  lemma StepAccounted(s: State, e: Event, key: Key)
    requires Accounted(s, key)
    ensures Accounted(Apply(s, e), key)
    ensures key in s.operations ==>
              && key in Apply(s, e).operations
              && Apply(s, e).operations[key] == s.operations[key]
              && SuccessfulRuns(Apply(s, e).runs, key) == SuccessfulRuns(s.runs, key)
  {
    if e.Called? {
      CallEffect(s, e.call);
      CountSnoc(s.runs, RunOf(e.call), key);
    }
  }

  /** In every trace, the successful side-effecting runs of one operation number exactly
      the crashes that lost a record, plus one once a record stands. */
  lemma {:induction false} RunsAreAccountedFor(s: State, events: seq<Event>, key: Key)
    requires Accounted(s, key)
    ensures Accounted(After(s, events), key)
    ensures SuccessfulRuns(After(s, events).runs, key) <= 1 + LostRecords(After(s, events).runs, key)
    decreases |events|
  {
    if events != [] {
      StepAccounted(s, events[0], key);
      RunsAreAccountedFor(Apply(s, events[0]), events[1..], key);
    }
  }

  /** Once a record stands it is never replaced, the operation never succeeds again, and
      every later call that passes the gate is answered with the recorded data. */
  lemma {:induction false} RecordedIsReplayed(s: State, events: seq<Event>, c: Call)
    requires c.sideEffect && OperationKey(c) in s.operations && Accounted(s, OperationKey(c))
    ensures var n, key := After(s, events), OperationKey(c);
            && SuccessfulRuns(n.runs, key) == SuccessfulRuns(s.runs, key)
            && (Gate(n.approvals, c).None? ==>
                  && Execute(n, c).1 == Replayed(s.operations[key])
                  && Execute(n, c).0.runs == n.runs)
    decreases |events|
  {
    if events != [] {
      StepAccounted(s, events[0], OperationKey(c));
      RecordedIsReplayed(Apply(s, events[0]), events[1..], c);
    }
  }

  /** All of it from an empty database: in every trace each gated run is sanctioned, and a
      key has at most one successful run more than its records were lost. */
  lemma FromTheBeginning(events: seq<Event>, key: Key)
    ensures AllSanctioned(After(EMPTY, events))
    ensures Accounted(After(EMPTY, events), key)
    ensures SuccessfulRuns(After(EMPTY, events).runs, key) <= 1 + LostRecords(After(EMPTY, events).runs, key)
  {
    EveryGatedRunIsSanctioned(EMPTY, events);
    RunsAreAccountedFor(EMPTY, events, key);
  }
}
