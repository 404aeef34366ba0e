/** What an operation key stands for, and what replays and gates mean without it. */
module OperationKeys {
  import opened Executor
  import opened Options

  // ------------------------------------------------------------------ //
  // Which calls share a key
  // ------------------------------------------------------------------ //

  predicate NoColon(s: string) { forall i :: 0 <= i < |s| ==> s[i] != ':' }

  /** Tool names and digests have no colon in them. */
  predicate Named(c: Call) { NoColon(c.tool) && NoColon(c.digest) }

  /** The same task, or none in both; a task that is called "adhoc" counts as none. */
  predicate SameTask(c: Call, d: Call) {
    var t, u := if c.task.Some? then c.task.value else "", if d.task.Some? then d.task.value else "";
    t == u || (t == "" && u == "adhoc") || (t == "adhoc" && u == "")
  }

  predicate SameAction(c: Call, d: Call) {
    SameTask(c, d) && c.tool == d.tool && c.digest == d.digest
  }

  lemma TheLastColon(a: string, x: string)
    requires NoColon(x)
    ensures (a + ":" + x)[|a|] == ':' && forall i :: |a| < i < |a + ":" + x| ==> (a + ":" + x)[i] != ':'
  {
    forall i | |a| < i < |a + ":" + x| ensures (a + ":" + x)[i] != ':' {
      assert (a + ":" + x)[i] == x[i - |a| - 1];
    }
  }

  lemma CutAtTheLastColon(a: string, b: string, x: string, y: string)
    requires NoColon(x) && NoColon(y) && a + ":" + x == b + ":" + y
    ensures a == b && x == y
  {
    var s := a + ":" + x;
    TheLastColon(a, x);
    TheLastColon(b, y);
    assert |a| == |b|;
    assert a == s[..|a|] && b == s[..|b|] && x == s[|a| + 1..] && y == s[|b| + 1..];
  }

  /** Two calls share a key exactly when they are the same action: task, tool and arguments. */
  lemma KeysTellActionsApart(c: Call, d: Call)
    requires Named(c) && Named(d)
    ensures OperationKey(c) == OperationKey(d) <==> SameAction(c, d)
  {
    var t := if c.task.Some? && c.task.value != "" then c.task.value else "adhoc";
    var u := if d.task.Some? && d.task.value != "" then d.task.value else "adhoc";
    assert SameTask(c, d) <==> t == u;
    assert OperationKey(c) == t + ":" + c.tool + ":" + c.digest;
    assert OperationKey(d) == u + ":" + d.tool + ":" + d.digest;
    if OperationKey(c) == OperationKey(d) {
      CutAtTheLastColon(t + ":" + c.tool, u + ":" + d.tool, c.digest, d.digest);
      CutAtTheLastColon(t, u, c.tool, d.tool);
    }
  }

  // ------------------------------------------------------------------ //
  // Replays over whole traces
  // ------------------------------------------------------------------ //

  /** The j-th event was a call whose tool ran and succeeded, and that lived to record it. */
  ghost predicate RecordedAt(events: seq<Event>, j: nat) {
    && j < |events| && events[j].Called?
    && var d := events[j].call;
       d.sideEffect && d.ok && !d.dies && Execute(After(EMPTY, events[..j]), d).1 == Answered(true, d.data)
  }

  lemma {:induction false} AfterSnoc(s: State, events: seq<Event>, last: Event)
    ensures After(s, events + [last]) == Apply(After(s, events), last)
    decreases |events|
  {
    hide Apply;
    if events == [] {
      assert [last][1..] == [] && ([] + [last]) == [last];
      assert After(Apply(s, last), []) == Apply(s, last);
    } else {
      assert (events + [last])[1..] == events[1..] + [last];
      AfterSnoc(Apply(s, events[0]), events[1..], last);
    }
  }

  /** Everything in the ledger was recorded by a call of the trace, under its key, with its
      data; and every such call's key is in the ledger. */
  lemma {:induction false} LedgerIsTheTrace(events: seq<Event>, key: Key)
    ensures var ledger := After(EMPTY, events).operations;
            && (key in ledger <==> exists j: nat :: RecordedAt(events, j) && OperationKey(events[j].call) == key)
            && forall j: nat :: RecordedAt(events, j) && OperationKey(events[j].call) == key ==>
                 ledger[key] == events[j].call.data
  {
    if events == [] {
      assert After(EMPTY, []) == EMPTY;
    } else {
      var n := |events| - 1;
      var front, last := events[..n], events[n];
      assert events == front + [last];
      AfterSnoc(EMPTY, front, last);
      LedgerIsTheTrace(front, key);
      forall j: nat | j < n ensures RecordedAt(events, j) <==> RecordedAt(front, j) {
        assert events[..j] == front[..j] && events[j] == front[j];
      }
      LastIsRecorded(events, After(EMPTY, front), key);
    }
  }

  lemma LastIsRecorded(events: seq<Event>, s: State, key: Key)
    requires events != [] && s == After(EMPTY, events[..|events| - 1])
    ensures var n := |events| - 1;
            var t := Apply(s, events[n]);
            if RecordedAt(events, n) && OperationKey(events[n].call) == key
            then key !in s.operations && key in t.operations && t.operations[key] == events[n].call.data
            else (key in t.operations <==> key in s.operations)
                 && (key in s.operations ==> t.operations[key] == s.operations[key])
  {
    hide ApprovalAnswer, AfterGate, After, OperationKey, RunOf;
  }

  /** What a replay means. In every trace, a side-effecting call that passes the gate is
      answered with recorded data exactly when an earlier call of the same action succeeded
      and was recorded, and then with the data of that call. So a record of other arguments,
      another tool or another task never stops a run. */
  lemma ReplayedIff(events: seq<Event>, c: Call)
    requires Named(c) && forall e <- events :: e.Called? ==> Named(e.call)
    requires c.sideEffect && Gate(After(EMPTY, events).approvals, c).None?
    ensures
      var s := After(EMPTY, events);
      var (n, response) := Execute(s, c);
      && (response.Replayed? <==> exists j: nat :: RecordedAt(events, j) && SameAction(events[j].call, c))
      && (forall j: nat :: RecordedAt(events, j) && SameAction(events[j].call, c) ==>
            response == Replayed(events[j].call.data) && n.runs == s.runs)
      && (!response.Replayed? ==> |n.runs| == |s.runs| + 1)
  {
    LedgerIsTheTrace(events, OperationKey(c));
    forall j: nat | RecordedAt(events, j)
      ensures OperationKey(events[j].call) == OperationKey(c) <==> SameAction(events[j].call, c)
    {
      assert events[j] in events;
      KeysTellActionsApart(events[j].call, c);
    }
    hide Gate, AfterGate, After, OperationKey, RunOf, SameAction, RecordedAt;
  }

  // ------------------------------------------------------------------ //
  // What a call may do
  // ------------------------------------------------------------------ //

  /** The owner approved exactly this. */
  predicate OwnerApproved(rows: seq<Approval>, c: Call) {
    exists row <- rows ::
      && row.decision == Approved && row.tool == c.tool && row.args == c.args
      && row.task == if c.task.Some? then c.task.value else ""
  }

  /** A tool runs only for a call that is known, permitted and valid, and, if it is of high
      risk and the gate is on, allowed by policy or approved by the owner for this very task
      and these arguments. The record of the run says all of this truly. */
  lemma RunsOnlyIf(s: State, c: Call)
    ensures
      var n := Execute(s, c).0;
      n.runs != s.runs ==>
        && c.known && c.permitted && c.valid
        && (c.highRisk && c.gateOn && !c.verdict ==> OwnerApproved(s.approvals, c))
        && |n.runs| == |s.runs| + 1 && n.runs[..|s.runs|] == s.runs
        && var r := n.runs[|s.runs|];
           && r.task == (if c.task.Some? then c.task.value else "") && r.tool == c.tool && r.args == c.args
           && r.gated == (c.highRisk && c.gateOn) && r.verdict == c.verdict && r.ok == c.ok
           && (r.key.Some? <==> c.sideEffect) && (r.recorded <==> c.ok && c.sideEffect && !c.dies)
  {
    if c.highRisk && c.gateOn && !c.verdict && ApprovalAnswer(s.approvals, TaskName(c), c.tool, c.args) == Approved {
      ApprovedHasARow(s.approvals, TaskName(c), c.tool, c.args);
    }
    hide ApprovalAnswer, AfterAsking, OperationKey;
  }

  /** How every call is answered: refused, invalid, or, when nothing needs the owner, let
      through; and let through, it is replayed or its tool runs. */
  lemma AnsweredBy(s: State, c: Call)
    ensures
      var (n, response) := Execute(s, c);
      && (response == Denied <==> !c.known || !c.permitted)
      && (response == Invalid <==> c.known && c.permitted && !c.valid)
      && (c.known && c.permitted && c.valid && (!c.highRisk || !c.gateOn || c.verdict) ==>
            && n.approvals == s.approvals
            && if c.sideEffect && OperationKey(c) in s.operations
               then response == Replayed(s.operations[OperationKey(c)])
               else response == if c.dies then Died else Answered(c.ok, c.data))
  {
    hide ApprovalAnswer, AfterAsking, OperationKey;
  }

  /** When the owner is asked. A request is filed for exactly this call, to be answered
      within twelve hours, when approval is needed and no request of the tool is waiting
      already; nothing else a call does touches the table, and nobody is asked about a call
      that could not run or did not need it. */
  lemma FiledIff(s: State, c: Call)
    ensures
      var (n, response) := Execute(s, c);
      var task := if c.task.Some? then c.task.value else "";
      && n.approvals == s.approvals
         + (if response == ApprovalNeeded && !Waits(s.approvals, task, c.tool)
            then [Approval(task, c.tool, c.args, Pending, c.now + 12 * 3600)] else [])
      && (response == ApprovalNeeded || response == OwnerRefused ==>
            c.known && c.permitted && c.valid && c.highRisk && c.gateOn && !c.verdict)
  {
    WaitsIff(s.approvals, TaskName(c), c.tool);
    hide Newest, NewestPending, FirstAnswer, OperationKey, Waits;
    FirstAnswerIs(Newest(s.approvals, TaskName(c), c.tool, WINDOW), c.args);
  }

  lemma {:induction false} FirstAnswerIs(rows: seq<Approval>, args: Args)
    ensures FirstAnswer(rows, args) in {Pending, Approved, Rejected}
  {
    if rows != [] { FirstAnswerIs(rows[1..], args); }
  }
}
