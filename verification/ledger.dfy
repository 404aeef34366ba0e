/** The idempotency ledger with lookup, tool run and record apart: calls may overlap. */
module Ledger {
  import opened Options
  import E = Executor

  type CallId = nat

  /** A call between its steps: past the lookup, or with a success still to record. */
  datatype Flight = Cleared(key: E.Key) | Succeeded(key: E.Key, data: E.Data)

  /** What the books are kept of: tools that succeeded, records that were lost with a dying
      process, and records that found the key taken. */
  datatype Mark = Success(key: E.Key) | Lost(key: E.Key) | Taken(key: E.Key)

  datatype State = State(operations: map<E.Key, E.Data>, flights: map<CallId, Flight>, marks: seq<Mark>)

  const EMPTY := State(map[], map[], [])

  datatype Step =
    | Look(call: CallId, key: E.Key)
    | Act(call: CallId, ok: bool, data: E.Data)
    | Record(call: CallId)
    | Die(call: CallId)

  function Put(s: State, call: CallId, f: Flight): State { s.(flights := s.flights[call := f]) }

  function Land(s: State, call: CallId): State { s.(flights := s.flights - {call}) }

  function Noted(s: State, m: Mark): State { s.(marks := s.marks + [m]) }

  function Next(s: State, step: Step): State {
    match step
    case Look(call, key) =>
      // a key that stands is replayed; no tool runs
      if call in s.flights || key in s.operations then s else Put(s, call, Cleared(key))
    case Act(call, ok, data) =>
      if !(call in s.flights && s.flights[call].Cleared?) then s
      else if !ok then Land(s, call)
      else Noted(Put(s, call, Succeeded(s.flights[call].key, data)), Success(s.flights[call].key))
    case Record(call) =>
      if !(call in s.flights && s.flights[call].Succeeded?) then s
      else
        var f := s.flights[call];
        if f.key in s.operations then Noted(Land(s, call), Taken(f.key))
        else Land(s, call).(operations := s.operations[f.key := f.data])
    case Die(call) =>
      if call !in s.flights then s
      else if s.flights[call].Cleared? then Land(s, call)
      else Noted(Land(s, call), Lost(s.flights[call].key))
  }

  function Run(s: State, steps: seq<Step>): State
    decreases |steps|
  {
    if steps == [] then s else Run(Next(s, steps[0]), steps[1..])
  }

  function Count(marks: seq<Mark>, m: Mark): nat {
    if marks == [] then 0
    else Count(marks[..|marks| - 1], m) + if marks[|marks| - 1] == m then 1 else 0
  }

  lemma CountSnoc(marks: seq<Mark>, last: Mark, m: Mark)
    ensures Count(marks + [last], m) == Count(marks, m) + if last == m then 1 else 0
  {
    assert (marks + [last])[..|marks|] == marks;
  }

  // ------------------------------------------------------------------ //
  // Every success is accounted for
  // ------------------------------------------------------------------ //

  /** Calls of this key with a success still to record. */
  function Unrecorded(s: State, key: E.Key): set<CallId> { set c | c in s.flights && Holds(s, c, key) }

  predicate Holds(s: State, c: CallId, key: E.Key) {
    c in s.flights && s.flights[c].Succeeded? && s.flights[c].key == key
  }

  /** Successes are lost, or found the key taken, or are still to be recorded, or are the
      one record that stands. */
  predicate Balanced(s: State, key: E.Key) {
    Count(s.marks, Success(key))
    == Count(s.marks, Lost(key)) + Count(s.marks, Taken(key)) + |Unrecorded(s, key)|
       + if key in s.operations then 1 else 0
  }

  /** A step touches no call but its own. */
  ghost predicate OthersStay(s: State, n: State, call: CallId) {
    forall c: CallId :: c != call ==>
      (c in n.flights <==> c in s.flights) && (c in s.flights ==> n.flights[c] == s.flights[c])
  }

  lemma UnrecordedAfter(s: State, n: State, call: CallId, key: E.Key)
    requires OthersStay(s, n, call)
    ensures |Unrecorded(n, key)|
            == |Unrecorded(s, key)| + (if Holds(n, call, key) && !Holds(s, call, key) then 1
                                       else if Holds(s, call, key) && !Holds(n, call, key) then -1
                                       else 0)
  {
    var rest := Unrecorded(s, key) - {call};
    assert Unrecorded(s, key) == if call in Unrecorded(s, key) then rest + {call} else rest;
    assert Unrecorded(n, key) == if call in Unrecorded(n, key) then rest + {call} else rest;
  }

  /** What a step notes, if anything. */
  function Note(s: State, step: Step): seq<Mark> {
    match step
    case Look(_, _) => []
    case Act(call, ok, _) =>
      if call in s.flights && s.flights[call].Cleared? && ok then [Success(s.flights[call].key)] else []
    case Record(call) =>
      if call in s.flights && s.flights[call].Succeeded? && s.flights[call].key in s.operations
      then [Taken(s.flights[call].key)] else []
    case Die(call) =>
      if call in s.flights && s.flights[call].Succeeded? then [Lost(s.flights[call].key)] else []
  }

  lemma StepNotes(s: State, step: Step, m: Mark)
    ensures Next(s, step).marks == s.marks + Note(s, step) && OthersStay(s, Next(s, step), step.call)
    ensures Count(Next(s, step).marks, m) == Count(s.marks, m) + if m in Note(s, step) then 1 else 0
  {
    var note := Note(s, step);
    if note == [] {
      assert s.marks + note == s.marks;
    } else {
      CountSnoc(s.marks, note[0], m);
    }
    hide Count;
  }

  lemma StepKeepsBalance(s: State, step: Step, key: E.Key)
    requires Balanced(s, key)
    ensures Balanced(Next(s, step), key)
  {
    var n := Next(s, step);
    StepNotes(s, step, Success(key));
    StepNotes(s, step, Lost(key));
    StepNotes(s, step, Taken(key));
    UnrecordedAfter(s, n, step.call, key);
    StepPays(s, step, key);
    hide Count, OthersStay, Unrecorded, Note, Next, Holds;
  }

  /** What a step notes is paid for by its own call or by the record. */
  lemma StepPays(s: State, step: Step, key: E.Key)
    ensures
      var n, note := Next(s, step), Note(s, step);
      (if Success(key) in note then 1 else 0)
        - (if Lost(key) in note then 1 else 0) - (if Taken(key) in note then 1 else 0)
      == (if Holds(n, step.call, key) && !Holds(s, step.call, key) then 1
          else if Holds(s, step.call, key) && !Holds(n, step.call, key) then -1 else 0)
         + (if key in n.operations then 1 else 0) - (if key in s.operations then 1 else 0)
  {
  }

  /** However calls overlap and processes die, the successful runs of one operation number
      the records lost, plus those that found the key taken, plus those still to be
      recorded, plus one once a record stands. */
  lemma {:induction false} SuccessesAreAccountedFor(s: State, steps: seq<Step>, key: E.Key)
    requires Balanced(s, key)
    ensures Balanced(Run(s, steps), key)
    decreases |steps|
  {
    if steps != [] {
      hide Next, Balanced;
      StepKeepsBalance(s, steps[0], key);
      SuccessesAreAccountedFor(Next(s, steps[0]), steps[1..], key);
    }
  }

  // ------------------------------------------------------------------ //
  // One call at a time
  // ------------------------------------------------------------------ //

  /** Some call of this key is between its steps. */
  ghost predicate InFlight(s: State, key: E.Key) { exists c <- s.flights :: s.flights[c].key == key }

  /** A lookup for a key comes when no other call of it is between its steps, as when calls
      of a task come from the one worker that holds it. */
  ghost predicate Alone(s: State, step: Step) { step.Look? ==> !InFlight(s, step.key) }

  ghost predicate OneAtATime(s: State, steps: seq<Step>)
    decreases |steps|
  {
    steps == [] || (Alone(s, steps[0]) && OneAtATime(Next(s, steps[0]), steps[1..]))
  }

  /** At most one call of the key is between its steps, and only while no record stands. */
  ghost predicate Single(s: State, key: E.Key) {
    && (forall c <- s.flights, d <- s.flights :: s.flights[c].key == s.flights[d].key == key ==> c == d)
    && (key in s.operations ==> !InFlight(s, key))
  }

  lemma StepKeepsSingle(s: State, step: Step, key: E.Key)
    requires Single(s, key) && (step.Look? && step.key == key ==> !InFlight(s, key))
    ensures Single(Next(s, step), key)
    ensures Count(Next(s, step).marks, Taken(key)) == Count(s.marks, Taken(key))
  {
    StepNotes(s, step, Taken(key));
    hide Count;
    if step.Record? && step.call in s.flights && s.flights[step.call].key == key {
      assert key !in s.operations;
    }
  }

  lemma {:induction false} NoneFindsItTaken(s: State, steps: seq<Step>, key: E.Key)
    requires Single(s, key) && OneAtATime(s, steps)
    ensures Single(Run(s, steps), key)
    ensures Count(Run(s, steps).marks, Taken(key)) == Count(s.marks, Taken(key))
    decreases |steps|
  {
    if steps != [] {
      hide Next, Single, InFlight, Count;
      StepKeepsSingle(s, steps[0], key);
      NoneFindsItTaken(Next(s, steps[0]), steps[1..], key);
    }
  }

  /** With one call of a key at a time, from an empty ledger: the tool succeeds at most once
      more than its records were lost. */
  lemma OneAtATimeIsEnough(steps: seq<Step>, key: E.Key)
    requires OneAtATime(EMPTY, steps)
    ensures
      var e := Run(EMPTY, steps);
      && Count(e.marks, Taken(key)) == 0
      && Count(e.marks, Success(key)) <= Count(e.marks, Lost(key)) + 1
  {
    var e := Run(EMPTY, steps);
    assert Unrecorded(EMPTY, key) == {};
    SuccessesAreAccountedFor(EMPTY, steps, key);
    NoneFindsItTaken(EMPTY, steps, key);
    if Unrecorded(e, key) != {} {
      var c :| c in Unrecorded(e, key);
      assert forall d <- Unrecorded(e, key) :: d == c;
      assert Unrecorded(e, key) == {c};
    }
  }

  // ------------------------------------------------------------------ //
  // Why one at a time
  // ------------------------------------------------------------------ //

  /** Some continuation of lookups that are alone runs the tool once too often. */
  ghost predicate CanRunTwice(s: State, key: E.Key) {
    exists steps :: OneAtATime(s, steps) && Count(Run(s, steps).marks, Taken(key)) > Count(s.marks, Taken(key))
  }

  lemma TwiceAfter(s: State, step: Step, key: E.Key)
    requires Alone(s, step) && Count(Next(s, step).marks, Taken(key)) >= Count(s.marks, Taken(key))
    requires CanRunTwice(Next(s, step), key)
    ensures CanRunTwice(s, key)
  {
    hide Alone, Next, Count;
    var n := Next(s, step);
    var steps :| OneAtATime(n, steps) && Count(Run(n, steps).marks, Taken(key)) > Count(n.marks, Taken(key));
    var all := [step] + steps;
    assert all[0] == step && all[1..] == steps;
    assert OneAtATime(s, all);
  }

  lemma TakenNow(s: State, c: CallId, key: E.Key)
    requires c in s.flights && s.flights[c].Succeeded? && s.flights[c].key == key && key in s.operations
    ensures CanRunTwice(s, key)
  {
    var n := Next(s, Record(c));
    CountSnoc(s.marks, Taken(key), Taken(key));
    assert [Record(c)][1..] == [] && Run(n, []) == n;
    assert OneAtATime(n, []) && OneAtATime(s, [Record(c)]);
    assert Run(s, [Record(c)]) == n;
  }

  lemma MarksOnlyGrow(s: State, step: Step, key: E.Key)
    ensures Count(Next(s, step).marks, Taken(key)) >= Count(s.marks, Taken(key))
  {
    StepNotes(s, step, Taken(key));
  }

  /** Two calls of one key past their lookup: both tools run, and the second record finds
      the key taken. */
  lemma TwoInFlightRunTwice(s: State, c: CallId, d: CallId, key: E.Key)
    requires c in s.flights && d in s.flights && c != d && s.flights[c].key == s.flights[d].key == key
    ensures CanRunTwice(s, key)
    decreases (if s.flights[c].Cleared? then 1 else 0) + (if s.flights[d].Cleared? then 1 else 0),
              if key in s.operations then 0 else 1
  {
    hide CanRunTwice, Count;
    if s.flights[c].Cleared? || s.flights[d].Cleared? {
      var step := Act(if s.flights[c].Cleared? then c else d, true, "");
      MarksOnlyGrow(s, step, key);
      TwoInFlightRunTwice(Next(s, step), c, d, key);
      TwiceAfter(s, step, key);
    } else if key !in s.operations {
      MarksOnlyGrow(s, Record(c), key);
      TakenNow(Next(s, Record(c)), d, key);
      TwiceAfter(s, Record(c), key);
    } else {
      TakenNow(s, c, key);
    }
  }

  /** A lookup lets the tool run once too often exactly when it is for a key without a
      record, in a call of its own, while another call of that key is between its steps. */
  lemma LookupSafeIff(s: State, call: CallId, key: E.Key)
    requires Single(s, key)
    ensures CanRunTwice(Next(s, Look(call, key)), key) <==>
              call !in s.flights && key !in s.operations && InFlight(s, key)
  {
    var n := Next(s, Look(call, key));
    hide CanRunTwice;
    if call !in s.flights && key !in s.operations && InFlight(s, key) {
      var c :| c in s.flights && s.flights[c].key == key;
      TwoInFlightRunTwice(n, c, call, key);
    } else {
      assert Single(n, key);
      SingleNeverRunsTwice(n, key);
    }
  }

  lemma SingleNeverRunsTwice(s: State, key: E.Key)
    requires Single(s, key)
    ensures !CanRunTwice(s, key)
  {
    hide Single, Count;
    forall steps | OneAtATime(s, steps)
      ensures Count(Run(s, steps).marks, Taken(key)) == Count(s.marks, Taken(key))
    {
      NoneFindsItTaken(s, steps, key);
    }
  }

  // ------------------------------------------------------------------ //
  // A call by itself
  // ------------------------------------------------------------------ //

  /** The steps of one call that nobody interrupts. */
  function StepsOf(c: E.Call, call: CallId): seq<Step> {
    [Look(call, E.OperationKey(c)), Act(call, c.ok, c.data), if c.dies then Die(call) else Record(call)]
  }

  /** Taken together they are the one step of an undisturbed call: the same ledger, and a
      success exactly when the tool ran and succeeded. */
  lemma AloneIsOneStep(s: State, e: E.State, c: E.Call, call: CallId)
    requires s.operations == e.operations && call !in s.flights
    requires c.sideEffect && E.Gate(e.approvals, c).None?
    ensures
      var n, after, key := Run(s, StepsOf(c, call)), E.Execute(e, c).0, E.OperationKey(c);
      && n.operations == after.operations && n.flights == s.flights
      && Count(n.marks, Success(key)) - Count(s.marks, Success(key))
         == E.SuccessfulRuns(after.runs, key) - E.SuccessfulRuns(e.runs, key)
      && Count(n.marks, Lost(key)) - Count(s.marks, Lost(key))
         == E.LostRecords(after.runs, key) - E.LostRecords(e.runs, key)
  {
    var key, steps := E.OperationKey(c), StepsOf(c, call);
    hide Count, E.SuccessfulRuns, E.LostRecords, E.Gate, E.OperationKey, Run, Next;
    RunOf3(s, steps[0], steps[1], steps[2]);
    E.CallEffect(e, c);
    E.CountSnoc(e.runs, E.RunOf(c), key);
    AloneSteps(s, c, call);
  }

  lemma AloneSteps(s: State, c: E.Call, call: CallId)
    requires call !in s.flights
    ensures
      var steps, key := StepsOf(c, call), E.OperationKey(c);
      var n := Next(Next(Next(s, steps[0]), steps[1]), steps[2]);
      && n.flights == s.flights
      && (if key in s.operations then n == s
          else
            && n.operations == (if c.ok && !c.dies then s.operations[key := c.data] else s.operations)
            && Count(n.marks, Success(key)) == Count(s.marks, Success(key)) + (if c.ok then 1 else 0)
            && Count(n.marks, Lost(key)) == Count(s.marks, Lost(key)) + (if c.ok && c.dies then 1 else 0))
  {
    var key, steps := E.OperationKey(c), StepsOf(c, call);
    hide E.OperationKey, Count;
    var s1 := Next(s, steps[0]);
    var s2 := Next(s1, steps[1]);
    StepNotes(s1, steps[1], Success(key));
    StepNotes(s1, steps[1], Lost(key));
    StepNotes(s2, steps[2], Success(key));
    StepNotes(s2, steps[2], Lost(key));
    assert s1.flights - {call} == s.flights;
  }

  lemma RunOf3(s: State, a: Step, b: Step, c: Step)
    ensures Run(s, [a, b, c]) == Next(Next(Next(s, a), b), c)
  {
    hide Next;
    assert [a, b, c][1..] == [b, c] && [b, c][1..] == [c] && [c][1..] == [];
    var last := Next(Next(Next(s, a), b), c);
    assert Run(last, []) == last;
    assert Run(Next(Next(s, a), b), [c]) == last;
  }
}
