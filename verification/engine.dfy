/** One run of the agent loop over one task: load, decide, act, persist, repeat. */
module Engine {
  import opened Options
  import opened Powers
  import opened Tasks

  // What the model and the tools answer is an input: `outcomes(k)` is how the decision
  // taken at persisted step k turns out. Within one run no step number repeats, so this
  // covers every run.

  datatype Outcome =
    | ModelFailed            // the model call itself failed
    | Acted                  // a tool ran, or was refused; the observation goes back in
    | Misspoke               // not one of the three actions; the model is told so
    | Claimed(holdsUp: bool) // "final", and whether the self-check would agree
    | AskedOwner
    | NeedsApproval

  datatype Settings = Settings(verifyCompletion: bool, persistForever: bool)

  datatype Ended = Ended(row: Row, returned: Status, asked: nat, challenges: nat)

  function Challenged(outcome: Outcome, challenges: nat, cfg: Settings): bool {
    outcome.Claimed? && cfg.verifyCompletion && challenges == 0 && !outcome.holdsUp
  }

  function GoesOn(outcome: Outcome, challenges: nat, cfg: Settings): bool {
    outcome.Acted? || outcome.Misspoke? || Challenged(outcome, challenges, cfg)
  }

  /** The row a run leaves behind when decision `outcome` ends it. */
  function FinishRow(row: Row, outcome: Outcome, cfg: Settings, now: int): Row {
    match outcome
    case ModelFailed => RetryRow(row, cfg.persistForever, now)
    case Claimed(_) => StatusRow(row, Completed)
    case _ => StatusRow(row, WaitingForUser)
  }

  function Returned(outcome: Outcome): Status {
    match outcome
    case ModelFailed => Failed
    case Claimed(_) => Completed
    case _ => WaitingForUser
  }

  function RunFrom(row: Row, challenges: nat, outcomes: nat -> Outcome, cancelled: nat -> bool,
                   cfg: Settings, now: int): Ended
    decreases Max(row.maxSteps - row.step, 0)
  {
    var row := if cancelled(row.step) then StatusRow(row, Cancelled) else row;
    if Terminal(row.status) then Ended(row, row.status, 0, challenges)
    else if row.step >= row.maxSteps then Ended(StatusRow(row, Failed), Failed, 0, challenges)
    else
      var next := row.(step := row.step + 1, status := Running);
      var outcome := outcomes(next.step);
      if GoesOn(outcome, challenges, cfg) then
        var count := if Challenged(outcome, challenges, cfg) then challenges + 1 else challenges;
        var rest := RunFrom(next, count, outcomes, cancelled, cfg, now);
        rest.(asked := rest.asked + 1)
      else
        Ended(FinishRow(next, outcome, cfg, now), Returned(outcome), 1, challenges)
  }

  /** One turn of the loop. */
  lemma RunNext(row: Row, challenges: nat, outcomes: nat -> Outcome, cancelled: nat -> bool,
                cfg: Settings, now: int)
    ensures
      var e := RunFrom(row, challenges, outcomes, cancelled, cfg, now);
      var row' := if cancelled(row.step) then StatusRow(row, Cancelled) else row;
      if Terminal(row'.status) then e == Ended(row', row'.status, 0, challenges)
      else if row'.step >= row'.maxSteps then e == Ended(StatusRow(row', Failed), Failed, 0, challenges)
      else
        var next := row'.(step := row'.step + 1, status := Running);
        var outcome := outcomes(next.step);
        if GoesOn(outcome, challenges, cfg) then
          var count := if Challenged(outcome, challenges, cfg) then challenges + 1 else challenges;
          var rest := RunFrom(next, count, outcomes, cancelled, cfg, now);
          e == rest.(asked := rest.asked + 1)
        else e == Ended(FinishRow(next, outcome, cfg, now), Returned(outcome), 1, challenges)
  {
  }

  /** A run asks the model once per persisted step and stops within the steps that are
      left, whatever the model answers. */
  lemma {:induction false} RunStaysWithinBudget(row: Row, challenges: nat, outcomes: nat -> Outcome,
                                                cancelled: nat -> bool, cfg: Settings, now: int)
    ensures var e := RunFrom(row, challenges, outcomes, cancelled, cfg, now);
            && e.row.step == row.step + e.asked
            && e.asked <= Max(row.maxSteps - row.step, 0)
            && e.row.maxSteps == row.maxSteps
            && (e.row.retries == row.retries
                || (e.row.retries == row.retries + 1 && e.asked > 0
                    && outcomes(e.row.step) == ModelFailed))
    decreases Max(row.maxSteps - row.step, 0)
  {
    var row' := if cancelled(row.step) then StatusRow(row, Cancelled) else row;
    if !Terminal(row'.status) && row'.step < row'.maxSteps {
      var next := row'.(step := row'.step + 1, status := Running);
      var outcome := outcomes(next.step);
      if GoesOn(outcome, challenges, cfg) {
        var count := if Challenged(outcome, challenges, cfg) then challenges + 1 else challenges;
        RunStaysWithinBudget(next, count, outcomes, cancelled, cfg, now);
      }
    }
  }

  /** Every decision but the last one left the loop running, and at most one of them was
      a claim of success sent back by the self-check. */
  lemma {:induction false} OnlyTheLastDecisionEnds(row: Row, challenges: nat, outcomes: nat -> Outcome,
                                                   cancelled: nat -> bool, cfg: Settings, now: int)
    ensures var e := RunFrom(row, challenges, outcomes, cancelled, cfg, now);
            && challenges <= e.challenges <= Max(challenges, 1)
            && (forall k :: row.step < k < e.row.step ==> GoesOn(outcomes(k), 0, cfg))
            && (forall j, k :: row.step < j < k < e.row.step ==>
                  !(outcomes(j).Claimed? && outcomes(k).Claimed?))
            && (forall k :: row.step < k < e.row.step && outcomes(k).Claimed? ==>
                  challenges == 0 && e.challenges == 1)
    decreases Max(row.maxSteps - row.step, 0)
  {
    hide RunFrom;
    RunNext(row, challenges, outcomes, cancelled, cfg, now);
    var row' := if cancelled(row.step) then StatusRow(row, Cancelled) else row;
    if !Terminal(row'.status) && row'.step < row'.maxSteps {
      var next := row'.(step := row'.step + 1, status := Running);
      var outcome := outcomes(next.step);
      if GoesOn(outcome, challenges, cfg) {
        var count := if Challenged(outcome, challenges, cfg) then challenges + 1 else challenges;
        OnlyTheLastDecisionEnds(next, count, outcomes, cancelled, cfg, now);
        RunStaysWithinBudget(next, count, outcomes, cancelled, cfg, now);
      }
    }
  }

  /** COMPLETED is returned for fresh work only when the last decision claimed success and
      the claim holds up, checking is off, or one claim was already sent back. FAILED with
      the row back in the queue means exactly that the model failed and a retry was left. */
  lemma {:induction false} EndingsAreEarned(row: Row, challenges: nat, outcomes: nat -> Outcome,
                                            cancelled: nat -> bool, cfg: Settings, now: int)
    ensures var e := RunFrom(row, challenges, outcomes, cancelled, cfg, now);
            && (e.returned == Completed && e.asked > 0 ==>
                  && outcomes(e.row.step).Claimed?
                  && (outcomes(e.row.step).holdsUp || !cfg.verifyCompletion || e.challenges >= 1)
                  && e.row.status == Completed && e.row.worker.None? && e.row.lease.None?)
            && (e.returned == Failed && e.row.status == Pending <==>
                  && e.asked > 0 && outcomes(e.row.step) == ModelFailed
                  && (cfg.persistForever || row.retries < row.maxRetries))
            && (e.returned == Failed && e.row.status == Pending ==>
                  e.row.runAfter == Some(now + Backoff(row.retries)) && e.row.retries == row.retries + 1)
            && (e.returned == WaitingForUser ==>
                  && e.row.status == WaitingForUser
                  && (outcomes(e.row.step).AskedOwner? || outcomes(e.row.step).NeedsApproval?))
    decreases Max(row.maxSteps - row.step, 0)
  {
    var row' := if cancelled(row.step) then StatusRow(row, Cancelled) else row;
    if !Terminal(row'.status) && row'.step < row'.maxSteps {
      var next := row'.(step := row'.step + 1, status := Running);
      var outcome := outcomes(next.step);
      if GoesOn(outcome, challenges, cfg) {
        var count := if Challenged(outcome, challenges, cfg) then challenges + 1 else challenges;
        EndingsAreEarned(next, count, outcomes, cancelled, cfg, now);
        RunStaysWithinBudget(next, count, outcomes, cancelled, cfg, now);
      }
    }
  }

  /** What a run that stopped between two decisions leaves behind: it was cancelled, or else
      the step limit was reached, which is a failure. */
  predicate Stopped(e: Ended, cancelled: nat -> bool) {
    if cancelled(e.row.step) then e.returned == e.row.status == Cancelled
    else e.returned == e.row.status == Failed && e.row.step >= e.row.maxSteps
  }

  /** Every ending, from the last decision. A claim of success completes the task, unless it
      is the first one, checking is on and it does not hold up; then, as after any other
      decision that does not end a run, the run was cancelled or came to its step limit. A
      question and a missing approval wait for the owner. A model failure is a failure to
      the caller, whether the task goes back to the queue or fails for good. */
  lemma {:induction false} EndingsAreGiven(row: Row, challenges: nat, outcomes: nat -> Outcome,
                                           cancelled: nat -> bool, cfg: Settings, now: int)
    ensures
      var e := RunFrom(row, challenges, outcomes, cancelled, cfg, now);
      e.asked > 0 ==>
        match outcomes(e.row.step)
        case Claimed(holdsUp) =>
          if holdsUp || !cfg.verifyCompletion || challenges > 0
             || exists k :: row.step < k < e.row.step && outcomes(k).Claimed?
          then e.returned == e.row.status == Completed && e.row.worker == None && e.row.lease == None
          else Stopped(e, cancelled)
        case Acted => Stopped(e, cancelled)
        case Misspoke => Stopped(e, cancelled)
        case AskedOwner => e.returned == e.row.status == WaitingForUser
        case NeedsApproval => e.returned == e.row.status == WaitingForUser
        case ModelFailed =>
          && e.returned == Failed
          && if cfg.persistForever || row.retries < row.maxRetries
             then e.row.status == Pending && e.row.worker == None && e.row.lease == None
                  && e.row.runAfter == Some(now + Backoff(row.retries)) && e.row.retries == row.retries + 1
             else e.row.status == Failed && e.row.worker == None && e.row.lease == None
                  && e.row.runAfter == row.runAfter && e.row.retries == row.retries
    ensures
      var e := RunFrom(row, challenges, outcomes, cancelled, cfg, now);
      e.asked == 0 ==>
        if Terminal(row.status) && !cancelled(row.step) then e.row == row && e.returned == row.status
        else Stopped(e, cancelled)
    decreases Max(row.maxSteps - row.step, 0)
  {
    hide RunFrom, Backoff;
    RunNext(row, challenges, outcomes, cancelled, cfg, now);
    var row' := if cancelled(row.step) then StatusRow(row, Cancelled) else row;
    if !Terminal(row'.status) && row'.step < row'.maxSteps {
      var next := row'.(step := row'.step + 1, status := Running);
      var outcome := outcomes(next.step);
      if GoesOn(outcome, challenges, cfg) {
        var count := if Challenged(outcome, challenges, cfg) then challenges + 1 else challenges;
        var rest := RunFrom(next, count, outcomes, cancelled, cfg, now);
        EndingsAreGiven(next, count, outcomes, cancelled, cfg, now);
        RunStaysWithinBudget(next, count, outcomes, cancelled, cfg, now);
        if rest.asked > 0 && outcomes(rest.row.step).Claimed? {
          assert outcome.Claimed? ==> row.step < next.step < rest.row.step;
        }
      }
    }
  }

  /** The engine over one persisted row. */
  class AgentEngine {
    var row: Row

    constructor (row: Row)
      ensures this.row == row
    {
      this.row := row;
    }

    method RunTask(outcomes: nat -> Outcome, cancelled: nat -> bool, cfg: Settings, now: int)
        returns (returned: Status, asked: nat)
      modifies this
      ensures var e := RunFrom(old(row), 0, outcomes, cancelled, cfg, now);
              row == e.row && returned == e.returned && asked == e.asked
      ensures row.step == old(row).step + asked
      ensures asked <= Max(old(row).maxSteps - old(row).step, 0)
    {
      hide RunFrom, GoesOn, Challenged, FinishRow, Returned;
      var attempts := 0;
      asked := 0;
      ghost var whole := RunFrom(row, 0, outcomes, cancelled, cfg, now);
      RunStaysWithinBudget(row, 0, outcomes, cancelled, cfg, now);
      while true
        invariant var rest := RunFrom(row, attempts, outcomes, cancelled, cfg, now);
                  whole == rest.(asked := rest.asked + asked)
        decreases Max(row.maxSteps - row.step, 0)
      {
        RunNext(row, attempts, outcomes, cancelled, cfg, now);
        if cancelled(row.step) {
          row := StatusRow(row, Cancelled);
        }
        if Terminal(row.status) {
          return row.status, asked;
        }
        if row.step >= row.maxSteps {
          row := StatusRow(row, Failed);
          return Failed, asked;
        }
        row := row.(step := row.step + 1, status := Running);
        asked := asked + 1;
        var outcome := outcomes(row.step);
        if !GoesOn(outcome, attempts, cfg) {
          row := FinishRow(row, outcome, cfg, now);
          return Returned(outcome), asked;
        }
        if Challenged(outcome, attempts, cfg) {
          attempts := attempts + 1;
        }
      }
    }
  }
}
