/**
 The dispatcher that runs jobs: it remembers the attempts of the runs it started itself
 and turns the end of a run into one ledger transaction.
 */
module Dispatcher {
  import opened Wrappers
  import opened Ledger
  import opened LedgerInvariant
  import opened LedgerStore
  import opened Delivery

  /** A system that differs from the dispatcher's view only in parts a step of it cannot read. */
  function View(ledger: State, attempts: map<string, nat>): System {
    System(ledger, Stopped, {}, {}, attempts, map[], NO_HISTORY)
  }

  class ActivityAnalysisDispatcher {
    const store: ActivityWindowDeliveryStore
    const threshold: real
    var attemptsByRunId: map<string, nat>

    constructor (store: ActivityWindowDeliveryStore, threshold: real)
      ensures this.store == store && this.threshold == threshold && attemptsByRunId == map[]
    {
      this.store, this.threshold, attemptsByRunId := store, threshold, map[];
    }

    function Seen(): System
      reads this, store
    {
      View(store.Contents(), attemptsByRunId)
    }

    /** A claim is recorded before the run starts; an ineligible one is handed straight back. */
    method StartClaimedJob(job: string, run: string, now: nat, eligible: bool) returns (claimed: bool)
      requires Offered(store.Contents(), job)
      modifies this, store
      ensures var after := ClaimStep(old(Seen()), job, run, now, eligible);
              store.Contents() == after.ledger && attemptsByRunId == after.attempts
      ensures claimed <==> eligible && Claimable(old(store.jobs[job]), now)
    {
      var r := store.ClaimJob(job, run, now);
      if r.Err? { return false; }
      if !eligible {
        var _ := store.DeferRunningJob(job, run, now, false);
        return false;
      }
      attemptsByRunId := attemptsByRunId[run := r.value.attempt];
      return true;
    }

    method OnActivityRunTerminal(job: string, run: string, completed: bool, failure: FailureClass,
                                 nextAt: nat, nextJob: string, now: nat)
      modifies this, store
      ensures var after := RunEndedStep(old(Seen()), job, run, completed, failure, nextAt, nextJob, now, threshold);
              store.Contents() == after.ledger && attemptsByRunId == after.attempts
    {
      hide Complete, DeferJob, FailJob;
      var semanticAttempt := if run in attemptsByRunId then attemptsByRunId[run] else 0;
      attemptsByRunId := attemptsByRunId - {run};
      if completed {
        ghost var before := store.Contents();
        CompletedHeld(before, job, run, threshold, nextJob, now);
        var _ := store.CompleteJob(job, run, threshold, nextJob, now);
      } else if failure == InvalidOutput && semanticAttempt >= 2 {
        var _ := store.FailRunningJob(job, Some(run));
      } else if failure == TerminalFailure {
        var _ := store.FailRunningJob(job, Some(run));
      } else {
        var _ := store.DeferRunningJob(job, run, nextAt, failure == InvalidOutput);
      }
    }

    /** Settles a job that still runs, from what the coordinator found out about its run. */
    method ReconcileRunningJob(job: string, found: Reconciliation, nextAt: nat, nextJob: string, now: nat)
      requires job in store.jobs && store.jobs[job].status == Running
      modifies store
      ensures store.Contents() == ReconcileStep(old(Seen()), job, found, nextAt, nextJob, now, threshold).ledger
    {
      hide Complete, DeferJob, FailJob;
      var running := store.jobs[job];
      if running.runId.Some? && running.runId.value in attemptsByRunId { return; }
      if running.runId.None? || found == NoIdentity {
        var _ := store.FailRunningJob(job, running.runId);
        return;
      }
      var run := running.runId.value;
      if found == CompletedVerified {
        ghost var before := store.Contents();
        CompletedHeld(before, job, run, threshold, nextJob, now);
        var _ := store.CompleteJob(job, run, threshold, nextJob, now);
      } else if found == InvalidOutputFound && running.attempt < 2 {
        var _ := store.DeferRunningJob(job, run, nextAt, true);
      } else if found == Retryable {
        var _ := store.DeferRunningJob(job, run, nextAt, false);
      } else if found != StillActive {
        var _ := store.FailRunningJob(job, Some(run));
      }
    }
  }

  lemma CompletedHeld(s: State, job: string, run: string, threshold: real, nextJob: string, now: nat)
    ensures Complete(s, job, run, threshold, nextJob, now).Done? ==> job in s.jobs
  {
  }

  // ------------------------------------------------------------- attempt limit

  ghost predicate WithinCap(l: State) {
    forall j | j in l.jobs :: l.jobs[j].attempt <= 2
  }

  /**
   Invalid output keeps the counter at 2 or below exactly when this dispatcher recorded
   the run or an attempt is left; recorded, the last attempt fails the job for good.
   */
  lemma InvalidOutputCapIff(sys: System, threshold: real, job: string, run: string, nextAt: nat, nextJob: string,
          now: nat)
    requires SysInv(sys, threshold) && threshold > SCORE_EPSILON && WithinCap(sys.ledger)
    requires RunningAs(sys.ledger, job, Some(run))
    ensures var after := Next(sys, RunEnded(job, run, false, InvalidOutput, nextAt, nextJob, now), threshold);
            WithinCap(after.ledger) <==> run in sys.attempts || sys.ledger.jobs[job].attempt < 2
    ensures var after := Next(sys, RunEnded(job, run, false, InvalidOutput, nextAt, nextJob, now), threshold);
            run in sys.attempts && sys.ledger.jobs[job].attempt == 2 ==>
              job in after.ledger.jobs && after.ledger.jobs[job].terminalFailure
  {
    hide Inv, CountedOk, ReleasedOk, SameRequest, RunningSettled;
    var l := sys.ledger;
    AssignmentsStored(l, threshold);
    assert run in sys.attempts ==> sys.attempts[run] == l.jobs[job].attempt;
    DeferJobKeeps(l, threshold, job, run, nextAt, true);
    FailJobKeeps(l, threshold, job, Some(run));
  }

  /** Replacing the dispatcher while a third attempt runs lets a fourth one start. */
  lemma ReplacedDispatcherExceedsCap(sys: System, threshold: real, job: string, run: string, nextAt: nat,
                                     nextJob: string, now: nat)
    requires SysInv(sys, threshold) && threshold > SCORE_EPSILON && WithinCap(sys.ledger)
    requires RunningAs(sys.ledger, job, Some(run)) && sys.ledger.jobs[job].attempt == 2
    ensures var replaced := Next(sys, NewDispatcher, threshold);
            var after := Next(replaced, RunEnded(job, run, false, InvalidOutput, nextAt, nextJob, now), threshold);
            && job in after.ledger.jobs && after.ledger.jobs[job].attempt == 3
            && after.ledger.jobs[job].terminalFailure == sys.ledger.jobs[job].terminalFailure
  {
    hide Inv, CountedOk, ReleasedOk, SameRequest, RunningSettled;
    DeferJobKeeps(sys.ledger, threshold, job, run, nextAt, true);
  }
}
