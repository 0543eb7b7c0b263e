/** What the steps of delivery and dispatch make of a window and of a job, case by case. */
module DeliveryMeaning {
  import opened Wrappers
  import opened Ledger
  import opened LedgerInvariant
  import opened LedgerMeaning
  import opened Delivery
  import opened DeliveryExamples

  // ------------------------------------------------------------------ dispatcher

  predicate Runs(l: State, job: string, run: string) {
    job in l.jobs && l.jobs[job].status == Running && l.jobs[job].runId == Some(run)
  }

  /** Only this job has changed. */
  predicate OnlyJob(before: State, after: State, job: string) {
    job in before.jobs && job in after.jobs && after == before.(jobs := before.jobs[job := after.jobs[job]])
  }

  /** Waiting for its next turn under the same request, one transport attempt later. */
  predicate PutOff(before: State, after: State, job: string, nextAt: nat) {
    && OnlyJob(before, after, job)
    && after.jobs[job] == before.jobs[job].(status := RetryWait, runId := None, nextAttemptAt := nextAt,
                                            transportAttempt := before.jobs[job].transportAttempt + 1)
  }

  /** Waiting for its next turn under a request of its own. */
  predicate AskedAnew(before: State, after: State, job: string, nextAt: nat) {
    && OnlyJob(before, after, job)
    && after.jobs[job] == before.jobs[job].(status := RetryWait, runId := None, nextAttemptAt := nextAt,
                                            attempt := before.jobs[job].attempt + 1, transportAttempt := 0,
                                            origin := None)
  }

  /** Never to be run again. */
  predicate GivenUp(before: State, after: State, job: string) {
    && OnlyJob(before, after, job)
    && after.jobs[job] == before.jobs[job].(status := RetryWait, terminalFailure := true)
  }

  /** The job is gone with exactly its receipts and their score. */
  ghost predicate Consumed(before: State, after: State, job: string) {
    && job in before.jobs && after.outbox == before.outbox
    && (forall r :: r in after.receipts <==> r in before.receipts && r !in before.jobs[job].analyses)
    && (forall r | r in after.receipts :: after.receipts[r] == before.receipts[r])
    && after.score == before.score - before.jobs[job].consumed
    && (forall j | j in after.jobs :: after.jobs[j].status == Pending && after.jobs[j].attempt == 0)
  }

  lemma CompletedMeans(sys: System, threshold: real, job: string, run: string, nextJob: string, now: nat)
    requires SysInv(sys, threshold) && threshold > SCORE_EPSILON && Runs(sys.ledger, job, run)
    ensures Consumed(sys.ledger, CompleteStep(sys, job, run, threshold, nextJob, now).ledger, job)
  {
    hide CountedOk, ReleasedOk, SameRequest, RunningSettled, Complete, CapOk, PhaseOk;
    var l := sys.ledger;
    CompleteKeeps(l, threshold, job, run, nextJob, now);
    AnalysesAssigned(l, threshold, job);
  }

  lemma AnalysesAssigned(l: State, threshold: real, job: string)
    requires Inv(l, threshold) && job in l.jobs
    ensures forall r :: r in l.jobs[job].analyses <==> r in AssignedTo(l.assignments, job)
  {
    assert JobOk(job, l.jobs[job], AssignedTo(l.assignments, job), l.receipts);
  }

  /** What the end of a run does to its job, by how it ended; the dispatcher forgets the run alone. */
  lemma RunEndedMeans(
    sys: System, threshold: real, job: string, run: string, completed: bool, failure: FailureClass,
    nextAt: nat, nextJob: string, now: nat)
    requires SysInv(sys, threshold) && threshold > SCORE_EPSILON
    ensures var after := RunEndedStep(sys, job, run, completed, failure, nextAt, nextJob, now, threshold);
            var l, l' := sys.ledger, after.ledger;
            && run !in after.attempts && (forall r | r != run :: r in after.attempts <==> r in sys.attempts)
            && (!Runs(l, job, run) ==> l' == l)
            && (Runs(l, job, run) ==>
                  if completed then Consumed(l, l', job)
                  else
                    match failure
                    case Transient => PutOff(l, l', job, nextAt)
                    case TerminalFailure => GivenUp(l, l', job)
                    case InvalidOutput =>
                      if run in sys.attempts && l.jobs[job].attempt >= 2 then GivenUp(l, l', job)
                      else AskedAnew(l, l', job, nextAt))
  {
    hide CountedOk, ReleasedOk, SameRequest, RunningSettled, Inv, CapOk, PhaseOk, CompleteStep;
    var forgot := sys.(attempts := sys.attempts - {run});
    if completed {
      assert SysInv(forgot, threshold);
      if Runs(sys.ledger, job, run) {
        CompletedMeans(forgot, threshold, job, run, nextJob, now);
      }
      NotRunning(forgot, job, run, threshold, nextJob, now);
    }
  }

  lemma NotRunning(sys: System, job: string, run: string, threshold: real, nextJob: string, now: nat)
    ensures !Runs(sys.ledger, job, run) ==> CompleteStep(sys, job, run, threshold, nextJob, now) == sys
    ensures CompleteStep(sys, job, run, threshold, nextJob, now).attempts == sys.attempts
  {
    hide Materialize;
  }

  /** What is found out about a run left over from an earlier process settles its job. */
  lemma ReconcileMeans(
    sys: System, threshold: real, job: string, found: Reconciliation, nextAt: nat, nextJob: string, now: nat)
    requires SysInv(sys, threshold) && threshold > SCORE_EPSILON
    ensures var l, l' := sys.ledger, ReconcileStep(sys, job, found, nextAt, nextJob, now, threshold).ledger;
            if !(exists run :: Runs(l, job, run)) || l.jobs[job].runId.value in sys.attempts then l' == l
            else
              match found
              case CompletedVerified => Consumed(l, l', job)
              case StillActive => l' == l
              case Retryable => PutOff(l, l', job, nextAt)
              case InvalidOutputFound =>
                if l.jobs[job].attempt < 2 then AskedAnew(l, l', job, nextAt) else GivenUp(l, l', job)
              case _ => GivenUp(l, l', job)
  {
    hide CountedOk, ReleasedOk, SameRequest, RunningSettled, CapOk, PhaseOk, CompleteStep, Consumed;
    var l := sys.ledger;
    if job in l.jobs && l.jobs[job].status == Running {
      assert JobOk(job, l.jobs[job], AssignedTo(l.assignments, job), l.receipts);
      assert Runs(l, job, l.jobs[job].runId.value);
      if found == CompletedVerified { CompletedMeans(sys, threshold, job, l.jobs[job].runId.value, nextJob, now); }
    }
  }

  /** A job is offered unless it was given up or a window with a receipt is still in the outbox. */
  lemma OfferedMeans(sys: System, threshold: real, job: string)
    requires SysInv(sys, threshold)
    ensures var l := sys.ledger;
            Offered(l, job) <==> && job in l.jobs && !l.jobs[job].terminalFailure
                                 && !(exists r | r in l.receipts :: l.receipts[r].window in l.outbox)
  {
    hide Inv, CountedOk, ReleasedOk, RunningSettled, CapOk, PhaseOk, RecordedOk;
  }

  predicate Due(job: Job, now: nat) {
    job.status == Pending || (job.status == RetryWait && job.nextAttemptAt <= now)
  }

  /** An offered job that is due is claimed and its run remembered, or handed straight back if it may not run. */
  lemma ClaimMeans(sys: System, threshold: real, job: string, run: string, now: nat, eligible: bool)
    requires SysInv(sys, threshold)
    ensures var after, l := ClaimStep(sys, job, run, now, eligible), sys.ledger;
            if !Offered(l, job) || !Due(l.jobs[job], now) then after == sys
            else
              var was, request := l.jobs[job], Some(JobRequest(job, l.jobs[job].attempt + 1));
              && OnlyJob(l, after.ledger, job)
              && after.attempts == (if eligible then sys.attempts[run := was.attempt] else sys.attempts)
              && after.ledger.jobs[job] ==
                 if eligible then was.(status := Running, runId := Some(run), origin := request)
                 else was.(status := RetryWait, runId := None, nextAttemptAt := now, origin := request,
                           transportAttempt := was.transportAttempt + 1)
  {
    RequestOfJob(sys, threshold, job);
    hide SysInv, Offered;
    if Offered(sys.ledger, job) && Due(sys.ledger.jobs[job], now) { ClaimedThen(sys.ledger, job, run, now); }
  }

  lemma RequestOfJob(sys: System, threshold: real, job: string)
    requires SysInv(sys, threshold)
    ensures Offered(sys.ledger, job) ==>
              job in sys.ledger.jobs
              && JobRequestOf(job, sys.ledger.jobs[job]) == JobRequest(job, sys.ledger.jobs[job].attempt + 1)
  {
    hide CountedOk, ReleasedOk, RunningSettled, CapOk, PhaseOk, SameRequest, RecordedOk, ReceiptsOk, OutboxOk;
    var l := sys.ledger;
    if job in l.jobs { assert JobOk(job, l.jobs[job], AssignedTo(l.assignments, job), l.receipts); }
  }

  lemma ClaimedThen(l: State, job: string, run: string, now: nat)
    requires job in l.jobs && Due(l.jobs[job], now)
    ensures var o := Claim(l, job, run, now);
            && o.Done?
            && var claimed := l.jobs[job].(status := Running, runId := Some(run),
                                           origin := Some(JobRequestOf(job, l.jobs[job])));
               && o.value == claimed && o.state == l.(jobs := l.jobs[job := claimed])
               && var back := DeferJob(o.state, job, run, now, false);
                  && back.Done?
                  && back.state == l.(jobs := l.jobs[job := claimed.(status := RetryWait, runId := None,
                       nextAttemptAt := now, transportAttempt := claimed.transportAttempt + 1)])
  {
  }

  // -------------------------------------------------------------------- delivery

  function QueuedAs(l: State, w: string): Queued
    requires w in l.outbox
  {
    Queued(w, l.outbox[w].requestId, l.outbox[w].semanticAttempt)
  }

  lemma Asks(sys: System, threshold: real, w: string)
    requires sys.phase.Idle? && w in sys.ledger.outbox && !sys.ledger.outbox[w].terminal
    requires !HasReceipt(sys.ledger, w) && sys.ledger.outbox[w].requestId !in sys.archive
    ensures Run(sys, [Begin(w), LookUpArchive], threshold)
            == sys.(phase := Analyzing(QueuedAs(sys.ledger, w), Asking))
  {
    hide HasReceipt;
    RunTwo(sys, Begin(w), LookUpArchive, threshold);
    var q := QueuedAs(sys.ledger, w);
    assert Next(sys, Begin(w), threshold) == sys.(phase := Analyzing(q, LookingUp));
  }

  lemma Counts(
    sys: System, threshold: real, q: Queued, score: real, size: nat, job: string, now: nat, nextAt: nat, l: State)
    requires sys.phase == Analyzing(q, Asking) && q.requestId !in sys.archive
    requires 0.0 <= score <= 1.0 && size <= 16 * 1024
    requires var o := Apply(sys.ledger, q.window, Response(q.requestId, score, size), threshold, job, now, true);
             o.Done? && o.value.accepted && o.state == l
    ensures Run(sys, [ArchiveAnalysis(score, size), Respond(job, now, nextAt)], threshold)
            == sys.(ledger := l, phase := SourceAck(q, false), history := Count(sys.history, q, score),
                    archive := sys.archive[q.requestId := Entry(q.window, score, size, None)])
  {
    hide Apply, Count;
    RunTwo(sys, ArchiveAnalysis(score, size), Respond(job, now, nextAt), threshold);
    var known := sys.(phase := Analyzing(q, Archived(score, size)),
                      archive := sys.archive[q.requestId := Entry(q.window, score, size, None)]);
    assert Next(sys, ArchiveAnalysis(score, size), threshold) == known;
  }

  lemma Leaves(sys: System, threshold: real, q: Queued, nextAt: nat)
    requires sys.phase == SourceAck(q, false) && q.window in sys.ledger.outbox
    requires q.requestId in sys.ledger.receipts && sys.ledger.receipts[q.requestId].window == q.window
    requires sys.ledger.outbox[q.window].requestId == q.requestId
    ensures Run(sys, [ReleaseSource, AcknowledgeLocally(nextAt)], threshold)
            == sys.(ledger := sys.ledger.(outbox := sys.ledger.outbox - {q.window}), phase := Idle,
                    released := sys.released + {q.window})
  {
    RunTwo(sys, ReleaseSource, AcknowledgeLocally(nextAt), threshold);
    assert Next(sys, ReleaseSource, threshold)
           == sys.(released := sys.released + {q.window}, phase := LocalAck(q, false));
  }

  /** A queued window that nothing stands in the way of is counted, released by its source and taken off the queue. */
  lemma DeliveryGoesThrough(
    sys: System, threshold: real, w: string, score: real, size: nat, job: string, now: nat, nextAt: nat)
    requires SysInv(sys, threshold) && threshold > SCORE_EPSILON && sys.phase.Idle?
    requires w in sys.ledger.outbox && !sys.ledger.outbox[w].terminal && !HasReceipt(sys.ledger, w)
    requires var id := sys.ledger.outbox[w].requestId; id !in sys.archive && id !in sys.ledger.receipts
    requires 0.0 <= score <= 1.0 && size <= 16 * 1024
    ensures var steps := [Begin(w), LookUpArchive] + [ArchiveAnalysis(score, size), Respond(job, now, nextAt)]
                         + [ReleaseSource, AcknowledgeLocally(nextAt)];
            var end, row := Run(sys, steps, threshold), sys.ledger.outbox[w];
            && end.phase.Idle? && end.ledger.outbox == sys.ledger.outbox - {w}
            && end.ledger.receipts == sys.ledger.receipts[row.requestId := Receipt(w, score, size, now)]
            && end.ledger.score == sys.ledger.score + score && end.released == sys.released + {w}
            && end.archive == sys.archive[row.requestId := Entry(w, score, size, None)]
            && AddedAt(end.history, w, row.semanticAttempt) == AddedAt(sys.history, w, row.semanticAttempt) + 1
  {
    hide SysInv, Apply, HasReceipt, Run, Next;
    var q := QueuedAs(sys.ledger, w);
    AppliedFirst(sys, threshold, w, Response(q.requestId, score, size), job, now);
    var l := Apply(sys.ledger, w, Response(q.requestId, score, size), threshold, job, now, true).state;
    Asks(sys, threshold, w);
    Counts(sys.(phase := Analyzing(q, Asking)), threshold, q, score, size, job, now, nextAt, l);
    var counted := sys.(ledger := l, phase := SourceAck(q, false), history := Count(sys.history, q, score),
                        archive := sys.archive[q.requestId := Entry(w, score, size, None)]);
    Leaves(counted, threshold, q, nextAt);
    var first, second := [Begin(w), LookUpArchive], [ArchiveAnalysis(score, size), Respond(job, now, nextAt)];
    RunConcat(sys, first, second, threshold);
    RunConcat(sys, first + second, [ReleaseSource, AcknowledgeLocally(nextAt)], threshold);
  }

  lemma AppliedFirst(sys: System, threshold: real, w: string, r: Response, job: string, now: nat)
    requires SysInv(sys, threshold) && threshold > SCORE_EPSILON
    requires w in sys.ledger.outbox && !HasReceipt(sys.ledger, w)
    requires r.requestId == sys.ledger.outbox[w].requestId && r.requestId !in sys.ledger.receipts
    requires 0.0 <= r.score <= 1.0 && r.size <= 16 * 1024
    ensures var o := Apply(sys.ledger, w, r, threshold, job, now, true);
            && o.Done? && o.value.accepted && o.state.outbox == sys.ledger.outbox
            && o.state.receipts == sys.ledger.receipts[r.requestId := Receipt(w, r.score, r.size, now)]
            && o.state.score == sys.ledger.score + r.score
  {
    hide Inv, Apply, HasReceipt, CountedOk, ReleasedOk, RunningSettled, CapOk, PhaseOk, SameRequest, RecordedOk;
    ApplyExact(sys.ledger, threshold, w, r, job, now, true);
    ApplyKeeps(sys.ledger, threshold, w, r, job, now, true);
  }

  /** A delivery in progress. */
  predicate Busy(phase: Phase) {
    phase.Analyzing? || phase.SourceAck? || phase.LocalAck?
  }

  /** A failed delivery puts its window off until the given time, and nothing else changes. */
  lemma FailMeans(sys: System, threshold: real, nextAt: nat)
    requires Busy(sys.phase)
    ensures var after, w := Next(sys, Fail(nextAt), threshold), sys.phase.queued.window;
            && after == sys.(phase := Idle, ledger := sys.ledger.(outbox := after.ledger.outbox))
            && after.ledger.outbox ==
               if w in sys.ledger.outbox && !sys.ledger.outbox[w].terminal then
                 var row := sys.ledger.outbox[w];
                 sys.ledger.outbox[w := row.(attempt := row.attempt + 1, nextAttemptAt := nextAt)]
               else sys.ledger.outbox
  {
  }

  /** A permanent failure ends the attempts of its window. */
  lemma FailPermanentlyMeans(sys: System, threshold: real)
    requires sys.phase.Analyzing?
    ensures var after, w := Next(sys, FailPermanently, threshold), sys.phase.queued.window;
            && after == sys.(phase := Idle, ledger := sys.ledger.(outbox := after.ledger.outbox))
            && after.ledger.outbox ==
               if w in sys.ledger.outbox && !sys.ledger.outbox[w].terminal then
                 var row := sys.ledger.outbox[w];
                 sys.ledger.outbox[w := row.(attempt := row.attempt + 1, terminal := true)]
               else sys.ledger.outbox
  {
  }

  /** The outbox once an attempt has brought no valid output. */
  ghost function WithoutOutput(l: State, w: string, nextAt: nat): map<string, OutboxRow>
    requires w in l.outbox && l.outbox[w].semanticAttempt < 3
  {
    var row := l.outbox[w];
    if row.semanticAttempt == 2 then l.outbox[w := row.(attempt := row.attempt + 1, terminal := true)]
    else if IdentityFree(l, w, row.semanticAttempt + 1) then
      l.outbox[w := row.(requestId := SemanticIdentity(w, row.semanticAttempt + 1),
                         semanticAttempt := row.semanticAttempt + 1,
                         attempt := row.attempt + 1, nextAttemptAt := nextAt)]
    else l.outbox
  }

  lemma AdvancedOutbox(l: State, threshold: real, w: string, nextAt: nat)
    requires Inv(l, threshold) && w in l.outbox && !l.outbox[w].terminal && l.outbox[w].semanticAttempt < 3
    ensures var row := l.outbox[w];
            After(AdvanceSemanticAttempt(l, w, row.requestId, nextAt, NextRequest(w, row.semanticAttempt)), l)
            == l.(outbox := WithoutOutput(l, w, nextAt))
  {
    hide Inv, IdentityFree, SemanticIdentity, NextRequest, AdvanceSemanticAttempt;
    var row := l.outbox[w];
    AdvanceExact(l, threshold, w, row.requestId, nextAt);
    AdvanceOnlyRow(l, w, row.requestId, nextAt, NextRequest(w, row.semanticAttempt));
  }

  /** Invalid output gives the window its next identity, or ends its attempts after the third one. */
  lemma InvalidOutputMeans(sys: System, threshold: real, nextAt: nat)
    requires SysInv(sys, threshold) && sys.phase.Analyzing? && sys.phase.stage.Asking?
    requires var w := sys.phase.queued.window; w in sys.ledger.outbox && !sys.ledger.outbox[w].terminal
    ensures var w := sys.phase.queued.window;
            && sys.ledger.outbox[w].semanticAttempt < 3
            && Next(sys, ReportInvalidOutput(nextAt), threshold)
               == sys.(phase := Idle, ledger := sys.ledger.(outbox := WithoutOutput(sys.ledger, w, nextAt)))
  {
    hide SysInv, AdvanceSemanticAttempt, WithoutOutput, NextRequest, Inv;
    AskedRow(sys, threshold);
    AdvancedOutbox(sys.ledger, threshold, sys.phase.queued.window, nextAt);
  }

  lemma AskedRow(sys: System, threshold: real)
    requires SysInv(sys, threshold) && sys.phase.Analyzing? && sys.phase.queued.window in sys.ledger.outbox
    ensures var row, q := sys.ledger.outbox[sys.phase.queued.window], sys.phase.queued;
            row.requestId == q.requestId && row.semanticAttempt == q.semanticAttempt < 3 && Inv(sys.ledger, threshold)
  {
    hide Inv, CountedOk, ReleasedOk, RunningSettled, CapOk, SameRequest, RecordedOk, SemanticIdentity, HasReceipt;
  }

  lemma AdvanceOnlyRow(l: State, w: string, current: string, nextAt: nat, next: Option<string>)
    ensures var o := AdvanceSemanticAttempt(l, w, current, nextAt, next);
            o.Done? ==> w in l.outbox && w in o.state.outbox
                        && o.state == l.(outbox := l.outbox[w := o.state.outbox[w]])
  {
  }

  /** The archive decides: unknown is asked for, known is used, consumed is acknowledged, foreign ends the window. */
  lemma LookUpMeans(sys: System, threshold: real)
    requires sys.phase.Analyzing? && sys.phase.stage.LookingUp?
    ensures var after, q := Next(sys, LookUpArchive, threshold), sys.phase.queued;
            if q.requestId !in sys.archive then after == sys.(phase := Analyzing(q, Asking))
            else
              var e := sys.archive[q.requestId];
              if e.window != q.window then
                after == Next(sys, FailPermanently, threshold)
              else if e.consumedBy.None? then after == sys.(phase := Analyzing(q, Archived(e.score, e.size)))
              else after == sys.(phase := SourceAck(q, true))
  {
  }

  /** A sealed window is taken in once, under the identity of its first attempt. */
  lemma HandedInMeans(sys: System, threshold: real, w: string, payload: string, now: nat)
    requires SysInv(sys, threshold) && sys.phase.Idle? && w in sys.sealed && IdentityFree(sys.ledger, w, 0)
    ensures var after := Next(sys, EnqueueWindow(w, payload, now), threshold);
            if HasReceipt(sys.ledger, w) || w in sys.ledger.outbox then after.ledger == sys.ledger
            else after.ledger == sys.ledger.(outbox := sys.ledger.outbox[w :=
                   OutboxRow(SemanticIdentity(w, 0), 0, payload, now, 0, now, false)])
  {
    InvOf(sys, threshold);
    EnqueueExact(sys.ledger, threshold, w, payload, now);
    EnqueueKeeps(sys.ledger, threshold, w, payload, now);
    hide SysInv, Inv, HasReceipt, IdentityFree, SemanticIdentity;
  }

  lemma InvOf(sys: System, threshold: real)
    requires SysInv(sys, threshold)
    ensures Inv(sys.ledger, threshold)
  {
    hide Inv, CountedOk, ReleasedOk, RunningSettled, CapOk, PhaseOk, SameRequest, RecordedOk;
  }

  /** Activation finds nothing to make up for: no crash or restart has lost a job that the score was enough for. */
  lemma ActivateMeans(sys: System, threshold: real, job: string, now: nat)
    requires SysInv(sys, threshold) && threshold > SCORE_EPSILON && sys.phase == Listing({})
    ensures Next(sys, Activate(job, now), threshold) == sys.(phase := Idle)
    ensures Materialize(sys.ledger, threshold, job, now) == Done(sys.ledger, false)
  {
    InvOf(sys, threshold);
    TriggerSettled(sys.ledger, threshold);
    LinkedScore(sys.ledger, threshold);
    hide SysInv, Inv, Linked, ScoreOk, Materialize;
    MaterializeKeeps(sys.ledger, threshold, job, now);
    TriggerSettled(Materialize(sys.ledger, threshold, job, now).state, threshold);
  }

  lemma TriggerSettled(l: State, threshold: real)
    requires Inv(l, threshold)
    ensures (l.trigger <==> l.jobs != map[]) && (l.jobs == map[] ==> l.score + SCORE_EPSILON < threshold)
  {
    hide Linked, ScoreOk;
  }

  /** A run that could not be started is forgotten, and its job put off. */
  lemma StartFailedMeans(sys: System, threshold: real, job: string, run: string, nextAt: nat)
    ensures var after := Next(sys, StartFailed(job, run, nextAt), threshold);
            && after == sys.(attempts := sys.attempts - {run}, ledger := after.ledger)
            && if Runs(sys.ledger, job, run) then PutOff(sys.ledger, after.ledger, job, nextAt)
               else after.ledger == sys.ledger
  {
  }

  /** Storing a completed run marks exactly the entries of its job, unless another run has one of them. */
  lemma FinishRunMeans(sys: System, threshold: real, job: string, run: string)
    requires job in sys.ledger.jobs
    ensures var after, rs := Next(sys, FinishRun(job, run), threshold), sys.ledger.jobs[job].analyses;
            var free := forall r | r in rs :: r in sys.archive && sys.archive[r].consumedBy in {None, Some(run)};
            && after == sys.(archive := after.archive) && after.archive.Keys == sys.archive.Keys
            && forall r | r in sys.archive ::
                 after.archive[r] == if free && r in rs then sys.archive[r].(consumedBy := Some(run))
                                     else sys.archive[r]
  {
  }

  /** A start lists what is sealed and not yet released; a crash forgets the phase and the runs, and nothing stored. */
  lemma StartMeans(sys: System, threshold: real)
    ensures sys.phase.Stopped? ==>
              var after := Next(sys, Start, threshold);
              && after == sys.(phase := after.phase) && after.phase.Listing?
              && forall w :: w in after.phase.pending <==> w in sys.sealed && w !in sys.released
    ensures Next(sys, Crash, threshold) == sys.(phase := Stopped, attempts := map[])
    ensures var after := Next(sys, ClearData, threshold);
            && after.ledger == State(map[], map[], map[], map[], 0.0, false)
            && after == sys.(ledger := after.ledger, history := after.history)
  {
  }
}
