/**
 How often a window is counted. The archive remembers which requests were consumed, so a request
 is counted once while its entry is kept; only a window that comes back under another request can
 be counted again.
 */
module Counting {
  import opened Wrappers
  import opened Ledger
  import opened LedgerInvariant
  import opened Delivery

  predicate ConsumedFor(archive: map<string, Entry>, w: string, id: string) {
    id in archive && archive[id].window == w && archive[id].consumedBy.Some?
  }

  /** The window has no row beyond attempt 0 and its analysis has not got past the archive. */
  predicate Stuck(l: State, phase: Phase, w: string) {
    && (w in l.outbox ==> l.outbox[w].semanticAttempt == 0)
    && (phase.Analyzing? && phase.queued.window == w ==> phase.stage.LookingUp? && phase.queued.semanticAttempt == 0)
  }

  /** The analysis that is past the look-up works on an entry that is missing or not consumed. */
  predicate StageOk(phase: Phase, archive: map<string, Entry>, w: string, a: nat, id: string) {
    phase.Analyzing? && phase.queued == Queued(w, id, a) ==>
      && (phase.stage.Asking? ==> id !in archive)
      && (phase.stage.Archived? ==> id in archive && archive[id].window == w && archive[id].consumedBy.None?)
  }

  /** What is known about one request of a window, unless its archive entry was pruned. */
  ghost predicate RequestOk(sys: System, w: string, a: nat)
    requires a < MAXIMUM_SEMANTIC_ATTEMPTS
  {
    var id, n := SemanticIdentity(w, a), AddedAt(sys.history, w, a);
    id in sys.history.pruned ||
    (&& n <= 1
     && (n >= 1 ==> ReceiptIs(sys.ledger, w, id) || ConsumedFor(sys.archive, w, id))
     && (ReceiptIs(sys.ledger, w, id) ==> n >= 1 && id in sys.archive && sys.archive[id].window == w)
     && StageOk(sys.phase, sys.archive, w, a, id)
     && (a == 0 && n >= 1 && !HasReceipt(sys.ledger, w) ==> Stuck(sys.ledger, sys.phase, w)))
  }

  ghost predicate ArchiveOk(sys: System) {
    forall w, a: nat | a < MAXIMUM_SEMANTIC_ATTEMPTS :: RequestOk(sys, w, a)
  }

  ghost predicate FullInv(sys: System, threshold: real) {
    SysInv(sys, threshold) && ArchiveOk(sys)
  }

  // ------------------------------------------------------------------ calm steps

  /** Rows stay at their attempt or are new at attempt 0. */
  ghost predicate CalmRows(l: State, t: State) {
    && t.receipts == l.receipts
    && forall w | w in t.outbox ::
         (w in l.outbox && t.outbox[w].semanticAttempt == l.outbox[w].semanticAttempt)
             || t.outbox[w].semanticAttempt == 0
  }

  /** The service goes on with what it did, or begins with a row as it is. */
  predicate CalmPhase(before: Phase, after: Phase, t: State) {
    after.Analyzing? ==>
      || after == before
      || (after.stage.LookingUp? && after.queued.window in t.outbox
          && after.queued.semanticAttempt == t.outbox[after.queued.window].semanticAttempt)
  }

  ghost predicate Calm(before: System, after: System) {
    && CalmRows(before.ledger, after.ledger) && CalmPhase(before.phase, after.phase, after.ledger)
    && after.history.added == before.history.added && after.history.pruned == before.history.pruned
    && after.archive == before.archive
  }

  lemma CalmKeeps(before: System, after: System)
    requires ArchiveOk(before) && Calm(before, after)
    ensures ArchiveOk(after)
  {
    hide SemanticIdentity;
    forall w, a: nat | a < MAXIMUM_SEMANTIC_ATTEMPTS ensures RequestOk(after, w, a) {
      assert RequestOk(before, w, a);
      assert HasReceipt(after.ledger, w) <==> HasReceipt(before.ledger, w);
    }
  }

  lemma SameRowsCalm(l: State, t: State)
    requires t.receipts == l.receipts && t.outbox == l.outbox
    ensures CalmRows(l, t)
  {
  }

  lemma SameRowCalm(l: State, t: State, w: string)
    requires SameRow(l, t, w)
    ensures CalmRows(l, t)
  {
  }

  lemma HandInCalm(sys: System, threshold: real, w: string, payload: string, now: nat)
    requires SysInv(sys, threshold)
    ensures Calm(sys, HandIn(sys, w, payload, now))
  {
    hide Inv, Enqueue, SemanticIdentity, SameRequest, RunningSettled, ReleasedOk, CountedOk, PhaseOk;
    EnqueueKeeps(sys.ledger, threshold, w, payload, now);
  }

  lemma GiveUpCalm(sys: System, threshold: real, w: string, nextAt: nat)
    requires SysInv(sys, threshold)
    ensures Calm(sys, GiveUp(sys, w, nextAt))
    ensures Calm(sys, sys.(ledger := After(MarkTerminal(sys.ledger, w), sys.ledger), phase := Idle))
  {
    hide Inv, Defer, MarkTerminal, SameRow, CalmRows, SemanticIdentity, SameRequest, RunningSettled, ReleasedOk,
         CountedOk, PhaseOk;
    var l := sys.ledger;
    DeferKeeps(l, threshold, w, nextAt);
    MarkTerminalKeeps(l, threshold, w);
    SameRowsCalm(l, l);
    if Defer(l, w, nextAt).Done? { SameRowCalm(l, Defer(l, w, nextAt).state, w); }
    if MarkTerminal(l, w).Done? { SameRowCalm(l, MarkTerminal(l, w).state, w); }
  }

  lemma LocalStepCalm(sys: System, threshold: real, q: Queued, consumed: bool, nextAt: nat)
    requires SysInv(sys, threshold)
    ensures Calm(sys, LocalStep(sys, q, consumed, nextAt))
  {
    hide SysInv, GiveUp, HasReceipt;
    GiveUpCalm(sys, threshold, q.window, nextAt);
  }

  lemma JobEditsCalm(l: State, job: string, run: Option<string>, nextAt: nat, advance: bool)
    ensures CalmRows(l, After(FailJob(l, job, run), l))
    ensures run.Some? ==> CalmRows(l, After(DeferJob(l, job, run.value, nextAt, advance), l))
  {
  }

  lemma ClaimCalm(sys: System, job: string, run: string, now: nat, eligible: bool)
    ensures Calm(sys, ClaimStep(sys, job, run, now, eligible))
  {
    hide PendingSourceAcknowledgement;
  }

  lemma RunEndedCalm(sys: System, threshold: real, step: Step)
    requires step.RunEnded? && !step.completed
    ensures Calm(sys, Next(sys, step, threshold))
  {
    hide FailJob, DeferJob, CompleteStep, CalmRows, Escapes, RecordedAttempt, StoredCompleted;
    JobEditsCalm(sys.ledger, step.job, Some(step.run), step.nextAt, step.failure == InvalidOutput);
  }

  lemma ReconcileCalm(sys: System, threshold: real, step: Step)
    requires step.ReconcileJob? && step.found != CompletedVerified
    ensures Calm(sys, Next(sys, step, threshold))
  {
    hide FailJob, DeferJob, CompleteStep, CalmRows, PendingSourceAcknowledgement, StoredByItsRun;
    SameRowsCalm(sys.ledger, sys.ledger);
    if step.job in sys.ledger.jobs {
      var run := sys.ledger.jobs[step.job].runId;
      JobEditsCalm(sys.ledger, step.job, run, step.nextAt, true);
      JobEditsCalm(sys.ledger, step.job, run, step.nextAt, false);
    }
  }

  lemma ActivateCalm(sys: System, threshold: real, job: string, now: nat)
    requires SysInv(sys, threshold) && threshold > SCORE_EPSILON
    ensures Calm(sys, Next(sys, Activate(job, now), threshold))
  {
    hide SysInv, Materialize, CalmRows;
    SameRowsCalm(sys.ledger, sys.ledger);
    LedgerIn(sys, threshold);
    MaterializeCalm(sys.ledger, threshold, job, now);
  }

  lemma LedgerIn(sys: System, threshold: real)
    requires SysInv(sys, threshold)
    ensures Inv(sys.ledger, threshold)
  {
    hide Inv, SameRequest, RunningSettled, ReleasedOk, CountedOk, PhaseOk, RecordedOk, CapOk;
  }

  lemma MaterializeCalm(l: State, threshold: real, job: string, now: nat)
    requires Inv(l, threshold) && threshold > SCORE_EPSILON
    ensures CalmRows(l, After(Materialize(l, threshold, job, now), l))
  {
    hide Materialize, Inv, Linked, ScoreOk, CalmRows;
    LinkedIn(l, threshold);
    MaterializeKeeps(l, threshold, job, now);
    SameRowsCalm(l, Materialize(l, threshold, job, now).state);
  }

  lemma LinkedIn(l: State, threshold: real)
    requires Inv(l, threshold)
    ensures Linked(l) && ScoreOk(l)
  {
    hide Linked, ScoreOk;
  }

  /** The steps that neither answer, archive, look up, complete, advance nor clear anything. */
  predicate IsCalm(step: Step) {
    match step
    case LookUpArchive => false
    case ArchiveAnalysis(_, _) => false
    case Respond(_, _, _) => false
    case ReportInvalidOutput(_) => false
    case FinishRun(_, _) => false
    case PruneArchive(_) => false
    case ClearData => false
    case RunEnded(_, _, completed, _, _, _, _) => !completed
    case ReconcileJob(_, found, _, _, _) => found != CompletedVerified
    case _ => true
  }

  lemma CalmSteps(sys: System, threshold: real, step: Step)
    requires SysInv(sys, threshold) && threshold > SCORE_EPSILON && IsCalm(step)
    ensures Calm(sys, Next(sys, step, threshold))
  {
    hide SysInv, HandIn, GiveUp, BeginStep, LocalStep, ClaimStep, RunEndedStep, ReconcileStep, Materialize,
         CalmRows, DeferJob, MarkTerminal;
    SameRowsCalm(sys.ledger, sys.ledger);
    match step
    case EnqueueListed(w, payload, now) => HandInCalm(sys, threshold, w, payload, now);
    case EnqueueWindow(w, payload, now) => HandInCalm(sys, threshold, w, payload, now);
    case Activate(job, now) => ActivateCalm(sys, threshold, job, now);
    case Begin(w) => BeginCalm(sys, w);
    case Fail(nextAt) =>
      if sys.phase.Analyzing? || sys.phase.SourceAck? || sys.phase.LocalAck? {
        GiveUpCalm(sys, threshold, sys.phase.queued.window, nextAt);
      }
    case FailPermanently =>
      if sys.phase.Analyzing? { GiveUpCalm(sys, threshold, sys.phase.queued.window, 0); }
    case AcknowledgeLocally(nextAt) =>
      if sys.phase.LocalAck? { LocalStepCalm(sys, threshold, sys.phase.queued, sys.phase.consumed, nextAt); }
    case ClaimJob(job, run, now) => ClaimCalm(sys, job, run, now, true);
    case ClaimIneligible(job, run, now) => ClaimCalm(sys, job, run, now, false);
    case StartFailed(job, run, nextAt) => JobEditsCalm(sys.ledger, job, Some(run), nextAt, false);
    case RunEnded(_, _, _, _, _, _, _) => RunEndedCalm(sys, threshold, step);
    case ReconcileJob(_, _, _, _, _) => ReconcileCalm(sys, threshold, step);
    case _ =>
  }

  lemma BeginCalm(sys: System, w: string)
    ensures Calm(sys, BeginStep(sys, w))
  {
    hide HasReceipt;
  }

  // -------------------------------------------------------------- archive steps

  lemma LookUpKeepsArchive(sys: System, threshold: real)
    requires FullInv(sys, threshold) && sys.phase.Analyzing? && sys.phase.stage.LookingUp?
    ensures ArchiveOk(LookUpStep(sys, sys.phase.queued))
  {
    hide SysInv, MarkTerminal, SemanticIdentity;
    var q := sys.phase.queued;
    GiveUpCalm(sys, threshold, q.window, 0);
    var next := LookUpStep(sys, q);
    if q.requestId in sys.archive && sys.archive[q.requestId].window != q.window {
      CalmKeeps(sys, next);
    } else {
      forall w, a: nat | a < MAXIMUM_SEMANTIC_ATTEMPTS ensures RequestOk(next, w, a) {
        assert RequestOk(sys, w, a);
        LookUpRequest(sys, threshold, w, a);
      }
    }
  }

  /** An attempt-0 request that was counted is found consumed, so the look-up goes no further. */
  lemma LookUpRequest(sys: System, threshold: real, w: string, a: nat)
    requires FullInv(sys, threshold) && sys.phase.Analyzing? && a < MAXIMUM_SEMANTIC_ATTEMPTS
    ensures var id := SemanticIdentity(w, a);
            id !in sys.history.pruned && a == 0 && AddedAt(sys.history, w, 0) >= 1 && !HasReceipt(sys.ledger, w)
            && sys.phase.queued.window == w ==>
              sys.phase.queued == Queued(w, id, 0) && ConsumedFor(sys.archive, w, id)
  {
    hide Inv, SameRequest, RunningSettled, ReleasedOk, CountedOk, RecordedOk, CapOk;
    assert RequestOk(sys, w, a);
  }

  lemma AskedKeepsArchive(sys: System, threshold: real, score: real, size: nat)
    requires FullInv(sys, threshold) && sys.phase.Analyzing? && sys.phase.stage.Asking?
    ensures ArchiveOk(ArchiveStep(sys, sys.phase.queued, score, size))
  {
    hide SysInv, SemanticIdentity;
    var next := ArchiveStep(sys, sys.phase.queued, score, size);
    forall w, a: nat | a < MAXIMUM_SEMANTIC_ATTEMPTS ensures RequestOk(next, w, a) {
      assert RequestOk(sys, w, a);
    }
  }

  lemma AttemptIdentity(w: string, a: nat, b: nat)
    requires a < MAXIMUM_SEMANTIC_ATTEMPTS && b < MAXIMUM_SEMANTIC_ATTEMPTS
    ensures SemanticIdentity(w, a) == SemanticIdentity(w, b) <==> a == b
  {
    IdentityCollides(w, a, w, b);
  }

  lemma AnswerKeepsArchive(sys: System, threshold: real, job: string, now: nat, nextAt: nat)
    requires FullInv(sys, threshold) && threshold > SCORE_EPSILON
    requires sys.phase.Analyzing? && sys.phase.stage.Archived?
    ensures ArchiveOk(Answer(sys, sys.phase.queued, Answered(sys.phase), job, now, nextAt, threshold))
  {
    hide SysInv, Apply, GiveUp, Count, Accepted, SemanticIdentity;
    var q, l, r := sys.phase.queued, sys.ledger, Answered(sys.phase);
    LedgerIn(sys, threshold);
    ApplyKeeps(l, threshold, q.window, r, job, now, true);
    GiveUpCalm(sys, threshold, q.window, nextAt);
    var o := Apply(l, q.window, r, threshold, job, now, true);
    var next := Answer(sys, q, r, job, now, nextAt, threshold);
    if o.Done? && o.value.accepted {
      AcceptedIn(l, o.state, q.window, r, now);
      CountedArchive(sys, threshold, r, o.state, now);
    } else {
      if o.Done? { SameRowsCalm(l, o.state); }
      CalmKeeps(sys, next);
    }
  }

  lemma AcceptedIn(l: State, t: State, w: string, r: Response, now: nat)
    requires !HasReceipt(l, w) && w in l.outbox && l.outbox[w].requestId == r.requestId && r.requestId !in l.receipts
    requires t.outbox == l.outbox && t.receipts == l.receipts[r.requestId := Receipt(w, r.score, r.size, now)]
    ensures t.receipts[r.requestId].window == w
    ensures forall v :: v != w ==> (HasReceipt(t, v) <==> HasReceipt(l, v))
    ensures HasReceipt(t, w)
    ensures forall v, id :: ReceiptIs(t, v, id) <==> ReceiptIs(l, v, id) || (v == w && id == r.requestId)
  {
    assert t.receipts[r.requestId].window == w;
    forall v | v != w ensures HasReceipt(t, v) <==> HasReceipt(l, v) {
      if HasReceipt(l, v) {
        var id :| id in l.receipts && l.receipts[id].window == v;
        assert t.receipts[id].window == v;
      }
    }
  }

  /** The request counted had not been counted before, unless its entry was pruned. */
  lemma CountedArchive(sys: System, threshold: real, r: Response, t: State, now: nat)
    requires FullInv(sys, threshold) && sys.phase.Analyzing? && sys.phase.stage.Archived?
    requires r == Answered(sys.phase) && t.outbox == sys.ledger.outbox && HasReceipt(t, sys.phase.queued.window)
    requires forall v :: v != sys.phase.queued.window ==> (HasReceipt(t, v) <==> HasReceipt(sys.ledger, v))
    requires forall v, id ::
               ReceiptIs(t, v, id) <==>
               ReceiptIs(sys.ledger, v, id) || (v == sys.phase.queued.window && id == r.requestId)
    ensures ArchiveOk(sys.(ledger := t, phase := SourceAck(sys.phase.queued, false),
                           history := Count(sys.history, sys.phase.queued, r.score)))
  {
    var q := sys.phase.queued;
    QueuedOk(sys, threshold);
    hide SysInv, SemanticIdentity, HasReceipt, ReceiptIs, AddedAt;
    CountAdds(sys.history, q, r.score);
    hide Count, Added;
    var next := sys.(ledger := t, phase := SourceAck(q, false), history := Count(sys.history, q, r.score));
    forall w, a: nat | a < MAXIMUM_SEMANTIC_ATTEMPTS ensures RequestOk(next, w, a) {
      assert RequestOk(sys, w, a);
      AttemptIdentity(w, a, q.semanticAttempt);
      ReceiptHas(sys.ledger, w, SemanticIdentity(w, a));
    }
  }

  lemma QueuedOk(sys: System, threshold: real)
    requires SysInv(sys, threshold) && sys.phase.Analyzing?
    ensures var q := sys.phase.queued;
            && q.semanticAttempt < MAXIMUM_SEMANTIC_ATTEMPTS && !HasReceipt(sys.ledger, q.window)
            && q == Queued(q.window, SemanticIdentity(q.window, q.semanticAttempt), q.semanticAttempt)
  {
    hide Inv, SemanticIdentity, SameRequest, RunningSettled, ReleasedOk, CountedOk, RecordedOk, CapOk, HasReceipt;
  }

  lemma ReceiptHas(l: State, w: string, id: string)
    ensures ReceiptIs(l, w, id) ==> HasReceipt(l, w)
  {
  }

  lemma AdvancedKeepsArchive(sys: System, threshold: real, nextAt: nat)
    requires FullInv(sys, threshold) && sys.phase.Analyzing? && sys.phase.stage.Asking?
    ensures ArchiveOk(InvalidOutputStep(sys, sys.phase.queued, nextAt))
  {
    hide SysInv, SemanticIdentity, AdvanceSemanticAttempt;
    var q := sys.phase.queued;
    OnlyRowChanges(sys.ledger, q, nextAt);
    var next := InvalidOutputStep(sys, q, nextAt);
    forall w, a: nat | a < MAXIMUM_SEMANTIC_ATTEMPTS ensures RequestOk(next, w, a) {
      assert RequestOk(sys, w, a);
      assert HasReceipt(next.ledger, w) <==> HasReceipt(sys.ledger, w);
    }
  }

  lemma PrunedKeepsArchive(sys: System, id: string)
    requires ArchiveOk(sys)
    ensures ArchiveOk(sys.(archive := sys.archive - {id}, history := sys.history.(pruned := sys.history.pruned + {id})))
  {
    hide SemanticIdentity;
    var next := sys.(archive := sys.archive - {id}, history := sys.history.(pruned := sys.history.pruned + {id}));
    forall w, a: nat | a < MAXIMUM_SEMANTIC_ATTEMPTS ensures RequestOk(next, w, a) {
      assert RequestOk(sys, w, a);
    }
  }

  lemma ClearedKeepsArchive(sys: System)
    requires ArchiveOk(sys)
    ensures ArchiveOk(ClearStep(sys))
  {
    hide SemanticIdentity;
    forall w, a: nat | a < MAXIMUM_SEMANTIC_ATTEMPTS ensures RequestOk(ClearStep(sys), w, a) {
      assert RequestOk(sys, w, a);
    }
  }

  /** Analyses of a job are receipts under a request of their own window. */
  lemma AnalysisIs(l: State, threshold: real, job: string, id: string) returns (w: string, a: nat)
    requires Inv(l, threshold) && job in l.jobs && id in l.jobs[job].analyses
    ensures a < MAXIMUM_SEMANTIC_ATTEMPTS && ReceiptIs(l, w, id) && id == SemanticIdentity(w, a)
    ensures id in AssignedTo(l.assignments, job)
  {
    hide SemanticIdentity, Total, OutboxOk, ReadablePayload;
    assert JobOk(job, l.jobs[job], AssignedTo(l.assignments, job), l.receipts);
    assert id in (set r | r in l.jobs[job].analyses);
    w := l.receipts[id].window;
    assert IsSemanticRequestId(w, id);
    a :| a < MAXIMUM_SEMANTIC_ATTEMPTS && SemanticIdentity(w, a) == id;
  }

  lemma FinishedKeepsArchive(sys: System, threshold: real, job: string, run: string)
    requires FullInv(sys, threshold)
    ensures ArchiveOk(FinishStep(sys, job, run))
  {
    hide SysInv, SemanticIdentity, Consumable, HasReceipt, ReceiptIs;
    LedgerIn(sys, threshold);
    var next := FinishStep(sys, job, run);
    forall w, a: nat | a < MAXIMUM_SEMANTIC_ATTEMPTS ensures RequestOk(next, w, a) {
      assert RequestOk(sys, w, a);
      var id := SemanticIdentity(w, a);
      if id !in sys.history.pruned && sys.phase.Analyzing? && sys.phase.queued == Queued(w, id, a)
          && job in sys.ledger.jobs
         && id in sys.ledger.jobs[job].analyses && id in sys.archive && sys.archive[id].window == w {
        NotBeingAnalyzed(sys, threshold, job, w, a);
      }
    }
  }

  /** No job holds the request that is being analysed. */
  lemma NotBeingAnalyzed(sys: System, threshold: real, job: string, w: string, a: nat)
    requires FullInv(sys, threshold) && sys.phase.Analyzing? && sys.phase.queued.window == w
    requires a < MAXIMUM_SEMANTIC_ATTEMPTS && SemanticIdentity(w, a) !in sys.history.pruned && job in sys.ledger.jobs
    requires SemanticIdentity(w, a) in sys.archive && sys.archive[SemanticIdentity(w, a)].window == w
    ensures SemanticIdentity(w, a) !in sys.ledger.jobs[job].analyses
  {
    var id := SemanticIdentity(w, a);
    QueuedOk(sys, threshold);
    LedgerIn(sys, threshold);
    hide SysInv, SemanticIdentity;
    if id in sys.ledger.jobs[job].analyses {
      var v, b := AnalysisIs(sys.ledger, threshold, job, id);
      assert RequestOk(sys, v, b);
      ReceiptHas(sys.ledger, v, id);
      assert false;
    }
  }

  /** The receipts a completed job deletes stay behind as consumed entries of the archive. */
  lemma CompletedKeepsArchive(sys: System, threshold: real, job: string, run: string, nextJob: string, now: nat)
    requires FullInv(sys, threshold) && threshold > SCORE_EPSILON && StoredCompleted(sys, job, run)
    ensures ArchiveOk(CompleteStep(sys, job, run, threshold, nextJob, now))
  {
    hide SysInv, Complete, SemanticIdentity, HasReceipt, StoredCompleted, AssignedTo;
    var l, o := sys.ledger, Complete(sys.ledger, job, run, threshold, nextJob, now);
    var next := CompleteStep(sys, job, run, threshold, nextJob, now);
    if o.Done? && job in l.jobs {
      LedgerIn(sys, threshold);
      ScoresIn(sys, threshold);
      CompleteKeeps(l, threshold, job, run, nextJob, now);
      forall w, a: nat | a < MAXIMUM_SEMANTIC_ATTEMPTS ensures RequestOk(next, w, a) {
        assert RequestOk(sys, w, a);
        var id := SemanticIdentity(w, a);
        if ReceiptIs(l, w, id) && !ReceiptIs(o.state, w, id) && id !in sys.history.pruned {
          DeletedIsConsumed(sys, threshold, job, run, id);
        }
        if HasReceipt(l, w) && !HasReceipt(o.state, w) {
          DeletedIsSettled(sys, threshold, job, run, nextJob, now, w);
        }
        FewerReceipts(l, o.state, w);
      }
    }
  }

  lemma ScoresIn(sys: System, threshold: real)
    requires SysInv(sys, threshold)
    ensures ResolvableScores(sys.ledger.receipts)
  {
    hide Inv, ResolvableScores, SameRequest, RunningSettled, ReleasedOk, CountedOk, PhaseOk, RecordedOk, CapOk;
  }

  lemma FewerReceipts(l: State, t: State, w: string)
    requires forall id | id in t.receipts :: id in l.receipts && t.receipts[id] == l.receipts[id]
    ensures HasReceipt(t, w) ==> HasReceipt(l, w)
  {
    if HasReceipt(t, w) {
      var id :| id in t.receipts && t.receipts[id].window == w;
      assert l.receipts[id].window == w;
    }
  }

  lemma DeletedIsConsumed(sys: System, threshold: real, job: string, run: string, id: string)
    requires SysInv(sys, threshold) && RunningAs(sys.ledger, job, Some(run)) && StoredCompleted(sys, job, run)
    requires id in AssignedTo(sys.ledger.assignments, job) && id !in sys.history.pruned
    ensures id in sys.archive && sys.archive[id].consumedBy == Some(run)
  {
    LedgerIn(sys, threshold);
    hide SysInv;
    AssignedIsAnalysis(sys.ledger, threshold, job, id);
  }

  lemma AssignedIsAnalysis(l: State, threshold: real, job: string, id: string)
    requires Inv(l, threshold) && job in l.jobs && id in AssignedTo(l.assignments, job)
    ensures id in l.jobs[job].analyses
  {
    hide Total, OutboxOk, ReceiptsOk, ReadablePayload, AssignedTo;
    assert JobOk(job, l.jobs[job], AssignedTo(l.assignments, job), l.receipts);
    assert id in (set r | r in l.jobs[job].analyses);
  }

  lemma DeletedIsSettled(sys: System, threshold: real, job: string, run: string, nextJob: string, now: nat, w: string)
    requires SysInv(sys, threshold) && threshold > SCORE_EPSILON && HasReceipt(sys.ledger, w)
    requires var o := Complete(sys.ledger, job, run, threshold, nextJob, now); o.Done? && !HasReceipt(o.state, w)
    ensures var t := Complete(sys.ledger, job, run, threshold, nextJob, now).state; Stuck(t, sys.phase, w)
  {
    CompletionSafe(sys, threshold, job, run, nextJob, now);
    LedgerIn(sys, threshold);
    ScoresIn(sys, threshold);
    CompleteKeeps(sys.ledger, threshold, job, run, nextJob, now);
    if sys.phase.Analyzing? { QueuedOk(sys, threshold); }
    hide SysInv, Complete, SemanticIdentity, Inv;
    var id :| id in sys.ledger.receipts && sys.ledger.receipts[id].window == w;
    var t := Complete(sys.ledger, job, run, threshold, nextJob, now).state;
    assert forall i | i in t.receipts :: t.receipts[i] == sys.ledger.receipts[i];
  }

  lemma EndedKeepsArchive(sys: System, threshold: real, step: Step)
    requires FullInv(sys, threshold) && threshold > SCORE_EPSILON
    requires (step.RunEnded? && step.completed) || (step.ReconcileJob? && step.found == CompletedVerified)
    ensures ArchiveOk(Next(sys, step, threshold))
  {
    hide SysInv, ArchiveOk, CompleteStep, StoredCompleted, PendingSourceAcknowledgement, FailJob;
    if step.RunEnded? {
      if StoredCompleted(sys, step.job, step.run) {
        var less := sys.(attempts := sys.attempts - {step.run});
        FewerAttemptsKeep(sys, threshold, step.run);
        FewerAttemptsArchive(sys, step.run, step.job);
        CompletedKeepsArchive(less, threshold, step.job, step.run, step.nextJob, step.now);
      }
    } else if StoredByItsRun(sys, step.job) {
      CompletedKeepsArchive(sys, threshold, step.job, sys.ledger.jobs[step.job].runId.value, step.nextJob, step.now);
    }
  }

  lemma FewerAttemptsArchive(sys: System, run: string, job: string)
    requires ArchiveOk(sys)
    ensures ArchiveOk(sys.(attempts := sys.attempts - {run}))
    ensures StoredCompleted(sys, job, run) ==> StoredCompleted(sys.(attempts := sys.attempts - {run}), job, run)
  {
    SameRowsCalm(sys.ledger, sys.ledger);
    CalmKeeps(sys, sys.(attempts := sys.attempts - {run}));
  }

  lemma StepKeepsArchive(sys: System, threshold: real, step: Step)
    requires FullInv(sys, threshold) && threshold > SCORE_EPSILON && ResolvableStep(step)
    ensures FullInv(Next(sys, step, threshold), threshold)
  {
    hide SysInv, ArchiveOk, Next, Calm;
    StepKeeps(sys, threshold, step);
    if IsCalm(step) {
      CalmSteps(sys, threshold, step);
      CalmKeeps(sys, Next(sys, step, threshold));
    } else if step.RunEnded? || step.ReconcileJob? {
      EndedKeepsArchive(sys, threshold, step);
    } else {
      BusyKeepsArchive(sys, threshold, step);
    }
  }

  lemma BusyKeepsArchive(sys: System, threshold: real, step: Step)
    requires FullInv(sys, threshold) && threshold > SCORE_EPSILON && !IsCalm(step) && !step.RunEnded?
            && !step.ReconcileJob?
    ensures ArchiveOk(Next(sys, step, threshold))
  {
    hide SysInv, ArchiveOk, LookUpStep, ArchiveStep, Answer, Answered, InvalidOutputStep, FinishStep, ClearStep;
    match step
    case LookUpArchive =>
      if sys.phase.Analyzing? && sys.phase.stage.LookingUp? { LookUpKeepsArchive(sys, threshold); }
    case ArchiveAnalysis(score, size) =>
      if sys.phase.Analyzing? && sys.phase.stage.Asking? { AskedKeepsArchive(sys, threshold, score, size); }
    case Respond(job, now, nextAt) =>
      if sys.phase.Analyzing? && sys.phase.stage.Archived? { AnswerKeepsArchive(sys, threshold, job, now, nextAt); }
    case ReportInvalidOutput(nextAt) =>
      if sys.phase.Analyzing? && sys.phase.stage.Asking? { AdvancedKeepsArchive(sys, threshold, nextAt); }
    case FinishRun(job, run) => FinishedKeepsArchive(sys, threshold, job, run);
    case PruneArchive(id) => PrunedKeepsArchive(sys, id);
    case ClearData => ClearedKeepsArchive(sys);
  }

  /** Every run from a fresh system keeps what the archive knows about every request. */
  lemma {:induction false} RunKeepsArchive(steps: seq<Step>, threshold: real)
    requires threshold > SCORE_EPSILON && forall step | step in steps :: ResolvableStep(step)
    ensures FullInv(Run(FRESH, steps, threshold), threshold)
  {
    if steps == [] {
      RunKeeps(steps, threshold);
      hide SysInv, SemanticIdentity;
      assert forall v :: !HasReceipt(EMPTY, v);
    } else {
      hide FullInv, Next;
      var n := |steps| - 1;
      RunKeepsArchive(steps[..n], threshold);
      StepKeepsArchive(Run(FRESH, steps[..n], threshold), threshold, steps[n]);
    }
  }

  // ------------------------------------------------------------------- theorems

  predicate Pruned(h: History, w: string) {
    exists a: nat | a < MAXIMUM_SEMANTIC_ATTEMPTS :: SemanticIdentity(w, a) in h.pruned
  }

  /** In every run a request is counted at most once, unless its archive entry was removed. */
  lemma RequestCountedOnce(steps: seq<Step>, threshold: real, w: string, a: nat)
    requires threshold > SCORE_EPSILON && forall step | step in steps :: ResolvableStep(step)
    requires a < MAXIMUM_SEMANTIC_ATTEMPTS
    ensures var h := Run(FRESH, steps, threshold).history;
            SemanticIdentity(w, a) !in h.pruned ==> AddedAt(h, w, a) <= 1
  {
    hide SysInv, SemanticIdentity;
    RunKeepsArchive(steps, threshold);
    assert RequestOk(Run(FRESH, steps, threshold), w, a);
  }

  /**
   In every run a window with its archive entries kept is counted again only if it was handed in
   again after its source released it and a request of its second or third attempt was counted;
   even then each attempt is counted at most once.
   */
  lemma CountedAgainOnlyIf(steps: seq<Step>, threshold: real, w: string)
    requires threshold > SCORE_EPSILON && forall step | step in steps :: ResolvableStep(step)
    ensures var h := Run(FRESH, steps, threshold).history;
            !Pruned(h, w) ==>
              && Added(h, w) <= 3
              && (Added(h, w) >= 2 ==> w in h.late && (AddedAt(h, w, 1) == 1 || AddedAt(h, w, 2) == 1))
  {
    hide SysInv, SemanticIdentity, Run;
    AddedAtMostOnce(steps, threshold, w);
    RequestCountedOnce(steps, threshold, w, 0);
    RequestCountedOnce(steps, threshold, w, 1);
    RequestCountedOnce(steps, threshold, w, 2);
    var h := Run(FRESH, steps, threshold).history;
    if !Pruned(h, w) {
      assert SemanticIdentity(w, 0) !in h.pruned && SemanticIdentity(w, 1) !in h.pruned
          && SemanticIdentity(w, 2) !in h.pruned;
    }
  }

  /**
   A row that local acknowledgement of an applied window removes has a receipt, and its request was
   counted exactly once unless its entry was pruned; the window exactly once unless it came again.
   */
  lemma AcknowledgedExactlyOnce(sys: System, threshold: real, nextAt: nat)
    requires FullInv(sys, threshold) && sys.phase.LocalAck? && !sys.phase.consumed
    requires var w := sys.phase.queued.window;
             w in sys.ledger.outbox && w !in LocalStep(sys, sys.phase.queued, false, nextAt).ledger.outbox
    ensures var w := sys.phase.queued.window;
            var a := sys.ledger.outbox[w].semanticAttempt;
            && a < MAXIMUM_SEMANTIC_ATTEMPTS && ReceiptIs(sys.ledger, w, SemanticIdentity(w, a))
            && (SemanticIdentity(w, a) !in sys.history.pruned ==> AddedAt(sys.history, w, a) == 1)
            && (w !in sys.history.late ==> Added(sys.history, w) == 1)
  {
    var w := sys.phase.queued.window;
    LedgerIn(sys, threshold);
    OutboxIn(sys.ledger, threshold);
    CountedIn(sys, threshold);
    hide SysInv, Inv, SemanticIdentity, OutboxOk, Added;
    RowIdentity(sys.ledger.outbox, w);
    var a := sys.ledger.outbox[w].semanticAttempt;
    assert RequestOk(sys, w, a);
    ReceiptHas(sys.ledger, w, SemanticIdentity(w, a));
  }

  lemma CountedIn(sys: System, threshold: real)
    requires SysInv(sys, threshold)
    ensures CountedOk(sys.ledger, sys.released, sys.history)
  {
    hide Inv, SameRequest, RunningSettled, ReleasedOk, CountedOk, PhaseOk, RecordedOk, CapOk;
  }

  // ---------------------------------------------------------- when it comes again

  /** The archive answers for the first attempt of the window, so that it will not be counted. */
  ghost predicate Barred(sys: System, w: string) {
    var id := SemanticIdentity(w, 0);
    && id in sys.archive && (sys.archive[id].window != w || sys.archive[id].consumedBy.Some?)
    && !HasReceipt(sys.ledger, w) && Stuck(sys.ledger, sys.phase, w)
  }

  /** Steps that neither remove the entry of the window's first attempt nor clear the ledger. */
  predicate Keeping(step: Step, w: string) {
    step != PruneArchive(SemanticIdentity(w, 0)) && step != ClearData
  }

  ghost predicate StaysBarred(sys: System, next: System, w: string) {
    Barred(next, w) && SameCounts(sys.history, next.history, w)
  }

  ghost predicate SameCounts(h: History, h': History, w: string) {
    forall a: nat :: AddedAt(h', w, a) == AddedAt(h, w, a)
  }

  lemma SameCountsAdded(h: History, h': History, w: string)
    requires SameCounts(h, h', w)
    ensures Added(h', w) == Added(h, w)
  {
    hide AddedAt;
  }

  lemma CalmStaysBarred(sys: System, next: System, w: string)
    requires Barred(sys, w) && Calm(sys, next)
    ensures StaysBarred(sys, next, w)
  {
    hide SemanticIdentity;
    assert HasReceipt(next.ledger, w) <==> HasReceipt(sys.ledger, w);
  }

  lemma LookUpStaysBarred(sys: System, threshold: real, w: string)
    requires SysInv(sys, threshold) && Barred(sys, w) && sys.phase.Analyzing? && sys.phase.stage.LookingUp?
    ensures StaysBarred(sys, LookUpStep(sys, sys.phase.queued), w)
  {
    var q := sys.phase.queued;
    QueuedOk(sys, threshold);
    GiveUpCalm(sys, threshold, q.window, 0);
    hide SysInv, SemanticIdentity, MarkTerminal;
    if q.requestId in sys.archive && sys.archive[q.requestId].window != q.window {
      CalmStaysBarred(sys, LookUpStep(sys, q), w);
    }
  }

  lemma AnswerStaysBarred(sys: System, threshold: real, job: string, now: nat, nextAt: nat, w: string)
    requires SysInv(sys, threshold) && threshold > SCORE_EPSILON && Barred(sys, w)
    requires sys.phase.Analyzing? && sys.phase.stage.Archived?
    ensures StaysBarred(sys, Answer(sys, sys.phase.queued, Answered(sys.phase), job, now, nextAt, threshold), w)
  {
    var q, l, r := sys.phase.queued, sys.ledger, Answered(sys.phase);
    QueuedOk(sys, threshold);
    LedgerIn(sys, threshold);
    ApplyKeeps(l, threshold, q.window, r, job, now, true);
    GiveUpCalm(sys, threshold, q.window, nextAt);
    hide SysInv, Inv, Apply, GiveUp, SemanticIdentity;
    var o := Apply(l, q.window, r, threshold, job, now, true);
    CountAdds(sys.history, q, r.score);
    hide Count, Added, AddedAt;
    if o.Done? && o.value.accepted {
      AcceptedIn(l, o.state, q.window, r, now);
    } else {
      ReceiptHas(l, q.window, r.requestId);
      CalmStaysBarred(sys, Answer(sys, q, r, job, now, nextAt, threshold), w);
    }
  }

  lemma BusyStaysBarred(sys: System, threshold: real, step: Step, w: string)
    requires SysInv(sys, threshold) && threshold > SCORE_EPSILON && Barred(sys, w) && Keeping(step, w)
    requires !IsCalm(step) && !step.RunEnded? && !step.ReconcileJob?
    ensures StaysBarred(sys, Next(sys, step, threshold), w)
  {
    hide SysInv, LookUpStep, Answer, Answered, HasReceipt, SemanticIdentity, AdvanceSemanticAttempt, Consumable;
    match step
    case LookUpArchive =>
      if sys.phase.Analyzing? && sys.phase.stage.LookingUp? { LookUpStaysBarred(sys, threshold, w); }
    case Respond(job, now, nextAt) =>
      if sys.phase.Analyzing? && sys.phase.stage.Archived? { AnswerStaysBarred(sys, threshold, job, now, nextAt, w); }
    case ReportInvalidOutput(nextAt) =>
      if sys.phase.Analyzing? && sys.phase.stage.Asking? {
        OnlyRowChanges(sys.ledger, sys.phase.queued, nextAt);
        SameReceipts(sys.ledger, InvalidOutputStep(sys, sys.phase.queued, nextAt).ledger, w);
      }
    case _ =>
  }

  lemma SameReceipts(l: State, t: State, w: string)
    requires t.receipts == l.receipts
    ensures HasReceipt(t, w) <==> HasReceipt(l, w)
  {
  }

  lemma CompleteStaysBarred(sys: System, threshold: real, job: string, run: string, nextJob: string, now: nat,
          w: string)
    requires SysInv(sys, threshold) && threshold > SCORE_EPSILON && Barred(sys, w)
    ensures StaysBarred(sys, CompleteStep(sys, job, run, threshold, nextJob, now), w)
  {
    LedgerIn(sys, threshold);
    ScoresIn(sys, threshold);
    hide SysInv, Inv, Complete, SemanticIdentity;
    CompleteKeeps(sys.ledger, threshold, job, run, nextJob, now);
    var o := Complete(sys.ledger, job, run, threshold, nextJob, now);
    if o.Done? { FewerReceipts(sys.ledger, o.state, w); }
  }

  lemma EndedStaysBarred(sys: System, threshold: real, step: Step, w: string)
    requires SysInv(sys, threshold) && threshold > SCORE_EPSILON && Barred(sys, w)
    requires (step.RunEnded? && step.completed) || (step.ReconcileJob? && step.found == CompletedVerified)
    ensures StaysBarred(sys, Next(sys, step, threshold), w)
  {
    hide SysInv, HasReceipt, SemanticIdentity, CompleteStep, StoredCompleted, PendingSourceAcknowledgement, FailJob;
    if step.RunEnded? {
      FewerAttemptsKeep(sys, threshold, step.run);
      var less := sys.(attempts := sys.attempts - {step.run});
      CompleteStaysBarred(less, threshold, step.job, step.run, step.nextJob, step.now, w);
    } else if StoredByItsRun(sys, step.job) {
      CompleteStaysBarred(sys, threshold, step.job, sys.ledger.jobs[step.job].runId.value, step.nextJob, step.now, w);
    }
  }

  lemma StepStaysBarred(sys: System, threshold: real, step: Step, w: string)
    requires SysInv(sys, threshold) && threshold > SCORE_EPSILON && Barred(sys, w) && Keeping(step, w)
    ensures StaysBarred(sys, Next(sys, step, threshold), w)
  {
    hide SysInv, Barred, Next, Calm, StaysBarred;
    if IsCalm(step) {
      CalmSteps(sys, threshold, step);
      CalmStaysBarred(sys, Next(sys, step, threshold), w);
    } else if step.RunEnded? || step.ReconcileJob? {
      EndedStaysBarred(sys, threshold, step, w);
    } else {
      BusyStaysBarred(sys, threshold, step, w);
    }
  }

  /** While the archive answers for its first attempt, a window is not counted, whatever happens. */
  lemma {:induction false} BarredNotCounted(sys: System, steps: seq<Step>, threshold: real, w: string)
    requires SysInv(sys, threshold) && threshold > SCORE_EPSILON && Barred(sys, w)
    requires forall step | step in steps :: ResolvableStep(step) && Keeping(step, w)
    ensures SysInv(Run(sys, steps, threshold), threshold) && StaysBarred(sys, Run(sys, steps, threshold), w)
  {
    hide SysInv, Barred, Next, AddedAt;
    if steps != [] {
      var n := |steps| - 1;
      BarredNotCounted(sys, steps[..n], threshold, w);
      var mid := Run(sys, steps[..n], threshold);
      StepKeeps(mid, threshold, steps[n]);
      StepStaysBarred(mid, threshold, steps[n], w);
    }
  }

  // -------------------------------------------------------- the way to be counted

  /** A window that left can be handed in again: no row, no receipt, and its request id is free. */
  ghost predicate CanReturn(sys: System, w: string) {
    var id := SemanticIdentity(w, 0);
    && sys.phase.Idle? && w in sys.sealed && w !in sys.ledger.outbox && !HasReceipt(sys.ledger, w)
    && !RequestIdTaken(sys.ledger, id) && id !in sys.ledger.receipts
  }

  predicate ArchiveAnswers(sys: System, w: string) {
    var id := SemanticIdentity(w, 0);
    id in sys.archive && (sys.archive[id].window != w || sys.archive[id].consumedBy.Some?)
  }

  function FirstSteps(w: string): seq<Step> {
    [EnqueueWindow(w, "", 0), Begin(w), LookUpArchive]
  }

  /** Handing in, beginning and looking up leads to an answer that can be applied. */
  function ReturnSteps(sys: System, w: string): seq<Step> {
    if SemanticIdentity(w, 0) in sys.archive then FirstSteps(w) + [Respond("", 0, 0)]
    else FirstSteps(w) + [ArchiveAnalysis(0.0, 0), Respond("", 0, 0)]
  }

  function Returned(sys: System, w: string, stage: Stage): System {
    var id := SemanticIdentity(w, 0);
    sys.(ledger := sys.ledger.(outbox := sys.ledger.outbox[w := OutboxRow(id, 0, "", 0, 0, 0, false)]),
         phase := Analyzing(Queued(w, id, 0), stage),
         history := if w in sys.released then sys.history.(late := sys.history.late + {w}) else sys.history)
  }

  lemma ReturnBegins(sys: System, threshold: real, w: string)
    requires CanReturn(sys, w)
    ensures Run(sys, [EnqueueWindow(w, "", 0), Begin(w)], threshold) == Returned(sys, w, LookingUp)
  {
    hide SemanticIdentity;
    var one := [EnqueueWindow(w, "", 0)];
    var two := [EnqueueWindow(w, "", 0), Begin(w)];
    assert one[..0] == [] && two[..1] == one;
    var queued := Returned(sys, w, LookingUp).(phase := Idle);
    assert HandIn(sys, w, "", 0) == queued;
    SameReceipts(sys.ledger, queued.ledger, w);
    assert Run(sys, one, threshold) == queued;
    assert BeginStep(queued, w) == Returned(sys, w, LookingUp);
  }

  lemma FirstAnswerAccepted(l: State, threshold: real, w: string, r: Response)
    requires Inv(l, threshold) && threshold > SCORE_EPSILON && ValidResponse(r)
    requires w in l.outbox && l.outbox[w].requestId == r.requestId && r.requestId !in l.receipts && !HasReceipt(l, w)
    ensures var o := Apply(l, w, r, threshold, "", 0, true); o.Done? && o.value.accepted
  {
    hide Inv, Linked, ScoreOk, Materialize, Record, HasReceipt;
    LinkedIn(l, threshold);
    RecordKeeps(l, w, r, 0);
    MaterializeKeeps(Record(l, w, r, 0), threshold, "", 0);
  }

  lemma ReturnAnswered(r: System, threshold: real, w: string)
    requires Inv(r.ledger, threshold) && threshold > SCORE_EPSILON && r.phase.Analyzing? && r.phase.stage.Archived?
    requires ValidResponse(Answered(r.phase)) && r.phase.queued.window == w && r.phase.queued.semanticAttempt == 0
    requires w in r.ledger.outbox && r.ledger.outbox[w].requestId == r.phase.queued.requestId
    requires r.phase.queued.requestId !in r.ledger.receipts && !HasReceipt(r.ledger, w)
    ensures Added(Next(r, Respond("", 0, 0), threshold).history, w) == Added(r.history, w) + 1
  {
    hide Inv, Apply, HasReceipt;
    FirstAnswerAccepted(r.ledger, threshold, w, Answered(r.phase));
    CountAdds(r.history, r.phase.queued, r.phase.stage.score);
    hide Count, Added;
  }

  lemma ReturnedInv(sys: System, threshold: real, w: string)
    requires SysInv(sys, threshold) && threshold > SCORE_EPSILON && CanReturn(sys, w)
    ensures SysInv(Returned(sys, w, LookingUp), threshold)
  {
    hide SysInv, Next, CanReturn, Returned;
    ReturnBegins(sys, threshold, w);
    var one, two := [EnqueueWindow(w, "", 0)], [EnqueueWindow(w, "", 0), Begin(w)];
    assert one[..0] == [] && two[..1] == one;
    StepKeeps(sys, threshold, one[0]);
    assert Run(sys, one, threshold) == Next(sys, one[0], threshold);
    StepKeeps(Run(sys, one, threshold), threshold, two[1]);
    assert Run(sys, two, threshold) == Next(Run(sys, one, threshold), two[1], threshold);
  }

  /** Just before the answer is applied. */
  function Ready(sys: System, w: string): System {
    var id := SemanticIdentity(w, 0);
    if id in sys.archive then Returned(sys, w, Archived(sys.archive[id].score, sys.archive[id].size))
    else Returned(sys, w, Archived(0.0, 0)).(archive := sys.archive[id := Entry(w, 0.0, 0, None)])
  }

  function ReadySteps(sys: System, w: string): seq<Step> {
    if SemanticIdentity(w, 0) in sys.archive then FirstSteps(w) else FirstSteps(w) + [ArchiveAnalysis(0.0, 0)]
  }

  lemma ReturnLooks(sys: System, threshold: real, w: string)
    requires CanReturn(sys, w)
    ensures Run(sys, FirstSteps(w), threshold) == LookUpStep(Returned(sys, w, LookingUp), Queued(w,
            SemanticIdentity(w, 0), 0))
  {
    ReturnBegins(sys, threshold, w);
    var steps := FirstSteps(w);
    assert steps[..2] == [EnqueueWindow(w, "", 0), Begin(w)];
    hide SemanticIdentity, CanReturn, LookUpStep;
    RunLast(sys, steps, threshold);
    hide Run;
  }

  lemma ReturnReady(sys: System, threshold: real, w: string)
    requires CanReturn(sys, w) && !ArchiveAnswers(sys, w)
    ensures Run(sys, ReadySteps(sys, w), threshold) == Ready(sys, w)
  {
    ReturnLooks(sys, threshold, w);
    hide SemanticIdentity, CanReturn, Run, MarkTerminal;
    var id := SemanticIdentity(w, 0);
    if id !in sys.archive {
      var steps := ReadySteps(sys, w);
      assert steps[..3] == FirstSteps(w) && steps[3] == ArchiveAnalysis(0.0, 0);
      RunLast(sys, steps, threshold);
    }
  }

  /** Without an answer in the archive, a returning window is counted: in the worst case with a new analysis. */
  lemma ReturnCounted(sys: System, threshold: real, w: string)
    requires SysInv(sys, threshold) && threshold > SCORE_EPSILON && CanReturn(sys, w) && !ArchiveAnswers(sys, w)
    ensures forall step | step in ReturnSteps(sys, w) :: ResolvableStep(step) && Keeping(step, w)
    ensures Added(Run(sys, ReturnSteps(sys, w), threshold).history, w) == Added(sys.history, w) + 1
  {
    hide SysInv, SemanticIdentity, CanReturn, ArchiveAnswers, Ready, Run, Next, Added, Inv, HasReceipt;
    ReturnReady(sys, threshold, w);
    ReadyAnswers(sys, threshold, w);
    var steps := ReturnSteps(sys, w);
    assert steps[..|steps| - 1] == ReadySteps(sys, w) && steps[|steps| - 1] == Respond("", 0, 0);
    ReturnAnswered(Ready(sys, w), threshold, w);
    RunLast(sys, steps, threshold);
  }

  lemma ReadyAnswers(sys: System, threshold: real, w: string)
    requires SysInv(sys, threshold) && threshold > SCORE_EPSILON && CanReturn(sys, w)
    ensures var r := Ready(sys, w);
            && Inv(r.ledger, threshold) && r.phase.Analyzing? && r.phase.stage.Archived?
            && ValidResponse(Answered(r.phase)) && r.phase.queued == Queued(w, SemanticIdentity(w, 0), 0)
            && w in r.ledger.outbox && r.ledger.outbox[w].requestId == SemanticIdentity(w, 0)
            && SemanticIdentity(w, 0) !in r.ledger.receipts && !HasReceipt(r.ledger, w)
            && Added(r.history, w) == Added(sys.history, w)
  {
    hide SysInv, SemanticIdentity, Inv;
    ReturnedInv(sys, threshold, w);
    LedgerIn(Returned(sys, w, LookingUp), threshold);
    SameReceipts(sys.ledger, Ready(sys, w).ledger, w);
    if SemanticIdentity(w, 0) in sys.archive { ArchivedScore(sys, threshold, SemanticIdentity(w, 0)); }
  }

  lemma RunLast(sys: System, steps: seq<Step>, threshold: real)
    requires steps != []
    ensures Run(sys, steps, threshold)
            == Next(Run(sys, steps[..|steps| - 1], threshold), steps[|steps| - 1], threshold)
  {
    hide Next;
  }

  /** Some run that keeps the entry of the first attempt counts the window once more. */
  ghost predicate CanBeCounted(sys: System, threshold: real, w: string) {
    exists steps: seq<Step> ::
      && (forall step | step in steps :: ResolvableStep(step) && Keeping(step, w))
      && Added(Run(sys, steps, threshold).history, w) > Added(sys.history, w)
  }

  /**
   A window that left the ledger can be counted again exactly when the archive does not answer for
   its first attempt: no entry under that request, or one that no run has consumed.
   */
  lemma CountedAgainIff(sys: System, threshold: real, w: string)
    requires SysInv(sys, threshold) && threshold > SCORE_EPSILON && CanReturn(sys, w)
    ensures CanBeCounted(sys, threshold, w) <==> !ArchiveAnswers(sys, w)
  {
    hide SysInv, Added, AddedAt, Run, SemanticIdentity;
    if ArchiveAnswers(sys, w) {
      assert Barred(sys, w);
      forall steps: seq<Step> | forall step | step in steps :: ResolvableStep(step) && Keeping(step, w)
        ensures Added(Run(sys, steps, threshold).history, w) == Added(sys.history, w)
      {
        BarredNotCounted(sys, steps, threshold, w);
        SameCountsAdded(sys.history, Run(sys, steps, threshold).history, w);
      }
    } else {
      ReturnCounted(sys, threshold, w);
    }
  }

  /** A window counted at its first attempt, with the entry kept, is answered for once its receipt is gone. */
  lemma CountedFirstIsAnswered(sys: System, threshold: real, w: string)
    requires FullInv(sys, threshold) && AddedAt(sys.history, w, 0) >= 1 && !HasReceipt(sys.ledger, w)
    requires SemanticIdentity(w, 0) !in sys.history.pruned
    ensures ArchiveAnswers(sys, w) && Barred(sys, w)
  {
    hide SysInv, SemanticIdentity;
    assert RequestOk(sys, w, 0);
    ReceiptHas(sys.ledger, w, SemanticIdentity(w, 0));
  }

  lemma AnswerCountsItsWindow(sys: System, threshold: real, step: Step, w: string)
    requires SysInv(sys, threshold) && HasReceipt(sys.ledger, w) && step.Respond?
    ensures SameCounts(sys.history, Next(sys, step, threshold).history, w)
  {
    hide SysInv, Apply, SemanticIdentity, HasReceipt, Defer, Count, AddedAt;
    if sys.phase.Analyzing? && sys.phase.stage.Archived? {
      QueuedOk(sys, threshold);
      CountAdds(sys.history, sys.phase.queued, sys.phase.stage.score);
    }
  }

  lemma EndedCountsNothing(sys: System, threshold: real, step: Step, w: string)
    requires step.RunEnded? || step.ReconcileJob?
    ensures SameCounts(sys.history, Next(sys, step, threshold).history, w)
  {
    hide Complete, StoredCompleted, StoredByItsRun, PendingSourceAcknowledgement, FailJob, DeferJob, Escapes;
  }

  lemma BusyCountsNothing(sys: System, threshold: real, step: Step, w: string)
    requires !IsCalm(step) && !step.RunEnded? && !step.ReconcileJob? && !step.Respond? && step != ClearData
    ensures SameCounts(sys.history, Next(sys, step, threshold).history, w)
  {
    hide MarkTerminal, AdvanceSemanticAttempt, Consumable;
  }

  /** Only the answer to a window without a receipt counts it. */
  lemma HeldNotCounted(sys: System, threshold: real, step: Step, w: string)
    requires SysInv(sys, threshold) && threshold > SCORE_EPSILON && HasReceipt(sys.ledger, w) && step != ClearData
    ensures SameCounts(sys.history, Next(sys, step, threshold).history, w)
  {
    hide SysInv, Next, CalmRows, CalmPhase, HasReceipt;
    if IsCalm(step) {
      CalmSteps(sys, threshold, step);
    } else if step.Respond? {
      AnswerCountsItsWindow(sys, threshold, step, w);
    } else if step.RunEnded? || step.ReconcileJob? {
      EndedCountsNothing(sys, threshold, step, w);
    } else {
      BusyCountsNothing(sys, threshold, step, w);
    }
  }

  /** What is kept from one step to the next once the first attempt has been counted. */
  lemma FirstCountedStep(sys: System, threshold: real, step: Step, w: string)
    requires FullInv(sys, threshold) && threshold > SCORE_EPSILON && Keeping(step, w) && ResolvableStep(step)
    requires AddedAt(sys.history, w, 0) >= 1 && SemanticIdentity(w, 0) !in sys.history.pruned
    ensures var next := Next(sys, step, threshold);
            SameCounts(sys.history, next.history, w) && SemanticIdentity(w, 0) !in next.history.pruned
  {
    PrunedOnly(sys, threshold, step, SemanticIdentity(w, 0));
    hide SysInv, ArchiveOk, Next, SemanticIdentity, AddedAt;
    if HasReceipt(sys.ledger, w) {
      HeldNotCounted(sys, threshold, step, w);
    } else {
      CountedFirstIsAnswered(sys, threshold, w);
      StepStaysBarred(sys, threshold, step, w);
    }
  }

  lemma PrunedOnly(sys: System, threshold: real, step: Step, id: string)
    requires step != PruneArchive(id) && id !in sys.history.pruned
    ensures id !in Next(sys, step, threshold).history.pruned
  {
    hide Complete, HasReceipt, MarkTerminal, AdvanceSemanticAttempt, Consumable, StoredCompleted, Materialize, Apply,
         PendingSourceAcknowledgement, FailJob, DeferJob, Claim, Defer, Enqueue, AcknowledgeApplied,
             AcknowledgeConsumed, AddedAt;
  }

  /** Once counted at its first attempt, a window is never counted again while that entry is kept. */
  lemma {:induction false} NeverAgainAfterFirst(sys: System, steps: seq<Step>, threshold: real, w: string)
    requires FullInv(sys, threshold) && threshold > SCORE_EPSILON
    requires forall step | step in steps :: ResolvableStep(step) && Keeping(step, w)
    requires AddedAt(sys.history, w, 0) >= 1 && SemanticIdentity(w, 0) !in sys.history.pruned
    ensures FullInv(Run(sys, steps, threshold), threshold)
    ensures var h := Run(sys, steps, threshold).history;
            SameCounts(sys.history, h, w) && SemanticIdentity(w, 0) !in h.pruned
  {
    hide FullInv, Next, AddedAt, SemanticIdentity;
    if steps != [] {
      var n := |steps| - 1;
      NeverAgainAfterFirst(sys, steps[..n], threshold, w);
      var mid := Run(sys, steps[..n], threshold);
      StepKeepsArchive(mid, threshold, steps[n]);
      FirstCountedStep(mid, threshold, steps[n], w);
    }
  }
}
