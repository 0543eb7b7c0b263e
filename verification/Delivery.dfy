/**
 The ledger in use: one delivery service at a time walks windows through archive,
 apply, source acknowledgement and local acknowledgement, while the dispatcher claims
 and finishes jobs between any two of its steps and either may crash anywhere.
 */
module Delivery {
  import opened Wrappers
  import opened Ledger
  import opened LedgerInvariant

  datatype Queued = Queued(window: string, requestId: string, semanticAttempt: nat)

  /** An archived first-stage analysis, and the run that consumed it. */
  datatype Entry = Entry(window: string, score: real, size: nat, consumedBy: Option<string>)

  /** How far the analysis of a window has got: its archive is looked up, asked for, or known. */
  datatype Stage = LookingUp | Asking | Archived(score: real, size: nat)

  /** Where the delivery service stands; every await of the source is a phase of its own. */
  datatype Phase =
    | Stopped
    | Listing(pending: set<string>)
    | Idle
    | Analyzing(queued: Queued, stage: Stage)
    | SourceAck(queued: Queued, consumed: bool)
    | LocalAck(queued: Queued, consumed: bool)

  /**
   What happened since the ledger was last cleared. `added` counts, by window and attempt,
   how often a score was added; `late` holds the windows handed in again after their source
   had released them. Two parts survive clearing: `escaped` tells that an invalid output
   reached a dispatcher that had not recorded the run, at the last attempt; `pruned` holds
   the request ids whose archive entry was removed.
   */
  datatype History = History(
    added: map<(string, nat), nat>, late: set<string>, accepted: real, consumed: real, escaped: bool,
    pruned: set<string>)

  datatype System = System(
    ledger: State, phase: Phase, sealed: set<string>, released: set<string>,
    attempts: map<string, nat>, archive: map<string, Entry>, history: History)

  const NO_HISTORY := History(map[], {}, 0.0, 0.0, false, {})
  const FRESH := System(EMPTY, Stopped, {}, {}, map[], map[], NO_HISTORY)

  datatype FailureClass = Transient | InvalidOutput | TerminalFailure

  datatype Reconciliation =
    | NoIdentity | CompletedVerified | CompletedUnverified | StillActive | InvalidOutputFound | Retryable | Invalid

  datatype Step =
    | Seal(w: string)
    | Start
    | EnqueueListed(w: string, payload: string, now: nat)
    | Activate(job: string, now: nat)
    | EnqueueWindow(w: string, payload: string, now: nat)
    | Begin(w: string)
    | LookUpArchive
    | ArchiveAnalysis(score: real, size: nat)
    | Respond(job: string, now: nat, nextAt: nat)
    | ReportInvalidOutput(nextAt: nat)
    | Fail(nextAt: nat)
    | FailPermanently
    | ReleaseSource
    | AcknowledgeLocally(nextAt: nat)
    | AbandonDelivery
    | Crash
    | ClaimJob(job: string, run: string, now: nat)
    | ClaimIneligible(job: string, run: string, now: nat)
    | StartFailed(job: string, run: string, nextAt: nat)
    | RunEnded(job: string, run: string, completed: bool, failure: FailureClass, nextAt: nat, nextJob: string, now: nat)
    | ReconcileJob(job: string, found: Reconciliation, nextAt: nat, nextJob: string, now: nat)
    | NewDispatcher
    | FinishRun(job: string, run: string)
    | PruneArchive(requestId: string)
    | ClearData

  function After<T>(o: Outcome<T>, s: State): State {
    match o
    case Done(s', _) => s'
    case Failed(_) => s
  }

  /** How often the score of this attempt's request was added. */
  function AddedAt(h: History, w: string, attempt: nat): nat {
    if (w, attempt) in h.added then h.added[(w, attempt)] else 0
  }

  function Added(h: History, w: string): nat {
    AddedAt(h, w, 0) + AddedAt(h, w, 1) + AddedAt(h, w, 2)
  }

  function Count(h: History, q: Queued, score: real): History {
    h.(added := h.added[(q.window, q.semanticAttempt) := AddedAt(h, q.window, q.semanticAttempt) + 1],
       accepted := h.accepted + score)
  }

  function HandIn(sys: System, w: string, payload: string, now: nat): System {
    match Enqueue(sys.ledger, w, payload, now)
    case Failed(_) => sys
    case Done(l, inserted) =>
      sys.(ledger := l,
           history := if inserted && w in sys.released
                      then sys.history.(late := sys.history.late + {w}) else sys.history)
  }

  /** Ends a delivery attempt the way its catch block does: with the row deferred, if it still exists. */
  function GiveUp(sys: System, w: string, nextAt: nat): System {
    sys.(ledger := After(Defer(sys.ledger, w, nextAt), sys.ledger), phase := Idle)
  }

  function Answer(sys: System, q: Queued, r: Response, job: string, now: nat, nextAt: nat, threshold: real): System {
    match Apply(sys.ledger, q.window, r, threshold, job, now, true)
    case Failed(_) => GiveUp(sys, q.window, nextAt)
    case Done(l, applied) =>
      sys.(ledger := l, phase := SourceAck(q, false),
           history := if applied.accepted then Count(sys.history, q, r.score) else sys.history)
  }

  /**
   What the archive holds for the request decides: nothing, and the model is asked; an analysis
   not yet consumed, and it is used; a consumed one, and the window is only acknowledged; one of
   another window, and the row is given up for good.
   */
  function LookUpStep(sys: System, q: Queued): System {
    if q.requestId !in sys.archive then sys.(phase := Analyzing(q, Asking))
    else
      var e := sys.archive[q.requestId];
      if e.window != q.window then
        sys.(ledger := After(MarkTerminal(sys.ledger, q.window), sys.ledger), phase := Idle)
      else if e.consumedBy.Some? then sys.(phase := SourceAck(q, true))
      else sys.(phase := Analyzing(q, Archived(e.score, e.size)))
  }

  function ArchiveStep(sys: System, q: Queued, score: real, size: nat): System {
    if q.requestId in sys.archive || !ValidResponse(Response(q.requestId, score, size)) then sys
    else sys.(archive := sys.archive[q.requestId := Entry(q.window, score, size, None)],
              phase := Analyzing(q, Archived(score, size)))
  }

  function BeginStep(sys: System, w: string): System {
    if w in sys.ledger.outbox && !sys.ledger.outbox[w].terminal then
      var row := sys.ledger.outbox[w];
      var q := Queued(w, row.requestId, row.semanticAttempt);
      sys.(phase := if HasReceipt(sys.ledger, w) then SourceAck(q, false) else Analyzing(q, LookingUp))
    else sys
  }

  function InvalidOutputStep(sys: System, q: Queued, nextAt: nat): System {
    var o := AdvanceSemanticAttempt(sys.ledger, q.window, q.requestId, nextAt, NextRequest(q.window,
        q.semanticAttempt));
    sys.(ledger := After(o, sys.ledger), phase := Idle)
  }

  function ClearStep(sys: System): System {
    sys.(ledger := After(Clear(sys.ledger), sys.ledger),
         history := NO_HISTORY.(escaped := sys.history.escaped, pruned := sys.history.pruned))
  }

  function LocalStep(sys: System, q: Queued, consumed: bool, nextAt: nat): System {
    var o := if consumed then AcknowledgeConsumed(sys.ledger, q.window, q.requestId)
             else AcknowledgeApplied(sys.ledger, q.window, q.requestId);
    match o
    case Failed(_) => GiveUp(sys, q.window, nextAt)
    case Done(l, _) => sys.(ledger := l, phase := Idle)
  }

  // --------------------------------------------------------------- dispatcher

  /** The job `nextActivityAnalysisJob` offers: none while a source acknowledgement is pending. */
  predicate Offered(l: State, job: string) {
    !PendingSourceAcknowledgement(l) && job in l.jobs && Active(l.jobs[job])
  }

  function CompleteStep(sys: System, job: string, run: string, threshold: real, nextJob: string, now: nat): System {
    match Complete(sys.ledger, job, run, threshold, nextJob, now)
    case Failed(_) => sys
    case Done(l, _) =>
      if job in sys.ledger.jobs then
        sys.(ledger := l, history := sys.history.(consumed := sys.history.consumed + sys.ledger.jobs[job].consumed))
      else sys
  }

  /** A run's analyses may be consumed by this run only. */
  predicate Consumable(archive: map<string, Entry>, analyses: seq<string>, run: string) {
    forall r | r in analyses :: r in archive && (archive[r].consumedBy.None? || archive[r].consumedBy == Some(run))
  }

  /** Storing a completed run marks all its analyses consumed, in one transaction of the archive. */
  function FinishStep(sys: System, job: string, run: string): System {
    if job in sys.ledger.jobs && Consumable(sys.archive, sys.ledger.jobs[job].analyses, run) then
      var analyses := sys.ledger.jobs[job].analyses;
      sys.(archive := map r | r in sys.archive ::
                        if r in analyses then sys.archive[r].(consumedBy := Some(run)) else sys.archive[r])
    else sys
  }

  /** A run is reported completed only once its analyses are stored as consumed by it. */
  predicate StoredCompleted(sys: System, job: string, run: string) {
    RunningAs(sys.ledger, job, Some(run)) ==>
      forall r | r in sys.ledger.jobs[job].analyses ::
        r in sys.history.pruned || (r in sys.archive && sys.archive[r].consumedBy == Some(run))
  }

  function RecordedAttempt(attempts: map<string, nat>, run: string): nat {
    if run in attempts then attempts[run] else 0
  }

  predicate Escapes(sys: System, job: string, run: string) {
    RunningAs(sys.ledger, job, Some(run)) && sys.ledger.jobs[job].attempt >= 2 && run !in sys.attempts
  }

  function RunEndedStep(sys: System, job: string, run: string, completed: bool, failure: FailureClass,
                        nextAt: nat, nextJob: string, now: nat, threshold: real): System
  {
    var l := sys.ledger;
    var sys' := sys.(attempts := sys.attempts - {run});
    if completed then CompleteStep(sys', job, run, threshold, nextJob, now)
    else if failure == InvalidOutput && RecordedAttempt(sys.attempts, run) >= 2 then
      sys'.(ledger := After(FailJob(l, job, Some(run)), l))
    else if failure == TerminalFailure then sys'.(ledger := After(FailJob(l, job, Some(run)), l))
    else
      sys'.(ledger := After(DeferJob(l, job, run, nextAt, failure == InvalidOutput), l),
            history := if failure == InvalidOutput && Escapes(sys, job, run)
                       then sys.history.(escaped := true) else sys.history)
  }

  /**
   The settling of a job that was found running. The source looks the run up over two awaits before it
   settles, so this may happen at any later moment: what counts is that the job still runs.
   */
  function ReconcileStep(sys: System, job: string, found: Reconciliation, nextAt: nat, nextJob: string, now: nat,
                         threshold: real): System
  {
    var l := sys.ledger;
    if job !in l.jobs || l.jobs[job].status != Running then sys
    else
      var run := l.jobs[job].runId;
      if run.Some? && run.value in sys.attempts then sys
      else if run.None? || found == NoIdentity then sys.(ledger := After(FailJob(l, job, run), l))
      else
        match found
        case CompletedVerified => CompleteStep(sys, job, run.value, threshold, nextJob, now)
        case StillActive => sys
        case InvalidOutputFound =>
          if l.jobs[job].attempt >= 2 then sys.(ledger := After(FailJob(l, job, run), l))
          else sys.(ledger := After(DeferJob(l, job, run.value, nextAt, true), l))
        case Retryable => sys.(ledger := After(DeferJob(l, job, run.value, nextAt, false), l))
        case _ => sys.(ledger := After(FailJob(l, job, run), l))
  }

  function ClaimStep(sys: System, job: string, run: string, now: nat, eligible: bool): System {
    if !Offered(sys.ledger, job) then sys
    else
      match Claim(sys.ledger, job, run, now)
      case Failed(_) => sys
      case Done(l, claimed) =>
        if eligible then sys.(ledger := l, attempts := sys.attempts[run := claimed.attempt])
        else sys.(ledger := After(DeferJob(l, job, run, now, false), l))
  }

  // ---------------------------------------------------------------------- runs

  predicate StoredByItsRun(sys: System, job: string) {
    job in sys.ledger.jobs && sys.ledger.jobs[job].runId.Some?
    && StoredCompleted(sys, job, sys.ledger.jobs[job].runId.value)
  }

  /** The response applied is the archived one, answering the queued request. */
  function Answered(phase: Phase): Response
    requires phase.Analyzing? && phase.stage.Archived?
  {
    Response(phase.queued.requestId, phase.stage.score, phase.stage.size)
  }

  /** A step that is not enabled leaves the system as it is. */
  function Next(sys: System, step: Step, threshold: real): System {
    match step
    case Seal(w) => sys.(sealed := sys.sealed + {w})
    case Start => if sys.phase.Stopped? then sys.(phase := Listing(sys.sealed - sys.released)) else sys
    case EnqueueListed(w, payload, now) =>
      if sys.phase.Listing? && w in sys.phase.pending
      then HandIn(sys, w, payload, now).(phase := Listing(sys.phase.pending - {w})) else sys
    case Activate(job, now) =>
      if sys.phase == Listing({})
      then sys.(ledger := After(Materialize(sys.ledger, threshold, job, now), sys.ledger), phase := Idle) else sys
    case EnqueueWindow(w, payload, now) =>
      if sys.phase.Idle? && w in sys.sealed then HandIn(sys, w, payload, now) else sys
    case Begin(w) => if sys.phase.Idle? then BeginStep(sys, w) else sys
    case LookUpArchive =>
      if sys.phase.Analyzing? && sys.phase.stage.LookingUp? then LookUpStep(sys, sys.phase.queued) else sys
    case ArchiveAnalysis(score, size) =>
      if sys.phase.Analyzing? && sys.phase.stage.Asking? then ArchiveStep(sys, sys.phase.queued, score, size) else sys
    case Respond(job, now, nextAt) =>
      if sys.phase.Analyzing? && sys.phase.stage.Archived? then
        Answer(sys, sys.phase.queued, Answered(sys.phase), job, now, nextAt, threshold)
      else sys
    case ReportInvalidOutput(nextAt) =>
      if sys.phase.Analyzing? && sys.phase.stage.Asking? then InvalidOutputStep(sys, sys.phase.queued, nextAt) else sys
    case Fail(nextAt) =>
      if sys.phase.Analyzing? || sys.phase.SourceAck? || sys.phase.LocalAck?
      then GiveUp(sys, sys.phase.queued.window, nextAt) else sys
    case FailPermanently =>
      if sys.phase.Analyzing?
      then sys.(ledger := After(MarkTerminal(sys.ledger, sys.phase.queued.window), sys.ledger), phase := Idle) else sys
    case ReleaseSource =>
      if sys.phase.SourceAck?
      then sys.(released := sys.released + {sys.phase.queued.window},
                phase := LocalAck(sys.phase.queued, sys.phase.consumed)) else sys
    case AcknowledgeLocally(nextAt) =>
      if sys.phase.LocalAck? then LocalStep(sys, sys.phase.queued, sys.phase.consumed, nextAt) else sys
    case AbandonDelivery => if sys.phase.Stopped? || sys.phase.Listing? then sys else sys.(phase := Idle)
    case Crash => sys.(phase := Stopped, attempts := map[])
    case ClaimJob(job, run, now) => ClaimStep(sys, job, run, now, true)
    case ClaimIneligible(job, run, now) => ClaimStep(sys, job, run, now, false)
    case StartFailed(job, run, nextAt) =>
      sys.(attempts := sys.attempts - {run}, ledger := After(DeferJob(sys.ledger, job, run, nextAt, false), sys.ledger))
    case RunEnded(job, run, completed, failure, nextAt, nextJob, now) =>
      if completed && !StoredCompleted(sys, job, run) then sys
      else RunEndedStep(sys, job, run, completed, failure, nextAt, nextJob, now, threshold)
    case ReconcileJob(job, found, nextAt, nextJob, now) =>
      if found == CompletedVerified && !StoredByItsRun(sys, job) then sys
      else ReconcileStep(sys, job, found, nextAt, nextJob, now, threshold)
    case NewDispatcher => sys.(attempts := map[])
    case FinishRun(job, run) => FinishStep(sys, job, run)
    case PruneArchive(id) =>
      sys.(archive := sys.archive - {id}, history := sys.history.(pruned := sys.history.pruned + {id}))
    case ClearData => ClearStep(sys)
  }

  function Run(sys: System, steps: seq<Step>, threshold: real): System {
    if steps == [] then sys
    else Next(Run(sys, steps[..|steps| - 1], threshold), steps[|steps| - 1], threshold)
  }

  // ---------------------------------------------------------------- invariants

  /** A receipt beside its outbox row answers that row's request. */
  ghost predicate SameRequest(l: State) {
    forall id | id in l.receipts && l.receipts[id].window in l.outbox ::
      l.outbox[l.receipts[id].window].requestId == id
  }

  /** The receipts a running job will delete have no outbox row left. */
  ghost predicate RunningSettled(l: State) {
    forall j, r | j in l.jobs && l.jobs[j].status == Running && r in l.assignments && l.assignments[r] == j ::
      r in l.receipts && l.receipts[r].window !in l.outbox
  }

  /** A receipt without an outbox row belongs to a window the source has released. */
  ghost predicate ReleasedOk(l: State, released: set<string>) {
    forall id | id in l.receipts :: l.receipts[id].window in l.outbox || l.receipts[id].window in released
  }

  /** How often a window's score was added, unless it was handed in again after its release. */
  ghost predicate CountedOk(l: State, released: set<string>, h: History) {
    forall w | w !in h.late ::
      && Added(h, w) <= 1
      && (HasReceipt(l, w) ==> Added(h, w) == 1)
      && (!HasReceipt(l, w) && (w in l.outbox || w !in released) ==> Added(h, w) == 0)
  }

  ghost predicate PhaseOk(l: State, phase: Phase, released: set<string>) {
    match phase
    case Analyzing(q, stage) =>
      && !HasReceipt(l, q.window)
      && q.semanticAttempt < MAXIMUM_SEMANTIC_ATTEMPTS
      && q.requestId == SemanticIdentity(q.window, q.semanticAttempt)
      && (stage.Archived? ==> ResolvableScore(stage.score))
      && (q.window in l.outbox ==> l.outbox[q.window].requestId == q.requestId
                                   && l.outbox[q.window].semanticAttempt == q.semanticAttempt)
    case LocalAck(q, _) => q.window in released
    case _ => true
  }

  /** The dispatcher's memory of a run agrees with the running job. */
  ghost predicate RecordedOk(l: State, attempts: map<string, nat>) {
    forall j, run | j in l.jobs && l.jobs[j].status == Running && l.jobs[j].runId == Some(run) && run in attempts ::
      attempts[run] == l.jobs[j].attempt
  }

  ghost predicate CapOk(l: State, h: History) {
    !h.escaped ==> forall j | j in l.jobs :: l.jobs[j].attempt <= 2
  }

  predicate ValidEntry(e: Entry) {
    ResolvableScore(e.score) && e.size <= MAXIMUM_RESULT_CHARACTERS
  }

  ghost predicate SysInv(sys: System, threshold: real) {
    && Inv(sys.ledger, threshold)
    && ResolvableScores(sys.ledger.receipts)
    && SameRequest(sys.ledger)
    && RunningSettled(sys.ledger)
    && ReleasedOk(sys.ledger, sys.released)
    && CountedOk(sys.ledger, sys.released, sys.history)
    && PhaseOk(sys.ledger, sys.phase, sys.released)
    && RecordedOk(sys.ledger, sys.attempts)
    && CapOk(sys.ledger, sys.history)
    && (forall r | r in sys.archive :: ValidEntry(sys.archive[r]))
    && sys.history.accepted == sys.ledger.score + sys.history.consumed
  }

  /** Every response scores 0 or more than the epsilon. */
  ghost predicate ResolvableStep(step: Step) {
    step.ArchiveAnalysis? ==> ResolvableScore(step.score)
  }

  // ----------------------------------------------------------- delivery steps

  lemma HandInKeeps(sys: System, threshold: real, w: string, payload: string, now: nat)
    requires SysInv(sys, threshold) && (sys.phase.Idle? || sys.phase.Listing?)
    ensures SysInv(HandIn(sys, w, payload, now), threshold)
  {
    hide Inv, Enqueue;
    EnqueueKeeps(sys.ledger, threshold, w, payload, now);
    var o := Enqueue(sys.ledger, w, payload, now);
    if o.Done? && o.value {
      var l := o.state;
      assert forall v :: HasReceipt(l, v) <==> HasReceipt(sys.ledger, v);
      forall id | id in l.receipts && l.receipts[id].window in l.outbox
        ensures l.outbox[l.receipts[id].window].requestId == id
      {
        assert HasReceipt(sys.ledger, l.receipts[id].window);
      }
      forall j, r | j in l.jobs && l.jobs[j].status == Running && r in l.assignments && l.assignments[r] == j
        ensures r in l.receipts && l.receipts[r].window !in l.outbox
      {
        assert HasReceipt(sys.ledger, l.receipts[r].window);
      }
    }
  }

  /** Steps that touch outbox rows but neither their keys nor their request ids. */
  lemma RowStepKeeps(sys: System, threshold: real, l: State)
    requires SysInv(sys, threshold) && Inv(l, threshold)
    requires l == sys.ledger.(outbox := l.outbox) && l.outbox.Keys == sys.ledger.outbox.Keys
    requires forall w | w in l.outbox :: l.outbox[w].requestId == sys.ledger.outbox[w].requestId
    ensures SysInv(sys.(ledger := l, phase := Idle), threshold)
  {
    hide Inv;
    assert forall v :: HasReceipt(l, v) <==> HasReceipt(sys.ledger, v);
  }

  lemma GiveUpKeeps(sys: System, threshold: real, w: string, nextAt: nat)
    requires SysInv(sys, threshold)
    ensures SysInv(GiveUp(sys, w, nextAt), threshold)
  {
    hide Inv;
    DeferKeeps(sys.ledger, threshold, w, nextAt);
    RowStepKeeps(sys, threshold, After(Defer(sys.ledger, w, nextAt), sys.ledger));
  }

  lemma FailPermanentlyKeeps(sys: System, threshold: real, w: string)
    requires SysInv(sys, threshold)
    ensures SysInv(sys.(ledger := After(MarkTerminal(sys.ledger, w), sys.ledger), phase := Idle), threshold)
  {
    hide Inv;
    MarkTerminalKeeps(sys.ledger, threshold, w);
    RowStepKeeps(sys, threshold, After(MarkTerminal(sys.ledger, w), sys.ledger));
  }

  lemma InvalidOutputKeeps(sys: System, threshold: real, nextAt: nat)
    requires SysInv(sys, threshold) && sys.phase.Analyzing?
    ensures SysInv(InvalidOutputStep(sys, sys.phase.queued, nextAt), threshold)
  {
    hide Inv;
    var q, l := sys.phase.queued, sys.ledger;
    var o := AdvanceSemanticAttempt(l, q.window, q.requestId, nextAt, NextRequest(q.window, q.semanticAttempt));
    if q.window in l.outbox && o.Done? {
      AdvanceKeeps(l, threshold, q.window, q.semanticAttempt, nextAt);
      OnlyRowChanges(l, q, nextAt);
      hide AdvanceSemanticAttempt;
      UnansweredRowKeeps(sys, threshold, o.state);
    }
  }

  lemma OnlyRowChanges(l: State, q: Queued, nextAt: nat)
    ensures var o := AdvanceSemanticAttempt(l, q.window, q.requestId, nextAt, NextRequest(q.window, q.semanticAttempt));
            o.Done? ==>
              && o.state == l.(outbox := o.state.outbox) && o.state.outbox.Keys == l.outbox.Keys
              && forall v | v in l.outbox && v != q.window :: o.state.outbox[v] == l.outbox[v]
  {
    hide SemanticIdentity, RequestIdTaken;
  }

  /** The row of a window without a receipt may change its request id. */
  lemma UnansweredRowKeeps(sys: System, threshold: real, t: State)
    requires SysInv(sys, threshold) && sys.phase.Analyzing? && Inv(t, threshold)
    requires t == sys.ledger.(outbox := t.outbox) && t.outbox.Keys == sys.ledger.outbox.Keys
    requires forall v | v in t.outbox && v != sys.phase.queued.window :: t.outbox[v] == sys.ledger.outbox[v]
    ensures SysInv(sys.(ledger := t, phase := Idle), threshold)
  {
    SameKeysKeep(sys.ledger, t, sys.released, sys.history);
    SameAnswers(sys.ledger, t, sys.phase.queued.window);
    hide Inv, SemanticIdentity, SameRequest, RunningSettled, ReleasedOk, CountedOk;
  }

  /** Only keys of the outbox matter for what is settled, released and counted. */
  lemma SameKeysKeep(l: State, t: State, released: set<string>, h: History)
    requires t == l.(outbox := t.outbox) && t.outbox.Keys == l.outbox.Keys
    ensures RunningSettled(l) ==> RunningSettled(t)
    ensures ReleasedOk(l, released) ==> ReleasedOk(t, released)
    ensures CountedOk(l, released, h) ==> CountedOk(t, released, h)
  {
    hide Added;
    assert forall v :: v in t.outbox <==> v in l.outbox;
    assert forall v :: HasReceipt(t, v) <==> HasReceipt(l, v);
  }

  lemma SameAnswers(l: State, t: State, w: string)
    requires t == l.(outbox := t.outbox) && t.outbox.Keys == l.outbox.Keys && SameRequest(l) && !HasReceipt(l, w)
    requires forall v | v in t.outbox && v != w :: t.outbox[v] == l.outbox[v]
    ensures SameRequest(t)
  {
    assert forall id | id in t.receipts :: HasReceipt(l, t.receipts[id].window);
  }

  lemma AnswerKeeps(sys: System, threshold: real, job: string, now: nat, nextAt: nat)
    requires SysInv(sys, threshold) && threshold > SCORE_EPSILON && sys.phase.Analyzing? && sys.phase.stage.Archived?
    ensures SysInv(Answer(sys, sys.phase.queued, Answered(sys.phase), job, now, nextAt, threshold), threshold)
  {
    hide Inv, Apply, Materialize;
    var q, l, r := sys.phase.queued, sys.ledger, Answered(sys.phase);
    GiveUpKeeps(sys, threshold, q.window, nextAt);
    ApplyKeeps(l, threshold, q.window, r, job, now, true);
    var o := Apply(l, q.window, r, threshold, job, now, true);
    if o.Done? && o.value.accepted {
      AcceptedKeeps(sys, threshold, r, o.state, now);
    }
  }

  /** The tables after an accepted response. */
  ghost predicate Accepted(l: State, t: State, w: string, r: Response, now: nat) {
    && !HasReceipt(l, w) && w in l.outbox && l.outbox[w].requestId == r.requestId && r.requestId !in l.receipts
    && t.outbox == l.outbox
    && t.receipts == l.receipts[r.requestId := Receipt(w, r.score, r.size, now)]
    && t.score == l.score + r.score
    && (l.jobs != map[] ==> t.jobs == l.jobs && t.assignments == l.assignments)
    && (l.jobs == map[] ==> forall j | j in t.jobs :: NewlyMade(t.jobs[j]))
  }

  lemma AcceptedKeeps(sys: System, threshold: real, r: Response, t: State, now: nat)
    requires SysInv(sys, threshold) && sys.phase.Analyzing? && ResolvableScore(r.score)
    requires Inv(t, threshold) && Accepted(sys.ledger, t, sys.phase.queued.window, r, now)
    ensures SysInv(sys.(ledger := t, phase := SourceAck(sys.phase.queued, false),
                        history := Count(sys.history, sys.phase.queued, r.score)), threshold)
  {
    hide Inv, SemanticIdentity, ResolvableScore;
    CountAdds(sys.history, sys.phase.queued, r.score);
    hide Count, Added;
    var w, l := sys.phase.queued.window, sys.ledger;
    assert HasReceipt(t, w) by { assert t.receipts[r.requestId].window == w; }
    forall v | v != w ensures HasReceipt(t, v) <==> HasReceipt(l, v) {
      if HasReceipt(l, v) {
        var id :| id in l.receipts && l.receipts[id].window == v;
        assert id != r.requestId ==> t.receipts[id].window == v;
      }
    }
  }

  /** One more count for the queued window, none for any other. */
  lemma CountAdds(h: History, q: Queued, score: real)
    requires q.semanticAttempt < MAXIMUM_SEMANTIC_ATTEMPTS
    ensures var h' := Count(h, q, score);
            && h' == h.(added := h'.added, accepted := h.accepted + score)
            && (forall v :: Added(h', v) == Added(h, v) + if v == q.window then 1 else 0)
            && (forall v, a :: AddedAt(h', v, a) ==
                  AddedAt(h, v, a) + if v == q.window && a == q.semanticAttempt then 1 else 0)
  {
  }

  lemma BeginKeeps(sys: System, threshold: real, w: string)
    requires SysInv(sys, threshold) && sys.phase.Idle?
    ensures SysInv(BeginStep(sys, w), threshold)
  {
    OutboxIn(sys.ledger, threshold);
    hide Inv, OutboxOk, SemanticIdentity;
    if w in sys.ledger.outbox { RowIdentity(sys.ledger.outbox, w); }
  }

  lemma OutboxIn(l: State, threshold: real)
    requires Inv(l, threshold)
    ensures OutboxOk(l.outbox)
  {
    hide OutboxOk;
  }

  lemma RowLeavesKeeps(sys: System, threshold: real, w: string)
    requires SysInv(sys, threshold) && w in sys.released && Inv(WithoutOutbox(sys.ledger, w), threshold)
    ensures SysInv(sys.(ledger := WithoutOutbox(sys.ledger, w), phase := Idle), threshold)
  {
    hide Inv;
    var t := WithoutOutbox(sys.ledger, w);
    assert forall v :: HasReceipt(t, v) <==> HasReceipt(sys.ledger, v);
  }

  lemma LocalStepKeeps(sys: System, threshold: real, nextAt: nat)
    requires SysInv(sys, threshold) && sys.phase.LocalAck?
    ensures SysInv(LocalStep(sys, sys.phase.queued, sys.phase.consumed, nextAt), threshold)
  {
    hide Inv, AcknowledgeApplied, AcknowledgeConsumed, HasReceipt, CountedOk, SameRequest, RunningSettled, ReleasedOk;
    var q, l := sys.phase.queued, sys.ledger;
    GiveUpKeeps(sys, threshold, q.window, nextAt);
    AcknowledgeAppliedKeeps(l, threshold, q.window, q.requestId);
    AcknowledgeConsumedKeeps(l, threshold, q.window, q.requestId);
    if Inv(WithoutOutbox(l, q.window), threshold) {
      RowLeavesKeeps(sys, threshold, q.window);
    }
  }

  // ---------------------------------------------------------- dispatcher steps

  /** While a job is offered, no receipt has an outbox row. */
  lemma OfferedSettled(l: State, job: string)
    requires SameRequest(l) && Offered(l, job)
    ensures forall id | id in l.receipts :: l.receipts[id].window !in l.outbox
  {
    assert forall w | w in l.outbox && l.outbox[w].requestId in l.receipts ::
        l.receipts[l.outbox[w].requestId].window != w;
  }

  /** Steps that change the progress of jobs and nothing else. */
  lemma JobsStepKeeps(sys: System, threshold: real, l: State, attempts: map<string, nat>)
    requires SysInv(sys, threshold) && Inv(l, threshold)
    requires l == sys.ledger.(jobs := l.jobs)
    requires RunningSettled(l) && RecordedOk(l, attempts) && CapOk(l, sys.history)
    ensures SysInv(sys.(ledger := l, attempts := attempts), threshold)
  {
    hide Inv;
    assert forall v :: HasReceipt(l, v) <==> HasReceipt(sys.ledger, v);
  }

  lemma ClaimStepKeeps(sys: System, threshold: real, job: string, run: string, now: nat, eligible: bool)
    requires SysInv(sys, threshold)
    ensures SysInv(ClaimStep(sys, job, run, now, eligible), threshold)
  {
    hide Inv, Claim, DeferJob;
    if Offered(sys.ledger, job) {
      OfferedSettled(sys.ledger, job);
      ClaimKeeps(sys.ledger, threshold, job, run, now);
      AssignmentsStored(sys.ledger, threshold);
      var o := Claim(sys.ledger, job, run, now);
      if o.Done? {
        if eligible {
          JobsStepKeeps(sys, threshold, o.state, sys.attempts[run := o.value.attempt]);
        } else {
          DeferJobKeeps(o.state, threshold, job, run, now, false);
          DeferJobSucceeds(o.state, job, run, now, false);
          JobsStepKeeps(sys, threshold, DeferJob(o.state, job, run, now, false).state, sys.attempts);
        }
      }
    }
  }

  lemma DeferJobSucceeds(l: State, job: string, run: string, next: nat, advance: bool)
    requires RunningAs(l, job, Some(run))
    ensures DeferJob(l, job, run, next, advance).Done?
  {
  }

  lemma AssignmentsStored(l: State, threshold: real)
    requires Inv(l, threshold)
    ensures forall r | r in l.assignments :: r in l.receipts
    ensures forall a, b | a in l.jobs && b in l.jobs :: a == b
  {
  }

  /** Deferring a running job by one attempt stays within the cap below the last attempt. */
  lemma DeferStepKeeps(sys: System, threshold: real, job: string, run: string, nextAt: nat, advance: bool,
                       attempts: map<string, nat>)
    requires SysInv(sys, threshold)
    requires forall r | r in attempts :: r in sys.attempts && attempts[r] == sys.attempts[r]
    requires advance && RunningAs(sys.ledger, job, Some(run)) && sys.ledger.jobs[job].attempt >= 2
            ==> sys.history.escaped
    ensures SysInv(sys.(ledger := After(DeferJob(sys.ledger, job, run, nextAt, advance), sys.ledger),
                        attempts := attempts), threshold)
  {
    hide Inv;
    var l := sys.ledger;
    DeferJobKeeps(l, threshold, job, run, nextAt, advance);
    var o := DeferJob(l, job, run, nextAt, advance);
    if o.Done? {
      assert RunningAs(l, job, Some(run));
      hide DeferJob;
      JobsStepKeeps(sys, threshold, o.state, attempts);
    } else {
      JobsStepKeeps(sys, threshold, l, attempts);
    }
  }

  lemma FailStepKeeps(sys: System, threshold: real, job: string, run: Option<string>, attempts: map<string, nat>)
    requires SysInv(sys, threshold)
    requires forall r | r in attempts :: r in sys.attempts && attempts[r] == sys.attempts[r]
    ensures SysInv(sys.(ledger := After(FailJob(sys.ledger, job, run), sys.ledger), attempts := attempts), threshold)
  {
    hide Inv, FailJob;
    FailJobKeeps(sys.ledger, threshold, job, run);
    JobsStepKeeps(sys, threshold, After(FailJob(sys.ledger, job, run), sys.ledger), attempts);
  }

  /** Completing a job deletes only receipts of windows that have left the outbox. */
  lemma CompletionSafe(sys: System, threshold: real, job: string, run: string, nextJob: string, now: nat)
    requires SysInv(sys, threshold) && threshold > SCORE_EPSILON
    ensures var o := Complete(sys.ledger, job, run, threshold, nextJob, now);
            o.Done? ==> forall id | id in sys.ledger.receipts && id !in o.state.receipts ::
                          sys.ledger.receipts[id].window !in sys.ledger.outbox
                          && sys.ledger.receipts[id].window in sys.released
  {
    hide Inv, Complete;
    CompleteKeeps(sys.ledger, threshold, job, run, nextJob, now);
  }

  lemma CompleteStepKeeps(sys: System, threshold: real, job: string, run: string, nextJob: string, now: nat)
    requires SysInv(sys, threshold) && threshold > SCORE_EPSILON
    ensures SysInv(CompleteStep(sys, job, run, threshold, nextJob, now), threshold)
  {
    hide Inv, Complete, SemanticIdentity, ResolvableScore;
    var l := sys.ledger;
    CompleteKeeps(l, threshold, job, run, nextJob, now);
    CompletionSafe(sys, threshold, job, run, nextJob, now);
    var o := Complete(l, job, run, threshold, nextJob, now);
    if o.Done? {
      var t := o.state;
      assert forall id | id in t.receipts :: id in l.receipts && t.receipts[id] == l.receipts[id];
      forall v | HasReceipt(t, v) ensures HasReceipt(l, v) {
        var id :| id in t.receipts && t.receipts[id].window == v;
        assert l.receipts[id].window == v;
      }
      forall v | HasReceipt(l, v) && !HasReceipt(t, v) ensures v !in l.outbox && v in sys.released {
        var id :| id in l.receipts && l.receipts[id].window == v;
        assert id !in t.receipts;
      }
      assert t.outbox == l.outbox;
    }
  }

  lemma RunEndedKeeps(sys: System, threshold: real, step: Step)
    requires SysInv(sys, threshold) && threshold > SCORE_EPSILON && step.RunEnded?
    ensures SysInv(Next(sys, step, threshold), threshold)
  {
    hide Inv;
    var RunEnded(job, run, completed, failure, nextAt, nextJob, now) := step;
    var l, less := sys.ledger, sys.attempts - {run};
    if completed {
      hide RunningSettled, CountedOk, ReleasedOk, SameRequest;
      CompleteStepKeeps(sys.(attempts := less), threshold, job, run, nextJob, now);
    } else if failure == TerminalFailure || (failure == InvalidOutput && RecordedAttempt(sys.attempts, run) >= 2) {
      FailStepKeeps(sys, threshold, job, Some(run), less);
    } else {
      var marked := if failure == InvalidOutput && Escapes(sys, job, run)
                    then sys.(history := sys.history.(escaped := true)) else sys;
      assert SysInv(marked, threshold);
      DeferStepKeeps(marked, threshold, job, run, nextAt, failure == InvalidOutput, less);
    }
  }

  lemma ReconcileKeeps(sys: System, threshold: real, job: string, found: Reconciliation, nextAt: nat, nextJob: string,
                       now: nat)
    requires SysInv(sys, threshold) && threshold > SCORE_EPSILON
    ensures SysInv(ReconcileStep(sys, job, found, nextAt, nextJob, now, threshold), threshold)
  {
    hide SysInv, FailJob, DeferJob, CompleteStep, PendingSourceAcknowledgement;
    var l := sys.ledger;
    if job in l.jobs && l.jobs[job].status == Running {
      var run := l.jobs[job].runId;
      FailStepKeeps(sys, threshold, job, run, sys.attempts);
      if run.Some? {
        CompleteStepKeeps(sys, threshold, job, run.value, nextJob, now);
        DeferStepKeeps(sys, threshold, job, run.value, nextAt, false, sys.attempts);
        if l.jobs[job].attempt < 2 {
          DeferStepKeeps(sys, threshold, job, run.value, nextAt, true, sys.attempts);
        }
      }
    }
  }

  // ------------------------------------------------------------------ theorem

  lemma ActivateKeeps(sys: System, threshold: real, job: string, now: nat)
    requires SysInv(sys, threshold) && threshold > SCORE_EPSILON
    ensures SysInv(Next(sys, Activate(job, now), threshold), threshold)
  {
    hide Materialize, Total, OutboxOk, ReceiptsOk, JobsOk;
    var l := sys.ledger;
    MaterializeKeeps(l, threshold, job, now);
    var t := Materialize(l, threshold, job, now).state;
    assert forall v :: HasReceipt(t, v) <==> HasReceipt(l, v);
    if l.jobs == map[] {
      PendingOnly(l, threshold, job, now);
    }
  }

  lemma ClearKeepsSystem(sys: System, threshold: real)
    requires SysInv(sys, threshold) && threshold > SCORE_EPSILON
    ensures SysInv(ClearStep(sys), threshold)
  {
    hide Inv;
    ClearKeeps(sys.ledger, threshold);
    assert forall v :: !HasReceipt(EMPTY, v);
  }

  /** Steps that move the service or the dispatcher's memory without touching the tables. */
  lemma QuietStepKeeps(sys: System, threshold: real, step: Step)
    requires SysInv(sys, threshold)
    requires step.Seal? || step.Start? || step.ReleaseSource? || step.AbandonDelivery? || step.Crash?
             || step.NewDispatcher? || step.ArchiveAnalysis? || step.PruneArchive?
    requires ResolvableStep(step)
    ensures SysInv(Next(sys, step, threshold), threshold)
  {
    hide Inv;
  }

  lemma StepKeeps(sys: System, threshold: real, step: Step)
    requires SysInv(sys, threshold) && threshold > SCORE_EPSILON && ResolvableStep(step)
    ensures SysInv(Next(sys, step, threshold), threshold)
  {
    hide SysInv, HandIn, GiveUp, BeginStep, Answer, InvalidOutputStep, LocalStep, ClaimStep, RunEndedStep,
         ReconcileStep,
         ClearStep, LookUpStep, FinishStep;
    match step
    case EnqueueListed(w, payload, now) =>
      if sys.phase.Listing? && w in sys.phase.pending {
        HandInKeeps(sys, threshold, w, payload, now);
        ListingKeeps(HandIn(sys, w, payload, now), threshold, sys.phase.pending - {w});
      }
    case EnqueueWindow(w, payload, now) =>
      if sys.phase.Idle? { HandInKeeps(sys, threshold, w, payload, now); }
    case Activate(job, now) => ActivateKeeps(sys, threshold, job, now);
    case Begin(w) =>
      if sys.phase.Idle? { BeginKeeps(sys, threshold, w); }
    case LookUpArchive =>
      if sys.phase.Analyzing? && sys.phase.stage.LookingUp? { LookUpKeeps(sys, threshold); }
    case FinishRun(job, run) => FinishKeeps(sys, threshold, job, run);
    case Respond(job, now, nextAt) =>
      if sys.phase.Analyzing? && sys.phase.stage.Archived? { AnswerKeeps(sys, threshold, job, now, nextAt); }
    case ReportInvalidOutput(nextAt) =>
      if sys.phase.Analyzing? { InvalidOutputKeeps(sys, threshold, nextAt); }
    case Fail(nextAt) =>
      if sys.phase.Analyzing? || sys.phase.SourceAck? || sys.phase.LocalAck? {
        GiveUpKeeps(sys, threshold, sys.phase.queued.window, nextAt);
      }
    case FailPermanently =>
      if sys.phase.Analyzing? { FailPermanentlyKeeps(sys, threshold, sys.phase.queued.window); }
    case AcknowledgeLocally(nextAt) =>
      if sys.phase.LocalAck? { LocalStepKeeps(sys, threshold, nextAt); }
    case ClaimJob(job, run, now) => ClaimStepKeeps(sys, threshold, job, run, now, true);
    case ClaimIneligible(job, run, now) => ClaimStepKeeps(sys, threshold, job, run, now, false);
    case StartFailed(job, run, nextAt) =>
      DeferStepKeeps(sys, threshold, job, run, nextAt, false, sys.attempts - {run});
    case RunEnded(_, _, _, _, _, _, _) => RunEndedKeeps(sys, threshold, step);
    case ReconcileJob(job, found, nextAt, nextJob, now) =>
      ReconcileKeeps(sys, threshold, job, found, nextAt, nextJob, now);
    case ClearData => ClearKeepsSystem(sys, threshold);
    case _ => QuietStepKeeps(sys, threshold, step);
  }

  lemma LookUpKeeps(sys: System, threshold: real)
    requires SysInv(sys, threshold) && sys.phase.Analyzing?
    ensures SysInv(LookUpStep(sys, sys.phase.queued), threshold)
  {
    hide SysInv, MarkTerminal, SemanticIdentity;
    var q := sys.phase.queued;
    FailPermanentlyKeeps(sys, threshold, q.window);
    StageKeeps(sys, threshold, Asking);
    AcknowledgeNext(sys, threshold, q);
    if q.requestId in sys.archive {
      ArchivedScore(sys, threshold, q.requestId);
      StageKeeps(sys, threshold, Archived(sys.archive[q.requestId].score, sys.archive[q.requestId].size));
    }
  }

  lemma ArchivedScore(sys: System, threshold: real, id: string)
    requires SysInv(sys, threshold) && id in sys.archive
    ensures ValidEntry(sys.archive[id])
  {
    hide Inv, ValidEntry, SameRequest, RunningSettled, ReleasedOk, CountedOk, PhaseOk, RecordedOk, CapOk;
  }

  /** The analysis of a window moves on. */
  lemma StageKeeps(sys: System, threshold: real, stage: Stage)
    requires SysInv(sys, threshold) && sys.phase.Analyzing? && (stage.Archived? ==> ResolvableScore(stage.score))
    ensures SysInv(sys.(phase := Analyzing(sys.phase.queued, stage)), threshold)
  {
    hide Inv, ResolvableScore, SameRequest, RunningSettled, ReleasedOk, CountedOk, RecordedOk, CapOk, SemanticIdentity;
  }

  lemma AcknowledgeNext(sys: System, threshold: real, q: Queued)
    requires SysInv(sys, threshold)
    ensures SysInv(sys.(phase := SourceAck(q, true)), threshold)
  {
    hide Inv, ResolvableScore, SameRequest, RunningSettled, ReleasedOk, CountedOk, RecordedOk, CapOk, SemanticIdentity;
  }

  lemma FinishKeeps(sys: System, threshold: real, job: string, run: string)
    requires SysInv(sys, threshold)
    ensures SysInv(FinishStep(sys, job, run), threshold)
  {
    hide Inv, SemanticIdentity;
  }

  lemma ListingKeeps(sys: System, threshold: real, pending: set<string>)
    requires SysInv(sys, threshold)
    ensures SysInv(sys.(phase := Listing(pending)), threshold)
  {
    hide Inv;
  }

  /** Every run of the system from a fresh ledger keeps the invariant. */
  lemma {:induction false} RunKeeps(steps: seq<Step>, threshold: real)
    requires threshold > SCORE_EPSILON && forall step | step in steps :: ResolvableStep(step)
    ensures SysInv(Run(FRESH, steps, threshold), threshold)
  {
    if steps == [] {
      assert EMPTY.receipts.Keys == {};
      assert forall v :: !HasReceipt(EMPTY, v);
    } else {
      RunKeeps(steps[..|steps| - 1], threshold);
      StepKeeps(Run(FRESH, steps[..|steps| - 1], threshold), threshold, steps[|steps| - 1]);
    }
  }

  // ------------------------------------------------------------- consequences

  /** In a run no window is counted twice, unless it was handed in again after its source released it. */
  lemma AddedAtMostOnce(steps: seq<Step>, threshold: real, w: string)
    requires threshold > SCORE_EPSILON && forall step | step in steps :: ResolvableStep(step)
    ensures var sys := Run(FRESH, steps, threshold);
            w !in sys.history.late ==> Added(sys.history, w) <= 1
  {
    RunKeeps(steps, threshold);
  }

  /** Nothing is lost either: accepted scores are in the accumulator or were consumed by completed jobs. */
  lemma ScoresConserved(steps: seq<Step>, threshold: real)
    requires threshold > SCORE_EPSILON && forall step | step in steps :: ResolvableStep(step)
    ensures var sys := Run(FRESH, steps, threshold);
            && sys.history.accepted == sys.ledger.score + sys.history.consumed
            && sys.ledger.score == Total(sys.ledger.receipts.Keys, sys.ledger.receipts)
  {
    RunKeeps(steps, threshold);
  }

  /** In a run a trigger is pending exactly when a job waits, one at most, and no reached threshold goes unnoticed. */
  lemma TriggerNeverLost(steps: seq<Step>, threshold: real, job: string, now: nat)
    requires threshold > SCORE_EPSILON && forall step | step in steps :: ResolvableStep(step)
    ensures var l := Run(FRESH, steps, threshold).ledger;
            && (l.trigger <==> l.jobs != map[])
            && (forall a, b | a in l.jobs && b in l.jobs :: a == b)
            && (l.jobs == map[] ==> l.score + SCORE_EPSILON < threshold)
            && Materialize(l, threshold, job, now).Done?
  {
    RunKeeps(steps, threshold);
    var l := Run(FRESH, steps, threshold).ledger;
    MaterializeKeeps(l, threshold, job, now);
  }

  /** What one step may do to a window whose row it keeps. */
  ghost predicate RowStep(before: System, after: System, w: string) {
    && (HasReceipt(before.ledger, w) ==>
          HasReceipt(after.ledger, w) && Added(after.history, w) == Added(before.history, w))
    && (!HasReceipt(before.ledger, w) ==>
          Added(after.history, w) == Added(before.history, w) + (if HasReceipt(after.ledger, w) then 1 else 0))
  }

  lemma SameReceiptsRowStep(before: System, after: System, w: string)
    requires after.ledger.receipts == before.ledger.receipts && after.history.added == before.history.added
    ensures RowStep(before, after, w)
  {
    assert HasReceipt(after.ledger, w) <==> HasReceipt(before.ledger, w);
  }

  lemma QueuedAttempt(sys: System, threshold: real)
    requires SysInv(sys, threshold) && sys.phase.Analyzing?
    ensures sys.phase.queued.semanticAttempt < MAXIMUM_SEMANTIC_ATTEMPTS
  {
    hide Inv;
  }

  lemma AnswerRowStep(sys: System, threshold: real, q: Queued, r: Response, job: string, now: nat, nextAt: nat,
          w: string)
    requires SysInv(sys, threshold) && threshold > SCORE_EPSILON && q.semanticAttempt < MAXIMUM_SEMANTIC_ATTEMPTS
    ensures RowStep(sys, Answer(sys, q, r, job, now, nextAt, threshold), w)
  {
    hide Inv, Apply;
    var l, after := sys.ledger, Answer(sys, q, r, job, now, nextAt, threshold);
    ApplyKeeps(l, threshold, q.window, r, job, now, true);
    var o := Apply(l, q.window, r, threshold, job, now, true);
    CountAdds(sys.history, q, r.score);
    if o.Done? && o.value.accepted {
      var t := o.state;
      assert t.receipts[r.requestId].window == q.window;
      if HasReceipt(l, w) {
        var id :| id in l.receipts && l.receipts[id].window == w;
        assert t.receipts[id].window == w;
      }
    } else {
      SameReceiptsRowStep(sys, after, w);
    }
  }

  lemma CompleteRowStep(sys: System, threshold: real, job: string, run: string, nextJob: string, now: nat, w: string)
    requires SysInv(sys, threshold) && threshold > SCORE_EPSILON && w in sys.ledger.outbox
    ensures RowStep(sys, CompleteStep(sys, job, run, threshold, nextJob, now), w)
  {
    hide Inv, Complete;
    var l := sys.ledger;
    CompleteKeeps(l, threshold, job, run, nextJob, now);
    CompletionSafe(sys, threshold, job, run, nextJob, now);
    var o := Complete(l, job, run, threshold, nextJob, now);
    if o.Done? {
      var t := o.state;
      assert forall id | id in t.receipts :: id in l.receipts && t.receipts[id] == l.receipts[id];
      assert forall id | id in l.receipts && l.receipts[id].window == w :: id in t.receipts;
    }
  }

  ghost predicate LeavesReceipts(before: System, after: System) {
    after.ledger.receipts == before.ledger.receipts && after.history.added == before.history.added
  }

  lemma HandInLeavesReceipts(sys: System, w: string, payload: string, now: nat)
    ensures LeavesReceipts(sys, HandIn(sys, w, payload, now))
  {
    hide SemanticIdentity, IsSemanticRequestId, HasReceipt, RequestIdTaken;
  }

  lemma RowEditsLeaveReceipts(l: State, w: string, request: string, nextAt: nat, next: Option<string>)
    ensures After(Defer(l, w, nextAt), l).receipts == l.receipts
    ensures After(MarkTerminal(l, w), l).receipts == l.receipts
    ensures After(AdvanceSemanticAttempt(l, w, request, nextAt, next), l).receipts == l.receipts
  {
    hide RequestIdTaken;
  }

  lemma LocalStepLeavesReceipts(sys: System, q: Queued, consumed: bool, nextAt: nat)
    ensures LeavesReceipts(sys, LocalStep(sys, q, consumed, nextAt))
  {
    hide HasReceipt;
  }

  lemma JobEditsLeaveReceipts(l: State, job: string, run: Option<string>, nextAt: nat, advance: bool)
    ensures After(FailJob(l, job, run), l).receipts == l.receipts
    ensures run.Some? ==> After(DeferJob(l, job, run.value, nextAt, advance), l).receipts == l.receipts
  {
  }

  lemma ClaimStepLeavesReceipts(sys: System, job: string, run: string, now: nat, eligible: bool)
    ensures LeavesReceipts(sys, ClaimStep(sys, job, run, now, eligible))
  {
    hide PendingSourceAcknowledgement;
  }

  lemma AnalysisLeavesReceipts(sys: System, q: Queued, nextAt: nat, score: real, size: nat)
    ensures LeavesReceipts(sys, LookUpStep(sys, q))
    ensures LeavesReceipts(sys, ArchiveStep(sys, q, score, size))
    ensures LeavesReceipts(sys, InvalidOutputStep(sys, q, nextAt))
    ensures LeavesReceipts(sys, GiveUp(sys, q.window, nextAt))
    ensures LeavesReceipts(sys, sys.(ledger := After(MarkTerminal(sys.ledger, q.window), sys.ledger), phase := Idle))
  {
    hide Defer, MarkTerminal, AdvanceSemanticAttempt;
    RowEditsLeaveReceipts(sys.ledger, q.window, q.requestId, nextAt, NextRequest(q.window, q.semanticAttempt));
  }

  lemma QuietLeavesReceipts(sys: System, w: string, job: string, run: string)
    ensures LeavesReceipts(sys, BeginStep(sys, w)) && LeavesReceipts(sys, FinishStep(sys, job, run))
  {
    hide HasReceipt, Consumable;
  }

  lemma AnalysisStepsLeaveReceipts(sys: System, threshold: real, step: Step)
    requires step.LookUpArchive? || step.ArchiveAnalysis? || step.ReportInvalidOutput? || step.Fail?
            || step.FailPermanently?
    ensures LeavesReceipts(sys, Next(sys, step, threshold))
  {
    hide LookUpStep, ArchiveStep, InvalidOutputStep, GiveUp, MarkTerminal;
    if sys.phase.Analyzing? || sys.phase.SourceAck? || sys.phase.LocalAck? {
      var nextAt := if step.Fail? || step.ReportInvalidOutput? then step.nextAt else 0;
      var score, size := if step.ArchiveAnalysis? then step.score else 0.0, if step.ArchiveAnalysis?
          then step.size else 0;
      AnalysisLeavesReceipts(sys, sys.phase.queued, nextAt, score, size);
    }
  }

  lemma ServiceLeavesReceipts(sys: System, threshold: real, step: Step)
    requires !step.Respond? && !step.EnqueueListed? && !step.EnqueueWindow? && !step.RunEnded? && !step.ReconcileJob?
             && !step.ClearData? && !step.Activate?
    ensures LeavesReceipts(sys, Next(sys, step, threshold))
  {
    hide Next;
    if step.LookUpArchive? || step.ArchiveAnalysis? || step.ReportInvalidOutput? || step.Fail?
        || step.FailPermanently? {
      AnalysisStepsLeaveReceipts(sys, threshold, step);
    } else {
      OtherStepsLeaveReceipts(sys, threshold, step);
    }
  }

  lemma OtherStepsLeaveReceipts(sys: System, threshold: real, step: Step)
    requires !step.Respond? && !step.EnqueueListed? && !step.EnqueueWindow? && !step.RunEnded? && !step.ReconcileJob?
             && !step.ClearData? && !step.Activate?
    requires !step.LookUpArchive? && !step.ArchiveAnalysis? && !step.ReportInvalidOutput? && !step.Fail?
             && !step.FailPermanently?
    ensures LeavesReceipts(sys, Next(sys, step, threshold))
  {
    hide BeginStep, FinishStep, LocalStep, ClaimStep, DeferJob;
    match step
    case Begin(w) => QuietLeavesReceipts(sys, w, "", "");
    case FinishRun(job, run) => QuietLeavesReceipts(sys, "", job, run);
    case AcknowledgeLocally(nextAt) =>
      if sys.phase.LocalAck? { LocalStepLeavesReceipts(sys, sys.phase.queued, sys.phase.consumed, nextAt); }
    case ClaimJob(job, run, now) => ClaimStepLeavesReceipts(sys, job, run, now, true);
    case ClaimIneligible(job, run, now) => ClaimStepLeavesReceipts(sys, job, run, now, false);
    case StartFailed(job, run, nextAt) => JobEditsLeaveReceipts(sys.ledger, job, Some(run), nextAt, false);
    case _ =>
  }

  /** While a row stays, its receipt stays, and its score is added at most once. */
  lemma StepCountsRowOnce(sys: System, threshold: real, step: Step, w: string)
    requires SysInv(sys, threshold) && threshold > SCORE_EPSILON
    requires w in sys.ledger.outbox && w in Next(sys, step, threshold).ledger.outbox
    ensures RowStep(sys, Next(sys, step, threshold), w)
  {
    hide SysInv, Answer, HandIn, LocalStep, ClaimStep, RunEndedStep, ReconcileStep, Materialize, RowStep;
    var after := Next(sys, step, threshold);
    match step
    case Respond(job, now, nextAt) =>
      if sys.phase.Analyzing? && sys.phase.stage.Archived? {
        QueuedAttempt(sys, threshold);
        AnswerRowStep(sys, threshold, sys.phase.queued, Answered(sys.phase), job, now, nextAt, w);
      } else {
        SameReceiptsRowStep(sys, after, w);
      }
    case EnqueueListed(v, payload, now) =>
      HandInLeavesReceipts(sys, v, payload, now);
      SameReceiptsRowStep(sys, after, w);
    case EnqueueWindow(v, payload, now) =>
      HandInLeavesReceipts(sys, v, payload, now);
      SameReceiptsRowStep(sys, after, w);
    case RunEnded(job, run, completed, failure, nextAt, nextJob, now) =>
      RunEndedRowStep(sys, threshold, step, w);
    case ReconcileJob(job, found, nextAt, nextJob, now) =>
      ReconcileRowStep(sys, threshold, step, w);
    case ClearData => assert false;
    case Activate(job, now) =>
      MaterializeLeavesReceipts(sys.ledger, threshold, job, now);
      SameReceiptsRowStep(sys, after, w);
    case _ =>
      ServiceLeavesReceipts(sys, threshold, step);
      SameReceiptsRowStep(sys, after, w);
  }

  lemma RunEndedRowStep(sys: System, threshold: real, step: Step, w: string)
    requires SysInv(sys, threshold) && threshold > SCORE_EPSILON && w in sys.ledger.outbox && step.RunEnded?
    ensures RowStep(sys, Next(sys, step, threshold), w)
  {
    hide SysInv, CompleteStep, FailJob, DeferJob, RowStep;
    if step.completed {
      FewerAttemptsKeep(sys, threshold, step.run);
      var less := sys.(attempts := sys.attempts - {step.run});
      CompleteRowStep(less, threshold, step.job, step.run, step.nextJob, step.now, w);
      RowStepSameTables(less, sys, Next(sys, step, threshold), w);
    } else {
      JobEditsLeaveReceipts(sys.ledger, step.job, Some(step.run), step.nextAt, step.failure == InvalidOutput);
      SameReceiptsRowStep(sys, Next(sys, step, threshold), w);
    }
  }

  lemma RowStepSameTables(a: System, b: System, after: System, w: string)
    requires RowStep(a, after, w) && a.ledger == b.ledger && a.history == b.history
    ensures RowStep(b, after, w)
  {
  }

  lemma ReconcileRowStep(sys: System, threshold: real, step: Step, w: string)
    requires SysInv(sys, threshold) && threshold > SCORE_EPSILON && w in sys.ledger.outbox && step.ReconcileJob?
    ensures RowStep(sys, Next(sys, step, threshold), w)
  {
    hide SysInv, CompleteStep, FailJob, DeferJob, PendingSourceAcknowledgement, RowStep;
    var after := Next(sys, step, threshold);
    SameReceiptsRowStep(sys, sys, w);
    if step.job in sys.ledger.jobs {
      var run := sys.ledger.jobs[step.job].runId;
      JobEditsLeaveReceipts(sys.ledger, step.job, run, step.nextAt, true);
      JobEditsLeaveReceipts(sys.ledger, step.job, run, step.nextAt, false);
      if run.Some? {
        CompleteRowStep(sys, threshold, step.job, run.value, step.nextJob, step.now, w);
      }
      if LeavesReceipts(sys, after) { SameReceiptsRowStep(sys, after, w); }
    }
  }

  lemma FewerAttemptsKeep(sys: System, threshold: real, run: string)
    requires SysInv(sys, threshold)
    ensures SysInv(sys.(attempts := sys.attempts - {run}), threshold)
  {
    hide Inv;
  }

  /** The row of `w` survives every prefix of the steps. */
  ghost predicate RowStays(sys: System, steps: seq<Step>, threshold: real, w: string) {
    forall n | 0 <= n <= |steps| :: w in Run(sys, steps[..n], threshold).ledger.outbox
  }

  /**
   Over any stretch of a run that keeps a window's outbox row, across crashes, retries and
   restarts, its score is added at most once, and not at all if it had a receipt already.
   */
  lemma {:induction false} RowAddedOnce(sys: System, steps: seq<Step>, threshold: real, w: string)
    requires SysInv(sys, threshold) && threshold > SCORE_EPSILON && forall step | step in steps :: ResolvableStep(step)
    requires RowStays(sys, steps, threshold, w)
    ensures SysInv(Run(sys, steps, threshold), threshold)
    ensures RowStep(sys, Run(sys, steps, threshold), w)
  {
    hide SysInv, Next, HasReceipt, RowStays, Added;
    if steps == [] {
    } else {
      var n := |steps| - 1;
      var front := steps[..n];
      RowStaysPrefix(sys, steps, threshold, w);
      RowAddedOnce(sys, front, threshold, w);
      var mid := Run(sys, front, threshold);
      StepKeeps(mid, threshold, steps[n]);
      StepCountsRowOnce(mid, threshold, steps[n], w);
      assert Run(sys, steps, threshold) == Next(mid, steps[n], threshold);
    }
  }

  lemma RowStaysPrefix(sys: System, steps: seq<Step>, threshold: real, w: string)
    requires RowStays(sys, steps, threshold, w) && steps != []
    ensures RowStays(sys, steps[..|steps| - 1], threshold, w)
    ensures w in Run(sys, steps[..|steps| - 1], threshold).ledger.outbox
    ensures w in Run(sys, steps, threshold).ledger.outbox
  {
    hide Next, Run;
    var front := steps[..|steps| - 1];
    assert steps[..|steps|] == steps;
    forall n | 0 <= n <= |front| ensures w in Run(sys, front[..n], threshold).ledger.outbox {
      assert front[..n] == steps[..n];
    }
  }
}
