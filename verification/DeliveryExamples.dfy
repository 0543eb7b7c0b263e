/** Runs from a fresh system that reach what the theorems leave possible. */
module DeliveryExamples {
  import opened Wrappers
  import opened Ledger
  import opened LedgerInvariant
  import opened Delivery
  import opened Counting

  lemma {:induction false} RunConcat(sys: System, a: seq<Step>, b: seq<Step>, threshold: real)
    ensures Run(sys, a + b, threshold) == Run(Run(sys, a, threshold), b, threshold)
    decreases |b|
  {
    hide Next;
    if b == [] {
      assert a + b == a;
    } else {
      var n := |b| - 1;
      assert (a + b)[..|a| + n] == a + b[..n] && (a + b)[|a| + n] == b[n];
      RunConcat(sys, a, b[..n], threshold);
    }
  }

  lemma RunOne(sys: System, step: Step, threshold: real)
    ensures Run(sys, [step], threshold) == Next(sys, step, threshold)
  {
    hide Next;
    assert [step][..0] == [];
  }

  lemma RunTwo(sys: System, first: Step, second: Step, threshold: real)
    ensures Run(sys, [first, second], threshold) == Next(Next(sys, first, threshold), second, threshold)
  {
    hide Next;
    assert [first, second][..1] == [first];
    RunOne(sys, first, threshold);
  }

  // ---------------------------------------------------------------- the states

  const W := "w"

  function Row(id: string, a: nat, attempt: nat): OutboxRow {
    OutboxRow(id, a, "", 0, attempt, 0, false)
  }

  /** The window waits in the outbox under request `id` of attempt `a`. */
  function Queueing(id: string, a: nat, attempt: nat): System {
    System(EMPTY.(outbox := map[W := Row(id, a, attempt)]), Idle, {W}, {}, map[], map[], NO_HISTORY)
  }

  function Counted(a: nat): History {
    NO_HISTORY.(added := map[(W, a) := 1], accepted := 1.0)
  }

  function Answering(id: string, a: nat, attempt: nat, stage: Stage): System {
    Queueing(id, a, attempt).(phase := Analyzing(Queued(W, id, a), stage))
  }

  function Recorded(id: string, job: Job): State {
    State(map[], map[id := Receipt(W, 1.0, 0, 0)], map["j" := job], map[id := "j"], 1.0, true)
  }

  function FirstJob(id: string): Job {
    Job(Pending, None, [id], 1.0, 0, 0, Some(JobRequest("j", 1)), false, 0)
  }

  /** The window has left, its receipt is held by job j. */
  function Left(id: string, a: nat, job: Job, attempts: map<string, nat>, consumedBy: Option<string>): System {
    System(Recorded(id, job), Idle, {W}, {W}, attempts, map[id := Entry(W, 1.0, 0, consumedBy)], Counted(a))
  }

  // ------------------------------------------------------------------- queueing

  const OPENING := [Seal(W), Start, EnqueueListed(W, "", 0), Activate("j", 0)]

  lemma Opens()
    ensures Run(FRESH, OPENING, 1.0) == Queueing(SemanticIdentity(W, 0), 0, 0)
  {
    hide SemanticIdentity;
    var sealed := FRESH.(sealed := {W});
    var listing := sealed.(phase := Listing({W}));
    var listed := Queueing(SemanticIdentity(W, 0), 0, 0).(phase := Listing({}));
    RunTwo(FRESH, Seal(W), Start, 1.0);
    assert {} + {W} == {W} && {W} - {} == {W} && {W} - {W} == {};
    assert Next(FRESH, Seal(W), 1.0) == sealed && Next(sealed, Start, 1.0) == listing;
    assert Run(FRESH, [Seal(W), Start], 1.0) == listing;
    RunTwo(listing, EnqueueListed(W, "", 0), Activate("j", 0), 1.0);
    ListedOnce(listing, listed);
    assert OPENING == [Seal(W), Start] + [EnqueueListed(W, "", 0), Activate("j", 0)];
    RunConcat(FRESH, [Seal(W), Start], [EnqueueListed(W, "", 0), Activate("j", 0)], 1.0);
  }

  lemma ListedOnce(listing: System, listed: System)
    requires listing == FRESH.(sealed := {W}, phase := Listing({W}))
    requires listed == Queueing(SemanticIdentity(W, 0), 0, 0).(phase := Listing({}))
    ensures Next(listing, EnqueueListed(W, "", 0), 1.0) == listed
    ensures Next(listed, Activate("j", 0), 1.0) == Queueing(SemanticIdentity(W, 0), 0, 0)
  {
    hide SemanticIdentity;
    assert {W} - {W} == {};
    assert Enqueue(EMPTY, W, "", 0) == Done(listed.ledger, true);
    assert Materialize(listed.ledger, 1.0, "j", 0) == Done(listed.ledger, false);
  }

  // ------------------------------------------------------------------- counting

  function CountingSteps(): seq<Step> {
    [Begin(W), LookUpArchive] + [ArchiveAnalysis(1.0, 0), Respond("j", 0, 0)] + [ReleaseSource, AcknowledgeLocally(0)]
  }

  lemma Asks(id: string, a: nat, attempt: nat)
    ensures Run(Queueing(id, a, attempt), [Begin(W), LookUpArchive], 1.0) == Answering(id, a, attempt, Asking)
  {
    var sys := Queueing(id, a, attempt);
    RunTwo(sys, Begin(W), LookUpArchive, 1.0);
    assert !HasReceipt(sys.ledger, W);
    assert BeginStep(sys, W) == Answering(id, a, attempt, LookingUp);
    assert LookUpStep(Answering(id, a, attempt, LookingUp), Queued(W, id, a)) == Answering(id, a, attempt, Asking);
  }

  lemma OneReceipt(id: string, receipts: map<string, Receipt>)
    requires id in receipts
    ensures InOrder({id}, receipts) == [id]
  {
    EarliestExists(receipts, {id});
    var first :| IsEarliest(receipts, {id}, first);
    assert first == id && {id} - {id} == {};
    assert InOrder({}, receipts) == [];
  }

  lemma OneSelected(s: State, id: string)
    requires s.receipts == map[id := Receipt(W, 1.0, 0, 0)] && s.assignments == map[]
    ensures Selection(s) == Ok([id]) && SumRows([id], s.receipts) == 1.0
  {
    assert Unassigned(s) == {id};
    OneReceipt(id, s.receipts);
    assert FirstRows(s) == [id];
    assert [id][1..] == [] && [id][..1] == [id] && [id][..0] == [];
    assert FitCount([id], s.receipts, 2, true) == 1;
    assert SumRows([], s.receipts) == 0.0;
  }

  lemma JobIsMade(id: string, row: OutboxRow)
    requires row.requestId == id
    ensures var l := EMPTY.(outbox := map[W := row]);
            Apply(l, W, Response(id, 1.0, 0), 1.0, "j", 0, true)
            == Done(Recorded(id, FirstJob(id)).(outbox := map[W := row]), Applied(true, true))
  {
    var l := EMPTY.(outbox := map[W := row]);
    var t := Record(l, W, Response(id, 1.0, 0), 0);
    assert !HasReceipt(l, W);
    OneSelected(t, id);
    hide Selection, SumRows;
    assert t.receipts == map[id := Receipt(W, 1.0, 0, 0)];
    assert (map r | r in [id] :: "j") == map[id := "j"];
    assert WithJob(t, "j", [id], 0) == Recorded(id, FirstJob(id)).(outbox := map[W := row]);
    assert Materialize(t, 1.0, "j", 0) == NewJob(t, "j", 0);
  }

  lemma Answers(id: string, a: nat, attempt: nat)
    requires a < MAXIMUM_SEMANTIC_ATTEMPTS
    ensures Run(Answering(id, a, attempt, Asking), [ArchiveAnalysis(1.0, 0), Respond("j", 0, 0)], 1.0)
            == Left(id, a, FirstJob(id), map[], None).(
                 ledger := Recorded(id, FirstJob(id)).(outbox := map[W := Row(id, a, attempt)]),
                 phase := SourceAck(Queued(W, id, a), false), released := {})
  {
    var asking, q := Answering(id, a, attempt, Asking), Queued(W, id, a);
    RunTwo(asking, ArchiveAnalysis(1.0, 0), Respond("j", 0, 0), 1.0);
    var archived := asking.(archive := map[id := Entry(W, 1.0, 0, None)], phase := Analyzing(q, Archived(1.0, 0)));
    assert ArchiveStep(asking, q, 1.0, 0) == archived;
    hide Run;
    AppliesFirst(archived, id, a, attempt);
  }

  lemma AppliesFirst(archived: System, id: string, a: nat, attempt: nat)
    requires archived == Answering(id, a, attempt, Archived(1.0, 0)).(archive := map[id := Entry(W, 1.0, 0, None)])
    ensures Next(archived, Respond("j", 0, 0), 1.0)
            == Left(id, a, FirstJob(id), map[], None).(
                 ledger := Recorded(id, FirstJob(id)).(outbox := map[W := Row(id, a, attempt)]),
                 phase := SourceAck(Queued(W, id, a), false), released := {})
  {
    hide Apply, Recorded;
    JobIsMade(id, Row(id, a, attempt));
    assert Count(NO_HISTORY, Queued(W, id, a), 1.0) == Counted(a);
  }

  lemma Acknowledges(id: string, a: nat, attempt: nat)
    ensures var sys := Left(id, a, FirstJob(id), map[], None);
            Run(sys.(ledger := Recorded(id, FirstJob(id)).(outbox := map[W := Row(id, a, attempt)]),
                     phase := SourceAck(Queued(W, id, a), false), released := {}),
                [ReleaseSource, AcknowledgeLocally(0)], 1.0) == sys
  {
    var q := Queued(W, id, a);
    var left := Left(id, a, FirstJob(id), map[], None);
    var ledger := Recorded(id, FirstJob(id)).(outbox := map[W := Row(id, a, attempt)]);
    var sys := left.(ledger := ledger, phase := SourceAck(q, false), released := {});
    RunTwo(sys, ReleaseSource, AcknowledgeLocally(0), 1.0);
    var released := sys.(released := {W}, phase := LocalAck(q, false));
    assert {} + {W} == {W};
    assert Next(sys, ReleaseSource, 1.0) == released;
    assert map[W := Row(id, a, attempt)] - {W} == map[];
    assert AcknowledgeApplied(ledger, W, id) == Done(Recorded(id, FirstJob(id)), ());
  }

  lemma Counts(id: string, a: nat, attempt: nat)
    requires a < MAXIMUM_SEMANTIC_ATTEMPTS
    ensures Run(Queueing(id, a, attempt), CountingSteps(), 1.0) == Left(id, a, FirstJob(id), map[], None)
  {
    hide Next, Run, Queueing, Left;
    Asks(id, a, attempt);
    Answers(id, a, attempt);
    Acknowledges(id, a, attempt);
    var first, second := [Begin(W), LookUpArchive], [ArchiveAnalysis(1.0, 0), Respond("j", 0, 0)];
    var third := [ReleaseSource, AcknowledgeLocally(0)];
    RunConcat(Queueing(id, a, attempt), first, second, 1.0);
    RunConcat(Queueing(id, a, attempt), first + second, third, 1.0);
  }

  // ------------------------------------------------------------ a second counting

  lemma Advances(id: string, next: string)
    requires id == SemanticIdentity(W, 0) && next == SemanticIdentity(W, 1)
    ensures Run(Answering(id, 0, 0, Asking), [ReportInvalidOutput(0)], 1.0) == Queueing(next, 1, 1)
  {
    RunOne(Answering(id, 0, 0, Asking), ReportInvalidOutput(0), 1.0);
    AttemptIdentity(W, 0, 1);
    hide SemanticIdentity;
    var l := Queueing(id, 0, 0).ledger;
    assert !RequestIdTaken(l, next) by {
      forall w | w in l.outbox ensures l.outbox[w].requestId != next { }
    }
    assert AdvanceSemanticAttempt(l, W, id, 0, Some(next)) == Done(Queueing(next, 1, 1).ledger, Advanced(false, 1));
  }

  function ClaimedJob(job: Job, run: string): Job {
    job.(status := Running, runId := Some(run), origin := Some(JobRequestOf("j", job)))
  }

  lemma Claims(id: string, a: nat, job: Job, run: string)
    requires Claimable(job, 0) && !job.terminalFailure
    ensures Next(Left(id, a, job, map[], None), ClaimJob("j", run, 0), 1.0)
            == Left(id, a, ClaimedJob(job, run), map[run := job.attempt], None)
  {
    var l := Recorded(id, job);
    assert Offered(l, "j");
    assert Claim(l, "j", run, 0) == Done(Recorded(id, ClaimedJob(job, run)), ClaimedJob(job, run));
  }

  /** The ledger is empty again, the archive remembers the consumed request. */
  function Settled(id: string, a: nat, run: string): System {
    System(EMPTY, Idle, {W}, {W}, map[], map[id := Entry(W, 1.0, 0, Some(run))], Counted(a).(consumed := 1.0))
  }

  lemma Finishes(id: string, a: nat, run: string)
    ensures var job := ClaimedJob(FirstJob(id), run);
            Run(Left(id, a, job, map[run := 0], None),
                [FinishRun("j", run), RunEnded("j", run, true, Transient, 0, "k", 0)], 1.0) == Settled(id, a, run)
  {
    var job := ClaimedJob(FirstJob(id), run);
    var sys := Left(id, a, job, map[run := 0], None);
    var ended := RunEnded("j", run, true, Transient, 0, "k", 0);
    RunTwo(sys, FinishRun("j", run), ended, 1.0);
    var stored := Left(id, a, job, map[run := 0], Some(run));
    assert id in job.analyses;
    assert FinishStep(sys, "j", run).archive == stored.archive;
    assert FinishStep(sys, "j", run) == stored;
    Completes(id, job, run);
    hide Complete;
    assert StoredCompleted(stored, "j", run);
    assert map[run := 0] - {run} == map[];
  }

  lemma Completes(id: string, job: Job, run: string)
    requires job == ClaimedJob(FirstJob(id), run)
    ensures Complete(Recorded(id, job), "j", run, 1.0, "k", 0) == Done(EMPTY, false)
  {
    var l := Recorded(id, job);
    assert AssignedTo(l.assignments, "j") == {id};
    assert l.receipts - {id} == map[] && l.assignments - {id} == map[] && l.jobs - {"j"} == map[];
    assert Release(l, "j", 0.0) == EMPTY;
    assert Materialize(EMPTY, 1.0, "k", 0) == Done(EMPTY, false);
  }

  /** Counted at its second attempt, the window comes back at its first: a request the archive does not know. */
  function TwiceSteps(): seq<Step> {
    OPENING + [Begin(W), LookUpArchive] + [ReportInvalidOutput(0)] + CountingSteps() + [ClaimJob("j", "r", 0)]
    + [FinishRun("j", "r"), RunEnded("j", "r", true, Transient, 0, "k", 0)]
  }

  lemma CountedAtSecondAttempt()
    ensures Run(FRESH, TwiceSteps(), 1.0) == Settled(SemanticIdentity(W, 1), 1, "r")
  {
    var id, next := SemanticIdentity(W, 0), SemanticIdentity(W, 1);
    Opens();
    Asks(id, 0, 0);
    Advances(id, next);
    Counts(next, 1, 1);
    Claims(next, 1, FirstJob(next), "r");
    Finishes(next, 1, "r");
    hide SemanticIdentity, Run, Next, Queueing, Answering, Left, Settled, FirstJob;
    var a, b, c := OPENING, [Begin(W), LookUpArchive], [ReportInvalidOutput(0)];
    var d, e := CountingSteps(), [ClaimJob("j", "r", 0)];
    var f := [FinishRun("j", "r"), RunEnded("j", "r", true, Transient, 0, "k", 0)];
    RunConcat(FRESH, a, b, 1.0);
    RunConcat(FRESH, a + b, c, 1.0);
    RunConcat(FRESH, a + b + c, d, 1.0);
    RunConcat(FRESH, a + b + c + d, e, 1.0);
    RunOne(Left(next, 1, FirstJob(next), map[], None), ClaimJob("j", "r", 0), 1.0);
    RunConcat(FRESH, a + b + c + d + e, f, 1.0);
  }

  lemma TwiceKeeping()
    ensures forall step | step in TwiceSteps() :: ResolvableStep(step) && Keeping(step, W)
  {
    hide SemanticIdentity;
  }

  lemma SettledReturns(id: string, run: string)
    requires id == SemanticIdentity(W, 1)
    ensures CanReturn(Settled(id, 1, run), W) && !ArchiveAnswers(Settled(id, 1, run), W)
    ensures Added(Settled(id, 1, run).history, W) == 1
  {
    AttemptIdentity(W, 0, 1);
    hide SemanticIdentity;
  }

  /** A run from a fresh system, without pruning or clearing, that counts one window twice. */
  lemma CountedTwice() returns (steps: seq<Step>)
    ensures forall step | step in steps :: ResolvableStep(step) && Keeping(step, W)
    ensures Added(Run(FRESH, steps, 1.0).history, W) == 2
  {
    hide Run, Next, SysInv, SemanticIdentity, Settled, Added, CanReturn, ArchiveAnswers, TwiceSteps, ReturnSteps,
         ResolvableStep, Keeping;
    var sys := Settled(SemanticIdentity(W, 1), 1, "r");
    CountedAtSecondAttempt();
    TwiceKeeping();
    RunKeeps(TwiceSteps(), 1.0);
    SettledReturns(SemanticIdentity(W, 1), "r");
    ReturnCounted(sys, 1.0, W);
    steps := TwiceSteps() + ReturnSteps(sys, W);
    RunConcat(FRESH, TwiceSteps(), ReturnSteps(sys, W), 1.0);
  }

  // ---------------------------------------------------------- a fourth attempt

  function Deferred(job: Job): Job {
    job.(status := RetryWait, runId := None, attempt := job.attempt + 1, transportAttempt := 0, origin := None,
         nextAttemptAt := 0)
  }

  function Invalid(run: string): Step {
    RunEnded("j", run, false, InvalidOutput, 0, "k", 0)
  }

  /** An invalid output ends a run; `recorded` tells whether this dispatcher started it. */
  lemma InvalidEnds(id: string, a: nat, job: Job, run: string, recorded: bool)
    requires job.status == Running && job.runId == Some(run) && (recorded ==> job.attempt < 2)
    ensures var after := Next(Left(id, a, job, if recorded then map[run := job.attempt]
            else map[], None), Invalid(run), 1.0);
            && after == Left(id, a, Deferred(job), map[], None).(history := after.history)
            && (recorded || job.attempt < 2 ==> after.history == Counted(a))
  {
    var sys := Left(id, a, job, if recorded then map[run := job.attempt] else map[], None);
    assert sys.attempts - {run} == map[];
    assert DeferJob(Recorded(id, job), "j", run, 0, true) == Done(Recorded(id, Deferred(job)), ());
  }

  lemma Retries(id: string, a: nat, job: Job, run: string)
    requires Claimable(job, 0) && !job.terminalFailure && job.attempt < 2
    ensures Run(Left(id, a, job, map[], None), [ClaimJob("j", run, 0), Invalid(run)], 1.0)
            == Left(id, a, Deferred(ClaimedJob(job, run)), map[], None)
  {
    hide Next, Left;
    RunTwo(Left(id, a, job, map[], None), ClaimJob("j", run, 0), Invalid(run), 1.0);
    Claims(id, a, job, run);
    InvalidEnds(id, a, ClaimedJob(job, run), run, true);
    LeftHistory(id, a, Deferred(ClaimedJob(job, run)));
  }

  lemma LeftHistory(id: string, a: nat, job: Job)
    ensures Left(id, a, job, map[], None).(history := Counted(a)) == Left(id, a, job, map[], None)
  {
  }

  function FourthSteps(): seq<Step> {
    OPENING + CountingSteps() + [ClaimJob("j", "r1", 0), Invalid("r1")] + [ClaimJob("j", "r2", 0), Invalid("r2")]
    + [ClaimJob("j", "r3", 0), NewDispatcher] + [Invalid("r3")]
  }

  function AfterTwo(id: string): Job {
    Deferred(ClaimedJob(Deferred(ClaimedJob(FirstJob(id), "r1")), "r2"))
  }

  lemma TwoRecorded(id: string)
    requires id == SemanticIdentity(W, 0)
    ensures var steps := OPENING + CountingSteps() + [ClaimJob("j", "r1", 0), Invalid("r1")]
                         + [ClaimJob("j", "r2", 0), Invalid("r2")];
            Run(FRESH, steps, 1.0) == Left(id, 0, AfterTwo(id), map[], None)
  {
    var job := FirstJob(id);
    var once := Deferred(ClaimedJob(job, "r1"));
    Opens();
    Counts(id, 0, 0);
    hide SemanticIdentity, Run, Next, Queueing, Left;
    Retries(id, 0, job, "r1");
    Retries(id, 0, once, "r2");
    var a, b := OPENING, CountingSteps();
    var c, d := [ClaimJob("j", "r1", 0), Invalid("r1")], [ClaimJob("j", "r2", 0), Invalid("r2")];
    hide CountingSteps, Invalid;
    RunConcat(FRESH, a, b, 1.0);
    RunConcat(FRESH, a + b, c, 1.0);
    RunConcat(FRESH, a + b + c, d, 1.0);
  }

  /** A run from a fresh system in which a replaced dispatcher lets a job reach attempt 3. */
  lemma FourthAttempt()
    ensures var l := Run(FRESH, FourthSteps(), 1.0).ledger;
            "j" in l.jobs && l.jobs["j"].attempt == 3 && !l.jobs["j"].terminalFailure && l.jobs["j"].status == RetryWait
  {
    var id := SemanticIdentity(W, 0);
    TwoRecorded(id);
    hide SemanticIdentity;
    var job := AfterTwo(id);
    var steps := OPENING + CountingSteps() + [ClaimJob("j", "r1", 0), Invalid("r1")]
                 + [ClaimJob("j", "r2", 0), Invalid("r2")];
    LastReplaced(id, job);
    hide Run, Next, OPENING, CountingSteps, Left;
    RunConcat(FRESH, steps, [ClaimJob("j", "r3", 0), NewDispatcher], 1.0);
    RunConcat(FRESH, steps + [ClaimJob("j", "r3", 0), NewDispatcher], [Invalid("r3")], 1.0);
  }

  lemma LastReplaced(id: string, job: Job)
    requires job == AfterTwo(id)
    ensures var mid := Run(Left(id, 0, job, map[], None), [ClaimJob("j", "r3", 0), NewDispatcher], 1.0);
            var l := Run(mid, [Invalid("r3")], 1.0).ledger;
            "j" in l.jobs && l.jobs["j"].attempt == 3 && !l.jobs["j"].terminalFailure && l.jobs["j"].status == RetryWait
  {
    var claimed := ClaimedJob(job, "r3");
    RunTwo(Left(id, 0, job, map[], None), ClaimJob("j", "r3", 0), NewDispatcher, 1.0);
    Claims(id, 0, job, "r3");
    var replaced := Left(id, 0, claimed, map[], None);
    assert Next(Left(id, 0, claimed, map["r3" := 2], None), NewDispatcher, 1.0) == replaced;
    RunOne(replaced, Invalid("r3"), 1.0);
    InvalidEnds(id, 0, claimed, "r3", false);
    hide Run, Next;
    assert Left(id, 0, Deferred(claimed), map[], None).ledger.jobs["j"] == Deferred(claimed);
  }
}
