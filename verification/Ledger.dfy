/**
 The durable activity ledger: five linked tables, with every SQLite transaction
 written as one function from the table contents before it to an outcome. A
 failed transaction rolls back, so `Failed` carries no state.
 */
module Ledger {
  import opened Wrappers
  import opened TextOrder

  const SCORE_EPSILON := 0.000000001
  const MAXIMUM_SEMANTIC_ATTEMPTS := 3
  const MAXIMUM_RESULTS := 512
  const MAXIMUM_PROMPT_CHARACTERS := 48 * 1024
  const MAXIMUM_RESULT_CHARACTERS := 16 * 1024
  const REQUEST_SCHEMA := "activity-event-analysis-request.v1"

  datatype OutboxRow = OutboxRow(
    requestId: string, semanticAttempt: nat, payload: string, queuedAt: nat,
    attempt: nat, nextAttemptAt: nat, terminal: bool)

  /** A Worker receipt; `size` is the serialized length of its analysis. */
  datatype Receipt = Receipt(window: string, score: real, size: nat, receivedAt: nat)

  datatype JobStatus = Pending | Running | RetryWait

  /** The request id `activity-request-<job>-<attempt>`. */
  datatype JobRequest = JobRequest(job: string, attempt: nat)

  /** `analyses` lists the receipts whose analyses were copied into the payload. */
  datatype Job = Job(
    status: JobStatus, runId: Option<string>, analyses: seq<string>, consumed: real,
    attempt: nat, transportAttempt: nat, origin: Option<JobRequest>,
    terminalFailure: bool, nextAttemptAt: nat)

  datatype State = State(
    outbox: map<string, OutboxRow>,
    receipts: map<string, Receipt>,
    jobs: map<string, Job>,
    assignments: map<string, string>,
    score: real,
    trigger: bool)

  datatype Outcome<+T> = Done(state: State, value: T) | Failed(error: string)

  datatype Response = Response(requestId: string, score: real, size: nat)

  datatype Applied = Applied(accepted: bool, triggerBecamePending: bool)

  const EMPTY := State(map[], map[], map[], map[], 0.0, false)

  // ---------------------------------------------------------------- identities

  function AttemptDigit(attempt: nat): string
    requires 0 < attempt < MAXIMUM_SEMANTIC_ATTEMPTS
  {
    if attempt == 1 then "1" else "2"
  }

  /** The text whose digest is the request id; the digest is taken to be injective. */
  function SemanticIdentity(window: string, attempt: nat): string
    requires attempt < MAXIMUM_SEMANTIC_ATTEMPTS
  {
    if attempt == 0 then REQUEST_SCHEMA + ":" + window
    else REQUEST_SCHEMA + ":" + window + ":" + AttemptDigit(attempt)
  }

  predicate IsSemanticRequestId(window: string, requestId: string) {
    exists attempt: nat | attempt < MAXIMUM_SEMANTIC_ATTEMPTS ::
      SemanticIdentity(window, attempt) == requestId
  }

  // ------------------------------------------------------------------- queries

  predicate ReceiptIs(s: State, window: string, id: string) {
    id in s.receipts && s.receipts[id].window == window
  }

  predicate HasReceipt(s: State, window: string) {
    exists id | id in s.receipts :: s.receipts[id].window == window
  }

  predicate RequestIdTaken(s: State, id: string) {
    exists w | w in s.outbox :: s.outbox[w].requestId == id
  }

  /** Some receipt is still joined to its own outbox row. */
  predicate PendingSourceAcknowledgement(s: State) {
    exists w | w in s.outbox ::
      s.outbox[w].requestId in s.receipts && s.receipts[s.outbox[w].requestId].window == w
  }

  function AssignedTo(assignments: map<string, string>, job: string): set<string> {
    set r | r in assignments && assignments[r] == job
  }

  predicate Active(job: Job) {
    !job.terminalFailure
  }

  function JobRequestOf(id: string, job: Job): JobRequest {
    if job.origin.Some? then job.origin.value else JobRequest(id, job.attempt + 1)
  }

  predicate Earlier(receipts: map<string, Receipt>, a: string, b: string)
    requires a in receipts && b in receipts
  {
    receipts[a].receivedAt < receipts[b].receivedAt ||
    (receipts[a].receivedAt == receipts[b].receivedAt && TextLess(a, b))
  }

  predicate IsEarliest(receipts: map<string, Receipt>, ids: set<string>, id: string)
    requires ids <= receipts.Keys
  {
    id in ids && forall other | other in ids && other != id :: Earlier(receipts, id, other)
  }

  /** The order of `ORDER BY received_at_ms, request_id`. */
  function InOrder(ids: set<string>, receipts: map<string, Receipt>): (rows: seq<string>)
    requires ids <= receipts.Keys
    decreases ids
  {
    if ids == {} then []
    else
      EarliestExists(receipts, ids);
      EarliestUnique(receipts, ids);
      var first :| IsEarliest(receipts, ids, first);
      [first] + InOrder(ids - {first}, receipts)
  }

  function Unassigned(s: State): set<string> {
    set r | r in s.receipts && r !in s.assignments
  }

  function FirstRows(s: State): seq<string> {
    var rows := InOrder(Unassigned(s), s.receipts);
    if |rows| <= MAXIMUM_RESULTS then rows else rows[..MAXIMUM_RESULTS]
  }

  /** How many rows fit after `length` characters, `first` telling whether none precedes. */
  function FitCount(rows: seq<string>, receipts: map<string, Receipt>, length: nat, first: bool): (n: nat)
    requires forall r | r in rows :: r in receipts
    ensures n <= |rows|
    decreases |rows|
  {
    if rows == [] then 0
    else
      var next := length + receipts[rows[0]].size + (if first then 0 else 1);
      if next > MAXIMUM_PROMPT_CHARACTERS then 0
      else 1 + FitCount(rows[1..], receipts, next, false)
  }

  function SumRows(rows: seq<string>, receipts: map<string, Receipt>): real
    requires forall r | r in rows :: r in receipts
  {
    if rows == [] then 0.0
    else SumRows(rows[..|rows| - 1], receipts) + receipts[rows[|rows| - 1]].score
  }

  /**
   The length of the JSON array of the listed analyses: each receipt's size is that
   of a one-element array, so it counts two brackets of its own.
   */
  function ArrayLength(rows: seq<string>, receipts: map<string, Receipt>): int
    requires forall r | r in rows :: r in receipts
  {
    if rows == [] then 2
    else ArrayLength(rows[..|rows| - 1], receipts) + receipts[rows[|rows| - 1]].size - 2
         + (if |rows| == 1 then 0 else 1)
  }

  /** What reading a job row back demands of its payload. */
  predicate ReadablePayload(receipts: map<string, Receipt>, job: Job) {
    && 0 < |job.analyses| <= MAXIMUM_RESULTS
    && (forall r | r in job.analyses :: r in receipts)
    && ArrayLength(job.analyses, receipts) <= MAXIMUM_PROMPT_CHARACTERS
  }

  // -------------------------------------------------------------- transactions

  function Enqueue(s: State, w: string, payload: string, now: nat): Outcome<bool> {
    if HasReceipt(s, w) then
      if exists id | id in s.receipts :: s.receipts[id].window == w && !IsSemanticRequestId(w, id)
      then Failed("request id collision")
      else Done(s, false)
    else if w in s.outbox then
      var row := s.outbox[w];
      if row.payload != payload || !IsSemanticRequestId(w, row.requestId) then Failed("outbox collision")
      else if row.semanticAttempt >= MAXIMUM_SEMANTIC_ATTEMPTS then Failed("semantic attempt is corrupt")
      else if SemanticIdentity(w, row.semanticAttempt) != row.requestId then Failed("semantic identity mismatch")
      else Done(s, false)
    else
      var id := SemanticIdentity(w, 0);
      if RequestIdTaken(s, id) then Failed("UNIQUE constraint failed")
      else Done(s.(outbox := s.outbox[w := OutboxRow(id, 0, payload, now, 0, now, false)]), true)
  }

  function Defer(s: State, w: string, next: nat): Outcome<()> {
    if w !in s.outbox || s.outbox[w].terminal then Failed("unknown outbox record")
    else
      var row := s.outbox[w];
      Done(s.(outbox := s.outbox[w := row.(attempt := row.attempt + 1, nextAttemptAt := next)]), ())
  }

  function MarkTerminal(s: State, w: string): Outcome<()> {
    if w !in s.outbox || s.outbox[w].terminal then Failed("unknown outbox record")
    else
      var row := s.outbox[w];
      Done(s.(outbox := s.outbox[w := row.(attempt := row.attempt + 1, terminal := true)]), ())
  }

  datatype Advanced = Advanced(terminal: bool, semanticAttempt: nat)

  /** `next` is the request id the caller derived for the following attempt, if any. */
  function AdvanceSemanticAttempt(s: State, w: string, current: string, nextAt: nat, next: Option<string>)
    : Outcome<Advanced>
  {
    if w !in s.outbox || s.outbox[w].terminal || s.outbox[w].requestId != current then
      Failed("semantic attempt identity mismatch")
    else
      var row := s.outbox[w];
      if row.semanticAttempt >= MAXIMUM_SEMANTIC_ATTEMPTS then Failed("semantic attempt is corrupt")
      else if row.semanticAttempt + 1 >= MAXIMUM_SEMANTIC_ATTEMPTS then
        if next.Some? then Failed("terminal attempt cannot carry a new request")
        else
          Done(s.(outbox := s.outbox[w := row.(attempt := row.attempt + 1, terminal := true)]),
               Advanced(true, row.semanticAttempt))
      else if next.None? then Failed("a retryable attempt requires a new request")
      else if next.value == current then Failed("a retry must use a new request id")
      else if RequestIdTaken(s, next.value) then Failed("UNIQUE constraint failed")
      else
        Done(s.(outbox := s.outbox[w := row.(
                  requestId := next.value, semanticAttempt := row.semanticAttempt + 1,
                  attempt := row.attempt + 1, nextAttemptAt := nextAt)]),
             Advanced(false, row.semanticAttempt + 1))
  }

  function WithJob(s: State, jobId: string, selected: seq<string>, now: nat): State
    requires forall r | r in selected :: r in s.receipts
  {
    var job := Job(Pending, None, selected, SumRows(selected, s.receipts), 0, 0,
                   Some(JobRequest(jobId, 1)), false, now);
    s.(jobs := s.jobs[jobId := job],
       assignments := s.assignments + (map r | r in selected :: jobId),
       trigger := true)
  }

  /** The longest prefix of the rows that fits the prompt. */
  function Fitting(rows: seq<string>, receipts: map<string, Receipt>): (r: Result<seq<string>>)
    requires forall id | id in rows :: id in receipts
    ensures r.Ok? ==> forall id | id in r.value :: id in rows
  {
    var count := FitCount(rows, receipts, 2, true);
    if exists k | 0 <= k <= count && k < |rows| :: receipts[rows[k]].size > MAXIMUM_RESULT_CHARACTERS
    then Err("result exceeds the payload limit")
    else if count == 0 then Err("no prompt-safe receipts")
    else Ok(rows[..count])
  }

  function Selection(s: State): (r: Result<seq<string>>)
    ensures r.Ok? ==> forall id | id in r.value :: id in s.receipts
  {
    var rows := FirstRows(s);
    InOrderIsQuery(Unassigned(s), s.receipts);
    if rows == [] then Err("score has no unprocessed receipts") else Fitting(rows, s.receipts)
  }

  function NewJob(s: State, jobId: string, now: nat): Outcome<bool> {
    match Selection(s)
    case Err(e) => Failed(e)
    case Ok(selected) => Done(WithJob(s, jobId, selected, now), true)
  }

  function Materialize(s: State, threshold: real, jobId: string, now: nat): Outcome<bool> {
    if exists j | j in s.jobs :: s.jobs[j].terminalFailure then Done(s.(trigger := true), false)
    else if exists j | j in s.jobs :: Active(s.jobs[j]) then Done(s.(trigger := true), false)
    else if s.score + SCORE_EPSILON < threshold then Done(s.(trigger := false), false)
    else NewJob(s, jobId, now)
  }

  predicate ValidResponse(r: Response) {
    0.0 <= r.score <= 1.0 && r.size <= MAXIMUM_RESULT_CHARACTERS
  }

  function WithoutOutbox(s: State, w: string): State {
    s.(outbox := s.outbox - {w})
  }

  function Record(s: State, w: string, response: Response, now: nat): State {
    s.(receipts := s.receipts[response.requestId := Receipt(w, response.score, response.size, now)],
       score := s.score + response.score)
  }

  function Apply(s: State, w: string, response: Response, threshold: real, jobId: string, now: nat, retain: bool)
    : Outcome<Applied>
  {
    if !ValidResponse(response) then Failed("invalid response")
    else if w !in s.outbox || s.outbox[w].requestId != response.requestId then Failed("no matching outbox record")
    else if response.requestId in s.receipts then
      if s.receipts[response.requestId].window != w then Failed("request id collision")
      else Done(if retain then s else WithoutOutbox(s, w), Applied(false, false))
    else if HasReceipt(s, w) then Failed("window was associated with another request")
    else
      match Materialize(Record(s, w, response, now), threshold, jobId, now)
      case Failed(e) => Failed(e)
      case Done(s', became) => Done(if retain then s' else WithoutOutbox(s', w), Applied(true, became))
  }

  function AcknowledgeApplied(s: State, w: string, request: string): Outcome<()> {
    if !ReceiptIs(s, w, request) then Failed("receipt is missing during acknowledgement")
    else if w !in s.outbox then Done(s, ())
    else if s.outbox[w].requestId != request then Failed("acknowledgement identity mismatch")
    else Done(WithoutOutbox(s, w), ())
  }

  function AcknowledgeConsumed(s: State, w: string, request: string): Outcome<()> {
    if w !in s.outbox then Done(s, ())
    else if s.outbox[w].requestId != request then Failed("consumed window identity mismatch")
    else if HasReceipt(s, w) then Failed("consumed window still has a receipt")
    else Done(WithoutOutbox(s, w), ())
  }

  predicate Claimable(job: Job, now: nat) {
    job.status == Pending || (job.status == RetryWait && job.nextAttemptAt <= now)
  }

  function Claim(s: State, id: string, run: string, now: nat): Outcome<Job> {
    if id !in s.jobs || !Claimable(s.jobs[id], now) then Failed("job cannot be claimed")
    else
      var job := s.jobs[id];
      var claimed := job.(status := Running, runId := Some(run), origin := Some(JobRequestOf(id, job)));
      Done(s.(jobs := s.jobs[id := claimed]), claimed)
  }

  predicate RunningAs(s: State, id: string, run: Option<string>) {
    id in s.jobs && s.jobs[id].status == Running && s.jobs[id].runId == run
  }

  function Release(s: State, id: string, score: real): State {
    var ids := AssignedTo(s.assignments, id);
    s.(receipts := s.receipts - ids, assignments := s.assignments - ids, jobs := s.jobs - {id},
       score := score, trigger := false)
  }

  function SnapToZero(remaining: real): real {
    if remaining <= SCORE_EPSILON then 0.0 else remaining
  }

  function Complete(s: State, id: string, run: string, threshold: real, nextJob: string, now: nat): Outcome<bool> {
    if !RunningAs(s, id, Some(run)) then Failed("job cannot be completed")
    else
      var remaining := s.score - s.jobs[id].consumed;
      if remaining < -SCORE_EPSILON then Failed("score ledger is corrupt")
      else Materialize(Release(s, id, SnapToZero(remaining)), threshold, nextJob, now)
  }

  function DeferJob(s: State, id: string, run: string, next: nat, advance: bool): Outcome<()> {
    if !RunningAs(s, id, Some(run)) then Failed("job cannot be deferred")
    else
      var job := s.jobs[id];
      Done(s.(jobs := s.jobs[id := job.(
                status := RetryWait, runId := None, nextAttemptAt := next,
                attempt := job.attempt + (if advance then 1 else 0),
                transportAttempt := if advance then 0 else job.transportAttempt + 1,
                origin := if advance then None else job.origin)]), ())
  }

  function FailJob(s: State, id: string, run: Option<string>): Outcome<()> {
    if !RunningAs(s, id, run) then Failed("job cannot be failed terminally")
    else Done(s.(jobs := s.jobs[id := s.jobs[id].(status := RetryWait, terminalFailure := true)]), ())
  }

  /** Every row belongs to the one owner account, so clearing empties every table. */
  function Clear(s: State): Outcome<(nat, nat, nat)> {
    Done(EMPTY, (|s.outbox|, |s.receipts|, |s.jobs|))
  }

  // -------------------------------------------------------- order of receipts

  lemma {:induction false} EarliestExists(receipts: map<string, Receipt>, ids: set<string>)
    requires ids <= receipts.Keys && ids != {}
    ensures exists id :: IsEarliest(receipts, ids, id)
    decreases ids
  {
    var x :| x in ids;
    if ids == {x} {
      assert IsEarliest(receipts, ids, x);
    } else {
      var rest := ids - {x};
      assert ids == rest + {x};
      EarliestExists(receipts, rest);
      var m :| IsEarliest(receipts, rest, m);
      TextTotal(x, m);
      if Earlier(receipts, m, x) {
        assert IsEarliest(receipts, ids, m);
      } else {
        forall other | other in ids && other != x ensures Earlier(receipts, x, other) {
          if other != m {
            assert other in rest && Earlier(receipts, m, other);
            if TextLess(x, m) && TextLess(m, other) { TextTransitive(x, m, other); }
          }
        }
        assert IsEarliest(receipts, ids, x);
      }
    }
  }

  lemma EarliestUnique(receipts: map<string, Receipt>, ids: set<string>)
    requires ids <= receipts.Keys
    ensures forall a, b :: IsEarliest(receipts, ids, a) && IsEarliest(receipts, ids, b) ==> a == b
  {
    forall a, b | IsEarliest(receipts, ids, a) && IsEarliest(receipts, ids, b) ensures a == b {
      TextTotal(a, b);
    }
  }

  predicate Distinct(rows: seq<string>) {
    forall i, j | 0 <= i < j < |rows| :: rows[i] != rows[j]
  }

  /** The query answer lists exactly the asked receipts, each once, oldest first. */
  lemma {:induction false} InOrderIsQuery(ids: set<string>, receipts: map<string, Receipt>)
    requires ids <= receipts.Keys
    ensures forall r :: r in InOrder(ids, receipts) <==> r in ids
    ensures Distinct(InOrder(ids, receipts))
    ensures forall i, j | 0 <= i < j < |InOrder(ids, receipts)| ::
              Earlier(receipts, InOrder(ids, receipts)[i], InOrder(ids, receipts)[j])
    decreases ids
  {
    if ids != {} {
      EarliestExists(receipts, ids);
      EarliestUnique(receipts, ids);
      var rows := InOrder(ids, receipts);
      var first := rows[0];
      assert IsEarliest(receipts, ids, first) && rows == [first] + InOrder(ids - {first}, receipts);
      InOrderIsQuery(ids - {first}, receipts);
    }
  }
}
