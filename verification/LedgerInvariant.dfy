/**
 What every transaction of the ledger keeps: the accumulated score is the sum of the
 stored receipts, a job's consumed score is the sum over its assigned receipts, there
 is at most one job, and a job exists exactly when the trigger is pending.
 */
module LedgerInvariant {
  import opened Wrappers
  import opened Ledger

  // --------------------------------------------------------------------- sums

  ghost function Total(ids: set<string>, receipts: map<string, Receipt>): real
    requires ids <= receipts.Keys
  {
    if ids == {} then 0.0
    else var x :| x in ids; receipts[x].score + Total(ids - {x}, receipts)
  }

  lemma {:induction false} TotalRemove(ids: set<string>, receipts: map<string, Receipt>, x: string)
    requires ids <= receipts.Keys && x in ids
    ensures Total(ids, receipts) == receipts[x].score + Total(ids - {x}, receipts)
    decreases ids
  {
    var y :| y in ids && Total(ids, receipts) == receipts[y].score + Total(ids - {y}, receipts);
    if y != x {
      TotalRemove(ids - {y}, receipts, x);
      TotalRemove(ids - {x}, receipts, y);
      assert ids - {y} - {x} == ids - {x} - {y};
    }
  }

  lemma {:induction false} TotalSplit(ids: set<string>, part: set<string>, receipts: map<string, Receipt>)
    requires part <= ids <= receipts.Keys
    ensures Total(ids, receipts) == Total(part, receipts) + Total(ids - part, receipts)
    decreases part
  {
    if part == {} {
      assert ids - part == ids;
    } else {
      var x :| x in part;
      TotalSplit(ids - {x}, part - {x}, receipts);
      TotalRemove(ids, receipts, x);
      TotalRemove(part, receipts, x);
      assert ids - {x} - (part - {x}) == ids - part;
    }
  }

  lemma {:induction false} TotalAgrees(ids: set<string>, a: map<string, Receipt>, b: map<string, Receipt>)
    requires ids <= a.Keys && ids <= b.Keys
    requires forall id | id in ids :: a[id].score == b[id].score
    ensures Total(ids, a) == Total(ids, b)
    decreases ids
  {
    if ids != {} {
      var x :| x in ids;
      TotalRemove(ids, a, x);
      TotalRemove(ids, b, x);
      TotalAgrees(ids - {x}, a, b);
    }
  }

  /** A score the snap to zero cannot lose. */
  predicate ResolvableScore(score: real) {
    score == 0.0 || SCORE_EPSILON < score <= 1.0
  }

  ghost predicate ResolvableScores(receipts: map<string, Receipt>) {
    forall id | id in receipts :: ResolvableScore(receipts[id].score)
  }

  lemma {:induction false} TotalResolvable(ids: set<string>, receipts: map<string, Receipt>)
    requires ids <= receipts.Keys && ResolvableScores(receipts)
    ensures Total(ids, receipts) == 0.0 || Total(ids, receipts) > SCORE_EPSILON
    decreases ids
  {
    if ids != {} {
      var x :| x in ids;
      TotalRemove(ids, receipts, x);
      TotalResolvable(ids - {x}, receipts);
    }
  }

  lemma {:induction false} SumRowsIsTotal(rows: seq<string>, receipts: map<string, Receipt>)
    requires Distinct(rows) && forall r | r in rows :: r in receipts
    ensures SumRows(rows, receipts) == Total((set r | r in rows), receipts)
  {
    hide Total;
    if rows == [] {
      NothingTotal(receipts);
      assert (set r | r in rows) == {};
    } else {
      var front, last := rows[..|rows| - 1], rows[|rows| - 1];
      PrefixDistinct(rows, |rows| - 1);
      assert rows == front + [last];
      SumRowsIsTotal(front, receipts);
      TotalRemove((set r | r in rows), receipts, last);
      LastIsNew(rows);
    }
  }

  lemma NothingTotal(receipts: map<string, Receipt>)
    ensures Total({}, receipts) == 0.0
  {
  }

  lemma LastIsNew(rows: seq<string>)
    requires rows != [] && Distinct(rows)
    ensures var front, last := rows[..|rows| - 1], rows[|rows| - 1];
            (set r | r in rows) - {last} == set r | r in front
  {
    var front, last := rows[..|rows| - 1], rows[|rows| - 1];
    assert rows == front + [last];
  }

  // ---------------------------------------------------------------- invariant

  ghost predicate OutboxOk(outbox: map<string, OutboxRow>) {
    && (forall w | w in outbox ::
          && outbox[w].semanticAttempt < MAXIMUM_SEMANTIC_ATTEMPTS
          && outbox[w].requestId == SemanticIdentity(w, outbox[w].semanticAttempt))
    && (forall v, w | v in outbox && w in outbox && v != w :: outbox[v].requestId != outbox[w].requestId)
  }

  ghost predicate ReceiptsOk(receipts: map<string, Receipt>) {
    && (forall id | id in receipts ::
          && receipts[id].size <= MAXIMUM_RESULT_CHARACTERS
          && 0.0 <= receipts[id].score <= 1.0
          && IsSemanticRequestId(receipts[id].window, id))
    && (forall a, b | a in receipts && b in receipts && a != b :: receipts[a].window != receipts[b].window)
  }

  ghost predicate ScoreOk(s: State) {
    s.score == Total(s.receipts.Keys, s.receipts)
  }

  ghost predicate JobOk(id: string, job: Job, ids: set<string>, receipts: map<string, Receipt>) {
    && ids <= receipts.Keys
    && job.consumed == Total(ids, receipts)
    && (set r | r in job.analyses) == ids
    && ReadablePayload(receipts, job)
    && (job.origin.Some? ==> job.origin.value == JobRequest(id, job.attempt + 1))
    && (job.status == Running ==> job.runId.Some? && job.origin.Some?)
  }

  ghost predicate JobsOk(jobs: map<string, Job>, assignments: map<string, string>, receipts: map<string, Receipt>) {
    && (forall a, b | a in jobs && b in jobs :: a == b)
    && (forall r | r in assignments :: r in receipts && assignments[r] in jobs)
    && (forall id | id in jobs :: JobOk(id, jobs[id], AssignedTo(assignments, id), receipts))
  }

  predicate NewlyMade(job: Job) {
    job.status == Pending && job.attempt == 0
  }

  ghost predicate TriggerOk(s: State, threshold: real) {
    && (s.trigger <==> s.jobs != map[])
    && (s.jobs == map[] ==> s.score + SCORE_EPSILON < threshold)
  }

  /** All of it except the sum and the trigger, which hold between transactions only. */
  ghost predicate Linked(s: State) {
    OutboxOk(s.outbox) && ReceiptsOk(s.receipts) && JobsOk(s.jobs, s.assignments, s.receipts)
  }

  ghost predicate Inv(s: State, threshold: real) {
    Linked(s) && ScoreOk(s) && TriggerOk(s, threshold)
  }

  // ------------------------------------------------------- identity of requests

  lemma TextCancels(a: string, x: string, y: string)
    ensures a + x == a + y <==> x == y
  {
    assert (a + x)[|a|..] == x && (a + y)[|a|..] == y;
  }

  /**
   Two request identities coincide only for the same window and attempt, or when one
   window id is the other's followed by the attempt suffix of the other.
   */
  lemma IdentityCollides(v: string, a: nat, w: string, b: nat)
    requires a < MAXIMUM_SEMANTIC_ATTEMPTS && b < MAXIMUM_SEMANTIC_ATTEMPTS
    ensures SemanticIdentity(v, a) == SemanticIdentity(w, b) <==>
              || (v == w && a == b)
              || (a == 0 && b != 0 && v == w + ":" + AttemptDigit(b))
              || (b == 0 && a != 0 && w == v + ":" + AttemptDigit(a))
  {
    var p := REQUEST_SCHEMA + ":";
    var x := if a == 0 then v else v + ":" + AttemptDigit(a);
    var y := if b == 0 then w else w + ":" + AttemptDigit(b);
    assert SemanticIdentity(v, a) == p + x;
    assert SemanticIdentity(w, b) == p + y;
    TextCancels(p, x, y);
    if a != 0 && b != 0 {
      assert x[..|v|] == v && y[..|w|] == w && x[|x| - 1] == AttemptDigit(a)[0] && y[|y| - 1] == AttemptDigit(b)[0];
    } else if a == b {
    } else if a == 0 {
      SuffixChanges(w, b);
    } else {
      SuffixChanges(v, a);
    }
  }

  lemma SuffixChanges(w: string, b: nat)
    requires 0 < b < MAXIMUM_SEMANTIC_ATTEMPTS
    ensures w + ":" + AttemptDigit(b) != w
  {
    assert |w + ":" + AttemptDigit(b)| == |w| + 2;
  }

  /** A window id ending in an attempt suffix shares its identity with another window. */
  lemma IdentityCollisionExample()
    ensures SemanticIdentity("w:1", 0) == SemanticIdentity("w", 1)
  {
    IdentityCollides("w:1", 0, "w", 1);
    assert "w" + ":" + AttemptDigit(1) == "w:1";
  }

  // --------------------------------------------------------- outbox transactions

  /** A new row starts at attempt 0 with its identity; a known window changes nothing. */
  lemma EnqueueKeeps(s: State, threshold: real, w: string, payload: string, now: nat)
    requires Inv(s, threshold)
    ensures var o := Enqueue(s, w, payload, now);
            o.Done? ==> Inv(o.state, threshold)
                        && (o.value ==> w !in s.outbox && !HasReceipt(s, w) && w in o.state.outbox
                                        && o.state == s.(outbox := s.outbox[w := o.state.outbox[w]])
                                        && o.state.outbox[w].semanticAttempt == 0
                                        && o.state.outbox[w].requestId == SemanticIdentity(w, 0))
                        && (!o.value ==> o.state == s)
  {
    hide SemanticIdentity, ReceiptsOk, JobsOk, Total, OutboxOk, RequestIdTaken, HasReceipt, IsSemanticRequestId;
    var o := Enqueue(s, w, payload, now);
    if o.Done? && o.value { RowAdded(s, w, o.state.outbox[w]); }
  }

  lemma RowAdded(s: State, w: string, row: OutboxRow)
    requires OutboxOk(s.outbox) && w !in s.outbox && row.semanticAttempt < MAXIMUM_SEMANTIC_ATTEMPTS
    requires row.requestId == SemanticIdentity(w, row.semanticAttempt) && !RequestIdTaken(s, row.requestId)
    ensures OutboxOk(s.outbox[w := row])
  {
    hide SemanticIdentity;
  }

  /** A transport retry keeps the request identity. */
  lemma DeferKeeps(s: State, threshold: real, w: string, next: nat)
    requires Inv(s, threshold)
    ensures var o := Defer(s, w, next);
            o.Done? ==> Inv(o.state, threshold) && SameRow(s, o.state, w)
  {
    hide SemanticIdentity, ReceiptsOk, JobsOk, Total, OutboxOk, RequestIdTaken;
    var o := Defer(s, w, next);
    if o.Done? {
      RowIdentity(s.outbox, w);
      RowReplaced(s, w, o.state.outbox[w]);
    }
  }

  /** Only the row of `w` changed, and neither its identity nor its attempt. */
  ghost predicate SameRow(s: State, t: State, w: string) {
    && w in s.outbox && w in t.outbox && t == s.(outbox := s.outbox[w := t.outbox[w]])
    && t.outbox[w].requestId == s.outbox[w].requestId && t.outbox[w].semanticAttempt == s.outbox[w].semanticAttempt
  }

  lemma MarkTerminalKeeps(s: State, threshold: real, w: string)
    requires Inv(s, threshold)
    ensures var o := MarkTerminal(s, w);
            o.Done? ==> Inv(o.state, threshold) && SameRow(s, o.state, w) && o.state.outbox[w].terminal
  {
    hide SemanticIdentity, ReceiptsOk, JobsOk, Total, OutboxOk, RequestIdTaken;
    var o := MarkTerminal(s, w);
    if o.Done? {
      RowIdentity(s.outbox, w);
      RowReplaced(s, w, o.state.outbox[w]);
    }
  }

  /** The request id delivery derives for the attempt after `attempt`. */
  function NextRequest(w: string, attempt: nat): Option<string> {
    if attempt + 1 < MAXIMUM_SEMANTIC_ATTEMPTS then Some(SemanticIdentity(w, attempt + 1)) else None
  }

  /**
   Invalid output moves a window to the identity of its next attempt, a fresh one, and
   ends it after the third; the attempt counter never passes 2.
   */
  lemma AdvanceKeeps(s: State, threshold: real, w: string, attempt: nat, nextAt: nat)
    requires Inv(s, threshold)
    requires w in s.outbox && s.outbox[w].semanticAttempt == attempt
    ensures var row := s.outbox[w];
            var o := AdvanceSemanticAttempt(s, w, row.requestId, nextAt, NextRequest(w, attempt));
            o.Done? ==>
              && Inv(o.state, threshold)
              && o.state.outbox.Keys == s.outbox.Keys
              && (o.value.terminal <==> attempt == 2)
              && (o.value.terminal ==> o.state.outbox[w].terminal && o.state.outbox[w].requestId == row.requestId)
              && (!o.value.terminal ==>
                    && o.state.outbox[w].semanticAttempt == attempt + 1
                    && o.state.outbox[w].requestId != row.requestId)
  {
    hide SemanticIdentity, ReceiptsOk, JobsOk, Total, OutboxOk, RequestIdTaken;
    var o := AdvanceSemanticAttempt(s, w, s.outbox[w].requestId, nextAt, NextRequest(w, attempt));
    if o.Done? {
      RowIdentity(s.outbox, w);
      RowReplaced(s, w, o.state.outbox[w]);
    }
  }

  lemma RowIdentity(outbox: map<string, OutboxRow>, w: string)
    requires OutboxOk(outbox) && w in outbox
    ensures outbox[w].semanticAttempt < MAXIMUM_SEMANTIC_ATTEMPTS
    ensures outbox[w].requestId == SemanticIdentity(w, outbox[w].semanticAttempt)
  {
    hide SemanticIdentity;
  }

  /** A row may take an identity of its own window that no other row has. */
  lemma RowReplaced(s: State, w: string, row: OutboxRow)
    requires OutboxOk(s.outbox) && w in s.outbox && row.semanticAttempt < MAXIMUM_SEMANTIC_ATTEMPTS
    requires row.requestId == SemanticIdentity(w, row.semanticAttempt)
    requires row.requestId == s.outbox[w].requestId || !RequestIdTaken(s, row.requestId)
    ensures OutboxOk(s.outbox[w := row])
  {
    hide SemanticIdentity;
  }

  lemma RemoveOutboxKeeps(s: State, threshold: real, w: string)
    requires Inv(s, threshold)
    ensures Inv(WithoutOutbox(s, w), threshold)
  {
  }

  // ------------------------------------------------------------ materialisation

  lemma {:induction false} FitCountFits(rows: seq<string>, receipts: map<string, Receipt>, length: nat, first: bool)
    requires forall r | r in rows :: r in receipts
    requires 0 <= length <= MAXIMUM_PROMPT_CHARACTERS
    ensures var n := FitCount(rows, receipts, length, first);
            length + RowsLength(rows[..n], receipts, first) <= MAXIMUM_PROMPT_CHARACTERS
    ensures rows != [] && length + receipts[rows[0]].size + 1 <= MAXIMUM_PROMPT_CHARACTERS ==>
              FitCount(rows, receipts, length, first) > 0
    decreases |rows|
  {
    if rows != [] {
      var next := length + receipts[rows[0]].size + (if first then 0 else 1);
      if next <= MAXIMUM_PROMPT_CHARACTERS {
        FitCountFits(rows[1..], receipts, next, false);
        var n := FitCount(rows, receipts, length, first);
        assert rows[..n][1..] == rows[1..][..n - 1];
      }
    }
  }

  /** The growth of `serializedLength` over the selected rows. */
  function RowsLength(rows: seq<string>, receipts: map<string, Receipt>, first: bool): nat
    requires forall r | r in rows :: r in receipts
    decreases |rows|
  {
    if rows == [] then 0
    else receipts[rows[0]].size + (if first then 0 else 1) + RowsLength(rows[1..], receipts, false)
  }

  lemma {:induction false} RowsLengthAppend(rows: seq<string>, last: string, receipts: map<string, Receipt>,
          first: bool)
    requires last in receipts && forall r | r in rows :: r in receipts
    ensures RowsLength(rows + [last], receipts, first) ==
              RowsLength(rows, receipts, first) + receipts[last].size + (if first && rows == [] then 0 else 1)
    decreases |rows|
  {
    if rows == [] {
    } else {
      assert (rows + [last])[1..] == rows[1..] + [last];
      RowsLengthAppend(rows[1..], last, receipts, false);
    }
  }

  /** The running length the loop keeps never undercounts the JSON array it builds. */
  lemma {:induction false} ArrayLengthBound(rows: seq<string>, receipts: map<string, Receipt>)
    requires forall r | r in rows :: r in receipts
    ensures ArrayLength(rows, receipts) <= 2 + RowsLength(rows, receipts, true)
  {
    if rows != [] {
      var front, last := rows[..|rows| - 1], rows[|rows| - 1];
      ArrayLengthBound(front, receipts);
      RowsLengthAppend(front, last, receipts, true);
      assert rows == front + [last];
    }
  }

  /** The new job's payload can always be read back. */
  lemma SelectionFits(rows: seq<string>, receipts: map<string, Receipt>)
    requires forall r | r in rows :: r in receipts
    ensures var n := FitCount(rows, receipts, 2, true);
            ArrayLength(rows[..n], receipts) <= MAXIMUM_PROMPT_CHARACTERS
  {
    FitCountFits(rows, receipts, 2, true);
    ArrayLengthBound(rows[..FitCount(rows, receipts, 2, true)], receipts);
  }

  /**
   Every job that is made can be read back: between 1 and the maximum of analyses, short enough, no negative
   score.
   */
  lemma SelectionReadable(s: State, jobId: string, now: nat)
    requires ReceiptsOk(s.receipts)
    ensures var o := NewJob(s, jobId, now);
            o.Done? ==> jobId in o.state.jobs && ReadablePayload(s.receipts, o.state.jobs[jobId])
                        && o.state.jobs[jobId].consumed >= 0.0
  {
    hide InOrder, ArrayLength, FitCount, IsSemanticRequestId;
    InOrderIsQuery(Unassigned(s), s.receipts);
    var rows, o := FirstRows(s), NewJob(s, jobId, now);
    if o.Done? {
      SelectionFits(rows, s.receipts);
      var selected := Selection(s).value;
      SumNotNegative(selected, s.receipts);
    }
  }

  lemma {:induction false} SumNotNegative(rows: seq<string>, receipts: map<string, Receipt>)
    requires (forall r | r in rows :: r in receipts) && forall r | r in receipts :: receipts[r].score >= 0.0
    ensures SumRows(rows, receipts) >= 0.0
  {
    if rows != [] { SumNotNegative(rows[..|rows| - 1], receipts); }
  }

  lemma PrefixDistinct(rows: seq<string>, n: nat)
    requires Distinct(rows) && n <= |rows|
    ensures Distinct(rows[..n]) && forall r | r in rows[..n] :: r in rows
  {
  }

  /** What an answered query of unassigned receipts gives the new job. */
  lemma FirstRowsSound(s: State)
    ensures Distinct(FirstRows(s)) && |FirstRows(s)| <= MAXIMUM_RESULTS
    ensures forall r | r in FirstRows(s) :: r in Unassigned(s)
    ensures FirstRows(s) == [] <==> Unassigned(s) == {}
  {
    InOrderIsQuery(Unassigned(s), s.receipts);
    var rows := InOrder(Unassigned(s), s.receipts);
    if Unassigned(s) != {} { var r :| r in Unassigned(s); assert r in rows; }
  }

  /**
   From linked tables with an exact score, materialisation never fails once the
   threshold exceeds the epsilon, and re-establishes the trigger.
   */
  lemma MaterializeKeeps(s: State, threshold: real, jobId: string, now: nat)
    requires Linked(s) && ScoreOk(s) && threshold > SCORE_EPSILON
    ensures var o := Materialize(s, threshold, jobId, now);
            && o.Done?
            && Inv(o.state, threshold)
            && o.state.outbox == s.outbox && o.state.receipts == s.receipts && o.state.score == s.score
            && (s.jobs != map[] ==> o.state == s.(trigger := true) && !o.value)
            && (o.value <==> s.jobs == map[] && s.score + SCORE_EPSILON >= threshold)
            && (!o.value ==> o.state == s.(trigger := o.state.trigger))
            && (o.value ==> o.state.jobs.Keys == {jobId} && NewlyMade(o.state.jobs[jobId]))
  {
    hide NewJob, OutboxOk, ReceiptsOk, JobsOk, Total;
    if s.jobs != map[] {
      var j :| j in s.jobs;
      assert s.jobs[j].terminalFailure || Active(s.jobs[j]);
    } else if s.score + SCORE_EPSILON >= threshold {
      ReachedHasReceipts(s);
      var selected := NewJobShape(s, jobId, now);
      WithJobKeeps(s, jobId, selected, now);
      assert jobId in WithJob(s, jobId, selected, now).jobs;
    }
  }

  lemma ReachedHasReceipts(s: State)
    requires Linked(s) && ScoreOk(s) && s.jobs == map[] && s.score > 0.0
    ensures s.receipts != map[] && s.assignments == map[]
  {
    assert s.receipts == map[] ==> s.receipts.Keys == {};
  }

  /** Materialisation that reaches the threshold selects a non-empty, readable prefix. */
  lemma NewJobShape(s: State, jobId: string, now: nat) returns (selected: seq<string>)
    requires ReceiptsOk(s.receipts) && s.receipts != map[] && s.assignments == map[]
    ensures Distinct(selected) && 0 < |selected| <= MAXIMUM_RESULTS
    ensures forall r | r in selected :: r in s.receipts
    ensures ArrayLength(selected, s.receipts) <= MAXIMUM_PROMPT_CHARACTERS
    ensures Selection(s) == Ok(selected) && NewJob(s, jobId, now) == Done(WithJob(s, jobId, selected, now), true)
  {
    hide SemanticIdentity, IsSemanticRequestId;
    var rows := FirstRows(s);
    FirstRowsSound(s);
    assert Unassigned(s) == s.receipts.Keys;
    hide InOrder, FirstRows;
    forall k | 0 <= k < |rows| ensures rows[k] in s.receipts && s.receipts[rows[k]].size <= MAXIMUM_RESULT_CHARACTERS {
      assert rows[k] in rows;
    }
    FitCountFits(rows, s.receipts, 2, true);
    SelectionFits(rows, s.receipts);
    var count := FitCount(rows, s.receipts, 2, true);
    hide FitCount;
    selected := rows[..count];
    PrefixDistinct(rows, count);
    assert count > 0;
  }

  lemma WithJobKeeps(s: State, jobId: string, selected: seq<string>, now: nat)
    requires Linked(s) && s.jobs == map[] && s.assignments == map[]
    requires Distinct(selected) && 0 < |selected| <= MAXIMUM_RESULTS
    requires forall r | r in selected :: r in s.receipts
    requires ArrayLength(selected, s.receipts) <= MAXIMUM_PROMPT_CHARACTERS
    ensures Linked(WithJob(s, jobId, selected, now))
  {
    hide OutboxOk, ReceiptsOk, JobsOk, JobOk, Total, SumRows, ArrayLength;
    var t := WithJob(s, jobId, selected, now);
    var ids := set r | r in selected;
    FirstJobOk(s, jobId, selected, now);
    SingleJobOk(jobId, t.jobs[jobId], ids, t.receipts);
    assert t.jobs == map[jobId := t.jobs[jobId]];
    assert t.assignments == map r | r in ids :: jobId;
  }

  /** A new job holds exactly the selected receipts and their sum. */
  lemma FirstJobOk(s: State, jobId: string, selected: seq<string>, now: nat)
    requires Distinct(selected) && 0 < |selected| <= MAXIMUM_RESULTS
    requires forall r | r in selected :: r in s.receipts
    requires ArrayLength(selected, s.receipts) <= MAXIMUM_PROMPT_CHARACTERS
    ensures var ids := set r | r in selected;
            var t := WithJob(s, jobId, selected, now);
            jobId in t.jobs && t.receipts == s.receipts && JobOk(jobId, t.jobs[jobId], ids, s.receipts)
  {
    hide Total, SumRows, ArrayLength;
    SumRowsIsTotal(selected, s.receipts);
  }

  lemma SingleJobOk(jobId: string, job: Job, ids: set<string>, receipts: map<string, Receipt>)
    requires JobOk(jobId, job, ids, receipts)
    ensures JobsOk(map[jobId := job], map r | r in ids :: jobId, receipts)
  {
    hide JobOk;
    var assignments := map r | r in ids :: jobId;
    assert AssignedTo(assignments, jobId) == ids;
    assert ids <= receipts.Keys by { JobIdsStored(jobId, job, ids, receipts); }
  }

  lemma JobIdsStored(jobId: string, job: Job, ids: set<string>, receipts: map<string, Receipt>)
    requires JobOk(jobId, job, ids, receipts)
    ensures ids <= receipts.Keys
  {
  }

  // ------------------------------------------------------------ receipts and jobs

  lemma RecordKeeps(s: State, w: string, response: Response, now: nat)
    requires Linked(s) && ScoreOk(s) && ValidResponse(response)
    requires w in s.outbox && s.outbox[w].requestId == response.requestId
    requires response.requestId !in s.receipts && !HasReceipt(s, w)
    ensures Linked(Record(s, w, response, now)) && ScoreOk(Record(s, w, response, now))
  {
    var t := Record(s, w, response, now);
    var id := response.requestId;
    assert IsSemanticRequestId(w, id) by { assert SemanticIdentity(w, s.outbox[w].semanticAttempt) == id; }
    MoreReceiptsOk(s, t.receipts[id], id);
    hide OutboxOk, ReceiptsOk, JobsOk;
    assert ScoreOk(t) by {
      assert t.receipts.Keys - {id} == s.receipts.Keys;
      TotalRemove(t.receipts.Keys, t.receipts, id);
      TotalAgrees(s.receipts.Keys, s.receipts, t.receipts);
    }
    MoreReceiptsKeepJobs(s, t.receipts);
  }

  lemma MoreReceiptsOk(s: State, receipt: Receipt, id: string)
    requires ReceiptsOk(s.receipts) && !HasReceipt(s, receipt.window) && id !in s.receipts
    requires receipt.size <= MAXIMUM_RESULT_CHARACTERS && 0.0 <= receipt.score <= 1.0
    requires IsSemanticRequestId(receipt.window, id)
    ensures ReceiptsOk(s.receipts[id := receipt])
  {
    hide IsSemanticRequestId;
  }

  /** Jobs do not notice receipts that are not theirs. */
  lemma MoreReceiptsKeepJobs(s: State, receipts: map<string, Receipt>)
    requires JobsOk(s.jobs, s.assignments, s.receipts)
    requires forall r | r in s.receipts :: r in receipts && receipts[r] == s.receipts[r]
    ensures JobsOk(s.jobs, s.assignments, receipts)
  {
    forall j | j in s.jobs ensures JobOk(j, s.jobs[j], AssignedTo(s.assignments, j), receipts) {
      assert JobOk(j, s.jobs[j], AssignedTo(s.assignments, j), s.receipts);
      TotalAgrees(AssignedTo(s.assignments, j), s.receipts, receipts);
      ArrayLengthAgrees(s.jobs[j].analyses, s.receipts, receipts);
    }
  }

  lemma {:induction false} ArrayLengthAgrees(rows: seq<string>, a: map<string, Receipt>, b: map<string, Receipt>)
    requires forall r | r in rows :: r in a && r in b && a[r] == b[r]
    ensures ArrayLength(rows, a) == ArrayLength(rows, b)
  {
    if rows != [] {
      ArrayLengthAgrees(rows[..|rows| - 1], a, b);
    }
  }

  /**
   Recording a response adds its score once: a second delivery of the same request is
   not accepted and changes nothing but the outbox row. Rejections leave the tables alone.
   */
  lemma ApplyKeeps(s: State, threshold: real, w: string, response: Response, jobId: string, now: nat, retain: bool)
    requires Inv(s, threshold) && threshold > SCORE_EPSILON
    ensures var o := Apply(s, w, response, threshold, jobId, now, retain);
            o.Done? ==>
              && Inv(o.state, threshold)
              && o.state.outbox == (if retain then s.outbox else s.outbox - {w})
              && (!o.value.accepted ==>
                    && response.requestId in s.receipts && s.receipts[response.requestId].window == w
                    && o.state.receipts == s.receipts && o.state.jobs == s.jobs && o.state.score == s.score
                    && o.state.assignments == s.assignments)
              && (o.value.accepted ==>
                    && !HasReceipt(s, w) && w in s.outbox && s.outbox[w].requestId == response.requestId
                    && response.requestId !in s.receipts
                    && o.state.receipts == s.receipts[response.requestId := Receipt(w, response.score, response.size,
                       now)]
                    && o.state.score == s.score + response.score
                    && (s.jobs != map[] ==> o.state.jobs == s.jobs && o.state.assignments == s.assignments)
                    && (s.jobs == map[] ==> forall j | j in o.state.jobs :: NewlyMade(o.state.jobs[j])))
  {
    var o := Apply(s, w, response, threshold, jobId, now, retain);
    if o.Done? {
      if o.value.accepted {
        RecordKeeps(s, w, response, now);
        MaterializeKeeps(Record(s, w, response, now), threshold, jobId, now);
        if !retain {
          RemoveOutboxKeeps(Materialize(Record(s, w, response, now), threshold, jobId, now).state, threshold, w);
        }
      } else if !retain {
        RemoveOutboxKeeps(s, threshold, w);
      }
    }
  }

  lemma AcknowledgeAppliedKeeps(s: State, threshold: real, w: string, request: string)
    requires Inv(s, threshold)
    ensures var o := AcknowledgeApplied(s, w, request);
            o.Done? ==> Inv(o.state, threshold) && o.state == WithoutOutbox(s, w) && ReceiptIs(o.state, w, request)
  {
    RemoveOutboxKeeps(s, threshold, w);
    if w !in s.outbox { assert s.outbox - {w} == s.outbox; }
  }

  lemma AcknowledgeConsumedKeeps(s: State, threshold: real, w: string, request: string)
    requires Inv(s, threshold)
    ensures var o := AcknowledgeConsumed(s, w, request);
            o.Done? ==> Inv(o.state, threshold) && o.state == WithoutOutbox(s, w)
  {
    RemoveOutboxKeeps(s, threshold, w);
    if w !in s.outbox { assert s.outbox - {w} == s.outbox; }
  }

  /** Steps that change one job's progress fields only. */
  lemma JobStepKeeps(s: State, t: State, threshold: real, id: string)
    requires Inv(s, threshold) && id in s.jobs && id in t.jobs
    requires t == s.(jobs := s.jobs[id := t.jobs[id]])
    requires t.jobs[id].analyses == s.jobs[id].analyses && t.jobs[id].consumed == s.jobs[id].consumed
    requires t.jobs[id].origin.Some? ==> t.jobs[id].origin.value == JobRequest(id, t.jobs[id].attempt + 1)
    requires t.jobs[id].status == Running ==> t.jobs[id].runId.Some? && t.jobs[id].origin.Some?
    ensures Inv(t, threshold)
  {
    assert AssignedTo(t.assignments, id) == AssignedTo(s.assignments, id);
    assert JobOk(id, s.jobs[id], AssignedTo(s.assignments, id), s.receipts);
    assert forall j | j in s.jobs :: j == id;
  }

  lemma ClaimKeeps(s: State, threshold: real, id: string, run: string, now: nat)
    requires Inv(s, threshold)
    ensures var o := Claim(s, id, run, now);
            o.Done? ==>
              && Inv(o.state, threshold) && o.state == s.(jobs := map[id := o.value])
              && RunningAs(o.state, id, Some(run))
              && o.value.attempt == s.jobs[id].attempt
              && JobRequestOf(id, o.value) == JobRequest(id, s.jobs[id].attempt + 1)
  {
    hide Total, OutboxOk, ReceiptsOk, ReadablePayload;
    var o := Claim(s, id, run, now);
    if o.Done? {
      assert JobOk(id, s.jobs[id], AssignedTo(s.assignments, id), s.receipts);
      JobStepKeeps(s, o.state, threshold, id);
      assert o.state.jobs == map[id := o.value];
    }
  }

  /** A transport retry keeps the request id; invalid output moves to a fresh one. */
  lemma DeferJobKeeps(s: State, threshold: real, id: string, run: string, next: nat, advance: bool)
    requires Inv(s, threshold)
    ensures var o := DeferJob(s, id, run, next, advance);
            o.Done? ==>
              && Inv(o.state, threshold) && id in o.state.jobs && id in s.jobs
              && o.state == s.(jobs := s.jobs[id := o.state.jobs[id]])
              && o.state.jobs[id].status == RetryWait
              && o.state.jobs[id].attempt == s.jobs[id].attempt + (if advance then 1 else 0)
              && (JobRequestOf(id, o.state.jobs[id]) == JobRequestOf(id, s.jobs[id]) <==> !advance)
  {
    var o := DeferJob(s, id, run, next, advance);
    if o.Done? {
      assert JobOk(id, s.jobs[id], AssignedTo(s.assignments, id), s.receipts);
      JobStepKeeps(s, o.state, threshold, id);
    }
  }

  lemma FailJobKeeps(s: State, threshold: real, id: string, run: Option<string>)
    requires Inv(s, threshold)
    ensures var o := FailJob(s, id, run);
            o.Done? ==> Inv(o.state, threshold) && id in o.state.jobs && id in s.jobs
                        && o.state == s.(jobs := s.jobs[id := o.state.jobs[id]])
                        && o.state.jobs[id].status == RetryWait && o.state.jobs[id].terminalFailure
                        && o.state.jobs[id].attempt == s.jobs[id].attempt
  {
    var o := FailJob(s, id, run);
    if o.Done? {
      assert JobOk(id, s.jobs[id], AssignedTo(s.assignments, id), s.receipts);
      JobStepKeeps(s, o.state, threshold, id);
    }
  }

  /** What is left after a job leaves: its receipts are gone and the rest keep their sum. */
  lemma ReleaseKeeps(s: State, threshold: real, id: string, x: real)
    requires Inv(s, threshold) && id in s.jobs
    ensures var rest := s.score - s.jobs[id].consumed;
            var t := Release(s, id, x);
            && rest == Total(s.receipts.Keys - AssignedTo(s.assignments, id), s.receipts)
            && rest == Total(t.receipts.Keys, t.receipts) && rest >= 0.0
            && Linked(t) && t.jobs == map[] && t.assignments == map[]
  {
    var ids := AssignedTo(s.assignments, id);
    assert JobOk(id, s.jobs[id], ids, s.receipts);
    var t := Release(s, id, x);
    TotalSplit(s.receipts.Keys, ids, s.receipts);
    TotalNonNegative(s.receipts.Keys - ids, s.receipts);
    assert t.receipts.Keys == s.receipts.Keys - ids;
    TotalAgrees(t.receipts.Keys, s.receipts, t.receipts);
    assert t.jobs == map[] by { assert forall j | j in s.jobs :: j == id; }
    assert t.assignments == map[] by { assert forall r | r in s.assignments :: r in ids; }
  }

  /**
   Completing a running job always succeeds: the corrupt-score error is unreachable. It
   deletes exactly the job's receipts, takes exactly their score off the accumulator and
   leaves the outbox alone.
   */
  lemma CompleteKeeps(s: State, threshold: real, id: string, run: string, nextJob: string, now: nat)
    requires Inv(s, threshold) && threshold > SCORE_EPSILON
    requires ResolvableScores(s.receipts)
    ensures Complete(s, id, run, threshold, nextJob, now).Done? <==> RunningAs(s, id, Some(run))
    ensures var o := Complete(s, id, run, threshold, nextJob, now);
            o.Done? ==>
              && Inv(o.state, threshold)
              && o.state.outbox == s.outbox
              && o.state.receipts == s.receipts - AssignedTo(s.assignments, id)
              && o.state.score == s.score - s.jobs[id].consumed
              && s.jobs[id].consumed == Total(AssignedTo(s.assignments, id), s.receipts)
              && (forall j | j in o.state.jobs :: NewlyMade(o.state.jobs[j]))
  {
    hide Materialize, OutboxOk, ReceiptsOk, JobsOk, Total, ResolvableScores;
    if RunningAs(s, id, Some(run)) {
      ReleaseExact(s, threshold, id);
      var t := Release(s, id, s.score - s.jobs[id].consumed);
      MaterializeKeeps(t, threshold, nextJob, now);
      PendingOnly(t, threshold, nextJob, now);
    }
  }

  /** With resolvable scores the snap to zero changes nothing. */
  lemma ReleaseExact(s: State, threshold: real, id: string)
    requires Inv(s, threshold) && ResolvableScores(s.receipts) && id in s.jobs
    ensures var rest := s.score - s.jobs[id].consumed;
            var t := Release(s, id, rest);
            && rest >= 0.0 && SnapToZero(rest) == rest
            && s.jobs[id].consumed == Total(AssignedTo(s.assignments, id), s.receipts)
            && Linked(t) && ScoreOk(t) && t.jobs == map[]
  {
    hide OutboxOk, ReceiptsOk;
    var rest := s.score - s.jobs[id].consumed;
    ReleaseKeeps(s, threshold, id, rest);
    assert JobOk(id, s.jobs[id], AssignedTo(s.assignments, id), s.receipts);
    TotalResolvable(s.receipts.Keys - AssignedTo(s.assignments, id), s.receipts);
  }

  lemma PendingOnly(t: State, threshold: real, jobId: string, now: nat)
    requires Linked(t) && ScoreOk(t) && threshold > SCORE_EPSILON && t.jobs == map[]
    ensures var o := Materialize(t, threshold, jobId, now);
            o.Done? && forall j | j in o.state.jobs :: NewlyMade(o.state.jobs[j])
  {
    hide Materialize, OutboxOk, ReceiptsOk, JobsOk, Total;
    MaterializeKeeps(t, threshold, jobId, now);
    var o := Materialize(t, threshold, jobId, now);
    if o.value {
      forall j | j in o.state.jobs ensures NewlyMade(o.state.jobs[j]) {
        assert j in o.state.jobs.Keys;
      }
    }
  }

  lemma MaterializeLeavesReceipts(t: State, threshold: real, jobId: string, now: nat)
    ensures var o := Materialize(t, threshold, jobId, now);
            o.Done? ==> o.state.receipts == t.receipts && o.state.score == t.score
  {
    hide Selection;
  }

  /**
   Without the assumption on scores the snap to zero can drop a receipt's share: after
   completion the accumulator is the stored sum exactly when the remaining score is zero
   or above the epsilon.
   */
  lemma CompleteKeepsSumIff(s: State, threshold: real, id: string, run: string, nextJob: string, now: nat)
    requires Inv(s, threshold) && threshold > SCORE_EPSILON && RunningAs(s, id, Some(run))
    ensures var rest := s.score - s.jobs[id].consumed;
            var o := Complete(s, id, run, threshold, nextJob, now);
            o.Done? && (ScoreOk(o.state) <==> rest == 0.0 || rest > SCORE_EPSILON)
  {
    hide Materialize, OutboxOk, ReceiptsOk, JobsOk, Total;
    var rest := s.score - s.jobs[id].consumed;
    var t := Release(s, id, SnapToZero(rest));
    ReleaseKeeps(s, threshold, id, SnapToZero(rest));
    MaterializeLeavesReceipts(t, threshold, nextJob, now);
    if rest > SCORE_EPSILON {
      MaterializeKeeps(t, threshold, nextJob, now);
    } else {
      NothingToDo(t, threshold, nextJob, now);
    }
  }

  lemma NothingToDo(t: State, threshold: real, jobId: string, now: nat)
    requires t.jobs == map[] && t.score == 0.0 && threshold > SCORE_EPSILON
    ensures Materialize(t, threshold, jobId, now).Done?
  {
    hide NewJob;
  }

  lemma {:induction false} TotalNonNegative(ids: set<string>, receipts: map<string, Receipt>)
    requires ids <= receipts.Keys && forall id | id in ids :: receipts[id].score >= 0.0
    ensures Total(ids, receipts) >= 0.0
    decreases ids
  {
    if ids != {} {
      var x :| x in ids;
      TotalRemove(ids, receipts, x);
      TotalNonNegative(ids - {x}, receipts);
    }
  }

  lemma TotalOne(id: string, receipts: map<string, Receipt>)
    requires id in receipts
    ensures Total({id}, receipts) == receipts[id].score
  {
    TotalRemove({id}, receipts, id);
    assert {id} - {id} == {};
  }

  /** One receipt of score 1 held by a running job, and one of half an epsilon that came later. */
  ghost function DriftLedger(): State {
    var a, b := SemanticIdentity("a", 0), SemanticIdentity("b", 0);
    var half := SCORE_EPSILON / 2.0;
    State(map[], map[a := Receipt("a", 1.0, 10, 0), b := Receipt("b", half, 10, 1)],
          map["j" := Job(Running, Some("r"), [a], 1.0, 0, 0, Some(JobRequest("j", 1)), false, 0)],
          map[a := "j"], 1.0 + half, true)
  }

  lemma DriftLedgerOk()
    ensures Inv(DriftLedger(), 1.0) && RunningAs(DriftLedger(), "j", Some("r"))
    ensures AssignedTo(DriftLedger().assignments, "j") == {SemanticIdentity("a", 0)}
    ensures SemanticIdentity("a", 0) != SemanticIdentity("b", 0)
  {
    var s := DriftLedger();
    var a, b := SemanticIdentity("a", 0), SemanticIdentity("b", 0);
    IdentityCollides("a", 0, "b", 0);
    assert IsSemanticRequestId("a", a) && IsSemanticRequestId("b", b);
    hide SemanticIdentity, IsSemanticRequestId;
    assert s.receipts.Keys == {a, b};
    TotalRemove({a, b}, s.receipts, a);
    assert {a, b} - {a} == {b};
    TotalOne(a, s.receipts);
    TotalOne(b, s.receipts);
    assert AssignedTo(s.assignments, "j") == {a};
    assert [a][..0] == [] && (set r | r in [a]) == {a};
    assert ArrayLength([a], s.receipts) == 10;
    assert JobOk("j", s.jobs["j"], {a}, s.receipts);
  }

  /** Completing that job leaves a zero accumulator beside a stored positive receipt. */
  lemma SnapDriftExample()
    ensures var o := Complete(DriftLedger(), "j", "r", 1.0, "k", 0);
            o.Done? && o.state.score == 0.0 && Total(o.state.receipts.Keys, o.state.receipts) > 0.0
  {
    DriftLedgerOk();
    var s := DriftLedger();
    var b := SemanticIdentity("b", 0);
    hide SemanticIdentity;
    var t := Release(s, "j", 0.0);
    assert t.receipts.Keys == {b};
    TotalOne(b, t.receipts);
    hide NewJob, Total;
    assert t.jobs == map[];
    assert Complete(s, "j", "r", 1.0, "k", 0) == Done(t, false);
  }

  /** On a ledger without jobs, materialisation fails for want of receipts exactly when none is stored. */
  lemma MaterializeFailsIff(s: State, threshold: real, jobId: string, now: nat)
    requires Linked(s) && ScoreOk(s) && s.jobs == map[]
    ensures Materialize(s, threshold, jobId, now).Failed? <==>
              s.receipts == map[] && threshold <= SCORE_EPSILON
  {
    assert s.assignments == map[];
    assert Unassigned(s) == s.receipts.Keys;
    FirstRowsSound(s);
    if s.receipts == map[] {
      assert s.receipts.Keys == {};
    } else if s.score + SCORE_EPSILON >= threshold {
      var rows := FirstRows(s);
      FitCountFits(rows, s.receipts, 2, true);
      assert rows[0] in rows;
      forall k | 0 <= k < |rows| ensures s.receipts[rows[k]].size <= MAXIMUM_RESULT_CHARACTERS {
        assert rows[k] in rows;
      }
    }
  }

  lemma ClearKeeps(s: State, threshold: real)
    requires threshold > SCORE_EPSILON
    ensures Inv(Clear(s).state, threshold) && Clear(s).state == EMPTY
  {
    assert EMPTY.receipts.Keys == {};
  }
}
