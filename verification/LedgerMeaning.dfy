/**
 What the ledger's transactions do, said without their own helpers: which receipts a new job takes,
 and exactly when a transaction succeeds on a ledger that meets the invariant.
 */
module LedgerMeaning {
  import opened Wrappers
  import opened TextOrder
  import opened Ledger
  import opened LedgerInvariant

  // ------------------------------------------------------------ the next job

  /** A stored receipt that no job holds. */
  predicate Free(s: State, r: string) {
    r in s.receipts && r !in s.assignments
  }

  /** Received earlier, or at the same time under a smaller request id. */
  predicate Older(s: State, a: string, b: string)
    requires a in s.receipts && b in s.receipts
  {
    var x, y := s.receipts[a].receivedAt, s.receipts[b].receivedAt;
    x < y || (x == y && TextLess(a, b))
  }

  ghost predicate OldestFree(s: State, rows: seq<string>, u: string) {
    && Free(s, u) && u !in rows
    && forall v | Free(s, v) && v !in rows && v != u :: Older(s, u, v)
  }

  /** Free receipts in order of age, and nothing older left out. */
  ghost predicate Oldest(s: State, rows: seq<string>) {
    && (forall i | 0 <= i < |rows| :: Free(s, rows[i]))
    && (forall i, j | 0 <= i < j < |rows| :: Older(s, rows[i], rows[j]))
    && (forall u, i | Free(s, u) && u !in rows && 0 <= i < |rows| :: Older(s, rows[i], u))
  }

  /**
   The oldest free receipts, as many as fit: at most 512, at most 48 Ki characters with brackets and
   commas, and the oldest one left out would break one of the two limits.
   */
  ghost predicate OldestThatFit(s: State, rows: seq<string>) {
    && Oldest(s, rows) && 0 < |rows| <= 512
    && 2 + RowsLength(rows, s.receipts, true) <= 48 * 1024
    && (|rows| == 512 ||
        forall u | OldestFree(s, rows, u) :: 2 + RowsLength(rows + [u], s.receipts, true) > 48 * 1024)
  }

  lemma InOrderOldest(s: State)
    ensures var all := InOrder(Unassigned(s), s.receipts); Oldest(s, all) && forall u | Free(s, u) :: u in all
  {
    InOrderIsQuery(Unassigned(s), s.receipts);
    var all := InOrder(Unassigned(s), s.receipts);
    hide InOrder, TextLess;
    forall i | 0 <= i < |all| ensures Free(s, all[i]) {
      assert all[i] in all;
    }
    forall i, j | 0 <= i < j < |all| ensures Older(s, all[i], all[j]) {
      assert Earlier(s.receipts, all[i], all[j]);
    }
  }

  lemma FirstRowsOldest(s: State)
    ensures Oldest(s, FirstRows(s)) && |FirstRows(s)| <= 512
    ensures |FirstRows(s)| < 512 ==> forall u | Free(s, u) :: u in FirstRows(s)
  {
    InOrderOldest(s);
    var all := InOrder(Unassigned(s), s.receipts);
    hide InOrder, Oldest, Older;
    if |all| > 512 { PrefixOldest(s, all, 512); }
  }

  lemma PrefixOldest(s: State, rows: seq<string>, n: nat)
    requires Oldest(s, rows) && n <= |rows|
    ensures Oldest(s, rows[..n])
    ensures n < |rows| ==> OldestFree(s, rows[..n], rows[n])
  {
    hide TextLess;
    var front := rows[..n];
    assert forall k | 0 <= k < n :: front[k] == rows[k] && rows[k] in front;
    forall u, i | Free(s, u) && u !in front && 0 <= i < |front| ensures Older(s, front[i], u) {
      if u in rows {
        var k :| 0 <= k < |rows| && rows[k] == u;
      }
    }
    if n < |rows| {
      NotAmong(s, rows, n);
      forall v | Free(s, v) && v !in front && v != rows[n] ensures Older(s, rows[n], v) {
        if v in rows {
          var k :| 0 <= k < |rows| && rows[k] == v;
        }
      }
    }
  }

  lemma NotAmong(s: State, rows: seq<string>, n: nat)
    requires Oldest(s, rows) && n < |rows|
    ensures rows[n] !in rows[..n]
  {
    hide TextLess;
    forall i | 0 <= i < n ensures rows[i] != rows[n] {
      TextTotal(rows[i], rows[n]);
    }
  }

  /** The oldest receipt left out is one in particular. */
  lemma OneOldest(s: State, rows: seq<string>, u: string, v: string)
    requires OldestFree(s, rows, u) && OldestFree(s, rows, v)
    ensures u == v
  {
    TextTotal(u, v);
  }

  lemma {:induction false} FitCountLongest(rows: seq<string>, receipts: map<string, Receipt>, length: nat, first: bool)
    requires forall r | r in rows :: r in receipts
    ensures var n := FitCount(rows, receipts, length, first);
            n < |rows| ==> length + RowsLength(rows[..n + 1], receipts, first) > 48 * 1024
    decreases |rows|
  {
    if rows != [] {
      var next := length + receipts[rows[0]].size + (if first then 0 else 1);
      if next <= 48 * 1024 {
        FitCountLongest(rows[1..], receipts, next, false);
        var n := FitCount(rows, receipts, length, first);
        if n < |rows| { assert rows[..n + 1][1..] == rows[1..][..n]; }
      } else {
        assert rows[..1][1..] == [];
      }
    }
  }

  /** Selection takes the oldest free receipts that fit. */
  lemma SelectionMeans(s: State)
    requires Selection(s).Ok?
    ensures OldestThatFit(s, Selection(s).value)
  {
    var rows := FirstRows(s);
    FirstRowsOldest(s);
    var n := FitCount(rows, s.receipts, 2, true);
    FitCountFits(rows, s.receipts, 2, true);
    FitCountLongest(rows, s.receipts, 2, true);
    PrefixOldest(s, rows, n);
    hide FirstRows, FitCount, Oldest, OldestFree, RowsLength, Free;
    var sel := Selection(s).value;
    assert sel == rows[..n];
    assert n == |rows| ==> sel == rows;
    if |sel| < 512 {
      forall u | OldestFree(s, sel, u) ensures 2 + RowsLength(sel + [u], s.receipts, true) > 48 * 1024 {
        if n < |rows| {
          OneOldest(s, sel, u, rows[n]);
          assert rows[..n + 1] == sel + [u];
        } else {
          LeftOutIsFree(s, sel, u);
          assert false;
        }
      }
    }
  }

  lemma LeftOutIsFree(s: State, rows: seq<string>, u: string)
    requires OldestFree(s, rows, u)
    ensures Free(s, u) && u !in rows
  {
  }

  /** A new job holds the oldest free receipts that fit, their sum, and is due at once at attempt 0. */
  lemma JobMeans(s: State, threshold: real, jobId: string, now: nat)
    requires Linked(s) && ScoreOk(s) && threshold > SCORE_EPSILON
    ensures var o := Materialize(s, threshold, jobId, now);
            o.Done? && o.value ==>
              && jobId in o.state.jobs
              && var job := o.state.jobs[jobId];
                 && OldestThatFit(s, job.analyses)
                 && job.consumed == Total((set r | r in job.analyses), s.receipts)
                 && (forall r :: r in o.state.assignments <==> r in s.assignments || r in job.analyses)
                 && (forall r | r in job.analyses :: o.state.assignments[r] == jobId)
                 && job.status == Pending && job.runId.None? && job.attempt == 0 && job.transportAttempt == 0
                 && job.origin == Some(JobRequest(jobId, 1)) && !job.terminalFailure && job.nextAttemptAt == now
  {
    MaterializeKeeps(s, threshold, jobId, now);
    hide Linked, ScoreOk, Inv, Total, Selection, SumRows;
    var o := Materialize(s, threshold, jobId, now);
    if o.Done? && o.value {
      SelectionMeans(s);
      var sel := Selection(s).value;
      OldestDistinct(s, sel);
      SumRowsIsTotal(sel, s.receipts);
    }
  }

  lemma OldestDistinct(s: State, rows: seq<string>)
    requires OldestThatFit(s, rows)
    ensures Distinct(rows)
  {
    hide TextLess, RowsLength;
    forall i, j | 0 <= i < j < |rows| ensures rows[i] != rows[j] {
      TextTotal(rows[i], rows[j]);
    }
  }

  // ------------------------------------------------------- when they succeed

  /** No stored row carries the identity text. */
  predicate IdentityFree(s: State, w: string, attempt: nat)
    requires attempt < 3
  {
    forall v | v in s.outbox :: s.outbox[v].requestId != SemanticIdentity(w, attempt)
  }

  /** A window is taken in unless it is known; only a changed payload or a taken identity is refused. */
  lemma EnqueueExact(s: State, threshold: real, w: string, payload: string, now: nat)
    requires Inv(s, threshold)
    ensures var o := Enqueue(s, w, payload, now);
            var known := HasReceipt(s, w) || w in s.outbox;
            && (o.Failed? <==> !HasReceipt(s, w) && if w in s.outbox then s.outbox[w].payload != payload
                                                    else !IdentityFree(s, w, 0))
            && (o.Done? ==> o.value == !known)
            && (o.Done? && o.value ==>
                  o.state.outbox[w] == OutboxRow(SemanticIdentity(w, 0), 0, payload, now, 0, now, false))
  {
    EnqueueKeeps(s, threshold, w, payload, now);
    hide Total, JobsOk, SemanticIdentity, ScoreOk;
    if w in s.outbox {
      RowIdentity(s.outbox, w);
      assert IsSemanticRequestId(w, s.outbox[w].requestId);
    }
  }

  /** A retry waits until the given time and keeps everything else of its row. */
  lemma DeferExact(s: State, w: string, next: nat)
    ensures var o := Defer(s, w, next);
            && (o.Done? <==> w in s.outbox && !s.outbox[w].terminal)
            && (o.Done? ==> o.state.outbox[w] == s.outbox[w].(attempt := s.outbox[w].attempt + 1, nextAttemptAt := next)
                            && o.state == s.(outbox := s.outbox[w := o.state.outbox[w]]))
  {
  }

  /** Invalid output is recorded exactly for the request that was asked, if its next identity is free. */
  lemma AdvanceExact(s: State, threshold: real, w: string, request: string, nextAt: nat)
    requires Inv(s, threshold) && w in s.outbox
    ensures var row := s.outbox[w];
            var o := AdvanceSemanticAttempt(s, w, request, nextAt, NextRequest(w, row.semanticAttempt));
            && (o.Done? <==> && !row.terminal && row.requestId == request
                             && (row.semanticAttempt == 2 || IdentityFree(s, w, row.semanticAttempt + 1)))
            && (o.Done? && row.semanticAttempt < 2 ==>
                  o.state.outbox[w] == row.(requestId := SemanticIdentity(w, row.semanticAttempt + 1),
                                            semanticAttempt := row.semanticAttempt + 1,
                                            attempt := row.attempt + 1, nextAttemptAt := nextAt))
            && (o.Done? && row.semanticAttempt == 2 ==>
                  o.state.outbox[w] == row.(attempt := row.attempt + 1, terminal := true))
  {
    hide Total, JobsOk, ReceiptsOk, SemanticIdentity, ScoreOk;
    RowIdentity(s.outbox, w);
    var a := s.outbox[w].semanticAttempt;
    if a < 2 && IdentityFree(s, w, a + 1) { assert s.outbox[w].requestId != SemanticIdentity(w, a + 1); }
  }

  /** A response is applied exactly if it is valid, answers the row, and neither id nor window is spoken for. */
  lemma ApplyExact(s: State, threshold: real, w: string, r: Response, jobId: string, now: nat, retain: bool)
    requires Inv(s, threshold) && threshold > SCORE_EPSILON
    ensures var o := Apply(s, w, r, threshold, jobId, now, retain);
            && (o.Done? <==> && 0.0 <= r.score <= 1.0 && r.size <= 16 * 1024
                             && w in s.outbox && s.outbox[w].requestId == r.requestId
                             && if r.requestId in s.receipts then s.receipts[r.requestId].window == w
                                else !HasReceipt(s, w))
            && (o.Done? ==> o.value.accepted == (r.requestId !in s.receipts))
            && (o.Done? ==>
                  o.value.triggerBecamePending == (o.value.accepted && s.jobs == map[] && o.state.jobs != map[]))
  {
    hide Materialize, Inv, Linked, ScoreOk, HasReceipt, Record;
    LinkedScore(s, threshold);
    if ValidResponse(r) && w in s.outbox && s.outbox[w].requestId == r.requestId && r.requestId !in s.receipts
       && !HasReceipt(s, w) {
      RecordKeeps(s, w, r, now);
      MaterializeKeeps(Record(s, w, r, now), threshold, jobId, now);
      RecordJobs(s, w, r, now);
    }
  }

  lemma LinkedScore(s: State, threshold: real)
    requires Inv(s, threshold)
    ensures Linked(s) && ScoreOk(s)
  {
    hide Linked, ScoreOk;
  }

  lemma RecordJobs(s: State, w: string, r: Response, now: nat)
    ensures Record(s, w, r, now).jobs == s.jobs
  {
  }

  /** Only a receipt of the very request lets a row go; a row under another request stays. */
  lemma AcknowledgeExact(s: State, w: string, request: string)
    ensures AcknowledgeApplied(s, w, request).Done? <==>
              && request in s.receipts && s.receipts[request].window == w
              && (w in s.outbox ==> s.outbox[w].requestId == request)
    ensures AcknowledgeConsumed(s, w, request).Done? <==>
              (w in s.outbox ==>
                 s.outbox[w].requestId == request && forall id | id in s.receipts :: s.receipts[id].window != w)
  {
  }

  /** A job is claimed exactly if it is pending or its waiting time is over; nothing else of it changes. */
  lemma ClaimExact(s: State, threshold: real, id: string, run: string, now: nat)
    requires Inv(s, threshold)
    ensures var o := Claim(s, id, run, now);
            && (o.Done? <==> && id in s.jobs
                             && (s.jobs[id].status == Pending
                                 || (s.jobs[id].status == RetryWait && s.jobs[id].nextAttemptAt <= now)))
            && (o.Done? ==> o.value == s.jobs[id].(status := Running, runId := Some(run),
                                                   origin := Some(JobRequest(id, s.jobs[id].attempt + 1))))
  {
    ClaimKeeps(s, threshold, id, run, now);
    hide Inv;
  }

  /** A run is put off or failed only by its own id; invalid output starts the transport count afresh. */
  lemma JobEndsExact(s: State, id: string, run: string, next: nat, advance: bool)
    ensures var o := DeferJob(s, id, run, next, advance);
            && (o.Done? <==> id in s.jobs && s.jobs[id].status == Running && s.jobs[id].runId == Some(run))
            && (o.Done? ==>
                  && o.state.jobs[id].nextAttemptAt == next && o.state.jobs[id].runId.None?
                  && o.state.jobs[id].transportAttempt == (if advance then 0 else s.jobs[id].transportAttempt + 1)
                  && o.state.jobs[id].terminalFailure == s.jobs[id].terminalFailure
                  && o.state.jobs[id].analyses == s.jobs[id].analyses
                  && o.state.jobs[id].consumed == s.jobs[id].consumed)
    ensures var o := FailJob(s, id, Some(run));
            && (o.Done? <==> id in s.jobs && s.jobs[id].status == Running && s.jobs[id].runId == Some(run))
            && (o.Done? ==> o.state.jobs[id] == s.jobs[id].(status := RetryWait, terminalFailure := true))
  {
  }
}
