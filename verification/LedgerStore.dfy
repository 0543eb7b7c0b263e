/**
 The ledger as the object that owns its tables. Each method works in place, statement by
 statement, and is proved to have the effect of the transaction it stands for: on success
 the new tables and value, on failure unchanged tables and the error.
 */
module LedgerStore {
  import opened Wrappers
  import opened Ledger

  ghost predicate Effect<T>(before: State, after: State, r: Result<T>, o: Outcome<T>) {
    match o
    case Done(s, v) => after == s && r == Ok(v)
    case Failed(e) => after == before && r == Err(e)
  }

  class ActivityWindowDeliveryStore {
    var outbox: map<string, OutboxRow>
    var receipts: map<string, Receipt>
    var jobs: map<string, Job>
    var assignments: map<string, string>
    var accumulatedScore: real
    var triggerPending: bool

    function Contents(): State
      reads this
    {
      State(outbox, receipts, jobs, assignments, accumulatedScore, triggerPending)
    }

    constructor ()
      ensures Contents() == EMPTY
    {
      outbox, receipts, jobs, assignments := map[], map[], map[], map[];
      accumulatedScore, triggerPending := 0.0, false;
    }

    method RollBack(saved: State)
      modifies this
      ensures Contents() == saved
    {
      outbox, receipts, jobs, assignments := saved.outbox, saved.receipts, saved.jobs, saved.assignments;
      accumulatedScore, triggerPending := saved.score, saved.trigger;
    }

    method EnqueueWindow(w: string, payload: string, now: nat) returns (r: Result<bool>)
      modifies this
      ensures Effect(old(Contents()), Contents(), r, Enqueue(old(Contents()), w, payload, now))
    {
      if exists id | id in receipts :: receipts[id].window == w {
        if exists id | id in receipts :: receipts[id].window == w && !IsSemanticRequestId(w, id) {
          return Err("request id collision");
        }
        return Ok(false);
      }
      if w in outbox {
        var existing := outbox[w];
        if existing.payload != payload || !IsSemanticRequestId(w, existing.requestId) {
          return Err("outbox collision");
        }
        if existing.semanticAttempt >= MAXIMUM_SEMANTIC_ATTEMPTS { return Err("semantic attempt is corrupt"); }
        if SemanticIdentity(w, existing.semanticAttempt) != existing.requestId {
          return Err("semantic identity mismatch");
        }
        return Ok(false);
      }
      var id := SemanticIdentity(w, 0);
      if exists v | v in outbox :: outbox[v].requestId == id { return Err("UNIQUE constraint failed"); }
      outbox := outbox[w := OutboxRow(id, 0, payload, now, 0, now, false)];
      return Ok(true);
    }

    method DeferWindow(w: string, nextAttemptAt: nat) returns (r: Result<()>)
      modifies this
      ensures Effect(old(Contents()), Contents(), r, Defer(old(Contents()), w, nextAttemptAt))
    {
      if w !in outbox || outbox[w].terminal { return Err("unknown outbox record"); }
      var row := outbox[w];
      outbox := outbox[w := row.(attempt := row.attempt + 1, nextAttemptAt := nextAttemptAt)];
      return Ok(());
    }

    method MarkWindowTerminal(w: string) returns (r: Result<()>)
      modifies this
      ensures Effect(old(Contents()), Contents(), r, MarkTerminal(old(Contents()), w))
    {
      if w !in outbox || outbox[w].terminal { return Err("unknown outbox record"); }
      var row := outbox[w];
      outbox := outbox[w := row.(attempt := row.attempt + 1, terminal := true)];
      return Ok(());
    }

    method AdvanceAttempt(w: string, current: string, nextAt: nat, next: Option<string>) returns (r: Result<Advanced>)
      modifies this
      ensures Effect(old(Contents()), Contents(), r, AdvanceSemanticAttempt(old(Contents()), w, current, nextAt, next))
    {
      if w !in outbox || outbox[w].terminal || outbox[w].requestId != current {
        return Err("semantic attempt identity mismatch");
      }
      var row := outbox[w];
      if row.semanticAttempt >= MAXIMUM_SEMANTIC_ATTEMPTS { return Err("semantic attempt is corrupt"); }
      var following := row.semanticAttempt + 1;
      if following >= MAXIMUM_SEMANTIC_ATTEMPTS {
        if next.Some? { return Err("terminal attempt cannot carry a new request"); }
        outbox := outbox[w := row.(attempt := row.attempt + 1, terminal := true)];
        return Ok(Advanced(true, row.semanticAttempt));
      }
      if next.None? { return Err("a retryable attempt requires a new request"); }
      if next.value == current { return Err("a retry must use a new request id"); }
      if exists v | v in outbox :: outbox[v].requestId == next.value { return Err("UNIQUE constraint failed"); }
      outbox := outbox[w := row.(requestId := next.value, semanticAttempt := following,
                                 attempt := row.attempt + 1, nextAttemptAt := nextAt)];
      return Ok(Advanced(false, following));
    }

    method ApplyResponse(w: string, response: Response, threshold: real, jobId: string, now: nat, retain: bool)
      returns (r: Result<Applied>)
      modifies this
      ensures Effect(old(Contents()), Contents(), r, Apply(old(Contents()), w, response, threshold, jobId, now, retain))
    {
      if !ValidResponse(response) { return Err("invalid response"); }
      if w !in outbox || outbox[w].requestId != response.requestId { return Err("no matching outbox record"); }
      if response.requestId in receipts {
        if receipts[response.requestId].window != w { return Err("request id collision"); }
        if !retain { outbox := outbox - {w}; }
        return Ok(Applied(false, false));
      }
      if exists id | id in receipts :: receipts[id].window == w {
        return Err("window was associated with another request");
      }
      var saved := Contents();
      receipts := receipts[response.requestId := Receipt(w, response.score, response.size, now)];
      accumulatedScore := accumulatedScore + response.score;
      assert Contents() == Record(saved, w, response, now);
      var became := MaterializeJob(threshold, jobId, now);
      if became.Err? {
        RollBack(saved);
        return Err(became.error);
      }
      if !retain { outbox := outbox - {w}; }
      return Ok(Applied(true, became.value));
    }

    method AcknowledgeAppliedWindow(w: string, request: string) returns (r: Result<()>)
      modifies this
      ensures Effect(old(Contents()), Contents(), r, AcknowledgeApplied(old(Contents()), w, request))
    {
      if request !in receipts || receipts[request].window != w {
        return Err("receipt is missing during acknowledgement");
      }
      if w !in outbox { return Ok(()); }
      if outbox[w].requestId != request { return Err("acknowledgement identity mismatch"); }
      outbox := outbox - {w};
      return Ok(());
    }

    method AcknowledgeConsumedWindow(w: string, request: string) returns (r: Result<()>)
      modifies this
      ensures Effect(old(Contents()), Contents(), r, AcknowledgeConsumed(old(Contents()), w, request))
    {
      if w !in outbox { return Ok(()); }
      if outbox[w].requestId != request { return Err("consumed window identity mismatch"); }
      if exists id | id in receipts :: receipts[id].window == w { return Err("consumed window still has a receipt"); }
      outbox := outbox - {w};
      return Ok(());
    }

    /** Builds a job from the oldest unassigned receipts once the score reaches the threshold. */
    method MaterializeJob(threshold: real, jobId: string, now: nat) returns (r: Result<bool>)
      modifies this
      ensures Effect(old(Contents()), Contents(), r, Materialize(old(Contents()), threshold, jobId, now))
    {
      if (exists j | j in jobs :: jobs[j].terminalFailure) || (exists j | j in jobs :: Active(jobs[j])) {
        triggerPending := true;
        return Ok(false);
      }
      if accumulatedScore + SCORE_EPSILON < threshold {
        triggerPending := false;
        return Ok(false);
      }
      var selection := SelectReceipts();
      if selection.Err? { return Err(selection.error); }
      var selected := selection.value;
      jobs := jobs[jobId := Job(Pending, None, selected, SumRows(selected, receipts), 0, 0,
                                Some(JobRequest(jobId, 1)), false, now)];
      AssignReceipts(selected, jobId);
      triggerPending := true;
      return Ok(true);
    }

    method SelectReceipts() returns (r: Result<seq<string>>)
      ensures r == Selection(Contents())
    {
      var rows := FirstRows(Contents());
      InOrderIsQuery(Unassigned(Contents()), receipts);
      if rows == [] { return Err("score has no unprocessed receipts"); }
      r := TakeFitting(rows);
    }

    method TakeFitting(rows: seq<string>) returns (r: Result<seq<string>>)
      requires forall id | id in rows :: id in receipts
      ensures r == Fitting(rows, receipts)
    {
      var selected: seq<string>, serializedLength: nat, k := [], 2, 0;
      ghost var count := FitCount(rows, receipts, 2, true);
      while k < |rows|
        invariant 0 <= k <= |rows| && selected == rows[..k]
        invariant count == k + FitCount(rows[k..], receipts, serializedLength, k == 0)
        invariant forall i | 0 <= i < k :: receipts[rows[i]].size <= MAXIMUM_RESULT_CHARACTERS
      {
        var size := receipts[rows[k]].size;
        assert rows[k..][0] == rows[k] && rows[k..][1..] == rows[k + 1..];
        if size > MAXIMUM_RESULT_CHARACTERS { return Err("result exceeds the payload limit"); }
        var nextLength := serializedLength + size + (if |selected| == 0 then 0 else 1);
        if nextLength > MAXIMUM_PROMPT_CHARACTERS { break; }
        selected := selected + [rows[k]];
        serializedLength := nextLength;
        k := k + 1;
      }
      assert count == k;
      if |selected| == 0 { return Err("no prompt-safe receipts"); }
      return Ok(selected);
    }

    method AssignReceipts(selected: seq<string>, jobId: string)
      modifies this`assignments
      ensures assignments == old(assignments) + (map r | r in selected :: jobId)
    {
      var k := 0;
      while k < |selected|
        invariant 0 <= k <= |selected|
        invariant assignments == old(assignments) + (map r | r in selected[..k] :: jobId)
      {
        assignments := assignments[selected[k] := jobId];
        assert selected[..k + 1] == selected[..k] + [selected[k]];
        k := k + 1;
      }
      assert selected[..k] == selected;
    }

    method ClaimJob(id: string, run: string, now: nat) returns (r: Result<Job>)
      modifies this
      ensures Effect(old(Contents()), Contents(), r, Claim(old(Contents()), id, run, now))
    {
      if id !in jobs { return Err("job cannot be claimed"); }
      var row := jobs[id];
      if row.status == Running || (row.status == RetryWait && row.nextAttemptAt > now) {
        return Err("job cannot be claimed");
      }
      var origin := if row.origin.Some? then row.origin else Some(JobRequest(id, row.attempt + 1));
      jobs := jobs[id := row.(status := Running, runId := Some(run), origin := origin)];
      return Ok(jobs[id]);
    }

    method CompleteJob(id: string, run: string, threshold: real, nextJob: string, now: nat) returns (r: Result<bool>)
      modifies this
      ensures Effect(old(Contents()), Contents(), r, Complete(old(Contents()), id, run, threshold, nextJob, now))
    {
      hide Materialize;
      if id !in jobs || jobs[id].status != Running || jobs[id].runId != Some(run) {
        return Err("job cannot be completed");
      }
      var remaining := accumulatedScore - jobs[id].consumed;
      if remaining < -SCORE_EPSILON { return Err("score ledger is corrupt"); }
      var saved := Contents();
      var receiptRows := AssignedTo(assignments, id);
      accumulatedScore, triggerPending := if remaining <= SCORE_EPSILON then 0.0 else remaining, false;
      assignments := assignments - receiptRows;
      DeleteReceipts(receiptRows);
      jobs := jobs - {id};
      assert Contents() == Release(saved, id, SnapToZero(remaining));
      r := MaterializeJob(threshold, nextJob, now);
      if r.Err? { RollBack(saved); }
    }

    method DeleteReceipts(ids: set<string>)
      modifies this`receipts
      ensures receipts == old(receipts) - ids
    {
      var rest := ids;
      while rest != {}
        invariant rest <= ids && receipts == old(receipts) - (ids - rest)
        decreases rest
      {
        var id :| id in rest;
        receipts := receipts - {id};
        rest := rest - {id};
      }
    }

    method DeferRunningJob(id: string, run: string, next: nat, advance: bool) returns (r: Result<()>)
      modifies this
      ensures Effect(old(Contents()), Contents(), r, DeferJob(old(Contents()), id, run, next, advance))
    {
      if id !in jobs || jobs[id].status != Running || jobs[id].runId != Some(run) {
        return Err("job cannot be deferred");
      }
      var job := jobs[id].(status := RetryWait, runId := None, nextAttemptAt := next);
      if advance {
        job := job.(attempt := job.attempt + 1, transportAttempt := 0, origin := None);
      } else {
        job := job.(transportAttempt := job.transportAttempt + 1);
      }
      jobs := jobs[id := job];
      return Ok(());
    }

    method FailRunningJob(id: string, run: Option<string>) returns (r: Result<()>)
      modifies this
      ensures Effect(old(Contents()), Contents(), r, FailJob(old(Contents()), id, run))
    {
      if id !in jobs || jobs[id].status != Running || jobs[id].runId != run {
        return Err("job cannot be failed terminally");
      }
      jobs := jobs[id := jobs[id].(status := RetryWait, terminalFailure := true)];
      return Ok(());
    }

    method ClearPendingData() returns (r: Result<(nat, nat, nat)>)
      modifies this
      ensures Effect(old(Contents()), Contents(), r, Clear(old(Contents())))
    {
      var counts := (|outbox|, |receipts|, |jobs|);
      outbox, assignments, jobs, receipts := map[], map[], map[], map[];
      accumulatedScore, triggerPending := 0.0, false;
      return Ok(counts);
    }
  }
}
