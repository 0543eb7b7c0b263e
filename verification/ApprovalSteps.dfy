/** What single steps of a tool approval do, in every state they can be taken in. */
module ApprovalSteps {
  import opened Wrappers
  import opened JsonText
  import opened CanonicalJson
  import opened CanonicalMeaning
  import opened Approval

  /** A tool call is held for approval exactly if it is a write tool, its arguments pass and have a JSON text. */
  lemma ProposeMeans(
    s: State, run: nat, id: string, toolCallId: string, tool: string, arguments: Json, now: nat, check: ArgumentCheck)
    requires Enabled(s, Propose(run, id, toolCallId, tool, arguments, now))
    ensures var after := Next(s, Propose(run, id, toolCallId, tool, arguments, now), check);
            var r := s.runs[run].(revision := s.runs[run].revision + 1);
            && after == s.(runs := s.runs[run := r], approvals := after.approvals)
            && (id in after.approvals <==>
                  && tool in {"planning.save_draft", "calendar.create_event", "calendar.update_event",
                              "calendar.delete_event", "calendar.commit_plan_schedule"}
                  && check(tool, arguments) && !(exists w :: CanonicalMeaning.Within(w, arguments) && NoJson(w)))
            && (id !in after.approvals ==> after.approvals == s.approvals)
            && (id in after.approvals ==>
                  var a := after.approvals[id];
                  && after.approvals == s.approvals[id := a] && Denotes(a.digest, arguments)
                  && a == Record(id, r.runId, toolCallId, tool, arguments, a.digest, r.revision,
                                 now, now + 10 * 60 * 1000, Pending))
  {
    hide Canonical, Denotes, Valid, CanonicalMeaning.Within;
    CanonicalMeans(arguments);
  }

  /** One decision or call at a time holds a run. */
  lemma BeginMeans(s: State, task: nat, run: nat, input: DecisionInput, check: ArgumentCheck)
    requires Enabled(s, BeginDecision(task, run, input))
    ensures var after := Next(s, BeginDecision(task, run, input), check);
            if s.runs[run].critical.Some? then after == s.(tasks := s.tasks[task := Finished])
            else after == s.(tasks := s.tasks[task := Deciding(run, input)],
                             runs := s.runs[run := s.runs[run].(critical := Some(task))])
  {
  }

  /** An approval of a run that was not interrupted is kept for the one call it was given for. */
  lemma NoteMeans(s: State, task: nat, check: ArgumentCheck)
    requires Enabled(s, NoteDecision(task, true))
    ensures var after, t := Next(s, NoteDecision(task, true), check), s.tasks[task];
            var r, key := s.runs[t.on], t.approval.runId + ":" + t.approval.toolCallId;
            && after.runs == s.runs[t.on := r.(revision := r.revision + 1, phase := Running)]
            && (t.decision == ApproveOnce && !r.recovered ==> after.slots == s.slots[key := t.approval])
            && (t.decision == Deny || r.recovered ==> after.slots == s.slots)
            && after.tasks == s.tasks[task := Announcing(t.on, t.approval, t.decision)]
            && after.approvals == s.approvals && after.log == s.log
  {
  }

  /** A call takes the kept approval away, and goes on exactly if it is the call that was approved. */
  lemma CallMeans(
    s: State, task: nat, run: nat, toolCallId: string, tool: string, arguments: Json, approvalId: string,
    digest: Text, runVersion: nat, check: ArgumentCheck)
    requires Enabled(s, Call(task, run, toolCallId, tool, arguments, approvalId, digest, runVersion))
    ensures var after := Next(s, Call(task, run, toolCallId, tool, arguments, approvalId, digest, runVersion), check);
            var key := s.runs[run].runId + ":" + toolCallId;
            && after == s.(slots := s.slots - {key}, tasks := s.tasks[task := after.tasks[task]])
            && if && key in s.slots && s.slots[key].id == approvalId && s.slots[key].tool == tool
                  && s.slots[key].digest == digest && Canonical(arguments) == Ok(digest)
                  && s.slots[key].runRevision == runVersion
               then after.tasks[task] == Starting(run, s.slots[key], tool, arguments)
               else after.tasks[task] == Finished
  {
    hide Canonical, Valid;
  }

  /** A run that ends takes its kept approvals along. */
  lemma FinishMeans(s: State, run: nat, check: ArgumentCheck)
    requires run in s.runs
    ensures var after, id := Next(s, FinishRun(run), check), s.runs[run].runId;
            && after == s.(active := s.active - {id}, slots := after.slots)
            && (forall k :: k in after.slots <==> k in s.slots && !(id + ":" <= k))
            && (forall k | k in after.slots :: after.slots[k] == s.slots[k])
            && (forall call: string :: id + ":" + call !in after.slots)
  {
    var id := s.runs[run].runId;
    forall call: string ensures IsPrefix(id + ":", id + ":" + call) {
      assert (id + ":" + call)[..|id| + 1] == id + ":";
    }
  }

  /** An interruption waits for the operation in progress; a run that waits for a decision is kept to be recovered. */
  lemma InterruptMeans(s: State, task: nat, run: nat, check: ArgumentCheck)
    requires Enabled(s, Interrupt(task, run))
    ensures var after, r := Next(s, Interrupt(task, run), check), s.runs[run];
            && (r.critical.Some? ==> after == s.(tasks := s.tasks[task := Waiting(run, r.critical.value)]))
            && (r.critical.None? && r.phase == Suspended ==>
                  after == s.(tasks := s.tasks[task := Finished], runs := s.runs[run := r.(recovered := true)]))
            && (r.critical.None? && r.phase != Suspended ==>
                  after == Next(s, FinishRun(run), check).(tasks := s.tasks[task := Finished]))
  {
  }

  /** A crash keeps the approvals and what was carried out, and nothing else. */
  lemma CrashMeans(s: State, check: ArgumentCheck)
    ensures var after := Next(s, Crash, check);
            after == EMPTY.(approvals := s.approvals, log := s.log)
  {
  }
}
