/** Nothing is executed that was not approved: every execution goes back to the user's own decision. */
module ApprovalDecisions {
  import opened Wrappers
  import opened JsonText
  import opened CanonicalJson
  import opened Approval
  import opened ApprovalSafety

  /** The decision is about this record: its id, run, tool call, arguments and version. */
  predicate Names(input: DecisionInput, a: Record) {
    && input.approvalId == a.id && input.runId == a.runId && input.toolCallId == a.toolCallId
    && input.digest == a.digest && input.revision == a.runRevision
  }

  /** The call was begun by a user's decision with this input. */
  predicate Begins(step: Step, task: nat, input: DecisionInput) {
    step.BeginDecision? && step.task == task && step.input == input
  }

  /** The call read the record within the ten minutes after it was proposed. */
  predicate ReadsInTime(step: Step, task: nat, a: Record) {
    step.ReadForDecision? && step.task == task && step.now < a.createdAt + 10 * 60 * 1000
  }

  /** Among the first `n` steps a user's decision about the record was begun and then taken up in time. */
  ghost predicate Decided(steps: seq<Step>, n: nat, a: Record, decision: Decision) {
    exists i, j | 0 <= i < j < n && j < |steps| ::
      && steps[i].BeginDecision? && Names(steps[i].input, a) && steps[i].input.decision == decision
      && ReadsInTime(steps[j], steps[i].task, a)
  }

  ghost predicate Begun(steps: seq<Step>, n: nat, task: nat, input: DecisionInput) {
    exists i | 0 <= i < n && i < |steps| :: Begins(steps[i], task, input)
  }

  ghost predicate BegunAndRead(steps: seq<Step>, n: nat, task: nat, input: DecisionInput, a: Record) {
    exists i, j | 0 <= i < j < n && j < |steps| :: Begins(steps[i], task, input) && ReadsInTime(steps[j], task, a)
  }

  /** Every status goes back to a decision; a call that decides carries an input that was given. */
  ghost predicate StatusOk(approvals: map<string, Record>, steps: seq<Step>, n: nat) {
    forall id | id in approvals ::
      && (approvals[id].status == Approved ==> Decided(steps, n, approvals[id], ApproveOnce))
      && (approvals[id].status == Denied ==> Decided(steps, n, approvals[id], Deny))
      && approvals[id].expiresAt == approvals[id].createdAt + 10 * 60 * 1000
  }

  ghost predicate InputOk(task: nat, t: Task, steps: seq<Step>, n: nat) {
    && (t.Deciding? ==> Begun(steps, n, task, t.input))
    && (t.Choosing? ==> BegunAndRead(steps, n, task, t.input, t.approval) && Names(t.input, t.approval))
  }

  ghost predicate InputsOk(tasks: map<nat, Task>, steps: seq<Step>, n: nat) {
    forall t | t in tasks :: InputOk(t, tasks[t], steps, n)
  }

  ghost predicate DecisionsOk(s: State, steps: seq<Step>, n: nat) {
    StatusOk(s.approvals, steps, n) && InputsOk(s.tasks, steps, n)
  }

  lemma LaterOk(s: State, steps: seq<Step>, n: nat)
    requires DecisionsOk(s, steps, n)
    ensures DecisionsOk(s, steps, n + 1)
  {
    hide Names, Begins, ReadsInTime;
    forall t | t in s.tasks ensures InputOk(t, s.tasks[t], steps, n + 1) {
      assert InputOk(t, s.tasks[t], steps, n);
    }
  }

  /** Tasks are closed, woken or replaced by ones that carry no input. */
  ghost predicate NoNewInputs(s: State, s': State) {
    forall t | t in s'.tasks && (s'.tasks[t].Deciding? || s'.tasks[t].Choosing?) ::
      t in s.tasks && s.tasks[t] == s'.tasks[t]
  }

  lemma QuietKeeps(s: State, s': State, steps: seq<Step>, n: nat)
    requires DecisionsOk(s, steps, n) && NoNewInputs(s, s') && s'.approvals == s.approvals
    ensures DecisionsOk(s', steps, n)
  {
    hide Begun, BegunAndRead, Decided, Names;
    forall t | t in s'.tasks ensures InputOk(t, s'.tasks[t], steps, n) {
      if s'.tasks[t].Deciding? || s'.tasks[t].Choosing? { assert InputOk(t, s.tasks[t], steps, n); }
    }
  }

  lemma CloseQuiet(s: State, on: nat, task: nat)
    ensures NoNewInputs(s, Close(s, on, task))
  {
  }

  lemma BeginDecides(s: State, task: nat, run: nat, input: DecisionInput, steps: seq<Step>, n: nat)
    requires DecisionsOk(s, steps, n) && n < |steps| && run in s.runs && steps[n] == BeginDecision(task, run, input)
    ensures DecisionsOk(BeginStep(s, task, run, input), steps, n + 1)
  {
    LaterOk(s, steps, n);
    assert Begins(steps[n], task, input);
    assert Begun(steps, n + 1, task, input);
    hide Begun, BegunAndRead, Decided, Names;
    forall t | t in BeginStep(s, task, run, input).tasks
      ensures InputOk(t, BeginStep(s, task, run, input).tasks[t], steps, n + 1)
    {
      if t != task { assert InputOk(t, s.tasks[t], steps, n + 1); }
    }
  }

  /** A record is taken up only while it is pending, unexpired and named by the decision. */
  lemma ReadMeans(s: State, task: nat, now: nat, check: ArgumentCheck)
    requires task in s.tasks && s.tasks[task].Deciding?
    ensures var t, next := s.tasks[task], ReadStep(s, task, now, check);
            var id := t.input.approvalId;
            || next == Close(s, t.on, task)
            || (&& id in s.approvals && s.approvals[id].status == Pending && s.approvals[id].expiresAt <= now
                && next == Close(s.(approvals := s.approvals[id := s.approvals[id].(status := Expired)]), t.on, task))
            || (&& id in s.approvals && s.approvals[id].status == Pending && now < s.approvals[id].expiresAt
                && t.input.runId == s.approvals[id].runId && t.input.toolCallId == s.approvals[id].toolCallId
                && t.input.digest == s.approvals[id].digest && t.input.revision == s.approvals[id].runRevision
                && next == WithTask(s, task, Choosing(t.on, t.input, s.approvals[id])))
  {
    hide Close, WellFormed;
  }

  lemma CloseDecides(s: State, on: nat, task: nat, steps: seq<Step>, n: nat)
    requires DecisionsOk(s, steps, n)
    ensures DecisionsOk(Close(s, on, task), steps, n)
  {
    hide Close, DecisionsOk, NoNewInputs;
    CloseQuiet(s, on, task);
    CloseTokens(s, on, task);
    QuietKeeps(s, Close(s, on, task), steps, n);
  }

  lemma TakeDecides(s: State, task: nat, a: Record, steps: seq<Step>, n: nat)
    requires DecisionsOk(s, steps, n) && task in s.tasks && s.tasks[task].Deciding? && Names(s.tasks[task].input, a)
    requires BegunAndRead(steps, n, task, s.tasks[task].input, a)
    ensures DecisionsOk(WithTask(s, task, Choosing(s.tasks[task].on, s.tasks[task].input, a)), steps, n)
  {
    hide Begun, BegunAndRead, Decided, Names;
    var next := WithTask(s, task, Choosing(s.tasks[task].on, s.tasks[task].input, a));
    forall u | u in next.tasks ensures InputOk(u, next.tasks[u], steps, n) {
      if u != task { assert InputOk(u, s.tasks[u], steps, n); }
    }
  }

  lemma ReadDecides(s: State, task: nat, now: nat, check: ArgumentCheck, steps: seq<Step>, n: nat)
    requires Inv(s) && DecisionsOk(s, steps, n) && task in s.tasks && s.tasks[task].Deciding?
    requires n < |steps| && steps[n] == ReadForDecision(task, now)
    ensures DecisionsOk(ReadStep(s, task, now, check), steps, n + 1)
  {
    hide Inv, Close, Begun, BegunAndRead, DecisionsOk, ReadStep, WithTask;
    var t := s.tasks[task];
    var id := t.input.approvalId;
    WasBegun(s, task, steps, n);
    LaterOk(s, steps, n);
    ReadMeans(s, task, now, check);
    CloseDecides(s, t.on, task, steps, n + 1);
    if id in s.approvals {
      RecordId(s, id);
      var a := s.approvals[id];
      ExpireKeeps(s, id, steps, n + 1);
      CloseDecides(s.(approvals := s.approvals[id := a.(status := Expired)]), t.on, task, steps, n + 1);
      if now < a.expiresAt && Names(t.input, a) {
        LifetimeIs(s, steps, n, id);
        TakenUp(steps, n, task, t.input, a, now);
        TakeDecides(s, task, a, steps, n + 1);
      }
    }
  }

  lemma WasBegun(s: State, task: nat, steps: seq<Step>, n: nat)
    requires DecisionsOk(s, steps, n) && task in s.tasks && s.tasks[task].Deciding?
    ensures Begun(steps, n, task, s.tasks[task].input)
  {
    hide Begun, StatusOk;
    assert InputOk(task, s.tasks[task], steps, n);
  }

  lemma LifetimeIs(s: State, steps: seq<Step>, n: nat, id: string)
    requires DecisionsOk(s, steps, n) && id in s.approvals
    ensures s.approvals[id].expiresAt == s.approvals[id].createdAt + 10 * 60 * 1000
  {
    hide Decided, InputsOk;
  }

  lemma RecordId(s: State, id: string)
    requires Inv(s) && id in s.approvals
    ensures s.approvals[id].id == id
  {
    hide OnePlace, Backed, TasksOk, LogOk, GuardOk, OwnersOk, Genuine;
  }

  lemma ExpireKeeps(s: State, id: string, steps: seq<Step>, n: nat)
    requires DecisionsOk(s, steps, n) && id in s.approvals
    ensures DecisionsOk(s.(approvals := s.approvals[id := s.approvals[id].(status := Expired)]), steps, n)
  {
    hide Begun, BegunAndRead, Decided, Names, InputOk;
  }

  lemma TakenUp(steps: seq<Step>, n: nat, task: nat, input: DecisionInput, a: Record, now: nat)
    requires Begun(steps, n, task, input) && n < |steps| && steps[n] == ReadForDecision(task, now)
    requires now < a.createdAt + 10 * 60 * 1000
    ensures BegunAndRead(steps, n + 1, task, input, a)
  {
    var i :| 0 <= i < n && i < |steps| && Begins(steps[i], task, input);
    assert Begins(steps[i], task, input) && ReadsInTime(steps[n], task, a);
  }

  /** What is stored is what the user decided. */
  lemma PersistMeans(s: State, task: nat)
    requires task in s.tasks && s.tasks[task].Choosing?
    requires var id := s.tasks[task].approval.id; id in s.approvals && s.approvals[id].status == Pending
    ensures var t, next := s.tasks[task], PersistStep(s, task);
            && t.approval.id in next.approvals
            && next.approvals == s.approvals[t.approval.id := next.approvals[t.approval.id]]
            && next.approvals[t.approval.id]
               == s.approvals[t.approval.id].(status := next.approvals[t.approval.id].status)
            && (next.approvals[t.approval.id].status == Approved <==> t.input.decision == ApproveOnce)
            && (next.approvals[t.approval.id].status == Denied <==> t.input.decision == Deny)
            && next.tasks == s.tasks[task := Chosen(t.on, t.approval.(status := next.approvals[t.approval.id].status),
                                                    t.input.decision)]
  {
  }

  lemma PersistDecides(s: State, task: nat, steps: seq<Step>, n: nat)
    requires Inv(s) && DecisionsOk(s, steps, n) && task in s.tasks && s.tasks[task].Choosing?
    ensures DecisionsOk(PersistStep(s, task), steps, n)
  {
    var t, next := s.tasks[task], PersistStep(s, task);
    var id := t.approval.id;
    ChoosingRecord(s, task);
    assert InputOk(task, t, steps, n);
    CloseQuiet(s, t.on, task);
    if s.approvals[id].status == Pending {
      PersistMeans(s, task);
      GivenIsDecided(steps, n, task, t.input, t.approval, next.approvals[id]);
      hide Inv, Begun, BegunAndRead, Decided, Names, PersistStep;
      forall u | u in next.tasks ensures InputOk(u, next.tasks[u], steps, n) {
        if u != task { assert InputOk(u, s.tasks[u], steps, n); }
      }
    } else {
      QuietKeeps(s, next, steps, n);
    }
  }

  lemma ChoosingRecord(s: State, task: nat)
    requires Inv(s) && task in s.tasks && s.tasks[task].Choosing?
    ensures var a := s.tasks[task].approval;
            a.id in s.approvals && s.approvals[a.id].(status := Pending) == a
  {
    hide OnePlace, Backed, TableOk, LogOk, GuardOk, OwnersOk;
    assert TaskOk(s.tasks[task], s.approvals);
  }

  lemma GivenIsDecided(steps: seq<Step>, n: nat, task: nat, input: DecisionInput, read: Record, a: Record)
    requires BegunAndRead(steps, n, task, input, read) && Names(input, a) && a.createdAt == read.createdAt
    ensures Decided(steps, n, a, input.decision)
  {
    var i, j :| 0 <= i < j < n && j < |steps| && Begins(steps[i], task, input) && ReadsInTime(steps[j], task, read);
    assert Begins(steps[i], task, input) && ReadsInTime(steps[j], task, read);
    assert Names(steps[i].input, a) && ReadsInTime(steps[j], steps[i].task, a);
  }

  // ----------------------------------------------------------------- other steps

  lemma NoteQuiet(s: State, task: nat, ok: bool)
    requires task in s.tasks && s.tasks[task].Chosen? && s.tasks[task].on in s.runs
    ensures NoNewInputs(s, NoteStep(s, task, ok)) && NoteStep(s, task, ok).approvals == s.approvals
  {
    hide Close;
    CloseQuiet(s, s.tasks[task].on, task);
    CloseTokens(s, s.tasks[task].on, task);
  }

  lemma AnnouncedQuiet(s: State, task: nat, ok: bool)
    requires task in s.tasks && s.tasks[task].Announcing? && s.tasks[task].on in s.runs
    ensures NoNewInputs(s, AnnouncedStep(s, task, ok)) && AnnouncedStep(s, task, ok).approvals == s.approvals
  {
    hide Close;
    CloseQuiet(s, s.tasks[task].on, task);
    CloseTokens(s, s.tasks[task].on, task);
  }

  lemma StartQuiet(s: State, task: nat, ok: bool)
    requires task in s.tasks && (s.tasks[task].Starting? || s.tasks[task].Resolving?) && s.tasks[task].on in s.runs
    ensures NoNewInputs(s, StartStep(s, task, ok)) && StartStep(s, task, ok).approvals == s.approvals
  {
    hide Close;
    CloseQuiet(s, s.tasks[task].on, task);
    CloseTokens(s, s.tasks[task].on, task);
  }

  lemma RevalidateQuiet(s: State, task: nat, now: nat, check: ArgumentCheck)
    requires task in s.tasks && s.tasks[task].Validating?
    ensures NoNewInputs(s, RevalidateStep(s, task, now, check))
    ensures RevalidateStep(s, task, now, check).approvals == s.approvals
  {
    hide Close, SameBinding;
    CloseQuiet(s, s.tasks[task].on, task);
    CloseTokens(s, s.tasks[task].on, task);
  }

  lemma ExecuteQuiet(s: State, task: nat, ok: bool)
    requires task in s.tasks && s.tasks[task].Executing?
    ensures NoNewInputs(s, ExecuteStep(s, task, ok)) && ExecuteStep(s, task, ok).approvals == s.approvals
  {
    hide Close;
    var t := s.tasks[task];
    var logged := s.(log := s.log + [Execution(t.approval, t.tool, t.arguments, t.checkedAt)]);
    CloseQuiet(s, t.on, task);
    CloseQuiet(logged, t.on, task);
    CloseTokens(s, t.on, task);
    CloseTokens(logged, t.on, task);
  }

  lemma CallQuiet(s: State, step: Step)
    requires step.Call? && step.run in s.runs && Valid(step.arguments)
    ensures var next := CallStep(s, step.task, step.run, step.toolCallId, step.tool, step.arguments, step.approvalId,
                                 step.digest, step.runVersion);
            NoNewInputs(s, next) && next.approvals == s.approvals
  {
    hide Canonical, Valid, ToolKey;
  }

  lemma InterruptQuiet(s: State, task: nat, run: nat)
    requires run in s.runs
    ensures NoNewInputs(s, InterruptStep(s, task, run)) && InterruptStep(s, task, run).approvals == s.approvals
    ensures HasTask(s, task) && s.tasks[task].Woken? ==>
              NoNewInputs(s, ResumeStep(s, task)) && ResumeStep(s, task).approvals == s.approvals
  {
    hide IsPrefix, DropSlots;
  }

  /** A new record is pending, under an id of its own. */
  lemma ProposeDecides(s: State, step: Step, check: ArgumentCheck, steps: seq<Step>, n: nat)
    requires DecisionsOk(s, steps, n) && step.Propose?
    requires step.run in s.runs && step.id !in s.approvals && Valid(step.arguments)
    ensures DecisionsOk(ProposeStep(s, step.run, step.id, step.toolCallId, step.tool, step.arguments, step.now, check),
                        steps, n)
  {
    hide Begun, BegunAndRead, Decided, Names, Canonical, Valid, InputOk;
  }

  lemma StepDecides(s: State, step: Step, check: ArgumentCheck, steps: seq<Step>, n: nat)
    requires Inv(s) && DecisionsOk(s, steps, n) && Enabled(s, step) && n < |steps| && steps[n] == step
    ensures DecisionsOk(Next(s, step, check), steps, n + 1)
  {
    hide Inv, DecisionsOk, NoNewInputs, ProposeStep, BeginStep, ReadStep, PersistStep, NoteStep, AnnouncedStep,
         CallStep, StartStep, RevalidateStep, ExecuteStep, InterruptStep, ResumeStep, Canonical, Valid;
    var next := Next(s, step, check);
    match step {
      case BeginDecision(task, run, input) => BeginDecides(s, task, run, input, steps, n);
      case ReadForDecision(task, now) => ReadDecides(s, task, now, check, steps, n);
      case PersistDecision(task) =>
        PersistDecides(s, task, steps, n);
        LaterOk(next, steps, n);
      case Propose(_, _, _, _, _, _) =>
        ProposeDecides(s, step, check, steps, n);
        LaterOk(next, steps, n);
      case _ =>
        OtherQuiet(s, step, check);
        QuietKeeps(s, next, steps, n);
        LaterOk(next, steps, n);
    }
  }

  lemma OtherQuiet(s: State, step: Step, check: ArgumentCheck)
    requires Enabled(s, step)
    requires !step.BeginDecision? && !step.ReadForDecision? && !step.PersistDecision? && !step.Propose?
    ensures NoNewInputs(s, Next(s, step, check)) && Next(s, step, check).approvals == s.approvals
  {
    hide NoteStep, AnnouncedStep, CallStep, StartStep, RevalidateStep, ExecuteStep, InterruptStep, ResumeStep,
         Canonical, Valid;
    match step {
      case NoteDecision(task, ok) => NoteQuiet(s, task, ok);
      case Announced(task, ok) => AnnouncedQuiet(s, task, ok);
      case Call(_, _, _, _, _, _, _, _) => CallQuiet(s, step);
      case StartAnnounced(task, ok) => StartQuiet(s, task, ok);
      case Revalidate(task, now) => RevalidateQuiet(s, task, now, check);
      case Execute(task, ok) => ExecuteQuiet(s, task, ok);
      case Interrupt(task, run) => InterruptQuiet(s, task, run);
      case Resume(task) => InterruptQuiet(s, task, s.tasks[task].on);
      case _ =>
    }
  }

  lemma {:induction false} RunDecides(trace: seq<State>, steps: seq<Step>, check: ArgumentCheck, k: nat)
    requires Run(trace, steps, check) && k < |trace|
    ensures DecisionsOk(trace[k], steps, k)
    decreases k
  {
    if k > 0 {
      hide DecisionsOk, Inv, Enabled, Next;
      RunDecides(trace, steps, check, k - 1);
      RunKeeps(trace, steps, check, k - 1);
      assert Enabled(trace[k - 1], steps[k - 1]);
      StepDecides(trace[k - 1], steps[k - 1], check, steps, k - 1);
    }
  }

  // ------------------------------------------------------------------- theorems

  /** Every execution goes back to an earlier decision to approve this very call with these arguments. */
  lemma ExecutedOnlyIfApproved(trace: seq<State>, steps: seq<Step>, check: ArgumentCheck, k: nat, i: nat)
    requires Run(trace, steps, check) && k < |trace| && i < |trace[k].log|
    ensures Decided(steps, k, trace[k].log[i].approval, ApproveOnce)
  {
    ExecutedRecord(trace, steps, check, k, i);
    hide Run, Decided, Inv;
    RunDecides(trace, steps, check, k);
  }

  /** And it was validated within the ten minutes as well. */
  lemma ExecutedInTime(trace: seq<State>, steps: seq<Step>, check: ArgumentCheck, k: nat, i: nat)
    requires Run(trace, steps, check) && k < |trace| && i < |trace[k].log|
    ensures trace[k].log[i].checkedAt < trace[k].log[i].approval.createdAt + 10 * 60 * 1000
  {
    ExecutedRecord(trace, steps, check, k, i);
    ExecutedAsApproved(trace, steps, check, k, i);
    hide Run, Decided, Inv;
    RunDecides(trace, steps, check, k);
  }

  lemma ExecutedRecord(trace: seq<State>, steps: seq<Step>, check: ArgumentCheck, k: nat, i: nat)
    requires Run(trace, steps, check) && k < |trace| && i < |trace[k].log|
    ensures var a := trace[k].log[i].approval;
            a.id in trace[k].approvals && trace[k].approvals[a.id] == a && a.status == Approved
  {
    hide Run, OnePlace, TableOk, TasksOk, LogOk, GuardOk, OwnersOk;
    RunKeeps(trace, steps, check, k);
    assert Token(trace[k], InLog(i)) == Some(trace[k].log[i].approval);
  }

  /** A record that is no longer pending keeps its status for good. */
  lemma SettledStep(s: State, step: Step, check: ArgumentCheck, id: string)
    requires Inv(s) && Enabled(s, step) && id in s.approvals && s.approvals[id].status != Pending
    ensures id in Next(s, step, check).approvals && Next(s, step, check).approvals[id] == s.approvals[id]
  {
    hide Inv, NoNewInputs, NoteStep, AnnouncedStep, CallStep, StartStep, RevalidateStep, ExecuteStep, InterruptStep,
         ResumeStep, Canonical, Valid, WellFormed, Binds;
    match step {
      case BeginDecision(_, _, _) =>
      case ReadForDecision(_, _) =>
      case PersistDecision(_) =>
      case Propose(_, _, _, _, _, _) =>
      case _ => OtherQuiet(s, step, check);
    }
  }

  lemma {:induction false} SettledForGood(
    trace: seq<State>, steps: seq<Step>, check: ArgumentCheck, j: nat, k: nat, id: string)
    requires Run(trace, steps, check) && j <= k < |trace|
    requires id in trace[j].approvals && trace[j].approvals[id].status != Pending
    ensures id in trace[k].approvals && trace[k].approvals[id] == trace[j].approvals[id]
    decreases k
  {
    hide Inv, Enabled, Next;
    if j < k {
      SettledForGood(trace, steps, check, j, k - 1, id);
      RunKeeps(trace, steps, check, k - 1);
      assert Enabled(trace[k - 1], steps[k - 1]);
      SettledStep(trace[k - 1], steps[k - 1], check, id);
    }
  }

  /** A denied approval stays denied, and its call is never executed, before or after. */
  lemma DeniedNeverExecuted(trace: seq<State>, steps: seq<Step>, check: ArgumentCheck, j: nat, k: nat, id: string)
    requires Run(trace, steps, check) && j <= k < |trace|
    requires id in trace[j].approvals && trace[j].approvals[id].status == Denied
    ensures id in trace[k].approvals && trace[k].approvals[id].status == Denied
    ensures forall i | 0 <= i < |trace[k].log| :: trace[k].log[i].approval.id != id
  {
    hide Run;
    SettledForGood(trace, steps, check, j, k, id);
    forall i | 0 <= i < |trace[k].log| ensures trace[k].log[i].approval.id != id {
      ExecutedRecord(trace, steps, check, k, i);
    }
  }

  /** Once a decision to deny has been stored, the record is denied for good and nothing ever runs under its id. */
  lemma DenyIsFinal(trace: seq<State>, steps: seq<Step>, check: ArgumentCheck, j: nat, k: nat)
    requires Run(trace, steps, check) && j < k < |trace| && steps[j].PersistDecision?
    requires var t := trace[j].tasks[steps[j].task];
             && t.input.decision == Deny && t.approval.id in trace[j].approvals
             && trace[j].approvals[t.approval.id].status == Pending
    ensures var id := trace[j].tasks[steps[j].task].approval.id;
            && id in trace[k].approvals && trace[k].approvals[id].status == Denied
            && forall i | 0 <= i < |trace[k].log| :: trace[k].log[i].approval.id != id
  {
    hide Inv, PersistStep;
    var task := steps[j].task;
    assert Enabled(trace[j], steps[j]) && trace[j + 1] == Next(trace[j], steps[j], check);
    PersistMeans(trace[j], task);
    hide Run, Next, Enabled;
    DeniedNeverExecuted(trace, steps, check, j + 1, k, trace[j].tasks[task].approval.id);
  }
}
