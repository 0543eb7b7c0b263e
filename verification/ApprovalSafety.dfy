/**
 At most one execution per approval. An approved record is a token that is always in exactly
 one place: with the decision that won it, in the slot of a live call, with the call or recovered
 resolution that carries it, or in the log of executions.
 */
module ApprovalSafety {
  import opened Wrappers
  import opened JsonText
  import opened CanonicalJson
  import opened Approval

  datatype Place = InSlot(key: string) | InTask(task: nat) | InLog(index: nat)

  function TaskToken(t: Task, runs: map<nat, Activation>): Option<Record> {
    match t
    case Chosen(_, a, decision) => if decision == ApproveOnce then Some(a) else None
    case Announcing(on, a, decision) =>
      if decision == ApproveOnce && on in runs && runs[on].recovered then Some(a) else None
    case Resolving(_, a) => Some(a)
    case Starting(_, a, _, _) => Some(a)
    case Validating(_, a, _, _) => Some(a)
    case Executing(_, a, _, _, _) => Some(a)
    case _ => None
  }

  function Token(s: State, p: Place): Option<Record> {
    match p
    case InSlot(key) => if key in s.slots then Some(s.slots[key]) else None
    case InTask(task) => if task in s.tasks then TaskToken(s.tasks[task], s.runs) else None
    case InLog(i) => if i < |s.log| then Some(s.log[i].approval) else None
  }

  /** No approval is held in two places. */
  ghost predicate OnePlace(s: State) {
    forall p, q | Token(s, p).Some? && Token(s, q).Some? && Token(s, p).value.id == Token(s, q).value.id :: p == q
  }

  /** Whatever is held is an approved record of the table, unchanged. */
  ghost predicate Backed(s: State) {
    forall p | Token(s, p).Some? ::
      var a := Token(s, p).value; a.status == Approved && a.id in s.approvals && s.approvals[a.id] == a
  }

  ghost predicate Genuine(a: Record) {
    Valid(a.arguments) && Canonical(a.arguments) == Ok(a.digest)
  }

  ghost predicate TableOk(approvals: map<string, Record>) {
    forall id | id in approvals :: approvals[id].id == id && Genuine(approvals[id])
  }

  ghost predicate Matches(a: Record, tool: string, arguments: Json) {
    tool == a.tool && Valid(arguments) && Canonical(arguments) == Ok(a.digest)
  }

  /** What a task carries: the tool and arguments approved, and the record the decision read. */
  ghost predicate TaskOk(t: Task, approvals: map<string, Record>) {
    match t
    case Choosing(_, _, a) => a.status == Pending && a.id in approvals && approvals[a.id].(status := Pending) == a
    case Starting(_, a, tool, arguments) => Matches(a, tool, arguments)
    case Validating(_, a, tool, arguments) => Matches(a, tool, arguments)
    case Executing(_, a, tool, arguments, at) => Matches(a, tool, arguments) && at < a.expiresAt
    case _ => true
  }

  ghost predicate TasksOk(s: State) {
    forall t | t in s.tasks :: TaskOk(s.tasks[t], s.approvals)
  }

  ghost predicate LogOk(log: seq<Execution>) {
    forall i | 0 <= i < |log| ::
      Matches(log[i].approval, log[i].tool, log[i].arguments) && log[i].checkedAt < log[i].approval.expiresAt
  }

  /** A noted decision owns its run's critical operation, and no interruption is about to resume. */
  ghost predicate GuardOk(s: State) {
    forall t | t in s.tasks && s.tasks[t].Announcing? ::
      && s.tasks[t].on in s.runs && s.runs[s.tasks[t].on].critical == Some(t)
      && NoneWoken(s, s.tasks[t].on)
  }

  /** Tasks that own the critical operation of their run. */
  predicate Owns(t: Task) {
    t.Deciding? || t.Choosing? || t.Chosen? || t.Announcing? || t.Resolving? || t.Validating? || t.Executing?
  }

  ghost predicate OwnersOk(s: State) {
    forall t | t in s.tasks && Owns(s.tasks[t]) :: s.tasks[t].on in s.runs && s.runs[s.tasks[t].on].critical == Some(t)
  }

  ghost predicate Inv(s: State) {
    OnePlace(s) && Backed(s) && TableOk(s.approvals) && TasksOk(s) && LogOk(s.log) && GuardOk(s) && OwnersOk(s)
  }

  // ---------------------------------------------------------------- moving tokens

  /** Every token of `s'` was already there in `s`, at the same place. */
  ghost predicate NoNewTokens(s: State, s': State) {
    forall p | Token(s', p).Some? :: Token(s', p) == Token(s, p)
  }

  /** Tokens stay where they are except that one may have moved from `src` to `dst`. */
  ghost predicate MovesOne(s: State, s': State, src: Place, dst: Place) {
    && (forall p | Token(s', p).Some? && p != dst :: Token(s', p) == Token(s, p))
    && Token(s', src).None? && Token(s', dst) == Token(s, src)
  }

  lemma NoNewKeeps(s: State, s': State)
    requires OnePlace(s) && Backed(s) && NoNewTokens(s, s')
    requires forall id | id in s.approvals && s.approvals[id].status == Approved ::
               id in s'.approvals && s'.approvals[id] == s.approvals[id]
    ensures OnePlace(s') && Backed(s')
  {
    hide Token;
  }

  lemma MoveKeeps(s: State, s': State, src: Place, dst: Place)
    requires OnePlace(s) && Backed(s) && MovesOne(s, s', src, dst) && s'.approvals == s.approvals
    ensures OnePlace(s') && Backed(s')
  {
    hide Token;
    forall p, q | Token(s', p).Some? && Token(s', q).Some? && Token(s', p).value.id == Token(s', q).value.id
      ensures p == q
    {
      var p', q' := if p == dst then src else p, if q == dst then src else q;
      assert Token(s, p') == Token(s', p) && Token(s, q') == Token(s', q);
      assert p' == q';
    }
  }

  /** A token for a record that was still pending is new to every place. */
  lemma MintKeeps(s: State, s': State, dst: Place, a: Record)
    requires OnePlace(s) && Backed(s)
    requires forall p | Token(s', p).Some? && p != dst :: Token(s', p) == Token(s, p)
    requires Token(s', dst) == Some(a) && a.status == Approved
    requires a.id in s.approvals && s.approvals[a.id].status == Pending
    requires s'.approvals == s.approvals[a.id := a]
    ensures OnePlace(s') && Backed(s')
  {
    hide Token;
  }

  // ------------------------------------------------------------ closing a task

  lemma CloseTokens(s: State, on: nat, task: nat)
    ensures NoNewTokens(s, Close(s, on, task)) && Token(Close(s, on, task), InTask(task)).None?
    ensures Close(s, on, task).approvals == s.approvals && Close(s, on, task).log == s.log
  {
    var c := Close(s, on, task);
    forall p | Token(c, p).Some? ensures Token(c, p) == Token(s, p) {
      if p.InTask? { assert p.task in s.tasks; }
    }
  }

  lemma CloseTasks(s: State, on: nat, task: nat)
    requires TasksOk(s)
    ensures TasksOk(Close(s, on, task))
  {
  }

  /** Giving up the operation wakes waiting calls only when no noted decision is left on the run. */
  lemma CloseGuards(s: State, on: nat, task: nat)
    requires OwnersOk(s) && GuardOk(s)
    ensures OwnersOk(Close(s, on, task)) && GuardOk(Close(s, on, task))
  {
    var c := Close(s, on, task);
    forall t | t in c.tasks && Owns(c.tasks[t])
      ensures c.tasks[t] == s.tasks[t] && t != task
      ensures c.tasks[t].on in c.runs && c.runs[c.tasks[t].on].critical == Some(t)
    {
      assert t in s.tasks && Owns(s.tasks[t]);
    }
    forall t, w | t in c.tasks && c.tasks[t].Announcing? && w in c.tasks ensures c.tasks[w] != Woken(c.tasks[t].on) {
      assert Owns(c.tasks[t]) && s.tasks[t].Announcing?;
      assert w in s.tasks ==> s.tasks[w] != Woken(s.tasks[t].on);
    }
  }

  lemma CloseKeeps(s: State, on: nat, task: nat)
    requires Inv(s)
    ensures Inv(Close(s, on, task))
  {
    hide Close, OnePlace, Backed, TableOk, TasksOk, LogOk, GuardOk, OwnersOk, NoNewTokens;
    CloseTokens(s, on, task);
    CloseTasks(s, on, task);
    CloseGuards(s, on, task);
    NoNewKeeps(s, Close(s, on, task));
  }

  // ------------------------------------------------------------------- run steps

  /** Changes to an activation that keep its recovery flag and its operation. */
  lemma RunChangeKeeps(s: State, run: nat, r: Activation)
    requires Inv(s)
    requires run in s.runs ==> r.recovered == s.runs[run].recovered && r.critical == s.runs[run].critical
    ensures Inv(s.(runs := s.runs[run := r]))
  {
    hide LogOk, TableOk, TaskOk;
    var s' := s.(runs := s.runs[run := r]);
    forall p | Token(s', p).Some? ensures Token(s', p) == Token(s, p) {
      if p.InTask? && s.tasks[p.task].Announcing? { assert s.tasks[p.task].on in s.runs; }
    }
    NoNewKeeps(s, s');
    hide OnePlace, Backed;
  }

  lemma ActiveChangeKeeps(s: State, active: map<string, nat>)
    requires Inv(s)
    ensures Inv(s.(active := active))
  {
    hide LogOk, TableOk, TaskOk;
    NoNewKeeps(s, s.(active := active));
    hide OnePlace, Backed;
  }

  lemma FinishKeeps(s: State, runId: string)
    requires Inv(s)
    ensures Inv(Finish(s, runId))
  {
    hide LogOk, TableOk, TaskOk;
    NoNewKeeps(s, Finish(s, runId));
    hide OnePlace, Backed;
  }

  /** The recovery flag rises only while no noted decision is on the run. */
  lemma FlagKeeps(s: State, run: nat)
    requires Inv(s) && run in s.runs
    requires forall t | t in s.tasks :: !(s.tasks[t].Announcing? && s.tasks[t].on == run)
    ensures Inv(s.(runs := s.runs[run := s.runs[run].(recovered := true)]))
  {
    hide LogOk, TableOk, TaskOk;
    NoNewKeeps(s, s.(runs := s.runs[run := s.runs[run].(recovered := true)]));
    hide OnePlace, Backed;
  }

  lemma InterruptedKeeps(s: State, run: nat)
    requires Inv(s) && run in s.runs
    requires forall t | t in s.tasks :: !(s.tasks[t].Announcing? && s.tasks[t].on == run)
    ensures Inv(Interrupted(s, run))
  {
    hide Inv, Finish;
    FlagKeeps(s, run);
    FinishKeeps(s, s.runs[run].runId);
  }

  /** A task without a token, an operation or a record is added or takes the place of another. */
  lemma IdleTaskKeeps(s: State, task: nat, t: Task)
    requires Inv(s) && (t.Finished? || t.Waiting?)
    ensures Inv(WithTask(s, task, t))
  {
    hide LogOk, TableOk, TaskOk;
    NoNewKeeps(s, WithTask(s, task, t));
    hide OnePlace, Backed;
    assert TaskOk(t, s.approvals) by { IdleTaskOk(t, s.approvals); }
  }

  lemma IdleTaskOk(t: Task, approvals: map<string, Record>)
    requires t.Finished? || t.Waiting?
    ensures TaskOk(t, approvals)
  {
  }

  /** A record is added, or one that was not approved changes its status. */
  lemma TableKeeps(s: State, id: string, a: Record)
    requires Inv(s) && a.id == id && Genuine(a)
    requires id in s.approvals ==> s.approvals[id].status != Approved && a == s.approvals[id].(status := a.status)
    ensures Inv(s.(approvals := s.approvals[id := a]))
  {
    hide LogOk, Matches, Genuine;
    NoNewKeeps(s, s.(approvals := s.approvals[id := a]));
    hide OnePlace, Backed;
  }

  lemma ProposeKeeps(s: State, run: nat, id: string, toolCallId: string, tool: string, arguments: Json, now: nat,
                     check: ArgumentCheck)
    requires Inv(s) && run in s.runs && id !in s.approvals && Valid(arguments)
    ensures Inv(ProposeStep(s, run, id, toolCallId, tool, arguments, now, check))
  {
    hide Inv, Canonical, Valid;
    var r := s.runs[run].(revision := s.runs[run].revision + 1);
    RunChangeKeeps(s, run, r);
    var digest := Canonical(arguments);
    if digest.Ok? {
      TableKeeps(s.(runs := s.runs[run := r]), id,
                 Record(id, r.runId, toolCallId, tool, arguments, digest.value, r.revision, now,
                        now + APPROVAL_LIFETIME_MS, Pending));
    }
  }

  // -------------------------------------------------------------- decision steps

  /** A call that finds the critical operation free takes it. */
  lemma TakeOperation(s: State, run: nat, task: nat, t: Task)
    requires OwnersOk(s) && GuardOk(s) && run in s.runs && s.runs[run].critical.None?
    requires (t.Deciding? || t.Validating?) && t.on == run
    ensures var s' := WithTask(s.(runs := s.runs[run := s.runs[run].(critical := Some(task))]), task, t);
            OwnersOk(s') && GuardOk(s')
  {
  }

  lemma BeginKeeps(s: State, task: nat, run: nat, input: DecisionInput)
    requires Inv(s) && task !in s.tasks && run in s.runs
    ensures Inv(BeginStep(s, task, run, input))
  {
    if s.runs[run].critical.Some? {
      IdleTaskKeeps(s, task, Finished);
    } else {
      hide LogOk, TableOk, TaskOk;
      TakeOperation(s, run, task, Deciding(run, input));
      var s' := BeginStep(s, task, run, input);
      NoNewKeeps(s, s');
      hide OnePlace, Backed, OwnersOk, GuardOk;
      DecidingOk(run, input, s.approvals);
    }
  }

  lemma DecidingOk(run: nat, input: DecisionInput, approvals: map<string, Record>)
    ensures TaskOk(Deciding(run, input), approvals)
  {
  }

  /** One task is replaced by the next stage of the same call. */
  lemma StageTasks(s: State, task: nat, t: Task)
    requires TasksOk(s) && TaskOk(t, s.approvals)
    ensures TasksOk(WithTask(s, task, t))
  {
    hide TaskOk;
  }

  lemma StageGuards(s: State, task: nat, t: Task)
    requires OwnersOk(s) && GuardOk(s) && task in s.tasks && Owns(s.tasks[task])
    requires Owns(t) && t.on == s.tasks[task].on && !t.Announcing?
    ensures OwnersOk(WithTask(s, task, t)) && GuardOk(WithTask(s, task, t))
  {
  }

  lemma ReadKeeps(s: State, task: nat, now: nat, check: ArgumentCheck)
    requires Inv(s) && task in s.tasks && s.tasks[task].Deciding?
    ensures Inv(ReadStep(s, task, now, check))
  {
    hide Close, LogOk, WellFormed, Binds, Genuine;
    var t := s.tasks[task];
    var id := t.input.approvalId;
    CloseKeeps(s, t.on, task);
    if id in s.approvals && s.approvals[id].status == Pending {
      var expired := s.approvals[id].(status := Expired);
      SameGenuine(s.approvals[id], expired);
      TableKeeps(s, id, expired);
      CloseKeeps(s.(approvals := s.approvals[id := expired]), t.on, task);
      var next := Choosing(t.on, t.input, s.approvals[id]);
      StageTasks(s, task, next);
      StageGuards(s, task, next);
      NoNewKeeps(s, WithTask(s, task, next));
    }
    hide OnePlace, Backed, TableOk, TasksOk, GuardOk, OwnersOk;
  }

  lemma SameGenuine(a: Record, b: Record)
    requires Genuine(a) && b == a.(status := b.status)
    ensures Genuine(b)
  {
    hide Canonical, Valid;
  }

  /** The compare-and-set succeeds once per record, and only then is a token made. */
  lemma PersistKeeps(s: State, task: nat)
    requires Inv(s) && task in s.tasks && s.tasks[task].Choosing?
    ensures Inv(PersistStep(s, task))
  {
    hide Close, LogOk, Genuine;
    var t := s.tasks[task];
    var id := t.approval.id;
    CloseKeeps(s, t.on, task);
    if s.approvals[id].status == Pending {
      var status := if t.input.decision == ApproveOnce then Approved else Denied;
      var a := s.approvals[id].(status := status);
      var tabled := s.(approvals := s.approvals[id := a]);
      SameGenuine(s.approvals[id], a);
      TableKeeps(s, id, a);
      var next := Chosen(t.on, t.approval.(status := status), t.input.decision);
      StageTasks(tabled, task, next);
      StageGuards(tabled, task, next);
      PersistTokens(s, task, a, next);
    }
    hide OnePlace, Backed, TableOk, TasksOk, GuardOk, OwnersOk;
  }

  lemma PersistTokens(s: State, task: nat, a: Record, next: Task)
    requires OnePlace(s) && Backed(s) && a.id in s.approvals && s.approvals[a.id].status == Pending
    requires next.Chosen? && next.approval == a && (a.status == Approved <==> next.decision == ApproveOnce)
    ensures var s' := WithTask(s.(approvals := s.approvals[a.id := a]), task, next); OnePlace(s') && Backed(s')
  {
    var s' := WithTask(s.(approvals := s.approvals[a.id := a]), task, next);
    if next.decision == ApproveOnce {
      MintKeeps(s, s', InTask(task), a);
    } else {
      NoNewKeeps(s, s');
    }
  }

  lemma NoteKeeps(s: State, task: nat, sessionOk: bool)
    requires Inv(s) && HasTask(s, task) && s.tasks[task].Chosen? && NoneWoken(s, s.tasks[task].on)
    ensures Inv(NoteStep(s, task, sessionOk))
  {
    hide Close, LogOk, TableOk, Genuine, TaskOk;
    var t := s.tasks[task];
    CloseKeeps(s, t.on, task);
    NoteTokens(s, task);
    NoteGuards(s, task);
    NoteTasks(s, task);
    hide OnePlace, Backed, TasksOk, GuardOk, OwnersOk;
  }

  lemma NoteTasks(s: State, task: nat)
    requires TasksOk(s) && HasTask(s, task) && s.tasks[task].Chosen?
    ensures TasksOk(NoteStep(s, task, true))
  {
    var t := s.tasks[task];
    StageTasks(s, task, Announcing(t.on, t.approval, t.decision));
  }

  lemma NoteGuards(s: State, task: nat)
    requires OwnersOk(s) && GuardOk(s) && HasTask(s, task) && s.tasks[task].Chosen? && NoneWoken(s, s.tasks[task].on)
    ensures OwnersOk(NoteStep(s, task, true)) && GuardOk(NoteStep(s, task, true))
  {
    var s' := NoteStep(s, task, true);
    forall t | t in s'.tasks && Owns(s'.tasks[t])
      ensures s'.tasks[t].on in s'.runs && s'.runs[s'.tasks[t].on].critical == Some(t)
    {
      assert Owns(s.tasks[t]);
    }
    forall t, w | t in s'.tasks && s'.tasks[t].Announcing?
        && w in s'.tasks ensures s'.tasks[w] != Woken(s'.tasks[t].on) {
      assert w != task ==> s'.tasks[w] == s.tasks[w];
      assert t != task ==> s'.tasks[t] == s.tasks[t];
    }
  }

  /** A live approval moves to its slot, a recovered one stays with the decision. */
  lemma NoteTokens(s: State, task: nat)
    requires OnePlace(s) && Backed(s) && OwnersOk(s) && HasTask(s, task) && s.tasks[task].Chosen?
    ensures OnePlace(NoteStep(s, task, true)) && Backed(NoteStep(s, task, true))
  {
    var t, s' := s.tasks[task], NoteStep(s, task, true);
    var key := ToolKey(t.approval.runId, t.approval.toolCallId);
    hide ToolKey;
    forall p | Token(s', p).Some? && p != InSlot(key) ensures Token(s', p) == Token(s, p) {
      if p.InTask? && p.task != task { assert s'.tasks[p.task] == s.tasks[p.task]; }
    }
    if t.decision == ApproveOnce && !s.runs[t.on].recovered {
      MoveKeeps(s, s', InTask(task), InSlot(key));
    } else {
      NoNewKeeps(s, s');
    }
  }

  lemma AnnouncedKeeps(s: State, task: nat, ok: bool)
    requires Inv(s) && HasTask(s, task) && s.tasks[task].Announcing?
    ensures Inv(AnnouncedStep(s, task, ok))
  {
    hide Close, LogOk, TableOk, Genuine;
    var t := s.tasks[task];
    CloseKeeps(s, t.on, task);
    var next := Resolving(t.on, t.approval);
    StageTasks(s, task, next);
    StageGuards(s, task, next);
    if ok && s.runs[t.on].recovered && t.decision == ApproveOnce {
      NoNewKeeps(s, WithTask(s, task, next));
    }
    hide OnePlace, Backed, TasksOk, GuardOk, OwnersOk;
  }

  // ------------------------------------------------------------------ call steps

  lemma TakenSlotKeeps(s: State, key: string)
    requires Inv(s)
    ensures Inv(s.(slots := s.slots - {key}))
  {
    hide LogOk, TableOk, TaskOk;
    NoNewKeeps(s, s.(slots := s.slots - {key}));
    hide OnePlace, Backed;
  }

  lemma CallKeeps(s: State, task: nat, run: nat, toolCallId: string, tool: string, arguments: Json,
                  approvalId: string, digest: Text, runVersion: nat)
    requires Inv(s) && task !in s.tasks && run in s.runs && Valid(arguments)
    ensures Inv(CallStep(s, task, run, toolCallId, tool, arguments, approvalId, digest, runVersion))
  {
    hide Inv, ToolKey, Canonical, Valid, IsPrefix;
    var key := ToolKey(s.runs[run].runId, toolCallId);
    TakenSlotKeeps(s, key);
    IdleTaskKeeps(s.(slots := s.slots - {key}), task, Finished);
    if key in s.slots && Matches(s.slots[key], tool, arguments) {
      StartingKeeps(s, task, key, Starting(run, s.slots[key], tool, arguments));
    }
  }

  lemma StartingKeeps(s: State, task: nat, key: string, t: Task)
    requires Inv(s) && task !in s.tasks && key in s.slots
    requires t.Starting? && t.approval == s.slots[key] && Matches(t.approval, t.tool, t.arguments)
    ensures Inv(WithTask(s.(slots := s.slots - {key}), task, t))
  {
    hide LogOk, TableOk, Matches;
    var taken := s.(slots := s.slots - {key});
    TakenSlotKeeps(s, key);
    StageTasks(taken, task, t);
    MoveKeeps(s, WithTask(taken, task, t), InSlot(key), InTask(task));
    hide OnePlace, Backed;
  }

  lemma StartKeeps(s: State, task: nat, ok: bool)
    requires Inv(s) && HasTask(s, task) && (s.tasks[task].Starting? || s.tasks[task].Resolving?)
    ensures Inv(StartStep(s, task, ok))
  {
    hide Inv, Close, Matches;
    var t := s.tasks[task];
    CloseKeeps(s, t.on, task);
    IdleTaskKeeps(s, task, Finished);
    if t.Resolving? {
      ResolvingKeeps(s, task);
    } else if s.runs[t.on].critical.None? {
      LiveStartKeeps(s, task);
    }
  }

  lemma ResolvingKeeps(s: State, task: nat)
    requires Inv(s) && task in s.tasks && s.tasks[task].Resolving?
    ensures var t := s.tasks[task]; Inv(WithTask(s, task, Validating(t.on, t.approval, t.approval.tool,
            t.approval.arguments)))
  {
    hide LogOk, Canonical, Valid;
    var t := s.tasks[task];
    var next := Validating(t.on, t.approval, t.approval.tool, t.approval.arguments);
    assert Token(s, InTask(task)) == Some(t.approval);
    assert Genuine(s.approvals[t.approval.id]);
    StageTasks(s, task, next);
    StageGuards(s, task, next);
    NoNewKeeps(s, WithTask(s, task, next));
    hide OnePlace, Backed, TableOk, TasksOk, GuardOk, OwnersOk;
  }

  lemma LiveStartKeeps(s: State, task: nat)
    requires Inv(s) && HasTask(s, task) && s.tasks[task].Starting? && s.runs[s.tasks[task].on].critical.None?
    ensures Inv(StartStep(s, task, true))
  {
    hide LogOk, TableOk, Matches;
    var t := s.tasks[task];
    var next := Validating(t.on, t.approval, t.tool, t.arguments);
    TakeOperation(s, t.on, task, next);
    StageTasks(s, task, next);
    NoNewKeeps(s, StartStep(s, task, true));
    hide OnePlace, Backed, GuardOk, OwnersOk;
  }

  lemma RevalidateKeeps(s: State, task: nat, now: nat, check: ArgumentCheck)
    requires Inv(s) && task in s.tasks && s.tasks[task].Validating?
    ensures Inv(RevalidateStep(s, task, now, check))
  {
    hide Close, LogOk, TableOk, Matches, SameBinding;
    var t := s.tasks[task];
    CloseKeeps(s, t.on, task);
    assert Token(s, InTask(task)) == Some(t.approval);
    if now < s.approvals[t.approval.id].expiresAt {
      var next := Executing(t.on, t.approval, t.tool, t.arguments, now);
      StageTasks(s, task, next);
      StageGuards(s, task, next);
      NoNewKeeps(s, WithTask(s, task, next));
    }
    hide OnePlace, Backed, TasksOk, GuardOk, OwnersOk;
  }

  lemma ExecuteKeeps(s: State, task: nat, sessionOk: bool)
    requires Inv(s) && task in s.tasks && s.tasks[task].Executing?
    ensures Inv(ExecuteStep(s, task, sessionOk))
  {
    var t := s.tasks[task];
    CloseKeeps(s, t.on, task);
    if sessionOk {
      var logged := s.(log := s.log + [Execution(t.approval, t.tool, t.arguments, t.checkedAt)]);
      assert TaskOk(t, s.approvals);
      assert LogOk(logged.log);
      ExecuteTokens(s, task);
      hide Close, LogOk, TableOk, Matches, OnePlace, Backed;
      CloseTokens(logged, t.on, task);
      CloseTasks(logged, t.on, task);
      CloseGuards(logged, t.on, task);
    }
  }

  /** The token leaves the task as it enters the log. */
  lemma ExecuteTokens(s: State, task: nat)
    requires OnePlace(s) && Backed(s) && task in s.tasks && s.tasks[task].Executing?
    ensures OnePlace(ExecuteStep(s, task, true)) && Backed(ExecuteStep(s, task, true))
  {
    var t, s' := s.tasks[task], ExecuteStep(s, task, true);
    var logged := s.(log := s.log + [Execution(t.approval, t.tool, t.arguments, t.checkedAt)]);
    CloseTokens(logged, t.on, task);
    assert s' == Close(logged, t.on, task);
    hide Close;
    forall p | Token(s', p).Some? && p != InLog(|s.log|) ensures Token(s', p) == Token(s, p) {
      assert Token(s', p) == Token(logged, p);
    }
    assert Token(s', InLog(|s.log|)) == Some(t.approval);
    MoveKeeps(s, s', InTask(task), InLog(|s.log|));
  }

  // ------------------------------------------------------------- interruption steps

  lemma InterruptKeeps(s: State, task: nat, run: nat)
    requires Inv(s) && run in s.runs
    ensures Inv(InterruptStep(s, task, run))
  {
    if s.runs[run].critical.Some? {
      IdleTaskKeeps(s, task, Waiting(run, s.runs[run].critical.value));
    } else {
      InterruptedKeeps(s, run);
      IdleTaskKeeps(Interrupted(s, run), task, Finished);
    }
  }

  lemma ResumeKeeps(s: State, task: nat)
    requires Inv(s) && HasTask(s, task) && s.tasks[task].Woken?
    ensures Inv(ResumeStep(s, task))
  {
    var run := s.tasks[task].on;
    InterruptedKeeps(s, run);
    IdleTaskKeeps(Interrupted(s, run), task, Finished);
    IdleTaskKeeps(s, task, Finished);
    hide Inv;
  }

  lemma CrashKeeps(s: State)
    requires Inv(s)
    ensures Inv(State(s.approvals, s.log, map[], map[], map[], map[]))
  {
    hide LogOk, TableOk;
    NoNewKeeps(s, State(s.approvals, s.log, map[], map[], map[], map[]));
    hide OnePlace, Backed;
  }

  lemma StepKeeps(s: State, step: Step, check: ArgumentCheck)
    requires Inv(s) && Enabled(s, step)
    ensures Inv(Next(s, step, check))
  {
    hide Inv, ProposeStep, BeginStep, ReadStep, PersistStep, NoteStep, AnnouncedStep, CallStep, StartStep,
         RevalidateStep, ExecuteStep, InterruptStep, ResumeStep, Finish;
    match step {
      case Activate(run, runId, revision, recovered) =>
        var r := Activation(runId, revision, if recovered then Suspended else Running, recovered, None);
        RunChangeKeeps(s, run, r);
        ActiveChangeKeeps(s.(runs := s.runs[run := r]), s.active[runId := run]);
      case SnapshotChange(run, revision, phase) =>
        RunChangeKeeps(s, run, s.runs[run].(revision := revision, phase := phase));
      case Propose(run, id, toolCallId, tool, arguments, now) =>
        ProposeKeeps(s, run, id, toolCallId, tool, arguments, now, check);
      case BeginDecision(task, run, input) => BeginKeeps(s, task, run, input);
      case ReadForDecision(task, now) => ReadKeeps(s, task, now, check);
      case PersistDecision(task) => PersistKeeps(s, task);
      case NoteDecision(task, sessionOk) => NoteKeeps(s, task, sessionOk);
      case Announced(task, ok) => AnnouncedKeeps(s, task, ok);
      case Call(task, run, toolCallId, tool, arguments, approvalId, digest, runVersion) =>
        CallKeeps(s, task, run, toolCallId, tool, arguments, approvalId, digest, runVersion);
      case StartAnnounced(task, ok) => StartKeeps(s, task, ok);
      case Revalidate(task, now) => RevalidateKeeps(s, task, now, check);
      case Execute(task, sessionOk) => ExecuteKeeps(s, task, sessionOk);
      case Interrupt(task, run) => InterruptKeeps(s, task, run);
      case Resume(task) => ResumeKeeps(s, task);
      case FinishRun(run) => FinishKeeps(s, s.runs[run].runId);
      case Crash => CrashKeeps(s);
    }
  }

  lemma {:induction false} RunKeeps(trace: seq<State>, steps: seq<Step>, check: ArgumentCheck, k: nat)
    requires Run(trace, steps, check) && k < |trace|
    ensures Inv(trace[k])
    decreases k
  {
    if k > 0 {
      hide Inv, Enabled, Next;
      RunKeeps(trace, steps, check, k - 1);
      assert Enabled(trace[k - 1], steps[k - 1]);
      StepKeeps(trace[k - 1], steps[k - 1], check);
    }
  }

  // ------------------------------------------------------------------- theorems

  /** Across live calls, recovery and crashes, an approval leads to at most one execution. */
  lemma ExecutedAtMostOnce(trace: seq<State>, steps: seq<Step>, check: ArgumentCheck, k: nat, i: nat, j: nat)
    requires Run(trace, steps, check) && k < |trace| && i < |trace[k].log| && j < |trace[k].log|
    requires trace[k].log[i].approval.id == trace[k].log[j].approval.id
    ensures i == j
  {
    hide Run, Backed, TasksOk, LogOk, GuardOk, OwnersOk, TableOk;
    RunKeeps(trace, steps, check, k);
    assert Token(trace[k], InLog(i)).Some? && Token(trace[k], InLog(j)).Some?;
  }

  /** What was executed is the approved tool on the approved arguments, checked before they expired. */
  lemma ExecutedAsApproved(trace: seq<State>, steps: seq<Step>, check: ArgumentCheck, k: nat, i: nat)
    requires Run(trace, steps, check) && k < |trace| && i < |trace[k].log|
    ensures var e, s := trace[k].log[i], trace[k];
            && e.approval.id in s.approvals && s.approvals[e.approval.id].status == Approved
            && e.tool == s.approvals[e.approval.id].tool
            && Same(e.arguments, s.approvals[e.approval.id].arguments)
            && e.checkedAt < s.approvals[e.approval.id].expiresAt
  {
    hide Run, OnePlace, TasksOk, GuardOk, OwnersOk, Canonical, Same;
    RunKeeps(trace, steps, check, k);
    var e, s := trace[k].log[i], trace[k];
    assert Token(s, InLog(i)) == Some(e.approval);
    assert Matches(e.approval, e.tool, e.arguments) && Genuine(s.approvals[e.approval.id]);
    CanonicalIff(e.arguments, s.approvals[e.approval.id].arguments);
  }

  /** The activation its run id stands for. */
  predicate IsActive(s: State, on: nat) {
    on in s.runs && s.runs[on].runId in s.active && s.active[s.runs[on].runId] == on
  }

  /** Nothing can raise the recovery flag: it is up, or no interruption was woken, or the run was replaced. */
  ghost predicate Safe(s: State, on: nat) {
    on in s.runs && (s.runs[on].recovered || NoneWoken(s, on) || !IsActive(s, on))
  }

  /** The flag stays as it is, and so does what keeps it from rising. */
  ghost predicate Kept(s: State, s': State, on: nat) {
    && on in s.runs && on in s'.runs && s'.runs[on].recovered == s.runs[on].recovered
    && s'.runs[on].runId == s.runs[on].runId
    && (NoneWoken(s, on) ==> NoneWoken(s', on)) && (!IsActive(s, on) ==> !IsActive(s', on))
  }

  lemma KeptIsSafe(s: State, s': State, on: nat)
    requires Kept(s, s', on) && Safe(s, on)
    ensures Safe(s', on)
  {
    hide NoneWoken, IsActive;
  }

  /** Closing another call, after any change to the table or the log, keeps the owner's run as it is. */
  lemma CloseKept(s: State, task: nat, owner: nat, on: nat)
    requires on in s.runs && s.runs[on].critical == Some(owner) && task != owner && task in s.tasks
    ensures forall s': State, at: nat {:trigger Close(s', at, task)} |
              s'.runs == s.runs && s'.tasks == s.tasks && s'.active == s.active :: Kept(s, Close(s', at, task), on)
  {
    forall s': State, at: nat | s'.runs == s.runs && s'.tasks == s.tasks && s'.active == s.active
      ensures Kept(s, Close(s', at, task), on)
    {
      var c := Close(s', at, task);
      forall t | NoneWoken(s, on) && t in c.tasks ensures c.tasks[t] != Woken(on) {
        assert t in s.tasks ==> s.tasks[t] != Woken(on);
      }
    }
  }

  lemma StageKept(s: State, s': State, task: nat, t: Task, on: nat)
    requires on in s.runs && s'.runs == s.runs && s'.active == s.active && s'.tasks == s.tasks[task := t] && !t.Woken?
    ensures Kept(s, s', on)
  {
  }

  lemma DecisionKept(s: State, task: nat, now: nat, check: ArgumentCheck, owner: nat, on: nat)
    requires HasTask(s, task) && on in s.runs && s.runs[on].critical == Some(owner) && task != owner
    ensures s.tasks[task].Deciding? ==> Kept(s, ReadStep(s, task, now, check), on)
    ensures s.tasks[task].Choosing? ==> Kept(s, PersistStep(s, task), on)
    ensures s.tasks[task].Validating? ==> Kept(s, RevalidateStep(s, task, now, check), on)
  {
    hide Close, WellFormed, Binds, SameBinding, Kept;
    CloseKept(s, task, owner, on);
    var t := s.tasks[task];
    if t.Deciding? && t.input.approvalId in s.approvals {
      var next := Choosing(t.on, t.input, s.approvals[t.input.approvalId]);
      StageKept(s, WithTask(s, task, next), task, next, on);
    }
    if t.Choosing? && t.approval.id in s.approvals {
      var status := if t.input.decision == ApproveOnce then Approved else Denied;
      var next := Chosen(t.on, t.approval.(status := status), t.input.decision);
      var tabled := s.(approvals := s.approvals[t.approval.id := s.approvals[t.approval.id].(status := status)]);
      StageKept(s, WithTask(tabled, task, next), task, next, on);
    }
    if t.Validating? {
      var next := Executing(t.on, t.approval, t.tool, t.arguments, now);
      StageKept(s, WithTask(s, task, next), task, next, on);
    }
  }

  lemma NoteKept(s: State, task: nat, ok: bool, owner: nat, on: nat)
    requires HasTask(s, task) && on in s.runs && s.runs[on].critical == Some(owner) && task != owner
    ensures s.tasks[task].Chosen? ==> Kept(s, NoteStep(s, task, ok), on)
    ensures s.tasks[task].Announcing? ==> Kept(s, AnnouncedStep(s, task, ok), on)
    ensures s.tasks[task].Executing? ==> Kept(s, ExecuteStep(s, task, ok), on)
  {
    hide Close, ToolKey;
    CloseKept(s, task, owner, on);
  }

  lemma StartKept(s: State, task: nat, ok: bool, owner: nat, on: nat)
    requires HasTask(s, task) && on in s.runs && s.runs[on].critical == Some(owner) && task != owner
    ensures s.tasks[task].Starting? || s.tasks[task].Resolving? ==> Kept(s, StartStep(s, task, ok), on)
  {
    hide Close;
    CloseKept(s, task, owner, on);
  }

  /** Interrupting another run, or one whose flag is up, keeps this one as it is. */
  lemma InterruptedKept(s: State, run: nat, on: nat)
    requires run in s.runs && on in s.runs && (run != on || s.runs[on].recovered)
    ensures Kept(s, Interrupted(s, run), on)
  {
    hide IsPrefix, DropSlots;
  }

  lemma IdleKept(s: State, s': State, task: nat, t: Task, on: nat)
    requires Kept(s, s', on) && !t.Woken?
    ensures Kept(s, WithTask(s', task, t), on)
  {
  }

  lemma SameKept(s: State, on: nat)
    requires on in s.runs
    ensures Kept(s, s, on)
  {
  }

  lemma InterruptKept(s: State, task: nat, run: nat, owner: nat, on: nat)
    requires run in s.runs && on in s.runs && s.runs[on].critical == Some(owner)
    ensures Kept(s, InterruptStep(s, task, run), on)
  {
    hide Kept, Interrupted;
    SameKept(s, on);
    if s.runs[run].critical.Some? {
      IdleKept(s, s, task, Waiting(run, s.runs[run].critical.value), on);
    } else {
      InterruptedKept(s, run, on);
      IdleKept(s, Interrupted(s, run), task, Finished, on);
    }
  }

  lemma ResumeKept(s: State, task: nat, on: nat)
    requires HasTask(s, task) && s.tasks[task].Woken? && Safe(s, on)
    ensures Kept(s, ResumeStep(s, task), on)
  {
    assert s.tasks[task].on == on ==> s.tasks[task] == Woken(on);
    hide Kept, Interrupted, NoneWoken;
    var run := s.tasks[task].on;
    SameKept(s, on);
    IdleKept(s, s, task, Finished, on);
    if run != on || s.runs[on].recovered {
      InterruptedKept(s, run, on);
      IdleKept(s, Interrupted(s, run), task, Finished, on);
    }
  }

  /** A step of another call keeps the flag of a run whose operation is owned, if nothing can raise it. */
  lemma OthersKeep(s: State, step: Step, check: ArgumentCheck, owner: nat, on: nat)
    requires Enabled(s, step) && step != Crash && on in s.runs && s.runs[on].critical == Some(owner) && Safe(s, on)
    requires owner in s.tasks && StepTask(step) != Some(owner)
    ensures Kept(s, Next(s, step, check), on)
  {
    hide Canonical, Valid, ReadStep, PersistStep, NoteStep, AnnouncedStep, StartStep, RevalidateStep, ExecuteStep,
         InterruptStep, ResumeStep, ToolKey, IsPrefix;
    match step {
      case ReadForDecision(t, now) => DecisionKept(s, t, now, check, owner, on);
      case PersistDecision(t) => DecisionKept(s, t, 0, check, owner, on);
      case Revalidate(t, now) => DecisionKept(s, t, now, check, owner, on);
      case NoteDecision(t, ok) => NoteKept(s, t, ok, owner, on);
      case Announced(t, ok) => NoteKept(s, t, ok, owner, on);
      case Execute(t, ok) => NoteKept(s, t, ok, owner, on);
      case StartAnnounced(t, ok) => StartKept(s, t, ok, owner, on);
      case Interrupt(t, run) => InterruptKept(s, t, run, owner, on);
      case Resume(t) => ResumeKept(s, t, on);
      case _ =>
    }
  }

  /** The call whose stage a step moves on. */
  function StepTask(step: Step): Option<nat> {
    match step
    case ReadForDecision(t, _) => Some(t)
    case PersistDecision(t) => Some(t)
    case NoteDecision(t, _) => Some(t)
    case Announced(t, _) => Some(t)
    case StartAnnounced(t, _) => Some(t)
    case Revalidate(t, _) => Some(t)
    case Execute(t, _) => Some(t)
    case Resume(t) => Some(t)
    case _ => None
  }

  /** A run that goes on, with the call still under way at its end. */
  ghost predicate GoesOn(s: State, owner: nat, on: nat) {
    owner in s.tasks && Owns(s.tasks[owner]) && s.tasks[owner].on == on
  }

  lemma CloseOwn(s: State, owner: nat, on: nat)
    requires on in s.runs
    ensures forall s': State, at: nat {:trigger Close(s', at, owner)} | s'.runs == s.runs ::
              && on in Close(s', at, owner).runs && Close(s', at, owner).runs[on].recovered == s.runs[on].recovered
              && owner in Close(s', at, owner).tasks && Close(s', at, owner).tasks[owner] == Finished
  {
  }

  ghost predicate OwnKept(s: State, next: State, owner: nat, on: nat) {
    && on in s.runs && on in next.runs && next.runs[on].recovered == s.runs[on].recovered
    && (GoesOn(next, owner, on) ==> Kept(s, next, on))
  }

  lemma OwnDecision(s: State, owner: nat, now: nat, check: ArgumentCheck, on: nat)
    requires GoesOn(s, owner, on) && on in s.runs
    ensures s.tasks[owner].Deciding? ==> OwnKept(s, ReadStep(s, owner, now, check), owner, on)
    ensures s.tasks[owner].Choosing? ==> OwnKept(s, PersistStep(s, owner), owner, on)
    ensures s.tasks[owner].Validating? ==> OwnKept(s, RevalidateStep(s, owner, now, check), owner, on)
  {
    hide Close, WellFormed, Binds, SameBinding;
    CloseOwn(s, owner, on);
  }

  lemma OwnNote(s: State, owner: nat, ok: bool, on: nat)
    requires GoesOn(s, owner, on) && on in s.runs
    ensures s.tasks[owner].Chosen? ==> OwnKept(s, NoteStep(s, owner, ok), owner, on)
    ensures s.tasks[owner].Announcing? ==> OwnKept(s, AnnouncedStep(s, owner, ok), owner, on)
    ensures s.tasks[owner].Resolving? ==> OwnKept(s, StartStep(s, owner, ok), owner, on)
    ensures s.tasks[owner].Executing? ==> OwnKept(s, ExecuteStep(s, owner, ok), owner, on)
  {
    hide Close, ToolKey;
    CloseOwn(s, owner, on);
  }

  /** The call's own steps keep the flag, and what guards it as long as they do not end it. */
  lemma OwnKeeps(s: State, step: Step, check: ArgumentCheck, owner: nat, on: nat)
    requires Enabled(s, step) && GoesOn(s, owner, on) && on in s.runs && StepTask(step) == Some(owner)
    ensures OwnKept(s, Next(s, step, check), owner, on)
  {
    hide OwnKept, ReadStep, PersistStep, NoteStep, AnnouncedStep, StartStep, RevalidateStep, ExecuteStep, ResumeStep,
         Canonical, Valid;
    match step {
      case ReadForDecision(_, now) => OwnDecision(s, owner, now, check, on);
      case PersistDecision(_) => OwnDecision(s, owner, 0, check, on);
      case Revalidate(_, now) => OwnDecision(s, owner, now, check, on);
      case NoteDecision(_, ok) => OwnNote(s, owner, ok, on);
      case Announced(_, ok) => OwnNote(s, owner, ok, on);
      case StartAnnounced(_, ok) => OwnNote(s, owner, ok, on);
      case Execute(_, ok) => OwnNote(s, owner, ok, on);
      case _ =>
    }
  }

  /** One step of a decision under way: the flag stays, and stays guarded. */
  lemma FlagStep(s: State, step: Step, check: ArgumentCheck, owner: nat, on: nat)
    requires Inv(s) && Enabled(s, step) && step != Crash && GoesOn(s, owner, on) && Safe(s, on)
    ensures var next := Next(s, step, check);
            && on in next.runs && next.runs[on].recovered == s.runs[on].recovered
            && (GoesOn(next, owner, on) ==> Safe(next, on))
  {
    OwnerCritical(s, owner, on);
    hide Inv, Enabled, Next, Safe, Kept;
    var next := Next(s, step, check);
    if StepTask(step) == Some(owner) {
      OwnKeeps(s, step, check, owner, on);
      if GoesOn(next, owner, on) { KeptIsSafe(s, next, on); }
    } else {
      OthersKeep(s, step, check, owner, on);
      KeptIsSafe(s, next, on);
      KeptFlag(s, next, on);
    }
  }

  lemma KeptFlag(s: State, s': State, on: nat)
    requires Kept(s, s', on)
    ensures on in s.runs && on in s'.runs && s'.runs[on].recovered == s.runs[on].recovered
  {
  }

  lemma OwnerCritical(s: State, owner: nat, on: nat)
    requires Inv(s) && GoesOn(s, owner, on)
    ensures on in s.runs && s.runs[on].critical == Some(owner)
  {
    hide OnePlace, Backed, TableOk, TasksOk, LogOk, GuardOk;
  }

  /** Steps from `s` during which the process does not crash and the call is under way before each. */
  ghost predicate During(s: State, trace: seq<State>, steps: seq<Step>, check: ArgumentCheck, owner: nat, on: nat) {
    && |trace| == |steps| + 1 && trace[0] == s
    && forall i | 0 <= i < |steps| ::
         && steps[i] != Crash && GoesOn(trace[i], owner, on) && Enabled(trace[i], steps[i])
         && trace[i + 1] == Next(trace[i], steps[i], check)
  }

  ghost predicate FlagAt(s: State, s': State, on: nat) {
    on in s.runs && on in s'.runs && s'.runs[on].recovered == s.runs[on].recovered
  }

  /** Up to and including the step that ends the call, its run's recovery flag does not change. */
  ghost predicate FlagStaysStill(s: State, check: ArgumentCheck, owner: nat, on: nat) {
    forall trace: seq<State>, steps: seq<Step> | During(s, trace, steps, check, owner, on) ::
      FlagAt(s, trace[|steps|], on)
  }

  lemma {:induction false} SafeStaysStill(s: State, trace: seq<State>, steps: seq<Step>, check: ArgumentCheck,
          owner: nat,
                                          on: nat, k: nat)
    requires Inv(s) && GoesOn(s, owner, on) && Safe(s, on) && During(s, trace, steps, check, owner, on) && k <= |steps|
    ensures FlagAt(s, trace[k], on) && Inv(trace[k]) && (GoesOn(trace[k], owner, on) ==> Safe(trace[k], on))
    decreases k
  {
    if k == 0 {
      OwnerCritical(s, owner, on);
    } else {
      hide Inv, Enabled, Next, Safe, GoesOn;
      SafeStaysStill(s, trace, steps, check, owner, on, k - 1);
      assert GoesOn(trace[k - 1], owner, on) && Enabled(trace[k - 1], steps[k - 1]);
      FlagStep(trace[k - 1], steps[k - 1], check, owner, on);
      StepKeeps(trace[k - 1], steps[k - 1], check);
    }
  }

  /** A woken interruption of the active run raises the flag when the run is suspended again. */
  lemma WokenRaises(s: State, check: ArgumentCheck, owner: nat, on: nat, w: nat)
          returns (trace: seq<State>, steps: seq<Step>)
    requires Inv(s) && GoesOn(s, owner, on) && on in s.runs && !s.runs[on].recovered && IsActive(s, on)
    requires w in s.tasks && s.tasks[w] == Woken(on)
    ensures During(s, trace, steps, check, owner, on) && !FlagAt(s, trace[|steps|], on)
  {
    hide Inv;
    var suspended := s.(runs := s.runs[on := s.runs[on].(phase := Suspended)]);
    var raised := suspended.(runs := s.runs[on := s.runs[on].(phase := Suspended, recovered := true)],
                             tasks := s.tasks[w := Finished]);
    steps := [SnapshotChange(on, s.runs[on].revision, Suspended), Resume(w)];
    assert Next(s, steps[0], check) == suspended;
    assert ResumeStep(suspended, w) == raised;
    trace := [s, suspended, raised];
  }

  /**
   Exactly when the guard holds: over every continuation of a decision or execution the recovery flag
   stays still if and only if, at the outset, it was already up, no woken interruption waited on the run,
   or another activation had taken the run's place.
   */
  lemma FlagStillIff(s: State, check: ArgumentCheck, owner: nat, on: nat)
    requires Inv(s) && GoesOn(s, owner, on)
    ensures FlagStaysStill(s, check, owner, on) <==> Safe(s, on)
  {
    OwnerCritical(s, owner, on);
    hide Inv, During, FlagAt, GoesOn;
    if Safe(s, on) {
      hide Safe;
      forall trace: seq<State>, steps: seq<Step> | During(s, trace, steps, check, owner, on)
        ensures FlagAt(s, trace[|steps|], on)
      {
        SafeStaysStill(s, trace, steps, check, owner, on, |steps|);
      }
    } else {
      var w :| w in s.tasks && s.tasks[w] == Woken(on);
      var trace, steps := WokenRaises(s, check, owner, on, w);
    }
  }

  /**
   When a decision begins on a run that is active and not recovered, the flag stays still to its end
   if and only if no woken interruption was waiting on the run.
   */
  lemma DecisionGuardedIff(s: State, task: nat, run: nat, input: DecisionInput, check: ArgumentCheck)
    requires Inv(s) && Enabled(s, BeginDecision(task, run, input)) && s.runs[run].critical.None?
    requires !s.runs[run].recovered && IsActive(s, run)
    ensures FlagStaysStill(BeginStep(s, task, run, input), check, task, run) <==> NoneWoken(s, run)
  {
    BeginKeeps(s, task, run, input);
    hide Inv, FlagStaysStill;
    var begun := BeginStep(s, task, run, input);
    FlagStillIff(begun, check, task, run);
    assert begun.tasks == s.tasks[task := Deciding(run, input)];
    if NoneWoken(begun, run) {
      forall t | t in s.tasks ensures s.tasks[t] != Woken(run) {
        assert begun.tasks[t] == s.tasks[t];
      }
    }
  }

  /** A decision that has been noted is always guarded. */
  lemma NotedIsSafe(s: State, task: nat)
    requires Inv(s) && task in s.tasks && s.tasks[task].Announcing?
    ensures Safe(s, s.tasks[task].on)
  {
    hide OnePlace, Backed, TableOk, TasksOk, LogOk, OwnersOk;
  }

  /** The states of a race between an interruption that waited and the next decision. */
  function Race(k: nat, input: DecisionInput): State {
    var waits := Activation("r", 0, Suspended, false, None);
    var s := State(map[], [], map[0 := waits], map["r" := 0], map[], map[]);
    match k
    case 0 => EMPTY
    case 1 => s.(runs := map[0 := waits.(phase := Running)])
    case 2 => s
    case 3 => s.(runs := map[0 := waits.(critical := Some(1))], tasks := map[1 := Deciding(0, input)])
    case 4 => s.(runs := map[0 := waits.(critical := Some(1))], tasks := map[1 := Deciding(0, input), 2 := Waiting(0,
        1)])
    case 5 => s.(tasks := map[1 := Finished, 2 := Woken(0)])
    case 6 =>
      s.(runs := map[0 := waits.(critical := Some(3))],
         tasks := map[1 := Finished, 2 := Woken(0), 3 := Deciding(0, input)])
    case _ =>
      s.(runs := map[0 := waits.(critical := Some(3), recovered := true)],
         tasks := map[1 := Finished, 2 := Finished, 3 := Deciding(0, input)])
  }

  function RaceStep(k: nat, input: DecisionInput): Step {
    match k
    case 0 => Activate(0, "r", 0, false)
    case 1 => SnapshotChange(0, 0, Suspended)
    case 2 => BeginDecision(1, 0, input)
    case 3 => Interrupt(2, 0)
    case 4 => ReadForDecision(1, 0)
    case 5 => BeginDecision(3, 0, input)
    case _ => Resume(2)
  }

  lemma RaceOpens(k: nat, input: DecisionInput, check: ArgumentCheck)
    requires k < 4 && input.runId == "r" && input.revision == 0
    ensures Enabled(Race(k, input), RaceStep(k, input))
    ensures Next(Race(k, input), RaceStep(k, input), check) == Race(k + 1, input)
  {
    hide Finish, EndOperation;
    var s, s' := Race(k, input), Race(k + 1, input);
    match k {
      case 0 =>
      case 1 =>
      case 2 => assert BeginStep(s, 1, 0, input) == s';
      case _ => assert InterruptStep(s, 2, 0) == s';
    }
  }

  lemma RaceWakes(input: DecisionInput, check: ArgumentCheck)
    requires input.runId == "r" && input.revision == 0
    ensures Enabled(Race(4, input), RaceStep(4, input))
    ensures Next(Race(4, input), RaceStep(4, input), check) == Race(5, input)
  {
    hide WellFormed, Binds, Finish;
    assert ReadStep(Race(4, input), 1, 0, check) == Race(5, input);
  }

  lemma RaceBeginsAgain(input: DecisionInput, check: ArgumentCheck)
    requires input.runId == "r" && input.revision == 0
    ensures Enabled(Race(5, input), RaceStep(5, input))
    ensures Next(Race(5, input), RaceStep(5, input), check) == Race(6, input)
  {
    hide EndOperation, Finish;
    assert BeginStep(Race(5, input), 3, 0, input) == Race(6, input);
  }

  lemma RaceFlips(input: DecisionInput, check: ArgumentCheck)
    requires input.runId == "r" && input.revision == 0
    ensures Enabled(Race(6, input), RaceStep(6, input))
    ensures Next(Race(6, input), RaceStep(6, input), check) == Race(7, input)
  {
    hide EndOperation, Finish;
    assert ResumeStep(Race(6, input), 2) == Race(7, input);
  }

  /**
   The guard does not cover all of a decision: an interruption that waited for an earlier
   operation can still raise the flag after the next decision has begun to read.
   */
  lemma FlagMayRiseWhileDeciding(check: ArgumentCheck) returns (trace: seq<State>, steps: seq<Step>)
    ensures Run(trace, steps, check) && |trace| == 8
    ensures var before, after := trace[6], trace[7];
            && 3 in before.tasks && before.tasks[3].Deciding? && before.tasks[3].on == 0
            && 0 in before.runs && !before.runs[0].recovered
            && 3 in after.tasks && after.tasks[3] == before.tasks[3]
            && 0 in after.runs && after.runs[0].recovered
  {
    hide Next, Enabled;
    var input := DecisionInput("a", "r", "t", [], 0, ApproveOnce);
    trace := seq(8, (k: nat) => Race(k, input));
    steps := seq(7, (k: nat) => RaceStep(k, input));
    forall k | 0 <= k < 7 ensures Enabled(trace[k], steps[k]) && trace[k + 1] == Next(trace[k], steps[k], check) {
      if k < 4 { RaceOpens(k, input, check); }
      else if k == 4 { RaceWakes(input, check); }
      else if k == 5 { RaceBeginsAgain(input, check); }
      else { RaceFlips(input, check); }
    }
  }
}
