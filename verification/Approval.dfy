/**
 One-time tool approval. Each storage call and each continuation of the run coordinator is one
 step; decisions, tool calls, interruptions and crashes interleave freely. `log` and the approval
 table survive a crash, everything else is in memory.
 */
module Approval {
  import opened Wrappers
  import opened JsonText
  import opened CanonicalJson

  datatype Status = Pending | Approved | Denied | Expired

  /** `digest` is the canonical text of the arguments; the hash over it is taken to be injective. */
  datatype Record = Record(
    id: string, runId: string, toolCallId: string, tool: string, arguments: Json, digest: Text,
    runRevision: nat, createdAt: nat, expiresAt: nat, status: Status)

  const WRITE_TOOLS := {"planning.save_draft", "calendar.create_event", "calendar.update_event",
                        "calendar.delete_event", "calendar.commit_plan_schedule"}

  const APPROVAL_LIFETIME_MS := 10 * 60000

  /** Suspended means waiting for the decision on a pending approval. */
  datatype Phase = Running | Suspended | Terminal

  /** One activation of a run; a run may be activated again after it left memory. */
  datatype Activation = Activation(
    runId: string, revision: nat, phase: Phase, recovered: bool, critical: Option<nat>)

  datatype Decision = ApproveOnce | Deny
  datatype DecisionInput = DecisionInput(
    approvalId: string, runId: string, toolCallId: string, digest: Text, revision: nat, decision: Decision)

  /** A call in progress; `on` names the activation it works on. */
  datatype Task =
    | Deciding(on: nat, input: DecisionInput)
    | Choosing(on: nat, input: DecisionInput, approval: Record)
    | Chosen(on: nat, approval: Record, decision: Decision)
    | Announcing(on: nat, approval: Record, decision: Decision)
    | Resolving(on: nat, approval: Record)
    | Starting(on: nat, approval: Record, tool: string, arguments: Json)
    | Validating(on: nat, approval: Record, tool: string, arguments: Json)
    | Executing(on: nat, approval: Record, tool: string, arguments: Json, checkedAt: nat)
    | Waiting(on: nat, operation: nat)
    | Woken(on: nat)
    | Finished

  datatype Execution = Execution(approval: Record, tool: string, arguments: Json, checkedAt: nat)

  datatype State = State(
    approvals: map<string, Record>,
    log: seq<Execution>,
    runs: map<nat, Activation>,
    active: map<string, nat>,
    slots: map<string, Record>,
    tasks: map<nat, Task>)

  const EMPTY := State(map[], [], map[], map[], map[], map[])

  datatype Step =
    | Activate(run: nat, runId: string, revision: nat, recovered: bool)
    | SnapshotChange(run: nat, revision: nat, phase: Phase)
    | Propose(run: nat, id: string, toolCallId: string, tool: string, arguments: Json, now: nat)
    | BeginDecision(task: nat, run: nat, input: DecisionInput)
    | ReadForDecision(task: nat, now: nat)
    | PersistDecision(task: nat)
    | NoteDecision(task: nat, sessionOk: bool)
    | Announced(task: nat, ok: bool)
    | Call(task: nat, run: nat, toolCallId: string, tool: string, arguments: Json,
           approvalId: string, digest: Text, runVersion: nat)
    | StartAnnounced(task: nat, ok: bool)
    | Revalidate(task: nat, now: nat)
    | Execute(task: nat, sessionOk: bool)
    | Interrupt(task: nat, run: nat)
    | Resume(task: nat)
    | FinishRun(run: nat)
    | Crash

  function ToolKey(runId: string, toolCallId: string): string {
    runId + ":" + toolCallId
  }

  predicate IsPrefix(p: string, s: string) {
    |p| <= |s| && s[..|p|] == p
  }

  /** What the checks of `assertApprovalArguments` accept is fixed by the tool and its arguments. */
  type ArgumentCheck = (string, Json) -> bool

  predicate WellFormed(a: Record, check: ArgumentCheck) {
    a.tool in WRITE_TOOLS && check(a.tool, a.arguments) && Valid(a.arguments) && Canonical(a.arguments) == Ok(a.digest)
  }

  /** The decision names this very approval of this very run and version. */
  predicate Binds(input: DecisionInput, a: Record) {
    && a.runId == input.runId && a.toolCallId == input.toolCallId
    && a.digest == input.digest && a.runRevision == input.revision
  }

  predicate SameBinding(left: Record, right: Record, check: ArgumentCheck) {
    WellFormed(left, check) && WellFormed(right, check) && right.status == Approved
    && left.(status := Approved, arguments := Null) == right.(arguments := Null)
  }

  // ------------------------------------------------------------------------ steps

  /** The owner of the critical operation gives it up and the calls waiting for it are woken. */
  function EndOperation(s: State, on: nat, task: nat): State {
    if on in s.runs && s.runs[on].critical == Some(task) then
      s.(runs := s.runs[on := s.runs[on].(critical := None)],
         tasks := map t | t in s.tasks :: if s.tasks[t] == Waiting(on, task) then Woken(on) else s.tasks[t])
    else s
  }

  function Close(s: State, on: nat, task: nat): State {
    var ended := EndOperation(s, on, task);
    ended.(tasks := ended.tasks[task := Finished])
  }

  function WithTask(s: State, task: nat, t: Task): State {
    s.(tasks := s.tasks[task := t])
  }

  function DropSlots(slots: map<string, Record>, runId: string): map<string, Record> {
    map k | k in slots && !IsPrefix(runId + ":", k) :: slots[k]
  }

  function Finish(s: State, runId: string): State {
    s.(active := s.active - {runId}, slots := DropSlots(s.slots, runId))
  }

  /** An interrupted run keeps a pending approval for recovery; any other run ends. */
  function Interrupted(s: State, run: nat): State
    requires run in s.runs
  {
    if s.runs[run].phase == Suspended then s.(runs := s.runs[run := s.runs[run].(recovered := true)])
    else Finish(s, s.runs[run].runId)
  }

  predicate HasTask(s: State, task: nat) {
    task in s.tasks && !s.tasks[task].Finished? && (s.tasks[task].on in s.runs)
  }

  /** Continuations of a settled operation run before any later answer of the storage. */
  ghost predicate NoneWoken(s: State, run: nat) {
    forall t | t in s.tasks :: s.tasks[t] != Woken(run)
  }

  ghost predicate Enabled(s: State, step: Step) {
    match step
    case Activate(run, _, _, _) => run !in s.runs
    case SnapshotChange(run, _, _) => run in s.runs
    case Propose(run, id, _, _, arguments, _) => run in s.runs && id !in s.approvals && Valid(arguments)
    case BeginDecision(task, run, input) =>
      task !in s.tasks && run in s.runs && input.revision == s.runs[run].revision && input.runId == s.runs[run].runId
    case ReadForDecision(task, _) => HasTask(s, task) && s.tasks[task].Deciding?
    case PersistDecision(task) => HasTask(s, task) && s.tasks[task].Choosing?
    case NoteDecision(task, _) => HasTask(s, task) && s.tasks[task].Chosen? && NoneWoken(s, s.tasks[task].on)
    case Announced(task, _) => HasTask(s, task) && s.tasks[task].Announcing?
    case Call(task, run, _, _, arguments, _, _, _) =>
      && task !in s.tasks && run in s.runs && Valid(arguments)
      && s.runs[run].runId in s.active && s.active[s.runs[run].runId] == run && s.runs[run].phase != Terminal
    case StartAnnounced(task, _) => HasTask(s, task) && (s.tasks[task].Starting? || s.tasks[task].Resolving?)
    case Revalidate(task, _) => HasTask(s, task) && s.tasks[task].Validating?
    case Execute(task, _) => HasTask(s, task) && s.tasks[task].Executing?
    case Interrupt(task, run) => task !in s.tasks && run in s.runs
    case Resume(task) => HasTask(s, task) && s.tasks[task].Woken?
    case FinishRun(run) => run in s.runs
    case Crash => true
  }

  function ProposeStep(s: State, run: nat, id: string, toolCallId: string, tool: string, arguments: Json, now: nat,
                       check: ArgumentCheck): State
    requires run in s.runs && Valid(arguments)
  {
    var r := s.runs[run].(revision := s.runs[run].revision + 1);
    var bumped := s.(runs := s.runs[run := r]);
    var digest := Canonical(arguments);
    if tool !in WRITE_TOOLS || !check(tool, arguments) || digest.Err? then bumped
    else
      bumped.(approvals := s.approvals[id := Record(id, r.runId, toolCallId, tool, arguments, digest.value,
                                                    r.revision, now, now + APPROVAL_LIFETIME_MS, Pending)])
  }

  function BeginStep(s: State, task: nat, run: nat, input: DecisionInput): State
    requires run in s.runs
  {
    if s.runs[run].critical.Some? then WithTask(s, task, Finished)
    else WithTask(s.(runs := s.runs[run := s.runs[run].(critical := Some(task))]), task, Deciding(run, input))
  }

  function ReadStep(s: State, task: nat, now: nat, check: ArgumentCheck): State
    requires task in s.tasks && s.tasks[task].Deciding?
  {
    var t := s.tasks[task];
    var id := t.input.approvalId;
    if id !in s.approvals || s.approvals[id].status != Pending then Close(s, t.on, task)
    else if s.approvals[id].expiresAt <= now then
      Close(s.(approvals := s.approvals[id := s.approvals[id].(status := Expired)]), t.on, task)
    else if !WellFormed(s.approvals[id], check) || !Binds(t.input, s.approvals[id]) then Close(s, t.on, task)
    else WithTask(s, task, Choosing(t.on, t.input, s.approvals[id]))
  }

  function PersistStep(s: State, task: nat): State
    requires task in s.tasks && s.tasks[task].Choosing?
  {
    var t := s.tasks[task];
    var id := t.approval.id;
    if id !in s.approvals || s.approvals[id].status != Pending then Close(s, t.on, task)
    else
      var next := if t.input.decision == ApproveOnce then Approved else Denied;
      WithTask(s.(approvals := s.approvals[id := s.approvals[id].(status := next)]), task,
               Chosen(t.on, t.approval.(status := next), t.input.decision))
  }

  function NoteStep(s: State, task: nat, sessionOk: bool): State
    requires task in s.tasks && s.tasks[task].Chosen? && s.tasks[task].on in s.runs
  {
    var t := s.tasks[task];
    if !sessionOk then Close(s, t.on, task)
    else
      var r := s.runs[t.on];
      var noted := s.(runs := s.runs[t.on := r.(revision := r.revision + 1, phase := Running)]);
      var kept := if t.decision == ApproveOnce && !r.recovered
                  then noted.(slots := s.slots[ToolKey(t.approval.runId, t.approval.toolCallId) := t.approval])
                  else noted;
      WithTask(kept, task, Announcing(t.on, t.approval, t.decision))
  }

  function AnnouncedStep(s: State, task: nat, ok: bool): State
    requires task in s.tasks && s.tasks[task].Announcing? && s.tasks[task].on in s.runs
  {
    var t := s.tasks[task];
    if ok && s.runs[t.on].recovered && t.decision == ApproveOnce then WithTask(s, task, Resolving(t.on, t.approval))
    else Close(s, t.on, task)
  }

  function CallStep(s: State, task: nat, run: nat, toolCallId: string, tool: string, arguments: Json,
                    approvalId: string, digest: Text, runVersion: nat): State
    requires run in s.runs && Valid(arguments)
  {
    var key := ToolKey(s.runs[run].runId, toolCallId);
    var taken := s.(slots := s.slots - {key});
    if key !in s.slots then WithTask(taken, task, Finished)
    else
      var a := s.slots[key];
      if a.id != approvalId || a.tool != tool || a.digest != digest
         || Canonical(arguments) != Ok(a.digest) || runVersion != a.runRevision
      then WithTask(taken, task, Finished)
      else WithTask(taken, task, Starting(run, a, tool, arguments))
  }

  /** A live call must still win the critical operation; a recovered decision holds it already. */
  function StartStep(s: State, task: nat, ok: bool): State
    requires task in s.tasks && (s.tasks[task].Starting? || s.tasks[task].Resolving?) && s.tasks[task].on in s.runs
  {
    var t := s.tasks[task];
    if t.Resolving? then
      if ok then WithTask(s, task, Validating(t.on, t.approval, t.approval.tool, t.approval.arguments))
      else Close(s, t.on, task)
    else if !ok || s.runs[t.on].critical.Some? then WithTask(s, task, Finished)
    else
      WithTask(s.(runs := s.runs[t.on := s.runs[t.on].(critical := Some(task))]), task,
               Validating(t.on, t.approval, t.tool, t.arguments))
  }

  function RevalidateStep(s: State, task: nat, now: nat, check: ArgumentCheck): State
    requires task in s.tasks && s.tasks[task].Validating?
  {
    var t := s.tasks[task];
    var id := t.approval.id;
    if id in s.approvals && s.approvals[id].status == Approved && SameBinding(s.approvals[id], t.approval, check)
       && now < s.approvals[id].expiresAt
    then WithTask(s, task, Executing(t.on, t.approval, t.tool, t.arguments, now))
    else Close(s, t.on, task)
  }

  function ExecuteStep(s: State, task: nat, sessionOk: bool): State
    requires task in s.tasks && s.tasks[task].Executing?
  {
    var t := s.tasks[task];
    if !sessionOk then Close(s, t.on, task)
    else Close(s.(log := s.log + [Execution(t.approval, t.tool, t.arguments, t.checkedAt)]), t.on, task)
  }

  function InterruptStep(s: State, task: nat, run: nat): State
    requires run in s.runs
  {
    if s.runs[run].critical.Some? then WithTask(s, task, Waiting(run, s.runs[run].critical.value))
    else WithTask(Interrupted(s, run), task, Finished)
  }

  function ResumeStep(s: State, task: nat): State
    requires task in s.tasks && s.tasks[task].Woken? && s.tasks[task].on in s.runs
  {
    var run := s.tasks[task].on;
    var id := s.runs[run].runId;
    if id in s.active && s.active[id] == run && s.runs[run].phase != Terminal
    then WithTask(Interrupted(s, run), task, Finished)
    else WithTask(s, task, Finished)
  }

  ghost function Next(s: State, step: Step, check: ArgumentCheck): State
    requires Enabled(s, step)
  {
    match step
    case Activate(run, runId, revision, recovered) =>
      var phase := if recovered then Suspended else Running;
      s.(runs := s.runs[run := Activation(runId, revision, phase, recovered, None)], active := s.active[runId := run])
    case SnapshotChange(run, revision, phase) =>
      s.(runs := s.runs[run := s.runs[run].(revision := revision, phase := phase)])
    case Propose(run, id, toolCallId, tool, arguments, now) =>
      ProposeStep(s, run, id, toolCallId, tool, arguments, now, check)
    case BeginDecision(task, run, input) => BeginStep(s, task, run, input)
    case ReadForDecision(task, now) => ReadStep(s, task, now, check)
    case PersistDecision(task) => PersistStep(s, task)
    case NoteDecision(task, sessionOk) => NoteStep(s, task, sessionOk)
    case Announced(task, ok) => AnnouncedStep(s, task, ok)
    case Call(task, run, toolCallId, tool, arguments, approvalId, digest, runVersion) =>
      CallStep(s, task, run, toolCallId, tool, arguments, approvalId, digest, runVersion)
    case StartAnnounced(task, ok) => StartStep(s, task, ok)
    case Revalidate(task, now) => RevalidateStep(s, task, now, check)
    case Execute(task, sessionOk) => ExecuteStep(s, task, sessionOk)
    case Interrupt(task, run) => InterruptStep(s, task, run)
    case Resume(task) => ResumeStep(s, task)
    case FinishRun(run) => Finish(s, s.runs[run].runId)
    case Crash => State(s.approvals, s.log, map[], map[], map[], map[])
  }

  ghost predicate Run(trace: seq<State>, steps: seq<Step>, check: ArgumentCheck) {
    && |trace| == |steps| + 1 && trace[0] == EMPTY
    && forall i | 0 <= i < |steps| :: Enabled(trace[i], steps[i]) && trace[i + 1] == Next(trace[i], steps[i], check)
  }
}
