/** An approval that is given in time is carried out, both on a live run and on a recovered one. */
module ApprovalPaths {
  import opened Wrappers
  import opened JsonText
  import opened CanonicalJson
  import opened Approval

  /** A call that may be proposed, with the canonical text of its arguments. */
  datatype Proposal = Proposal(tool: string, arguments: Json, digest: Text)

  predicate Proposable(p: Proposal, check: ArgumentCheck) {
    && p.tool in WRITE_TOOLS && check(p.tool, p.arguments)
    && Valid(p.arguments) && Canonical(p.arguments) == Ok(p.digest)
  }

  function Rec(p: Proposal, status: Status): Record {
    Record("a", "r", "t", p.tool, p.arguments, p.digest, 1, 0, 600000, status)
  }

  function Approving(p: Proposal): DecisionInput {
    DecisionInput("a", "r", "t", p.digest, 1, ApproveOnce)
  }

  function Act(recovered: bool, revision: nat, phase: Phase, critical: Option<nat>): Activation {
    Activation("r", revision, phase, recovered, critical)
  }

  function Waits(recovered: bool): Phase {
    if recovered then Suspended else Running
  }

  function With(approvals: map<string, Record>, run: Activation, tasks: map<nat, Task>): State {
    State(approvals, [], map[0 := run], map["r" := 0], map[], tasks)
  }

  /** Up to the point where the decision has been stored and noted. */
  function Decides(p: Proposal, recovered: bool, k: nat): State {
    var pending, approved := map["a" := Rec(p, Pending)], map["a" := Rec(p, Approved)];
    var owned := Act(recovered, 1, Waits(recovered), Some(1));
    match k
    case 0 => EMPTY
    case 1 => With(map[], Act(recovered, 0, Waits(recovered), None), map[])
    case 2 => With(pending, Act(recovered, 1, Waits(recovered), None), map[])
    case 3 => With(pending, owned, map[1 := Deciding(0, Approving(p))])
    case 4 => With(pending, owned, map[1 := Choosing(0, Approving(p), Rec(p, Pending))])
    case 5 => With(approved, owned, map[1 := Chosen(0, Rec(p, Approved), ApproveOnce)])
    case _ =>
      With(approved, Act(recovered, 2, Running, Some(1)), map[1 := Announcing(0, Rec(p, Approved), ApproveOnce)]).(
        slots := if recovered then map[] else map["r:t" := Rec(p, Approved)])
  }

  function DecidingStep(p: Proposal, recovered: bool, now: nat, k: nat): Step {
    match k
    case 0 => Activate(0, "r", 0, recovered)
    case 1 => Propose(0, "a", "t", p.tool, p.arguments, 0)
    case 2 => BeginDecision(1, 0, Approving(p))
    case 3 => ReadForDecision(1, now)
    case 4 => PersistDecision(1)
    case _ => NoteDecision(1, true)
  }

  lemma Opening(p: Proposal, recovered: bool, now: nat, k: nat, check: ArgumentCheck)
    requires Proposable(p, check) && now < 10 * 60 * 1000 && k < 3
    ensures Enabled(Decides(p, recovered, k), DecidingStep(p, recovered, now, k))
    ensures Next(Decides(p, recovered, k), DecidingStep(p, recovered, now, k), check) == Decides(p, recovered, k + 1)
  {
    hide Canonical, Valid, EndOperation;
    var s, s' := Decides(p, recovered, k), Decides(p, recovered, k + 1);
    match k {
      case 0 =>
      case 1 => assert ProposeStep(s, 0, "a", "t", p.tool, p.arguments, 0, check) == s';
      case _ => assert BeginStep(s, 1, 0, Approving(p)) == s';
    }
  }

  lemma Reading(p: Proposal, recovered: bool, now: nat, check: ArgumentCheck)
    requires Proposable(p, check) && now < 10 * 60 * 1000
    ensures Enabled(Decides(p, recovered, 3), DecidingStep(p, recovered, now, 3))
    ensures Next(Decides(p, recovered, 3), DecidingStep(p, recovered, now, 3), check) == Decides(p, recovered, 4)
  {
    hide Canonical, Valid, EndOperation;
    assert ReadStep(Decides(p, recovered, 3), 1, now, check) == Decides(p, recovered, 4);
  }

  lemma StoredState(p: Proposal, recovered: bool)
    ensures PersistStep(Decides(p, recovered, 4), 1) == Decides(p, recovered, 5)
  {
    hide EndOperation;
  }

  lemma NotedState(p: Proposal, recovered: bool)
    ensures NoteStep(Decides(p, recovered, 5), 1, true) == Decides(p, recovered, 6)
  {
    hide EndOperation;
    assert ToolKey("r", "t") == "r:t";
  }

  lemma Storing(p: Proposal, recovered: bool, now: nat, k: nat, check: ArgumentCheck)
    requires 4 <= k < 6
    ensures Enabled(Decides(p, recovered, k), DecidingStep(p, recovered, now, k))
    ensures Next(Decides(p, recovered, k), DecidingStep(p, recovered, now, k), check) == Decides(p, recovered, k + 1)
  {
    hide PersistStep, NoteStep;
    StoredState(p, recovered);
    NotedState(p, recovered);
  }

  // ------------------------------------------------------------------- carried out

  /** The rest on a live run: the call takes the slot. */
  function Live(p: Proposal, now: nat, k: nat): State {
    var approved := map["a" := Rec(p, Approved)];
    var free, owned := Act(false, 2, Running, None), Act(false, 2, Running, Some(2));
    var a := Rec(p, Approved);
    match k
    case 0 => Decides(p, false, 6)
    case 1 => With(approved, free, map[1 := Finished]).(slots := map["r:t" := a])
    case 2 => With(approved, free, map[1 := Finished, 2 := Starting(0, a, p.tool, p.arguments)])
    case 3 => With(approved, owned, map[1 := Finished, 2 := Validating(0, a, p.tool, p.arguments)])
    case 4 => With(approved, owned, map[1 := Finished, 2 := Executing(0, a, p.tool, p.arguments, now)])
    case _ => With(approved, free, map[1 := Finished, 2 := Finished]).(log := [Execution(a, p.tool, p.arguments, now)])
  }

  function LiveStep(p: Proposal, now: nat, k: nat): Step {
    match k
    case 0 => Announced(1, true)
    case 1 => Call(2, 0, "t", p.tool, p.arguments, "a", p.digest, 1)
    case 2 => StartAnnounced(2, true)
    case 3 => Revalidate(2, now)
    case _ => Execute(2, true)
  }

  lemma LiveAnnounced(p: Proposal, now: nat)
    ensures AnnouncedStep(Live(p, now, 0), 1, true) == Live(p, now, 1)
  {
  }

  lemma LiveTaken(p: Proposal, now: nat, check: ArgumentCheck)
    requires Proposable(p, check)
    ensures CallStep(Live(p, now, 1), 2, 0, "t", p.tool, p.arguments, "a", p.digest, 1) == Live(p, now, 2)
  {
    hide Canonical, Valid;
    assert ToolKey("r", "t") == "r:t";
  }

  lemma LiveStarted(p: Proposal, now: nat)
    ensures StartStep(Live(p, now, 2), 2, true) == Live(p, now, 3)
  {
    hide EndOperation;
  }

  lemma LiveValidated(p: Proposal, now: nat, check: ArgumentCheck)
    requires Proposable(p, check) && now < 10 * 60 * 1000
    ensures RevalidateStep(Live(p, now, 3), 2, now, check) == Live(p, now, 4)
  {
    hide Canonical, Valid, EndOperation;
  }

  lemma LiveLogged(p: Proposal, now: nat)
    ensures ExecuteStep(Live(p, now, 4), 2, true) == Live(p, now, 5)
  {
  }

  lemma LiveCalls(p: Proposal, now: nat, k: nat, check: ArgumentCheck)
    requires Proposable(p, check) && k < 2
    ensures Enabled(Live(p, now, k), LiveStep(p, now, k))
    ensures Next(Live(p, now, k), LiveStep(p, now, k), check) == Live(p, now, k + 1)
  {
    hide Canonical, Valid, AnnouncedStep, CallStep;
    LiveAnnounced(p, now);
    LiveTaken(p, now, check);
  }

  lemma LiveExecutes(p: Proposal, now: nat, k: nat, check: ArgumentCheck)
    requires Proposable(p, check) && now < 10 * 60 * 1000 && 2 <= k < 5
    ensures Enabled(Live(p, now, k), LiveStep(p, now, k))
    ensures Next(Live(p, now, k), LiveStep(p, now, k), check) == Live(p, now, k + 1)
  {
    hide Canonical, Valid, StartStep, RevalidateStep, ExecuteStep;
    match k {
      case 2 => LiveStarted(p, now);
      case 3 => LiveValidated(p, now, check);
      case _ => LiveLogged(p, now);
    }
  }

  /** The rest on a recovered run: the decision carries the call out itself. */
  function Recovered(p: Proposal, now: nat, k: nat): State {
    var approved, a := map["a" := Rec(p, Approved)], Rec(p, Approved);
    var owned := Act(true, 2, Running, Some(1));
    match k
    case 0 => Decides(p, true, 6)
    case 1 => With(approved, owned, map[1 := Resolving(0, a)])
    case 2 => With(approved, owned, map[1 := Validating(0, a, p.tool, p.arguments)])
    case 3 => With(approved, owned, map[1 := Executing(0, a, p.tool, p.arguments, now)])
    case _ =>
      With(approved, Act(true, 2, Running, None), map[1 := Finished]).(log := [Execution(a, p.tool, p.arguments, now)])
  }

  function RecoveredStep(p: Proposal, now: nat, k: nat): Step {
    match k
    case 0 => Announced(1, true)
    case 1 => StartAnnounced(1, true)
    case 2 => Revalidate(1, now)
    case _ => Execute(1, true)
  }

  lemma RecoveredAnnounced(p: Proposal, now: nat)
    ensures AnnouncedStep(Recovered(p, now, 0), 1, true) == Recovered(p, now, 1)
    ensures StartStep(Recovered(p, now, 1), 1, true) == Recovered(p, now, 2)
  {
    hide EndOperation;
  }

  lemma RecoveredValidated(p: Proposal, now: nat, check: ArgumentCheck)
    requires Proposable(p, check) && now < 10 * 60 * 1000
    ensures RevalidateStep(Recovered(p, now, 2), 1, now, check) == Recovered(p, now, 3)
  {
    hide Canonical, Valid, EndOperation;
  }

  lemma RecoveredLogged(p: Proposal, now: nat)
    ensures ExecuteStep(Recovered(p, now, 3), 1, true) == Recovered(p, now, 4)
  {
  }

  lemma RecoveredExecutes(p: Proposal, now: nat, k: nat, check: ArgumentCheck)
    requires Proposable(p, check) && now < 10 * 60 * 1000 && k < 4
    ensures Enabled(Recovered(p, now, k), RecoveredStep(p, now, k))
    ensures Next(Recovered(p, now, k), RecoveredStep(p, now, k), check) == Recovered(p, now, k + 1)
  {
    hide Canonical, Valid, AnnouncedStep, StartStep, RevalidateStep, ExecuteStep;
    RecoveredAnnounced(p, now);
    match k {
      case 0 =>
      case 1 =>
      case 2 => RecoveredValidated(p, now, check);
      case _ => RecoveredLogged(p, now);
    }
  }

  /** Every proposal that is approved within ten minutes can be carried out, live or recovered. */
  lemma ApprovedIsCarriedOut(p: Proposal, recovered: bool, now: nat, check: ArgumentCheck)
    returns (trace: seq<State>, steps: seq<Step>)
    requires Proposable(p, check) && now < 10 * 60 * 1000
    ensures Run(trace, steps, check)
    ensures trace[|steps|].log == [Execution(Rec(p, Approved), p.tool, p.arguments, now)]
  {
    hide Next, Enabled, Decides, Live, Recovered, DecidingStep, LiveStep, RecoveredStep, Proposable;
    var rest := if recovered then 4 else 5;
    var state := (k: nat) => if k <= 6 then Decides(p, recovered, k)
                             else if recovered then Recovered(p, now, k - 6) else Live(p, now, k - 6);
    var step := (k: nat) => if k < 6 then DecidingStep(p, recovered, now, k)
                            else if recovered then RecoveredStep(p, now, k - 6) else LiveStep(p, now, k - 6);
    trace, steps := seq(7 + rest, state), seq(6 + rest, step);
    Ends(p, recovered, now);
    forall k | 0 <= k < |steps| ensures Enabled(trace[k], steps[k]) && trace[k + 1] == Next(trace[k], steps[k], check) {
      if k < 3 { Opening(p, recovered, now, k, check); }
      else if k == 3 { Reading(p, recovered, now, check); }
      else if k < 6 { Storing(p, recovered, now, k, check); }
      else if recovered { RecoveredExecutes(p, now, k - 6, check); }
      else if k < 8 { LiveCalls(p, now, k - 6, check); }
      else { LiveExecutes(p, now, k - 6, check); }
    }
  }

  lemma Ends(p: Proposal, recovered: bool, now: nat)
    ensures Decides(p, recovered, 0) == EMPTY
    ensures Live(p, now, 0) == Decides(p, false, 6) && Recovered(p, now, 0) == Decides(p, true, 6)
    ensures Live(p, now, 5).log == [Execution(Rec(p, Approved), p.tool, p.arguments, now)]
    ensures Recovered(p, now, 4).log == [Execution(Rec(p, Approved), p.tool, p.arguments, now)]
  {
  }
}
