/** What a process whose own keychain calls succeed answers, in every interleaving with any others. */
module VaultOutcomes {
  import opened Wrappers
  import opened VaultBroker

  // ------------------------------------------------------------------- processes

  /** Process `i` is the one that event `n` starts. */
  ghost predicate Starts(start: Target, legacy: LegacyItems, events: seq<Event>, n: nat, i: nat, e: Event) {
    n < |events| && events[n] == e && |Run(start, legacy, events[..n]).procs| == i
  }

  /** None of the keychain calls of process `i` fails. */
  predicate Honest(events: seq<Event>, i: nat) {
    forall m | 0 <= m < |events| && events[m].Call? && events[m].proc == i :: !events[m].choice.fails
  }

  function Calls(events: seq<Event>, i: nat): nat {
    if events == [] then 0
    else
      var last := events[|events| - 1];
      Calls(events[..|events| - 1], i) + if last.Call? && last.proc == i then 1 else 0
  }

  /** Whether process `i` has put an item into the keychain itself. */
  function Added(start: Target, legacy: LegacyItems, events: seq<Event>, i: nat): bool {
    if events == [] then false
    else
      var front, last := events[..|events| - 1], events[|events| - 1];
      || Added(start, legacy, front, i)
      || (last.Call? && last.proc == i && Run(start, legacy, front).target != Run(start, legacy, events).target)
  }

  /** The authoritative legacy item is in the account it belongs to. */
  predicate Imported(t: Target, legacy: LegacyItems) {
    !NoLegacy(legacy) && t == if Authority(legacy).migrated then Target(None, Some(Authority(legacy).key))
                              else Target(Some(Authority(legacy).key), None)
  }

  /** What LOAD may answer, by what the keychain held at first and holds now. */
  predicate LoadAnswer(start: Target, legacy: LegacyItems, t: Target, r: Response) {
    match (start.current, start.migrated)
    case (Some(k), None) => r == Available(k, Current, false)
    case (None, Some(k)) => r == Available(k, Legacy, true)
    case (Some(k), Some(m)) => r == if k == m then Available(k, Current, false) else Conflict
    case (None, None) =>
      if NoLegacy(legacy) then t.current.Some? && r == Available(t.current.value, Current, false)
      else
        || r == MigrationRequired
        || (Imported(t, legacy) &&
            var a := Authority(legacy);
            r == if a.migrated then Available(a.key, Legacy, true) else Available(a.key, Current, false))
  }

  /** What IMPORT answers; it reports a migration exactly if it added a migrated item itself. */
  predicate ImportAnswer(start: Target, legacy: LegacyItems, t: Target, added: bool, r: Response) {
    if NoLegacy(legacy) then r == Unavailable
    else
      var a := Authority(legacy);
      if Empty(start) then
        Imported(t, legacy) && r == Available(a.key, if a.migrated then Legacy else Current, a.migrated && added)
      else if Imported(start, legacy) || (!a.migrated && start == Target(Some(a.key), Some(a.key)))
      then r == Available(a.key, if a.migrated then Legacy else Current, false)
      else r == Conflict
  }

  /** Where such a process can stand. */
  predicate Sound(start: Target, legacy: LegacyItems, t: Target, phase: Phase, importing: bool, added: bool) {
    && PhaseOk(start, legacy, t, phase) && (added ==> phase.VerifyCurrent? || phase.VerifyMigrated? || phase.Finished?)
    &&
    match phase
    case LoadCurrent => !importing
    case LoadMigrated(current) => !importing && !current.Unreadable?
    case LoadSource(_) => !importing
    case LoadAdd(_) => !importing
    case WinnerCurrent => !importing && Empty(start) && NoLegacy(legacy) && t.current.Some?
    case WinnerMigrated(current) =>
      && !importing && Empty(start) && NoLegacy(legacy)
      && t.current.Some? && current == Present(t.current.value)
    case ImportSource(_) => importing
    case ImportCurrent(_) => importing
    case ImportMigrated(_, current) => importing && !current.Unreadable?
    case ImportAdd(_) => importing
    case VerifyCurrent(want, duplicate) =>
      && Empty(start) && Admissible(legacy, want) && Written(t, want) && importing == !NoLegacy(legacy)
      && (duplicate ==> importing) && added == !duplicate
    case VerifyMigrated(want, duplicate, current) =>
      && Empty(start) && Admissible(legacy, want) && Written(t, want) && importing == !NoLegacy(legacy)
      && (duplicate ==> importing) && added == !duplicate
      && current == if want.migrated then Missing else Present(want.key)
    case Finished(r) => if importing then ImportAnswer(start, legacy, t, added, r) else LoadAnswer(start, legacy, t, r)
  }

  predicate Written(t: Target, want: Intent) {
    t == if want.migrated then Target(None, Some(want.key)) else Target(Some(want.key), None)
  }

  lemma SoundStep(start: Target, legacy: LegacyItems, t: Target, phase: Phase, importing: bool, added: bool, c: Choice)
    requires TargetOk(start, legacy, t) && Sound(start, legacy, t, phase, importing, added) && !c.fails
    ensures var (phase', t') := Step(phase, t, legacy, c); Sound(start, legacy, t', phase', importing, added || t != t')
  {
    StepPhase(start, legacy, phase, t, c);
    match phase
    case LoadSource(index) => if index >= SOURCES { NoSource(legacy); }
    case ImportSource(index) => if index >= SOURCES { NoSource(legacy); }
    case _ =>
  }

  lemma SoundSurvives(
    start: Target, legacy: LegacyItems, t: Target, t': Target, phase: Phase, importing: bool, added: bool)
    requires TargetOk(start, legacy, t) && TargetOk(start, legacy, t') && Extends(t, t')
    requires Sound(start, legacy, t, phase, importing, added)
    ensures Sound(start, legacy, t', phase, importing, added)
  {
    PhaseSurvives(start, legacy, t, t', phase);
  }

  /** How many more calls a process makes at most. */
  function Left(phase: Phase): int {
    match phase
    case LoadCurrent => 9
    case LoadMigrated(_) => 8
    case LoadSource(index) => 7 - index
    case LoadAdd(_) => 3
    case WinnerCurrent => 2
    case WinnerMigrated(_) => 1
    case ImportSource(index) => 8 - index
    case ImportCurrent(_) => 5
    case ImportMigrated(_, _) => 4
    case ImportAdd(_) => 3
    case VerifyCurrent(_, _) => 2
    case VerifyMigrated(_, _, _) => 1
    case Finished(_) => 0
  }

  lemma LeftFalls(start: Target, legacy: LegacyItems, t: Target, phase: Phase, c: Choice)
    requires PhaseOk(start, legacy, t, phase)
    ensures Left(phase) >= 0 && (Left(phase) == 0 <==> phase.Finished?)
    ensures var next := Step(phase, t, legacy, c).0; phase.Finished? || Left(next) < Left(phase)
  {
  }

  lemma {:induction false} NotYet(start: Target, legacy: LegacyItems, events: seq<Event>, i: nat)
    requires |Run(start, legacy, events).procs| <= i
    ensures !Added(start, legacy, events, i)
  {
    if events != [] { NotYet(start, legacy, events[..|events| - 1], i); }
  }

  ghost predicate Stands(start: Target, legacy: LegacyItems, events: seq<Event>, n: nat, i: nat, importing: bool)
    requires n < |events|
  {
    var w := Run(start, legacy, events);
    && i < |w.procs|
    && Sound(start, legacy, w.target, w.procs[i], importing, Added(start, legacy, events, i))
    && (w.procs[i].Finished? || Left(w.procs[i]) + Calls(events[n + 1..], i) <= 9)
  }

  /** Such a process stands soundly whatever the others do, and a call of its own brings it nearer to its end. */
  lemma {:induction false} HonestStands(
    start: Target, legacy: LegacyItems, events: seq<Event>, n: nat, i: nat, importing: bool)
    requires Starts(start, legacy, events, n, i, if importing then StartImport else StartLoad) && Honest(events, i)
    ensures Stands(start, legacy, events, n, i, importing)
  {
    hide Sound, PhaseOk, TargetOk, Step, Left, Extends;
    var last := |events| - 1;
    var front, e := events[..last], events[last];
    RunKeeps(start, legacy, front);
    var w := Run(start, legacy, front);
    NextKeeps(start, legacy, w, e);
    if n == last {
      NotYet(start, legacy, front, i);
      Fresh(start, legacy, w.target, importing);
      assert events[n + 1..] == [];
    } else {
      assert front[..n] == events[..n] && front[n + 1..] == events[n + 1..][..last - n - 1];
      HonestStands(start, legacy, front, n, i, importing);
      var added := Added(start, legacy, front, i);
      var own := e.Call? && e.proc == i;
      if own {
        assert PhaseOk(start, legacy, w.target, w.procs[i]);
        SoundStep(start, legacy, w.target, w.procs[i], importing, added, e.choice);
        LeftFalls(start, legacy, w.target, w.procs[i], e.choice);
        FinishedStops(w.procs[i], w.target, legacy, e.choice);
      } else {
        SoundSurvives(start, legacy, w.target, Next(w, legacy, e).target, w.procs[i], importing, added);
      }
    }
  }

  lemma FinishedStops(phase: Phase, t: Target, legacy: LegacyItems, c: Choice)
    ensures phase.Finished? ==> Step(phase, t, legacy, c).0.Finished?
  {
  }

  lemma Fresh(start: Target, legacy: LegacyItems, t: Target, importing: bool)
    ensures Sound(start, legacy, t, if importing then ImportSource(0) else LoadCurrent, importing, false)
    ensures Left(if importing then ImportSource(0) else LoadCurrent) <= 9
  {
  }

  // -------------------------------------------------------------------- theorems

  /** A LOAD whose calls succeed ends within nine of them, with the key that is there or as the keychain demands. */
  lemma HonestLoadAnswers(start: Target, legacy: LegacyItems, events: seq<Event>, n: nat, i: nat)
    requires Starts(start, legacy, events, n, i, StartLoad) && Honest(events, i)
    ensures var w := Run(start, legacy, events);
            && i < |w.procs|
            && (Calls(events[n + 1..], i) >= 9 ==> w.procs[i].Finished?)
            && (w.procs[i].Finished? ==> LoadAnswer(start, legacy, w.target, w.procs[i].response))
  {
    HonestStands(start, legacy, events, n, i, false);
    RunKeeps(start, legacy, events);
    var w := Run(start, legacy, events);
    LeftFalls(start, legacy, w.target, w.procs[i], Choice(false, []));
    hide Run, Calls, Left;
  }

  /** An IMPORT whose calls succeed ends within nine of them, with the authoritative key unless another one is there. */
  lemma HonestImportAnswers(start: Target, legacy: LegacyItems, events: seq<Event>, n: nat, i: nat)
    requires Starts(start, legacy, events, n, i, StartImport) && Honest(events, i)
    ensures var w := Run(start, legacy, events);
            && i < |w.procs|
            && (Calls(events[n + 1..], i) >= 9 ==> w.procs[i].Finished?)
            && (w.procs[i].Finished? ==>
                  ImportAnswer(start, legacy, w.target, Added(start, legacy, events, i), w.procs[i].response))
  {
    HonestStands(start, legacy, events, n, i, true);
    RunKeeps(start, legacy, events);
    var w := Run(start, legacy, events);
    LeftFalls(start, legacy, w.target, w.procs[i], Choice(false, []));
    hide Run, Calls, Left;
  }

  // ----------------------------------------------------------------- LOADs alone

  /** The generator gave this key to a process that had found neither a target nor a legacy item. */
  ghost predicate Generated(start: Target, legacy: LegacyItems, events: seq<Event>, key: Key) {
    exists m | 0 <= m < |events| :: Gives(start, legacy, events, m, key)
  }

  ghost predicate Gives(start: Target, legacy: LegacyItems, events: seq<Event>, m: nat, key: Key)
    requires m < |events|
  {
    var w := Run(start, legacy, events[..m]);
    && events[m].Call? && events[m].proc < |w.procs| && events[m].choice.random == key
    && w.procs[events[m].proc].LoadSource? && w.procs[events[m].proc].index >= 3
  }

  /** The places of a LOAD, holding at most a generated key. */
  ghost predicate LoadPhase(start: Target, legacy: LegacyItems, events: seq<Event>, phase: Phase) {
    match phase
    case LoadAdd(key) => Generated(start, legacy, events, key)
    case ImportSource(_) => false
    case ImportCurrent(_) => false
    case ImportMigrated(_, _) => false
    case ImportAdd(_) => false
    case _ => true
  }

  ghost predicate LoadWorld(start: Target, legacy: LegacyItems, events: seq<Event>, w: World) {
    && (forall i | 0 <= i < |w.procs| :: LoadPhase(start, legacy, events, w.procs[i]))
    && (w.target == start || (w.target.current.Some? && Generated(start, legacy, events, w.target.current.value)))
    && (!NoLegacy(legacy) ==> w.target == start)
  }

  lemma GeneratedStays(start: Target, legacy: LegacyItems, events: seq<Event>, e: Event, key: Key)
    requires Generated(start, legacy, events, key)
    ensures Generated(start, legacy, events + [e], key)
  {
    hide Run;
    var m :| 0 <= m < |events| && Gives(start, legacy, events, m, key);
    assert (events + [e])[..m] == events[..m] && (events + [e])[m] == events[m];
    assert Gives(start, legacy, events + [e], m, key);
  }

  lemma {:induction false} OnlyLoads(start: Target, legacy: LegacyItems, events: seq<Event>)
    requires StartImport !in events
    ensures LoadWorld(start, legacy, events, Run(start, legacy, events))
  {
    if events != [] {
      var last := |events| - 1;
      var front, e := events[..last], events[last];
      assert front + [e] == events;
      OnlyLoads(start, legacy, front);
      RunKeeps(start, legacy, front);
      var w := Run(start, legacy, front);
      forall key | Generated(start, legacy, front, key) ensures Generated(start, legacy, events, key) {
        GeneratedStays(start, legacy, front, e, key);
      }
      if e.Call? && e.proc < |w.procs| {
        if w.procs[e.proc].LoadSource? && w.procs[e.proc].index >= 3 {
          assert Gives(start, legacy, events, last, e.choice.random);
        }
        LoadPhaseSteps(start, legacy, events, w, e.proc, e.choice);
      }
    }
  }

  lemma LoadPhaseSteps(start: Target, legacy: LegacyItems, events: seq<Event>, w: World, i: nat, c: Choice)
    requires i < |w.procs| && WorldOk(start, legacy, w) && LoadWorld(start, legacy, events, w)
    requires w.procs[i].LoadSource? && w.procs[i].index >= 3 ==> Generated(start, legacy, events, c.random)
    ensures LoadWorld(start, legacy, events, Next(w, legacy, Call(i, c)))
  {
    hide Generated;
    assert PhaseOk(start, legacy, w.target, w.procs[i]);
  }

  /** With LOADs alone, each answers with a generated key, or asks for a migration if there is something to migrate. */
  lemma LoadsOnEmpty(start: Target, legacy: LegacyItems, events: seq<Event>, n: nat, i: nat)
    requires Starts(start, legacy, events, n, i, StartLoad) && Honest(events, i) && StartImport !in events
    requires Empty(start)
    ensures var w := Run(start, legacy, events);
            && i < |w.procs|
            && (w.procs[i].Finished? ==>
                  var r := w.procs[i].response;
                  if NoLegacy(legacy)
                  then r.Available? && r == Available(r.key, Current, false) && Generated(start, legacy, events, r.key)
                  else r == MigrationRequired)
  {
    hide Run, Generated;
    HonestLoadAnswers(start, legacy, events, n, i);
    OnlyLoads(start, legacy, events);
  }

  /** A lone IMPORT into an empty target answers with the authoritative key, as migrated exactly if it is. */
  lemma LoneImport(start: Target, legacy: LegacyItems, events: seq<Event>)
    requires events != [] && events[0] == StartImport && Honest(events, 0) && Empty(start) && !NoLegacy(legacy)
    requires forall m | 0 < m < |events| :: events[m].Call? && events[m].proc == 0
    ensures var w, a := Run(start, legacy, events), Authority(legacy);
            && |w.procs| == 1 && (|events| >= 10 ==> w.procs[0].Finished?)
            && (w.procs[0].Finished? ==>
                  w.procs[0].response == Available(a.key, if a.migrated then Legacy else Current, a.migrated))
  {
    hide Added, Authority;
    assert Starts(start, legacy, events, 0, 0, StartImport);
    HonestImportAnswers(start, legacy, events, 0, 0);
    LoneAdds(start, legacy, events);
    LoneCalls(events[1..]);
    hide Run, Calls;
  }

  lemma {:induction false} LoneCalls(events: seq<Event>)
    requires forall m | 0 <= m < |events| :: events[m].Call? && events[m].proc == 0
    ensures Calls(events, 0) == |events|
  {
    if events != [] { LoneCalls(events[..|events| - 1]); }
  }

  lemma {:induction false} LoneAdds(start: Target, legacy: LegacyItems, events: seq<Event>)
    requires events != [] && events[0] == StartImport
    requires forall m | 0 < m < |events| :: events[m].Call? && events[m].proc == 0
    ensures |Run(start, legacy, events).procs| == 1
    ensures Run(start, legacy, events).target != start ==> Added(start, legacy, events, 0)
  {
    hide Step;
    var last := |events| - 1;
    if last > 0 {
      LoneAdds(start, legacy, events[..last]);
    } else {
      assert events[..0] == [];
    }
  }

  // -------------------------------------------------------------------- failures

  /** A read whose answer is settled by the other account's read. */
  predicate FirstRead(phase: Phase) {
    phase.LoadCurrent? || phase.WinnerCurrent? || phase.ImportCurrent? || phase.VerifyCurrent?
  }

  /** A failed call adds nothing and makes the answer unavailable, or a conflict once another process has won. */
  lemma FailedCall(phase: Phase, t: Target, legacy: LegacyItems, c: Choice, t': Target, c': Choice)
    requires c.fails && !phase.Finished? && (phase.LoadSource? ==> phase.index < 3)
    ensures var (next, after) := Step(phase, t, legacy, c);
            && after == t
            && var answer := if FirstRead(phase) then Step(next, t', legacy, c').0 else next;
               answer == Finished(if phase.WinnerCurrent? || phase.WinnerMigrated? then Conflict else Unavailable)
  {
  }
}
