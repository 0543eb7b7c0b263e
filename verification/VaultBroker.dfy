/**
 The vault broker: any number of one-shot processes run LOAD or IMPORT against one shared,
 add-only keychain. Every keychain call is one atomic step that may instead report the
 item unavailable; between calls the processes interleave freely.
 */
module VaultBroker {
  import opened Wrappers

  type Key = seq<bv8>

  datatype Version = Current | Legacy

  datatype Response =
    | Available(key: Key, version: Version, migrated: bool)
    | MigrationRequired
    | Unavailable
    | Conflict

  /** The two accounts of the target service. */
  datatype Target = Target(current: Option<Key>, migrated: Option<Key>)

  datatype Item = Missing | Present(key: Key) | Unreadable

  /** A legacy item, if its service and account hold one; the three are read in this order. */
  datatype LegacyItems = LegacyItems(signedMigrated: Option<Key>, signedCurrent: Option<Key>, devLegacy: Option<Key>)

  const SOURCES := 3

  function SourceItem(legacy: LegacyItems, index: nat): Option<Key>
    requires index < SOURCES
  {
    if index == 0 then legacy.signedMigrated else if index == 1 then legacy.signedCurrent else legacy.devLegacy
  }

  /** Whether a source goes to the migrated account; the legacy version goes with it. */
  predicate SourceMigrated(index: nat)
    requires index < SOURCES
  {
    index != 1
  }

  function VersionOf(migrated: bool): Version {
    if migrated then Legacy else Current
  }

  /** The account and key a process is about to establish. */
  datatype Intent = Intent(key: Key, migrated: bool)

  /** The next keychain call of a process. */
  datatype Phase =
    | LoadCurrent
    | LoadMigrated(current: Item)
    | LoadSource(index: nat)
    | LoadAdd(key: Key)
    | WinnerCurrent
    | WinnerMigrated(current: Item)
    | ImportSource(index: nat)
    | ImportCurrent(want: Intent)
    | ImportMigrated(want: Intent, current: Item)
    | ImportAdd(want: Intent)
    | VerifyCurrent(want: Intent, duplicate: bool)
    | VerifyMigrated(want: Intent, duplicate: bool, current: Item)
    | Finished(response: Response)

  function Read(item: Option<Key>, fails: bool): Item {
    if fails then Unreadable else if item.Some? then Present(item.value) else Missing
  }

  datatype Loaded = NoTarget | Found(response: Response)

  /** What the two reads of the target accounts add up to. */
  function LoadTarget(current: Item, migrated: Item): Loaded {
    if current.Unreadable? || migrated.Unreadable? then Found(Unavailable)
    else if current.Missing? && migrated.Missing? then NoTarget
    else if current.Present? && migrated.Present? && current.key != migrated.key then Found(Conflict)
    else if current.Present? then Found(Available(current.key, Current, false))
    else Found(Available(migrated.key, Legacy, true))
  }

  function Add(target: Target, migrated: bool, key: Key): Target {
    if migrated then target.(migrated := Some(key)) else target.(current := Some(key))
  }

  predicate Duplicate(target: Target, migrated: bool) {
    if migrated then target.migrated.Some? else target.current.Some?
  }

  /** A readable target is accepted by IMPORT only if it is exactly the authoritative source. */
  function ImportExisting(want: Intent, found: Response): Response {
    if !found.Available? then found
    else if found == Available(want.key, VersionOf(want.migrated), want.migrated)
    then found.(migrated := false)
    else Conflict
  }

  function Verified(want: Intent, duplicate: bool, loaded: Loaded): Response {
    match loaded
    case Found(Available(key, version, migrated)) =>
      if key == want.key && version == VersionOf(want.migrated) && migrated == want.migrated
      then Available(key, version, migrated && !duplicate) else Conflict
    case Found(Conflict) => Conflict
    case _ => Unavailable
  }

  /** `fails` lets the call report unavailable; `random` is what the generator returns. */
  datatype Choice = Choice(fails: bool, random: Key)

  function Step(phase: Phase, target: Target, legacy: LegacyItems, c: Choice): (Phase, Target) {
    match phase
    case LoadCurrent => (LoadMigrated(Read(target.current, c.fails)), target)
    case LoadMigrated(current) =>
      (match LoadTarget(current, Read(target.migrated, c.fails))
       case NoTarget => LoadSource(0)
       case Found(r) => Finished(r), target)
    case LoadSource(index) =>
      if index >= SOURCES then (LoadAdd(c.random), target)
      else
        (match Read(SourceItem(legacy, index), c.fails)
         case Unreadable => Finished(Unavailable)
         case Present(_) => Finished(MigrationRequired)
         case Missing => LoadSource(index + 1), target)
    case LoadAdd(key) =>
      if c.fails then (Finished(Unavailable), target)
      else if Duplicate(target, false) then (WinnerCurrent, target)
      else (VerifyCurrent(Intent(key, false), false), Add(target, false, key))
    case WinnerCurrent => (WinnerMigrated(Read(target.current, c.fails)), target)
    case WinnerMigrated(current) =>
      (match LoadTarget(current, Read(target.migrated, c.fails))
       case Found(Available(key, version, migrated)) => Finished(Available(key, version, migrated))
       case _ => Finished(Conflict), target)
    case ImportSource(index) =>
      if index >= SOURCES then (Finished(Unavailable), target)
      else
        (match Read(SourceItem(legacy, index), c.fails)
         case Unreadable => Finished(Unavailable)
         case Present(key) => ImportCurrent(Intent(key, SourceMigrated(index)))
         case Missing => ImportSource(index + 1), target)
    case ImportCurrent(want) => (ImportMigrated(want, Read(target.current, c.fails)), target)
    case ImportMigrated(want, current) =>
      (match LoadTarget(current, Read(target.migrated, c.fails))
       case NoTarget => ImportAdd(want)
       case Found(r) => Finished(ImportExisting(want, r)), target)
    case ImportAdd(want) =>
      if c.fails then (Finished(Unavailable), target)
      else if Duplicate(target, want.migrated) then (VerifyCurrent(want, true), target)
      else (VerifyCurrent(want, false), Add(target, want.migrated, want.key))
    case VerifyCurrent(want, duplicate) => (VerifyMigrated(want, duplicate, Read(target.current, c.fails)), target)
    case VerifyMigrated(want, duplicate, current) =>
      (Finished(Verified(want, duplicate, LoadTarget(current, Read(target.migrated, c.fails)))), target)
    case Finished(_) => (phase, target)
  }

  // ---------------------------------------------------------------------- runs

  datatype World = World(target: Target, procs: seq<Phase>)

  datatype Event = StartLoad | StartImport | Call(proc: nat, choice: Choice)

  function Next(w: World, legacy: LegacyItems, e: Event): World {
    match e
    case StartLoad => w.(procs := w.procs + [LoadCurrent])
    case StartImport => w.(procs := w.procs + [ImportSource(0)])
    case Call(i, c) =>
      if i >= |w.procs| then w
      else
        var (phase, target) := Step(w.procs[i], w.target, legacy, c);
        World(target, w.procs[i := phase])
  }

  function Run(start: Target, legacy: LegacyItems, events: seq<Event>): World {
    if events == [] then World(start, [])
    else Next(Run(start, legacy, events[..|events| - 1]), legacy, events[|events| - 1])
  }

  // ---------------------------------------------------------------- invariants

  predicate Empty(t: Target) {
    t.current.None? && t.migrated.None?
  }

  predicate NoLegacy(legacy: LegacyItems) {
    legacy.signedMigrated.None? && legacy.signedCurrent.None? && legacy.devLegacy.None?
  }

  /** The authoritative legacy item: the first of the three that exists. */
  function Authority(legacy: LegacyItems): Intent
    requires !NoLegacy(legacy)
  {
    if legacy.signedMigrated.Some? then Intent(legacy.signedMigrated.value, true)
    else if legacy.signedCurrent.Some? then Intent(legacy.signedCurrent.value, false)
    else Intent(legacy.devLegacy.value, true)
  }

  /** What may be added to an empty target: one account, and with a legacy item only its key. */
  predicate Admissible(legacy: LegacyItems, want: Intent) {
    if NoLegacy(legacy) then !want.migrated else want == Authority(legacy)
  }

  /** The target is as it was found, or was empty and holds one admissible item. */
  predicate TargetOk(start: Target, legacy: LegacyItems, t: Target) {
    || t == start
    || (Empty(start) && t.current.Some? && t.migrated.None? && Admissible(legacy, Intent(t.current.value, false)))
    || (Empty(start) && t.migrated.Some? && t.current.None? && Admissible(legacy, Intent(t.migrated.value, true)))
  }

  /** What one look at both accounts would answer. */
  function Settled(t: Target): Loaded {
    LoadTarget(Read(t.current, false), Read(t.migrated, false))
  }

  predicate Agrees(t: Target, r: Response) {
    r.Available? ==>
      Settled(t).Found? && Settled(t).response.Available?
      && r.key == Settled(t).response.key && r.version == Settled(t).response.version
  }

  /** An earlier read of the current account, seen from now. */
  predicate SeenCurrent(start: Target, t: Target, current: Item) {
    && (current.Present? ==> t.current == Some(current.key))
    && (current.Missing? ==> start.current.None?)
  }

  predicate PhaseOk(start: Target, legacy: LegacyItems, t: Target, phase: Phase) {
    match phase
    case LoadMigrated(current) => SeenCurrent(start, t, current)
    case LoadSource(index) =>
      Empty(start) && index <= SOURCES && forall k: nat | k < index :: SourceItem(legacy, k).None?
    case LoadAdd(_) => Empty(start) && NoLegacy(legacy)
    case WinnerMigrated(current) => SeenCurrent(start, t, current)
    case ImportSource(index) => index <= SOURCES && forall k: nat | k < index :: SourceItem(legacy, k).None?
    case ImportCurrent(want) => !NoLegacy(legacy) && want == Authority(legacy)
    case ImportMigrated(want, current) => !NoLegacy(legacy) && want == Authority(legacy)
        && SeenCurrent(start, t, current)
    case ImportAdd(want) => Empty(start) && !NoLegacy(legacy) && want == Authority(legacy)
    case VerifyMigrated(want, _, current) => SeenCurrent(start, t, current)
    case Finished(r) => Agrees(t, r)
    case _ => true
  }

  /** The keychain only grows, and what it would answer never changes once it would answer at all. */
  predicate Extends(t: Target, t': Target) {
    && (t.current.Some? ==> t'.current == t.current)
    && (t.migrated.Some? ==> t'.migrated == t.migrated)
    && (Settled(t).Found? ==> Settled(t') == Settled(t))
  }

  predicate WorldOk(start: Target, legacy: LegacyItems, w: World) {
    TargetOk(start, legacy, w.target) && forall i | 0 <= i < |w.procs| :: PhaseOk(start, legacy, w.target, w.procs[i])
  }

  // -------------------------------------------------------------------- proofs

  lemma StepTarget(start: Target, legacy: LegacyItems, phase: Phase, t: Target, c: Choice)
    requires TargetOk(start, legacy, t) && PhaseOk(start, legacy, t, phase)
    ensures TargetOk(start, legacy, Step(phase, t, legacy, c).1)
    ensures Extends(t, Step(phase, t, legacy, c).1)
  {
  }

  /** Reading the two accounts at different times answers what one look would answer now. */
  lemma SplitRead(start: Target, legacy: LegacyItems, t: Target, current: Item, fails: bool)
    requires TargetOk(start, legacy, t) && SeenCurrent(start, t, current)
    ensures var loaded := LoadTarget(current, Read(t.migrated, fails));
            && (loaded.Found? ==> Agrees(t, loaded.response))
            && (loaded.NoTarget? ==> Empty(start))
  {
  }

  lemma NoSource(legacy: LegacyItems)
    requires forall k: nat | k < SOURCES :: SourceItem(legacy, k).None?
    ensures NoLegacy(legacy)
  {
    assert SourceItem(legacy, 0).None? && SourceItem(legacy, 1).None? && SourceItem(legacy, 2).None?;
  }

  lemma FirstSource(legacy: LegacyItems, index: nat)
    requires index < SOURCES && SourceItem(legacy, index).Some?
    requires forall k: nat | k < index :: SourceItem(legacy, k).None?
    ensures !NoLegacy(legacy) && Authority(legacy) == Intent(SourceItem(legacy, index).value, SourceMigrated(index))
  {
    assert index > 0 ==> SourceItem(legacy, 0).None?;
    assert index > 1 ==> SourceItem(legacy, 1).None?;
  }

  lemma StepPhase(start: Target, legacy: LegacyItems, phase: Phase, t: Target, c: Choice)
    requires TargetOk(start, legacy, t) && PhaseOk(start, legacy, t, phase)
    ensures PhaseOk(start, legacy, Step(phase, t, legacy, c).1, Step(phase, t, legacy, c).0)
  {
    NotAvailableAgrees(t);
    hide TargetOk, Agrees;
    match phase
    case LoadMigrated(current) => SplitRead(start, legacy, t, current, c.fails);
    case WinnerMigrated(current) => SplitRead(start, legacy, t, current, c.fails);
    case ImportMigrated(want, current) =>
      SplitRead(start, legacy, t, current, c.fails);
      ExistingAgrees(t, want, LoadTarget(current, Read(t.migrated, c.fails)));
    case VerifyMigrated(want, duplicate, current) =>
      SplitRead(start, legacy, t, current, c.fails);
      VerifiedAgrees(t, want, duplicate, LoadTarget(current, Read(t.migrated, c.fails)));
    case LoadSource(index) => if index >= SOURCES { NoSource(legacy); }
    case ImportSource(index) => if index < SOURCES && SourceItem(legacy, index).Some? { FirstSource(legacy, index); }
    case LoadCurrent => MissingThen(start, legacy, t);
    case WinnerCurrent => MissingThen(start, legacy, t);
    case ImportCurrent(_) => MissingThen(start, legacy, t);
    case VerifyCurrent(_, _) => MissingThen(start, legacy, t);
    case _ =>
  }

  lemma MissingThen(start: Target, legacy: LegacyItems, t: Target)
    requires TargetOk(start, legacy, t)
    ensures t.current.None? ==> start.current.None?
  {
  }

  lemma NotAvailableAgrees(t: Target)
    ensures Agrees(t, Unavailable) && Agrees(t, Conflict) && Agrees(t, MigrationRequired)
  {
  }

  lemma ExistingAgrees(t: Target, want: Intent, loaded: Loaded)
    requires loaded.Found? ==> Agrees(t, loaded.response)
    ensures loaded.Found? ==> Agrees(t, ImportExisting(want, loaded.response))
  {
  }

  lemma VerifiedAgrees(t: Target, want: Intent, duplicate: bool, loaded: Loaded)
    requires loaded.Found? ==> Agrees(t, loaded.response)
    ensures Agrees(t, Verified(want, duplicate, loaded))
  {
  }

  /** Another process's step leaves what a process knows true. */
  lemma PhaseSurvives(start: Target, legacy: LegacyItems, t: Target, t': Target, phase: Phase)
    requires PhaseOk(start, legacy, t, phase) && Extends(t, t')
    ensures PhaseOk(start, legacy, t', phase)
  {
  }

  lemma NextKeeps(start: Target, legacy: LegacyItems, w: World, e: Event)
    requires WorldOk(start, legacy, w)
    ensures WorldOk(start, legacy, Next(w, legacy, e)) && Extends(w.target, Next(w, legacy, e).target)
  {
    var w' := Next(w, legacy, e);
    if e.Call? && e.proc < |w.procs| {
      StepTarget(start, legacy, w.procs[e.proc], w.target, e.choice);
      StepPhase(start, legacy, w.procs[e.proc], w.target, e.choice);
      forall i | 0 <= i < |w'.procs| ensures PhaseOk(start, legacy, w'.target, w'.procs[i]) {
        if i != e.proc { PhaseSurvives(start, legacy, w.target, w'.target, w.procs[i]); }
      }
    }
  }

  lemma {:induction false} RunKeeps(start: Target, legacy: LegacyItems, events: seq<Event>)
    ensures WorldOk(start, legacy, Run(start, legacy, events))
  {
    if events != [] {
      RunKeeps(start, legacy, events[..|events| - 1]);
      NextKeeps(start, legacy, Run(start, legacy, events[..|events| - 1]), events[|events| - 1]);
    }
  }

  /** The key a process answered with, if it finished with one. */
  predicate Answered(w: World, i: nat, key: Key, version: Version) {
    i < |w.procs| && w.procs[i].Finished? && w.procs[i].response.Available?
    && w.procs[i].response.key == key && w.procs[i].response.version == version
  }

  /**
   Whatever the keychain held, however the processes interleave and whichever calls report
   unavailable, all processes that answer with a key answer with the same key and version.
   */
  lemma SameKeyEverywhere(start: Target, legacy: LegacyItems, events: seq<Event>,
                          i: nat, k: Key, v: Version, j: nat, k': Key, v': Version)
    requires Answered(Run(start, legacy, events), i, k, v) && Answered(Run(start, legacy, events), j, k', v')
    ensures k == k' && v == v'
  {
    RunKeeps(start, legacy, events);
    var w := Run(start, legacy, events);
    assert PhaseOk(start, legacy, w.target, w.procs[i]) && PhaseOk(start, legacy, w.target, w.procs[j]);
  }

  /** A LOAD holds a generated key only if both target accounts started missing and no legacy item exists. */
  lemma GeneratesOnlyWhenMissing(start: Target, legacy: LegacyItems, events: seq<Event>, i: nat)
    requires var w := Run(start, legacy, events); i < |w.procs| && w.procs[i].LoadAdd?
    ensures Empty(start) && NoLegacy(legacy)
  {
    RunKeeps(start, legacy, events);
    var w := Run(start, legacy, events);
    assert PhaseOk(start, legacy, w.target, w.procs[i]);
  }

  /** A key that existed before anyone started, or an authoritative legacy key, is never replaced. */
  lemma ExistingKeyWins(start: Target, legacy: LegacyItems, events: seq<Event>, i: nat, k: Key, v: Version)
    requires Answered(Run(start, legacy, events), i, k, v)
    ensures !Empty(start) ==> Settled(start).Found? && Settled(start).response.Available?
                              && k == Settled(start).response.key && v == Settled(start).response.version
    ensures Empty(start) && !NoLegacy(legacy) ==>
              k == Authority(legacy).key && v == VersionOf(Authority(legacy).migrated)
  {
    RunKeeps(start, legacy, events);
    var w := Run(start, legacy, events);
    assert PhaseOk(start, legacy, w.target, w.procs[i]);
  }

  /** What was answered stays answered: extending a run never changes the key of a finished process. */
  lemma {:induction false} AnswerIsFinal(start: Target, legacy: LegacyItems, events: seq<Event>, more: seq<Event>,
                                         i: nat, k: Key, v: Version, j: nat, k': Key, v': Version)
    requires Answered(Run(start, legacy, events), i, k, v)
    requires Answered(Run(start, legacy, events + more), j, k', v')
    ensures k == k' && v == v'
  {
    FinishedStays(start, legacy, events, more, i, k, v);
    SameKeyEverywhere(start, legacy, events + more, i, k, v, j, k', v');
  }

  lemma {:induction false} FinishedStays(start: Target, legacy: LegacyItems, events: seq<Event>, more: seq<Event>,
                                         i: nat, k: Key, v: Version)
    requires Answered(Run(start, legacy, events), i, k, v)
    ensures Answered(Run(start, legacy, events + more), i, k, v)
    decreases |more|
  {
    if more == [] {
      assert events + more == events;
    } else {
      var n := |more| - 1;
      FinishedStays(start, legacy, events, more[..n], i, k, v);
      assert (events + more)[..|events| + n] == events + more[..n];
    }
  }
}
