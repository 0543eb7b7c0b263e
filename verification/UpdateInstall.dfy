/**
 Installing an update: the macOS helper exchanges two application bundles atomically, the
 Windows script moves them one after the other. Every file operation and every launch may fail.
 */
module UpdateInstall {
  import opened Wrappers

  datatype Path = Current | Candidate | Backup | FailedCandidate
  datatype Bundle = Old | New

  datatype Launch = Launch(path: Path, bundle: Bundle)

  /** What was attempted and how it went; a start names the bundle whose launcher is up. */
  datatype Attempt =
    | Swap(first: Path, second: Path, ok: bool)
    | Move(source: Path, destination: Path, ok: bool)
    | Start(path: Path, up: Option<Bundle>)

  type Layout = map<Path, Bundle>

  /** The installed bundle and the checked candidate, with nothing at the other paths. */
  const ARMED: Layout := map[Current := Old, Candidate := New]

  ghost predicate Holds(at: Layout, b: Bundle) {
    exists p | p in at :: at[p] == b
  }

  /** Both bundles exist, each at one path. */
  ghost predicate BothKept(at: Layout) {
    && Holds(at, Old) && Holds(at, New)
    && forall p, q | p in at && q in at && p != q :: at[p] != at[q]
  }

  function Swapped(at: Layout, first: Path, second: Path): Layout
    requires first in at && second in at
  {
    at[first := at[second]][second := at[first]]
  }

  function Moved(at: Layout, source: Path, destination: Path): Layout
    requires source in at && destination !in at
  {
    (at - {source})[destination := at[source]]
  }

  lemma ArmedKept()
    ensures BothKept(ARMED)
  {
    assert Current in ARMED && ARMED[Current] == Old && Candidate in ARMED && ARMED[Candidate] == New;
  }

  lemma SwapKeeps(at: Layout, first: Path, second: Path)
    requires BothKept(at) && first in at && second in at
    ensures BothKept(Swapped(at, first, second))
  {
    var after := Swapped(at, first, second);
    forall b | Holds(at, b) ensures Holds(after, b) {
      var p :| p in at && at[p] == b;
      var q := if p == first then second else if p == second then first else p;
      assert q in after && after[q] == b;
    }
  }

  lemma MoveKeeps(at: Layout, source: Path, destination: Path)
    requires BothKept(at) && source in at && destination !in at
    ensures BothKept(Moved(at, source, destination))
  {
    var after := Moved(at, source, destination);
    forall b | Holds(at, b) ensures Holds(after, b) {
      var p :| p in at && at[p] == b;
      var q := if p == source then destination else p;
      assert q in after && after[q] == b;
    }
  }

  /** `log` grew by attempts at one move, all of them failed except the last one of a success. */
  ghost predicate Tried(before: seq<Attempt>, log: seq<Attempt>, source: Path, destination: Path, ok: bool) {
    && before <= log && (ok ==> |before| < |log|)
    && forall i | |before| <= i < |log| :: log[i] == Move(source, destination, ok && i == |log| - 1)
  }

  lemma TriedMembers(before: seq<Attempt>, log: seq<Attempt>, source: Path, destination: Path, ok: bool)
    requires Tried(before, log, source, destination, ok)
    ensures forall a | a in before :: a in log
    ensures forall a | a in log :: a in before || (a.Move? && a == Move(source, destination, a.ok) && (a.ok ==> ok))
    ensures ok ==> Move(source, destination, true) in log
  {
    forall a | a in before ensures a in log {
      var i :| 0 <= i < |before| && before[i] == a;
      assert log[i] == a;
    }
    forall a | a in log ensures a in before || (a.Move? && a == Move(source, destination, a.ok) && (a.ok ==> ok)) {
      var i :| 0 <= i < |log| && log[i] == a;
      assert i < |before| ==> before[i] == a;
    }
    assert ok ==> log[|log| - 1] == Move(source, destination, true);
  }

  /** Where the bundles are, and what has been launched; `seen` lists every state of the disk, `log` every attempt. */
  class Disk {
    var at: Layout
    var launches: seq<Launch>
    var clock: nat
    ghost var seen: seq<Layout>
    ghost var log: seq<Attempt>

    ghost predicate Valid()
      reads this
    {
      BothKept(at) && seen != [] && seen[|seen| - 1] == at && forall i | 0 <= i < |seen| :: BothKept(seen[i])
    }

    constructor ()
      ensures Valid() && at == ARMED && launches == [] && seen == [ARMED] && log == []
    {
      ArmedKept();
      at, launches, clock, seen, log := ARMED, [], 0, [ARMED], [];
    }

    /** `renameatx_np` with RENAME_SWAP: both paths change places at once, or nothing happens. */
    method AtomicSwap(first: Path, second: Path) returns (ok: bool)
      requires Valid()
      modifies this`at, this`seen, this`log
      ensures Valid() && log == old(log) + [Swap(first, second, ok)]
      ensures ok ==> first in old(at) && second in old(at) && at == Swapped(old(at), first, second)
                     && seen == old(seen) + [at]
      ensures !ok ==> at == old(at) && seen == old(seen)
    {
      ok := *;
      if first !in at || second !in at { ok := false; }
      if ok {
        SwapKeeps(at, first, second);
        at := Swapped(at, first, second);
        seen := seen + [at];
      }
      log := log + [Swap(first, second, ok)];
    }

    /** A directory is renamed to a free path on the same volume, or nothing happens. */
    method Rename(source: Path, destination: Path) returns (ok: bool)
      requires Valid()
      modifies this`at, this`seen, this`log
      ensures Valid() && log == old(log) + [Move(source, destination, ok)]
      ensures ok ==> source in old(at) && destination !in old(at) && at == Moved(old(at), source, destination)
                     && seen == old(seen) + [at]
      ensures !ok ==> at == old(at) && seen == old(seen)
    {
      ok := *;
      if source !in at || destination in at { ok := false; }
      if ok {
        MoveKeeps(at, source, destination);
        at := Moved(at, source, destination);
        seen := seen + [at];
      }
      log := log + [Move(source, destination, ok)];
    }

    /** Starts the launcher of the bundle at a path; it may also die during the probe. */
    method StartAndProbe(path: Path) returns (started: Option<Bundle>)
      modifies this`launches, this`log
      ensures log == old(log) + [Start(path, started)]
      ensures started.Some? ==> path in at && started == Some(at[path])
      ensures launches == old(launches) || (path in at && launches == old(launches) + [Launch(path, at[path])])
      ensures started.Some? ==> launches == old(launches) + [Launch(path, at[path])]
    {
      started := None;
      var runs, survives := *, *;
      if path in at && runs {
        launches := launches + [Launch(path, at[path])];
        if survives { started := Some(at[path]); }
      }
      log := log + [Start(path, started)];
    }

    /** Starts a launcher without waiting for it. */
    method StartExactLauncher(path: Path) returns (ok: bool)
      modifies this`launches, this`log
      ensures ok ==> path in at && launches == old(launches) + [Launch(path, at[path])]
      ensures !ok ==> launches == old(launches)
      ensures log == old(log) + [Start(path, if ok then Some(at[path]) else None)]
    {
      ok := *;
      if path !in at { ok := false; }
      if ok { launches := launches + [Launch(path, at[path])]; }
      log := log + [Start(path, if ok then Some(at[path]) else None)];
    }

    /** Retries a move until it succeeds, the paths rule it out or the deadline passes. */
    method MoveBefore(source: Path, destination: Path, deadline: nat) returns (ok: bool)
      requires Valid()
      modifies this`at, this`seen, this`clock, this`log
      ensures Valid() && Tried(old(log), log, source, destination, ok) && clock >= old(clock)
      ensures ok ==> source in old(at) && destination !in old(at) && at == Moved(old(at), source, destination)
      ensures !ok ==> at == old(at) && seen == old(seen)
      ensures !ok ==> source !in at || destination in at || (|log| > |old(log)| && clock >= deadline)
    {
      while true
        invariant Valid() && at == old(at) && seen == old(seen) && clock >= old(clock)
        invariant Tried(old(log), log, source, destination, false)
        decreases if clock < deadline then deadline - clock else 0
      {
        if source !in at || destination in at { return false; }
        ok := Rename(source, destination);
        if ok || clock >= deadline { return; }
        clock := clock + 400;
      }
    }
  }

  // ----------------------------------------------------------------------- macOS

  datatype Outcome =
    | Installed(launched: Bundle)
    | FailedBeforeSwap(restored: Option<Bundle>)
    | RolledBack(running: Bundle)
    | RollbackFailed(restored: Option<Bundle>)

  /**
   Where the bundles end up and which launcher runs, outcome by outcome. After a failed
   rollback the launcher tried last is the old one only if the new bundle is still current.
   */
  ghost predicate Explains(at: Layout, r: Outcome) {
    match r
    case Installed(launched) => at == map[Current := New, Backup := Old] && launched == New
    case FailedBeforeSwap(restored) => at == ARMED && (restored.Some? ==> restored.value == Old)
    case RolledBack(running) => Current in at && at[Current] == Old && running == Old
    case RollbackFailed(restored) =>
      && Current in at
      && (restored.Some? ==>
            Backup in at && restored.value == at[Backup] && (restored.value == Old <==> at[Current] == New))
  }

  /** What was attempted for each outcome, to the last step: an installation is two moves and a healthy launcher. */
  ghost predicate Tells(log: seq<Attempt>, r: Outcome) {
    match r
    case Installed(b) => log == [Swap(Current, Candidate, true), Move(Candidate, Backup, true), Start(Current, Some(b))]
    case FailedBeforeSwap(restored) => log == [Swap(Current, Candidate, false), Start(Current, restored)]
    case RolledBack(b) => Undone(log, Some(b))
    case RollbackFailed(restored) =>
      || (restored.None?
          && log == [Swap(Current, Candidate, true), Move(Candidate, Backup, false), Swap(Current, Candidate, false)])
      || (restored.None? && Undone(log, None) && |log| == 4)
      || (log == [Swap(Current, Candidate, true), Move(Candidate, Backup, true), Start(Current, None),
                  Swap(Current, Backup, false), Start(Backup, restored)])
      || (|log| == 7 && Undone(log[..6], None) && log[6] == Start(Backup, restored))
  }

  /** The exchange was undone, before or after the new launcher was tried, and the old one started again or not. */
  ghost predicate Undone(log: seq<Attempt>, up: Option<Bundle>) {
    || log == [Swap(Current, Candidate, true), Move(Candidate, Backup, false), Swap(Current, Candidate, true),
               Start(Current, up)]
    || exists aside :: log == [Swap(Current, Candidate, true), Move(Candidate, Backup, true), Start(Current, None),
                               Swap(Current, Backup, true), Move(Backup, FailedCandidate, aside), Start(Current, up)]
  }

  /** The update is installed exactly when both bundles could be moved and the new launcher stayed up. */
  lemma InstalledIff(log: seq<Attempt>, r: Outcome)
    requires Tells(log, r)
    ensures r.Installed? <==> |log| == 3 && log[0] == Swap(Current, Candidate, true)
                              && log[1] == Move(Candidate, Backup, true) && log[2].Start? && log[2].up.Some?
  {
  }

  /** At every instant the current path names a whole bundle. */
  ghost predicate AlwaysCurrent(states: seq<Layout>) {
    forall i | 0 <= i < |states| :: Current in states[i]
  }

  method InstallOnMac(disk: Disk) returns (r: Outcome)
    requires disk.Valid() && disk.at == ARMED && AlwaysCurrent(disk.seen) && disk.log == []
    modifies disk
    ensures disk.Valid() && AlwaysCurrent(disk.seen) && Explains(disk.at, r) && Tells(disk.log, r)
  {
    hide BothKept;
    var swapped := disk.AtomicSwap(Current, Candidate);
    if !swapped {
      var restored := disk.StartAndProbe(Current);
      return FailedBeforeSwap(restored);
    }
    var backedUp := disk.Rename(Candidate, Backup);
    if !backedUp {
      var undone := disk.AtomicSwap(Current, Candidate);
      if !undone { return RollbackFailed(None); }
      var restored := disk.StartAndProbe(Current);
      if restored.None? { return RollbackFailed(None); }
      return RolledBack(restored.value);
    }
    var launched := disk.StartAndProbe(Current);
    assert disk.at == map[Current := New, Backup := Old];
    if launched.Some? { return Installed(launched.value); }
    r := RestoreBackup(disk);
  }

  /** The new launcher failed: exchange again, put the failed bundle aside, start the old one. */
  method RestoreBackup(disk: Disk) returns (r: Outcome)
    requires disk.Valid() && disk.at == map[Current := New, Backup := Old] && AlwaysCurrent(disk.seen)
    requires disk.log == [Swap(Current, Candidate, true), Move(Candidate, Backup, true), Start(Current, None)]
    modifies disk
    ensures disk.Valid() && AlwaysCurrent(disk.seen) && Explains(disk.at, r) && Tells(disk.log, r)
    ensures r.RolledBack? || r.RollbackFailed?
  {
    hide BothKept;
    var undone := disk.AtomicSwap(Current, Backup);
    var restored := None;
    if undone {
      var aside := disk.Rename(Backup, FailedCandidate);
      restored := disk.StartAndProbe(Current);
    }
    if restored.Some? { return RolledBack(restored.value); }
    restored := disk.StartAndProbe(Backup);
    return RollbackFailed(restored);
  }

  // --------------------------------------------------------------------- Windows

  const FORWARD_DEADLINE_MS := 105000
  const TOTAL_DEADLINE_MS := 120000

  /** What the script has done when it ends. */
  datatype Ending = Ending(completed: bool, oldMoved: bool, rollbackRestored: bool)

  /** The deadline is over. */
  predicate Late(clock: nat, seconds: nat) {
    clock >= 1000 * seconds
  }

  /** What the script claims is what it did, and it gives up a move only at the deadline for that move. */
  ghost predicate Claims(log: seq<Attempt>, clock: nat, e: Ending) {
    && (e.oldMoved <==> Move(Current, Backup, true) in log)
    && (e.completed <==> Move(Candidate, Current, true) in log && Start(Current, Some(New)) in log)
    && (e.rollbackRestored <==> Move(Backup, Current, true) in log)
    && (!e.oldMoved ==> Late(clock, 105))
    && (e.oldMoved && Move(Candidate, Current, true) !in log ==> Late(clock, 105))
    && (!e.completed && Move(Candidate, Current, true) in log ==> Start(Current, None) in log)
    && (e.oldMoved && !e.completed && !e.rollbackRestored ==> Late(clock, 120))
  }

  method InstallOnWindows(disk: Disk, processExited: bool) returns (e: Ending)
    requires disk.Valid() && disk.at == ARMED && disk.launches == [] && disk.log == []
    modifies disk
    ensures disk.Valid()
    ensures e.completed ==> disk.at == map[Backup := Old, Current := New] && disk.launches == [Launch(Current, New)]
    ensures !processExited ==> disk.log == [] && e == Ending(false, false, false) && disk.at == ARMED
    ensures processExited ==> Claims(disk.log, disk.clock, e)
    ensures processExited && !e.completed ==>
              && disk.log != [] && disk.log[|disk.log| - 1].Start?
              && disk.log[|disk.log| - 1].path == if e.oldMoved && !e.rollbackRestored then Backup else Current
    ensures !e.oldMoved ==> disk.at == ARMED
    ensures e.rollbackRestored ==> e.oldMoved && !e.completed && Current in disk.at && disk.at[Current] == Old
    ensures !e.completed ==> forall l | l in disk.launches :: l.path in disk.at && disk.at[l.path] == l.bundle == Old
  {
    hide BothKept;
    if !processExited { return Ending(false, false, false); }
    var oldMoved, candidateMoved := MoveForward(disk);
    if candidateMoved {
      var started := disk.StartExactLauncher(Current);
      if started { return Ending(true, true, false); }
    }
    ghost var tried := disk.log;
    assert Forward(tried, disk.clock, oldMoved, candidateMoved);
    var rollbackRestored := false;
    if oldMoved { rollbackRestored := RollBack(disk, candidateMoved); }
    assert Backward(tried, disk.log, disk.clock, oldMoved, rollbackRestored);
    ghost var turned := disk.log;
    if rollbackRestored || !oldMoved {
      var _ := disk.StartExactLauncher(Current);
    } else {
      var _ := disk.StartExactLauncher(Backup);
    }
    ClaimsBack(tried, turned, disk.log, disk.clock, oldMoved, candidateMoved, rollbackRestored);
    return Ending(false, oldMoved, rollbackRestored);
  }

  /** What the log holds when the new bundle is not up. */
  ghost predicate Forward(log: seq<Attempt>, clock: nat, oldMoved: bool, candidateMoved: bool) {
    && (candidateMoved ==> oldMoved) && (!candidateMoved ==> Late(clock, 105))
    && (Move(Current, Backup, true) in log <==> oldMoved)
    && (Move(Candidate, Current, true) in log <==> candidateMoved)
    && (Start(Current, None) in log <==> candidateMoved)
    && Move(Backup, Current, true) !in log && Start(Current, Some(New)) !in log
  }

  /** What putting things back adds to it. */
  ghost predicate Backward(before: seq<Attempt>, log: seq<Attempt>, clock: nat, oldMoved: bool, restored: bool) {
    && (forall a | a in before :: a in log)
    && (forall a | a in log && a !in before ::
          a in {Move(Current, FailedCandidate, false), Move(Current, FailedCandidate, true),
                Move(Backup, Current, false), Move(Backup, Current, restored)})
    && (restored ==> oldMoved && Move(Backup, Current, true) in log)
    && (!restored && oldMoved ==> Late(clock, 120))
  }

  lemma ClaimsBack(
    tried: seq<Attempt>, turned: seq<Attempt>, log: seq<Attempt>, clock: nat, oldMoved: bool, candidateMoved: bool,
    restored: bool)
    requires exists early: nat :: early <= clock && Forward(tried, early, oldMoved, candidateMoved)
    requires Backward(tried, turned, clock, oldMoved, restored)
    requires exists path, up: Option<Bundle> :: up != Some(New) && log == turned + [Start(path, up)]
    ensures Claims(log, clock, Ending(false, oldMoved, restored))
  {
    var path, up: Option<Bundle> :| up != Some(New) && log == turned + [Start(path, up)];
    assert forall a :: a in log <==> a in turned || a == Start(path, up);
  }

  /** Moves the old bundle out of the way and the new one into its place. */
  method MoveForward(disk: Disk) returns (oldMoved: bool, candidateMoved: bool)
    requires disk.Valid() && disk.at == ARMED && disk.log == []
    modifies disk`at, disk`seen, disk`clock, disk`log
    ensures disk.Valid() && (candidateMoved ==> oldMoved) && (!candidateMoved ==> Late(disk.clock, 105))
    ensures disk.at == if candidateMoved then map[Backup := Old, Current := New]
                       else if oldMoved then map[Backup := Old, Candidate := New] else ARMED
    ensures Move(Current, Backup, true) in disk.log <==> oldMoved
    ensures Move(Candidate, Current, true) in disk.log <==> candidateMoved
    ensures forall a | a in disk.log :: a.Move? && (a.source, a.destination) != (Backup, Current)
  {
    oldMoved := disk.MoveBefore(Current, Backup, FORWARD_DEADLINE_MS);
    TriedMembers([], disk.log, Current, Backup, oldMoved);
    if oldMoved {
      ghost var before := disk.log;
      candidateMoved := disk.MoveBefore(Candidate, Current, FORWARD_DEADLINE_MS);
      TriedMembers(before, disk.log, Candidate, Current, candidateMoved);
    } else {
      candidateMoved := false;
    }
  }

  /** Puts the new bundle aside and the old one back. */
  method RollBack(disk: Disk, candidateMoved: bool) returns (restored: bool)
    requires disk.Valid()
    requires disk.at == if candidateMoved then map[Backup := Old, Current := New]
            else map[Backup := Old, Candidate := New]
    modifies disk`at, disk`seen, disk`clock, disk`log
    ensures disk.Valid() && disk.clock >= old(disk.clock) && forall a | a in old(disk.log) :: a in disk.log
    ensures forall a | a in disk.log && a !in old(disk.log) ::
              a in {Move(Current, FailedCandidate, false), Move(Current, FailedCandidate, true),
                    Move(Backup, Current, false), Move(Backup, Current, restored)}
    ensures restored ==> Move(Backup, Current, true) in disk.log
    ensures restored ==> Current in disk.at && disk.at[Current] == Old
    ensures !restored ==> Backup in disk.at && disk.at[Backup] == Old && Late(disk.clock, 120)
  {
    ghost var before := disk.log;
    if candidateMoved && Current in disk.at && FailedCandidate !in disk.at {
      var aside := disk.MoveBefore(Current, FailedCandidate, TOTAL_DEADLINE_MS);
      TriedMembers(before, disk.log, Current, FailedCandidate, aside);
      if !aside { return false; }
    }
    before := disk.log;
    if Backup in disk.at && Current !in disk.at {
      restored := disk.MoveBefore(Backup, Current, TOTAL_DEADLINE_MS);
      TriedMembers(before, disk.log, Backup, Current, restored);
    }
  }
}
