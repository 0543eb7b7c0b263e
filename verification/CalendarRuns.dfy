/**
 Runs of the calendar: any number of clients prepare and commit batches, load the calendar
 and remove events, with each storage call one atomic step.
 */
module CalendarRuns {
  import opened Wrappers
  import opened CalendarPolicy
  import opened CalendarRepository

  datatype Purpose = Mutating(mutations: seq<Mutation>) | Loading(attempt: nat)

  /** Where one call stands; the last four are its possible results. */
  datatype Client =
    | Paging(purpose: Purpose, before: nat, offset: nat, records: seq<Event>)
    | Listed(attempt: nat, before: nat, records: seq<Event>)
    | Retrying
    | Ready(expected: nat, mutations: seq<Mutation>, upserts: seq<Event>, deletes: seq<string>)
    | Saved(revision: nat, mutations: seq<Mutation>)
    | Loaded(revision: nat, records: seq<Event>)
    | Refused(conflicts: seq<Conflict>)
    | Threw(error: string)

  /** `versions[r]` holds the rows of revision `r`, in the order in which the storage lists them. */
  datatype System = System(versions: seq<seq<Event>>, clients: map<nat, Client>)

  datatype Step =
    | BeginMutation(client: nat, mutations: seq<Mutation>, expectedRevision: Option<nat>)
    | BeginLoad(client: nat)
    | ReadPage(client: nat)
    | Commit(client: nat, rows: seq<Event>)
    | ReadRevisionAgain(client: nat)
    | RetryLoad(client: nat)
    | DeleteEvent(id: string, rows: seq<Event>)

  function Revision(s: System): nat
    requires s.versions != []
  {
    |s.versions| - 1
  }

  function Rows(s: System): seq<Event>
    requires s.versions != []
  {
    s.versions[|s.versions| - 1]
  }

  const STALE := Conflict(StaleRevision, Error, {})

  ghost predicate Enumerates(rows: seq<Event>, events: map<string, Event>) {
    Distinct(rows) && Table(rows) == events
  }

  function Begin(s: System, mutations: seq<Mutation>, expectedRevision: Option<nat>): Client
    requires s.versions != []
  {
    if |mutations| < 1 || |mutations| > 500 then Threw("invalid-batch")
    else if expectedRevision.Some? && expectedRevision.value != Revision(s) then Refused([STALE])
    else Paging(Mutating(mutations), Revision(s), 0, [])
  }

  /** The last page of a mutating read is followed at once by the preparation of the batch. */
  function AfterPage(c: Client, progress: Progress, lib: Library): Client
    requires c.Paging?
  {
    match progress
    case Stalled => Threw("calendar-pagination-stalled")
    case More(records) => c.(offset := c.offset + PAGE_SIZE, records := records)
    case Complete(records) =>
      if c.purpose.Loading? then Listed(c.purpose.attempt, c.before, records)
      else Prepared(c.before, c.purpose.mutations, ApplyAll(Start(Table(records)), c.purpose.mutations, lib))
  }

  function Prepared(expected: nat, mutations: seq<Mutation>, batch: Result<Batch>): Client {
    match batch
    case Err(e) => Threw(e)
    case Ok(b) =>
      if b.conflicts != [] then Refused(b.conflicts) else Ready(expected, mutations, b.upserts, b.deletes)
  }

  function EndLoad(c: Client, revision: nat): Client
    requires c.Listed?
  {
    if c.before == revision then Loaded(revision, c.records)
    else if c.attempt == 0 then Retrying
    else Threw("calendar-changed")
  }

  /** Whether a step can be taken; the storage is free to list new contents in any order. */
  ghost predicate Enabled(s: System, step: Step) {
    && s.versions != []
    && match step
       case BeginMutation(c, _, _) => c !in s.clients
       case BeginLoad(c) => c !in s.clients
       case ReadPage(c) => c in s.clients && s.clients[c].Paging?
       case ReadRevisionAgain(c) => c in s.clients && s.clients[c].Listed?
       case RetryLoad(c) => c in s.clients && s.clients[c].Retrying?
       case DeleteEvent(id, rows) => id in Table(Rows(s)) && Enumerates(rows, Table(Rows(s)) - {id})
       case Commit(c, rows) =>
         && c in s.clients && s.clients[c].Ready?
         && (Commits(s, s.clients[c]) ==>
               Enumerates(rows, CommitTo(Table(Rows(s)), s.clients[c].upserts, s.clients[c].deletes)))
  }

  predicate Commits(s: System, c: Client)
    requires s.versions != [] && c.Ready?
  {
    NamesOnce(c.upserts, c.deletes) && c.expected == Revision(s)
  }

  ghost function Next(s: System, step: Step, lib: Library): System
    requires Enabled(s, step)
  {
    match step
    case BeginMutation(c, mutations, expectedRevision) =>
      s.(clients := s.clients[c := Begin(s, mutations, expectedRevision)])
    case BeginLoad(c) => s.(clients := s.clients[c := Paging(Loading(0), Revision(s), 0, [])])
    case RetryLoad(c) => s.(clients := s.clients[c := Paging(Loading(1), Revision(s), 0, [])])
    case ReadPage(c) =>
      var client := s.clients[c];
      s.(clients := s.clients[c := AfterPage(client, Advance(client.records, Page(Rows(s), client.offset)), lib)])
    case ReadRevisionAgain(c) => s.(clients := s.clients[c := EndLoad(s.clients[c], Revision(s))])
    case DeleteEvent(id, rows) => s.(versions := s.versions + [rows])
    case Commit(c, rows) =>
      var client := s.clients[c];
      if Commits(s, client) then System(s.versions + [rows], s.clients[c := Saved(|s.versions|, client.mutations)])
      else if !NamesOnce(client.upserts, client.deletes) then s.(clients := s.clients[c := Threw("invalid-argument")])
      else s.(clients := s.clients[c := Refused([STALE])])
  }

  ghost predicate Run(trace: seq<System>, steps: seq<Step>, lib: Library) {
    && |trace| == |steps| + 1
    && forall i | 0 <= i < |steps| :: Enabled(trace[i], steps[i]) && trace[i + 1] == Next(trace[i], steps[i], lib)
  }

  ghost predicate FreshStart(s: System, lib: Library) {
    && |s.versions| == 1 && s.clients == map[] && Distinct(s.versions[0])
    && ConflictFree(Table(s.versions[0]), lib)
  }

  // ------------------------------------------------------------------- invariant

  /** A batch that was prepared from the rows of the revision it expects. */
  ghost predicate PreparedFrom(c: Client, rows: seq<Event>, lib: Library)
    requires c.Ready?
  {
    var r := ApplyAll(Start(Table(rows)), c.mutations, lib);
    r.Ok? && r.value.conflicts == [] && r.value.upserts == c.upserts && r.value.deletes == c.deletes
  }

  /** Saving revision `r` had the effect of running the mutations on revision `r - 1`. */
  ghost predicate Serial(versions: seq<seq<Event>>, r: nat, mutations: seq<Mutation>, lib: Library) {
    && 0 < r < |versions|
    && var b := ApplyAll(Start(Table(versions[r - 1])), mutations, lib);
       b.Ok? && b.value.conflicts == [] && b.value.working == Table(versions[r])
  }

  /** While the revision a call started from is the current one, it has read the current rows. */
  ghost predicate ClientOk(c: Client, versions: seq<seq<Event>>, lib: Library) {
    var current := |versions| - 1;
    && versions != []
    && match c
       case Paging(_, before, offset, records) =>
         && before <= current
         && (before == current ==> offset <= |versions[current]| && records == versions[current][..offset])
       case Listed(_, before, records) => before <= current && (before == current ==> records == versions[current])
       case Ready(expected, _, _, _) =>
         expected <= current && (expected == current ==> PreparedFrom(c, versions[current], lib))
       case Saved(r, mutations) => Serial(versions, r, mutations, lib)
       case Loaded(r, records) => r < |versions| && records == versions[r]
       case _ => true
  }

  ghost predicate VersionOk(rows: seq<Event>, lib: Library) {
    Distinct(rows) && ConflictFree(Table(rows), lib)
  }

  ghost predicate Inv(s: System, lib: Library) {
    && s.versions != []
    && (forall r | 0 <= r < |s.versions| :: VersionOk(s.versions[r], lib))
    && (forall c | c in s.clients :: ClientOk(s.clients[c], s.versions, lib))
  }

  lemma {:induction false} TableKeyed(rows: seq<Event>)
    ensures Keyed(Table(rows))
  {
    if rows != [] { TableKeyed(rows[..|rows| - 1]); }
  }

  /** What a call knows about earlier revisions survives later ones. */
  lemma LaterVersion(c: Client, versions: seq<seq<Event>>, rows: seq<Event>, lib: Library)
    requires ClientOk(c, versions, lib)
    ensures ClientOk(c, versions + [rows], lib)
  {
    hide PreparedFrom, ApplyAll, Table;
  }

  lemma PageKeeps(c: Client, versions: seq<seq<Event>>, lib: Library)
    requires c.Paging? && ClientOk(c, versions, lib) && VersionOk(versions[|versions| - 1], lib)
    ensures ClientOk(AfterPage(c, Advance(c.records, Page(versions[|versions| - 1], c.offset)), lib), versions, lib)
  {
    hide Advance, Page, ApplyAll, Table, ConflictFree, Distinct;
    var rows := versions[|versions| - 1];
    if c.before == |versions| - 1 { PageOfWhole(rows, c.offset); }
  }

  lemma CommitKeeps(s: System, c: nat, rows: seq<Event>, lib: Library)
    requires Inv(s, lib) && Enabled(s, Commit(c, rows)) && Commits(s, s.clients[c])
    ensures VersionOk(rows, lib) && Serial(s.versions + [rows], |s.versions|, s.clients[c].mutations, lib)
  {
    hide ApplyAll, Table, CommitTo, NamesOnce, Distinct;
    var client, current := s.clients[c], Rows(s);
    assert ClientOk(client, s.versions, lib) && VersionOk(current, lib);
    assert PreparedFrom(client, current, lib);
    TableKeyed(current);
    ApplyAllKeeps(Table(current), client.mutations, lib);
  }

  lemma DeleteKeeps(s: System, id: string, rows: seq<Event>, lib: Library)
    requires Inv(s, lib) && Enabled(s, DeleteEvent(id, rows))
    ensures VersionOk(rows, lib)
  {
    hide EventsOverlap, Table, Distinct, Binding, ClientOk;
    assert VersionOk(Rows(s), lib);
  }

  lemma AppendKeeps(s: System, rows: seq<Event>, lib: Library)
    requires Inv(s, lib) && VersionOk(rows, lib)
    ensures Inv(s.(versions := s.versions + [rows]), lib)
  {
    hide VersionOk, ClientOk;
    var after := s.versions + [rows];
    forall c | c in s.clients ensures ClientOk(s.clients[c], after, lib) {
      LaterVersion(s.clients[c], s.versions, rows, lib);
    }
    assert forall r | 0 <= r < |s.versions| :: after[r] == s.versions[r];
  }

  lemma ClientKeeps(s: System, c: nat, client: Client, lib: Library)
    requires Inv(s, lib) && ClientOk(client, s.versions, lib)
    ensures Inv(s.(clients := s.clients[c := client]), lib)
  {
    hide VersionOk, ClientOk;
  }

  lemma NewClientOk(s: System, purpose: Purpose, lib: Library)
    requires Inv(s, lib)
    ensures ClientOk(Paging(purpose, Revision(s), 0, []), s.versions, lib)
  {
    hide VersionOk;
  }

  lemma StepKeeps(s: System, step: Step, lib: Library)
    requires Inv(s, lib) && Enabled(s, step)
    ensures Inv(Next(s, step, lib), lib) && s.versions <= Next(s, step, lib).versions
  {
    hide VersionOk, AfterPage, ApplyAll, Advance, Page, CommitTo, NamesOnce, Enumerates, Table, Inv, ClientOk;
    assert Inv(s, lib) ==> s.versions != [] && VersionOk(Rows(s), lib) by { InvCurrent(s, lib); }
    match step {
      case BeginMutation(c, mutations, expectedRevision) =>
        NewClientOk(s, Mutating(mutations), lib);
        ResultOk(Begin(s, mutations, expectedRevision), s.versions, lib);
        ClientKeeps(s, c, Begin(s, mutations, expectedRevision), lib);
      case BeginLoad(c) =>
        NewClientOk(s, Loading(0), lib);
        ClientKeeps(s, c, Paging(Loading(0), Revision(s), 0, []), lib);
      case RetryLoad(c) =>
        NewClientOk(s, Loading(1), lib);
        ClientKeeps(s, c, Paging(Loading(1), Revision(s), 0, []), lib);
      case ReadPage(c) =>
        InvClient(s, c, lib);
        PageKeeps(s.clients[c], s.versions, lib);
        var client := s.clients[c];
        ClientKeeps(s, c, AfterPage(client, Advance(client.records, Page(Rows(s), client.offset)), lib), lib);
      case ReadRevisionAgain(c) =>
        InvClient(s, c, lib);
        EndLoadOk(s.clients[c], s.versions, lib);
        ClientKeeps(s, c, EndLoad(s.clients[c], Revision(s)), lib);
      case DeleteEvent(id, rows) =>
        DeleteKeeps(s, id, rows, lib);
        AppendKeeps(s, rows, lib);
      case Commit(c, rows) =>
        if Commits(s, s.clients[c]) {
          CommitKeeps(s, c, rows, lib);
          AppendKeeps(s, rows, lib);
          SavedOk(s.versions + [rows], |s.versions|, s.clients[c].mutations, lib);
          ClientKeeps(s.(versions := s.versions + [rows]), c, Saved(|s.versions|, s.clients[c].mutations), lib);
        } else {
          ResultOk(Threw("invalid-argument"), s.versions, lib);
          ResultOk(Refused([STALE]), s.versions, lib);
          ClientKeeps(s, c, Threw("invalid-argument"), lib);
          ClientKeeps(s, c, Refused([STALE]), lib);
        }
    }
  }

  lemma InvCurrent(s: System, lib: Library)
    ensures Inv(s, lib) ==> s.versions != [] && VersionOk(Rows(s), lib)
  {
    hide VersionOk, ClientOk;
  }

  lemma InvClient(s: System, c: nat, lib: Library)
    requires Inv(s, lib) && c in s.clients
    ensures ClientOk(s.clients[c], s.versions, lib)
  {
    hide VersionOk, ClientOk;
  }

  lemma ResultOk(c: Client, versions: seq<seq<Event>>, lib: Library)
    requires versions != []
    ensures c.Threw? || c.Refused? ==> ClientOk(c, versions, lib)
  {
  }

  lemma SavedOk(versions: seq<seq<Event>>, r: nat, mutations: seq<Mutation>, lib: Library)
    requires Serial(versions, r, mutations, lib)
    ensures ClientOk(Saved(r, mutations), versions, lib)
  {
    hide ApplyAll, Table;
  }

  lemma EndLoadOk(c: Client, versions: seq<seq<Event>>, lib: Library)
    requires c.Listed? && ClientOk(c, versions, lib)
    ensures ClientOk(EndLoad(c, |versions| - 1), versions, lib)
  {
  }

  // -------------------------------------------------------------------- theorems

  lemma {:induction false} RunKeeps(trace: seq<System>, steps: seq<Step>, lib: Library, k: nat)
    requires Run(trace, steps, lib) && FreshStart(trace[0], lib) && k < |trace|
    ensures Inv(trace[k], lib)
    decreases k
  {
    if k == 0 {
      hide ConflictFree, Distinct, Table, Enabled, Next;
    } else {
      hide Inv, Enabled, Next, FreshStart;
      RunKeeps(trace, steps, lib, k - 1);
      assert Enabled(trace[k - 1], steps[k - 1]);
      StepKeeps(trace[k - 1], steps[k - 1], lib);
    }
  }

  /** In every interleaving, no revision ever holds two distinct overlapping binding events. */
  lemma NeverDoubleBooked(trace: seq<System>, steps: seq<Step>, lib: Library, k: nat, r: nat, i: nat, j: nat)
    requires Run(trace, steps, lib) && FreshStart(trace[0], lib) && k < |trace|
    requires r < |trace[k].versions| && i < |trace[k].versions[r]| && j < |trace[k].versions[r]| && i != j
    requires Binding(trace[k].versions[r][i]) && Binding(trace[k].versions[r][j])
    ensures EventsOverlap(trace[k].versions[r][i], trace[k].versions[r][j], lib) != Ok(true)
  {
    hide EventsOverlap, Binding, Run, FreshStart, ClientOk, Table;
    RunKeeps(trace, steps, lib, k);
    var rows := trace[k].versions[r];
    assert VersionOk(rows, lib);
    TableLookup(rows, i);
    TableLookup(rows, j);
  }

  lemma {:induction false} TableLookup(rows: seq<Event>, i: nat)
    requires Distinct(rows) && i < |rows|
    ensures rows[i].id in Table(rows) && Table(rows)[rows[i].id] == rows[i]
  {
    var n := |rows| - 1;
    if i < n { TableLookup(rows[..n], i); }
  }

  /** A load returns exactly the rows of the revision it reports, whatever happened meanwhile. */
  lemma LoadIsSnapshot(trace: seq<System>, steps: seq<Step>, lib: Library, k: nat, c: nat)
    requires Run(trace, steps, lib) && FreshStart(trace[0], lib) && k < |trace|
    requires c in trace[k].clients && trace[k].clients[c].Loaded?
    ensures var load := trace[k].clients[c];
            load.revision < |trace[k].versions| && load.records == trace[k].versions[load.revision]
            && Distinct(load.records)
  {
    hide Run, FreshStart, ConflictFree, Table;
    RunKeeps(trace, steps, lib, k);
    assert ClientOk(trace[k].clients[c], trace[k].versions, lib);
    assert VersionOk(trace[k].versions[trace[k].clients[c].revision], lib);
  }

  /** Every saved batch had the effect of running its mutations alone on the revision before it. */
  lemma SavedIsSerial(trace: seq<System>, steps: seq<Step>, lib: Library, k: nat, c: nat)
    requires Run(trace, steps, lib) && FreshStart(trace[0], lib) && k < |trace|
    requires c in trace[k].clients && trace[k].clients[c].Saved?
    ensures Serial(trace[k].versions, trace[k].clients[c].revision, trace[k].clients[c].mutations, lib)
  {
    hide Run, FreshStart, VersionOk, Serial;
    RunKeeps(trace, steps, lib, k);
    assert ClientOk(trace[k].clients[c], trace[k].versions, lib);
  }

  /** Revisions are only ever added. */
  lemma {:induction false} RevisionsAreFinal(trace: seq<System>, steps: seq<Step>, lib: Library, i: nat, j: nat)
    requires Run(trace, steps, lib) && FreshStart(trace[0], lib) && i <= j < |trace|
    ensures trace[i].versions <= trace[j].versions
    decreases j
  {
    hide Inv, Enabled, Next, FreshStart;
    if i < j {
      RevisionsAreFinal(trace, steps, lib, i, j - 1);
      RunKeeps(trace, steps, lib, j - 1);
      assert Enabled(trace[j - 1], steps[j - 1]);
      StepKeeps(trace[j - 1], steps[j - 1], lib);
    }
  }

  /** A call still paging after a page has met a store with that many rows, so paging ends. */
  lemma PagingEnds(s: System, c: nat, lib: Library)
    requires Enabled(s, ReadPage(c))
    ensures var after := Next(s, ReadPage(c), lib).clients[c];
            after.Paging? ==> after.offset == s.clients[c].offset + PAGE_SIZE <= |Rows(s)|
  {
    hide AddPage, ApplyAll, Table;
  }
}
