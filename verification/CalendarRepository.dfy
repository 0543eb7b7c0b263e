/**
 The optimistic calendar: a batch is prepared against a paged read and committed only if the
 revision has not moved. Any number of clients take their steps in any order.
 */
module CalendarRepository {
  import opened Wrappers
  import opened CalendarPolicy

  const PAGE_SIZE := 500

  // ----------------------------------------------------------------- preparation

  /** The working copy and what has been collected for the commit so far. */
  datatype Batch = Batch(
    working: map<string, Event>, warnings: seq<Conflict>, conflicts: seq<Conflict>,
    upserts: seq<Event>, deletes: seq<string>)

  function Table(rows: seq<Event>): map<string, Event> {
    if rows == [] then map[]
    else Table(rows[..|rows| - 1])[rows[|rows| - 1].id := rows[|rows| - 1]]
  }

  function Start(working: map<string, Event>): Batch {
    Batch(working, [], [], [], [])
  }

  function ApplyMutation(b: Batch, m: Mutation, lib: Library): Result<Batch> {
    var current := if m.eventId in b.working then Some(b.working[m.eventId]) else None;
    match ValidateMutation(m, current, lib)
    case Err(e) => Err(e)
    case Ok(Some(invalid)) => Ok(b.(conflicts := b.conflicts + [invalid]))
    case Ok(None) =>
      if m.kind == Delete then Ok(b.(working := b.working - {m.eventId}, deletes := b.deletes + [m.eventId]))
      else if m.after.None? then Err("invalid-instant")
      else Upsert(b, m.after.value.(version := if current.Some? then current.value.version + 1 else 0), lib)
  }

  function Upsert(b: Batch, next: Event, lib: Library): Result<Batch> {
    var occurrence := ValidateOccurrence(next, b.working, lib);
    if occurrence.Some? then Ok(b.(conflicts := b.conflicts + [occurrence.value]))
    else
      match DetectConflict(next, b.working, lib)
      case Err(e) => Err(e)
      case Ok(conflict) =>
        if conflict.Some? && conflict.value.severity == Error
        then Ok(b.(conflicts := b.conflicts + [conflict.value]))
        else Ok(b.(warnings := if conflict.Some? then b.warnings + [conflict.value] else b.warnings,
                   working := b.working[next.id := next], upserts := b.upserts + [next]))
  }

  function ApplyAll(b: Batch, mutations: seq<Mutation>, lib: Library): Result<Batch> {
    if mutations == [] then Ok(b)
    else
      match ApplyAll(b, mutations[..|mutations| - 1], lib)
      case Err(e) => Err(e)
      case Ok(sofar) => ApplyMutation(sofar, mutations[|mutations| - 1], lib)
  }

  /** The preparation loop, collecting into local lists that it grows as it goes. */
  method PrepareMutations(records: seq<Event>, mutations: seq<Mutation>, lib: Library) returns (r: Result<Batch>)
    ensures r == ApplyAll(Start(Table(records)), mutations, lib)
  {
    hide ValidateMutation, ValidateOccurrence, DetectConflict, ApplyMutation, ApplyAll;
    var working := Table(records);
    var warnings: seq<Conflict>, conflicts: seq<Conflict> := [], [];
    var upserts: seq<Event>, deletes: seq<string> := [], [];
    var k := 0;
    NothingApplied(Start(working), lib);
    while k < |mutations|
      invariant 0 <= k <= |mutations|
      invariant ApplyAll(Start(Table(records)), mutations[..k], lib)
                == Ok(Batch(working, warnings, conflicts, upserts, deletes))
    {
      var m, was := mutations[k], Batch(working, warnings, conflicts, upserts, deletes);
      ApplyNext(Start(Table(records)), mutations, lib, k);
      var current := if m.eventId in working then Some(working[m.eventId]) else None;
      var invalid := ValidateMutation(m, current, lib);
      UnfoldMutation(was, m, lib);
      k := k + 1;
      if invalid.Err? {
        ThrowSticks(Start(Table(records)), mutations, lib, k);
        return Err(invalid.error);
      }
      if invalid.value.Some? {
        conflicts := conflicts + [invalid.value.value];
        continue;
      }
      if m.kind == Delete {
        working := working - {m.eventId};
        deletes := deletes + [m.eventId];
        continue;
      }
      if m.after.None? {
        ThrowSticks(Start(Table(records)), mutations, lib, k);
        return Err("invalid-instant");
      }
      var next := m.after.value.(version := if current.Some? then current.value.version + 1 else 0);
      var occurrence := ValidateOccurrence(next, working, lib);
      if occurrence.Some? {
        conflicts := conflicts + [occurrence.value];
        continue;
      }
      var conflict := DetectConflict(next, working, lib);
      if conflict.Err? {
        ThrowSticks(Start(Table(records)), mutations, lib, k);
        return Err(conflict.error);
      }
      if conflict.value.Some? && conflict.value.value.severity == Error {
        conflicts := conflicts + [conflict.value.value];
        continue;
      }
      if conflict.value.Some? { warnings := warnings + [conflict.value.value]; }
      working := working[next.id := next];
      upserts := upserts + [next];
    }
    assert mutations[..k] == mutations;
    return Ok(Batch(working, warnings, conflicts, upserts, deletes));
  }

  lemma NothingApplied(b: Batch, lib: Library)
    ensures ApplyAll(b, [], lib) == Ok(b)
  {
  }

  lemma ApplyNext(b: Batch, mutations: seq<Mutation>, lib: Library, k: nat)
    requires k < |mutations| && ApplyAll(b, mutations[..k], lib).Ok?
    ensures ApplyAll(b, mutations[..k + 1], lib)
            == ApplyMutation(ApplyAll(b, mutations[..k], lib).value, mutations[k], lib)
  {
    hide ApplyMutation;
    var more := mutations[..k + 1];
    assert more[..k] == mutations[..k] && more[k] == mutations[k];
  }

  lemma UnfoldMutation(b: Batch, m: Mutation, lib: Library)
    ensures var current := if m.eventId in b.working then Some(b.working[m.eventId]) else None;
            var invalid := ValidateMutation(m, current, lib);
            ApplyMutation(b, m, lib) ==
            if invalid.Err? then Err(invalid.error)
            else if invalid.value.Some? then Ok(b.(conflicts := b.conflicts + [invalid.value.value]))
            else if m.kind == Delete then Ok(b.(working := b.working - {m.eventId}, deletes := b.deletes + [m.eventId]))
            else if m.after.None? then Err("invalid-instant")
            else Upsert(b, m.after.value.(version := if current.Some? then current.value.version + 1 else 0), lib)
  {
    hide ValidateMutation, Upsert;
  }

  lemma {:induction false} ThrowSticks(b: Batch, mutations: seq<Mutation>, lib: Library, k: nat)
    requires k <= |mutations| && ApplyAll(b, mutations[..k], lib).Err?
    ensures ApplyAll(b, mutations, lib) == ApplyAll(b, mutations[..k], lib)
    decreases |mutations| - k
  {
    hide ApplyMutation;
    if k == |mutations| {
      assert mutations[..k] == mutations;
    } else {
      assert mutations[..k + 1][..k] == mutations[..k];
      ThrowSticks(b, mutations, lib, k + 1);
    }
  }

  // ---------------------------------------------------------------------- commit

  /** The storage takes a batch only if it names every event once. */
  predicate NamesOnce(upserts: seq<Event>, deletes: seq<string>) {
    && (forall i, j | 0 <= i < j < |deletes| :: deletes[i] != deletes[j])
    && (forall i, j | 0 <= i < j < |upserts| :: upserts[i].id != upserts[j].id)
    && (forall i | 0 <= i < |upserts| :: upserts[i].id !in deletes)
  }

  function Put(events: map<string, Event>, upserts: seq<Event>): map<string, Event> {
    if upserts == [] then events
    else Put(events, upserts[..|upserts| - 1])[upserts[|upserts| - 1].id := upserts[|upserts| - 1]]
  }

  /** The transaction writes all upserts and then removes the deleted ids. */
  function CommitTo(events: map<string, Event>, upserts: seq<Event>, deletes: seq<string>): map<string, Event> {
    Put(events, upserts) - set d | d in deletes
  }

  /** What holds of a batch while no mutation has been refused. */
  ghost predicate BatchOk(b: Batch, events: map<string, Event>, lib: Library) {
    && Keyed(b.working) && ConflictFree(b.working, lib)
    && (NamesOnce(b.upserts, b.deletes) ==> CommitTo(events, b.upserts, b.deletes) == b.working)
  }

  lemma AppendUpsert(events: map<string, Event>, upserts: seq<Event>, deletes: seq<string>, next: Event)
    requires NamesOnce(upserts + [next], deletes)
    ensures NamesOnce(upserts, deletes)
    ensures CommitTo(events, upserts + [next], deletes) == CommitTo(events, upserts, deletes)[next.id := next]
  {
    var more := upserts + [next];
    assert more[..|upserts|] == upserts && more[|upserts|] == next;
    assert forall i | 0 <= i < |upserts| :: more[i] == upserts[i];
  }

  lemma AppendDelete(events: map<string, Event>, upserts: seq<Event>, deletes: seq<string>, id: string)
    requires NamesOnce(upserts, deletes + [id])
    ensures NamesOnce(upserts, deletes)
    ensures CommitTo(events, upserts, deletes + [id]) == CommitTo(events, upserts, deletes) - {id}
  {
    var more := deletes + [id];
    assert more[|deletes|] == id;
    assert forall i | 0 <= i < |deletes| :: more[i] == deletes[i];
    forall d ensures d in more <==> d in deletes || d == id {
      if d == id { assert more[|deletes|] in more; }
    }
    assert (set d | d in more) == (set d | d in deletes) + {id};
  }

  lemma AcceptKeepsFree(events: map<string, Event>, next: Event, lib: Library)
    requires Keyed(events) && ConflictFree(events, lib)
    requires DetectConflict(next, events, lib).Ok?
    requires var c := DetectConflict(next, events, lib).value; c.None? || c.value.severity == Warning
    ensures Keyed(events[next.id := next]) && ConflictFree(events[next.id := next], lib)
  {
    hide EventsOverlap, DetectConflict, Binding;
    var after := events[next.id := next];
    forall a, b | a in after && b in after && a != b && Binding(after[a]) && Binding(after[b])
      ensures EventsOverlap(after[a], after[b], lib) != Ok(true)
    {
      if a == next.id {
        AcceptedOverlapsNothing(next, events, lib, b);
      } else if b == next.id {
        AcceptedOverlapsNothing(next, events, lib, a);
        OverlapSymmetric(next, events[a], lib);
      }
    }
  }

  lemma MutationKeeps(b: Batch, m: Mutation, events: map<string, Event>, lib: Library)
    requires BatchOk(b, events, lib) && ApplyMutation(b, m, lib).Ok?
    ensures BatchOk(ApplyMutation(b, m, lib).value, events, lib)
  {
    hide ValidateMutation, CommitTo, NamesOnce, Upsert, EventsOverlap, Binding;
    var r := ApplyMutation(b, m, lib).value;
    if r.upserts == b.upserts && r.deletes == b.deletes && r.working == b.working {
    } else if m.kind == Delete {
      if NamesOnce(b.upserts, b.deletes + [m.eventId]) { AppendDelete(events, b.upserts, b.deletes, m.eventId); }
    } else {
      var current := if m.eventId in b.working then Some(b.working[m.eventId]) else None;
      UpsertKeeps(b, m.after.value.(version := if current.Some? then current.value.version + 1 else 0), events, lib);
    }
  }

  lemma UpsertKeeps(b: Batch, next: Event, events: map<string, Event>, lib: Library)
    requires BatchOk(b, events, lib) && Upsert(b, next, lib).Ok?
    ensures BatchOk(Upsert(b, next, lib).value, events, lib)
  {
    hide ValidateOccurrence, DetectConflict, CommitTo, NamesOnce, ConflictFree;
    var r := Upsert(b, next, lib).value;
    if r.working != b.working || r.upserts != b.upserts {
      AcceptKeepsFree(b.working, next, lib);
      if NamesOnce(b.upserts + [next], b.deletes) { AppendUpsert(events, b.upserts, b.deletes, next); }
    }
  }

  /** Preparing against a conflict-free calendar gives a commit that leaves it conflict-free. */
  lemma {:induction false} ApplyAllKeeps(events: map<string, Event>, mutations: seq<Mutation>, lib: Library)
    requires Keyed(events) && ConflictFree(events, lib)
    requires ApplyAll(Start(events), mutations, lib).Ok?
    ensures BatchOk(ApplyAll(Start(events), mutations, lib).value, events, lib)
  {
    hide ApplyMutation, ConflictFree;
    if mutations == [] {
      assert CommitTo(events, [], []) == events;
    } else {
      var n := |mutations| - 1;
      ApplyAllKeeps(events, mutations[..n], lib);
      MutationKeeps(ApplyAll(Start(events), mutations[..n], lib).value, mutations[n], events, lib);
    }
  }

  // ---------------------------------------------------------------------- paging

  ghost predicate Distinct(rows: seq<Event>) {
    forall i, j | 0 <= i < j < |rows| :: rows[i].id != rows[j].id
  }

  predicate HasId(rows: seq<Event>, id: string) {
    exists i | 0 <= i < |rows| :: rows[i].id == id
  }

  /** Rows of a page whose ids have not been seen are appended. */
  function AddPage(records: seq<Event>, page: seq<Event>): seq<Event> {
    if page == [] then records
    else
      var before, last := AddPage(records, page[..|page| - 1]), page[|page| - 1];
      if HasId(before, last.id) then before else before + [last]
  }

  function Page(rows: seq<Event>, offset: nat): seq<Event> {
    if offset >= |rows| then []
    else if |rows| - offset < PAGE_SIZE then rows[offset..] else rows[offset..offset + PAGE_SIZE]
  }

  datatype Progress = More(records: seq<Event>) | Complete(records: seq<Event>) | Stalled

  function Advance(records: seq<Event>, page: seq<Event>): Progress {
    var after := AddPage(records, page);
    if |page| < PAGE_SIZE then Complete(after)
    else if |after| == |records| then Stalled
    else More(after)
  }

  /** The answers of successive reads, whatever writers did in between. */
  function Collect(read: nat -> seq<Event>, offset: nat, records: seq<Event>, bound: nat): Result<seq<Event>>
    requires forall o: nat | o >= bound :: |read(o)| < PAGE_SIZE
    decreases if offset < bound then bound - offset else 0
  {
    match Advance(records, read(offset))
    case Complete(all) => Ok(all)
    case Stalled => Err("calendar-pagination-stalled")
    case More(all) => Collect(read, offset + PAGE_SIZE, all, bound)
  }

  /** The paging loop, which ends because no page beyond the store's size is full. */
  method ListAll(read: nat -> seq<Event>, ghost bound: nat) returns (r: Result<seq<Event>>)
    requires forall o: nat | o >= bound :: |read(o)| < PAGE_SIZE
    ensures r == Collect(read, 0, [], bound)
  {
    var records: seq<Event>, offset: nat := [], 0;
    while true
      invariant Collect(read, offset, records, bound) == Collect(read, 0, [], bound)
      decreases if offset < bound then bound - offset else 0
    {
      var page := read(offset);
      ghost var was := records;
      var added, k := 0, 0;
      while k < |page|
        invariant 0 <= k <= |page| && records == AddPage(was, page[..k]) && |records| == |was| + added
      {
        assert page[..k + 1][..k] == page[..k] && page[..k + 1][k] == page[k];
        if !HasId(records, page[k].id) {
          records := records + [page[k]];
          added := added + 1;
        }
        k := k + 1;
      }
      assert page[..k] == page;
      if |page| < PAGE_SIZE { return Ok(records); }
      if added == 0 { return Err("calendar-pagination-stalled"); }
      offset := offset + PAGE_SIZE;
    }
  }

  lemma {:induction false} AddPageDistinct(records: seq<Event>, page: seq<Event>)
    requires Distinct(records)
    ensures Distinct(AddPage(records, page))
  {
    if page != [] {
      AddPageDistinct(records, page[..|page| - 1]);
    }
  }

  lemma {:induction false} AddPageFresh(records: seq<Event>, page: seq<Event>)
    requires Distinct(records + page)
    ensures AddPage(records, page) == records + page
  {
    if page == [] {
      assert records + page == records;
    } else {
      var n := |page| - 1;
      assert (records + page)[..|records| + n] == records + page[..n];
      assert forall i | 0 <= i < |records| + n :: (records + page)[i] == (records + page[..n])[i];
      AddPageFresh(records, page[..n]);
      assert records + page == records + page[..n] + [page[n]];
      assert (records + page)[|records| + n] == page[n];
    }
  }

  /** A read during which the store stands still has seen exactly its first rows. */
  lemma PageOfWhole(rows: seq<Event>, offset: nat)
    requires Distinct(rows) && offset <= |rows|
    ensures Advance(rows[..offset], Page(rows, offset)) ==
            if |rows| - offset < PAGE_SIZE then Complete(rows) else More(rows[..offset + PAGE_SIZE])
  {
    var page := Page(rows, offset);
    assert rows[..offset] + page == rows[..offset + |page|];
    AddPageFresh(rows[..offset], page);
  }

  /** Listing a store that stands still returns all of it, in order, without a stall. */
  lemma {:induction false} CollectWhole(rows: seq<Event>, read: nat -> seq<Event>, offset: nat, bound: nat)
    requires forall o: nat :: read(o) == Page(rows, o)
    requires forall o: nat | o >= bound :: |read(o)| < PAGE_SIZE
    requires Distinct(rows) && offset <= |rows|
    ensures Collect(read, offset, rows[..offset], bound) == Ok(rows)
    decreases |rows| - offset
  {
    hide Advance, Distinct;
    PageOfWhole(rows, offset);
    if |rows| - offset >= PAGE_SIZE { CollectWhole(rows, read, offset + PAGE_SIZE, bound); }
  }

  /** Whatever writers do between the reads, no id is listed twice. */
  lemma {:induction false} CollectDistinct(read: nat -> seq<Event>, offset: nat, records: seq<Event>, bound: nat)
    requires forall o: nat | o >= bound :: |read(o)| < PAGE_SIZE
    requires Distinct(records)
    ensures var r := Collect(read, offset, records, bound); r.Ok? ==> Distinct(r.value)
    decreases if offset < bound then bound - offset else 0
  {
    hide Distinct, AddPage;
    AddPageDistinct(records, read(offset));
    if Advance(records, read(offset)).More? {
      CollectDistinct(read, offset + PAGE_SIZE, AddPage(records, read(offset)), bound);
    }
  }
}
