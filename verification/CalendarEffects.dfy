/** What a saved batch did to the calendar, and what every revision can be relied on for. */
module CalendarEffects {
  import opened Wrappers
  import opened CalendarPolicy
  import opened CalendarRepository
  import opened CalendarRuns
  import opened CalendarMeaning

  lemma SharedOverlaps(a: Event, b: Event, lib: Library, t: int)
    requires TimedOnce(a) && TimedOnce(b) && At(Hours(a), t) && At(Hours(b), t)
    ensures EventsOverlap(a, b, lib) == Ok(true)
  {
    TimedOverlapMeans(a, b, lib);
  }

  lemma SharedSeriesOverlaps(a: Event, b: Event, lib: Library, n: nat, t: int)
    requires a.recurrence.Some? && TimedOnce(b) && At(Hours(b), t)
    requires var found := lib.occurrences(a, b.schedule.start, b.schedule.end);
             found.Some? && Proper(found.value) && n < |found.value| && At(found.value[n], t)
    ensures EventsOverlap(a, b, lib) == Ok(true)
  {
    SeriesEventMeans(a, b, lib);
    var found := lib.occurrences(a, b.schedule.start, b.schedule.end);
    assert ShareInstant(found.value[n], Instants(b, a.recurrence.value.zone, lib));
  }

  /** In every run, no instant lies in two committed events of one revision, breaks aside. */
  lemma NeverTwiceAtOnce(
    trace: seq<System>, steps: seq<Step>, lib: Library, k: nat, r: nat, i: nat, j: nat, t: int)
    requires Run(trace, steps, lib) && FreshStart(trace[0], lib) && k < |trace|
    requires r < |trace[k].versions| && i < |trace[k].versions[r]| && j < |trace[k].versions[r]| && i != j
    requires var a, b := trace[k].versions[r][i], trace[k].versions[r][j];
             && TimedOnce(a) && a.state == Committed && a.kind != Break
             && TimedOnce(b) && b.state == Committed && b.kind != Break
    ensures var a, b := trace[k].versions[r][i].schedule, trace[k].versions[r][j].schedule;
            !(a.start <= t < a.end && b.start <= t < b.end)
  {
    hide Run, FreshStart, EventsOverlap;
    var a, b := trace[k].versions[r][i], trace[k].versions[r][j];
    NeverDoubleBooked(trace, steps, lib, k, r, i, j);
    if a.schedule.start <= t < a.schedule.end && b.schedule.start <= t < b.schedule.end {
      SharedOverlaps(a, b, lib, t);
      assert false;
    }
  }

  /** Nor does an occurrence of a committed series, as the rule gives them around a committed event, meet it. */
  lemma SeriesNeverAtOnce(
    trace: seq<System>, steps: seq<Step>, lib: Library, k: nat, r: nat, i: nat, j: nat, n: nat, t: int)
    requires Run(trace, steps, lib) && FreshStart(trace[0], lib) && k < |trace|
    requires r < |trace[k].versions| && i < |trace[k].versions[r]| && j < |trace[k].versions[r]| && i != j
    requires var a, b := trace[k].versions[r][i], trace[k].versions[r][j];
             && a.recurrence.Some? && a.state == Committed && a.kind != Break
             && TimedOnce(b) && b.state == Committed && b.kind != Break
    requires var a, b := trace[k].versions[r][i], trace[k].versions[r][j].schedule;
             var found := lib.occurrences(a, b.start, b.end);
             found.Some? && Proper(found.value) && n < |found.value| && found.value[n].start <= t < found.value[n].end
    ensures var b := trace[k].versions[r][j].schedule; !(b.start <= t < b.end)
  {
    hide Run, FreshStart, EventsOverlap;
    var a, b := trace[k].versions[r][i], trace[k].versions[r][j];
    NeverDoubleBooked(trace, steps, lib, k, r, i, j);
    if b.schedule.start <= t < b.schedule.end {
      SharedSeriesOverlaps(a, b, lib, n, t);
      assert false;
    }
  }

  // -------------------------------------------------------------- single mutations

  /** The event a mutation leaves behind: the one it carries, one version up, or at version 0 when new. */
  function Written(m: Mutation, before: map<string, Event>): Event
    requires m.after.Some?
  {
    m.after.value.(version := if m.eventId in before then before[m.eventId].version + 1 else 0)
  }

  /** What an accepted mutation found and what it makes of the calendar. */
  predicate TakesEffect(m: Mutation, before: map<string, Event>, after: map<string, Event>) {
    && (m.kind == Create <==> m.eventId !in before)
    && (m.kind != Create ==>
          && m.expectedVersion == Some(before[m.eventId].version)
          && before[m.eventId].editable && before[m.eventId].kind != External)
    && if m.kind == Delete then after == before - {m.eventId}
       else m.after.Some? && m.after.value.id == m.eventId && after == before[m.eventId := Written(m, before)]
  }

  /** A mutation either takes effect and is noted for the commit, or adds one conflict and changes nothing. */
  lemma MutationMeans(b: Batch, m: Mutation, lib: Library)
    requires ApplyMutation(b, m, lib).Ok?
    ensures var r := ApplyMutation(b, m, lib).value;
            if r.conflicts == b.conflicts then
              && TakesEffect(m, b.working, r.working)
              && r.upserts == (if m.kind == Delete then b.upserts else b.upserts + [Written(m, b.working)])
              && r.deletes == (if m.kind == Delete then b.deletes + [m.eventId] else b.deletes)
            else
              && r == b.(conflicts := r.conflicts)
              && |r.conflicts| == |b.conflicts| + 1 && b.conflicts <= r.conflicts
  {
    hide EventOk, EventsOverlap, ScopeAllows, DetectConflict, ValidateOccurrence;
    var current := if m.eventId in b.working then Some(b.working[m.eventId]) else None;
    if m.kind == Create { CreateExact(m, current, lib); } else { ChangeExact(m, current, lib); }
    hide ValidateMutation;
    UnfoldMutation(b, m, lib);
  }

  /** A mutation is refused exactly when one of the checks objects. */
  lemma RefusedIff(b: Batch, m: Mutation, lib: Library)
    requires ApplyMutation(b, m, lib).Ok?
    ensures var current := if m.eventId in b.working then Some(b.working[m.eventId]) else None;
            var v := ValidateMutation(m, current, lib);
            v.Ok? &&
            (ApplyMutation(b, m, lib).value.conflicts != b.conflicts <==>
             || v.value.Some?
             || (m.kind != Delete && m.after.Some? &&
                 var next := Written(m, b.working);
                 var d := DetectConflict(next, b.working, lib);
                 || ValidateOccurrence(next, b.working, lib).Some?
                 || (d.Ok? && d.value.Some? && d.value.value.severity == Error)))
  {
    hide ValidateMutation, DetectConflict, ValidateOccurrence;
  }

  // ----------------------------------------------------------------------- batches

  lemma OthersStay(b: Batch, m: Mutation, lib: Library, id: string)
    requires ApplyMutation(b, m, lib).Ok? && id != m.eventId
    ensures var r := ApplyMutation(b, m, lib).value;
            && b.conflicts <= r.conflicts && SameAt(b.working, r.working, id)
  {
    hide ApplyMutation;
    MutationMeans(b, m, lib);
  }

  predicate SameAt(before: map<string, Event>, after: map<string, Event>, id: string) {
    (id in before <==> id in after) && (id in before ==> before[id] == after[id])
  }

  /** Mutations of other events leave an event alone. */
  lemma {:induction false} BatchOthersStay(b: Batch, mutations: seq<Mutation>, lib: Library, id: string)
    requires ApplyAll(b, mutations, lib).Ok? && forall m | m in mutations :: m.eventId != id
    ensures SameAt(b.working, ApplyAll(b, mutations, lib).value.working, id)
  {
    hide ApplyMutation;
    if mutations != [] {
      var n := |mutations| - 1;
      BatchOthersStay(b, mutations[..n], lib, id);
      assert mutations[n] in mutations;
      OthersStay(ApplyAll(b, mutations[..n], lib).value, mutations[n], lib, id);
    }
  }

  /** Conflicts are never taken back. */
  lemma {:induction false} ConflictsStay(b: Batch, mutations: seq<Mutation>, lib: Library, k: nat)
    requires ApplyAll(b, mutations, lib).Ok? && k <= |mutations|
    ensures ApplyAll(b, mutations[..k], lib).Ok?
    ensures ApplyAll(b, mutations[..k], lib).value.conflicts <= ApplyAll(b, mutations, lib).value.conflicts
  {
    hide ApplyMutation;
    var n := |mutations| - 1;
    if k == |mutations| {
      assert mutations[..k] == mutations;
    } else {
      ConflictsStay(b, mutations[..n], lib, k);
      assert mutations[..n][..k] == mutations[..k];
      MutationMeans(ApplyAll(b, mutations[..n], lib).value, mutations[n], lib);
    }
  }

  /** What happened to one event: it was there in the expected version, and is now as the mutation says. */
  predicate EffectOn(m: Mutation, before: map<string, Event>, after: map<string, Event>) {
    && (m.kind == Create <==> m.eventId !in before)
    && (m.kind != Create ==> m.expectedVersion == Some(before[m.eventId].version))
    && if m.kind == Delete then m.eventId !in after
       else m.after.Some? && m.eventId in after && after[m.eventId] == Written(m, before)
  }

  lemma {:induction false} SplitApply(b: Batch, xs: seq<Mutation>, ys: seq<Mutation>, lib: Library)
    requires ApplyAll(b, xs + ys, lib).Ok?
    ensures ApplyAll(b, xs, lib).Ok?
    ensures ApplyAll(ApplyAll(b, xs, lib).value, ys, lib) == ApplyAll(b, xs + ys, lib)
  {
    hide ApplyMutation;
    if ys == [] {
      assert xs + ys == xs;
    } else {
      var n := |ys| - 1;
      assert (xs + ys)[..|xs + ys| - 1] == xs + ys[..n];
      SplitApply(b, xs, ys[..n], lib);
    }
  }

  /** In a batch without conflicts, a mutation that is alone in naming its event has its effect. */
  lemma BatchTakesEffect(events: map<string, Event>, mutations: seq<Mutation>, lib: Library, i: nat)
    requires i < |mutations|
    requires forall j | 0 <= j < |mutations| && j != i :: mutations[j].eventId != mutations[i].eventId
    requires var r := ApplyAll(Start(events), mutations, lib); r.Ok? && r.value.conflicts == []
    ensures EffectOn(mutations[i], events, ApplyAll(Start(events), mutations, lib).value.working)
  {
    hide ApplyAll, ApplyMutation;
    var m, early, late := mutations[i], mutations[..i], mutations[i + 1..];
    ConflictsStay(Start(events), mutations, lib, i);
    ConflictsStay(Start(events), mutations, lib, i + 1);
    ApplyNext(Start(events), mutations, lib, i);
    var before := ApplyAll(Start(events), early, lib).value;
    MutationMeans(before, m, lib);
    assert forall x | x in early :: x.eventId != m.eventId;
    BatchOthersStay(Start(events), early, lib, m.eventId);
    assert mutations == mutations[..i + 1] + late;
    SplitApply(Start(events), mutations[..i + 1], late, lib);
    assert forall x | x in late :: x.eventId != m.eventId;
    BatchOthersStay(ApplyAll(Start(events), mutations[..i + 1], lib).value, late, lib, m.eventId);
  }

  /** A saved mutation found the version it expected in the revision just before its own, and no other writer's. */
  lemma SavedTakesEffect(trace: seq<System>, steps: seq<Step>, lib: Library, k: nat, c: nat, i: nat)
    requires Run(trace, steps, lib) && FreshStart(trace[0], lib) && k < |trace|
    requires c in trace[k].clients && trace[k].clients[c].Saved?
    requires var ms := trace[k].clients[c].mutations;
             i < |ms| && forall j | 0 <= j < |ms| && j != i :: ms[j].eventId != ms[i].eventId
    ensures var r := trace[k].clients[c].revision;
            && 0 < r < |trace[k].versions|
            && EffectOn(trace[k].clients[c].mutations[i],
                        Table(trace[k].versions[r - 1]), Table(trace[k].versions[r]))
  {
    hide Run, FreshStart, ApplyAll, Table;
    SavedIsSerial(trace, steps, lib, k, c);
    var r := trace[k].clients[c].revision;
    BatchTakesEffect(Table(trace[k].versions[r - 1]), trace[k].clients[c].mutations, lib, i);
  }

  /** Events that no mutation of a saved batch names are as they were. */
  lemma SavedLeavesOthers(trace: seq<System>, steps: seq<Step>, lib: Library, k: nat, c: nat, id: string)
    requires Run(trace, steps, lib) && FreshStart(trace[0], lib) && k < |trace|
    requires c in trace[k].clients && trace[k].clients[c].Saved?
    requires forall m | m in trace[k].clients[c].mutations :: m.eventId != id
    ensures var r := trace[k].clients[c].revision;
            && 0 < r < |trace[k].versions|
            && SameAt(Table(trace[k].versions[r - 1]), Table(trace[k].versions[r]), id)
  {
    hide Run, FreshStart, ApplyAll, Table;
    SavedIsSerial(trace, steps, lib, k, c);
    var r := trace[k].clients[c].revision;
    BatchOthersStay(Start(Table(trace[k].versions[r - 1])), trace[k].clients[c].mutations, lib, id);
  }

  // ------------------------------------------------------------- undisturbed calls

  /** Reading page after page while nobody writes ends with all rows. */
  lemma {:induction false} ReadsWhole(s: System, c: nat, lib: Library)
    returns (trace: seq<System>, steps: seq<Step>)
    requires Inv(s, lib) && c in s.clients && s.clients[c].Paging? && s.clients[c].before == |s.versions| - 1
    ensures Run(trace, steps, lib) && trace[0] == s
    ensures trace[|steps|] == s.(clients := s.clients[c := AfterPage(s.clients[c], Complete(Rows(s)), lib)])
    decreases |Rows(s)| - s.clients[c].offset
  {
    hide Inv, Page, Advance, ApplyAll, Table, ConflictFree, Distinct;
    InvClient(s, c, lib);
    InvCurrent(s, lib);
    var client, rows := s.clients[c], Rows(s);
    PageOfWhole(rows, client.offset);
    var step := ReadPage(c);
    StepKeeps(s, step, lib);
    var next := Next(s, step, lib);
    if |rows| - client.offset < PAGE_SIZE {
      trace, steps := [s, next], [step];
    } else {
      var more, rest := ReadsWhole(next, c, lib);
      trace, steps := [s] + more, [step] + rest;
      assert next.clients[c := client] == s.clients[c := client];
    }
  }

  lemma JoinRuns(first: seq<System>, early: seq<Step>, second: seq<System>, late: seq<Step>, lib: Library)
    requires Run(first, early, lib) && Run(second, late, lib) && first[|early|] == second[0]
    ensures Run(first[..|early|] + second, early + late, lib)
    ensures (first[..|early|] + second)[0] == first[0]
    ensures (first[..|early|] + second)[|early + late|] == second[|late|]
  {
    hide Enabled, Next;
    var trace, steps := first[..|early|] + second, early + late;
    forall i | 0 <= i < |steps| ensures Enabled(trace[i], steps[i]) && trace[i + 1] == Next(trace[i], steps[i], lib) {
      if i < |early| {
        assert steps[i] == early[i] && trace[i] == first[i];
        assert trace[i + 1] == first[i + 1];
      } else {
        assert steps[i] == late[i - |early|] && trace[i] == second[i - |early|];
        assert trace[i + 1] == second[i - |early| + 1];
      }
    }
  }

  /** Such a call stands ready to commit once it has read the rows that nobody changed. */
  lemma UndisturbedIsReady(s: System, c: nat, mutations: seq<Mutation>, expected: Option<nat>, b: Batch, lib: Library)
    returns (trace: seq<System>, steps: seq<Step>)
    requires Inv(s, lib) && c !in s.clients && 1 <= |mutations| <= 500
    requires expected.None? || expected.value == |s.versions| - 1
    requires ApplyAll(Start(Table(Rows(s))), mutations, lib) == Ok(b) && b.conflicts == []
    ensures Run(trace, steps, lib) && trace[0] == s
    ensures trace[|steps|]
            == s.(clients := s.clients[c := Ready(|s.versions| - 1, mutations, b.upserts, b.deletes)])
  {
    hide Inv, Page, Advance, ApplyAll, Table, ConflictFree, Distinct, NamesOnce, CommitTo, VersionOk;
    InvCurrent(s, lib);
    var begin := BeginMutation(c, mutations, expected);
    var started := Next(s, begin, lib);
    StepKeeps(s, begin, lib);
    var middle, pages := ReadsWhole(started, c, lib);
    JoinRuns([s, started], [begin], middle, pages, lib);
    assert [s, started][..1] == [s];
    trace, steps := [s] + middle, [begin] + pages;
    assert s.clients[c := started.clients[c]][c := Ready(|s.versions| - 1, mutations, b.upserts, b.deletes)]
           == s.clients[c := Ready(|s.versions| - 1, mutations, b.upserts, b.deletes)];
  }

  lemma ReadyIsSaved(s: System, c: nat, rows: seq<Event>, lib: Library)
    requires s.versions != [] && c in s.clients && s.clients[c].Ready? && s.clients[c].expected == |s.versions| - 1
    requires NamesOnce(s.clients[c].upserts, s.clients[c].deletes)
    requires Enumerates(rows, CommitTo(Table(Rows(s)), s.clients[c].upserts, s.clients[c].deletes))
    ensures Enabled(s, Commit(c, rows))
    ensures Next(s, Commit(c, rows), lib)
            == System(s.versions + [rows], s.clients[c := Saved(|s.versions|, s.clients[c].mutations)])
  {
    hide Enumerates, CommitTo, Table, NamesOnce;
  }

  /** A batch without conflicts, made for the current revision or for none, is saved if nobody writes meanwhile. */
  lemma UndisturbedIsSaved(
    s: System, c: nat, mutations: seq<Mutation>, expected: Option<nat>, b: Batch, rows: seq<Event>, lib: Library)
    returns (trace: seq<System>, steps: seq<Step>)
    requires Inv(s, lib) && c !in s.clients && 1 <= |mutations| <= 500
    requires expected.None? || expected.value == |s.versions| - 1
    requires ApplyAll(Start(Table(Rows(s))), mutations, lib) == Ok(b) && b.conflicts == []
    requires NamesOnce(b.upserts, b.deletes) && Enumerates(rows, b.working)
    ensures Run(trace, steps, lib) && trace[0] == s
    ensures trace[|steps|] == System(s.versions + [rows], s.clients[c := Saved(|s.versions|, mutations)])
  {
    hide Inv, Run, ApplyAll, Table, NamesOnce, CommitTo, Enumerates, Next, Enabled;
    InvCurrent(s, lib);
    var early, first := UndisturbedIsReady(s, c, mutations, expected, b, lib);
    RunLengths(early, first, lib);
    var ready := early[|first|];
    WorkingIsCommitted(s, mutations, lib);
    ReadyIsSaved(ready, c, rows, lib);
    var saved := Next(ready, Commit(c, rows), lib);
    OneStep(ready, Commit(c, rows), lib);
    JoinRuns(early, first, [ready, saved], [Commit(c, rows)], lib);
    trace, steps := early[..|first|] + [ready, saved], first + [Commit(c, rows)];
    assert ready.clients[c := Saved(|s.versions|, mutations)] == s.clients[c := Saved(|s.versions|, mutations)];
  }

  lemma OneStep(s: System, step: Step, lib: Library)
    requires Enabled(s, step)
    ensures Run([s, Next(s, step, lib)], [step], lib)
  {
    hide Enabled, Next;
  }

  lemma RunLengths(trace: seq<System>, steps: seq<Step>, lib: Library)
    requires Run(trace, steps, lib)
    ensures |trace| == |steps| + 1
  {
    hide Enabled, Next;
  }

  lemma WorkingIsCommitted(s: System, mutations: seq<Mutation>, lib: Library)
    requires Inv(s, lib)
    requires var b := ApplyAll(Start(Table(Rows(s))), mutations, lib);
             b.Ok? && NamesOnce(b.value.upserts, b.value.deletes)
    ensures var b := ApplyAll(Start(Table(Rows(s))), mutations, lib).value;
            CommitTo(Table(Rows(s)), b.upserts, b.deletes) == b.working
  {
    hide ApplyAll, Table, CommitTo, NamesOnce, Inv, ConflictFree, Distinct;
    InvCurrent(s, lib);
    TableKeyed(Rows(s));
    ApplyAllKeeps(Table(Rows(s)), mutations, lib);
  }

  /** A load during which nobody writes returns the current revision. */
  lemma UndisturbedIsLoaded(s: System, c: nat, lib: Library) returns (trace: seq<System>, steps: seq<Step>)
    requires Inv(s, lib) && c !in s.clients
    ensures Run(trace, steps, lib) && trace[0] == s
    ensures trace[|steps|] == s.(clients := s.clients[c := Loaded(|s.versions| - 1, Rows(s))])
  {
    hide Inv, Page, Advance, ApplyAll, Table, ConflictFree, Distinct, NamesOnce, CommitTo, VersionOk;
    InvCurrent(s, lib);
    var begin, again := BeginLoad(c), ReadRevisionAgain(c);
    var started := Next(s, begin, lib);
    StepKeeps(s, begin, lib);
    var middle, pages := ReadsWhole(started, c, lib);
    var listed := middle[|pages|];
    var loaded := Next(listed, again, lib);
    JoinRuns([s, started], [begin], middle, pages, lib);
    JoinRuns([s] + middle, [begin] + pages, [listed, loaded], [again], lib);
    assert [s, started][..1] == [s];
    trace, steps := ([s] + middle)[..|[begin] + pages|] + [listed, loaded], [begin] + pages + [again];
    assert loaded.clients == s.clients[c := Loaded(|s.versions| - 1, Rows(s))];
  }

  // ---------------------------------------------------------------------- answers

  /** A page adds exactly the rows whose ids are new. */
  lemma {:induction false} AddPageMeans(records: seq<Event>, page: seq<Event>)
    ensures records <= AddPage(records, page)
    ensures forall id :: HasId(AddPage(records, page), id) <==> HasId(records, id) || HasId(page, id)
    ensures AddPage(records, page) == records <==> forall i | 0 <= i < |page| :: HasId(records, page[i].id)
  {
    if page != [] {
      var n := |page| - 1;
      var front := page[..n];
      AddPageMeans(records, front);
      var before := AddPage(records, front);
      assert forall i | 0 <= i < n :: page[i] == front[i];
      forall id ensures HasId(page, id) <==> HasId(front, id) || page[n].id == id {
        if HasId(front, id) {
          var i :| 0 <= i < |front| && front[i].id == id;
          assert page[i].id == id;
        }
      }
      forall id ensures HasId(before + [page[n]], id) <==> HasId(before, id) || page[n].id == id {
        if HasId(before, id) {
          var i :| 0 <= i < |before| && before[i].id == id;
          assert (before + [page[n]])[i].id == id;
        }
        assert (before + [page[n]])[|before|] == page[n];
      }
      if before == records && !HasId(records, page[n].id) { assert |AddPage(records, page)| > |records|; }
    }
  }

  /** A short page ends the listing; a full one without a new row stops it with an error. */
  lemma AdvanceMeans(records: seq<Event>, page: seq<Event>)
    ensures var r := Advance(records, page);
            && (r.Complete? <==> |page| < 500)
            && (r.Stalled? <==> |page| >= 500 && forall i | 0 <= i < |page| :: HasId(records, page[i].id))
            && (!r.Stalled? ==> records <= r.records
                                && forall id :: HasId(r.records, id) <==> HasId(records, id) || HasId(page, id))
  {
    hide AddPage, HasId;
    AddPageMeans(records, page);
  }

  /** A batch has 1 to 500 mutations, and one made for another revision is refused as stale before anything is read. */
  lemma BeginMeans(s: System, mutations: seq<Mutation>, expected: Option<nat>)
    requires s.versions != []
    ensures var c, now := Begin(s, mutations, expected), |s.versions| - 1;
            && (c == Threw("invalid-batch") <==> mutations == [] || |mutations| > 500)
            && (c == Refused([Conflict(StaleRevision, Error, {})]) <==>
                  1 <= |mutations| <= 500 && expected.Some? && expected.value != now)
            && (c == Paging(Mutating(mutations), now, 0, []) <==>
                  1 <= |mutations| <= 500 && (expected.None? || expected == Some(now)))
  {
  }

  /** A commit goes in only at the revision its rows were read at; otherwise the batch is refused as stale. */
  lemma CommitMeans(s: System, c: nat, rows: seq<Event>, lib: Library)
    requires Enabled(s, Commit(c, rows)) && NamesOnce(s.clients[c].upserts, s.clients[c].deletes)
    ensures var client, after := s.clients[c], Next(s, Commit(c, rows), lib);
            if client.expected == |s.versions| - 1
            then after.versions == s.versions + [rows] && after.clients[c] == Saved(|s.versions|, client.mutations)
            else after.versions == s.versions && after.clients[c] == Refused([Conflict(StaleRevision, Error, {})])
  {
    hide NamesOnce, CommitTo, Table, Enumerates;
  }

  /** A load whose revision moved is tried once more, and fails if it moves again. */
  lemma LoadMeans(s: System, c: nat, lib: Library)
    requires Enabled(s, ReadRevisionAgain(c)) && s.clients[c].attempt <= 1
    ensures var client, after := s.clients[c], Next(s, ReadRevisionAgain(c), lib);
            && after.versions == s.versions
            && after.clients[c] ==
               (if client.before == |s.versions| - 1 then Loaded(|s.versions| - 1, client.records)
                else if client.attempt == 0 then Retrying else Threw("calendar-changed"))
            && (after.clients[c].Retrying? ==>
                  && Enabled(after, RetryLoad(c))
                  && Next(after, RetryLoad(c), lib).clients[c] == Paging(Loading(1), |s.versions| - 1, 0, []))
  {
  }
}
