/**
 Calendar events and the checks a mutation must pass. Time-zone arithmetic, recurrence
 expansion and text syntax come from a `Library` whose answers are fixed but unknown.
 */
module CalendarPolicy {
  import opened Wrappers
  import opened TextOrder

  datatype Kind = Plan | ManualBlock | External | Break
  datatype Standing = Proposed | Committed
  datatype Schedule =
    | Timed(start: int, end: int, zone: string)
    | AllDay(startDate: string, endDateExclusive: string)
  datatype Recurrence = Recurrence(seriesId: string, rrule: string, zone: string, exceptionDates: seq<string>)

  /** Instants are counted in nanoseconds. */
  datatype Event = Event(
    id: string, title: string, kind: Kind, state: Standing, schedule: Schedule,
    recurrence: Option<Recurrence>, occurrenceId: Option<string>, sourcePlanId: Option<string>,
    editable: bool, version: nat)

  datatype Range = Range(start: int, end: int)

  /**
   `dateOf` and `lastDate` give the local date of an instant and the day after the last one
   covered, `midnight` the start of a local date; `occurrences` is None when the rule has too
   many in the window. The remaining fields are the syntax checks.
   */
  datatype Library = Library(
    dateOf: (int, string) -> string,
    lastDate: (int, string) -> string,
    midnight: (string, string) -> int,
    occurrences: (Event, int, int) -> Option<seq<Range>>,
    dateOk: string -> bool,
    instantOk: string -> bool,
    zoneOk: string -> bool,
    ruleOk: string -> bool,
    textOk: (string, nat) -> bool)

  datatype Reason =
    | OverlapsManualBlock | OverlapsExternalEvent | OverlapsCommittedPlan
    | StaleVersion | StaleRevision | RecurrenceRestriction | ReadOnlyEvent
  datatype Severity = Warning | Error
  datatype Conflict = Conflict(reason: Reason, severity: Severity, affected: set<string>)

  datatype MutationKind = Create | Update | Delete | Restore
  datatype Scope = Occurrence | Following | Series
  datatype Mutation = Mutation(
    mutationId: string, kind: MutationKind, eventId: string, expectedVersion: Option<nat>,
    after: Option<Event>, scope: Option<Scope>)

  // --------------------------------------------------------------------- overlap

  const YEAR := 366 * 24 * 3600 * 1000000000
  const QUARTER_HOUR := 15 * 60 * 1000000000

  function ZoneOf(e: Event): Option<string> {
    if e.schedule.Timed? then Some(e.schedule.zone)
    else if e.recurrence.Some? then Some(e.recurrence.value.zone) else None
  }

  function DateRange(e: Event, zone: string, lib: Library): (string, string) {
    match e.schedule
    case AllDay(from, to) => (from, to)
    case Timed(start, end, _) => (lib.dateOf(start, zone), lib.lastDate(end, zone))
  }

  function InstantRange(e: Event, zone: string, lib: Library): Range {
    match e.schedule
    case AllDay(from, to) => Range(lib.midnight(from, zone), lib.midnight(to, zone))
    case Timed(start, end, _) => Range(start, end)
  }

  predicate Meet(a: Range, b: Range) {
    a.start < b.end && b.start < a.end
  }

  function SeriesMeetsEvent(series: Event, candidate: Event, lib: Library): Result<bool>
    requires series.recurrence.Some?
  {
    var range := InstantRange(candidate, series.recurrence.value.zone, lib);
    match lib.occurrences(series, range.start, range.end)
    case None => Err("recurrence-too-dense")
    case Some(intervals) => Ok(exists i | 0 <= i < |intervals| :: Meet(intervals[i], range))
  }

  predicate AnyMeet(xs: seq<Range>, ys: seq<Range>) {
    exists i, j | 0 <= i < |xs| && 0 <= j < |ys| :: Meet(xs[i], ys[j])
  }

  lemma AnyMeetBack(xs: seq<Range>, ys: seq<Range>)
    requires AnyMeet(xs, ys)
    ensures AnyMeet(ys, xs)
  {
    var i, j :| 0 <= i < |xs| && 0 <= j < |ys| && Meet(xs[i], ys[j]);
    assert Meet(xs[i], ys[j]) && Meet(ys[j], xs[i]);
  }

  function SeriesMeetSeries(left: Event, right: Event, lib: Library): Result<bool>
    requires left.recurrence.Some? && right.recurrence.Some?
  {
    var leftStart := InstantRange(left, left.recurrence.value.zone, lib).start;
    var rightStart := InstantRange(right, right.recurrence.value.zone, lib).start;
    var start := if leftStart <= rightStart then leftStart else rightStart;
    var lefts, rights := lib.occurrences(left, start, start + YEAR), lib.occurrences(right, start, start + YEAR);
    if lefts.None? || rights.None? then Err("recurrence-too-dense")
    else Ok(AnyMeet(lefts.value, rights.value))
  }

  function EventsOverlap(left: Event, right: Event, lib: Library): Result<bool> {
    if left.recurrence.Some? && right.recurrence.None? then SeriesMeetsEvent(left, right, lib)
    else if left.recurrence.None? && right.recurrence.Some? then SeriesMeetsEvent(right, left, lib)
    else if left.recurrence.Some? then SeriesMeetSeries(left, right, lib)
    else if left.schedule.Timed? && right.schedule.Timed? then
      Ok(left.schedule.start < right.schedule.end && right.schedule.start < left.schedule.end)
    else
      var zone := if ZoneOf(left).Some? then ZoneOf(left).value
                  else if ZoneOf(right).Some? then ZoneOf(right).value else "UTC";
      var l, r := DateRange(left, zone, lib), DateRange(right, zone, lib);
      Ok(TextLess(l.0, r.1) && TextLess(r.0, l.1))
  }

  /** Overlap does not depend on which event is the candidate, also when the check throws. */
  lemma OverlapSymmetric(a: Event, b: Event, lib: Library)
    ensures EventsOverlap(a, b, lib) == EventsOverlap(b, a, lib)
  {
    if a.recurrence.Some? && b.recurrence.Some? {
      SeriesSymmetric(a, b, lib);
    }
  }

  lemma SeriesSymmetric(a: Event, b: Event, lib: Library)
    requires a.recurrence.Some? && b.recurrence.Some?
    ensures SeriesMeetSeries(a, b, lib) == SeriesMeetSeries(b, a, lib)
  {
    hide AnyMeet;
    var aStart := InstantRange(a, a.recurrence.value.zone, lib).start;
    var bStart := InstantRange(b, b.recurrence.value.zone, lib).start;
    var start := if aStart <= bStart then aStart else bStart;
    var xs, ys := lib.occurrences(a, start, start + YEAR), lib.occurrences(b, start, start + YEAR);
    if xs.Some? && ys.Some? {
      if AnyMeet(xs.value, ys.value) { AnyMeetBack(xs.value, ys.value); }
      if AnyMeet(ys.value, xs.value) { AnyMeetBack(ys.value, xs.value); }
    }
  }

  // ---------------------------------------------------------------------- checks

  function Overlapping(candidate: Event, existing: map<string, Event>, lib: Library): set<string> {
    set id | id in existing && existing[id].id != candidate.id
             && EventsOverlap(candidate, existing[id], lib) == Ok(true)
  }

  predicate Uncheckable(candidate: Event, existing: map<string, Event>, lib: Library) {
    exists id | id in existing :: existing[id].id != candidate.id && EventsOverlap(candidate, existing[id], lib).Err?
  }

  function OfKind(ids: set<string>, existing: map<string, Event>, kind: Kind): set<string> {
    set id | id in ids && id in existing && existing[id].kind == kind
  }

  function CommittedPlans(ids: set<string>, existing: map<string, Event>): set<string> {
    set id | id in ids && id in existing && existing[id].kind == Plan && existing[id].state == Committed
  }

  function DetectConflict(candidate: Event, existing: map<string, Event>, lib: Library): Result<Option<Conflict>> {
    if Uncheckable(candidate, existing, lib) then Err("recurrence-too-dense")
    else
      var overlaps := Overlapping(candidate, existing, lib);
      var manual, external := OfKind(overlaps, existing, ManualBlock), OfKind(overlaps, existing, External);
      var plans := CommittedPlans(overlaps, existing);
      if manual != {} then Ok(Some(Conflict(OverlapsManualBlock, Error, manual)))
      else if external != {} then Ok(Some(Conflict(OverlapsExternalEvent, Error, external)))
      else if plans != {} then
        Ok(Some(Conflict(OverlapsCommittedPlan, if candidate.state == Committed then Error else Warning, plans)))
      else Ok(None)
  }

  predicate ExceptionOk(date: string, lib: Library) {
    lib.dateOk(date) || lib.instantOk(date)
  }

  predicate EventOk(e: Event, lib: Library) {
    && lib.textOk(e.id, 256) && lib.textOk(e.title, 512)
    && !(e.kind == External && e.editable)
    && (match e.schedule
        case AllDay(from, to) => lib.dateOk(from) && lib.dateOk(to) && TextLess(from, to)
        case Timed(start, end, zone) => lib.zoneOk(zone) && start < end && end - start >= QUARTER_HOUR)
    && (match e.recurrence
        case None => e.occurrenceId.None? || e.occurrenceId.value == ""
        case Some(r) =>
          && lib.textOk(r.seriesId, 256) && lib.textOk(r.rrule, 4096) && lib.zoneOk(r.zone) && lib.ruleOk(r.rrule)
          && |r.exceptionDates| <= 2000
          && forall d | d in r.exceptionDates ::
               if e.schedule.AllDay? then lib.dateOk(d) else ExceptionOk(d, lib))
  }

  function Set(texts: seq<string>): set<string> {
    set t | t in texts
  }

  /** The series itself is unchanged except for at least one more exception date. */
  predicate OnlyAddsExceptions(current: Event, after: Event) {
    && current.recurrence.Some? && after.recurrence.Some?
    && var dates := after.recurrence.value.exceptionDates;
       && after == current.(recurrence := Some(current.recurrence.value.(exceptionDates := dates)))
       && Set(current.recurrence.value.exceptionDates) < Set(dates)
  }

  function Restriction(id: string): Conflict {
    Conflict(RecurrenceRestriction, Error, {id})
  }

  function ValidateMutation(m: Mutation, current: Option<Event>, lib: Library): Result<Option<Conflict>> {
    var stale := Conflict(StaleVersion, Error, {m.eventId});
    if !lib.textOk(m.mutationId, 256) || !lib.textOk(m.eventId, 256) then Err("invalid-text")
    else if m.after.Some? && !EventOk(m.after.value, lib) then Err("invalid-event")
    else if m.after.Some? && m.after.value.id != m.eventId then Err("event-id-mismatch")
    else if m.kind == Create then
      Ok(if current.Some? || m.expectedVersion.Some? || m.after.None? then Some(stale) else None)
    else if current.None? || m.expectedVersion != Some(current.value.version) then Ok(Some(stale))
    else
      var c := current.value;
      if c.kind == External || !c.editable then Ok(Some(Conflict(ReadOnlyEvent, Error, {c.id})))
      else if c.recurrence.Some? && (m.scope.None? || m.scope.value == Following) then Ok(Some(Restriction(c.id)))
      else if c.recurrence.Some? && c.occurrenceId.None? && m.scope == Some(Occurrence)
              && (m.kind != Update || m.after.None? || !OnlyAddsExceptions(c, m.after.value))
      then Ok(Some(Restriction(c.id)))
      else if c.recurrence.Some? && c.occurrenceId.None? && m.scope == Some(Series)
              && m.after.Some? && m.after.value.recurrence.Some?
              && (m.after.value.occurrenceId.Some?
                  || m.after.value.recurrence.value.seriesId != c.recurrence.value.seriesId)
      then Ok(Some(Restriction(c.id)))
      else if c.recurrence.Some? && c.occurrenceId.Some? && m.scope == Some(Series) then Ok(Some(Restriction(c.id)))
      else if m.kind == Update && m.after.None? then Err("missing-after")
      else if m.kind == Delete && m.after.Some? then Err("unexpected-after")
      else Ok(None)
  }

  function Anchor(occurrenceId: string, seriesId: string): Option<string> {
    var prefix := seriesId + ":";
    if |prefix| <= |occurrenceId| && occurrenceId[..|prefix|] == prefix then Some(occurrenceId[|prefix|..]) else None
  }

  function ValidateOccurrence(candidate: Event, existing: map<string, Event>, lib: Library): Option<Conflict> {
    if candidate.occurrenceId.None? || candidate.occurrenceId.value == "" then None
    else if candidate.recurrence.None? then Some(Restriction(candidate.id))
    else
      var seriesId := candidate.recurrence.value.seriesId;
      var anchor := Anchor(candidate.occurrenceId.value, seriesId);
      if anchor.None? || !ExceptionOk(anchor.value, lib) then Some(Restriction(candidate.id))
      else
        var series := set id | id in existing && existing[id].id != candidate.id
                               && existing[id].recurrence.Some? && existing[id].recurrence.value.seriesId == seriesId
                               && existing[id].occurrenceId.None?;
        if |series| == 1 && forall id | id in series :: anchor.value in existing[id].recurrence.value.exceptionDates
        then None else Some(Restriction(candidate.id))
  }

  // ------------------------------------------------------------------ conflicts

  /** Events that reserve their time: committed, and anything but a break. */
  predicate Binding(e: Event) {
    e.state == Committed && e.kind != Break
  }

  /** No two distinct binding events overlap. */
  ghost predicate ConflictFree(events: map<string, Event>, lib: Library) {
    forall a, b | a in events && b in events && a != b ::
      Binding(events[a]) && Binding(events[b]) ==> EventsOverlap(events[a], events[b], lib) != Ok(true)
  }

  ghost predicate Keyed(events: map<string, Event>) {
    forall id | id in events :: events[id].id == id
  }

  /** An event accepted without an error overlaps no binding event, if it is binding itself. */
  lemma AcceptedOverlapsNothing(candidate: Event, existing: map<string, Event>, lib: Library, id: string)
    requires DetectConflict(candidate, existing, lib).Ok?
    requires var c := DetectConflict(candidate, existing, lib).value; c.None? || c.value.severity == Warning
    requires Binding(candidate) && id in existing && existing[id].id != candidate.id && Binding(existing[id])
    ensures EventsOverlap(candidate, existing[id], lib) == Ok(false)
  {
    ErrorIff(candidate, existing, lib);
    hide EventsOverlap, DetectConflict;
    assert Blocks(existing[id], candidate);
  }

  /** What an overlapping candidate may not touch. */
  predicate Blocks(e: Event, candidate: Event) {
    e.kind == ManualBlock || e.kind == External || (e.kind == Plan && e.state == Committed
        && candidate.state == Committed)
  }

  /** The check is exact: it reports an error iff the candidate would overlap a reserved time. */
  lemma ErrorIff(candidate: Event, existing: map<string, Event>, lib: Library)
    requires DetectConflict(candidate, existing, lib).Ok?
    ensures forall id | id in existing && existing[id].id != candidate.id
            :: EventsOverlap(candidate, existing[id], lib).Ok?
    ensures var c := DetectConflict(candidate, existing, lib).value;
            (c.Some? && c.value.severity == Error) <==>
            exists id | id in existing ::
              && existing[id].id != candidate.id && EventsOverlap(candidate, existing[id], lib) == Ok(true)
              && Blocks(existing[id], candidate)
  {
    hide EventsOverlap;
    var c := DetectConflict(candidate, existing, lib).value;
    var overlaps := Overlapping(candidate, existing, lib);
    if c.Some? && c.value.severity == Error {
      var id :| id in c.value.affected;
      assert id in existing && id in overlaps && Blocks(existing[id], candidate);
    }
    forall id | id in existing && existing[id].id != candidate.id
                && EventsOverlap(candidate, existing[id], lib) == Ok(true) && Blocks(existing[id], candidate)
      ensures c.Some? && c.value.severity == Error
    {
      assert id in overlaps;
      assert id in OfKind(overlaps, existing, existing[id].kind);
      assert existing[id].kind == Plan ==> id in CommittedPlans(overlaps, existing);
      assert CommittedPlans(overlaps, existing) != {} || OfKind(overlaps, existing, ManualBlock) != {}
             || OfKind(overlaps, existing, External) != {};
    }
  }
}
