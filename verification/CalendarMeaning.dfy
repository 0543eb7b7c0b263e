/** What the calendar's checks answer, in terms of instants, days and the events themselves. */
module CalendarMeaning {
  import opened Wrappers
  import opened TextOrder
  import opened CalendarPolicy
  import opened CalendarRepository

  // --------------------------------------------------------------------- overlap

  predicate At(r: Range, t: int) {
    r.start <= t < r.end
  }

  ghost predicate ShareInstant(a: Range, b: Range) {
    exists t :: At(a, t) && At(b, t)
  }

  lemma MeetMeans(a: Range, b: Range)
    requires a.start < a.end && b.start < b.end
    ensures Meet(a, b) <==> ShareInstant(a, b)
  {
    if Meet(a, b) {
      var t := if a.start <= b.start then b.start else a.start;
      assert At(a, t) && At(b, t);
    }
  }

  predicate TimedOnce(e: Event) {
    e.recurrence.None? && e.schedule.Timed?
  }

  function Hours(e: Event): Range
    requires e.schedule.Timed?
  {
    Range(e.schedule.start, e.schedule.end)
  }

  /** Two timed events overlap exactly when some instant lies in both. */
  lemma TimedOverlapMeans(a: Event, b: Event, lib: Library)
    requires TimedOnce(a) && TimedOnce(b) && a.schedule.start < a.schedule.end && b.schedule.start < b.schedule.end
    ensures EventsOverlap(a, b, lib) == Ok(ShareInstant(Hours(a), Hours(b)))
  {
    MeetMeans(Hours(a), Hours(b));
  }

  /** The local days of an event: first day, and day after the last one. */
  function Days(e: Event, zone: string, lib: Library): (string, string) {
    match e.schedule
    case AllDay(from, to) => (from, to)
    case Timed(start, end, _) => (lib.dateOf(start, zone), lib.lastDate(end, zone))
  }

  predicate OnDay(days: (string, string), d: string) {
    !TextLess(d, days.0) && TextLess(d, days.1)
  }

  ghost predicate ShareDay(a: (string, string), b: (string, string)) {
    exists d :: OnDay(a, d) && OnDay(b, d)
  }

  lemma DaysMeet(a: (string, string), b: (string, string))
    requires TextLess(a.0, a.1) && TextLess(b.0, b.1)
    ensures TextLess(a.0, b.1) && TextLess(b.0, a.1) <==> ShareDay(a, b)
  {
    hide TextLess;
    TextTotal(a.0, b.0);
    TextTotal(a.0, a.0);
    TextTotal(b.0, b.0);
    if TextLess(a.0, b.1) && TextLess(b.0, a.1) {
      var d := if TextLess(a.0, b.0) then b.0 else a.0;
      assert OnDay(a, d) && OnDay(b, d);
    }
    if d :| OnDay(a, d) && OnDay(b, d) {
      TextTotal(d, a.0);
      TextTotal(d, b.0);
      if d != a.0 { TextTransitive(a.0, d, b.1); }
      if d != b.0 { TextTransitive(b.0, d, a.1); }
    }
  }

  /** With an all-day event, two events overlap exactly when some day of the timed one's zone lies in both. */
  lemma DayOverlapMeans(a: Event, b: Event, lib: Library, zone: string)
    requires a.recurrence.None? && b.recurrence.None? && (a.schedule.AllDay? || b.schedule.AllDay?)
    requires (a.schedule.Timed? ==> zone == a.schedule.zone) && (b.schedule.Timed? ==> zone == b.schedule.zone)
    requires var x, y := Days(a, zone, lib), Days(b, zone, lib); TextLess(x.0, x.1) && TextLess(y.0, y.1)
    ensures EventsOverlap(a, b, lib) == Ok(ShareDay(Days(a, zone, lib), Days(b, zone, lib)))
  {
    hide TextLess, ShareDay;
    DaysMeet(Days(a, zone, lib), Days(b, zone, lib));
  }

  /** The instants of an event, all-day ones from midnight to midnight in the given zone. */
  function Instants(e: Event, zone: string, lib: Library): Range {
    match e.schedule
    case AllDay(from, to) => Range(lib.midnight(from, zone), lib.midnight(to, zone))
    case Timed(start, end, _) => Range(start, end)
  }

  /** The library's occurrences are proper time ranges. */
  predicate Proper(ranges: seq<Range>) {
    forall i | 0 <= i < |ranges| :: ranges[i].start < ranges[i].end
  }

  /** A series overlaps a single event exactly when some instant of an occurrence near it lies in the event. */
  lemma SeriesEventMeans(series: Event, e: Event, lib: Library)
    requires series.recurrence.Some? && e.recurrence.None?
    ensures var r := Instants(e, series.recurrence.value.zone, lib);
            var found := lib.occurrences(series, r.start, r.end);
            && (EventsOverlap(series, e, lib).Err? <==> found.None?)
            && (found.Some? && Proper(found.value) && r.start < r.end ==>
                  (EventsOverlap(series, e, lib) == Ok(true) <==>
                   exists i | 0 <= i < |found.value| :: ShareInstant(found.value[i], r)))
  {
    hide ShareInstant, Meet;
    var r := Instants(e, series.recurrence.value.zone, lib);
    var found := lib.occurrences(series, r.start, r.end);
    if found.Some? && Proper(found.value) && r.start < r.end {
      forall i | 0 <= i < |found.value| ensures Meet(found.value[i], r) <==> ShareInstant(found.value[i], r) {
        MeetMeans(found.value[i], r);
      }
    }
  }

  /** Two series overlap exactly when occurrences share an instant in the 366 days from the earlier first one. */
  lemma SeriesMeans(a: Event, b: Event, lib: Library)
    requires a.recurrence.Some? && b.recurrence.Some?
    ensures var x := Instants(a, a.recurrence.value.zone, lib).start;
            var y := Instants(b, b.recurrence.value.zone, lib).start;
            var from := if x <= y then x else y;
            var to := from + 366 * 24 * 3600 * 1000000000;
            var xs, ys := lib.occurrences(a, from, to), lib.occurrences(b, from, to);
            && (EventsOverlap(a, b, lib).Err? <==> xs.None? || ys.None?)
            && (xs.Some? && ys.Some? && Proper(xs.value) && Proper(ys.value) ==>
                  (EventsOverlap(a, b, lib) == Ok(true) <==>
                   exists i, j | 0 <= i < |xs.value| && 0 <= j < |ys.value| :: ShareInstant(xs.value[i], ys.value[j])))
  {
    hide ShareInstant, Meet;
    var x, y := Instants(a, a.recurrence.value.zone, lib).start, Instants(b, b.recurrence.value.zone, lib).start;
    var from := if x <= y then x else y;
    var to := from + 366 * 24 * 3600 * 1000000000;
    var xs, ys := lib.occurrences(a, from, to), lib.occurrences(b, from, to);
    if xs.Some? && ys.Some? && Proper(xs.value) && Proper(ys.value) {
      forall i, j | 0 <= i < |xs.value| && 0 <= j < |ys.value|
        ensures Meet(xs.value[i], ys.value[j]) <==> ShareInstant(xs.value[i], ys.value[j])
      {
        MeetMeans(xs.value[i], ys.value[j]);
      }
    }
  }

  // ------------------------------------------------------------------- conflicts

  /** A stored event of the given kind, other than the candidate, that overlaps it; plans count once committed. */
  ghost predicate Hit(candidate: Event, existing: map<string, Event>, lib: Library, id: string, kind: Kind) {
    && id in existing && existing[id].id != candidate.id && existing[id].kind == kind
    && (kind == Plan ==> existing[id].state == Committed)
    && EventsOverlap(candidate, existing[id], lib) == Ok(true)
  }

  ghost predicate NoHit(candidate: Event, existing: map<string, Event>, lib: Library, kind: Kind) {
    forall id :: !Hit(candidate, existing, lib, id, kind)
  }

  /** Exactly the hits of one kind are reported, and there is one. */
  ghost predicate Reports(c: Conflict, candidate: Event, existing: map<string, Event>, lib: Library, kind: Kind) {
    c.affected != {} && forall id :: id in c.affected <==> Hit(candidate, existing, lib, id, kind)
  }

  /** Manual blocks are reported before external events, those before plans; plans only warn a proposal. */
  lemma DetectMeans(candidate: Event, existing: map<string, Event>, lib: Library)
    requires DetectConflict(candidate, existing, lib).Ok?
    ensures var r := DetectConflict(candidate, existing, lib).value;
            match r
            case None => forall kind | kind != Break :: NoHit(candidate, existing, lib, kind)
            case Some(c) =>
              || (c.reason == OverlapsManualBlock && c.severity == Error
                  && Reports(c, candidate, existing, lib, ManualBlock))
              || (c.reason == OverlapsExternalEvent && c.severity == Error
                  && NoHit(candidate, existing, lib, ManualBlock) && Reports(c, candidate, existing, lib, External))
              || (c.reason == OverlapsCommittedPlan && (c.severity == Error <==> candidate.state == Committed)
                  && NoHit(candidate, existing, lib, ManualBlock) && NoHit(candidate, existing, lib, External)
                  && Reports(c, candidate, existing, lib, Plan))
  {
    hide EventsOverlap;
    var overlaps := Overlapping(candidate, existing, lib);
    var manual, external := OfKind(overlaps, existing, ManualBlock), OfKind(overlaps, existing, External);
    assert forall id :: Hit(candidate, existing, lib, id, ManualBlock) <==> id in manual;
    assert forall id :: Hit(candidate, existing, lib, id, External) <==> id in external;
    assert forall id :: Hit(candidate, existing, lib, id, Plan) <==> id in CommittedPlans(overlaps, existing);
  }

  // ------------------------------------------------------------------- mutations

  /** What a valid event is, apart from its text and recurrence. */
  lemma EventMeans(e: Event, lib: Library)
    requires EventOk(e, lib)
    ensures e.schedule.Timed? ==> e.schedule.start + 15 * 60 * 1000000000 <= e.schedule.end
    ensures e.schedule.AllDay? ==> TextLess(e.schedule.startDate, e.schedule.endDateExclusive)
    ensures e.kind == External ==> !e.editable
    ensures e.recurrence.None? ==> e.occurrenceId.None? || e.occurrenceId == Some("")
    ensures e.recurrence.Some? ==> |e.recurrence.value.exceptionDates| <= 2000
  {
  }

  /** An event of a quarter of an hour or more, in a known zone and with sound texts, is valid. */
  lemma SingleTimedOk(e: Event, lib: Library)
    requires TimedOnce(e) && e.occurrenceId.None?
    ensures EventOk(e, lib) <==>
            && lib.textOk(e.id, 256) && lib.textOk(e.title, 512) && lib.zoneOk(e.schedule.zone)
            && e.schedule.end - e.schedule.start >= 15 * 60 * 1000000000 && (e.kind == External ==> !e.editable)
  {
  }

  /** The texts of a mutation are sound, and the event it carries is valid and the one it names. */
  predicate Sound(m: Mutation, lib: Library) {
    && lib.textOk(m.mutationId, 256) && lib.textOk(m.eventId, 256)
    && (m.after.Some? ==> EventOk(m.after.value, lib) && m.after.value.id == m.eventId)
  }

  /** The same series with all of its exception dates and at least one more. */
  ghost predicate MoreExceptions(c: Event, after: Event) {
    && c.recurrence.Some? && after.recurrence.Some?
    && (after.id, after.title, after.kind, after.state, after.schedule)
       == (c.id, c.title, c.kind, c.state, c.schedule)
    && (after.occurrenceId, after.sourcePlanId, after.editable, after.version)
       == (c.occurrenceId, c.sourcePlanId, c.editable, c.version)
    && after.recurrence.value.seriesId == c.recurrence.value.seriesId
    && after.recurrence.value.rrule == c.recurrence.value.rrule
    && after.recurrence.value.zone == c.recurrence.value.zone
    && (forall d | d in c.recurrence.value.exceptionDates :: d in after.recurrence.value.exceptionDates)
    && (exists d | d in after.recurrence.value.exceptionDates :: d !in c.recurrence.value.exceptionDates)
  }

  /** What may be done to an event that recurs, by the scope that was chosen. */
  ghost predicate ScopeAllows(m: Mutation, c: Event) {
    c.recurrence.Some? ==>
      match m.scope
      case None => false
      case Some(Following) => false
      case Some(Occurrence) =>
        c.occurrenceId.Some? || (m.kind == Update && m.after.Some? && MoreExceptions(c, m.after.value))
      case Some(Series) =>
        && c.occurrenceId.None?
        && (m.after.Some? && m.after.value.recurrence.Some? ==>
              && m.after.value.occurrenceId.None?
              && m.after.value.recurrence.value.seriesId == c.recurrence.value.seriesId)
  }

  lemma GrowsByOne(olds: seq<string>, news: seq<string>)
    requires Set(olds) < Set(news)
    ensures exists d | d in news :: d !in olds
  {
    var extra := set d | d in news && d !in olds;
    assert Set(news) <= Set(olds) + extra;
    if extra == {} { assert false; }
    var d :| d in extra;
    assert d in news && d !in olds;
  }

  lemma ExceptionsMean(c: Event, after: Event)
    ensures OnlyAddsExceptions(c, after) <==> MoreExceptions(c, after)
  {
    if c.recurrence.Some? && after.recurrence.Some? {
      var olds, news := c.recurrence.value.exceptionDates, after.recurrence.value.exceptionDates;
      if MoreExceptions(c, after) {
        var d :| d in news && d !in olds;
        assert d in Set(news) && d !in Set(olds);
        assert Set(olds) <= Set(news);
      }
      if OnlyAddsExceptions(c, after) {
        assert forall d | d in olds :: d in Set(olds);
        GrowsByOne(olds, news);
      }
    }
  }

  /** A create is accepted exactly when nothing has the id and no version is expected; otherwise it is stale. */
  lemma CreateExact(m: Mutation, current: Option<Event>, lib: Library)
    requires m.kind == Create
    ensures ValidateMutation(m, current, lib).Ok? <==> Sound(m, lib)
    ensures Sound(m, lib) ==>
              ValidateMutation(m, current, lib).value ==
              if current.None? && m.expectedVersion.None? && m.after.Some? then None
              else Some(Conflict(StaleVersion, Error, {m.eventId}))
  {
    hide EventOk;
  }

  /** The event is there in the version the caller has seen. */
  predicate UpToDate(m: Mutation, current: Option<Event>) {
    current.Some? && m.expectedVersion == Some(current.value.version)
  }

  predicate Writable(c: Event) {
    c.kind != External && c.editable
  }

  /** Any other mutation is accepted exactly for an up-to-date, writable event that its scope allows to change. */
  lemma ChangeExact(m: Mutation, current: Option<Event>, lib: Library)
    requires m.kind != Create
    ensures var r := ValidateMutation(m, current, lib);
            && (r == Ok(None) <==>
                  && Sound(m, lib) && UpToDate(m, current) && Writable(current.value) && ScopeAllows(m, current.value)
                  && (m.kind == Update ==> m.after.Some?) && (m.kind == Delete ==> m.after.None?))
            && (r == Ok(Some(Conflict(StaleVersion, Error, {m.eventId}))) <==> Sound(m, lib) && !UpToDate(m, current))
            && (r.Ok? && r.value.Some? && r.value.value.reason == ReadOnlyEvent <==>
                  Sound(m, lib) && UpToDate(m, current) && !Writable(current.value))
            && (r.Ok? && r.value.Some? && r.value.value.reason == RecurrenceRestriction <==>
                  && Sound(m, lib) && UpToDate(m, current) && Writable(current.value)
                  && !ScopeAllows(m, current.value))
            && (r.Ok? && r.value.Some? ==>
                  && r.value.value.severity == Error && |r.value.value.affected| == 1
                  && r.value.value.reason in {StaleVersion, ReadOnlyEvent, RecurrenceRestriction})
  {
    hide EventOk, OnlyAddsExceptions, MoreExceptions;
    if current.Some? && m.after.Some? { ExceptionsMean(current.value, m.after.value); }
  }

  // ----------------------------------------------------------------- occurrences

  /** The stored series of that id, not counting single occurrences or the candidate itself. */
  predicate SeriesOf(e: Event, seriesId: string, candidate: Event) {
    && e.id != candidate.id && e.occurrenceId.None?
    && e.recurrence.Some? && e.recurrence.value.seriesId == seriesId
  }

  /** One stored series has the id, and it has the date among its exceptions. */
  ghost predicate OneSeriesExcepts(existing: map<string, Event>, seriesId: string, date: string, candidate: Event) {
    exists id | id in existing ::
      && SeriesOf(existing[id], seriesId, candidate) && date in existing[id].recurrence.value.exceptionDates
      && forall other | other in existing && other != id :: !SeriesOf(existing[other], seriesId, candidate)
  }

  /** An occurrence is accepted exactly when it is named after a date that its one series excepts. */
  lemma OccurrenceExact(candidate: Event, existing: map<string, Event>, lib: Library)
    ensures ValidateOccurrence(candidate, existing, lib).None? <==>
            || candidate.occurrenceId.None? || candidate.occurrenceId == Some("")
            || (candidate.recurrence.Some? &&
                exists date :: candidate.occurrenceId == Some(candidate.recurrence.value.seriesId + ":" + date)
                               && (lib.dateOk(date) || lib.instantOk(date))
                               && OneSeriesExcepts(existing, candidate.recurrence.value.seriesId, date, candidate))
    ensures ValidateOccurrence(candidate, existing, lib).Some? ==>
              ValidateOccurrence(candidate, existing, lib).value
              == Conflict(RecurrenceRestriction, Error, {candidate.id})
  {
    if candidate.recurrence.Some? && candidate.occurrenceId.Some? && candidate.occurrenceId.value != "" {
      var name, seriesId := candidate.occurrenceId.value, candidate.recurrence.value.seriesId;
      var prefix := seriesId + ":";
      var anchor := Anchor(name, seriesId);
      forall date | name == prefix + date ensures anchor == Some(date) {
        assert name[..|prefix|] == prefix && name[|prefix|..] == date;
      }
      if anchor.Some? {
        assert name == name[..|prefix|] + name[|prefix|..];
        SingletonSeries(candidate, existing, seriesId, anchor.value);
      }
    }
  }

  lemma SingletonSeries(candidate: Event, existing: map<string, Event>, seriesId: string, date: string)
    ensures var series := set id | id in existing && existing[id].id != candidate.id
                                   && existing[id].recurrence.Some?
                                   && existing[id].recurrence.value.seriesId == seriesId
                                   && existing[id].occurrenceId.None?;
            (|series| == 1 && forall id | id in series :: date in existing[id].recurrence.value.exceptionDates)
            <==> OneSeriesExcepts(existing, seriesId, date, candidate)
  {
    var series := set id | id in existing && existing[id].id != candidate.id
                           && existing[id].recurrence.Some? && existing[id].recurrence.value.seriesId == seriesId
                           && existing[id].occurrenceId.None?;
    assert forall id :: id in series <==> id in existing && SeriesOf(existing[id], seriesId, candidate);
    if |series| == 1 {
      var id :| id in series;
      assert |series - {id}| == 0;
      assert forall other | other in series :: other == id || other in series - {id};
    }
    if id :| id in existing && SeriesOf(existing[id], seriesId, candidate)
             && forall other | other in existing && other != id :: !SeriesOf(existing[other], seriesId, candidate) {
      assert series == {id};
    }
  }
}
