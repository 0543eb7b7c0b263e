/**
 From a model's events to ordered time slices: segment tokens are resolved to times,
 overlapping events are merged into one slice, and the slices are fitted to the window.
 */
module TimeSlices {
  import opened Wrappers
  import opened SignalSegments

  datatype ActivityKind =
    | Development | Writing | Research | Communication | Planning | DataWork | Media | Gaming
    | SystemFileOps | Commerce | IdleTransition | OtherUnknown

  /** `specificity` is the rank the action text is given; tokens are numbered from zero. */
  datatype ModelEvent = ModelEvent(
    activity: ActivityKind, specificity: nat, confidence: real, segmentIds: seq<nat>,
    startedAt: Option<int>, endedAt: Option<int>)

  datatype Context = Context(windowStart: Option<int>, windowEnd: Option<int>)

  function Low(a: int, b: int): int { if a <= b then a else b }
  function High(a: int, b: int): int { if a >= b then a else b }

  function OrElse(o: Option<int>, d: int): int {
    if o.Some? then o.value else d
  }

  // ------------------------------------------------------------------ resolution

  function Dedupe(ids: seq<nat>): seq<nat> {
    if ids == [] then []
    else
      var front, last := Dedupe(ids[..|ids| - 1]), ids[|ids| - 1];
      if last in front then front else front + [last]
  }

  function InsertId(sorted: seq<nat>, x: nat): seq<nat> {
    if sorted == [] then [x]
    else
      var n := |sorted| - 1;
      if sorted[n] <= x then sorted + [x] else InsertId(sorted[..n], x) + [sorted[n]]
  }

  function SortIds(ids: seq<nat>): seq<nat> {
    if ids == [] then [] else InsertId(SortIds(ids[..|ids| - 1]), ids[|ids| - 1])
  }

  predicate Consecutive(ids: seq<nat>) {
    forall i | 0 < i < |ids| :: ids[i] == ids[i - 1] + 1
  }

  function ResolveEvent(e: ModelEvent, segments: seq<Segment>, claimed: set<nat>): Result<ModelEvent> {
    var unique := Dedupe(e.segmentIds);
    var ordered := SortIds(unique);
    if exists id | id in unique :: id in claimed then Err("segment claimed twice")
    else if exists id | id in unique :: id >= |segments| then Err("unknown segment")
    else if !Consecutive(ordered) then Err("segments are not contiguous")
    else if ordered == [] || ordered[0] >= |segments| || ordered[|ordered| - 1] >= |segments| then Err("no segment")
    else
      var segmentStart, segmentEnd := segments[ordered[0]].startedAt, segments[ordered[|ordered| - 1]].endedAt;
      var start, end := OrElse(e.startedAt, segmentStart), OrElse(e.endedAt, segmentEnd);
      if start < segmentStart || end > segmentEnd || start > end then Err("time outside the segments")
      else Ok(e.(segmentIds := unique, startedAt := Some(start), endedAt := Some(end)))
  }

  function Claimed(events: seq<ModelEvent>): set<nat> {
    set e, id | e in events && id in e.segmentIds :: id
  }

  function ResolveAll(events: seq<ModelEvent>, segments: seq<Segment>): Result<seq<ModelEvent>> {
    if events == [] then Ok([])
    else
      var n := |events| - 1;
      match ResolveAll(events[..n], segments)
      case Err(m) => Err(m)
      case Ok(rs) =>
        match ResolveEvent(events[n], segments, Claimed(events[..n]))
        case Err(m) => Err(m)
        case Ok(r) => Ok(rs + [r])
  }

  method ResolveSignalRanges(events: seq<ModelEvent>, segments: seq<Segment>) returns (r: Result<seq<ModelEvent>>)
    ensures r == ResolveAll(events, segments)
  {
    hide ResolveEvent, ResolveAll, Claimed;
    ResolveNone(segments);
    var claimed: set<nat>, resolved, k := {}, [], 0;
    while k < |events|
      invariant 0 <= k <= |events|
      invariant claimed == Claimed(events[..k]) && ResolveAll(events[..k], segments) == Ok(resolved)
    {
      ResolveOneMore(events, segments, k);
      var one := ResolveEvent(events[k], segments, claimed);
      if one.Err? {
        FailureSticks(events, segments, k + 1);
        return Err(one.error);
      }
      claimed := claimed + set id | id in events[k].segmentIds;
      resolved := resolved + [one.value];
      k := k + 1;
    }
    assert events[..k] == events;
    return Ok(resolved);
  }

  lemma ResolveNone(segments: seq<Segment>)
    ensures ResolveAll([], segments) == Ok([]) && Claimed([]) == {}
  {
  }

  lemma ResolveOneMore(events: seq<ModelEvent>, segments: seq<Segment>, k: nat)
    requires k < |events| && ResolveAll(events[..k], segments).Ok?
    ensures Claimed(events[..k + 1]) == Claimed(events[..k]) + set id | id in events[k].segmentIds
    ensures var one := ResolveEvent(events[k], segments, Claimed(events[..k]));
            ResolveAll(events[..k + 1], segments)
            == if one.Err? then Err(one.error) else Ok(ResolveAll(events[..k], segments).value + [one.value])
  {
    hide ResolveEvent;
    var more := events[..k + 1];
    assert more[..k] == events[..k] && more[k] == events[k];
    forall id ensures id in Claimed(more) <==> id in Claimed(events[..k]) || id in events[k].segmentIds {
      if id in Claimed(events[..k]) {
        var e :| e in events[..k] && id in e.segmentIds;
        assert e in more;
      }
      if id in events[k].segmentIds { assert more[k] in more; }
    }
  }

  lemma {:induction false} FailureSticks(events: seq<ModelEvent>, segments: seq<Segment>, k: nat)
    requires k <= |events| && ResolveAll(events[..k], segments).Err?
    ensures ResolveAll(events, segments) == ResolveAll(events[..k], segments)
    decreases |events| - k
  {
    if k == |events| {
      assert events[..k] == events;
    } else {
      assert events[..k + 1][..k] == events[..k];
      FailureSticks(events, segments, k + 1);
    }
  }

  /** A time range with its start not after its end. */
  predicate Timed(e: ModelEvent) {
    e.startedAt.Some? && e.endedAt.Some? && e.startedAt.value <= e.endedAt.value
  }

  lemma {:induction false} ResolvedAreTimed(events: seq<ModelEvent>, segments: seq<Segment>)
    ensures var r := ResolveAll(events, segments);
            r.Ok? ==> |r.value| == |events| && AllTimed(r.value)
  {
    if events != [] {
      hide Dedupe, SortIds, Consecutive, Claimed;
      ResolvedAreTimed(events[..|events| - 1], segments);
    }
  }

  lemma {:induction false} DedupeKeeps(ids: seq<nat>)
    ensures forall x :: x in Dedupe(ids) <==> x in ids
    ensures forall i, j | 0 <= i < j < |Dedupe(ids)| :: Dedupe(ids)[i] != Dedupe(ids)[j]
  {
    if ids != [] {
      DedupeKeeps(ids[..|ids| - 1]);
      assert ids == ids[..|ids| - 1] + [ids[|ids| - 1]];
    }
  }

  predicate Ascending(ids: seq<nat>) {
    forall i, j | 0 <= i < j < |ids| :: ids[i] <= ids[j]
  }

  lemma {:induction false} InsertIdKeeps(sorted: seq<nat>, x: nat)
    ensures multiset(InsertId(sorted, x)) == multiset(sorted) + multiset{x}
  {
    if sorted != [] {
      var n := |sorted| - 1;
      assert sorted == sorted[..n] + [sorted[n]];
      if sorted[n] > x { InsertIdKeeps(sorted[..n], x); }
    }
  }

  lemma {:induction false} InsertIdSorts(sorted: seq<nat>, x: nat)
    requires Ascending(sorted)
    ensures Ascending(InsertId(sorted, x))
  {
    if sorted != [] {
      var n := |sorted| - 1;
      if sorted[n] > x {
        InsertIdSorts(sorted[..n], x);
        var front := InsertId(sorted[..n], x);
        InsertIdKeeps(sorted[..n], x);
        assert InsertId(sorted, x) == front + [sorted[n]];
        hide InsertId;
        forall i | 0 <= i < |front| ensures front[i] <= sorted[n] {
          assert front[i] in multiset(front);
          assert front[i] in sorted[..n] || front[i] == x;
        }
      } else {
        assert InsertId(sorted, x) == sorted + [x];
        hide InsertId;
        assert forall i | 0 <= i < n :: sorted[i] <= sorted[n];
      }
    }
  }

  lemma {:induction false} SortIdsSorts(ids: seq<nat>)
    ensures Ascending(SortIds(ids)) && multiset(SortIds(ids)) == multiset(ids)
  {
    if ids != [] {
      var n := |ids| - 1;
      SortIdsSorts(ids[..n]);
      InsertIdSorts(SortIds(ids[..n]), ids[n]);
      InsertIdKeeps(SortIds(ids[..n]), ids[n]);
      hide InsertId, Ascending;
      assert ids == ids[..n] + [ids[n]];
    }
  }

  lemma {:induction false} DistinctMultiset(ids: seq<nat>, x: nat)
    requires forall i, j | 0 <= i < j < |ids| :: ids[i] != ids[j]
    ensures multiset(ids)[x] <= 1
  {
    if ids != [] {
      DistinctMultiset(ids[..|ids| - 1], x);
      assert ids == ids[..|ids| - 1] + [ids[|ids| - 1]];
    }
  }

  lemma {:induction false} RepeatedMultiset(ids: seq<nat>, i: nat, j: nat)
    requires i < j < |ids| && ids[i] == ids[j]
    ensures multiset(ids)[ids[i]] >= 2
  {
    var a := ids[..j];
    assert ids == a + [ids[j]] + ids[j + 1..];
    assert ids[i] in a;
    assert multiset(a)[ids[i]] >= 1;
    assert multiset(ids) == multiset(a) + multiset{ids[j]} + multiset(ids[j + 1..]);
  }

  /** The tokens of one event name exactly the segments from `lo` to `hi`. */
  ghost predicate Names(ids: seq<nat>, lo: nat, hi: nat) {
    lo <= hi && forall x: nat :: x in ids <==> lo <= x <= hi
  }

  /** Sorted without repetition, a contiguous run of tokens is consecutive, first to last. */
  lemma IntervalSorted(ids: seq<nat>, lo: nat, hi: nat)
    requires Names(ids, lo, hi)
    ensures var ordered := SortIds(Dedupe(ids));
            && Consecutive(ordered) && ordered != []
            && ordered[0] == lo && ordered[|ordered| - 1] == hi
  {
    hide Dedupe, SortIds, Consecutive;
    var unique := Dedupe(ids);
    var ordered := SortIds(unique);
    DedupeKeeps(ids);
    SortIdsSorts(unique);
    SameMembers(ordered, unique);
    StrictlyAscends(ordered, unique);
    assert forall x: nat :: x in ordered <==> lo <= x <= hi;
    AscendingInterval(ordered, lo, hi);
  }

  lemma SameMembers(a: seq<nat>, b: seq<nat>)
    requires multiset(a) == multiset(b)
    ensures forall x: nat :: x in a <==> x in b
  {
    forall x: nat ensures x in a <==> x in b {
      assert x in a <==> x in multiset(a);
      assert x in b <==> x in multiset(b);
    }
  }

  lemma StrictlyAscends(ordered: seq<nat>, unique: seq<nat>)
    requires Ascending(ordered) && multiset(ordered) == multiset(unique)
    requires forall i, j | 0 <= i < j < |unique| :: unique[i] != unique[j]
    ensures forall i, j | 0 <= i < j < |ordered| :: ordered[i] < ordered[j]
  {
    forall i, j | 0 <= i < j < |ordered| ensures ordered[i] < ordered[j] {
      DistinctMultiset(unique, ordered[i]);
      if ordered[i] == ordered[j] {
        RepeatedMultiset(ordered, i, j);
        assert false;
      }
    }
  }

  lemma AscendingInterval(ordered: seq<nat>, lo: nat, hi: nat)
    requires lo <= hi && forall x: nat :: x in ordered <==> lo <= x <= hi
    requires forall i, j | 0 <= i < j < |ordered| :: ordered[i] < ordered[j]
    ensures Consecutive(ordered) && ordered != [] && ordered[0] == lo && ordered[|ordered| - 1] == hi
  {
    assert lo in ordered && hi in ordered;
    var a :| 0 <= a < |ordered| && ordered[a] == lo;
    var b :| 0 <= b < |ordered| && ordered[b] == hi;
    assert ordered[0] in ordered && ordered[|ordered| - 1] in ordered;
    forall i | 0 < i < |ordered| ensures ordered[i] == ordered[i - 1] + 1 {
      assert ordered[i - 1] in ordered && ordered[i] in ordered;
      var x := ordered[i - 1] + 1;
      assert lo <= x <= hi;
      assert x in ordered;
      var k :| 0 <= k < |ordered| && ordered[k] == x;
      assert k >= i;
    }
  }

  /** Each event names its own run of existing segments and leaves both times open. */
  ghost predicate OpenChoice(events: seq<ModelEvent>, segments: seq<Segment>, runs: seq<(nat, nat)>) {
    && |runs| == |events|
    && (forall i | 0 <= i < |events| ::
          && events[i].startedAt.None? && events[i].endedAt.None?
          && Names(events[i].segmentIds, runs[i].0, runs[i].1) && runs[i].1 < |segments|)
    && (forall i, j | 0 <= i < j < |events| :: runs[i].1 < runs[j].0 || runs[j].1 < runs[i].0)
  }

  /** Events without times that choose disjoint contiguous existing segments are never rejected. */
  lemma {:induction false} OpenChoiceAccepted(events: seq<ModelEvent>, segments: seq<Segment>, runs: seq<(nat, nat)>)
    requires Chain(segments) && OpenChoice(events, segments, runs)
    ensures ResolveAll(events, segments).Ok?
  {
    hide ResolveEvent, Claimed, Unclaimed, Names, Chain;
    if events != [] {
      var n := |events| - 1;
      OpenChoiceAccepted(events[..n], segments, runs[..n]);
      LastUnclaimed(events, segments, runs);
      RunResolves(events[n], segments, Claimed(events[..n]), runs[n].0, runs[n].1);
    }
  }

  predicate Unclaimed(ids: seq<nat>, claimed: set<nat>) {
    forall id | id in ids :: id !in claimed
  }

  lemma LastUnclaimed(events: seq<ModelEvent>, segments: seq<Segment>, runs: seq<(nat, nat)>)
    requires OpenChoice(events, segments, runs) && events != []
    ensures Unclaimed(events[|events| - 1].segmentIds, Claimed(events[..|events| - 1]))
  {
    var n := |events| - 1;
    forall id | id in Claimed(events[..n]) ensures id !in events[n].segmentIds {
      var f :| f in events[..n] && id in f.segmentIds;
      var k :| 0 <= k < n && events[k] == f;
      assert runs[k].0 <= id <= runs[k].1;
    }
  }

  lemma RunResolves(e: ModelEvent, segments: seq<Segment>, claimed: set<nat>, lo: nat, hi: nat)
    requires Chain(segments) && e.startedAt.None? && e.endedAt.None?
    requires Names(e.segmentIds, lo, hi) && hi < |segments|
    requires Unclaimed(e.segmentIds, claimed)
    ensures ResolveEvent(e, segments, claimed).Ok?
  {
    hide SortIds, Dedupe, Consecutive;
    IntervalSorted(e.segmentIds, lo, hi);
    DedupeKeeps(e.segmentIds);
    assert lo < hi ==> segments[lo].startedAt <= segments[hi].startedAt;
    assert segments[lo].startedAt <= segments[hi].endedAt;
  }

  // --------------------------------------------------------------- consolidation

  function Clamp(v: Option<int>, c: Context): Option<int> {
    if v.None? || c.windowStart.None? || c.windowEnd.None? then v
    else Some(High(c.windowStart.value, Low(c.windowEnd.value, v.value)))
  }

  predicate HasRange(e: ModelEvent) {
    e.startedAt.Some? && e.endedAt.Some?
  }

  const MIN_SAFE_INTEGER := -9007199254740991

  function SortKey(e: ModelEvent, c: Context): int {
    if HasRange(e) then Clamp(e.startedAt, c).value else OrElse(c.windowStart, MIN_SAFE_INTEGER)
  }

  /** Stable: an event goes behind all earlier ones with the same key. */
  function InsertEvent(sorted: seq<ModelEvent>, e: ModelEvent, c: Context): seq<ModelEvent> {
    if sorted == [] then [e]
    else
      var n := |sorted| - 1;
      if SortKey(sorted[n], c) <= SortKey(e, c) then sorted + [e] else InsertEvent(sorted[..n], e, c) + [sorted[n]]
  }

  function SortEvents(events: seq<ModelEvent>, c: Context): seq<ModelEvent> {
    if events == [] then [] else InsertEvent(SortEvents(events[..|events| - 1], c), events[|events| - 1], c)
  }

  predicate SameContinuousActivity(a: ActivityKind, b: ActivityKind) {
    || ((a == Development || a == Research) && (b == Development || b == Research))
    || (a == b && a != SystemFileOps && a != IdleTransition && a != OtherUnknown)
  }

  const CONTINUATION_MS := 30000

  datatype Group = Group(events: seq<ModelEvent>, latestEnd: Option<int>)

  function RangeStart(e: ModelEvent, c: Context): Option<int> {
    if HasRange(e) then Clamp(e.startedAt, c) else None
  }

  function RangeEnd(e: ModelEvent, c: Context): Option<int> {
    if HasRange(e) then Clamp(e.endedAt, c) else None
  }

  predicate Joins(g: Group, e: ModelEvent, c: Context) {
    var start := RangeStart(e, c);
    || start.None? || g.latestEnd.None? || start.value < g.latestEnd.value
    || (start.value - g.latestEnd.value <= CONTINUATION_MS && g.events != []
        && SameContinuousActivity(g.events[|g.events| - 1].activity, e.activity))
  }

  function Join(g: Group, e: ModelEvent, c: Context): Group {
    var end := RangeEnd(e, c);
    Group(g.events + [e], if end.None? then g.latestEnd else Some(High(OrElse(g.latestEnd, end.value), end.value)))
  }

  function Place(groups: seq<Group>, e: ModelEvent, c: Context): seq<Group> {
    if groups != [] && Joins(groups[|groups| - 1], e, c)
    then groups[..|groups| - 1] + [Join(groups[|groups| - 1], e, c)]
    else groups + [Group([e], RangeEnd(e, c))]
  }

  function Grouped(ordered: seq<ModelEvent>, c: Context): seq<Group> {
    if ordered == [] then [] else Place(Grouped(ordered[..|ordered| - 1], c), ordered[|ordered| - 1], c)
  }

  predicate Better(a: ModelEvent, b: ModelEvent) {
    a.specificity > b.specificity || (a.specificity == b.specificity && a.confidence > b.confidence)
  }

  /** The first event no other one beats. */
  function MostSpecific(events: seq<ModelEvent>): ModelEvent
    requires events != []
  {
    var n := |events| - 1;
    if n == 0 then events[0]
    else
      var best := MostSpecific(events[..n]);
      if Better(events[n], best) then events[n] else best
  }

  function MinStart(events: seq<ModelEvent>, c: Context): Option<int> {
    if events == [] then None
    else
      var n := |events| - 1;
      var rest, here := MinStart(events[..n], c), Clamp(events[n].startedAt, c);
      if here.None? then rest else if rest.None? then here else Some(Low(rest.value, here.value))
  }

  function MaxEnd(events: seq<ModelEvent>, c: Context): Option<int> {
    if events == [] then None
    else
      var n := |events| - 1;
      var rest, here := MaxEnd(events[..n], c), Clamp(events[n].endedAt, c);
      if here.None? then rest else if rest.None? then here else Some(High(rest.value, here.value))
  }

  /** One slice for a group: its most specific event over the union of the known times. */
  function Slice(events: seq<ModelEvent>, c: Context): ModelEvent
    requires events != []
  {
    var selected, start, end := MostSpecific(events), MinStart(events, c), MaxEnd(events, c);
    selected.(startedAt := if start.Some? then start else selected.startedAt,
              endedAt := if end.Some? then end else selected.endedAt)
  }

  predicate NonEmptyGroups(groups: seq<Group>) {
    forall i | 0 <= i < |groups| :: groups[i].events != []
  }

  lemma {:induction false} GroupedNonEmpty(ordered: seq<ModelEvent>, c: Context)
    ensures NonEmptyGroups(Grouped(ordered, c))
  {
    hide Place;
    if ordered != [] {
      GroupedNonEmpty(ordered[..|ordered| - 1], c);
      PlaceNonEmpty(Grouped(ordered[..|ordered| - 1], c), ordered[|ordered| - 1], c);
    }
  }

  lemma PlaceNonEmpty(groups: seq<Group>, e: ModelEvent, c: Context)
    requires NonEmptyGroups(groups)
    ensures NonEmptyGroups(Place(groups, e, c))
  {
    hide Joins, RangeEnd;
  }

  function Slices(groups: seq<Group>, c: Context): seq<ModelEvent>
    requires NonEmptyGroups(groups)
  {
    seq(|groups|, i requires 0 <= i < |groups| => Slice(groups[i].events, c))
  }

  function Consolidated(events: seq<ModelEvent>, c: Context): seq<ModelEvent> {
    GroupedNonEmpty(SortEvents(events, c), c);
    Slices(Grouped(SortEvents(events, c), c), c)
  }

  lemma NothingGrouped(c: Context)
    ensures Grouped([], c) == []
  {
  }

  lemma GroupedNext(ordered: seq<ModelEvent>, c: Context, k: nat)
    requires k < |ordered|
    ensures Grouped(ordered[..k + 1], c) == Place(Grouped(ordered[..k], c), ordered[k], c)
  {
    hide Place;
    var more := ordered[..k + 1];
    assert more[..k] == ordered[..k] && more[k] == ordered[k];
  }

  method ConsolidateOverlapping(events: seq<ModelEvent>, c: Context) returns (slices: seq<ModelEvent>)
    ensures slices == Consolidated(events, c)
  {
    hide Joins, Join, RangeEnd, Slice, SortEvents, Grouped;
    var ordered := SortEvents(events, c);
    GroupedNonEmpty(ordered, c);
    var groups: seq<Group>, k := [], 0;
    NothingGrouped(c);
    assert ordered[..0] == [];
    while k < |ordered|
      invariant 0 <= k <= |ordered| && groups == Grouped(ordered[..k], c)
    {
      GroupedNext(ordered, c, k);
      var candidate := ordered[k];
      if groups != [] && Joins(groups[|groups| - 1], candidate, c) {
        groups := groups[..|groups| - 1] + [Join(groups[|groups| - 1], candidate, c)];
      } else {
        groups := groups + [Group([candidate], RangeEnd(candidate, c))];
      }
      k := k + 1;
    }
    assert ordered[..k] == ordered;
    slices := [];
    k := 0;
    while k < |groups|
      invariant 0 <= k <= |groups| && slices == Slices(groups, c)[..k]
    {
      slices := slices + [Slice(groups[k].events, c)];
      k := k + 1;
    }
  }

  // --------------------------------------------------------------- normalisation

  function NextKnownStart(events: seq<ModelEvent>, from: nat, c: Context): Option<int>
    requires from <= |events|
    decreases |events| - from
  {
    if from == |events| then None
    else if events[from].startedAt.Some? then Clamp(events[from].startedAt, c)
    else NextKnownStart(events, from + 1, c)
  }

  predicate Windowed(c: Context) {
    c.windowStart.Some? && c.windowEnd.Some? && c.windowStart.value <= c.windowEnd.value
  }

  /** The first `n` events with their final times. */
  function Fitted(events: seq<ModelEvent>, n: nat, c: Context): (r: seq<ModelEvent>)
    requires n <= |events| && Windowed(c)
    ensures |r| == n && forall i | 0 <= i < n :: r[i].startedAt.Some? && r[i].endedAt.Some?
  {
    if n == 0 then []
    else
      var front := Fitted(events, n - 1, c);
      var previousEnd := if n == 1 then c.windowStart.value else front[n - 2].endedAt.value;
      front + [FitOne(events, n - 1, previousEnd, c)]
  }

  function FitOne(events: seq<ModelEvent>, i: nat, previousEnd: int, c: Context): ModelEvent
    requires i < |events| && Windowed(c)
  {
    var knownStart, knownEnd := Clamp(events[i].startedAt, c), Clamp(events[i].endedAt, c);
    var next := NextKnownStart(events, i + 1, c);
    var start := High(previousEnd, OrElse(knownStart, previousEnd));
    var inferredEnd := if next.Some? && next.value >= start then next.value else c.windowEnd.value;
    var end := High(start, OrElse(knownEnd, inferredEnd));
    events[i].(startedAt := Some(start), endedAt := Some(end))
  }

  function Normalized(events: seq<ModelEvent>, c: Context): seq<ModelEvent> {
    if events == [] || !Windowed(c) then events else Fitted(events, |events|, c)
  }

  method NormalizeTimeRanges(events: seq<ModelEvent>, c: Context) returns (r: seq<ModelEvent>)
    ensures r == Normalized(events, c)
  {
    if events == [] || !Windowed(c) { return events; }
    r := [];
    var previousEnd, k := c.windowStart.value, 0;
    while k < |events|
      invariant 0 <= k <= |events| && r == Fitted(events, k, c)
      invariant previousEnd == if k == 0 then c.windowStart.value else r[k - 1].endedAt.value
    {
      var e := FitOne(events, k, previousEnd, c);
      previousEnd := e.endedAt.value;
      r := r + [e];
      k := k + 1;
    }
  }

  // -------------------------------------------------------------------- theorems

  /** Inside the window, each start not after its end, and no slice before the end of the last one. */
  ghost predicate OrderedSlices(r: seq<ModelEvent>, c: Context)
    requires Windowed(c)
  {
    && (forall i | 0 <= i < |r| ::
          && Timed(r[i])
          && c.windowStart.value <= r[i].startedAt.value && r[i].endedAt.value <= c.windowEnd.value)
    && (forall i, j | 0 <= i < j < |r| :: Timed(r[i]) && Timed(r[j]) && r[i].endedAt.value <= r[j].startedAt.value)
  }

  /** Whatever times the events carry or lack, normalisation yields ordered slices of the window. */
  lemma {:induction false} FittedOrdered(events: seq<ModelEvent>, n: nat, c: Context)
    requires n <= |events| && Windowed(c)
    ensures OrderedSlices(Fitted(events, n, c), c)
    decreases n
  {
    hide FitOne;
    if n > 0 {
      FittedOrdered(events, n - 1, c);
      var front := Fitted(events, n - 1, c);
      var previousEnd := if n == 1 then c.windowStart.value else front[n - 2].endedAt.value;
      FitOneFits(events, n - 1, previousEnd, c);
      AppendOrdered(front, FitOne(events, n - 1, previousEnd, c), c);
    }
  }

  lemma FitOneFits(events: seq<ModelEvent>, i: nat, previousEnd: int, c: Context)
    requires i < |events| && Windowed(c) && c.windowStart.value <= previousEnd <= c.windowEnd.value
    ensures var e := FitOne(events, i, previousEnd, c);
            Timed(e) && previousEnd <= e.startedAt.value && e.endedAt.value <= c.windowEnd.value
  {
    hide NextKnownStart;
    NextInWindow(events, i + 1, c);
  }

  lemma AppendOrdered(front: seq<ModelEvent>, e: ModelEvent, c: Context)
    requires Windowed(c) && OrderedSlices(front, c) && Timed(e)
    requires c.windowStart.value <= e.startedAt.value && e.endedAt.value <= c.windowEnd.value
    requires front != [] ==> front[|front| - 1].endedAt.value <= e.startedAt.value
    ensures OrderedSlices(front + [e], c)
  {
    var r, n := front + [e], |front|;
    forall i | 0 <= i < n ensures front[i].endedAt.value <= e.startedAt.value {
      if i < n - 1 { assert front[i].endedAt.value <= front[n - 1].startedAt.value; }
    }
    assert forall i | 0 <= i < n :: r[i] == front[i];
  }

  lemma {:induction false} NextInWindow(events: seq<ModelEvent>, from: nat, c: Context)
    requires from <= |events| && Windowed(c)
    ensures var next := NextKnownStart(events, from, c);
            next.Some? ==> c.windowStart.value <= next.value <= c.windowEnd.value
    decreases |events| - from
  {
    if from < |events| { NextInWindow(events, from + 1, c); }
  }

  lemma {:induction false} InsertEventKeeps(sorted: seq<ModelEvent>, e: ModelEvent, c: Context)
    ensures multiset(InsertEvent(sorted, e, c)) == multiset(sorted) + multiset{e}
  {
    hide SortKey;
    if sorted != [] {
      var n := |sorted| - 1;
      assert sorted == sorted[..n] + [sorted[n]];
      if SortKey(sorted[n], c) > SortKey(e, c) { InsertEventKeeps(sorted[..n], e, c); }
    }
  }

  lemma {:induction false} InsertEventSorts(sorted: seq<ModelEvent>, e: ModelEvent, c: Context)
    requires KeysAscend(sorted, c)
    ensures KeysAscend(InsertEvent(sorted, e, c), c)
  {
    hide SortKey;
    if sorted != [] {
      var n := |sorted| - 1;
      if SortKey(sorted[n], c) > SortKey(e, c) {
        InsertEventSorts(sorted[..n], e, c);
        var front := InsertEvent(sorted[..n], e, c);
        InsertEventKeeps(sorted[..n], e, c);
        assert InsertEvent(sorted, e, c) == front + [sorted[n]];
        hide InsertEvent;
        forall i | 0 <= i < |front| ensures SortKey(front[i], c) <= SortKey(sorted[n], c) {
          assert front[i] in multiset(front);
          assert front[i] in sorted[..n] || front[i] == e;
        }
      } else {
        assert InsertEvent(sorted, e, c) == sorted + [e];
        hide InsertEvent;
        assert forall i | 0 <= i < n :: SortKey(sorted[i], c) <= SortKey(sorted[n], c);
      }
    }
  }

  predicate KeysAscend(events: seq<ModelEvent>, c: Context) {
    forall i, j | 0 <= i < j < |events| :: SortKey(events[i], c) <= SortKey(events[j], c)
  }

  lemma {:induction false} SortEventsSorts(events: seq<ModelEvent>, c: Context)
    ensures KeysAscend(SortEvents(events, c), c) && multiset(SortEvents(events, c)) == multiset(events)
  {
    hide InsertEvent, KeysAscend;
    if events == [] {
      NoKeys(c);
    } else {
      var n := |events| - 1;
      SortEventsSorts(events[..n], c);
      InsertEventSorts(SortEvents(events[..n], c), events[n], c);
      InsertEventKeeps(SortEvents(events[..n], c), events[n], c);
      assert events == events[..n] + [events[n]];
    }
  }

  lemma NoKeys(c: Context)
    ensures KeysAscend([], c)
  {
  }

  /** The events with one sort key, in order. */
  function WithKey(events: seq<ModelEvent>, c: Context, key: int): seq<ModelEvent> {
    if events == [] then []
    else
      var n := |events| - 1;
      WithKey(events[..n], c, key) + if SortKey(events[n], c) == key then [events[n]] else []
  }

  lemma {:induction false} InsertEventStable(sorted: seq<ModelEvent>, e: ModelEvent, c: Context, key: int)
    ensures WithKey(InsertEvent(sorted, e, c), c, key)
            == WithKey(sorted, c, key) + if SortKey(e, c) == key then [e] else []
  {
    hide SortKey;
    if sorted == [] {
      assert [e][..0] == [];
    } else {
      var n := |sorted| - 1;
      if SortKey(sorted[n], c) <= SortKey(e, c) {
        assert (sorted + [e])[..n + 1] == sorted;
      } else {
        InsertEventStable(sorted[..n], e, c, key);
        var front := InsertEvent(sorted[..n], e, c);
        assert (front + [sorted[n]])[..|front|] == front;
      }
    }
  }

  /** Events that start together stay in the order the model gave them. */
  lemma {:induction false} SortEventsStable(events: seq<ModelEvent>, c: Context, key: int)
    ensures WithKey(SortEvents(events, c), c, key) == WithKey(events, c, key)
  {
    hide SortKey, InsertEvent;
    if events != [] {
      var n := |events| - 1;
      SortEventsStable(events[..n], c, key);
      InsertEventStable(SortEvents(events[..n], c), events[n], c, key);
    }
  }

  function Flatten(groups: seq<Group>): seq<ModelEvent> {
    if groups == [] then [] else Flatten(groups[..|groups| - 1]) + groups[|groups| - 1].events
  }

  function StartOf(e: ModelEvent, c: Context): int { OrElse(Clamp(e.startedAt, c), 0) }
  function EndOf(e: ModelEvent, c: Context): int { OrElse(Clamp(e.endedAt, c), 0) }

  /** A group spans from its first event's start to its latest end. */
  ghost predicate GroupOk(g: Group, c: Context) {
    && g.events != [] && (forall i | 0 <= i < |g.events| :: Timed(g.events[i]))
    && g.latestEnd.Some?
    && (forall i | 0 <= i < |g.events| ::
          StartOf(g.events[0], c) <= StartOf(g.events[i], c) && EndOf(g.events[i], c) <= g.latestEnd.value)
    && MinStart(g.events, c) == Some(StartOf(g.events[0], c)) && MaxEnd(g.events, c) == g.latestEnd
    && StartOf(g.events[0], c) <= g.latestEnd.value
  }

  ghost predicate GroupsOk(groups: seq<Group>, c: Context) {
    && (forall i | 0 <= i < |groups| :: GroupOk(groups[i], c))
    && (forall i, j | 0 <= i < j < |groups| :: Before(groups[i], groups[j], c))
  }

  ghost predicate Before(g: Group, h: Group, c: Context) {
    h.events != [] && g.latestEnd.Some? && g.latestEnd.value <= StartOf(h.events[0], c)
  }

  lemma TimedClamps(e: ModelEvent, c: Context)
    requires Timed(e)
    ensures StartOf(e, c) <= EndOf(e, c)
    ensures RangeStart(e, c) == Some(StartOf(e, c)) && RangeEnd(e, c) == Some(EndOf(e, c))
    ensures SortKey(e, c) == StartOf(e, c)
    ensures Clamp(e.startedAt, c) == Some(StartOf(e, c)) && Clamp(e.endedAt, c) == Some(EndOf(e, c))
  {
  }

  lemma SingleGroup(e: ModelEvent, c: Context)
    requires Timed(e)
    ensures GroupOk(Group([e], RangeEnd(e, c)), c)
  {
    hide Clamp, StartOf, EndOf, RangeStart, SortKey;
    TimedClamps(e, c);
    var es := [e];
    assert es[..0] == [];
    assert MinStart([], c) == None && MaxEnd([], c) == None;
    assert MinStart(es, c) == Some(StartOf(e, c)) && MaxEnd(es, c) == Some(EndOf(e, c));
  }

  lemma JoinedGroup(g: Group, e: ModelEvent, c: Context)
    requires GroupOk(g, c) && Timed(e) && StartOf(g.events[0], c) <= StartOf(e, c)
    ensures GroupOk(Join(g, e, c), c) && Join(g, e, c).events[0] == g.events[0]
  {
    TimedClamps(e, c);
    hide Clamp, StartOf, EndOf, RangeStart, SortKey;
    var h := Join(g, e, c);
    assert h.events[..|g.events|] == g.events;
    forall i | 0 <= i < |h.events|
      ensures Timed(h.events[i]) && StartOf(h.events[0], c) <= StartOf(h.events[i], c)
              && EndOf(h.events[i], c) <= h.latestEnd.value
    {
      if i < |g.events| { assert h.events[i] == g.events[i]; }
    }
  }

  lemma PlaceKeeps(groups: seq<Group>, e: ModelEvent, c: Context)
    requires GroupsOk(groups, c) && Timed(e)
    requires groups != [] ==> StartOf(groups[|groups| - 1].events[0], c) <= StartOf(e, c)
    ensures GroupsOk(Place(groups, e, c), c)
  {
    hide Clamp, StartOf, EndOf, SortKey, RangeEnd;
    var placed, n := Place(groups, e, c), |groups| - 1;
    TimedClamps(e, c);
    SingleGroup(e, c);
    if groups != [] && Joins(groups[n], e, c) {
      JoinedGroup(groups[n], e, c);
      hide Join, Joins;
      assert forall i | 0 <= i < n :: placed[i] == groups[i];
      hide GroupOk;
    } else {
      assert forall i | 0 <= i < |groups| :: placed[i] == groups[i];
      if groups != [] {
        NotJoined(groups[n], e, c);
        forall i | 0 <= i < |groups| ensures Before(groups[i], placed[|groups|], c) {
          if i < n { assert Before(groups[i], groups[n], c) && GroupOk(groups[n], c); }
        }
      }
      hide GroupOk;
    }
  }

  lemma NotJoined(g: Group, e: ModelEvent, c: Context)
    requires GroupOk(g, c) && Timed(e) && !Joins(g, e, c)
    ensures Before(g, Group([e], RangeEnd(e, c)), c)
  {
    hide Clamp, StartOf, EndOf, SortKey, MinStart, MaxEnd;
    TimedClamps(e, c);
  }

  lemma PlaceFlattens(groups: seq<Group>, e: ModelEvent, c: Context)
    ensures Flatten(Place(groups, e, c)) == Flatten(groups) + [e]
  {
    hide Joins;
    var placed, n := Place(groups, e, c), |groups| - 1;
    if groups != [] && Joins(groups[n], e, c) {
      assert placed[..n] == groups[..n];
      assert Flatten(placed) == Flatten(groups[..n]) + (groups[n].events + [e]);
    } else {
      assert placed[..|groups|] == groups;
    }
  }

  lemma {:induction false} LastGroupStart(ordered: seq<ModelEvent>, c: Context)
    requires ordered != []
    ensures Grouped(ordered, c) != []
    ensures var g := Grouped(ordered, c)[|Grouped(ordered, c)| - 1]; g.events != [] && g.events[0] in ordered
  {
    var n := |ordered| - 1;
    if n > 0 {
      LastGroupStart(ordered[..n], c);
      assert ordered == ordered[..n] + [ordered[n]];
    }
    hide Joins;
  }

  lemma {:induction false} GroupedOk(ordered: seq<ModelEvent>, c: Context)
    requires AllTimed(ordered) && KeysAscend(ordered, c)
    ensures GroupsOk(Grouped(ordered, c), c) && Flatten(Grouped(ordered, c)) == ordered
  {
    hide GroupsOk, KeysAscend, AllTimed, Place, Flatten, StartOf, Timed;
    if ordered == [] {
      NoGroups(c);
    } else {
      var n := |ordered| - 1;
      var front := ordered[..n];
      FrontSorted(ordered, c);
      GroupedOk(front, c);
      if n > 0 { LastStartsBefore(ordered, c); }
      PlaceKeeps(Grouped(front, c), ordered[n], c);
      PlaceFlattens(Grouped(front, c), ordered[n], c);
      assert ordered == front + [ordered[n]];
    }
  }

  predicate AllTimed(events: seq<ModelEvent>) {
    forall i | 0 <= i < |events| :: Timed(events[i])
  }

  lemma FrontSorted(ordered: seq<ModelEvent>, c: Context)
    requires AllTimed(ordered) && KeysAscend(ordered, c) && ordered != []
    ensures AllTimed(ordered[..|ordered| - 1]) && KeysAscend(ordered[..|ordered| - 1], c)
    ensures Timed(ordered[|ordered| - 1])
  {
    hide SortKey, Timed;
  }

  lemma NoGroups(c: Context)
    ensures GroupsOk([], c) && Flatten([]) == []
  {
  }

  lemma LastStartsBefore(ordered: seq<ModelEvent>, c: Context)
    requires |ordered| > 1 && AllTimed(ordered) && KeysAscend(ordered, c)
    ensures var groups := Grouped(ordered[..|ordered| - 1], c);
            && groups != [] && groups[|groups| - 1].events != []
            && StartOf(groups[|groups| - 1].events[0], c) <= StartOf(ordered[|ordered| - 1], c)
  {
    hide Grouped, StartOf, SortKey;
    var n := |ordered| - 1;
    var front := ordered[..n];
    LastGroupStart(front, c);
    var first := Grouped(front, c)[|Grouped(front, c)| - 1].events[0];
    var k :| 0 <= k < n && front[k] == first;
    assert SortKey(ordered[k], c) <= SortKey(ordered[n], c);
    TimedClamps(first, c);
    TimedClamps(ordered[n], c);
  }

  /** The events whose slice is `i`, with the slice covering each of them. */
  ghost predicate Covers(out: seq<ModelEvent>, groups: seq<Group>, c: Context) {
    && |out| == |groups|
    && forall g, k | 0 <= g < |groups| && 0 <= k < |groups[g].events| ::
         Timed(out[g]) && out[g].startedAt.value <= StartOf(groups[g].events[k], c)
         && EndOf(groups[g].events[k], c) <= out[g].endedAt.value
  }

  /** Slices already fit the window, so normalisation leaves them as they are. */
  lemma {:induction false} FittedIdentity(events: seq<ModelEvent>, n: nat, c: Context)
    requires n <= |events| && Windowed(c) && OrderedSlices(events, c)
    ensures Fitted(events, n, c) == events[..n]
    decreases n
  {
    hide FitOne;
    if n > 0 {
      FittedIdentity(events, n - 1, c);
      assert events[..n] == events[..n - 1] + [events[n - 1]];
      var front := Fitted(events, n - 1, c);
      var previousEnd := if n == 1 then c.windowStart.value else front[n - 2].endedAt.value;
      if n > 1 { assert events[n - 2].endedAt.value <= events[n - 1].startedAt.value; }
      FitsAlready(events, n - 1, previousEnd, c);
    }
  }

  lemma FitsAlready(events: seq<ModelEvent>, i: nat, previousEnd: int, c: Context)
    requires i < |events| && Windowed(c) && Timed(events[i])
    requires c.windowStart.value <= events[i].startedAt.value && events[i].endedAt.value <= c.windowEnd.value
    requires previousEnd <= events[i].startedAt.value
    ensures FitOne(events, i, previousEnd, c) == events[i]
  {
    hide NextKnownStart;
  }

  lemma SliceOf(g: Group, c: Context)
    requires GroupOk(g, c)
    ensures var s := Slice(g.events, c);
            s.startedAt == Some(StartOf(g.events[0], c)) && s.endedAt == g.latestEnd && Timed(s)
  {
  }

  lemma SlicesOrdered(groups: seq<Group>, c: Context)
    requires GroupsOk(groups, c) && NonEmptyGroups(groups) && Windowed(c)
    ensures OrderedSlices(Slices(groups, c), c) && Covers(Slices(groups, c), groups, c)
  {
    var slices := Slices(groups, c);
    forall i | 0 <= i < |groups|
      ensures slices[i].startedAt == Some(StartOf(groups[i].events[0], c)) && slices[i].endedAt == groups[i].latestEnd
              && Timed(slices[i]) && c.windowStart.value <= slices[i].startedAt.value
              && slices[i].endedAt.value <= c.windowEnd.value
    {
      SliceOf(groups[i], c);
      MaxEndBound(groups[i].events, c);
    }
    forall i, j | 0 <= i < j < |groups| ensures slices[i].endedAt.value <= slices[j].startedAt.value {
      assert Before(groups[i], groups[j], c);
    }
    hide Slices, Slice, StartOf, EndOf, MinStart, MaxEnd;
  }

  lemma {:induction false} MaxEndBound(events: seq<ModelEvent>, c: Context)
    requires Windowed(c)
    ensures MaxEnd(events, c).Some? ==> c.windowStart.value <= MaxEnd(events, c).value <= c.windowEnd.value
  {
    if events != [] { MaxEndBound(events[..|events| - 1], c); }
  }

  /** The check the delivery service makes on each event of a response. */
  predicate InScope(e: ModelEvent, windowStart: int, windowEnd: int) {
    && (e.startedAt.Some? ==> windowStart <= e.startedAt.value <= windowEnd)
    && (e.endedAt.Some? ==> windowStart <= e.endedAt.value <= windowEnd)
    && (e.startedAt.Some? && e.endedAt.Some? ==> e.startedAt.value <= e.endedAt.value)
  }

  /** What the conversion emits: clamped times, rejected if they cross. */
  function WorkerEvent(e: ModelEvent, c: Context): Result<ModelEvent> {
    var start, end := Clamp(e.startedAt, c), Clamp(e.endedAt, c);
    if start.Some? && end.Some? && start.value > end.value then Err("invalid response")
    else Ok(e.(startedAt := start, endedAt := end))
  }

  /**
   Whenever resolution accepts a model's events, the slices of a window lie inside it in
   order without overlap, each resolved event is covered by the slice of its group, the
   groups hold exactly the resolved events, and neither the emission nor the later scope
   check can reject a slice.
   */
  lemma ConversionSound(events: seq<ModelEvent>, segments: seq<Segment>, c: Context)
    requires Windowed(c) && ResolveAll(events, segments).Ok?
    ensures var resolved := ResolveAll(events, segments).value;
            var groups := Grouped(SortEvents(resolved, c), c);
            var out := Normalized(Consolidated(resolved, c), c);
            && OrderedSlices(out, c)
            && Covers(out, groups, c)
            && multiset(Flatten(groups)) == multiset(resolved)
            && (forall i | 0 <= i < |out| ::
                  WorkerEvent(out[i], c) == Ok(out[i]) && InScope(out[i], c.windowStart.value, c.windowEnd.value))
  {
    hide ResolveAll, SortEvents, Grouped, Slices, Normalized, Consolidated, OrderedSlices, Covers, WorkerEvent, InScope;
    var resolved := ResolveAll(events, segments).value;
    ResolvedAreTimed(events, segments);
    SortEventsSorts(resolved, c);
    var ordered := SortEvents(resolved, c);
    SameEventsTimed(resolved, ordered);
    GroupedOk(ordered, c);
    GroupedNonEmpty(ordered, c);
    ConsolidatedIsSlices(resolved, c);
    SlicesOrdered(Grouped(ordered, c), c);
    var slices := Slices(Grouped(ordered, c), c);
    OrderedIsNormal(slices, c);
    forall i | 0 <= i < |slices|
      ensures WorkerEvent(slices[i], c) == Ok(slices[i]) && InScope(slices[i], c.windowStart.value, c.windowEnd.value)
    {
      SliceAccepted(slices, c, i);
    }
  }

  lemma SameEventsTimed(resolved: seq<ModelEvent>, ordered: seq<ModelEvent>)
    requires AllTimed(resolved) && multiset(ordered) == multiset(resolved)
    ensures AllTimed(ordered)
  {
    hide Timed;
    forall i | 0 <= i < |ordered| ensures Timed(ordered[i]) {
      assert ordered[i] in multiset(resolved);
      assert ordered[i] in resolved;
    }
  }

  lemma ConsolidatedIsSlices(events: seq<ModelEvent>, c: Context)
    requires NonEmptyGroups(Grouped(SortEvents(events, c), c))
    ensures Consolidated(events, c) == Slices(Grouped(SortEvents(events, c), c), c)
  {
    hide Grouped, SortEvents, Slice;
  }

  lemma OrderedIsNormal(slices: seq<ModelEvent>, c: Context)
    requires Windowed(c) && OrderedSlices(slices, c)
    ensures Normalized(slices, c) == slices
  {
    hide Fitted, OrderedSlices;
    FittedIdentity(slices, |slices|, c);
    assert slices[..|slices|] == slices;
  }

  lemma SliceAccepted(slices: seq<ModelEvent>, c: Context, i: nat)
    requires Windowed(c) && OrderedSlices(slices, c) && i < |slices|
    ensures WorkerEvent(slices[i], c) == Ok(slices[i]) && InScope(slices[i], c.windowStart.value, c.windowEnd.value)
  {
    assert Timed(slices[i]);
  }

  /** The selected event is the first of those that no other member of its group beats. */
  lemma {:induction false} MostSpecificWins(events: seq<ModelEvent>) returns (k: nat)
    requires events != []
    ensures k < |events| && MostSpecific(events) == events[k]
    ensures forall i | 0 <= i < |events| :: !Better(events[i], events[k])
    ensures forall i | 0 <= i < k :: Better(events[k], events[i])
  {
    var n := |events| - 1;
    k := 0;
    if n > 0 {
      var front := events[..n];
      k := MostSpecificWins(front);
      assert forall i | 0 <= i < n :: front[i] == events[i];
      if Better(events[n], front[k]) { k := n; }
    }
  }

  /** A slice keeps everything of the selected event but its times. */
  lemma SliceDescribes(events: seq<ModelEvent>, c: Context)
    requires events != []
    ensures var e, s := MostSpecific(events), Slice(events, c);
            s.activity == e.activity && s.specificity == e.specificity && s.confidence == e.confidence
            && s.segmentIds == e.segmentIds
  {
    hide MostSpecific, MinStart, MaxEnd;
  }

  ghost predicate Separate(groups: seq<Group>, c: Context) {
    forall i, j | 0 <= i < j < |groups| && j == i + 1 :: groups[j].events != []
        && !Joins(groups[i], groups[j].events[0], c)
  }

  /** Groups are maximal: no group could have taken the first event of the next one. */
  lemma {:induction false} GroupsSeparate(ordered: seq<ModelEvent>, c: Context)
    ensures Separate(Grouped(ordered, c), c) && NonEmptyGroups(Grouped(ordered, c))
  {
    hide Place, Separate, NonEmptyGroups;
    if ordered == [] {
      NoneSeparate(c);
    } else {
      var n := |ordered| - 1;
      GroupsSeparate(ordered[..n], c);
      PlaceNonEmpty(Grouped(ordered[..n], c), ordered[n], c);
      PlaceSeparate(Grouped(ordered[..n], c), ordered[n], c);
    }
  }

  lemma NoneSeparate(c: Context)
    ensures Separate([], c) && NonEmptyGroups([])
  {
  }

  lemma PlaceSeparate(groups: seq<Group>, e: ModelEvent, c: Context)
    requires Separate(groups, c) && NonEmptyGroups(groups)
    ensures Separate(Place(groups, e, c), c)
  {
    hide Joins, RangeEnd;
    var placed, n := Place(groups, e, c), |groups| - 1;
    assert forall i | 0 <= i < n :: placed[i] == groups[i];
    if groups != [] && Joins(groups[n], e, c) {
      assert placed[n].events[0] == groups[n].events[0];
    }
  }
}
