/** What the conversion of a model's events yields, said of the events and the window themselves. */
module SliceMeaning {
  import opened Wrappers
  import opened SignalSegments
  import opened TimeSlices

  // ------------------------------------------------------------------ resolution

  /** The times of an event are those it gives, or those of the segments it names, and lie within these. */
  ghost predicate Resolves(e: ModelEvent, segments: seq<Segment>, lo: nat, hi: nat, r: ModelEvent) {
    && Names(e.segmentIds, lo, hi) && hi < |segments|
    && (forall x: nat :: x in r.segmentIds <==> lo <= x <= hi)
    && (forall i, j | 0 <= i < j < |r.segmentIds| :: r.segmentIds[i] != r.segmentIds[j])
    && r.startedAt == (if e.startedAt.Some? then e.startedAt else Some(segments[lo].startedAt))
    && r.endedAt == (if e.endedAt.Some? then e.endedAt else Some(segments[hi].endedAt))
    && segments[lo].startedAt <= r.startedAt.value <= r.endedAt.value <= segments[hi].endedAt
    && (r.activity, r.specificity, r.confidence) == (e.activity, e.specificity, e.confidence)
  }

  /** Sorted without repetition, only a run of tokens is consecutive. */
  lemma SortedInterval(ids: seq<nat>)
    requires var ordered := SortIds(Dedupe(ids)); Consecutive(ordered) && ordered != []
    ensures var ordered := SortIds(Dedupe(ids)); Names(ids, ordered[0], ordered[|ordered| - 1])
  {
    hide Dedupe, SortIds;
    var unique := Dedupe(ids);
    var ordered := SortIds(unique);
    DedupeKeeps(ids);
    SortIdsSorts(unique);
    SameMembers(ordered, unique);
    forall x: nat ensures x in ordered <==> ordered[0] <= x <= ordered[|ordered| - 1] {
      CountsUp(ordered, x);
    }
  }

  lemma CountsUp(ordered: seq<nat>, x: nat)
    requires Consecutive(ordered) && ordered != []
    ensures x in ordered <==> ordered[0] <= x <= ordered[|ordered| - 1]
  {
    var n := |ordered| - 1;
    Steps(ordered, n);
    if x in ordered {
      var k :| 0 <= k < |ordered| && ordered[k] == x;
      Steps(ordered, k);
    }
    if ordered[0] <= x <= ordered[n] {
      Steps(ordered, x - ordered[0]);
      assert ordered[x - ordered[0]] == x;
    }
  }

  lemma {:induction false} Steps(ordered: seq<nat>, k: nat)
    requires Consecutive(ordered) && k < |ordered|
    ensures ordered[k] == ordered[0] + k
  {
    if k > 0 { Steps(ordered, k - 1); }
  }

  /** An event is accepted exactly if it names a run of free segments that its times lie in. */
  lemma ResolveExact(e: ModelEvent, segments: seq<Segment>, claimed: set<nat>)
    ensures var r := ResolveEvent(e, segments, claimed);
            && (r.Ok? ==> (exists lo, hi :: Resolves(e, segments, lo, hi, r.value)) && Unclaimed(e.segmentIds, claimed))
            && (r.Err? ==> !Unclaimed(e.segmentIds, claimed) || !exists lo, hi, v :: Resolves(e, segments, lo, hi, v))
  {
    hide Dedupe, SortIds, Consecutive;
    var unique := Dedupe(e.segmentIds);
    var ordered := SortIds(unique);
    DedupeKeeps(e.segmentIds);
    var r := ResolveEvent(e, segments, claimed);
    if r.Ok? {
      SortedInterval(e.segmentIds);
      assert Resolves(e, segments, ordered[0], ordered[|ordered| - 1], r.value);
    } else if Unclaimed(e.segmentIds, claimed) {
      forall lo, hi, v ensures !Resolves(e, segments, lo, hi, v) {
        if Resolves(e, segments, lo, hi, v) {
          IntervalSorted(e.segmentIds, lo, hi);
          assert false;
        }
      }
    }
  }

  /** All events are accepted exactly if each resolves against the tokens of those before it. */
  lemma {:induction false} ResolveAllExact(events: seq<ModelEvent>, segments: seq<Segment>)
    ensures ResolveAll(events, segments).Ok? <==>
            forall k | 0 <= k < |events| :: ResolveEvent(events[k], segments, Claimed(events[..k])).Ok?
    ensures var r := ResolveAll(events, segments);
            r.Ok? ==> |r.value| == |events|
                      && forall k | 0 <= k < |events| ::
                           ResolveEvent(events[k], segments, Claimed(events[..k])) == Ok(r.value[k])
  {
    hide ResolveEvent, Claimed;
    if events != [] {
      var n := |events| - 1;
      var front := events[..n];
      ResolveAllExact(front, segments);
      assert forall k | 0 <= k < n :: front[k] == events[k] && front[..k] == events[..k];
    }
  }

  // ---------------------------------------------------------------------- window

  /** The instant of the window nearest to a time. */
  function Inside(t: int, c: Context): int
    requires Windowed(c)
  {
    if t < c.windowStart.value then c.windowStart.value else if t > c.windowEnd.value then c.windowEnd.value else t
  }

  lemma ClampMeans(e: ModelEvent, c: Context)
    requires Windowed(c) && Timed(e)
    ensures StartOf(e, c) == Inside(e.startedAt.value, c) && EndOf(e, c) == Inside(e.endedAt.value, c)
  {
  }

  // -------------------------------------------------------------------- grouping

  /** The latest end of some events, inside the window. */
  ghost predicate LatestEnd(events: seq<ModelEvent>, c: Context, end: int)
    requires Windowed(c) && AllTimed(events)
  {
    && (forall i | 0 <= i < |events| :: Inside(events[i].endedAt.value, c) <= end)
    && (exists i | 0 <= i < |events| :: Inside(events[i].endedAt.value, c) == end)
  }

  /** One activity that goes on: the same one, or development and research in turn. */
  predicate GoesOn(a: ActivityKind, b: ActivityKind) {
    if a in {SystemFileOps, IdleTransition, OtherUnknown} then false
    else if a in {Development, Research} then b in {Development, Research} else a == b
  }

  lemma GoesOnMeans(a: ActivityKind, b: ActivityKind)
    ensures SameContinuousActivity(a, b) <==> GoesOn(a, b)
  {
  }

  /** An event belongs to those before it if it begins before they end, or within 30 s as the same activity. */
  ghost predicate Belongs(group: seq<ModelEvent>, e: ModelEvent, c: Context)
    requires Windowed(c) && AllTimed(group) && Timed(e)
  {
    group != [] && forall end | LatestEnd(group, c, end) ::
      var gap := Inside(e.startedAt.value, c) - end;
      gap < 0 || (gap <= 30 * 1000 && GoesOn(group[|group| - 1].activity, e.activity))
  }

  lemma LatestIs(g: Group, c: Context)
    requires Windowed(c) && GroupOk(g, c) && AllTimed(g.events)
    ensures LatestEnd(g.events, c, g.latestEnd.value)
  {
    forall i | 0 <= i < |g.events| ensures Inside(g.events[i].endedAt.value, c) == EndOf(g.events[i], c) {
      ClampMeans(g.events[i], c);
    }
    hide Inside, EndOf, StartOf, MinStart;
    MaxEndAttained(g.events, c);
  }

  lemma {:induction false} MaxEndAttained(events: seq<ModelEvent>, c: Context)
    requires events != [] && AllTimed(events)
    ensures MaxEnd(events, c).Some? && exists i | 0 <= i < |events| :: EndOf(events[i], c) == MaxEnd(events, c).value
  {
    hide StartOf;
    var n := |events| - 1;
    assert EndOf(events[n], c) == Clamp(events[n].endedAt, c).value;
    if n > 0 {
      var front := events[..n];
      MaxEndAttained(front, c);
      var i :| 0 <= i < |front| && EndOf(front[i], c) == MaxEnd(front, c).value;
      assert EndOf(events[i], c) == MaxEnd(front, c).value;
    }
  }

  lemma JoinsMeans(g: Group, e: ModelEvent, c: Context)
    requires Windowed(c) && GroupOk(g, c) && AllTimed(g.events) && Timed(e)
    ensures Joins(g, e, c) <==> Belongs(g.events, e, c)
  {
    TimedClamps(e, c);
    ClampMeans(e, c);
    LatestIs(g, c);
    hide LatestEnd, StartOf, EndOf, Inside, MinStart, MaxEnd;
    GoesOnMeans(g.events[|g.events| - 1].activity, e.activity);
    forall end | LatestEnd(g.events, c, end) ensures end == g.latestEnd.value {
      OneLatest(g.events, c, end, g.latestEnd.value);
    }
  }

  lemma OneLatest(events: seq<ModelEvent>, c: Context, a: int, b: int)
    requires Windowed(c) && AllTimed(events) && LatestEnd(events, c, a) && LatestEnd(events, c, b)
    ensures a == b
  {
    hide Inside;
  }

  /** Every event of a group belongs to those before it. */
  ghost predicate Grown(group: seq<ModelEvent>, c: Context)
    requires Windowed(c)
  {
    group != [] && AllTimed(group) && forall k | 0 < k < |group| :: Belongs(group[..k], group[k], c)
  }

  ghost predicate AllGrown(groups: seq<Group>, c: Context)
    requires Windowed(c)
  {
    forall g | 0 <= g < |groups| :: Grown(groups[g].events, c)
  }

  lemma GrowByOne(group: seq<ModelEvent>, e: ModelEvent, c: Context)
    requires Windowed(c) && Grown(group, c) && Timed(e) && Belongs(group, e, c)
    ensures Grown(group + [e], c)
  {
    hide Belongs, Timed;
    var more := group + [e];
    forall k | 0 < k < |more| ensures Belongs(more[..k], more[k], c) {
      if k < |group| { assert more[..k] == group[..k]; } else { assert more[..k] == group; }
    }
  }

  lemma PlaceGrows(groups: seq<Group>, e: ModelEvent, c: Context)
    requires Windowed(c) && GroupsOk(groups, c) && AllGrown(groups, c) && Timed(e)
    ensures AllGrown(Place(groups, e, c), c)
  {
    var placed, n := Place(groups, e, c), |groups| - 1;
    if groups != [] && Joins(groups[n], e, c) {
      assert Grown(groups[n].events, c);
      JoinsMeans(groups[n], e, c);
      GrowByOne(groups[n].events, e, c);
      hide Joins, Grown, RangeEnd;
      assert forall g | 0 <= g < n :: placed[g] == groups[g];
    } else {
      hide Joins, RangeEnd, Belongs;
      assert Grown([e], c);
      assert forall g | 0 <= g < |groups| :: placed[g] == groups[g];
    }
  }

  lemma {:induction false} GroupedGrown(ordered: seq<ModelEvent>, c: Context)
    requires Windowed(c) && AllTimed(ordered) && KeysAscend(ordered, c)
    ensures AllGrown(Grouped(ordered, c), c)
  {
    hide Place, KeysAscend, GroupsOk, Timed, Grown;
    if ordered != [] {
      var front := ordered[..|ordered| - 1];
      FrontSorted(ordered, c);
      GroupedGrown(front, c);
      GroupedOk(front, c);
      PlaceGrows(Grouped(front, c), ordered[|ordered| - 1], c);
    }
  }

  // ---------------------------------------------------------------------- slices

  /** The event that describes a group: none is more specific, and of equals none is surer or comes before it. */
  ghost predicate Describes(group: seq<ModelEvent>, k: nat) {
    && k < |group|
    && (forall i | 0 <= i < |group| :: group[i].specificity <= group[k].specificity)
    && (forall i | 0 <= i < |group| && group[i].specificity == group[k].specificity ::
          group[i].confidence < group[k].confidence || (group[i].confidence == group[k].confidence && k <= i))
  }

  /** A slice runs from the first start to the latest end of its group, as the event that describes it. */
  ghost predicate Sums(slice: ModelEvent, group: seq<ModelEvent>, c: Context)
    requires Windowed(c) && group != [] && AllTimed(group)
  {
    && slice.startedAt == Some(Inside(group[0].startedAt.value, c))
    && slice.endedAt.Some? && LatestEnd(group, c, slice.endedAt.value)
    && exists k: nat :: Describes(group, k)
                        && slice == group[k].(startedAt := slice.startedAt, endedAt := slice.endedAt)
  }

  lemma SliceSums(g: Group, c: Context)
    requires Windowed(c) && GroupOk(g, c) && AllTimed(g.events)
    ensures Sums(Slice(g.events, c), g.events, c)
  {
    SliceOf(g, c);
    LatestIs(g, c);
    ClampMeans(g.events[0], c);
    var k := MostSpecificWins(g.events);
    hide MostSpecific, MinStart, MaxEnd, LatestEnd, StartOf, EndOf, Inside, GroupOk;
    assert Describes(g.events, k);
  }

  function Concat(parts: seq<seq<ModelEvent>>): seq<ModelEvent> {
    if parts == [] then [] else Concat(parts[..|parts| - 1]) + parts[|parts| - 1]
  }

  function Parts(groups: seq<Group>): (parts: seq<seq<ModelEvent>>)
    ensures |parts| == |groups| && forall g | 0 <= g < |groups| :: parts[g] == groups[g].events
  {
    seq(|groups|, g requires 0 <= g < |groups| => groups[g].events)
  }

  lemma {:induction false} ConcatParts(groups: seq<Group>)
    ensures Concat(Parts(groups)) == Flatten(groups)
  {
    if groups != [] {
      var n := |groups| - 1;
      assert Parts(groups)[..n] == Parts(groups[..n]);
      ConcatParts(groups[..n]);
    }
  }

  predicate StartsAscend(events: seq<ModelEvent>, c: Context)
    requires Windowed(c) && AllTimed(events)
  {
    forall i, j | 0 <= i < j < |events| :: Inside(events[i].startedAt.value, c) <= Inside(events[j].startedAt.value, c)
  }

  /** The events in order of their starts, cut where one does not belong to those before it; one slice for each part. */
  ghost predicate SlicedInto(events: seq<ModelEvent>, parts: seq<seq<ModelEvent>>, out: seq<ModelEvent>, c: Context)
    requires Windowed(c)
  {
    && |out| == |parts| && multiset(Concat(parts)) == multiset(events)
    && AllTimed(Concat(parts)) && StartsAscend(Concat(parts), c)
    && (forall g | 0 <= g < |parts| :: Grown(parts[g], c) && Sums(out[g], parts[g], c))
    && (forall g, h | 0 <= g < h < |parts| && h == g + 1 :: !Belongs(parts[g], parts[h][0], c))
  }

  /** What the conversion makes of the events it accepts. */
  lemma ConversionMeans(events: seq<ModelEvent>, segments: seq<Segment>, c: Context)
    returns (parts: seq<seq<ModelEvent>>)
    requires Windowed(c) && ResolveAll(events, segments).Ok?
    ensures var resolved := ResolveAll(events, segments).value;
            SlicedInto(resolved, parts, Normalized(Consolidated(resolved, c), c), c)
  {
    hide ResolveAll, SortEvents, Grouped, Slices, Normalized, Consolidated, OrderedSlices, Covers, WorkerEvent, InScope;
    var resolved := ResolveAll(events, segments).value;
    ResolvedAreTimed(events, segments);
    SortEventsSorts(resolved, c);
    var ordered := SortEvents(resolved, c);
    SameEventsTimed(resolved, ordered);
    GroupedOk(ordered, c);
    GroupedGrown(ordered, c);
    GroupsSeparate(ordered, c);
    GroupedNonEmpty(ordered, c);
    var groups := Grouped(ordered, c);
    ConsolidatedIsSlices(resolved, c);
    SlicesOrdered(groups, c);
    OrderedIsNormal(Slices(groups, c), c);
    parts := Parts(groups);
    ConcatParts(groups);
    OrderedStarts(ordered, c);
    PartsMean(groups, c);
  }

  lemma OrderedStarts(ordered: seq<ModelEvent>, c: Context)
    requires Windowed(c) && AllTimed(ordered) && KeysAscend(ordered, c)
    ensures StartsAscend(ordered, c)
  {
    forall i | 0 <= i < |ordered| ensures SortKey(ordered[i], c) == Inside(ordered[i].startedAt.value, c) {
      TimedClamps(ordered[i], c);
      ClampMeans(ordered[i], c);
    }
    hide SortKey, Inside, Timed;
  }

  lemma PartsMean(groups: seq<Group>, c: Context)
    requires Windowed(c) && GroupsOk(groups, c) && AllGrown(groups, c) && Separate(groups, c) && NonEmptyGroups(groups)
    ensures var parts, out := Parts(groups), Slices(groups, c);
            && |out| == |parts|
            && (forall g | 0 <= g < |parts| :: Grown(parts[g], c) && Sums(out[g], parts[g], c))
            && (forall g, h | 0 <= g < h < |parts| && h == g + 1 :: !Belongs(parts[g], parts[h][0], c))
  {
    hide Slice, Joins, Belongs, GroupOk, Sums, LatestEnd;
    var parts, out := Parts(groups), Slices(groups, c);
    forall g | 0 <= g < |parts| ensures Grown(parts[g], c) && Sums(out[g], parts[g], c) {
      assert Grown(groups[g].events, c);
      SliceSums(groups[g], c);
    }
    forall g, h | 0 <= g < h < |parts| && h == g + 1 ensures !Belongs(parts[g], parts[h][0], c) {
      assert Grown(groups[g].events, c) && Grown(groups[h].events, c);
      JoinsMeans(groups[g], groups[h].events[0], c);
    }
  }

  // --------------------------------------------------------------- missing times

  /** The first start that is known after some event. */
  ghost predicate NextStart(events: seq<ModelEvent>, n: nat, c: Context, t: int)
    requires Windowed(c)
  {
    exists j | n < j < |events| ::
      && events[j].startedAt.Some? && t == Inside(events[j].startedAt.value, c)
      && forall i | n < i < j :: events[i].startedAt.None?
  }

  lemma {:induction false} NextStartMeans(events: seq<ModelEvent>, n: nat, c: Context)
    requires Windowed(c) && n < |events|
    ensures var next := NextKnownStart(events, n + 1, c);
            forall t :: NextStart(events, n, c, t) <==> next == Some(t)
    decreases |events| - n
  {
    hide Inside;
    if n + 1 < |events| {
      if events[n + 1].startedAt.Some? {
        ClampInside(events[n + 1].startedAt.value, c);
      } else {
        NextStartMeans(events, n + 1, c);
        forall t ensures NextStart(events, n, c, t) <==> NextStart(events, n + 1, c, t) {
          if NextStart(events, n + 1, c, t) {
            var j :| n + 1 < j < |events| && events[j].startedAt.Some? && t == Inside(events[j].startedAt.value, c)
                     && forall i | n + 1 < i < j :: events[i].startedAt.None?;
            assert forall i | n < i < j :: events[i].startedAt.None?;
          }
        }
      }
    }
  }

  lemma ClampInside(t: int, c: Context)
    requires Windowed(c)
    ensures Clamp(Some(t), c) == Some(Inside(t, c)) && Clamp(None, c) == None
  {
  }

  /**
   An event without a start begins where the last one ended. One without an end lasts until the next known
   start, unless that is too early, and then until the window ends. None begins before the last one ended.
   */
  ghost predicate Filled(events: seq<ModelEvent>, n: nat, before: int, c: Context, r: ModelEvent)
    requires Windowed(c) && n < |events|
  {
    var e := events[n];
    && r.startedAt.Some? && r.endedAt.Some?
    && var start, end := r.startedAt.value, r.endedAt.value;
       && r == e.(startedAt := Some(start), endedAt := Some(end))
       && (e.startedAt.None? ==> start == before)
       && (e.startedAt.Some? ==> start == High(before, Inside(e.startedAt.value, c)))
       && (e.endedAt.Some? ==> end == High(start, Inside(e.endedAt.value, c)))
       && (e.endedAt.None? ==>
             || (NextStart(events, n, c, end) && end >= start)
             || (end == High(start, c.windowEnd.value) && forall t | NextStart(events, n, c, t) :: t < start))
  }

  lemma FitOneMeans(events: seq<ModelEvent>, n: nat, before: int, c: Context)
    requires Windowed(c) && n < |events|
    ensures Filled(events, n, before, c, FitOne(events, n, before, c))
  {
    hide NextKnownStart, NextStart, Inside, Clamp;
    NextStartMeans(events, n, c);
    ClampInside(OrElse(events[n].startedAt, 0), c);
    ClampInside(OrElse(events[n].endedAt, 0), c);
  }

  lemma FilledMeans(events: seq<ModelEvent>, n: nat, c: Context)
    requires Windowed(c) && n < |events|
    ensures var r := Fitted(events, |events|, c);
            Filled(events, n, if n == 0 then c.windowStart.value else r[n - 1].endedAt.value, c, r[n])
  {
    hide Filled, FitOne;
    FittedPrefix(events, n + 1, |events|, c);
    FittedPrefix(events, n, n + 1, c);
    var r, upto := Fitted(events, |events|, c), Fitted(events, n + 1, c);
    assert r[n] == r[..n + 1][n] == upto[n];
    assert n > 0 ==> r[n - 1] == r[..n + 1][n - 1] == upto[..n][n - 1];
    FitOneMeans(events, n, if n == 0 then c.windowStart.value else upto[..n][n - 1].endedAt.value, c);
  }

  lemma {:induction false} FittedPrefix(events: seq<ModelEvent>, m: nat, n: nat, c: Context)
    requires Windowed(c) && m <= n <= |events|
    ensures Fitted(events, n, c)[..m] == Fitted(events, m, c)
    decreases n
  {
    hide FitOne;
    if m < n { FittedPrefix(events, m, n - 1, c); }
  }
}
