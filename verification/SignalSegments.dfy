/**
 The signal index of an activity window: one pass over time-sorted observations cuts them
 into segments that carry the families, counts and times the model is shown.
 */
module SignalSegments {
  import opened Wrappers

  /** The eleven activity families are numbered, `other` last; the two helper families steer the cut. */
  datatype Family = Activity(kind: nat) | Auxiliary | Boundary

  datatype Observation = Observation(timestamp: nat, family: Family)

  /** `members` are the positions of the observations added to the segment, in order. */
  datatype Segment = Segment(kind: nat, startedAt: nat, endedAt: nat, members: seq<nat>)

  const OTHER := 10

  predicate TimeSorted(obs: seq<Observation>) {
    forall i, j | 0 <= i < j < |obs| :: obs[i].timestamp <= obs[j].timestamp
  }

  function Min(a: nat, b: nat): nat { if a <= b then a else b }
  function Max(a: nat, b: nat): nat { if a >= b then a else b }

  function AddSignal(segment: Segment, obs: seq<Observation>, i: nat): Segment
    requires i < |obs|
  {
    segment.(startedAt := Min(segment.startedAt, obs[i].timestamp),
             endedAt := Max(segment.endedAt, obs[i].timestamp),
             members := segment.members + [i])
  }

  // ------------------------------------------------------------ what is promised

  predicate Within(ms: seq<nat>, n: nat) {
    forall k | 0 <= k < |ms| :: ms[k] < n
  }

  function Earliest(obs: seq<Observation>, ms: seq<nat>): nat
    requires ms != [] && Within(ms, |obs|)
  {
    var last := obs[ms[|ms| - 1]].timestamp;
    if |ms| == 1 then last else Min(Earliest(obs, ms[..|ms| - 1]), last)
  }

  function Latest(obs: seq<Observation>, ms: seq<nat>): nat
    requires ms != [] && Within(ms, |obs|)
  {
    var last := obs[ms[|ms| - 1]].timestamp;
    if |ms| == 1 then last else Max(Latest(obs, ms[..|ms| - 1]), last)
  }

  /** The segment spans exactly the times of its members, which come before position `n`. */
  predicate Spans(obs: seq<Observation>, n: nat, s: Segment)
    requires n <= |obs|
  {
    s.members != [] && Within(s.members, n)
    && s.startedAt == Earliest(obs, s.members) && s.endedAt == Latest(obs, s.members)
  }

  /** Starts and ends never move back, and neighbours differ in family. */
  predicate Chain(segments: seq<Segment>) {
    && (forall i | 0 <= i < |segments| :: segments[i].startedAt <= segments[i].endedAt)
    && (forall i, j | 0 <= i < j < |segments| ::
          segments[i].startedAt <= segments[j].startedAt && segments[i].endedAt <= segments[j].endedAt)
    && (forall i | 0 < i < |segments| :: segments[i - 1].kind != segments[i].kind)
  }

  /** The observations counted over all segments. */
  function Counted(segments: seq<Segment>): multiset<nat> {
    if segments == [] then multiset{}
    else Counted(segments[..|segments| - 1]) + multiset(segments[|segments| - 1].members)
  }

  /** Before position `n`, boundaries are counted at most once and all others exactly once. */
  ghost predicate CountsOnce(obs: seq<Observation>, n: nat, counted: multiset<nat>)
    requires n <= |obs|
  {
    && (forall m: nat :: counted[m] <= 1 && (m >= n ==> counted[m] == 0))
    && (forall m: nat | m < n && obs[m].family != Boundary :: counted[m] == 1)
  }

  ghost predicate SegmentsOk(obs: seq<Observation>, n: nat, segments: seq<Segment>)
    requires n <= |obs|
  {
    Chain(segments) && forall i | 0 <= i < |segments| :: Spans(obs, n, segments[i])
  }

  // ---------------------------------------------------------- where bands are cut

  /** The position of the first activity observation, which gives a band its family. */
  function Opening(obs: seq<Observation>, ms: seq<nat>): (o: Option<nat>)
    requires Within(ms, |obs|)
    ensures o.Some? ==> o.value < |obs| && obs[o.value].family.Activity?
  {
    if ms == [] then None
    else if obs[ms[0]].family.Activity? then Some(ms[0])
    else Opening(obs, ms[1..])
  }

  predicate NoBoundary(obs: seq<Observation>, after: nat, before: nat) {
    forall q | after < q < before && q < |obs| :: obs[q].family != Boundary
  }

  /** A band takes another family's observation only while no boundary has come since it opened. */
  predicate BandOk(obs: seq<Observation>, s: Segment) {
    && Within(s.members, |obs|) && Opening(obs, s.members).Some?
    && obs[Opening(obs, s.members).value].family == Activity(s.kind)
    && forall k | 0 <= k < |s.members| ::
         obs[s.members[k]].family.Activity? ==>
         || obs[s.members[k]].family.kind == s.kind
         || NoBoundary(obs, Opening(obs, s.members).value, s.members[k])
  }

  /** Every band but the first starts with the latest boundary before the observation that opens it. */
  predicate StartsAtBoundary(obs: seq<Observation>, s: Segment)
    requires Within(s.members, |obs|)
  {
    && |s.members| >= 2 && obs[s.members[0]].family == Boundary && obs[s.members[1]].family.Activity?
    && s.members[0] < s.members[1] && NoBoundary(obs, s.members[0], s.members[1])
  }

  ghost predicate CutsOk(obs: seq<Observation>, segments: seq<Segment>) {
    && (forall i | 0 <= i < |segments| :: BandOk(obs, segments[i]))
    && (forall i | 0 < i < |segments| :: StartsAtBoundary(obs, segments[i]))
  }

  /** Without any activity observation there is one segment of the family `other`. */
  ghost predicate Fallback(obs: seq<Observation>, segments: seq<Segment>) {
    && (forall i | 0 <= i < |obs| :: !obs[i].family.Activity?)
    && |segments| <= 1 && forall i | 0 <= i < |segments| :: segments[i].kind == OTHER
  }

  /** In plain words: every member lies in the span, and both ends are attained. */
  lemma {:induction false} SpanMeaning(obs: seq<Observation>, ms: seq<nat>)
    requires ms != [] && Within(ms, |obs|)
    ensures forall k | 0 <= k < |ms| :: Earliest(obs, ms) <= obs[ms[k]].timestamp <= Latest(obs, ms)
    ensures exists k | 0 <= k < |ms| :: obs[ms[k]].timestamp == Earliest(obs, ms)
    ensures exists k | 0 <= k < |ms| :: obs[ms[k]].timestamp == Latest(obs, ms)
  {
    var n := |ms| - 1;
    if n == 0 {
      assert obs[ms[0]].timestamp == Earliest(obs, ms) == Latest(obs, ms);
    } else {
      var front := ms[..n];
      SpanMeaning(obs, front);
      var a :| 0 <= a < |front| && obs[front[a]].timestamp == Earliest(obs, front);
      var b :| 0 <= b < |front| && obs[front[b]].timestamp == Latest(obs, front);
      assert forall k | 0 <= k < n :: ms[k] == front[k];
      var x := if Earliest(obs, front) <= obs[ms[n]].timestamp then a else n;
      var y := if Latest(obs, front) >= obs[ms[n]].timestamp then b else n;
      assert obs[ms[x]].timestamp == Earliest(obs, ms);
      assert obs[ms[y]].timestamp == Latest(obs, ms);
    }
  }

  // ------------------------------------------------------------------- the pass

  /** Finished segments, the open one, and what waits for one. */
  datatype Pass = Pass(segments: seq<Segment>, current: Option<Segment>, pending: Option<nat>, prelude: seq<nat>)

  function AllSegments(p: Pass): seq<Segment> {
    if p.current.Some? then p.segments + [p.current.value] else p.segments
  }

  function Held(p: Pass): multiset<nat> {
    Counted(AllSegments(p)) + multiset(Due(p))
  }

  /** What the next segment will take before the observation that opens it. */
  function Due(p: Pass): seq<nat> {
    p.prelude + (if p.pending.Some? then [p.pending.value] else [])
  }

  predicate WaitOk(obs: seq<Observation>, n: nat, p: Pass)
    requires n <= |obs|
  {
    && (p.current.None? ==> p.segments == [] && p.pending.None?)
    && (p.current.Some? ==> p.prelude == [])
    && (p.pending.Some? ==> p.pending.value < n && obs[p.pending.value].family == Boundary
                            && p.current.Some? && p.current.value.startedAt <= obs[p.pending.value].timestamp)
    && Within(p.prelude, n) && (forall i, j | 0 <= i < j < |p.prelude| :: p.prelude[i] < p.prelude[j])
    && (n > 0 ==> p.current.Some? || p.prelude != [])
  }

  ghost predicate PassOk(obs: seq<Observation>, n: nat, p: Pass) {
    n <= |obs| && SegmentsOk(obs, n, AllSegments(p)) && WaitOk(obs, n, p) && CountsOnce(obs, n, Held(p))
  }

  lemma CountedAppend(segments: seq<Segment>, s: Segment)
    ensures Counted(segments + [s]) == Counted(segments) + multiset(s.members)
  {
    assert (segments + [s])[..|segments + [s]| - 1] == segments;
  }

  lemma SpanAppend(obs: seq<Observation>, ms: seq<nat>, i: nat)
    requires ms != [] && Within(ms, |obs|) && i < |obs|
    ensures Earliest(obs, ms + [i]) == Min(Earliest(obs, ms), obs[i].timestamp)
    ensures Latest(obs, ms + [i]) == Max(Latest(obs, ms), obs[i].timestamp)
  {
    assert (ms + [i])[..|ms + [i]| - 1] == ms;
  }

  /** Nothing the pass holds ends after the observation at its position. */
  lemma EndsBefore(obs: seq<Observation>, n: nat, s: Segment)
    requires TimeSorted(obs) && n < |obs| && Spans(obs, n, s)
    ensures s.endedAt <= obs[n].timestamp
  {
    SpanMeaning(obs, s.members);
  }

  lemma AppendChain(segments: seq<Segment>, s: Segment)
    requires Chain(segments) && s.startedAt <= s.endedAt
    requires segments != [] ==>
               var last := segments[|segments| - 1];
               last.startedAt <= s.startedAt && last.endedAt <= s.endedAt && last.kind != s.kind
    ensures Chain(segments + [s])
  {
    var all := segments + [s];
    forall i, j | 0 <= i < j < |all| ensures all[i].startedAt <= all[j].startedAt && all[i].endedAt <= all[j].endedAt {
      if j == |segments| && i < |segments| - 1 {
        assert segments[i].startedAt <= segments[|segments| - 1].startedAt;
      }
    }
  }

  lemma ReplaceLastChain(front: seq<Segment>, c: Segment, d: Segment)
    requires Chain(front + [c]) && d.kind == c.kind && d.startedAt == c.startedAt && c.endedAt <= d.endedAt
    ensures Chain(front + [d])
  {
    var old', new' := front + [c], front + [d];
    assert forall i | 0 <= i < |front| :: new'[i] == old'[i];
    assert old'[|front|] == c && new'[|front|] == d;
    forall i, j | 0 <= i < j < |new'|
      ensures new'[i].startedAt <= new'[j].startedAt && new'[i].endedAt <= new'[j].endedAt
    {
      assert old'[i].startedAt <= old'[j].startedAt && old'[i].endedAt <= old'[j].endedAt;
    }
    forall i | 0 < i < |new'| ensures new'[i - 1].kind != new'[i].kind {
      assert old'[i - 1].kind != old'[i].kind;
    }
  }

  /** Adding observation `i`, not before the open segment's start, keeps the segments in order. */
  lemma GrowCurrent(obs: seq<Observation>, n: nat, n': nat, p: Pass, i: nat)
    requires n <= n' <= |obs| && i < n' && p.current.Some? && SegmentsOk(obs, n, AllSegments(p))
    requires obs[i].timestamp >= p.current.value.startedAt
    ensures SegmentsOk(obs, n', p.segments + [AddSignal(p.current.value, obs, i)])
  {
    var c := p.current.value;
    var d := AddSignal(c, obs, i);
    var before := AllSegments(p);
    assert before[|p.segments|] == c;
    GrowSpan(obs, n, n', c, i);
    ReplaceLastChain(p.segments, c, d);
    hide Chain;
    forall k | 0 <= k < |p.segments| ensures Spans(obs, n', p.segments[k]) {
      assert before[k] == p.segments[k];
    }
  }

  lemma GrowSpan(obs: seq<Observation>, n: nat, n': nat, c: Segment, i: nat)
    requires n <= n' <= |obs| && i < n' && Spans(obs, n, c)
    ensures Spans(obs, n', AddSignal(c, obs, i))
  {
    SpanAppend(obs, c.members, i);
  }

  lemma GrowCount(obs: seq<Observation>, p: Pass, i: nat)
    requires p.current.Some? && i < |obs|
    ensures Counted(p.segments + [AddSignal(p.current.value, obs, i)]) == Counted(AllSegments(p)) + multiset{i}
  {
    CountedAppend(p.segments, p.current.value);
    CountedAppend(p.segments, AddSignal(p.current.value, obs, i));
  }

  lemma GrowHeld(obs: seq<Observation>, p: Pass, i: nat)
    requires p.current.Some? && i < |obs|
    ensures Held(p.(current := Some(AddSignal(p.current.value, obs, i)))) == Held(p) + multiset{i}
  {
    GrowCount(obs, p, i);
    hide Counted;
  }

  lemma StartOk(obs: seq<Observation>)
    ensures PassOk(obs, 0, Pass([], None, None, []))
  {
  }

  /** Without observations the pass holds nothing. */
  lemma EmptyPass(obs: seq<Observation>, p: Pass)
    requires PassOk(obs, |obs|, p)
    ensures obs == [] ==> p.current.None? && p.prelude == []
    ensures p.current.None? && p.prelude == [] ==>
              obs == [] && SegmentsOk(obs, |obs|, []) && CountsOnce(obs, |obs|, Counted([]))
  {
    if p.current.Some? {
      assert Spans(obs, |obs|, AllSegments(p)[|p.segments|]);
    } else if p.prelude != [] {
      assert p.prelude[0] < |obs|;
    }
  }

  lemma CountNext(obs: seq<Observation>, n: nat, held: multiset<nat>)
    requires n < |obs| && CountsOnce(obs, n, held)
    ensures CountsOnce(obs, n + 1, held + multiset{n})
  {
  }

  /** Boundary and auxiliary observations join the open segment or wait. */
  function Waiting(obs: seq<Observation>, n: nat, p: Pass): Pass
    requires n < |obs|
  {
    if p.current.None? then p.(prelude := p.prelude + [n])
    else if obs[n].family == Boundary then p.(pending := Some(n))
    else p.(current := Some(AddSignal(p.current.value, obs, n)))
  }

  lemma LaterSegments(obs: seq<Observation>, n: nat, segments: seq<Segment>)
    requires n < |obs| && SegmentsOk(obs, n, segments)
    ensures SegmentsOk(obs, n + 1, segments)
  {
    forall i | 0 <= i < |segments| ensures Spans(obs, n + 1, segments[i]) {
      assert Spans(obs, n, segments[i]);
    }
  }

  lemma CurrentStarts(obs: seq<Observation>, n: nat, p: Pass)
    requires TimeSorted(obs) && n < |obs| && PassOk(obs, n, p) && p.current.Some?
    ensures p.current.value.startedAt <= p.current.value.endedAt <= obs[n].timestamp
  {
    assert AllSegments(p)[|p.segments|] == p.current.value;
    EndsBefore(obs, n, p.current.value);
  }

  lemma ContinueKeeps(obs: seq<Observation>, n: nat, p: Pass)
    requires TimeSorted(obs) && n < |obs| && PassOk(obs, n, p) && p.current.Some?
    ensures PassOk(obs, n + 1, p.(current := Some(AddSignal(p.current.value, obs, n))))
  {
    hide SegmentsOk, CountsOnce, Held;
    CurrentStarts(obs, n, p);
    GrowCurrent(obs, n, n + 1, p, n);
    CountNext(obs, n, Held(p));
    GrowHeld(obs, p, n);
  }

  lemma PreludeKeeps(obs: seq<Observation>, n: nat, p: Pass)
    requires n < |obs| && PassOk(obs, n, p) && p.current.None?
    ensures PassOk(obs, n + 1, p.(prelude := p.prelude + [n]))
  {
    hide SegmentsOk, CountsOnce, Held;
    LaterSegments(obs, n, AllSegments(p));
    CountNext(obs, n, Held(p));
    PreludeHeld(p, n);
  }

  lemma PreludeHeld(p: Pass, n: nat)
    requires p.current.None? && p.pending.None?
    ensures Held(p.(prelude := p.prelude + [n])) == Held(p) + multiset{n}
  {
    hide Counted;
    assert Due(p.(prelude := p.prelude + [n])) == Due(p) + [n];
  }

  lemma PendingKeeps(obs: seq<Observation>, n: nat, p: Pass)
    requires TimeSorted(obs) && n < |obs| && PassOk(obs, n, p) && p.current.Some? && obs[n].family == Boundary
    ensures PassOk(obs, n + 1, p.(pending := Some(n)))
  {
    hide SegmentsOk, CountsOnce, Held;
    LaterSegments(obs, n, AllSegments(p));
    CurrentStarts(obs, n, p);
    PendingCounts(obs, n, p);
  }

  /** A newer boundary replaces the pending one, which is then counted nowhere. */
  lemma PendingCounts(obs: seq<Observation>, n: nat, p: Pass)
    requires n < |obs| && WaitOk(obs, n, p) && p.current.Some? && CountsOnce(obs, n, Held(p))
    requires obs[n].family == Boundary
    ensures CountsOnce(obs, n + 1, Held(p.(pending := Some(n))))
  {
    hide Counted;
    var q := p.(pending := Some(n));
    var counted := Counted(AllSegments(p));
    assert Due(q) == [n];
    assert Held(q) == counted + multiset{n};
    assert Due(p) == if p.pending.Some? then [p.pending.value] else [];
    forall m: nat ensures Held(q)[m] <= 1 && (m > n ==> Held(q)[m] == 0)
                          && (m <= n && obs[m].family != Boundary ==> Held(q)[m] == 1)
    {
      assert Held(p)[m] == counted[m] + (if p.pending == Some(m) then 1 else 0);
      assert Held(q)[m] == counted[m] + (if m == n then 1 else 0);
      assert Held(p)[m] <= 1 && (m >= n ==> Held(p)[m] == 0);
    }
  }

  lemma WaitingKeeps(obs: seq<Observation>, n: nat, p: Pass)
    requires TimeSorted(obs) && n < |obs| && PassOk(obs, n, p) && !obs[n].family.Activity?
    ensures PassOk(obs, n + 1, Waiting(obs, n, p))
  {
    hide PassOk;
    if p.current.None? {
      PreludeKeeps(obs, n, p);
    } else if obs[n].family == Boundary {
      PendingKeeps(obs, n, p);
    } else {
      ContinueKeeps(obs, n, p);
    }
  }

  lemma AppendSegment(obs: seq<Observation>, n: nat, segments: seq<Segment>, s: Segment)
    requires n <= |obs| && SegmentsOk(obs, n, segments) && Spans(obs, n, s) && s.startedAt <= s.endedAt
    requires segments != [] ==>
               var last := segments[|segments| - 1];
               last.startedAt <= s.startedAt && last.endedAt <= s.endedAt && last.kind != s.kind
    ensures SegmentsOk(obs, n, segments + [s])
  {
    AppendChain(segments, s);
    hide Chain, Spans;
  }

  lemma DueOrdered(obs: seq<Observation>, n: nat, p: Pass)
    requires n < |obs| && WaitOk(obs, n, p)
    ensures Within(Due(p) + [n], n + 1)
    ensures forall i, j | 0 <= i < j < |Due(p) + [n]| :: (Due(p) + [n])[i] < (Due(p) + [n])[j]
  {
    if p.pending.Some? {
      assert Due(p) + [n] == [p.pending.value, n];
    } else {
      PreludeOrdered(p.prelude, n);
      assert Due(p) == p.prelude;
    }
  }

  lemma PreludeOrdered(ms: seq<nat>, n: nat)
    requires Within(ms, n) && forall i, j | 0 <= i < j < |ms| :: ms[i] < ms[j]
    ensures Within(ms + [n], n + 1)
    ensures forall i, j | 0 <= i < j < |ms + [n]| :: (ms + [n])[i] < (ms + [n])[j]
  {
  }

  /** A new band takes what was waiting, then the observation that opens it. */
  lemma OpenKeeps(obs: seq<Observation>, n: nat, p: Pass, s: Segment)
    requires TimeSorted(obs) && n < |obs| && PassOk(obs, n, p)
    requires Spans(obs, n + 1, s) && s.members == Due(p) + [n]
    requires p.current.Some? ==> p.pending.Some? && s.kind != p.current.value.kind
    ensures PassOk(obs, n + 1, Pass(AllSegments(p), Some(s), None, []))
  {
    hide SegmentsOk, CountsOnce, Spans, Held;
    var all := AllSegments(p);
    var q := Pass(all, Some(s), None, []);
    LaterSegments(obs, n, all);
    OpenInOrder(obs, n, p, s);
    AppendSegment(obs, n + 1, all, s);
    CountNext(obs, n, Held(p));
    OpenHeld(p, s, n);
  }

  lemma OpenHeld(p: Pass, s: Segment, n: nat)
    requires s.members == Due(p) + [n]
    ensures Held(Pass(AllSegments(p), Some(s), None, [])) == Held(p) + multiset{n}
  {
    CountedAppend(AllSegments(p), s);
    hide Counted;
    assert Due(Pass(AllSegments(p), Some(s), None, [])) == [];
  }

  lemma OpenInOrder(obs: seq<Observation>, n: nat, p: Pass, s: Segment)
    requires TimeSorted(obs) && n < |obs| && PassOk(obs, n, p)
    requires Spans(obs, n + 1, s) && s.members == Due(p) + [n]
    requires p.current.Some? ==> p.pending.Some?
    ensures s.startedAt <= s.endedAt
    ensures p.current.Some? ==> p.current.value.startedAt <= s.startedAt && p.current.value.endedAt <= s.endedAt
  {
    SpanMeaning(obs, s.members);
    assert s.members[|s.members| - 1] == n;
    if p.current.Some? {
      CurrentStarts(obs, n, p);
      hide SegmentsOk, CountsOnce, Held;
      assert s.members == [p.pending.value, n];
      FirstIsEarliest(obs, s.members);
    }
  }

  /** A segment opened at `first`, the earliest of its observations, and filled one by one. */
  method Build(obs: seq<Observation>, n: nat, kind: nat, first: nat, members: seq<nat>) returns (s: Segment)
    requires n <= |obs| && members != [] && Within(members, n) && first == Earliest(obs, members)
    ensures Spans(obs, n, s) && s.kind == kind && s.members == members
  {
    SpanMeaning(obs, members);
    s := Segment(kind, first, first, []);
    var k := 0;
    while k < |members|
      invariant 0 <= k <= |members| && s.kind == kind && s.members == members[..k] && s.startedAt == first
      invariant k == 0 ==> s.endedAt == first
      invariant k > 0 ==> s.endedAt == Latest(obs, members[..k])
    {
      assert members[..k + 1] == members[..k] + [members[k]];
      if k > 0 { SpanAppend(obs, members[..k], members[k]); }
      s := AddSignal(s, obs, members[k]);
      k := k + 1;
    }
    assert members[..k] == members;
  }

  lemma {:induction false} FirstIsEarliest(obs: seq<Observation>, ms: seq<nat>)
    requires TimeSorted(obs) && ms != [] && Within(ms, |obs|)
    requires forall i, j | 0 <= i < j < |ms| :: ms[i] < ms[j]
    ensures Earliest(obs, ms) == obs[ms[0]].timestamp
  {
    if |ms| > 1 { FirstIsEarliest(obs, ms[..|ms| - 1]); }
  }

  /** The open segment takes a trailing boundary; without one, all that waited forms a segment. */
  lemma FinishKeeps(obs: seq<Observation>, p: Pass, segments: seq<Segment>)
    requires PassOk(obs, |obs|, p) && p.current.Some?
    requires segments == p.segments + [if p.pending.Some? then AddSignal(p.current.value, obs, p.pending.value)
                                       else p.current.value]
    ensures SegmentsOk(obs, |obs|, segments) && Counted(segments) == Held(p)
  {
    if p.pending.Some? {
      GrowCurrent(obs, |obs|, |obs|, p, p.pending.value);
      GrowCount(obs, p, p.pending.value);
      assert Due(p) == [p.pending.value];
    } else {
      assert Due(p) == [];
    }
    hide SegmentsOk, CountsOnce;
  }

  lemma FallbackKeeps(obs: seq<Observation>, p: Pass, s: Segment)
    requires PassOk(obs, |obs|, p) && p.current.None? && Spans(obs, |obs|, s) && s.members == p.prelude
    ensures SegmentsOk(obs, |obs|, [s]) && Counted([s]) == Held(p)
  {
    SpanMeaning(obs, s.members);
    CountedAppend([], s);
    assert [] + [s] == [s] && Due(p) == p.prelude;
    hide Spans;
  }

  /**
   The one-pass segmenter. Starts and ends are monotone, neighbours differ in family, each
   segment spans exactly its observations, and each observation that is not a boundary is
   counted in exactly one segment, a boundary in at most one.
   */
  method DeriveSegments(obs: seq<Observation>) returns (segments: seq<Segment>)
    requires TimeSorted(obs)
    ensures SegmentsOk(obs, |obs|, segments) && CountsOnce(obs, |obs|, Counted(segments))
    ensures segments == [] <==> obs == []
    ensures CutsOk(obs, segments) || Fallback(obs, segments)
  {
    hide PassOk, SegmentsOk, CountsOnce, TimeSorted, Waiting, CutPass, CutsOk, Fallback, WaitOk;
    var p := Pass([], None, None, []);
    StartOk(obs);
    StartCut(obs);
    var n := 0;
    while n < |obs|
      invariant 0 <= n <= |obs| && PassOk(obs, n, p) && CutPass(obs, n, p)
    {
      PassWaits(obs, n, p);
      if !obs[n].family.Activity? {
        WaitingKeeps(obs, n, p);
        WaitingCuts(obs, n, p);
        p := Waiting(obs, n, p);
      } else if p.current.None? || (p.pending.Some? && p.current.value.kind != obs[n].family.kind) {
        var q := OpenBand(obs, n, p);
        OpenCuts(obs, n, p, q);
        p := q;
      } else {
        ContinueKeeps(obs, n, p);
        GrowPass(obs, n, p);
        p := p.(current := Some(AddSignal(p.current.value, obs, n)));
      }
      n := n + 1;
    }
    segments := CloseBands(obs, p);
  }

  /** Bands are cut where they must be, and a boundary that came since the last one opened is pending. */
  ghost predicate CutPass(obs: seq<Observation>, n: nat, p: Pass) {
    && CutsOk(obs, AllSegments(p))
    && (p.current.Some? ==>
          var c := p.current.value;
          && Within(c.members, |obs|) && Opening(obs, c.members).Some?
          && (p.pending.None? ==> NoBoundary(obs, Opening(obs, c.members).value, n))
          && (p.pending.Some? ==> NoBoundary(obs, p.pending.value, n)))
    && (p.current.None? ==> forall i | 0 <= i < n && i < |obs| :: !obs[i].family.Activity?)
  }

  lemma StartCut(obs: seq<Observation>)
    ensures CutPass(obs, 0, Pass([], None, None, []))
  {
  }

  lemma PassWaits(obs: seq<Observation>, n: nat, p: Pass)
    requires n <= |obs| && PassOk(obs, n, p)
    ensures WaitOk(obs, n, p)
  {
    hide WaitOk, SegmentsOk, CountsOnce;
  }

  lemma {:induction false} OpeningAppend(obs: seq<Observation>, ms: seq<nat>, i: nat)
    requires Within(ms, |obs|) && i < |obs|
    ensures Within(ms + [i], |obs|)
    ensures Opening(obs, ms + [i]) ==
            if Opening(obs, ms).Some? then Opening(obs, ms)
            else if obs[i].family.Activity? then Some(i) else None
  {
    if ms == [] {
      assert ms + [i] == [i] && [i][1..] == [];
    } else {
      assert (ms + [i])[1..] == ms[1..] + [i];
      OpeningAppend(obs, ms[1..], i);
    }
  }

  /** The open band takes one more observation that gives no reason to cut. */
  lemma GrowBand(obs: seq<Observation>, c: Segment, i: nat)
    requires BandOk(obs, c) && i < |obs|
    requires obs[i].family.Activity? ==>
               obs[i].family.kind == c.kind || NoBoundary(obs, Opening(obs, c.members).value, i)
    ensures BandOk(obs, AddSignal(c, obs, i))
    ensures Opening(obs, AddSignal(c, obs, i).members) == Opening(obs, c.members)
    ensures StartsAtBoundary(obs, c) ==> StartsAtBoundary(obs, AddSignal(c, obs, i))
  {
    hide NoBoundary, Opening;
    OpeningAppend(obs, c.members, i);
  }

  lemma GrowCuts(obs: seq<Observation>, front: seq<Segment>, c: Segment, d: Segment)
    requires CutsOk(obs, front + [c]) && BandOk(obs, d)
    requires BandOk(obs, c) && (StartsAtBoundary(obs, c) ==> StartsAtBoundary(obs, d))
    ensures CutsOk(obs, front + [d])
  {
    hide BandOk, StartsAtBoundary;
    var was, now := front + [c], front + [d];
    assert forall i | 0 <= i < |front| :: now[i] == was[i];
    assert was[|front|] == c;
  }

  lemma CurrentBand(obs: seq<Observation>, n: nat, p: Pass)
    requires CutPass(obs, n, p) && p.current.Some?
    ensures BandOk(obs, p.current.value)
  {
    hide BandOk, NoBoundary, Opening, StartsAtBoundary;
    assert AllSegments(p)[|p.segments|] == p.current.value;
  }

  /** Taking observation `n`, which is no boundary, moves what is known on by one position. */
  lemma GrowPass(obs: seq<Observation>, n: nat, p: Pass)
    requires n < |obs| && CutPass(obs, n, p) && p.current.Some? && obs[n].family != Boundary
    requires obs[n].family.Activity? ==> p.pending.None? || p.current.value.kind == obs[n].family.kind
    ensures CutPass(obs, n + 1, p.(current := Some(AddSignal(p.current.value, obs, n))))
  {
    hide BandOk, CutsOk, Opening, NoBoundary, StartsAtBoundary;
    var c, d := p.current.value, AddSignal(p.current.value, obs, n);
    CurrentBand(obs, n, p);
    GrowBand(obs, c, n);
    GrowCuts(obs, p.segments, c, d);
    NoBoundaryNext(obs, Opening(obs, c.members).value, n);
    if p.pending.Some? { NoBoundaryNext(obs, p.pending.value, n); }
    assert Within(d.members, |obs|) by { OpeningAppend(obs, c.members, n); }
  }

  lemma NoBoundaryNext(obs: seq<Observation>, after: nat, n: nat)
    requires n < |obs| && obs[n].family != Boundary
    ensures NoBoundary(obs, after, n) ==> NoBoundary(obs, after, n + 1)
  {
  }

  lemma WaitingCuts(obs: seq<Observation>, n: nat, p: Pass)
    requires n < |obs| && CutPass(obs, n, p) && WaitOk(obs, n, p) && !obs[n].family.Activity?
    ensures CutPass(obs, n + 1, Waiting(obs, n, p))
  {
    hide WaitOk, CutsOk, Opening;
    if p.current.Some? && obs[n].family != Boundary { GrowPass(obs, n, p); }
  }

  lemma {:induction false} NoOpening(obs: seq<Observation>, ms: seq<nat>)
    requires Within(ms, |obs|) && forall k | 0 <= k < |ms| :: !obs[ms[k]].family.Activity?
    ensures Opening(obs, ms).None?
  {
    if ms != [] { NoOpening(obs, ms[1..]); }
  }

  /** The band opened at `n` behind what waited. */
  lemma OpenedBand(obs: seq<Observation>, n: nat, p: Pass, s: Segment)
    requires n < |obs| && CutPass(obs, n, p) && WaitOk(obs, n, p) && obs[n].family == Activity(s.kind)
    requires (p.current.None? || p.pending.Some?) && s.members == Due(p) + [n]
    ensures BandOk(obs, s) && Opening(obs, s.members) == Some(n)
    ensures p.current.Some? ==> StartsAtBoundary(obs, s)
  {
    hide CutsOk, Opening;
    assert forall k | 0 <= k < |Due(p)| :: Due(p)[k] < n && !obs[Due(p)[k]].family.Activity?;
    NoOpening(obs, Due(p));
    OpeningAppend(obs, Due(p), n);
    assert forall k | 0 <= k < |Due(p)| :: s.members[k] == Due(p)[k];
    if p.current.Some? { assert s.members == [p.pending.value, n]; }
  }

  lemma AppendCuts(obs: seq<Observation>, segments: seq<Segment>, s: Segment)
    requires CutsOk(obs, segments) && BandOk(obs, s) && (segments != [] ==> StartsAtBoundary(obs, s))
    ensures CutsOk(obs, segments + [s])
  {
    hide BandOk, StartsAtBoundary;
    var all := segments + [s];
    assert forall i | 0 <= i < |segments| :: all[i] == segments[i];
  }

  lemma OpenCuts(obs: seq<Observation>, n: nat, p: Pass, q: Pass)
    requires n < |obs| && CutPass(obs, n, p) && WaitOk(obs, n, p) && obs[n].family.Activity?
    requires p.current.None? || p.pending.Some?
    requires q.segments == AllSegments(p) && q.pending.None? && q.prelude == []
    requires q.current.Some? && q.current.value.members == Due(p) + [n] && q.current.value.kind == obs[n].family.kind
    ensures CutPass(obs, n + 1, q)
  {
    hide BandOk, StartsAtBoundary, Opening, CutsOk;
    OpenedBand(obs, n, p, q.current.value);
    AppendCuts(obs, AllSegments(p), q.current.value);
  }

  lemma CloseCuts(obs: seq<Observation>, p: Pass)
    requires PassOk(obs, |obs|, p) && CutPass(obs, |obs|, p)
    ensures p.current.Some? && p.pending.None? ==> CutsOk(obs, p.segments + [p.current.value])
    ensures p.current.Some? && p.pending.Some? ==>
              p.pending.value < |obs| && CutsOk(obs, p.segments + [AddSignal(p.current.value, obs, p.pending.value)])
    ensures p.current.None? ==> forall i | 0 <= i < |obs| :: !obs[i].family.Activity?
  {
    PassWaits(obs, |obs|, p);
    if p.current.Some? && p.pending.Some? {
      CurrentBand(obs, |obs|, p);
      GrowBand(obs, p.current.value, p.pending.value);
      GrowCuts(obs, p.segments, p.current.value, AddSignal(p.current.value, obs, p.pending.value));
    }
    hide CutsOk, SegmentsOk, CountsOnce, Opening;
  }

  lemma FallbackIs(obs: seq<Observation>, segments: seq<Segment>)
    requires forall i | 0 <= i < |obs| :: !obs[i].family.Activity?
    requires |segments| <= 1 && forall i | 0 <= i < |segments| :: segments[i].kind == OTHER
    ensures Fallback(obs, segments)
  {
  }

  /** Starts a band with the observation at `n`, behind everything that waited for one. */
  method OpenBand(obs: seq<Observation>, n: nat, p: Pass) returns (q: Pass)
    requires TimeSorted(obs) && n < |obs| && PassOk(obs, n, p) && obs[n].family.Activity?
    requires p.current.None? || (p.pending.Some? && p.current.value.kind != obs[n].family.kind)
    ensures PassOk(obs, n + 1, q)
    ensures q.segments == AllSegments(p) && q.pending.None? && q.prelude == []
    ensures q.current.Some? && q.current.value.members == Due(p) + [n] && q.current.value.kind == obs[n].family.kind
  {
    var members := Due(p) + [n];
    DueOrdered(obs, n, p);
    hide PassOk;
    FirstIsEarliest(obs, members);
    var s := Build(obs, n + 1, obs[n].family.kind, obs[members[0]].timestamp, members);
    OpenKeeps(obs, n, p, s);
    q := Pass(AllSegments(p), Some(s), None, []);
  }

  method CloseBands(obs: seq<Observation>, p: Pass) returns (segments: seq<Segment>)
    requires TimeSorted(obs) && PassOk(obs, |obs|, p) && CutPass(obs, |obs|, p)
    ensures SegmentsOk(obs, |obs|, segments) && CountsOnce(obs, |obs|, Counted(segments))
    ensures segments == [] <==> obs == []
    ensures CutsOk(obs, segments) || Fallback(obs, segments)
  {
    hide SegmentsOk, CountsOnce, Held, CutPass, CutsOk, Fallback;
    EmptyPass(obs, p);
    CloseCuts(obs, p);
    if p.current.Some? {
      var last := if p.pending.Some? then AddSignal(p.current.value, obs, p.pending.value) else p.current.value;
      segments := p.segments + [last];
      FinishKeeps(obs, p, segments);
    } else if p.prelude != [] {
      FirstIsEarliest(obs, p.prelude);
      var s := Build(obs, |obs|, OTHER, obs[p.prelude[0]].timestamp, p.prelude);
      segments := [s];
      FallbackKeeps(obs, p, s);
      FallbackIs(obs, segments);
    } else {
      segments := [];
      FallbackIs(obs, segments);
    }
  }
}
