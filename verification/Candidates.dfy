/** Greedy acceptance of detection candidates into the segments of a project item. */
module Candidates {
  import opened Prelude
  import opened Sorting

  datatype Segment = Segment(start: int, end: int, title: string, included: bool)

  /** Number fields hold a value only when it is an integer. */
  datatype Candidate = Candidate(id: string, project: string, media: string, revision: int, source: string,
                                 startMs: Option<int>, endMs: Option<int>, pointMs: Option<int>)

  datatype Project = Project(id: string, media: string, revision: int, segments: seq<Segment>)

  datatype Reason = Stale | Invalid | Overlap | Point

  datatype Skipped = Skipped(candidate: Candidate, reason: Reason)

  datatype Range = Range(start: int, end: int)

  const MAX_SAFE_INTEGER: int := 9007199254740991

  function PointOf(c: Candidate): Option<int> {
    if c.source != "scene" then None
    else if c.pointMs.Some? then c.pointMs
    else if c.startMs.Some? && c.endMs.Some? && c.endMs.value - c.startMs.value == 1 then c.startMs
    else None
  }

  function RangeOf(c: Candidate): Option<Range> {
    if c.source == "scene" || c.startMs.None? || c.endMs.None? then None
    else Some(Range(c.startMs.value, c.endMs.value))
  }

  predicate ValidSource(source: string) {
    source == "silence" || source == "black" || source == "scene"
  }

  /** duration is absent when it is not a finite number. */
  function SkipReason(c: Candidate, project: Project, duration: Option<real>): Option<Reason> {
    if c.project != project.id || c.media != project.media || c.revision != project.revision then Some(Stale)
    else if c.id == "" || !ValidSource(c.source) || duration.None? || duration.value < 0.0 then Some(Invalid)
    else if c.source == "scene" then
      var point := PointOf(c);
      if point.None? || point.value < 0 || point.value as real > duration.value then Some(Invalid) else Some(Point)
    else
      var range := RangeOf(c);
      if range.None? || range.value.start < 0 || range.value.start >= range.value.end || range.value.end as real > duration.value
      then Some(Invalid) else None
  }

  predicate Overlaps(aStart: int, aEnd: int, bStart: int, bEnd: int) {
    aStart < bEnd && bStart < aEnd
  }

  /** Two non-empty ranges overlap exactly when they have an instant in common; touching ends do not count. */
  lemma OverlapsIff(aStart: int, aEnd: int, bStart: int, bEnd: int)
    requires aStart < aEnd && bStart < bEnd
    ensures Overlaps(aStart, aEnd, bStart, bEnd) <==> exists t: int :: Common(t, aStart, aEnd, bStart, bEnd)
  {
    if Overlaps(aStart, aEnd, bStart, bEnd) {
      assert Common(if aStart < bStart then bStart else aStart, aStart, aEnd, bStart, bEnd);
    }
  }

  predicate Common(t: int, aStart: int, aEnd: int, bStart: int, bEnd: int) {
    aStart <= t < aEnd && bStart <= t < bEnd
  }

  predicate Conflicts(c: Candidate, segments: seq<Segment>, accepted: seq<Candidate>) {
    var r := RangeOf(c);
    r.Some? &&
    ((exists s <- segments :: Overlaps(r.value.start, r.value.end, s.start, s.end)) ||
     (exists a <- accepted :: RangeOf(a).Some? && Overlaps(r.value.start, r.value.end, RangeOf(a).value.start, RangeOf(a).value.end)))
  }

  // ----------------------------------------------------------------- ordering

  datatype Item = Item(candidate: Candidate, index: nat)

  function SortStart(c: Candidate): int {
    if RangeOf(c).Some? then RangeOf(c).value.start else if PointOf(c).Some? then PointOf(c).value else MAX_SAFE_INTEGER
  }

  function ByStart(a: Item, b: Item): bool {
    SortStart(a.candidate) < SortStart(b.candidate) || (SortStart(a.candidate) == SortStart(b.candidate) && a.index <= b.index)
  }

  function ByIndex(a: (Skipped, nat), b: (Skipped, nat)): bool {
    a.1 <= b.1
  }

  function ByBounds(a: Segment, b: Segment): bool {
    a.start < b.start || (a.start == b.start && a.end <= b.end)
  }

  function Indexed(candidates: seq<Candidate>): (items: seq<Item>)
    ensures |items| == |candidates|
    ensures forall i :: 0 <= i < |items| ==> items[i] == Item(candidates[i], i)
  {
    seq(|candidates|, i requires 0 <= i < |candidates| => Item(candidates[i], i))
  }

  function Position(item: Item): nat {
    item.index
  }

  function OriginalPosition(s: (Skipped, nat)): nat {
    s.1
  }

  function Positions(items: seq<Item>): seq<nat> {
    Mapped<Item, nat>(Position, items)
  }

  function OriginalPositions(s: seq<(Skipped, nat)>): seq<nat> {
    Mapped<(Skipped, nat), nat>(OriginalPosition, s)
  }

  function JustSkipped(s: (Skipped, nat)): Skipped {
    s.0
  }

  function Reasons(s: seq<(Skipped, nat)>): seq<Skipped> {
    Mapped<(Skipped, nat), Skipped>(JustSkipped, s)
  }

  ghost predicate Increasing(s: seq<nat>) {
    forall i, j :: 0 <= i < j < |s| ==> s[i] < s[j]
  }

  lemma {:induction false} PositionsCount(items: seq<Item>, i: nat)
    requires forall k :: 0 <= k < |items| ==> items[k].index == k
    ensures multiset(Positions(items))[i] == if i < |items| then 1 else 0
  {
    if items != [] {
      var n := |items| - 1;
      PositionsCount(items[..n], i);
      assert Position(items[n]) == n;
      assert Without(items, n) == items[..n];
      MappedWithout<Item, nat>(Position, items, n);
    }
  }

  // ------------------------------------------------------------- the specification

  /** Every position of the input appears exactly once in the two lists together. */
  ghost predicate Partition(n: nat, acceptedAt: seq<nat>, skippedAt: seq<nat>) {
    forall i: nat :: multiset(acceptedAt)[i] + multiset(skippedAt)[i] == if i < n then 1 else 0
  }

  /** The candidate was found in this media of this project at its present revision. */
  predicate UpToDate(c: Candidate, project: Project) {
    c.project == project.id && c.media == project.media && c.revision == project.revision
  }

  /** Identified, of a known kind, and judged against a real duration. */
  predicate Known(c: Candidate, duration: Option<real>) {
    c.id != "" && (c.source == "silence" || c.source == "black" || c.source == "scene") && duration.Some? && duration.value >= 0.0
  }

  /** Its whole numbers bound a non-empty range within the media. */
  predicate RangeInMedia(c: Candidate, duration: real) {
    c.startMs.Some? && c.endMs.Some? && 0 <= c.startMs.value < c.endMs.value && c.endMs.value as real <= duration
  }

  /** Scenes are points: a point field, or the one-millisecond range of older results. */
  predicate PointInMedia(c: Candidate, duration: real) {
    if c.pointMs.Some? then 0 <= c.pointMs.value && c.pointMs.value as real <= duration
    else c.startMs.Some? && c.endMs.Some? && c.endMs.value == c.startMs.value + 1 && 0 <= c.startMs.value && c.startMs.value as real <= duration
  }

  /** Why a candidate is refused on its own account: first for being stale, then for being invalid, and a valid scene for
      being a point. */
  lemma SkipReasonMeans(c: Candidate, project: Project, duration: Option<real>)
    ensures var r := SkipReason(c, project, duration);
      var valid := UpToDate(c, project) && Known(c, duration)
                   && (if c.source == "scene" then PointInMedia(c, duration.value) else RangeInMedia(c, duration.value));
      && (r == Some(Stale) <==> !UpToDate(c, project))
      && (r == Some(Invalid) <==> UpToDate(c, project) && !valid)
      && (r == Some(Point) <==> valid && c.source == "scene")
      && (r == None <==> valid && c.source != "scene")
  {}

  /** An accepted candidate is up to date and well formed, in bounds, and clear of the existing segments. */
  ghost predicate Acceptable(c: Candidate, project: Project, duration: Option<real>) {
    && UpToDate(c, project) && Known(c, duration) && c.source != "scene" && RangeInMedia(c, duration.value)
    && forall s <- project.segments :: !Overlaps(c.startMs.value, c.endMs.value, s.start, s.end)
  }

  ghost predicate Clear(accepted: seq<Candidate>) {
    forall i, j :: 0 <= i < j < |accepted| ==> !Conflicts(accepted[j], [], [accepted[i]])
  }

  /** Item c overlaps an existing segment or an accepted candidate that comes before it. */
  ghost predicate Blocked(c: Item, segments: seq<Segment>, winners: seq<Item>) {
    Conflicts(c.candidate, segments, []) || exists w <- winners :: Conflicts(c.candidate, [], [w.candidate]) && StartsNoLater(w, c)
  }

  /** Winners are tried by their start, equal starts in input order. */
  predicate StartsNoLater(w: Item, c: Item) {
    && w.candidate.startMs.Some? && c.candidate.startMs.Some?
    && (w.candidate.startMs.value < c.candidate.startMs.value || (w.candidate.startMs == c.candidate.startMs && w.index <= c.index))
  }

  /** Among ranges the sort order is the order of starts. */
  lemma OrderOfStarts(w: Item, c: Item)
    requires RangeOf(w.candidate).Some? && RangeOf(c.candidate).Some? && ByStart(w, c)
    ensures StartsNoLater(w, c)
  {}

  /** A skipped candidate failed its own checks, or it is valid but blocked by what was there or by an earlier
      winner; in neither case could it still be added. */
  ghost predicate RightlySkipped(s: Skipped, index: nat, project: Project, duration: Option<real>, winners: seq<Item>) {
    var c := s.candidate;
    var range := UpToDate(c, project) && Known(c, duration) && c.source != "scene" && RangeInMedia(c, duration.value);
    match s.reason
    case Stale => !UpToDate(c, project)
    case Invalid => UpToDate(c, project) && !(Known(c, duration) && if c.source == "scene" then PointInMedia(c, duration.value) else RangeInMedia(c, duration.value))
    case Point => UpToDate(c, project) && Known(c, duration) && c.source == "scene" && PointInMedia(c, duration.value)
    case Overlap => range && Blocked(Item(c, index), project.segments, winners)
  }

  ghost predicate NonEmptyDisjoint(s: seq<Segment>) {
    && (forall i :: 0 <= i < |s| ==> s[i].start < s[i].end)
    && (forall i, j :: 0 <= i < j < |s| ==> !Overlaps(s[i].start, s[i].end, s[j].start, s[j].end))
  }

  ghost predicate OneAfterAnother(s: seq<Segment>) {
    forall i, j :: 0 <= i < j < |s| ==> s[i].end <= s[j].start
  }

  function OrZero(x: Option<int>): int {
    if x.Some? then x.value else 0
  }

  function AsSegment(c: Candidate): Segment {
    Segment(OrZero(c.startMs), OrZero(c.endMs), c.source, true)
  }

  lemma ConflictBlocks(c: Item, segments: seq<Segment>, accepted: seq<Candidate>, winners: seq<Item>)
    requires Conflicts(c.candidate, segments, accepted) && Named(accepted, winners) && forall w <- winners :: ByStart(w, c) && RangeOf(w.candidate).Some?
    ensures Blocked(c, segments, winners)
  {
    if !Conflicts(c.candidate, segments, []) {
      var r := RangeOf(c.candidate).value;
      var a :| a in accepted && RangeOf(a).Some? && Overlaps(r.start, r.end, RangeOf(a).value.start, RangeOf(a).value.end);
      var k :| 0 <= k < |accepted| && accepted[k] == a;
      assert a in [winners[k].candidate];
      assert winners[k] in winners && Conflicts(c.candidate, [], [winners[k].candidate]);
      OrderOfStarts(winners[k], c);
    }
  }

  /** The winners are the accepted candidates together with their input positions. */
  ghost predicate Named(accepted: seq<Candidate>, winners: seq<Item>) {
    |winners| == |accepted| && forall k :: 0 <= k < |accepted| ==> winners[k].candidate == accepted[k]
  }

  lemma ClearAppend(accepted: seq<Candidate>, c: Candidate)
    requires Clear(accepted) && !Conflicts(c, [], accepted)
    ensures Clear(accepted + [c])
  {
    forall i | 0 <= i < |accepted| ensures !Conflicts(c, [], [accepted[i]]) {
      assert accepted[i] in accepted;
    }
  }

  ghost predicate AllSkippedRightly(s: seq<(Skipped, nat)>, candidates: seq<Candidate>, project: Project, duration: Option<real>, winners: seq<Item>) {
    forall k :: 0 <= k < |s| ==>
      && s[k].1 < |candidates| && s[k].0.candidate == candidates[s[k].1]
      && RightlySkipped(s[k].0, s[k].1, project, duration, winners)
  }

  lemma SkippedStays(s: seq<(Skipped, nat)>, candidates: seq<Candidate>, project: Project, duration: Option<real>, winners: seq<Item>, w: Item)
    requires AllSkippedRightly(s, candidates, project, duration, winners)
    ensures AllSkippedRightly(s, candidates, project, duration, winners + [w])
  {
    forall c | Blocked(c, project.segments, winners) ensures Blocked(c, project.segments, winners + [w]) {
      assert forall x <- winners :: x in winners + [w];
    }
  }

  // ------------------------------------------------------------------ the proof

  lemma OriginOf(candidates: seq<Candidate>, ordered: seq<Item>, i: nat)
    requires Permutation(Indexed(candidates), ordered) && i < |ordered|
    ensures ordered[i].index < |candidates| && ordered[i].candidate == candidates[ordered[i].index]
  {
    assert ordered[i] in multiset(ordered);
    assert ordered[i] in multiset(Indexed(candidates));
    var k :| 0 <= k < |candidates| && Indexed(candidates)[k] == ordered[i];
  }

  lemma AllPlaced(candidates: seq<Candidate>, ordered: seq<Item>, winners: seq<Item>, skipped: seq<(Skipped, nat)>, bySource: seq<(Skipped, nat)>)
    requires Permutation(Indexed(candidates), ordered) && Permutation(skipped, bySource) && SortedBy(bySource, ByIndex)
    requires multiset(Positions(winners)) + multiset(OriginalPositions(skipped)) == multiset(Positions(ordered))
    ensures Partition(|candidates|, Positions(winners), OriginalPositions(bySource)) && Increasing(OriginalPositions(bySource))
  {
    var at: seq<nat> := OriginalPositions(bySource);
    MappedPermutes<Item, nat>(Position, Indexed(candidates), ordered);
    MappedPermutes<(Skipped, nat), nat>(OriginalPosition, skipped, bySource);
    var all: multiset<nat> := multiset(Positions(Indexed(candidates)));
    assert all == multiset(Positions(winners)) + multiset(at);
    forall i: nat ensures multiset(Positions(winners))[i] + multiset(at)[i] == if i < |candidates| then 1 else 0 {
      PositionsCount(Indexed(candidates), i);
      assert all[i] == multiset(Positions(winners))[i] + multiset(at)[i];
    }
    StrictlyIncreasing(bySource);
  }

  lemma AtMostOnce(s: seq<nat>, i: nat, j: nat)
    requires i < j < |s| && multiset(s)[s[i]] <= 1
    ensures s[i] != s[j]
  {
    WithoutOne(s, i);
    assert Without(s, i)[j - 1] == s[j];
    assert s[j] in multiset(Without(s, i));
  }

  lemma StrictlyIncreasing(bySource: seq<(Skipped, nat)>)
    requires SortedBy(bySource, ByIndex)
    requires forall i: nat :: multiset(OriginalPositions(bySource))[i] <= 1
    ensures Increasing(OriginalPositions(bySource))
  {
    var at := OriginalPositions(bySource);
    forall i, j | 0 <= i < j < |at| ensures at[i] < at[j] {
      assert ByIndex(bySource[i], bySource[j]);
      assert at[i] == OriginalPosition(bySource[i]) && at[j] == OriginalPosition(bySource[j]);
      AtMostOnce(at, i, j);
    }
  }

  /** What the two lists say together once the skipped ones are back in input order. */
  lemma SkippedInOrder(bySource: seq<(Skipped, nat)>, candidates: seq<Candidate>, project: Project, duration: Option<real>, winners: seq<Item>)
    requires AllSkippedRightly(bySource, candidates, project, duration, winners)
    ensures var skipped, at := Reasons(bySource), OriginalPositions(bySource);
      forall k :: 0 <= k < |skipped| ==> at[k] < |candidates| && skipped[k].candidate == candidates[at[k]]
                                         && RightlySkipped(skipped[k], at[k], project, duration, winners)
  {
    forall k | 0 <= k < |bySource|
      ensures Reasons(bySource)[k] == bySource[k].0 && OriginalPositions(bySource)[k] == bySource[k].1
    {
      assert Reasons(bySource)[k] == JustSkipped(bySource[k]) && OriginalPositions(bySource)[k] == OriginalPosition(bySource[k]);
    }
  }

  lemma SkippedRearranged(a: seq<(Skipped, nat)>, b: seq<(Skipped, nat)>, candidates: seq<Candidate>, project: Project, duration: Option<real>, winners: seq<Item>)
    requires Permutation(a, b) && AllSkippedRightly(a, candidates, project, duration, winners)
    ensures AllSkippedRightly(b, candidates, project, duration, winners)
  {
    forall k | 0 <= k < |b|
      ensures b[k].1 < |candidates| && b[k].0.candidate == candidates[b[k].1] && RightlySkipped(b[k].0, b[k].1, project, duration, winners)
    {
      assert b[k] in multiset(a);
      var m :| 0 <= m < |a| && a[m] == b[k];
    }
  }

  lemma StillDisjoint(project: Project, accepted: seq<Candidate>, duration: Option<real>)
    requires NonEmptyDisjoint(project.segments) && Clear(accepted)
    requires forall k :: 0 <= k < |accepted| ==> Acceptable(accepted[k], project, duration)
    ensures NonEmptyDisjoint(project.segments + Mapped(AsSegment, accepted))
  {
    var existing, added := project.segments, Mapped(AsSegment, accepted);
    forall k | 0 <= k < |added|
      ensures added[k].start < added[k].end
      ensures forall i :: 0 <= i < |existing| ==> !Overlaps(existing[i].start, existing[i].end, added[k].start, added[k].end)
    {
      assert Acceptable(accepted[k], project, duration) && added[k] == AsSegment(accepted[k]);
      assert forall i :: 0 <= i < |existing| ==> existing[i] in project.segments;
    }
    forall i, j | 0 <= i < j < |added| ensures !Overlaps(added[i].start, added[i].end, added[j].start, added[j].end) {
      assert Acceptable(accepted[i], project, duration) && Acceptable(accepted[j], project, duration);
      assert added[i] == AsSegment(accepted[i]) && added[j] == AsSegment(accepted[j]);
      assert !Conflicts(accepted[j], [], [accepted[i]]) && accepted[i] in [accepted[i]];
      assert RangeOf(accepted[j]) == Some(Range(added[j].start, added[j].end)) && RangeOf(accepted[i]) == Some(Range(added[i].start, added[i].end));
    }
  }

  lemma DisjointInOrder(a: seq<Segment>, b: seq<Segment>)
    requires NonEmptyDisjoint(a) && Permutation(a, b) && SortedBy(b, ByBounds)
    ensures OneAfterAnother(b)
  {
    forall i, j | 0 <= i < j < |b| ensures b[i].end <= b[j].start {
      var k, l := PairPermutes(b, a, i, j);
      assert ByBounds(b[i], b[j]);
      assert k < l || l < k;
    }
  }

  /** Everything established about the candidates handled so far. */
  ghost predicate Accounted(candidates: seq<Candidate>, project: Project, duration: Option<real>, done: seq<Item>,
                            accepted: seq<Candidate>, winners: seq<Item>, skipped: seq<(Skipped, nat)>) {
    && multiset(Positions(winners)) + multiset(OriginalPositions(skipped)) == multiset(Positions(done))
    && Named(accepted, winners)
    && (forall k :: 0 <= k < |winners| ==> winners[k].index < |candidates| && winners[k].candidate == candidates[winners[k].index])
    && (forall k :: 0 <= k < |accepted| ==> Acceptable(accepted[k], project, duration))
    && Clear(accepted)
    && AllSkippedRightly(skipped, candidates, project, duration, winners)
  }

  lemma SkipOne(candidates: seq<Candidate>, project: Project, duration: Option<real>, done: seq<Item>,
                accepted: seq<Candidate>, winners: seq<Item>, skipped: seq<(Skipped, nat)>, item: Item, reason: Reason)
    requires Accounted(candidates, project, duration, done, accepted, winners, skipped)
    requires item.index < |candidates| && item.candidate == candidates[item.index]
    requires RightlySkipped(Skipped(item.candidate, reason), item.index, project, duration, winners)
    ensures Accounted(candidates, project, duration, done + [item], accepted, winners, skipped + [(Skipped(item.candidate, reason), item.index)])
  {
    MapAppend<Item, nat>(Position, done, item);
    MapAppend<(Skipped, nat), nat>(OriginalPosition, skipped, (Skipped(item.candidate, reason), item.index));
    hide RightlySkipped, Acceptable, Clear;
  }

  lemma AcceptableHere(c: Candidate, project: Project, duration: Option<real>, accepted: seq<Candidate>)
    requires SkipReason(c, project, duration).None? && !Conflicts(c, project.segments, accepted)
    ensures Acceptable(c, project, duration)
  {
    SkipReasonMeans(c, project, duration);
  }

  lemma SkippedForItself(c: Candidate, index: nat, project: Project, duration: Option<real>, winners: seq<Item>)
    requires SkipReason(c, project, duration).Some?
    ensures RightlySkipped(Skipped(c, SkipReason(c, project, duration).value), index, project, duration, winners)
  {
    SkipReasonMeans(c, project, duration);
  }

  lemma SkippedForOthers(item: Item, project: Project, duration: Option<real>, accepted: seq<Candidate>, winners: seq<Item>)
    requires SkipReason(item.candidate, project, duration).None? && Conflicts(item.candidate, project.segments, accepted)
    requires Named(accepted, winners) && forall w <- winners :: ByStart(w, item)
    requires forall k :: 0 <= k < |accepted| ==> Acceptable(accepted[k], project, duration)
    ensures RightlySkipped(Skipped(item.candidate, Overlap), item.index, project, duration, winners)
  {
    SkipReasonMeans(item.candidate, project, duration);
    ConflictBlocks(item, project.segments, accepted, winners);
    assert Item(item.candidate, item.index) == item;
  }

  lemma RangeHere(c: Candidate, project: Project, duration: Option<real>)
    requires SkipReason(c, project, duration).None?
    ensures RangeOf(c).Some?
  {}

  /** Every accepted candidate becomes a segment over its range, named after what was detected. */
  lemma AddedAreThere(project: Project, duration: Option<real>, accepted: seq<Candidate>, segments: seq<Segment>)
    requires multiset(segments) == multiset(project.segments) + multiset(Mapped(AsSegment, accepted))
    requires forall k :: 0 <= k < |accepted| ==> Acceptable(accepted[k], project, duration)
    ensures forall k :: 0 <= k < |accepted| ==>
              accepted[k].startMs.Some? && accepted[k].endMs.Some?
              && Segment(accepted[k].startMs.value, accepted[k].endMs.value, accepted[k].source, true) in segments
  {
    forall k | 0 <= k < |accepted|
      ensures accepted[k].startMs.Some? && accepted[k].endMs.Some?
      ensures Segment(accepted[k].startMs.value, accepted[k].endMs.value, accepted[k].source, true) in segments
    {
      assert Acceptable(accepted[k], project, duration);
      assert Mapped(AsSegment, accepted)[k] == AsSegment(accepted[k]);
      assert AsSegment(accepted[k]) in multiset(Mapped(AsSegment, accepted));
      assert AsSegment(accepted[k]) in multiset(segments);
    }
  }

  lemma InBoundsOrder(segments: seq<Segment>)
    requires SortedBy(segments, ByBounds)
    ensures forall i, j :: 0 <= i < j < |segments| ==>
              segments[i].start < segments[j].start || (segments[i].start == segments[j].start && segments[i].end <= segments[j].end)
  {
    forall i, j | 0 <= i < j < |segments|
      ensures segments[i].start < segments[j].start || (segments[i].start == segments[j].start && segments[i].end <= segments[j].end)
    {
      assert ByBounds(segments[i], segments[j]);
    }
  }

  lemma AcceptOne(candidates: seq<Candidate>, project: Project, duration: Option<real>, done: seq<Item>,
                  accepted: seq<Candidate>, winners: seq<Item>, skipped: seq<(Skipped, nat)>, item: Item)
    requires Accounted(candidates, project, duration, done, accepted, winners, skipped)
    requires item.index < |candidates| && item.candidate == candidates[item.index]
    requires SkipReason(item.candidate, project, duration).None? && !Conflicts(item.candidate, project.segments, accepted)
    ensures Accounted(candidates, project, duration, done + [item], accepted + [item.candidate], winners + [item], skipped)
  {
    MapAppend<Item, nat>(Position, done, item);
    MapAppend<Item, nat>(Position, winners, item);
    SkippedStays(skipped, candidates, project, duration, winners, item);
    ClearAppend(accepted, item.candidate);
    AcceptableHere(item.candidate, project, duration, accepted);
    hide Acceptable, Clear, AllSkippedRightly, Conflicts, SkipReason;
  }

  ghost predicate Before(winners: seq<Item>, rest: seq<Item>) {
    forall w <- winners, x <- rest :: ByStart(w, x)
  }

  // ---------------------------------------------------------------- acceptance

  /** One pass in start order.  winners are the accepted candidates with their input positions, skippedAt the input
      positions of the skipped ones. */
  method AcceptCandidates(candidates: seq<Candidate>, project: Project, duration: Option<real>)
    returns (segments: seq<Segment>, accepted: seq<Candidate>, skipped: seq<Skipped>,
             ghost winners: seq<Item>, ghost skippedAt: seq<nat>)
    ensures Named(accepted, winners) && |skippedAt| == |skipped| && Partition(|candidates|, Positions(winners), skippedAt)
    ensures forall k :: 0 <= k < |winners| ==> winners[k].index < |candidates| && accepted[k] == candidates[winners[k].index]
    ensures forall k :: 0 <= k < |skipped| ==> skippedAt[k] < |candidates| && skipped[k].candidate == candidates[skippedAt[k]]
    ensures Increasing(skippedAt)
    ensures forall k :: 0 <= k < |accepted| ==> Acceptable(accepted[k], project, duration)
    ensures Clear(accepted)
    ensures forall k :: 0 <= k < |skipped| ==> RightlySkipped(skipped[k], skippedAt[k], project, duration, winners)
    ensures multiset(segments) == multiset(project.segments) + multiset(Mapped(AsSegment, accepted)) && SortedBy(segments, ByBounds)
    ensures forall k :: 0 <= k < |accepted| ==>
              accepted[k].startMs.Some? && accepted[k].endMs.Some?
              && Segment(accepted[k].startMs.value, accepted[k].endMs.value, accepted[k].source, true) in segments
    ensures forall i, j :: 0 <= i < j < |segments| ==>
              segments[i].start < segments[j].start || (segments[i].start == segments[j].start && segments[i].end <= segments[j].end)
    ensures NonEmptyDisjoint(project.segments) ==> OneAfterAnother(segments)
  {
    hide Partition, Increasing, RightlySkipped, Acceptable, SkipReason, RangeOf, Conflicts, Positions, OriginalPositions, Reasons;
    var items := Indexed(candidates);
    var ordered := Sort(items, ByStart);
    accepted, winners := [], [];
    var skippedWithIndex: seq<(Skipped, nat)> := [];
    NothingYet(candidates, project, duration, ordered);
    for i := 0 to |ordered|
      invariant Accounted(candidates, project, duration, ordered[..i], accepted, winners, skippedWithIndex)
      invariant Before(winners, ordered[i..])
    {
      var candidate, index := ordered[i].candidate, ordered[i].index;
      OriginOf(candidates, ordered, i);
      assert ordered[..i + 1] == ordered[..i] + [ordered[i]];
      assert ordered[i..] == [ordered[i]] + ordered[i + 1..];
      var reason := SkipReason(candidate, project, duration);
      var range := RangeOf(candidate);
      if reason.Some? {
        SkippedForItself(candidate, index, project, duration, winners);
        SkipOne(candidates, project, duration, ordered[..i], accepted, winners, skippedWithIndex, ordered[i], reason.value);
        skippedWithIndex := skippedWithIndex + [(Skipped(candidate, reason.value), index)];
        continue;
      }
      RangeHere(candidate, project, duration);
      if range.None? {
        assert false;
      } else if Conflicts(candidate, project.segments, accepted) {
        SkippedForOthers(ordered[i], project, duration, accepted, winners);
        SkipOne(candidates, project, duration, ordered[..i], accepted, winners, skippedWithIndex, ordered[i], Overlap);
        skippedWithIndex := skippedWithIndex + [(Skipped(candidate, Overlap), index)];
      } else {
        AcceptOne(candidates, project, duration, ordered[..i], accepted, winners, skippedWithIndex, ordered[i]);
        accepted, winners := accepted + [candidate], winners + [ordered[i]];
        assert forall p :: i < p < |ordered| ==> ByStart(ordered[i], ordered[p]);
      }
    }
    assert ordered[..|ordered|] == ordered;
    var bySource := Sort(skippedWithIndex, ByIndex);
    skipped := Reasons(bySource);
    skippedAt := OriginalPositions(bySource);
    AllPlaced(candidates, ordered, winners, skippedWithIndex, bySource);
    SkippedRearranged(skippedWithIndex, bySource, candidates, project, duration, winners);
    SkippedInOrder(bySource, candidates, project, duration, winners);
    SameLength(bySource);
    hide AllSkippedRightly;
    segments := Sort(project.segments + Mapped(AsSegment, accepted), ByBounds);
    AddedAreThere(project, duration, accepted, segments);
    InBoundsOrder(segments);
    if NonEmptyDisjoint(project.segments) {
      StillDisjoint(project, accepted, duration);
      DisjointInOrder(project.segments + Mapped(AsSegment, accepted), segments);
    }
  }

  lemma NothingYet(candidates: seq<Candidate>, project: Project, duration: Option<real>, ordered: seq<Item>)
    ensures Accounted(candidates, project, duration, ordered[..0], [], [], [])
  {}

  lemma SameLength(s: seq<(Skipped, nat)>)
    ensures |Reasons(s)| == |OriginalPositions(s)| == |s|
  {}
}
