/** Included cut ranges, their complement within the media, and the segment validation that makes lengths add up. */
module Ranges {
  import opened Sorting

  datatype Segment = Segment(id: string, start: int, end: int, title: string, included: bool, includedSet: bool)

  const MAX_ID := 128
  const MAX_TITLE := 200

  predicate IsIncluded(s: Segment) {
    !s.includedSet || s.included
  }

  function Gap(start: int, end: int): Segment {
    Segment("", start, end, "", false, false)
  }

  function Included(segments: seq<Segment>): seq<Segment> {
    if segments == [] then []
    else Included(segments[..|segments| - 1]) + if IsIncluded(segments[|segments| - 1]) then [segments[|segments| - 1]] else []
  }

  lemma {:induction false} IncludedConcat(a: seq<Segment>, b: seq<Segment>)
    ensures Included(a + b) == Included(a) + Included(b)
  {
    if b == [] {
      assert a + b == a;
    } else {
      var n := |b| - 1;
      IncludedConcat(a, b[..n]);
      assert (a + b)[..|a + b| - 1] == a + b[..n];
    }
  }

  /** A segment counts as included unless it is explicitly excluded; a list of included segments is made of those of its
      parts, in order. */
  lemma IncludedMeans(a: seq<Segment>, s: Segment, b: seq<Segment>)
    ensures Included(a + [s] + b) == Included(a) + (if s.includedSet && !s.included then [] else [s]) + Included(b)
  {
    IncludedConcat(a + [s], b);
    IncludedConcat(a, [s]);
    assert [s][..0] == [];
  }

  predicate Covers(s: Segment, t: int) {
    s.start <= t < s.end
  }

  ghost predicate Covered(segments: seq<Segment>, t: int) {
    exists i :: 0 <= i < |segments| && Covers(segments[i], t)
  }

  ghost predicate Sorted(s: seq<Segment>) {
    forall i, j :: 0 <= i < j < |s| ==> s[i].start <= s[j].start
  }

  lemma SortedMeans(s: seq<Segment>)
    requires SortedBy(s, ByStart)
    ensures Sorted(s)
  {
    forall i, j | 0 <= i < j < |s| ensures s[i].start <= s[j].start {
      assert ByStart(s[i], s[j]);
    }
  }

  /** The instants a segment may occupy in media of the given duration. */
  ghost predicate Bounded(s: seq<Segment>, duration: int) {
    forall i :: 0 <= i < |s| ==> 0 <= s[i].start < s[i].end <= duration
  }

  function ByStart(a: Segment, b: Segment): bool {
    a.start <= b.start
  }

  // ------------------------------------------------------------- the complement

  /** The gap list that a cursor at the given position still produces. */
  function GapsFrom(ordered: seq<Segment>, cursor: int, duration: int): seq<Segment> {
    if ordered == [] then if cursor < duration then [Gap(cursor, duration)] else []
    else
      var s := ordered[0];
      (if cursor < s.start then [Gap(cursor, s.start)] else [])
      + GapsFrom(ordered[1..], if s.end > cursor then s.end else cursor, duration)
  }

  /** Non-empty, in order, and never touching: the shortest list for the instants it covers. */
  ghost predicate Canonical(s: seq<Segment>) {
    && (forall i :: 0 <= i < |s| ==> s[i] == Gap(s[i].start, s[i].end) && s[i].start < s[i].end)
    && (forall i, j :: 0 <= i < j < |s| ==> s[i].end < s[j].start)
  }

  /** ranges is what one start order of the segments yields; this holds for unbounded input as well. */
  ghost predicate FromOrder(ranges: seq<Segment>, segments: seq<Segment>, duration: int) {
    exists ordered :: StartOrder(segments, ordered) && ranges == GapsFrom(ordered, 0, duration)
  }

  ghost predicate StartOrder(segments: seq<Segment>, ordered: seq<Segment>) {
    Sorted(ordered) && Permutation(segments, ordered)
  }

  method ResolveRanges(segments: seq<Segment>, selection: string, duration: int) returns (ranges: seq<Segment>)
    ensures selection == "segments" ==> ranges == Included(segments)
    ensures selection != "segments" ==> FromOrder(ranges, Included(segments), duration)
    ensures selection != "segments" && Bounded(Included(segments), duration) && duration >= 0 ==> IsComplement(ranges, Included(segments), duration)
  {
    var included: seq<Segment> := [];
    for i := 0 to |segments|
      invariant included == Included(segments[..i])
    {
      assert segments[..i + 1][..i] == segments[..i];
      if IsIncluded(segments[i]) {
        included := included + [segments[i]];
      }
    }
    assert segments[..|segments|] == segments;
    if selection == "segments" {
      return included;
    }
    var ordered := Sort(included, ByStart);
    SortedMeans(ordered);
    ranges := [];
    var cursor := 0;
    assert ordered[0..] == ordered;
    for i := 0 to |ordered|
      invariant ranges + GapsFrom(ordered[i..], cursor, duration) == GapsFrom(ordered, 0, duration)
    {
      var segment := ordered[i];
      GapsStep(ranges, ordered[i..], cursor, duration);
      assert ordered[i..][1..] == ordered[i + 1..];
      if cursor < segment.start {
        ranges := ranges + [Gap(cursor, segment.start)];
      }
      if segment.end > cursor {
        cursor := segment.end;
      }
    }
    assert ranges + GapsFrom([], cursor, duration) == GapsFrom(ordered, 0, duration);
    if cursor < duration {
      ranges := ranges + [Gap(cursor, duration)];
    }
    assert ranges == GapsFrom(ordered, 0, duration);
    assert StartOrder(included, ordered);
    hide GapsFrom, IsComplement, Included;
    if Bounded(included, duration) && duration >= 0 {
      GapComplement(included, ordered, duration);
    }
  }

  lemma GapsStep(done: seq<Segment>, todo: seq<Segment>, cursor: int, duration: int)
    requires todo != []
    ensures var s := todo[0];
      done + GapsFrom(todo, cursor, duration) ==
      (if cursor < s.start then done + [Gap(cursor, s.start)] else done) + GapsFrom(todo[1..], if s.end > cursor then s.end else cursor, duration)
  {}

  /** Every instant of the media lies in a gap or in an included segment, never in both; the gaps are canonical, so an
      instant lies in at most one of them. */
  ghost predicate IsComplement(gaps: seq<Segment>, segments: seq<Segment>, duration: int) {
    && Canonical(gaps) && Bounded(gaps, duration)
    && forall t :: 0 <= t < duration ==> (Covered(gaps, t) <==> !Covered(segments, t))
  }

  lemma CanonicalCons(start: int, end: int, rest: seq<Segment>)
    requires Canonical(rest) && start < end && (forall i :: 0 <= i < |rest| ==> end < rest[i].start)
    ensures Canonical([Gap(start, end)] + rest)
  {}

  ghost predicate Inside(s: seq<Segment>, lo: int, hi: int) {
    forall i :: 0 <= i < |s| ==> lo <= s[i].start && s[i].end <= hi
  }

  lemma {:induction false} GapsFromShape(ordered: seq<Segment>, cursor: int, duration: int)
    requires Sorted(ordered) && Bounded(ordered, duration) && 0 <= cursor <= duration
    ensures Canonical(GapsFrom(ordered, cursor, duration)) && Inside(GapsFrom(ordered, cursor, duration), cursor, duration)
  {
    if ordered != [] {
      var s := ordered[0];
      var next := if s.end > cursor then s.end else cursor;
      assert Sorted(ordered[1..]) && Bounded(ordered[1..], duration) && 0 <= s.start < s.end <= duration;
      hide Sorted, Bounded;
      GapsFromShape(ordered[1..], next, duration);
      var rest, all := GapsFrom(ordered[1..], next, duration), GapsFrom(ordered, cursor, duration);
      assert all == if cursor < s.start then [Gap(cursor, s.start)] + rest else rest;
      hide Canonical, GapsFrom;
      if cursor < s.start {
        CanonicalCons(cursor, s.start, rest);
      }
    }
  }

  lemma {:induction false} GapsFromCover(ordered: seq<Segment>, cursor: int, duration: int, t: int)
    requires Sorted(ordered) && Bounded(ordered, duration) && cursor <= duration
    ensures Covered(GapsFrom(ordered, cursor, duration), t) <==> cursor <= t < duration && !Covered(ordered, t)
  {
    if ordered == [] {
      if cursor < duration { assert GapsFrom(ordered, cursor, duration)[0] == Gap(cursor, duration); }
    } else {
      var s := ordered[0];
      var next := if s.end > cursor then s.end else cursor;
      GapsFromCover(ordered[1..], next, duration, t);
      var rest, all := GapsFrom(ordered[1..], next, duration), GapsFrom(ordered, cursor, duration);
      CoveredCons(s, ordered[1..], t);
      assert [s] + ordered[1..] == ordered;
      if cursor < s.start {
        CoveredCons(Gap(cursor, s.start), rest, t);
        assert all == [Gap(cursor, s.start)] + rest;
        assert t < s.start ==> !Covered(ordered, t);
      } else {
        assert all == rest;
      }
    }
  }

  lemma CoveredCons(x: Segment, s: seq<Segment>, t: int)
    ensures Covered([x] + s, t) <==> Covers(x, t) || Covered(s, t)
  {
    if Covered(s, t) {
      var i :| 0 <= i < |s| && Covers(s[i], t);
      assert ([x] + s)[i + 1] == s[i];
    }
    if Covers(x, t) { assert ([x] + s)[0] == x; }
  }

  lemma CoveredPermutes(a: seq<Segment>, b: seq<Segment>, t: int)
    requires Permutation(a, b)
    ensures Covered(a, t) <==> Covered(b, t)
  {
    if Covered(a, t) { var i :| 0 <= i < |a| && Covers(a[i], t); assert a[i] in multiset(b); }
    if Covered(b, t) { var i :| 0 <= i < |b| && Covers(b[i], t); assert b[i] in multiset(a); }
  }

  lemma BoundedPermutes(a: seq<Segment>, b: seq<Segment>, duration: int)
    requires Permutation(a, b) && Bounded(a, duration)
    ensures Bounded(b, duration)
  {
    forall i | 0 <= i < |b| ensures 0 <= b[i].start < b[i].end <= duration {
      assert b[i] in multiset(a);
    }
  }

  /** Whatever the order and overlap of the segments, the gaps are exactly their complement. */
  lemma GapComplement(segments: seq<Segment>, ordered: seq<Segment>, duration: int)
    requires Sorted(ordered) && Permutation(segments, ordered) && Bounded(segments, duration) && duration >= 0
    ensures IsComplement(GapsFrom(ordered, 0, duration), segments, duration)
  {
    BoundedPermutes(segments, ordered, duration);
    GapsFromShape(ordered, 0, duration);
    forall t | 0 <= t < duration ensures Covered(GapsFrom(ordered, 0, duration), t) <==> !Covered(segments, t) {
      GapsFromCover(ordered, 0, duration, t);
      CoveredPermutes(segments, ordered, t);
    }
  }

  // ------------------------------------------------------------- canonical lists

  ghost predicate SameCover(a: seq<Segment>, b: seq<Segment>) {
    forall t {:trigger Covered(a, t)} {:trigger Covered(b, t)} :: Covered(a, t) <==> Covered(b, t)
  }

  lemma CanonicalHead(a: seq<Segment>, t: int)
    requires Canonical(a) && a != []
    ensures t < a[0].start ==> !Covered(a, t)
    ensures Covers(a[0], t) ==> Covered(a, t)
    ensures t == a[0].end ==> !Covered(a, t)
    ensures Covered(a[1..], t) <==> Covered(a, t) && t > a[0].end
  {
    assert [a[0]] + a[1..] == a;
    CoveredCons(a[0], a[1..], t);
  }

  /** A non-empty canonical list covers something. */
  lemma HeadCovered(a: seq<Segment>, b: seq<Segment>)
    requires Canonical(a) && a != [] && (SameCover(a, b) || SameCover(b, a))
    ensures b != []
  {
    assert Covers(a[0], a[0].start);
    assert Covered(a, a[0].start);
    assert Covered(b, a[0].start);
  }

  lemma SameHead(a: seq<Segment>, b: seq<Segment>)
    requires Canonical(a) && Canonical(b) && SameCover(a, b) && a != [] && b != []
    ensures a[0] == b[0]
  {
    var x, y := a[0], b[0];
    assert Covered(a, x.start) == Covered(b, x.start) && Covered(a, y.start) == Covered(b, y.start);
    assert Covered(a, x.end) == Covered(b, x.end) && Covered(a, y.end) == Covered(b, y.end);
    assert x == Gap(x.start, x.end) && y == Gap(y.start, y.end) && x.start < x.end && y.start < y.end;
    hide Canonical, Covered, SameCover;
    CanonicalHead(a, x.start);
    CanonicalHead(b, x.start);
    CanonicalHead(a, y.start);
    CanonicalHead(b, y.start);
    CanonicalHead(a, x.end);
    CanonicalHead(b, x.end);
    CanonicalHead(a, y.end);
    CanonicalHead(b, y.end);
  }

  /** A canonical list is determined by the instants it covers. */
  lemma {:induction false} CanonicalUnique(a: seq<Segment>, b: seq<Segment>)
    requires Canonical(a) && Canonical(b) && SameCover(a, b)
    ensures a == b
  {
    hide Canonical, Covered, SameCover;
    if a == [] {
      if b != [] { HeadCovered(b, a); }
    } else if b == [] {
      HeadCovered(a, b);
    } else {
      SameHead(a, b);
      SameTail(a, b);
      CanonicalUnique(a[1..], b[1..]);
      assert a == [a[0]] + a[1..] && b == [b[0]] + b[1..];
    }
  }

  lemma SameTail(a: seq<Segment>, b: seq<Segment>)
    requires Canonical(a) && Canonical(b) && SameCover(a, b) && a != [] && b != [] && a[0] == b[0]
    ensures Canonical(a[1..]) && Canonical(b[1..]) && SameCover(a[1..], b[1..])
  {
    forall t ensures Covered(a[1..], t) <==> Covered(b[1..], t) {
      CanonicalHead(a, t);
      CanonicalHead(b, t);
      assert Covered(a, t) <==> Covered(b, t);
    }
  }

  lemma OutsideUncovered(s: seq<Segment>, duration: int, t: int)
    requires Bounded(s, duration) && !(0 <= t < duration)
    ensures !Covered(s, t)
  {}

  /** The gaps do not depend on the order in which the segments are given, nor on how ties were sorted. */
  lemma GapsIgnoreOrder(a: seq<Segment>, b: seq<Segment>, x: seq<Segment>, y: seq<Segment>, duration: int)
    requires Permutation(a, b) && Bounded(a, duration) && duration >= 0
    requires Sorted(x) && Permutation(a, x) && Sorted(y) && Permutation(b, y)
    ensures GapsFrom(x, 0, duration) == GapsFrom(y, 0, duration)
  {
    BoundedPermutes(a, b, duration);
    GapComplement(a, x, duration);
    GapComplement(b, y, duration);
    var g, h := GapsFrom(x, 0, duration), GapsFrom(y, 0, duration);
    forall t ensures Covered(g, t) <==> Covered(h, t) {
      if 0 <= t < duration {
        CoveredPermutes(a, b, t);
      } else {
        OutsideUncovered(g, duration, t);
        OutsideUncovered(h, duration, t);
      }
    }
    CanonicalUnique(g, h);
  }

  /** Taking gaps twice coalesces: the result is the one canonical list over the instants of the segments. */
  lemma GapsOfGaps(segments: seq<Segment>, ordered: seq<Segment>, duration: int)
    requires Sorted(ordered) && Permutation(segments, ordered) && Bounded(segments, duration) && duration >= 0
    ensures var twice := GapsFrom(GapsFrom(ordered, 0, duration), 0, duration);
      Canonical(twice) && forall t :: Covered(twice, t) <==> Covered(segments, t)
  {
    GapComplement(segments, ordered, duration);
    var gaps := GapsFrom(ordered, 0, duration);
    assert Sorted(gaps);
    GapComplement(gaps, gaps, duration);
    var twice := GapsFrom(gaps, 0, duration);
    forall t ensures Covered(twice, t) <==> Covered(segments, t) {
      if !(0 <= t < duration) {
        OutsideUncovered(twice, duration, t);
        OutsideUncovered(segments, duration, t);
      }
    }
  }

  // ---------------------------------------------------------------- validation

  predicate Apart(a: Segment, b: Segment) {
    && (a.end <= b.start || b.end <= a.start)
    && (a.id != "" ==> a.id != b.id)
  }

  predicate FitsMedia(s: Segment, duration: int) {
    && 0 <= s.start < s.end && (duration >= 0 ==> s.end <= duration)
    && |s.id| <= MAX_ID && |s.title| <= MAX_TITLE
  }

  ghost predicate ValidUpTo(s: seq<Segment>, n: nat, duration: int)
    requires n <= |s|
  {
    && (forall i :: 0 <= i < n ==> FitsMedia(s[i], duration))
    && (forall i, j :: 0 <= i < j < n ==> Apart(s[i], s[j]))
  }

  /** What a valid segment list is, in whatever order it is written. */
  ghost predicate ValidSegments(s: seq<Segment>, duration: int) {
    ValidUpTo(s, |s|, duration)
  }

  lemma ValidPermutes(a: seq<Segment>, b: seq<Segment>, duration: int)
    requires Permutation(a, b) && ValidSegments(a, duration)
    ensures ValidSegments(b, duration)
  {
    forall i | 0 <= i < |b| ensures FitsMedia(b[i], duration) { assert b[i] in multiset(a); }
    forall i, j | 0 <= i < j < |b| ensures Apart(b[i], b[j]) {
      var k, l := PairPermutes(b, a, i, j);
    }
  }

  lemma ValidEitherWay(a: seq<Segment>, b: seq<Segment>, duration: int)
    requires Permutation(a, b)
    ensures ValidSegments(a, duration) <==> ValidSegments(b, duration)
  {
    if ValidSegments(a, duration) { ValidPermutes(a, b, duration); }
    if ValidSegments(b, duration) { ValidPermutes(b, a, duration); }
  }

  /** In start order it is enough to compare with the previous end and the ids seen so far. */
  lemma Extended(s: seq<Segment>, i: nat, duration: int, seen: set<string>)
    requires Sorted(s) && i < |s| && ValidUpTo(s, i, duration)
    requires FitsMedia(s[i], duration) && (i > 0 ==> s[i].start >= s[i - 1].end)
    requires s[i].id != "" ==> s[i].id !in seen
    requires forall k :: 0 <= k < i && s[k].id != "" ==> s[k].id in seen
    ensures ValidUpTo(s, i + 1, duration)
  {
    forall k | 0 <= k < i ensures Apart(s[k], s[i]) {
      assert k < i - 1 ==> Apart(s[k], s[i - 1]);
      assert FitsMedia(s[i - 1], duration);
    }
  }

  lemma Refuted(s: seq<Segment>, k: nat, i: nat, duration: int)
    requires k < i < |s| && !Apart(s[k], s[i])
    ensures !ValidSegments(s, duration)
  {}

  method ValidateSegments(segments: seq<Segment>, duration: int) returns (ok: bool)
    ensures ok <==> ValidSegments(segments, duration)
  {
    var ordered := Sort(segments, ByStart);
    SortedMeans(ordered);
    ValidEitherWay(segments, ordered, duration);
    hide Permutation, SortedBy, Sorted;
    var seen: set<string> := {};
    var previousEnd := 0;
    for i := 0 to |ordered|
      invariant ValidUpTo(ordered, i, duration)
      invariant forall k :: 0 <= k < i && ordered[k].id != "" ==> ordered[k].id in seen
      invariant forall x <- seen :: exists k :: 0 <= k < i && ordered[k].id == x
      invariant i > 0 ==> previousEnd == ordered[i - 1].end
    {
      var segment := ordered[i];
      if segment.start < 0 || segment.start >= segment.end || (duration >= 0 && segment.end > duration) {
        assert !FitsMedia(ordered[i], duration);
        return false;
      }
      if segment.id != "" {
        if |segment.id| > MAX_ID {
          assert !FitsMedia(ordered[i], duration);
          return false;
        }
        if segment.id in seen {
          ghost var k :| 0 <= k < i && ordered[k].id == segment.id;
          Refuted(ordered, k, i, duration);
          return false;
        }
      }
      if i > 0 && segment.start < previousEnd {
        PreviousOverlaps(ordered, i, duration);
        return false;
      }
      if |segment.title| > MAX_TITLE {
        assert !FitsMedia(ordered[i], duration);
        return false;
      }
      Extended(ordered, i, duration, seen);
      if segment.id != "" {
        seen := seen + {segment.id};
      }
      previousEnd := segment.end;
    }
    ok := true;
  }

  lemma PreviousOverlaps(s: seq<Segment>, i: nat, duration: int)
    requires Sorted(s) && 0 < i < |s| && s[i].start < s[i - 1].end && s[i].start < s[i].end
    ensures !ValidSegments(s, duration)
  {
    assert s[i - 1].start <= s[i].start;
    Refuted(s, i - 1, i, duration);
  }

  // ------------------------------------------------------------------- lengths

  function Length(s: seq<Segment>): int {
    if s == [] then 0 else s[0].end - s[0].start + Length(s[1..])
  }

  lemma {:induction false} LengthConcat(a: seq<Segment>, b: seq<Segment>)
    ensures Length(a + b) == Length(a) + Length(b)
  {
    if a == [] {
      assert a + b == b;
    } else {
      LengthConcat(a[1..], b);
      assert (a + b)[1..] == a[1..] + b;
    }
  }

  lemma {:induction false} LengthPermutes(a: seq<Segment>, b: seq<Segment>)
    requires Permutation(a, b)
    ensures Length(a) == Length(b)
  {
    if a == [] {
      assert |b| == |multiset(b)| == 0;
    } else {
      assert a[0] in multiset(b);
      var k :| 0 <= k < |b| && b[k] == a[0];
      WithoutOne(a, 0);
      WithoutOne(b, k);
      assert Without(a, 0) == a[1..];
      LengthPermutes(a[1..], Without(b, k));
      LengthWithout(b, k);
    }
  }

  lemma LengthWithout(b: seq<Segment>, k: nat)
    requires k < |b|
    ensures Length(b) == Length(Without(b, k)) + b[k].end - b[k].start
  {
    assert b == b[..k] + b[k..] && b[k..][1..] == b[k + 1..];
    LengthConcat(b[..k], b[k + 1..]);
    LengthConcat(b[..k], b[k..]);
  }

  /** In start order, disjoint segments come one after the other. */
  lemma NextAfter(ordered: seq<Segment>, duration: int)
    requires Sorted(ordered) && ValidSegments(ordered, duration) && ordered != []
    ensures ordered[0].start < ordered[0].end
    ensures duration >= 0 ==> ordered[0].end <= duration
    ensures |ordered| > 1 ==> ordered[0].end <= ordered[1].start
    ensures Sorted(ordered[1..]) && ValidSegments(ordered[1..], duration)
  {
    assert FitsMedia(ordered[0], duration);
    if |ordered| > 1 {
      assert Apart(ordered[0], ordered[1]) && FitsMedia(ordered[1], duration);
    }
  }

  lemma {:induction false} GapsFromLength(ordered: seq<Segment>, cursor: int, duration: int)
    requires Sorted(ordered) && ValidSegments(ordered, duration) && 0 <= cursor <= duration
    requires ordered != [] ==> cursor <= ordered[0].start
    ensures Length(GapsFrom(ordered, cursor, duration)) + Length(ordered) == duration - cursor
  {
    if ordered != [] {
      NextAfter(ordered, duration);
      hide Sorted, ValidSegments;
      var s := ordered[0];
      GapsFromLength(ordered[1..], s.end, duration);
      var rest := GapsFrom(ordered[1..], s.end, duration);
      assert GapsFrom(ordered, cursor, duration) == if cursor < s.start then [Gap(cursor, s.start)] + rest else rest;
      assert cursor < s.start ==> ([Gap(cursor, s.start)] + rest)[1..] == rest;
    }
  }

  lemma {:induction false} IncludedFrom(segments: seq<Segment>, i: nat) returns (k: nat)
    requires i < |Included(segments)|
    ensures k < |segments| && segments[k] == Included(segments)[i]
  {
    var n := |segments| - 1;
    if i < |Included(segments[..n])| {
      k := IncludedFrom(segments[..n], i);
    } else {
      k := n;
    }
  }

  /** Leaving segments out keeps a list valid. */
  lemma {:induction false} IncludedValid(segments: seq<Segment>, duration: int)
    requires ValidSegments(segments, duration)
    ensures ValidSegments(Included(segments), duration)
  {
    if segments != [] {
      var n := |segments| - 1;
      var prior, all := Included(segments[..n]), Included(segments);
      IncludedValid(segments[..n], duration);
      forall i | 0 <= i < |all| ensures FitsMedia(all[i], duration) {
        var k := IncludedFrom(segments, i);
      }
      forall i, j | 0 <= i < j < |all| ensures Apart(all[i], all[j]) {
        if j < |prior| {
          assert Apart(prior[i], prior[j]);
        } else {
          var k := IncludedFrom(segments[..n], i);
          assert Apart(segments[k], segments[n]);
        }
      }
    }
  }

  /** For segments that pass validation, the lengths of the gaps that ResolveRanges yields and of the included segments add
      up to the duration. */
  lemma LengthsAddUp(segments: seq<Segment>, gaps: seq<Segment>, duration: int)
    requires ValidSegments(segments, duration) && duration >= 0 && FromOrder(gaps, Included(segments), duration)
    ensures Length(gaps) + Length(Included(segments)) == duration
  {
    IncludedValid(segments, duration);
    hide Included;
    var ordered :| StartOrder(Included(segments), ordered) && gaps == GapsFrom(ordered, 0, duration);
    ValidPermutes(Included(segments), ordered, duration);
    assert ordered != [] ==> FitsMedia(ordered[0], duration);
    GapsFromLength(ordered, 0, duration);
    LengthPermutes(Included(segments), ordered);
  }
}
