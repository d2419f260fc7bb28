/**
 * Offsetting of transit lines that share street segments, so that lines drawn
 * on the same street fan out side by side instead of being drawn on top of
 * each other.
 *
 * The pipeline is: find the segments shared by pairs of lines and group them
 * by the segment's coordinates (FindOverlapingLines); classify, for each
 * member line, whether it runs along the segment or against it
 * (ManageOverlapingSegmentsData); offset each member by a multiple of three
 * metres and splice the offset coordinates back into the member's own line
 * (ApplyOffset, ReplaceCoordinate); finally drop coordinates with a NaN
 * component (CleanLines).
 *
 * The geometry primitives `lineOverlap` and `lineOffset` are parameters.
 */
module OverlappingLines {
  import opened JsValues

  /** A floating-point coordinate component, as far as `===` can tell. */
  datatype Num = Finite(v: real) | Infinity(negative: bool) | NaN

  /** `a === b` on numbers: NaN is strictly equal to nothing, not even NaN. */
  predicate StrictEq(a: Num, b: Num)
  {
    !a.NaN? && a == b
  }

  /** A [longitude, latitude] position. */
  datatype Coord = Coord(lon: Num, lat: Num)

  /** Componentwise `===`, as the splice and the direction scan compare points. */
  predicate SameCoord(a: Coord, b: Coord)
  {
    StrictEq(a.lon, b.lon) && StrictEq(a.lat, b.lat)
  }

  predicate HasNaN(c: Coord)
  {
    c.lon.NaN? || c.lat.NaN?
  }

  /** The coordinates of a LineString feature. */
  type Line = seq<Coord>

  function Reverse(s: Line): (r: Line)
    ensures |r| == |s|
    ensures forall k :: 0 <= k < |s| ==> r[k] == s[|s| - 1 - k]
  {
    if s == [] then [] else Reverse(s[1..]) + [s[0]]
  }

  // ---------------------------------------------------------------------
  // Splicing an offset segment back into a line (replaceCoordinate)
  // ---------------------------------------------------------------------

  /** The run of `line` that starts at `i` lies inside the line and equals `seg`. */
  predicate MatchesAt(line: Line, seg: Line, i: int)
  {
    0 <= i < |line| && i + |seg| <= |line| &&
    forall k :: 0 <= k < |seg| ==> SameCoord(line[i + k], seg[k])
  }

  /** The first start position at or after `i` where `seg` matches. */
  function FirstMatchFrom(line: Line, seg: Line, i: nat): Option<nat>
    decreases |line| - i
  {
    if i >= |line| then None
    else if MatchesAt(line, seg, i) then Some(i)
    else FirstMatchFrom(line, seg, i + 1)
  }

  function FirstMatch(line: Line, seg: Line): Option<nat>
  {
    FirstMatchFrom(line, seg, 0)
  }

  /** The match found from `i` is the leftmost one at or after `i`; none means no match at all. */
  lemma {:induction false} FirstMatchFromIsLeftmost(line: Line, seg: Line, i: nat)
    ensures FirstMatchFrom(line, seg, i).Some? ==>
      var m := FirstMatchFrom(line, seg, i).value;
      i <= m && MatchesAt(line, seg, m) &&
      forall k :: i <= k < m ==> !MatchesAt(line, seg, k)
    ensures FirstMatchFrom(line, seg, i).None? ==>
      forall k :: i <= k ==> !MatchesAt(line, seg, k)
    decreases |line| - i
  {
    if i < |line| && !MatchesAt(line, seg, i) {
      FirstMatchFromIsLeftmost(line, seg, i + 1);
    }
  }

  /**
   * What replaceCoordinate does to one line: the leftmost run equal to `seg`
   * is overwritten by the first |seg| coordinates of `offset`; with no match
   * the line is returned as it was.
   */
  function Splice(line: Line, seg: Line, offset: Line): Line
    requires |offset| >= |seg|
  {
    match FirstMatch(line, seg)
    case None => line
    case Some(i) =>
      FirstMatchFromIsLeftmost(line, seg, 0);
      line[..i] + offset[..|seg|] + line[i + |seg|..]
  }

  /**
   * Splicing keeps the line's length, writes the offset coordinates exactly
   * into the leftmost matching window and leaves every other position alone.
   */
  lemma SpliceWindow(line: Line, seg: Line, offset: Line)
    requires |offset| >= |seg|
    ensures |Splice(line, seg, offset)| == |line|
    ensures FirstMatch(line, seg).None? ==>
      Splice(line, seg, offset) == line &&
      forall k :: 0 <= k ==> !MatchesAt(line, seg, k)
    ensures FirstMatch(line, seg).Some? ==>
      var i := FirstMatch(line, seg).value;
      MatchesAt(line, seg, i) &&
      (forall k :: 0 <= k < i ==> !MatchesAt(line, seg, k)) &&
      (forall p :: 0 <= p < |line| ==>
        Splice(line, seg, offset)[p] == if i <= p < i + |seg| then offset[p - i] else line[p])
  {
    FirstMatchFromIsLeftmost(line, seg, 0);
    match FirstMatch(line, seg)
    case None =>
      assert Splice(line, seg, offset) == line;
    case Some(i) =>
      WindowWrite(line, offset, |seg|, i);
      assert Splice(line, seg, offset) == line[..i] + offset[..|seg|] + line[i + |seg|..];
  }

  /**
   * Writing the first n coordinates of `offset` over the window at `i` keeps
   * the length and changes only that window.
   */
  lemma WindowWrite(line: Line, offset: Line, n: nat, i: nat)
    requires i + n <= |line| && n <= |offset|
    ensures var out := line[..i] + offset[..n] + line[i + n..];
      |out| == |line| &&
      forall p :: 0 <= p < |line| ==> out[p] == if i <= p < i + n then offset[p - i] else line[p]
  {
  }

  // ---------------------------------------------------------------------
  // Grouping shared segments by their coordinates (findOverlapingLines)
  // ---------------------------------------------------------------------

  /**
   * One entry of the Map from shared segment to the Set of line indices
   * containing it; the Set iterates in insertion order.
   */
  datatype Entry = Entry(segment: Line, ids: seq<nat>)

  /** The Map, as its entries in insertion (and iteration) order. */
  type OverlapMap = seq<Entry>

  ghost predicate Distinct<T>(s: seq<T>)
  {
    forall a, b :: 0 <= a < b < |s| ==> s[a] != s[b]
  }

  /** No segment is a key twice. */
  ghost predicate KeysDistinct(m: OverlapMap)
  {
    forall a, b :: 0 <= a < b < |m| ==> m[a].segment != m[b].segment
  }

  /** `overlapMap.has` / `overlapMap.get`: the position of the entry for `segment`, searching from `n`. */
  function LookupFrom(m: OverlapMap, segment: Line, n: nat): Option<nat>
    decreases |m| - n
  {
    if n >= |m| then None
    else if m[n].segment == segment then Some(n)
    else LookupFrom(m, segment, n + 1)
  }

  function Lookup(m: OverlapMap, segment: Line): Option<nat>
  {
    LookupFrom(m, segment, 0)
  }

  /** The search from `n` finds a position whose entry has the segment as key, or no entry from `n` on has it. */
  lemma {:induction false} LookupFromFacts(m: OverlapMap, segment: Line, n: nat)
    ensures LookupFrom(m, segment, n).Some? ==>
      n <= LookupFrom(m, segment, n).value < |m| && m[LookupFrom(m, segment, n).value].segment == segment
    ensures LookupFrom(m, segment, n).None? ==> forall p :: n <= p < |m| ==> m[p].segment != segment
    decreases |m| - n
  {
    if n < |m| && m[n].segment != segment {
      LookupFromFacts(m, segment, n + 1);
    }
  }

  /** The entry found has the segment as key, and none is found only when no entry has it. */
  lemma LookupFacts(m: OverlapMap, segment: Line)
    ensures Lookup(m, segment).Some? ==>
      Lookup(m, segment).value < |m| && m[Lookup(m, segment).value].segment == segment
    ensures Lookup(m, segment).None? ==> forall p :: 0 <= p < |m| ==> m[p].segment != segment
  {
    LookupFromFacts(m, segment, 0);
  }

  /** `Set.add` on an insertion-ordered set. */
  function SetAdd(s: seq<nat>, x: nat): seq<nat>
  {
    if x in s then s else s + [x]
  }

  /**
   * `Set.add` keeps the earlier members, in order, as a prefix, adds exactly
   * the new element (at the end, when it is new) and keeps members distinct.
   */
  lemma SetAddFacts(s: seq<nat>, x: nat)
    ensures forall y :: y in SetAdd(s, x) <==> y in s || y == x
    ensures Distinct(s) ==> Distinct(SetAdd(s, x))
    ensures |SetAdd(s, x)| >= |s| && SetAdd(s, x)[..|s|] == s
    ensures x !in s ==> SetAdd(s, x)[|s|] == x
  {
  }

  /** Both lines of a pair added to a set, with the facts of each `Set.add`. */
  lemma SetAddPairFacts(s: seq<nat>, i: nat, j: nat)
    ensures forall y :: y in SetAdd(SetAdd(s, i), j) <==> y in s || y == i || y == j
    ensures Distinct(s) ==> Distinct(SetAdd(SetAdd(s, i), j))
  {
    SetAddFacts(s, i);
    SetAddFacts(SetAdd(s, i), j);
  }

  /** Lines `a` < `b` overlap on `s`, according to `lineOverlap`. */
  ghost predicate OverlapOf(features: seq<Line>, lineOverlap: (Line, Line) -> seq<Line>, s: Line, a: int, b: int)
  {
    0 <= a < b < |features| && s in lineOverlap(features[a], features[b])
  }

  /** Entry `n` is the one for `s` and its set holds both `a` and `b`. */
  ghost predicate HoldsAt(m: OverlapMap, n: int, s: Line, a: nat, b: nat)
  {
    0 <= n < |m| && m[n].segment == s && a in m[n].ids && b in m[n].ids
  }

  /** Some entry is the one for `s` and holds both `a` and `b`. */
  ghost predicate Recorded(m: OverlapMap, s: Line, a: nat, b: nat)
  {
    exists n :: HoldsAt(m, n, s, a, b)
  }

  /** Every segment reported for the pair (a, b) has an entry whose set holds a and b. */
  ghost predicate PairRecorded(m: OverlapMap, features: seq<Line>,
                               lineOverlap: (Line, Line) -> seq<Line>, a: nat, b: nat)
    requires a < b < |features|
  {
    forall s :: s in lineOverlap(features[a], features[b]) ==> Recorded(m, s, a, b)
  }

  /** Line `x` is one of the two lines of a pair that `lineOverlap` says share `s`. */
  ghost predicate SharedBy(features: seq<Line>, lineOverlap: (Line, Line) -> seq<Line>, s: Line, x: nat)
  {
    exists a, b :: OverlapOf(features, lineOverlap, s, a, b) && (x == a || x == b)
  }

  /** A sound member set for `s`: two or more distinct valid lines, each one of a pair overlapping on `s`. */
  ghost predicate SoundSet(ids: seq<nat>, features: seq<Line>, lineOverlap: (Line, Line) -> seq<Line>, s: Line)
  {
    |ids| >= 2 && Distinct(ids) &&
    forall x :: x in ids ==> x < |features| && SharedBy(features, lineOverlap, s, x)
  }

  /** The invariant of the grouping: keys are distinct and every set is sound. */
  ghost predicate GroupsSound(m: OverlapMap, features: seq<Line>, lineOverlap: (Line, Line) -> seq<Line>)
  {
    KeysDistinct(m) &&
    forall n :: 0 <= n < |m| ==> SoundSet(m[n].ids, features, lineOverlap, m[n].segment)
  }

  /** `m2` keeps every entry of `m1` in place, with at least its members. */
  ghost predicate Grows(m1: OverlapMap, m2: OverlapMap)
  {
    |m1| <= |m2| &&
    forall n :: 0 <= n < |m1| ==>
      m2[n].segment == m1[n].segment && forall x :: x in m1[n].ids ==> x in m2[n].ids
  }

  lemma RecordedStays(m1: OverlapMap, m2: OverlapMap, features: seq<Line>,
                      lineOverlap: (Line, Line) -> seq<Line>, a: nat, b: nat)
    requires a < b < |features|
    ensures Grows(m1, m2) && PairRecorded(m1, features, lineOverlap, a, b) ==>
      PairRecorded(m2, features, lineOverlap, a, b)
  {
    if Grows(m1, m2) && PairRecorded(m1, features, lineOverlap, a, b) {
      forall s | s in lineOverlap(features[a], features[b]) ensures Recorded(m2, s, a, b) {
        var n :| HoldsAt(m1, n, s, a, b);
        assert HoldsAt(m2, n, s, a, b);
      }
    }
  }

  /** `set.add(i).add(j)` for a pair that overlaps on `segment` makes (or keeps) the set sound. */
  lemma AddPairSound(ids: seq<nat>, features: seq<Line>, lineOverlap: (Line, Line) -> seq<Line>,
                     segment: Line, i: nat, j: nat)
    requires ids == [] || SoundSet(ids, features, lineOverlap, segment)
    requires OverlapOf(features, lineOverlap, segment, i, j)
    ensures SoundSet(SetAdd(SetAdd(ids, i), j), features, lineOverlap, segment)
  {
    var r := SetAdd(SetAdd(ids, i), j);
    SetAddPairFacts(ids, i, j);
    assert i in r && j in r;
    assert |r| >= 2;
    assert SharedBy(features, lineOverlap, segment, i);
    assert SharedBy(features, lineOverlap, segment, j);
    forall x | x in r ensures x < |features| && SharedBy(features, lineOverlap, segment, x) {
      if x != i && x != j {
        assert x in ids;
      }
    }
  }

  /** Adding the pair to the existing entry `n` for `segment` keeps the Map sound and records the pair. */
  lemma UpdateEntrySound(m: OverlapMap, n: nat, features: seq<Line>, lineOverlap: (Line, Line) -> seq<Line>,
                         segment: Line, i: nat, j: nat)
    requires GroupsSound(m, features, lineOverlap)
    requires OverlapOf(features, lineOverlap, segment, i, j)
    requires n < |m| && m[n].segment == segment
    ensures var m' := m[n := Entry(segment, SetAdd(SetAdd(m[n].ids, i), j))];
      GroupsSound(m', features, lineOverlap) && Grows(m, m') && HoldsAt(m', n, segment, i, j)
  {
    var m' := m[n := Entry(segment, SetAdd(SetAdd(m[n].ids, i), j))];
    SetAddPairFacts(m[n].ids, i, j);
    AddPairSound(m[n].ids, features, lineOverlap, segment, i, j);
    forall p | 0 <= p < |m'| ensures SoundSet(m'[p].ids, features, lineOverlap, m'[p].segment) {
      if p != n { assert m'[p] == m[p]; }
    }
    forall a, b | 0 <= a < b < |m'| ensures m'[a].segment != m'[b].segment {
      assert m'[a].segment == m[a].segment && m'[b].segment == m[b].segment;
    }
  }

  /** Appending an entry for a segment that has none, holding the pair, keeps the Map sound and records the pair. */
  lemma AppendEntrySound(m: OverlapMap, features: seq<Line>, lineOverlap: (Line, Line) -> seq<Line>,
                         segment: Line, i: nat, j: nat)
    requires GroupsSound(m, features, lineOverlap)
    requires OverlapOf(features, lineOverlap, segment, i, j)
    requires forall p :: 0 <= p < |m| ==> m[p].segment != segment
    ensures var m' := m + [Entry(segment, SetAdd(SetAdd([], i), j))];
      GroupsSound(m', features, lineOverlap) && Grows(m, m') && HoldsAt(m', |m|, segment, i, j)
  {
    var m' := m + [Entry(segment, SetAdd(SetAdd([], i), j))];
    AddPairSound([], features, lineOverlap, segment, i, j);
    forall p | 0 <= p < |m'| ensures SoundSet(m'[p].ids, features, lineOverlap, m'[p].segment) {
      if p < |m| { assert m'[p] == m[p]; }
    }
    forall a, b | 0 <= a < b < |m'| ensures m'[a].segment != m'[b].segment {
      assert m'[a] == m[a];
      if b < |m| { assert m'[b] == m[b]; }
    }
  }

  /**
   * `overlapMap.get(segment).add(i).add(j)`, after giving the segment an
   * empty entry at the end if it has none.
   */
  function AddPair(m: OverlapMap, segment: Line, i: nat, j: nat): OverlapMap
  {
    LookupFacts(m, segment);
    match Lookup(m, segment)
    case Some(n) => m[n := Entry(segment, SetAdd(SetAdd(m[n].ids, i), j))]
    case None =>
      var created := m + [Entry(segment, [])];
      created[|m| := Entry(segment, SetAdd(SetAdd(created[|m|].ids, i), j))]
  }

  /** Recording that lines i < j overlap on `segment` keeps the Map sound, only grows it, and records the pair. */
  lemma AddPairKeepsSound(m: OverlapMap, segment: Line, i: nat, j: nat,
                          features: seq<Line>, lineOverlap: (Line, Line) -> seq<Line>)
    requires GroupsSound(m, features, lineOverlap)
    requires OverlapOf(features, lineOverlap, segment, i, j)
    ensures GroupsSound(AddPair(m, segment, i, j), features, lineOverlap)
    ensures Grows(m, AddPair(m, segment, i, j))
    ensures Recorded(AddPair(m, segment, i, j), segment, i, j)
  {
    LookupFacts(m, segment);
    match Lookup(m, segment)
    case Some(n) =>
      UpdateEntrySound(m, n, features, lineOverlap, segment, i, j);
      assert HoldsAt(AddPair(m, segment, i, j), n, segment, i, j);
    case None =>
      var created := m + [Entry(segment, [])];
      assert created[|m| := Entry(segment, SetAdd(SetAdd(created[|m|].ids, i), j))]
          == m + [Entry(segment, SetAdd(SetAdd([], i), j))];
      AppendEntrySound(m, features, lineOverlap, segment, i, j);
      assert HoldsAt(AddPair(m, segment, i, j), |m|, segment, i, j);
  }

  /** `m` with the first k segments of `overlap`, in order, recorded for the pair (i, j). */
  function AddFirst(m: OverlapMap, overlap: seq<Line>, k: nat, i: nat, j: nat): OverlapMap
    requires k <= |overlap|
  {
    if k == 0 then m
    else AddPair(AddFirst(m, overlap, k - 1, i, j), overlap[k - 1], i, j)
  }

  /** `m` with every segment of `overlap`, in order, recorded for the pair (i, j). */
  function AddAll(m: OverlapMap, overlap: seq<Line>, i: nat, j: nat): OverlapMap
  {
    AddFirst(m, overlap, |overlap|, i, j)
  }

  lemma GrowsTransitive(m1: OverlapMap, m2: OverlapMap, m3: OverlapMap)
    ensures Grows(m1, m2) && Grows(m2, m3) ==> Grows(m1, m3)
  {
  }

  /** Recording a segment for the pair (i, j) only grows the Map and records the pair under that segment. */
  lemma AddPairGrows(m: OverlapMap, segment: Line, i: nat, j: nat)
    ensures Grows(m, AddPair(m, segment, i, j))
    ensures Recorded(AddPair(m, segment, i, j), segment, i, j)
  {
    LookupFacts(m, segment);
    match Lookup(m, segment)
    case Some(n) =>
      var next := m[n := Entry(segment, SetAdd(SetAdd(m[n].ids, i), j))];
      SetAddPairFacts(m[n].ids, i, j);
      assert next == AddPair(m, segment, i, j);
      forall p | 0 <= p < |m| ensures next[p].segment == m[p].segment && forall x :: x in m[p].ids ==> x in next[p].ids {
        if p != n { assert next[p] == m[p]; }
      }
      assert HoldsAt(next, n, segment, i, j);
    case None =>
      var next := m + [Entry(segment, SetAdd(SetAdd([], i), j))];
      SetAddPairFacts([], i, j);
      assert next == AddPair(m, segment, i, j);
      forall p | 0 <= p < |m| ensures next[p].segment == m[p].segment && forall x :: x in m[p].ids ==> x in next[p].ids {
        assert next[p] == m[p];
      }
      assert HoldsAt(next, |m|, segment, i, j);
  }

  /** Recording segments that `lineOverlap` reports for the pair (i, j) keeps the Map sound. */
  lemma {:induction false} AddFirstKeepsSound(m: OverlapMap, overlap: seq<Line>, k: nat, i: nat, j: nat,
                                              features: seq<Line>, lineOverlap: (Line, Line) -> seq<Line>)
    requires k <= |overlap| && i < j < |features| && GroupsSound(m, features, lineOverlap)
    requires forall s :: s in overlap ==> s in lineOverlap(features[i], features[j])
    ensures GroupsSound(AddFirst(m, overlap, k, i, j), features, lineOverlap)
  {
    if k > 0 {
      AddFirstKeepsSound(m, overlap, k - 1, i, j, features, lineOverlap);
      AddPairKeepsSound(AddFirst(m, overlap, k - 1, i, j), overlap[k - 1], i, j, features, lineOverlap);
    }
  }

  /** Recording a run of segments for the pair (i, j) only grows the Map. */
  lemma {:induction false} AddFirstGrows(m: OverlapMap, overlap: seq<Line>, k: nat, i: nat, j: nat)
    requires k <= |overlap|
    ensures Grows(m, AddFirst(m, overlap, k, i, j))
  {
    if k > 0 {
      AddFirstGrows(m, overlap, k - 1, i, j);
      AddFirstStep(m, overlap, k, i, j);
      GrowsTransitive(m, AddFirst(m, overlap, k - 1, i, j), AddFirst(m, overlap, k, i, j));
    }
  }

  /** Recording a run of segments for the pair (i, j) records each of them with both lines. */
  lemma {:induction false} AddFirstRecords(m: OverlapMap, overlap: seq<Line>, k: nat, i: nat, j: nat)
    requires k <= |overlap|
    ensures forall q :: 0 <= q < k ==> Recorded(AddFirst(m, overlap, k, i, j), overlap[q], i, j)
  {
    if k > 0 {
      AddFirstRecords(m, overlap, k - 1, i, j);
      AddFirstRecordsStep(m, overlap, k, i, j);
    }
  }

  /** Adding segment k - 1 records it and keeps the earlier segments of the run recorded. */
  lemma AddFirstRecordsStep(m: OverlapMap, overlap: seq<Line>, k: nat, i: nat, j: nat)
    requires 0 < k <= |overlap|
    ensures (forall q :: 0 <= q < k - 1 ==> Recorded(AddFirst(m, overlap, k - 1, i, j), overlap[q], i, j)) ==>
      forall q :: 0 <= q < k ==> Recorded(AddFirst(m, overlap, k, i, j), overlap[q], i, j)
  {
    AddFirstStep(m, overlap, k, i, j);
    if forall q :: 0 <= q < k - 1 ==> Recorded(AddFirst(m, overlap, k - 1, i, j), overlap[q], i, j) {
      RecordedRunStays(AddFirst(m, overlap, k - 1, i, j), AddFirst(m, overlap, k, i, j), overlap, k, i, j);
    }
  }

  /** Adding segment k - 1 grows the Map and records that segment with both lines. */
  lemma AddFirstStep(m: OverlapMap, overlap: seq<Line>, k: nat, i: nat, j: nat)
    requires 0 < k <= |overlap|
    ensures Grows(AddFirst(m, overlap, k - 1, i, j), AddFirst(m, overlap, k, i, j))
    ensures Recorded(AddFirst(m, overlap, k, i, j), overlap[k - 1], i, j)
  {
    var prev := AddFirst(m, overlap, k - 1, i, j);
    var next := AddPair(prev, overlap[k - 1], i, j);
    AddPairGrows(prev, overlap[k - 1], i, j);
    AddFirstExtend(m, overlap, k, i, j, prev, next);
  }

  /** A Map that is the first k - 1 segments added with segment k - 1 added is the first k added. */
  lemma AddFirstExtend(m: OverlapMap, overlap: seq<Line>, k: nat, i: nat, j: nat, prev: OverlapMap, next: OverlapMap)
    requires 0 < k <= |overlap|
    requires prev == AddFirst(m, overlap, k - 1, i, j)
    requires next == AddPair(prev, overlap[k - 1], i, j)
    ensures next == AddFirst(m, overlap, k, i, j)
  {
  }

  /**
   * A Map that grows keeps the first k - 1 segments of a run recorded for
   * the pair (i, j); with segment k - 1 recorded as well, all k are.
   */
  lemma RecordedRunStays(m1: OverlapMap, m2: OverlapMap, overlap: seq<Line>, k: nat, i: nat, j: nat)
    requires 0 < k <= |overlap| && Grows(m1, m2)
    requires forall q :: 0 <= q < k - 1 ==> Recorded(m1, overlap[q], i, j)
    requires Recorded(m2, overlap[k - 1], i, j)
    ensures forall q :: 0 <= q < k ==> Recorded(m2, overlap[q], i, j)
  {
    forall q | 0 <= q < k - 1 ensures Recorded(m2, overlap[q], i, j) {
      var p :| HoldsAt(m1, p, overlap[q], i, j);
      assert HoldsAt(m2, p, overlap[q], i, j);
    }
  }

  /** The Map after the pairs (i, i + 1), ..., (i, j - 1) have been added to `m`, in that order. */
  function AddRow(m: OverlapMap, features: seq<Line>, lineOverlap: (Line, Line) -> seq<Line>, i: nat, j: nat): OverlapMap
    requires j <= |features|
  {
    if j <= i + 1 then m
    else AddAll(AddRow(m, features, lineOverlap, i, j - 1), lineOverlap(features[i], features[j - 1]), i, j - 1)
  }

  /** The row up to j is the row up to j - 1 with the pair (i, j - 1) added. */
  lemma AddRowUnfold(m: OverlapMap, features: seq<Line>, lineOverlap: (Line, Line) -> seq<Line>, i: nat, j: nat)
    requires i + 1 < j <= |features|
    ensures AddRow(m, features, lineOverlap, i, j) ==
      AddAll(AddRow(m, features, lineOverlap, i, j - 1), lineOverlap(features[i], features[j - 1]), i, j - 1)
  {
  }

  /** Adding the pair (i, j - 1) to a sound row keeps it sound. */
  lemma AddRowStepSound(m: OverlapMap, features: seq<Line>, lineOverlap: (Line, Line) -> seq<Line>, i: nat, j: nat)
    requires i + 1 < j <= |features|
    requires GroupsSound(AddRow(m, features, lineOverlap, i, j - 1), features, lineOverlap)
    ensures GroupsSound(AddRow(m, features, lineOverlap, i, j), features, lineOverlap)
  {
    var prev := AddRow(m, features, lineOverlap, i, j - 1);
    var overlap := lineOverlap(features[i], features[j - 1]);
    AddFirstKeepsSound(prev, overlap, |overlap|, i, j - 1, features, lineOverlap);
    AddRowExtend(m, features, lineOverlap, i, j - 1, prev, AddAll(prev, overlap, i, j - 1));
  }

  lemma {:induction false} AddRowKeepsSound(m: OverlapMap, features: seq<Line>, lineOverlap: (Line, Line) -> seq<Line>,
                                            i: nat, j: nat)
    requires j <= |features| && GroupsSound(m, features, lineOverlap)
    ensures GroupsSound(AddRow(m, features, lineOverlap, i, j), features, lineOverlap)
  {
    if j > i + 1 {
      AddRowKeepsSound(m, features, lineOverlap, i, j - 1);
      AddRowStepSound(m, features, lineOverlap, i, j);
    }
  }

  /** Adding the pair (i, j - 1) to a row that has grown from `m` leaves it grown from `m`. */
  lemma AddRowStepGrows(m: OverlapMap, features: seq<Line>, lineOverlap: (Line, Line) -> seq<Line>, i: nat, j: nat)
    requires i + 1 < j <= |features|
    ensures Grows(m, AddRow(m, features, lineOverlap, i, j - 1)) ==> Grows(m, AddRow(m, features, lineOverlap, i, j))
  {
    var prev := AddRow(m, features, lineOverlap, i, j - 1);
    var next := AddAll(prev, lineOverlap(features[i], features[j - 1]), i, j - 1);
    AddRowUnfold(m, features, lineOverlap, i, j);
    AddFirstGrows(prev, lineOverlap(features[i], features[j - 1]), |lineOverlap(features[i], features[j - 1])|, i, j - 1);
    GrowsTransitive(m, prev, next);
  }

  lemma {:induction false} AddRowGrows(m: OverlapMap, features: seq<Line>, lineOverlap: (Line, Line) -> seq<Line>,
                                       i: nat, j: nat)
    requires j <= |features|
    ensures Grows(m, AddRow(m, features, lineOverlap, i, j))
  {
    if j > i + 1 {
      AddRowGrows(m, features, lineOverlap, i, j - 1);
      AddRowStepGrows(m, features, lineOverlap, i, j);
    }
  }

  /** Recording a pair's whole overlap records the pair. */
  lemma PairOverlapRecorded(m: OverlapMap, features: seq<Line>, lineOverlap: (Line, Line) -> seq<Line>, i: nat, j: nat)
    requires i < j < |features|
    ensures PairRecorded(AddAll(m, lineOverlap(features[i], features[j]), i, j), features, lineOverlap, i, j)
    ensures Grows(m, AddAll(m, lineOverlap(features[i], features[j]), i, j))
  {
    var overlap := lineOverlap(features[i], features[j]);
    AddFirstGrows(m, overlap, |overlap|, i, j);
    AddFirstRecords(m, overlap, |overlap|, i, j);
    forall s | s in overlap ensures Recorded(AddAll(m, overlap, i, j), s, i, j) {
      var q :| 0 <= q < |overlap| && overlap[q] == s;
    }
  }

  /** Adding the pair (i, j - 1) records it and keeps every earlier pair of the row recorded. */
  lemma AddRowRecordsStep(m: OverlapMap, features: seq<Line>, lineOverlap: (Line, Line) -> seq<Line>, i: nat, j: nat,
                           prev: OverlapMap, next: OverlapMap)
    requires i + 1 < j <= |features|
    requires prev == AddRow(m, features, lineOverlap, i, j - 1) && next == AddRow(m, features, lineOverlap, i, j)
    ensures (forall b :: i < b < j - 1 ==> PairRecorded(prev, features, lineOverlap, i, b)) ==>
      forall b :: i < b < j ==> PairRecorded(next, features, lineOverlap, i, b)
  {
    AddRowUnfold(m, features, lineOverlap, i, j);
    PairOverlapRecorded(prev, features, lineOverlap, i, j - 1);
    if forall b :: i < b < j - 1 ==> PairRecorded(prev, features, lineOverlap, i, b) {
      forall b | i < b < j ensures PairRecorded(next, features, lineOverlap, i, b) {
        if b < j - 1 {
          RecordedStays(prev, next, features, lineOverlap, i, b);
        }
      }
    }
  }

  /** A map that is the row up to j with the pair (i, j) added is the row up to j + 1. */
  lemma AddRowExtend(m: OverlapMap, features: seq<Line>, lineOverlap: (Line, Line) -> seq<Line>, i: nat, j: nat,
                     prev: OverlapMap, next: OverlapMap)
    requires i < j < |features|
    requires prev == AddRow(m, features, lineOverlap, i, j)
    requires next == AddAll(prev, lineOverlap(features[i], features[j]), i, j)
    ensures next == AddRow(m, features, lineOverlap, i, j + 1)
  {
    AddRowUnfold(m, features, lineOverlap, i, j + 1);
  }

  /** After the row of pairs (i, _) up to j, each of those pairs has all its segments recorded. */
  lemma {:induction false} AddRowRecords(m: OverlapMap, features: seq<Line>, lineOverlap: (Line, Line) -> seq<Line>,
                                         i: nat, j: nat)
    requires j <= |features|
    ensures forall b :: i < b < j ==> PairRecorded(AddRow(m, features, lineOverlap, i, j), features, lineOverlap, i, b)
  {
    if j > i + 1 {
      AddRowRecords(m, features, lineOverlap, i, j - 1);
      AddRowRecordsStep(m, features, lineOverlap, i, j,
                        AddRow(m, features, lineOverlap, i, j - 1), AddRow(m, features, lineOverlap, i, j));
    }
  }

  /** The Map after the rows of pairs (0, _), ..., (i - 1, _), in that order. */
  function FindUpTo(features: seq<Line>, lineOverlap: (Line, Line) -> seq<Line>, i: nat): OverlapMap
    requires i <= |features|
  {
    if i == 0 then []
    else AddRow(FindUpTo(features, lineOverlap, i - 1), features, lineOverlap, i - 1, |features|)
  }

  /**
   * The Map findOverlapingLines builds: the pairs i < j in lexicographic
   * order, and each pair's segments in the order `lineOverlap` reports them.
   * This fixes the order of the keys and of every set's members.
   */
  function FindRef(features: seq<Line>, lineOverlap: (Line, Line) -> seq<Line>): OverlapMap
  {
    FindUpTo(features, lineOverlap, if |features| == 0 then 0 else |features| - 1)
  }

  lemma {:induction false} FindUpToSound(features: seq<Line>, lineOverlap: (Line, Line) -> seq<Line>, i: nat)
    requires i <= |features|
    ensures GroupsSound(FindUpTo(features, lineOverlap, i), features, lineOverlap)
  {
    if i > 0 {
      FindUpToSound(features, lineOverlap, i - 1);
      FindUpToRow(features, lineOverlap, i - 1, i,
                  FindUpTo(features, lineOverlap, i - 1), FindUpTo(features, lineOverlap, i));
    }
  }

  /** Adding row i - 1 records its pairs and keeps every pair of the earlier rows recorded. */
  lemma FindUpToRecordsStep(features: seq<Line>, lineOverlap: (Line, Line) -> seq<Line>, i: nat,
                             prev: OverlapMap, next: OverlapMap)
    requires 0 < i <= |features|
    requires prev == FindUpTo(features, lineOverlap, i - 1) && next == FindUpTo(features, lineOverlap, i)
    ensures (forall a, b :: 0 <= a < i - 1 && a < b < |features| ==> PairRecorded(prev, features, lineOverlap, a, b)) ==>
      forall a, b :: 0 <= a < i && a < b < |features| ==> PairRecorded(next, features, lineOverlap, a, b)
  {
    FindUpToRow(features, lineOverlap, i - 1, i, prev, next);
    if forall a, b :: 0 <= a < i - 1 && a < b < |features| ==> PairRecorded(prev, features, lineOverlap, a, b) {
      forall a, b | 0 <= a < i && a < b < |features|
        ensures PairRecorded(next, features, lineOverlap, a, b)
      {
        if a < i - 1 {
          RecordedStays(prev, next, features, lineOverlap, a, b);
        }
      }
    }
  }

  /** Adding row r grows the Map, records every pair (r, _) and keeps a sound Map sound. */
  lemma FindUpToRow(features: seq<Line>, lineOverlap: (Line, Line) -> seq<Line>, r: nat, i: nat,
                    prev: OverlapMap, next: OverlapMap)
    requires r + 1 == i <= |features|
    requires prev == FindUpTo(features, lineOverlap, r) && next == FindUpTo(features, lineOverlap, i)
    ensures Grows(prev, next)
    ensures forall b :: r < b < |features| ==> PairRecorded(next, features, lineOverlap, r, b)
    ensures GroupsSound(prev, features, lineOverlap) ==> GroupsSound(next, features, lineOverlap)
  {
    FindUpToUnfold(features, lineOverlap, i);
    AddRowGrows(prev, features, lineOverlap, r, |features|);
    AddRowRecords(prev, features, lineOverlap, r, |features|);
    if GroupsSound(prev, features, lineOverlap) {
      AddRowKeepsSound(prev, features, lineOverlap, r, |features|);
    }
  }

  /** The Map up to row i is the Map up to row i - 1 with row i - 1 added. */
  lemma FindUpToUnfold(features: seq<Line>, lineOverlap: (Line, Line) -> seq<Line>, i: nat)
    requires 0 < i <= |features|
    ensures FindUpTo(features, lineOverlap, i) ==
      AddRow(FindUpTo(features, lineOverlap, i - 1), features, lineOverlap, i - 1, |features|)
  {
  }

  lemma {:induction false} FindUpToRecords(features: seq<Line>, lineOverlap: (Line, Line) -> seq<Line>, i: nat)
    requires i <= |features|
    ensures forall a, b :: 0 <= a < i && a < b < |features| ==>
      PairRecorded(FindUpTo(features, lineOverlap, i), features, lineOverlap, a, b)
  {
    if i > 0 {
      FindUpToRecords(features, lineOverlap, i - 1);
      FindUpToRecordsStep(features, lineOverlap, i,
                          FindUpTo(features, lineOverlap, i - 1), FindUpTo(features, lineOverlap, i));
    }
  }

  /**
   * The Map has distinct keys, every set holds two or more distinct valid
   * lines that share its key, and for every pair a < b each segment reported
   * for the pair has a set holding both.
   */
  lemma FindRefSound(features: seq<Line>, lineOverlap: (Line, Line) -> seq<Line>)
    ensures GroupsSound(FindRef(features, lineOverlap), features, lineOverlap)
    ensures forall a, b :: 0 <= a < b < |features| ==>
      PairRecorded(FindRef(features, lineOverlap), features, lineOverlap, a, b)
  {
    FindUpToSound(features, lineOverlap, if |features| == 0 then 0 else |features| - 1);
    FindUpToRecords(features, lineOverlap, if |features| == 0 then 0 else |features| - 1);
  }

  /** The body of findOverlapingLines for one pair i < j: every segment of its overlap is recorded in turn. */
  method AddOverlaps(m: OverlapMap, overlap: seq<Line>, i: nat, j: nat) returns (m': OverlapMap)
    ensures m' == AddAll(m, overlap, i, j)
  {
    m' := m;
    for k := 0 to |overlap|
      invariant m' == AddFirst(m, overlap, k, i, j)
    {
      m' := AddPair(m', overlap[k], i, j);
    }
  }

  /** The inner loop of findOverlapingLines: the pairs (i, j) for j = i + 1, ..., in order. */
  method AddRowOfPairs(m: OverlapMap, features: seq<Line>, lineOverlap: (Line, Line) -> seq<Line>, i: nat)
    returns (m': OverlapMap)
    requires i < |features|
    ensures m' == AddRow(m, features, lineOverlap, i, |features|)
  {
    m' := m;
    for j := i + 1 to |features|
      invariant m' == AddRow(m, features, lineOverlap, i, j)
    {
      ghost var prev := m';
      m' := AddOverlaps(m', lineOverlap(features[i], features[j]), i, j);
      AddRowExtend(m, features, lineOverlap, i, j, prev, m');
    }
  }

  /**
   * findOverlapingLines: for every pair i < j and every segment that
   * `lineOverlap` reports for it, the segment's set gains i and j.
   */
  method FindOverlapingLines(features: seq<Line>, lineOverlap: (Line, Line) -> seq<Line>)
    returns (overlapMap: OverlapMap)
    ensures overlapMap == FindRef(features, lineOverlap)
  {
    overlapMap := [];
    var i := 0;
    while i < |features| - 1
      invariant 0 <= i <= |features| && (|features| > 0 ==> i <= |features| - 1)
      invariant overlapMap == FindUpTo(features, lineOverlap, i)
    {
      overlapMap := AddRowOfPairs(overlapMap, features, lineOverlap, i);
      i := i + 1;
    }
  }

  // ---------------------------------------------------------------------
  // Direction of each member line (manageOverlapingSegmentsData)
  // ---------------------------------------------------------------------

  /**
   * Scan `line` from the left: the first vertex equal to `first` gives
   * Some(true), the first equal to `last` gives Some(false), the first-point
   * test being made first; a line touching neither gives None.
   */
  function Classify(line: Line, first: Coord, last: Coord): Option<bool>
  {
    if line == [] then None
    else if SameCoord(line[0], first) then Some(true)
    else if SameCoord(line[0], last) then Some(false)
    else Classify(line[1..], first, last)
  }

  ghost predicate Touches(c: Coord, first: Coord, last: Coord)
  {
    SameCoord(c, first) || SameCoord(c, last)
  }

  /** Vertex k is the first vertex of `line` equal to an endpoint. */
  ghost predicate FirstTouchAt(line: Line, first: Coord, last: Coord, k: int)
  {
    0 <= k < |line| && Touches(line[k], first, last) &&
    forall k' :: 0 <= k' < k ==> !Touches(line[k'], first, last)
  }

  /**
   * The classification is decided by the first vertex that equals either
   * endpoint, and is forward exactly when that vertex equals the first point
   * (so the first point wins when both are equal to it); it is absent
   * exactly when no vertex equals either endpoint.
   */
  lemma {:induction false} ClassifyIsFirstTouch(line: Line, first: Coord, last: Coord)
    ensures Classify(line, first, last).None? <==>
      forall k :: 0 <= k < |line| ==> !Touches(line[k], first, last)
    ensures Classify(line, first, last).Some? ==>
      exists k :: FirstTouchAt(line, first, last, k) &&
        Classify(line, first, last).value == SameCoord(line[k], first)
  {
    if line == [] {
    } else if Touches(line[0], first, last) {
      assert FirstTouchAt(line, first, last, 0);
    } else {
      var tail := line[1..];
      ClassifyIsFirstTouch(tail, first, last);
      if Classify(tail, first, last).Some? {
        var k :| FirstTouchAt(tail, first, last, k) && Classify(tail, first, last).value == SameCoord(tail[k], first);
        assert FirstTouchAt(line, first, last, k + 1) by {
          forall k' | 0 <= k' < k + 1 ensures !Touches(line[k'], first, last) {
            if k' > 0 { assert line[k'] == tail[k' - 1]; }
          }
        }
      } else {
        forall k | 0 <= k < |line| ensures !Touches(line[k], first, last) {
          if k > 0 { assert line[k] == tail[k - 1]; }
        }
      }
    }
  }

  /** The directions list of a group: one entry per classified member, in member order. */
  function Directions(features: seq<Line>, segment: Line, ids: seq<nat>): seq<bool>
    requires |segment| > 0
    requires forall k :: 0 <= k < |ids| ==> ids[k] < |features|
  {
    if ids == [] then []
    else
      var rest := Directions(features, segment, ids[..|ids| - 1]);
      match Classify(features[ids[|ids| - 1]], segment[0], segment[|segment| - 1])
      case Some(b) => rest + [b]
      case None => rest
  }

  /** Unclassified members are dropped, so there are never more directions than members. */
  lemma {:induction false} DirectionsAtMostMembers(features: seq<Line>, segment: Line, ids: seq<nat>)
    requires |segment| > 0
    requires forall k :: 0 <= k < |ids| ==> ids[k] < |features|
    ensures |Directions(features, segment, ids)| <= |ids|
  {
    if ids != [] {
      DirectionsAtMostMembers(features, segment, ids[..|ids| - 1]);
    }
  }

  /** A classified last member contributes the last direction. */
  lemma DirectionsOfClassifiedLast(features: seq<Line>, segment: Line, ids: seq<nat>)
    requires |segment| > 0 && ids != []
    requires forall k :: 0 <= k < |ids| ==> ids[k] < |features|
    requires Classify(features[ids[|ids| - 1]], segment[0], segment[|segment| - 1]).Some?
    ensures Directions(features, segment, ids) ==
      Directions(features, segment, ids[..|ids| - 1]) +
      [Classify(features[ids[|ids| - 1]], segment[0], segment[|segment| - 1]).value]
  {
  }

  /**
   * When every member touches an endpoint, directions and members pair up by
   * position: entry k is member k's classification.
   */
  lemma {:induction false} DirectionsPairWithMembers(features: seq<Line>, segment: Line, ids: seq<nat>)
    requires |segment| > 0
    requires forall k :: 0 <= k < |ids| ==> ids[k] < |features|
    requires forall k :: 0 <= k < |ids| ==> Classify(features[ids[k]], segment[0], segment[|segment| - 1]).Some?
    ensures |Directions(features, segment, ids)| == |ids|
    ensures forall k :: 0 <= k < |ids| ==>
      Directions(features, segment, ids)[k] == Classify(features[ids[k]], segment[0], segment[|segment| - 1]).value
  {
    if ids != [] {
      var init := ids[..|ids| - 1];
      assert forall k :: 0 <= k < |init| ==> init[k] == ids[k];
      DirectionsPairWithMembers(features, segment, init);
      DirectionsOfClassifiedLast(features, segment, ids);
    }
  }

  /** One overlap group: the segment, its member lines and their directions. */
  datatype OverlapGroup = OverlapGroup(segment: Line, crossingLines: seq<nat>, directions: seq<bool>)

  /**
   * manageOverlapingSegmentsData: one group per Map entry, in key order; for
   * each member, scan its coordinates for the segment's first or last point.
   */
  method ManageOverlapingSegmentsData(overlapMap: OverlapMap, features: seq<Line>)
    returns (overlapArray: seq<OverlapGroup>)
    requires forall n :: 0 <= n < |overlapMap| ==> |overlapMap[n].segment| > 0
    requires forall n, k :: 0 <= n < |overlapMap| && 0 <= k < |overlapMap[n].ids| ==> overlapMap[n].ids[k] < |features|
    ensures |overlapArray| == |overlapMap|
    ensures forall n :: 0 <= n < |overlapArray| ==>
      var e := overlapMap[n];
      overlapArray[n] == OverlapGroup(e.segment, e.ids, Directions(features, e.segment, e.ids))
  {
    overlapArray := [];
    for n := 0 to |overlapMap|
      invariant |overlapArray| == n
      invariant forall p :: 0 <= p < n ==>
        var e := overlapMap[p];
        overlapArray[p] == OverlapGroup(e.segment, e.ids, Directions(features, e.segment, e.ids))
    {
      var key := overlapMap[n].segment;
      var value := overlapMap[n].ids;
      var segmentDirections: seq<bool> := [];
      var coordinates := key;
      var firstPoint := coordinates[0];
      var lastPoint := coordinates[|coordinates| - 1];
      for v := 0 to |value|
        invariant segmentDirections == Directions(features, key, value[..v])
      {
        var data := features[value[v]];
        assert value[..v + 1][..v] == value[..v];
        var i := 0;
        while i < |data|
          invariant 0 <= i <= |data|
          invariant Classify(data[i..], firstPoint, lastPoint) == Classify(data, firstPoint, lastPoint)
          invariant segmentDirections == Directions(features, key, value[..v])
        {
          var actualPoint := data[i];
          if SameCoord(actualPoint, firstPoint) {
            segmentDirections := segmentDirections + [true];
            break;
          } else if SameCoord(actualPoint, lastPoint) {
            segmentDirections := segmentDirections + [false];
            break;
          }
          assert data[i..][1..] == data[i + 1..];
          i := i + 1;
        }
        assert segmentDirections == Directions(features, key, value[..v + 1]);
      }
      assert value[..|value|] == value;
      overlapArray := overlapArray + [OverlapGroup(key, value, segmentDirections)];
    }
  }

  // ---------------------------------------------------------------------
  // Offsetting the members of each group (applyOffset)
  // ---------------------------------------------------------------------

  /** How many entries of `dirs` equal `b`. */
  function CountOf(dirs: seq<bool>, b: bool): (r: nat)
    ensures r <= |dirs|
  {
    if dirs == [] then 0
    else CountOf(dirs[..|dirs| - 1], b) + (if dirs[|dirs| - 1] == b then 1 else 0)
  }

  /**
   * The offset distance, in metres, for member j: three times the number of
   * earlier members running in the same direction, counted separately for
   * forward and backward members.
   */
  function MemberDistance(dirs: seq<bool>, j: nat): int
    requires j < |dirs|
  {
    3 * CountOf(dirs[..j], dirs[j])
  }

  /**
   * The segment handed to member j: the segment itself for a forward member,
   * its reverse for a backward one.
   */
  function MemberSegment(seg: Line, dirs: seq<bool>, j: nat): Line
    requires j < |dirs|
  {
    if dirs[j] then seg else Reverse(seg)
  }

  /**
   * The segment member j receives as the loop is written: each backward
   * member reverses the group's one segment object in place, so member j sees
   * it reversed exactly when an odd number of members up to and including j
   * are backward.
   */
  function SegmentAsWritten(seg: Line, dirs: seq<bool>, j: nat): Line
    requires j < |dirs|
  {
    if CountOf(dirs[..j + 1], false) % 2 == 1 then Reverse(seg) else seg
  }

  /** `lineOffset` returns at least as many coordinates as it is given. */
  ghost predicate OffsetKeepsLength(lineOffset: (Line, int) -> Line)
  {
    forall s, d :: |lineOffset(s, d)| >= |s|
  }

  /** The group's directions pair with members by position and every member is a line of the layer. */
  predicate GroupFits(g: OverlapGroup, lineCount: nat)
  {
    |g.directions| <= |g.crossingLines| &&
    forall k :: 0 <= k < |g.crossingLines| ==> g.crossingLines[k] < lineCount
  }

  /** The offset line that member j of group g is given. */
  function MemberOffset(g: OverlapGroup, j: nat, lineOffset: (Line, int) -> Line): Line
    requires j < |g.directions|
  {
    lineOffset(MemberSegment(g.segment, g.directions, j), MemberDistance(g.directions, j))
  }

  /** The layer after the first k members of group g have been offset, in member order. */
  function ApplyMembers(features: seq<Line>, g: OverlapGroup, k: nat, lineOffset: (Line, int) -> Line): (r: seq<Line>)
    requires k <= |g.directions| && GroupFits(g, |features|)
    requires OffsetKeepsLength(lineOffset)
    ensures |r| == |features|
  {
    if k == 0 then features
    else
      var prev := ApplyMembers(features, g, k - 1, lineOffset);
      var id := g.crossingLines[k - 1];
      prev[id := Splice(prev[id], MemberSegment(g.segment, g.directions, k - 1), MemberOffset(g, k - 1, lineOffset))]
  }

  /** The layer after the first n groups have been applied, in group order. */
  function ApplyGroups(features: seq<Line>, groups: seq<OverlapGroup>, n: nat,
                       lineOffset: (Line, int) -> Line): (r: seq<Line>)
    requires n <= |groups| && forall p :: 0 <= p < |groups| ==> GroupFits(groups[p], |features|)
    requires OffsetKeepsLength(lineOffset)
    ensures |r| == |features|
  {
    if n == 0 then features
    else
      var prev := ApplyGroups(features, groups, n - 1, lineOffset);
      ApplyMembers(prev, groups[n - 1], |groups[n - 1].directions|, lineOffset)
  }

  /** Offsetting never changes how many coordinates a line has. */
  lemma {:induction false} ApplyMembersKeepsLineLengths(features: seq<Line>, g: OverlapGroup, k: nat,
                                                        lineOffset: (Line, int) -> Line)
    requires k <= |g.directions| && GroupFits(g, |features|)
    requires OffsetKeepsLength(lineOffset)
    ensures forall l :: 0 <= l < |features| ==> |ApplyMembers(features, g, k, lineOffset)[l]| == |features[l]|
  {
    if k > 0 {
      ApplyMembersKeepsLineLengths(features, g, k - 1, lineOffset);
      var prev := ApplyMembers(features, g, k - 1, lineOffset);
      var id := g.crossingLines[k - 1];
      SpliceWindow(prev[id], MemberSegment(g.segment, g.directions, k - 1), MemberOffset(g, k - 1, lineOffset));
    }
  }

  lemma {:induction false} ApplyGroupsKeepsLineLengths(features: seq<Line>, groups: seq<OverlapGroup>, n: nat,
                                                       lineOffset: (Line, int) -> Line)
    requires n <= |groups| && forall p :: 0 <= p < |groups| ==> GroupFits(groups[p], |features|)
    requires OffsetKeepsLength(lineOffset)
    ensures forall l :: 0 <= l < |features| ==> |ApplyGroups(features, groups, n, lineOffset)[l]| == |features[l]|
  {
    if n > 0 {
      ApplyGroupsKeepsLineLengths(features, groups, n - 1, lineOffset);
      var prev := ApplyGroups(features, groups, n - 1, lineOffset);
      ApplyMembersKeepsLineLengths(prev, groups[n - 1], |groups[n - 1].directions|, lineOffset);
    }
  }

  /** Applying the first k members leaves every line that is not one of theirs unchanged. */
  lemma {:induction false} ApplyMembersLeavesOthers(features: seq<Line>, g: OverlapGroup, k: nat,
                                                    lineOffset: (Line, int) -> Line)
    requires k <= |g.directions| && GroupFits(g, |features|)
    requires OffsetKeepsLength(lineOffset)
    ensures forall l :: 0 <= l < |features| && l !in g.crossingLines[..k] ==>
      ApplyMembers(features, g, k, lineOffset)[l] == features[l]
  {
    if k > 0 {
      ApplyMembersLeavesOthers(features, g, k - 1, lineOffset);
      assert g.crossingLines[..k] == g.crossingLines[..k - 1] + [g.crossingLines[k - 1]];
    }
  }

  /** With distinct members, the members after j leave member j's line as member j left it. */
  lemma {:induction false} ApplyMembersLaterKeep(features: seq<Line>, g: OverlapGroup, j: nat, k: nat,
                                                 lineOffset: (Line, int) -> Line)
    requires j < k <= |g.directions| && GroupFits(g, |features|)
    requires OffsetKeepsLength(lineOffset)
    requires Distinct(g.crossingLines)
    ensures ApplyMembers(features, g, k, lineOffset)[g.crossingLines[j]] ==
            ApplyMembers(features, g, j + 1, lineOffset)[g.crossingLines[j]]
    decreases k
  {
    if k > j + 1 {
      ApplyMembersLaterKeep(features, g, j, k - 1, lineOffset);
      assert g.crossingLines[k - 1] != g.crossingLines[j];
    }
  }

  /** Member j's line after member j: its original coordinates with member j's splice. */
  lemma ApplyMembersAtMember(features: seq<Line>, g: OverlapGroup, j: nat, lineOffset: (Line, int) -> Line)
    requires j < |g.directions| && GroupFits(g, |features|)
    requires OffsetKeepsLength(lineOffset)
    requires Distinct(g.crossingLines)
    ensures ApplyMembers(features, g, j + 1, lineOffset)[g.crossingLines[j]] ==
      Splice(features[g.crossingLines[j]], MemberSegment(g.segment, g.directions, j), MemberOffset(g, j, lineOffset))
  {
    var id := g.crossingLines[j];
    ApplyMembersLeavesOthers(features, g, j, lineOffset);
    assert id !in g.crossingLines[..j] by {
      forall q | 0 <= q < j ensures g.crossingLines[q] != id {
      }
    }
    var prev := ApplyMembers(features, g, j, lineOffset);
    assert prev[id] == features[id];
    var next := prev[id := Splice(prev[id], MemberSegment(g.segment, g.directions, j), MemberOffset(g, j, lineOffset))];
    assert next == ApplyMembers(features, g, j + 1, lineOffset);
  }

  /**
   * With distinct members, applying the first k members touches exactly
   * their lines: member j's line becomes its own splice, every other line
   * is left unchanged.
   */
  lemma ApplyMembersPerLine(features: seq<Line>, g: OverlapGroup, k: nat, lineOffset: (Line, int) -> Line)
    requires k <= |g.directions| && GroupFits(g, |features|)
    requires OffsetKeepsLength(lineOffset)
    requires Distinct(g.crossingLines)
    ensures forall l :: 0 <= l < |features| && l !in g.crossingLines[..k] ==>
      ApplyMembers(features, g, k, lineOffset)[l] == features[l]
    ensures forall j :: 0 <= j < k ==>
      var id := g.crossingLines[j];
      ApplyMembers(features, g, k, lineOffset)[id] ==
        Splice(features[id], MemberSegment(g.segment, g.directions, j), MemberOffset(g, j, lineOffset))
  {
    ApplyMembersLeavesOthers(features, g, k, lineOffset);
    forall j | 0 <= j < k
      ensures ApplyMembers(features, g, k, lineOffset)[g.crossingLines[j]] ==
        Splice(features[g.crossingLines[j]], MemberSegment(g.segment, g.directions, j), MemberOffset(g, j, lineOffset))
    {
      ApplyMembersLaterKeep(features, g, j, k, lineOffset);
      ApplyMembersAtMember(features, g, j, lineOffset);
    }
  }

  lemma {:induction false} CountOfPrefix(dirs: seq<bool>, b: bool, j1: nat, j2: nat)
    requires j1 <= j2 <= |dirs|
    ensures CountOf(dirs[..j1], b) <= CountOf(dirs[..j2], b)
    ensures j1 < j2 && dirs[j1] == b ==> CountOf(dirs[..j1], b) < CountOf(dirs[..j2], b)
    decreases j2 - j1
  {
    if j1 < j2 {
      CountOfPrefix(dirs, b, j1, j2 - 1);
      assert dirs[..j2][..j2 - 1] == dirs[..j2 - 1];
      if j1 == j2 - 1 {
        assert dirs[..j2][j2 - 1] == dirs[j1];
      }
    }
  }

  /**
   * Members running the same way fan out: a later one is offset at least
   * three metres further than an earlier one, so no two of them coincide.
   */
  lemma SameDirectionFansOut(dirs: seq<bool>, j1: nat, j2: nat)
    requires j1 < j2 < |dirs| && dirs[j1] == dirs[j2]
    ensures MemberDistance(dirs, j1) + 3 <= MemberDistance(dirs, j2)
  {
    CountOfPrefix(dirs, dirs[j1], j1, j2);
  }

  lemma {:induction false} CountOfZero(dirs: seq<bool>, b: bool)
    ensures CountOf(dirs, b) == 0 <==> forall k :: 0 <= k < |dirs| ==> dirs[k] != b
  {
    if dirs != [] {
      CountOfZero(dirs[..|dirs| - 1], b);
      var init := dirs[..|dirs| - 1];
      assert forall k :: 0 <= k < |init| ==> init[k] == dirs[k];
    }
  }

  /** A member is drawn in place (offset 0) exactly when it is the first member running its way. */
  lemma FirstOfDirectionNotOffset(dirs: seq<bool>, j: nat)
    requires j < |dirs|
    ensures MemberDistance(dirs, j) == 0 <==> forall k :: 0 <= k < j ==> dirs[k] != dirs[j]
  {
    CountOfZero(dirs[..j], dirs[j]);
    assert forall k :: 0 <= k < j ==> dirs[..j][k] == dirs[k];
  }

  /**
   * When direction j is member j's own classification, the segment the
   * member is handed has the segment's length and starts with the vertex of
   * the member's line that first touched an endpoint: the first point for a
   * forward member, the last point for a backward one. After an unclassified
   * member the pairing by position breaks and `dirs[j]` belongs to another
   * line, which is why the classification is a precondition.
   */
  lemma MemberSegmentStartsWhereMemberMeetsIt(features: seq<Line>, g: OverlapGroup, j: nat)
    requires |g.segment| > 0 && j < |g.directions| && j < |g.crossingLines| && g.crossingLines[j] < |features|
    requires Classify(features[g.crossingLines[j]], g.segment[0], g.segment[|g.segment| - 1]) == Some(g.directions[j])
    ensures |MemberSegment(g.segment, g.directions, j)| == |g.segment|
    ensures exists k :: (FirstTouchAt(features[g.crossingLines[j]], g.segment[0], g.segment[|g.segment| - 1], k) &&
      MemberSegment(g.segment, g.directions, j)[0] == features[g.crossingLines[j]][k])
  {
    var line := features[g.crossingLines[j]];
    var first, last := g.segment[0], g.segment[|g.segment| - 1];
    ClassifyIsFirstTouch(line, first, last);
    var k :| FirstTouchAt(line, first, last, k) && Classify(line, first, last).value == SameCoord(line[k], first);
    if g.directions[j] {
      assert SameCoord(line[k], first);
    } else {
      assert SameCoord(line[k], last);
      assert Reverse(g.segment)[0] == last;
    }
    assert MemberSegment(g.segment, g.directions, j)[0] == line[k];
  }

  /**
   * A group on the segment a -> b whose first member runs backward and whose
   * second runs forward. As the loop is written, the forward member is handed
   * the segment still reversed by the backward one, b -> a, which does not
   * occur in its line a -> b, so that line is left exactly as it was instead
   * of being offset.
   */
  lemma ForwardMemberAfterBackwardIsSkippedAsWritten(offset: Line)
    requires |offset| >= 2
    ensures
      var a := Coord(Finite(0.0), Finite(0.0));
      var b := Coord(Finite(1.0), Finite(0.0));
      var dirs := [false, true];
      Classify([a, b], a, b) == Some(true) &&
      SegmentAsWritten([a, b], dirs, 1) == [b, a] &&
      Splice([a, b], SegmentAsWritten([a, b], dirs, 1), offset) == [a, b] &&
      MemberSegment([a, b], dirs, 1) == [a, b] &&
      Splice([a, b], MemberSegment([a, b], dirs, 1), offset) == offset[..2]
  {
    var a := Coord(Finite(0.0), Finite(0.0));
    var b := Coord(Finite(1.0), Finite(0.0));
    var dirs := [false, true];
    assert dirs[..2] == dirs;
    assert CountOf(dirs, false) == 1 by {
      assert dirs[..1] == [false];
      assert [false][..0] == [];
    }
    assert Reverse([a, b]) == [b, a] by {
      assert [a, b][1..] == [b];
      assert Reverse([b]) == [b] by { assert [b][1..] == []; }
    }
    SpliceWindow([a, b], [b, a], offset);
    assert !SameCoord([a, b][0], [b, a][0]);
    assert !MatchesAt([a, b], [b, a], 0) && !MatchesAt([a, b], [b, a], 1);
    assert FirstMatch([a, b], [b, a]).None?;
    assert MatchesAt([a, b], [a, b], 0);
    assert FirstMatch([a, b], [a, b]) == Some(0);
  }

  /**
   * As written, member j is handed the intended segment exactly when an even
   * number of earlier members run backward, and the opposite orientation
   * otherwise.
   */
  lemma SegmentAsWrittenParity(seg: Line, dirs: seq<bool>, j: nat)
    requires j < |dirs|
    ensures CountOf(dirs[..j], false) % 2 == 0 ==> SegmentAsWritten(seg, dirs, j) == MemberSegment(seg, dirs, j)
    ensures CountOf(dirs[..j], false) % 2 == 1 ==>
      SegmentAsWritten(seg, dirs, j) == if dirs[j] then Reverse(seg) else seg
  {
    var upTo := dirs[..j + 1];
    assert upTo[..|upTo| - 1] == dirs[..j] && upTo[|upTo| - 1] == dirs[j];
    var before := CountOf(dirs[..j], false);
    assert CountOf(upTo, false) == before + (if dirs[j] then 0 else 1);
  }

  /** The offset line member j of group g is given as the loop is written. */
  function MemberOffsetAsWritten(g: OverlapGroup, j: nat, lineOffset: (Line, int) -> Line): Line
    requires j < |g.directions|
  {
    lineOffset(SegmentAsWritten(g.segment, g.directions, j), MemberDistance(g.directions, j))
  }

  /**
   * The layer after the first k members of group g, as the loop is written:
   * each member is spliced with the segment in the orientation the earlier
   * backward members left it.
   */
  function ApplyMembersAsWritten(features: seq<Line>, g: OverlapGroup, k: nat,
                                 lineOffset: (Line, int) -> Line): (r: seq<Line>)
    requires k <= |g.directions| && GroupFits(g, |features|)
    requires OffsetKeepsLength(lineOffset)
    ensures |r| == |features|
  {
    if k == 0 then features
    else
      var prev := ApplyMembersAsWritten(features, g, k - 1, lineOffset);
      var id := g.crossingLines[k - 1];
      prev[id := Splice(prev[id], SegmentAsWritten(g.segment, g.directions, k - 1), MemberOffsetAsWritten(g, k - 1, lineOffset))]
  }

  /** The layer after the first n groups, as the loop is written. */
  function ApplyGroupsAsWritten(features: seq<Line>, groups: seq<OverlapGroup>, n: nat,
                                lineOffset: (Line, int) -> Line): (r: seq<Line>)
    requires n <= |groups| && forall p :: 0 <= p < |groups| ==> GroupFits(groups[p], |features|)
    requires OffsetKeepsLength(lineOffset)
    ensures |r| == |features|
  {
    if n == 0 then features
    else
      var prev := ApplyGroupsAsWritten(features, groups, n - 1, lineOffset);
      ApplyMembersAsWritten(prev, groups[n - 1], |groups[n - 1].directions|, lineOffset)
  }

  /** As written, offsetting a group's members never changes how many coordinates a line has. */
  lemma {:induction false} ApplyMembersAsWrittenKeepsLineLengths(features: seq<Line>, g: OverlapGroup, k: nat,
                                                                 lineOffset: (Line, int) -> Line)
    requires k <= |g.directions| && GroupFits(g, |features|)
    requires OffsetKeepsLength(lineOffset)
    ensures forall l :: 0 <= l < |features| ==> |ApplyMembersAsWritten(features, g, k, lineOffset)[l]| == |features[l]|
  {
    if k > 0 {
      ApplyMembersAsWrittenKeepsLineLengths(features, g, k - 1, lineOffset);
      var prev := ApplyMembersAsWritten(features, g, k - 1, lineOffset);
      var id := g.crossingLines[k - 1];
      SpliceWindow(prev[id], SegmentAsWritten(g.segment, g.directions, k - 1), MemberOffsetAsWritten(g, k - 1, lineOffset));
    }
  }

  /** As written, offsetting all groups never changes how many coordinates a line has. */
  lemma {:induction false} ApplyGroupsAsWrittenKeepsLineLengths(features: seq<Line>, groups: seq<OverlapGroup>, n: nat,
                                                                lineOffset: (Line, int) -> Line)
    requires n <= |groups| && forall p :: 0 <= p < |groups| ==> GroupFits(groups[p], |features|)
    requires OffsetKeepsLength(lineOffset)
    ensures forall l :: 0 <= l < |features| ==> |ApplyGroupsAsWritten(features, groups, n, lineOffset)[l]| == |features[l]|
  {
    if n > 0 {
      ApplyGroupsAsWrittenKeepsLineLengths(features, groups, n - 1, lineOffset);
      var prev := ApplyGroupsAsWritten(features, groups, n - 1, lineOffset);
      ApplyMembersAsWrittenKeepsLineLengths(prev, groups[n - 1], |groups[n - 1].directions|, lineOffset);
    }
  }

  /** As written, applying the first k members leaves every line that is not one of theirs unchanged. */
  lemma {:induction false} ApplyMembersAsWrittenLeavesOthers(features: seq<Line>, g: OverlapGroup, k: nat,
                                                             lineOffset: (Line, int) -> Line)
    requires k <= |g.directions| && GroupFits(g, |features|)
    requires OffsetKeepsLength(lineOffset)
    ensures forall l :: 0 <= l < |features| && l !in g.crossingLines[..k] ==>
      ApplyMembersAsWritten(features, g, k, lineOffset)[l] == features[l]
  {
    if k > 0 {
      ApplyMembersAsWrittenLeavesOthers(features, g, k - 1, lineOffset);
      assert g.crossingLines[..k] == g.crossingLines[..k - 1] + [g.crossingLines[k - 1]];
    }
  }

  /**
   * As written, member j's line after member j is its original coordinates
   * spliced with the offset of the segment in the orientation the earlier
   * backward members left it.
   */
  lemma ApplyMembersAsWrittenAtMember(features: seq<Line>, g: OverlapGroup, j: nat, lineOffset: (Line, int) -> Line)
    requires j < |g.directions| && GroupFits(g, |features|)
    requires OffsetKeepsLength(lineOffset)
    requires Distinct(g.crossingLines)
    ensures ApplyMembersAsWritten(features, g, j + 1, lineOffset)[g.crossingLines[j]] ==
      Splice(features[g.crossingLines[j]], SegmentAsWritten(g.segment, g.directions, j), MemberOffsetAsWritten(g, j, lineOffset))
  {
    var id := g.crossingLines[j];
    ApplyMembersAsWrittenLeavesOthers(features, g, j, lineOffset);
    assert id !in g.crossingLines[..j] by {
      forall q | 0 <= q < j ensures g.crossingLines[q] != id {
      }
    }
    var prev := ApplyMembersAsWritten(features, g, j, lineOffset);
    assert prev[id] == features[id];
    var next := prev[id := Splice(prev[id], SegmentAsWritten(g.segment, g.directions, j), MemberOffsetAsWritten(g, j, lineOffset))];
    assert next == ApplyMembersAsWritten(features, g, j + 1, lineOffset);
  }

  /** Every member of the group has an even number of earlier backward members. */
  predicate EvenBackwardBefore(dirs: seq<bool>)
  {
    forall j :: 0 <= j < |dirs| ==> CountOf(dirs[..j], false) % 2 == 0
  }

  /**
   * The pass as written and the intended pass agree on a group whose
   * members each have an even number of earlier backward members.
   */
  lemma {:induction false} AsWrittenMembersAgree(features: seq<Line>, g: OverlapGroup, k: nat,
                                                 lineOffset: (Line, int) -> Line)
    requires k <= |g.directions| && GroupFits(g, |features|)
    requires OffsetKeepsLength(lineOffset)
    requires EvenBackwardBefore(g.directions)
    ensures ApplyMembersAsWritten(features, g, k, lineOffset) == ApplyMembers(features, g, k, lineOffset)
  {
    if k > 0 {
      AsWrittenMembersAgree(features, g, k - 1, lineOffset);
      SegmentAsWrittenParity(g.segment, g.directions, k - 1);
    }
  }

  /** The same for the whole pass, when every group has that shape. */
  lemma {:induction false} AsWrittenGroupsAgree(features: seq<Line>, groups: seq<OverlapGroup>, n: nat,
                                                lineOffset: (Line, int) -> Line)
    requires n <= |groups| && forall p :: 0 <= p < |groups| ==> GroupFits(groups[p], |features|)
    requires OffsetKeepsLength(lineOffset)
    requires forall p :: 0 <= p < |groups| ==> EvenBackwardBefore(groups[p].directions)
    ensures ApplyGroupsAsWritten(features, groups, n, lineOffset) == ApplyGroups(features, groups, n, lineOffset)
  {
    if n > 0 {
      AsWrittenGroupsAgree(features, groups, n - 1, lineOffset);
      var prev := ApplyGroups(features, groups, n - 1, lineOffset);
      AsWrittenMembersAgree(prev, groups[n - 1], |groups[n - 1].directions|, lineOffset);
    }
  }

  /** In a group of that shape, the members up to j < last all run forward. */
  lemma {:induction false} EvenBackwardForcesForward(dirs: seq<bool>, j: nat)
    requires EvenBackwardBefore(dirs) && j < |dirs| - 1
    ensures forall q :: 0 <= q <= j ==> dirs[q]
    ensures CountOf(dirs[..j + 1], false) == 0
  {
    if j > 0 {
      EvenBackwardForcesForward(dirs, j - 1);
    } else {
      assert dirs[..0] == [];
    }
    var upTo := dirs[..j + 1];
    assert upTo[..|upTo| - 1] == dirs[..j] && upTo[|upTo| - 1] == dirs[j];
    assert CountOf(dirs[..j + 1], false) % 2 == 0;
  }

  /** A group has that shape exactly when every member but the last runs forward. */
  lemma EvenBackwardBeforeIffForwardPrefix(dirs: seq<bool>)
    ensures EvenBackwardBefore(dirs) <==> forall j :: 0 <= j < |dirs| - 1 ==> dirs[j]
  {
    if forall j :: 0 <= j < |dirs| - 1 ==> dirs[j] {
      forall j | 0 <= j < |dirs| ensures CountOf(dirs[..j], false) % 2 == 0 {
        CountOfZero(dirs[..j], false);
        assert forall q :: 0 <= q < j ==> dirs[..j][q] == dirs[q];
      }
    } else if EvenBackwardBefore(dirs) {
      EvenBackwardForcesForward(dirs, |dirs| - 2);
    }
  }

  // ---------------------------------------------------------------------
  // Dropping NaN coordinates (cleanLines)
  // ---------------------------------------------------------------------

  /** The coordinates of `line` with neither component NaN, in their order. */
  function Clean(line: Line): (r: Line)
    ensures |r| <= |line|
  {
    if line == [] then []
    else
      var init := Clean(line[..|line| - 1]);
      if HasNaN(line[|line| - 1]) then init else init + [line[|line| - 1]]
  }

  /** Cleaning keeps exactly the coordinates without a NaN component. */
  lemma {:induction false} CleanMembers(line: Line)
    ensures forall c :: c in Clean(line) <==> c in line && !HasNaN(c)
  {
    if line != [] {
      CleanMembers(line[..|line| - 1]);
      assert line == line[..|line| - 1] + [line[|line| - 1]];
    }
  }

  /** Cleaning distributes over concatenation, so it keeps the order of what it keeps. */
  lemma {:induction false} CleanAppend(a: Line, b: Line)
    ensures Clean(a + b) == Clean(a) + Clean(b)
    decreases |b|
  {
    if b == [] {
      assert a + b == a;
    } else {
      var b' := b[..|b| - 1];
      CleanAppend(a, b');
      assert (a + b)[..|a + b| - 1] == a + b';
    }
  }

  /** A line without NaN coordinates is left as it is, and cleaning twice is cleaning once. */
  lemma {:induction false} CleanKeepsCleanLines(line: Line)
    ensures (forall k :: 0 <= k < |line| ==> !HasNaN(line[k])) ==> Clean(line) == line
    ensures Clean(Clean(line)) == Clean(line)
  {
    if line != [] {
      CleanKeepsCleanLines(line[..|line| - 1]);
      var init := Clean(line[..|line| - 1]);
      if !HasNaN(line[|line| - 1]) {
        assert (init + [line[|line| - 1]])[..|init|] == init;
      }
      assert line[..|line| - 1] + [line[|line| - 1]] == line;
    }
  }

  // ---------------------------------------------------------------------
  // The whole pipeline (manageOverlappingLines)
  // ---------------------------------------------------------------------

  /** `lineOverlap` never reports an empty segment. */
  ghost predicate SegmentsNonEmpty(lineOverlap: (Line, Line) -> seq<Line>)
  {
    forall a, b, s :: s in lineOverlap(a, b) ==> |s| > 0
  }

  /** A group as the pipeline builds it: a sound member set with its members' directions. */
  ghost predicate GroupSound(g: OverlapGroup, features: seq<Line>, lineOverlap: (Line, Line) -> seq<Line>)
  {
    |g.segment| > 0 && SoundSet(g.crossingLines, features, lineOverlap, g.segment) &&
    (forall k :: 0 <= k < |g.crossingLines| ==> g.crossingLines[k] < |features|) &&
    g.directions == Directions(features, g.segment, g.crossingLines)
  }

  /** Every segment reported for lines a < b is the segment of a group holding both. */
  ghost predicate PairGrouped(groups: seq<OverlapGroup>, features: seq<Line>,
                              lineOverlap: (Line, Line) -> seq<Line>, a: nat, b: nat)
    requires a < b < |features|
  {
    forall s :: s in lineOverlap(features[a], features[b]) ==>
      exists n :: 0 <= n < |groups| && groups[n].segment == s && a in groups[n].crossingLines && b in groups[n].crossingLines
  }

  /** The entries of a sound Map name non-empty segments and valid lines. */
  lemma SoundEntriesFit(m: OverlapMap, features: seq<Line>, lineOverlap: (Line, Line) -> seq<Line>)
    requires GroupsSound(m, features, lineOverlap) && SegmentsNonEmpty(lineOverlap)
    ensures forall n :: 0 <= n < |m| ==> |m[n].segment| > 0
    ensures forall n, k :: 0 <= n < |m| && 0 <= k < |m[n].ids| ==> m[n].ids[k] < |features|
  {
    forall n | 0 <= n < |m| ensures |m[n].segment| > 0 {
      assert m[n].ids[0] in m[n].ids;
      var a, b :| OverlapOf(features, lineOverlap, m[n].segment, a, b);
    }
    forall n, k | 0 <= n < |m| && 0 <= k < |m[n].ids| ensures m[n].ids[k] < |features| {
      assert m[n].ids[k] in m[n].ids;
    }
  }

  // ---------------------------------------------------------------------
  // The feature collection, mutated in place
  // ---------------------------------------------------------------------

  /**
   * The forEach over the segment's coordinates in replaceCoordinate: every
   * coordinate is visited, and the run matches at `i` when each one lies
   * inside the line and equals the line's coordinate at its offset.
   */
  method WindowMatches(line: Line, seg: Line, i: nat) returns (matched: bool)
    requires i < |line|
    ensures matched == MatchesAt(line, seg, i)
  {
    matched := true;
    var index := 0;
    while index < |seg|
      invariant 0 <= index <= |seg|
      invariant matched <==>
        (i + index <= |line| && forall k :: 0 <= k < index ==> SameCoord(line[i + k], seg[k]))
    {
      if i + index >= |line| {
        matched := false;
      } else if !SameCoord(line[i + index], seg[index]) {
        matched := false;
      }
      index := index + 1;
    }
  }

  /** A LineString feature collection; `features[k]` is line k's coordinates. */
  class Layer {
    var features: seq<Line>

    constructor (features: seq<Line>)
      ensures this.features == features
    {
      this.features := features;
    }

    /**
     * replaceCoordinate: scan start positions of line `lineId` left to right,
     * compare every coordinate of `lineToReplace` against the run there, and
     * at the first full match overwrite the run with `offsetLine` and stop.
     */
    method ReplaceCoordinate(lineToReplace: Line, offsetLine: Line, lineId: nat)
      requires lineId < |features|
      requires |offsetLine| >= |lineToReplace|
      modifies this
      ensures features == old(features)[lineId := Splice(old(features)[lineId], lineToReplace, offsetLine)]
    {
      var line := features[lineId];
      var length := |lineToReplace|;
      var i := 0;
      while i < |line|
        invariant 0 <= i <= |line|
        invariant FirstMatchFrom(line, lineToReplace, i) == FirstMatch(line, lineToReplace)
        invariant features == old(features)
      {
        var matched := WindowMatches(line, lineToReplace, i);
        if matched {
          var j := 0;
          while j < length
            invariant 0 <= j <= length && i + length <= |line|
            invariant |features| == |old(features)| && features == old(features)[lineId := features[lineId]]
            invariant |features[lineId]| == |line|
            invariant forall p :: 0 <= p < |line| ==>
              features[lineId][p] == if i <= p < i + j then offsetLine[p - i] else line[p]
          {
            features := features[lineId := features[lineId][i + j := offsetLine[j]]];
            j := j + 1;
          }
          SpliceWindow(line, lineToReplace, offsetLine);
          assert features[lineId] == Splice(line, lineToReplace, offsetLine);
          return;
        }
        i := i + 1;
      }
    }
    /**
     * The body of applyOffset's outer loop for one group: offset each
     * classified member by its distance and splice the offset segment into
     * the member's line. Member j is handed the segment oriented by its own
     * direction (see SegmentAsWritten for the loop as written).
     */
    method ApplyGroup(g: OverlapGroup, lineOffset: (Line, int) -> Line)
      requires OffsetKeepsLength(lineOffset) && GroupFits(g, |features|)
      modifies this
      ensures features == ApplyMembers(old(features), g, |g.directions|, lineOffset)
    {
      var nbOverlapped := |g.directions|;
      var oppositeDirectionOffset := 0;
      var sameDirectionOffset := 0;
      for j := 0 to nbOverlapped
        invariant |features| == |old(features)|
        invariant features == ApplyMembers(old(features), g, j, lineOffset)
        invariant sameDirectionOffset == CountOf(g.directions[..j], true)
        invariant oppositeDirectionOffset == CountOf(g.directions[..j], false)
      {
        var segment := g.segment;
        ghost var upTo := g.directions[..j + 1];
        assert upTo[..|upTo| - 1] == g.directions[..j] && upTo[|upTo| - 1] == g.directions[j];
        if g.directions[j] {
          var offsetLine := lineOffset(segment, 3 * sameDirectionOffset);
          assert offsetLine == MemberOffset(g, j, lineOffset);
          ReplaceCoordinate(segment, offsetLine, g.crossingLines[j]);
          sameDirectionOffset := sameDirectionOffset + 1;
        } else {
          var reverseLine := Reverse(segment);
          var offsetLine := lineOffset(reverseLine, 3 * oppositeDirectionOffset);
          assert offsetLine == MemberOffset(g, j, lineOffset);
          ReplaceCoordinate(reverseLine, offsetLine, g.crossingLines[j]);
          oppositeDirectionOffset := oppositeDirectionOffset + 1;
        }
      }
    }

    /** applyOffset: apply every group, in order, to the layer. */
    method ApplyOffset(overlapArray: seq<OverlapGroup>, lineOffset: (Line, int) -> Line)
      requires OffsetKeepsLength(lineOffset)
      requires forall p :: 0 <= p < |overlapArray| ==> GroupFits(overlapArray[p], |features|)
      modifies this
      ensures features == ApplyGroups(old(features), overlapArray, |overlapArray|, lineOffset)
    {
      for i := 0 to |overlapArray|
        invariant |features| == |old(features)|
        invariant features == ApplyGroups(old(features), overlapArray, i, lineOffset)
      {
        ApplyGroup(overlapArray[i], lineOffset);
      }
    }

    /** cleanLines: every line keeps only its coordinates without a NaN component. */
    method CleanLines()
      modifies this
      ensures |features| == |old(features)|
      ensures forall l :: 0 <= l < |features| ==> features[l] == Clean(old(features)[l])
    {
      for l := 0 to |features|
        invariant |features| == |old(features)|
        invariant forall p :: 0 <= p < l ==> features[p] == Clean(old(features)[p])
        invariant forall p :: l <= p < |features| ==> features[p] == old(features)[p]
      {
        features := features[l := Clean(features[l])];
      }
    }

    /**
     * manageOverlappingLines: group the shared segments, classify the
     * members, offset them and clean the result. The groups built on the
     * way are returned for the contract to speak about.
     */
    method ManageOverlappingLines(lineOverlap: (Line, Line) -> seq<Line>, lineOffset: (Line, int) -> Line)
      returns (ghost groups: seq<OverlapGroup>)
      requires OffsetKeepsLength(lineOffset) && SegmentsNonEmpty(lineOverlap)
      modifies this
      ensures |groups| == |FindRef(old(features), lineOverlap)|
      ensures forall n :: 0 <= n < |groups| ==>
        groups[n].segment == FindRef(old(features), lineOverlap)[n].segment &&
        groups[n].crossingLines == FindRef(old(features), lineOverlap)[n].ids
      ensures forall n :: 0 <= n < |groups| ==> GroupSound(groups[n], old(features), lineOverlap)
      ensures forall n1, n2 :: 0 <= n1 < n2 < |groups| ==> groups[n1].segment != groups[n2].segment
      ensures forall a, b :: 0 <= a < b < |old(features)| ==> PairGrouped(groups, old(features), lineOverlap, a, b)
      ensures forall p :: 0 <= p < |groups| ==> GroupFits(groups[p], |old(features)|)
      ensures |features| == |old(features)|
      ensures forall l :: 0 <= l < |features| ==>
        features[l] == Clean(ApplyGroups(old(features), groups, |groups|, lineOffset)[l])
    {
      var overlapMap := FindOverlapingLines(features, lineOverlap);
      FindRefSound(features, lineOverlap);
      SoundEntriesFit(overlapMap, features, lineOverlap);
      var overlapArray := ManageOverlapingSegmentsData(overlapMap, features);
      forall p | 0 <= p < |overlapArray| ensures GroupFits(overlapArray[p], |features|) {
        DirectionsAtMostMembers(features, overlapMap[p].segment, overlapMap[p].ids);
      }
      forall a, b | 0 <= a < b < |features| ensures PairGrouped(overlapArray, features, lineOverlap, a, b) {
        forall s | s in lineOverlap(features[a], features[b])
          ensures exists n :: (0 <= n < |overlapArray| && overlapArray[n].segment == s &&
            a in overlapArray[n].crossingLines && b in overlapArray[n].crossingLines)
        {
          assert PairRecorded(overlapMap, features, lineOverlap, a, b);
          assert Recorded(overlapMap, s, a, b);
          var n :| HoldsAt(overlapMap, n, s, a, b);
          assert overlapArray[n].segment == s;
        }
      }
      groups := overlapArray;
      ApplyOffset(overlapArray, lineOffset);
      CleanLines();
    }
  }
}
