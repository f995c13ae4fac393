/**
 Context extraction around matching lines, as three scripts do it: scripts/extract_context.py,
 scripts/manage-logs.js and scripts/extract_logs.py. All three arrive at the one canonical list
 of ranges that covers exactly the lines near a match.
 */
module ContextRanges {

  datatype Range = Range(start: nat, end: nat)

  /** Some match lies within `context` lines of line `j`. */
  predicate Near(lines: seq<string>, hit: string -> bool, context: nat, j: nat) {
    exists i :: 0 <= i < |lines| && hit(lines[i]) && i - context <= j <= i + context
  }

  predicate Covers(ranges: seq<Range>, j: nat) {
    exists k :: 0 <= k < |ranges| && ranges[k].start <= j <= ranges[k].end
  }

  /** Sorted ranges with at least one line between neighbours. */
  predicate Canonical(ranges: seq<Range>) {
    && (forall k :: 0 <= k < |ranges| ==> ranges[k].start <= ranges[k].end)
    && (forall j, k :: 0 <= j < k < |ranges| ==> ranges[j].end + 1 < ranges[k].start)
  }

  /** The canonical ranges that cover exactly the lines near a match. */
  ghost predicate Extracts(ranges: seq<Range>, lines: seq<string>, hit: string -> bool, context: nat) {
    && Canonical(ranges)
    && forall j: nat :: Covers(ranges, j) <==> j < |lines| && Near(lines, hit, context, j)
  }

  /******* Canonical ranges are determined by the lines they cover *******/

  ghost predicate SameCover(a: seq<Range>, b: seq<Range>) {
    forall j: nat :: Covers(a, j) <==> Covers(b, j)
  }

  lemma CoveredByFirst(a: seq<Range>, j: nat)
    requires Canonical(a) && a != []
    ensures Covers(a, j) ==> a[0].start <= j
    ensures a[0].start <= j <= a[0].end ==> Covers(a, j)
    ensures !Covers(a, a[0].end + 1)
  {
  }

  lemma CoverOfTail(a: seq<Range>, j: nat)
    requires Canonical(a) && a != []
    ensures Canonical(a[1..])
    ensures Covers(a[1..], j) <==> Covers(a, j) && j > a[0].end
  {
    assert forall k :: 0 <= k < |a[1..]| ==> a[1..][k] == a[k + 1];
    if Covers(a, j) && j > a[0].end {
      var k :| 0 <= k < |a| && a[k].start <= j <= a[k].end;
      assert a[1..][k - 1] == a[k];
    }
  }

  lemma SameFirst(a: seq<Range>, b: seq<Range>)
    requires Canonical(a) && Canonical(b) && SameCover(a, b) && a != []
    ensures b != [] && a[0].start == b[0].start
  {
    CoveredByFirst(a, a[0].start);
    assert Covers(b, a[0].start);
    CoveredByFirst(b, a[0].start);
    CoveredByFirst(b, b[0].start);
    CoveredByFirst(a, b[0].start);
  }

  lemma {:induction false} CanonicalUnique(a: seq<Range>, b: seq<Range>)
    requires Canonical(a) && Canonical(b) && SameCover(a, b)
    ensures a == b
  {
    if a == [] {
      if b != [] {
        SameFirst(b, a);
      }
    } else {
      SameFirst(a, b);
      CoveredByFirst(a, b[0].end + 1);
      CoveredByFirst(b, a[0].end + 1);
      CoveredByFirst(a, b[0].end);
      CoveredByFirst(b, a[0].end);
      assert a[0].end == b[0].end;
      forall j: nat
        ensures Covers(a[1..], j) <==> Covers(b[1..], j)
      {
        CoverOfTail(a, j);
        CoverOfTail(b, j);
      }
      CoverOfTail(a, 0);
      CoverOfTail(b, 0);
      CanonicalUnique(a[1..], b[1..]);
      assert a == [a[0]] + a[1..] && b == [b[0]] + b[1..];
    }
  }

  /** Whatever extracts canonical ranges, extracts the same ones: the three scripts agree. */
  lemma ExtractsUnique(a: seq<Range>, b: seq<Range>, lines: seq<string>, hit: string -> bool, context: nat)
    requires Extracts(a, lines, hit, context) && Extracts(b, lines, hit, context)
    ensures a == b
  {
    CanonicalUnique(a, b);
  }

  /******* The windows around matches *******/

  function Window(i: nat, context: nat, n: nat): Range
    requires i < n
  {
    Range(if i >= context then i - context else 0, if i + context <= n - 1 then i + context else n - 1)
  }

  /** One window for each match among the first `n` lines, in order. */
  function Windows(lines: seq<string>, hit: string -> bool, context: nat, n: nat): seq<Range>
    requires n <= |lines|
  {
    if n == 0 then []
    else Windows(lines, hit, context, n - 1) + (if hit(lines[n - 1]) then [Window(n - 1, context, |lines|)] else [])
  }

  predicate WindowOfHit(w: Range, lines: seq<string>, hit: string -> bool, context: nat, n: nat) {
    exists i :: 0 <= i < n && i < |lines| && hit(lines[i]) && w == Window(i, context, |lines|)
  }

  lemma {:induction false} WindowsAreOfHits(lines: seq<string>, hit: string -> bool, context: nat, n: nat, k: nat)
    requires n <= |lines| && k < |Windows(lines, hit, context, n)|
    ensures WindowOfHit(Windows(lines, hit, context, n)[k], lines, hit, context, n)
  {
    if k < |Windows(lines, hit, context, n - 1)| {
      WindowsAreOfHits(lines, hit, context, n - 1, k);
    }
  }

  lemma {:induction false} HitsHaveWindows(lines: seq<string>, hit: string -> bool, context: nat, n: nat, i: nat)
    requires i < n <= |lines| && hit(lines[i])
    ensures Window(i, context, |lines|) in Windows(lines, hit, context, n)
  {
    if i < n - 1 {
      HitsHaveWindows(lines, hit, context, n - 1, i);
    }
  }

  /** Starts and ends never go down: what makes one pass enough, and a sort a no-op. */
  predicate Rising(ranges: seq<Range>) {
    && (forall k :: 0 <= k < |ranges| ==> ranges[k].start <= ranges[k].end)
    && (forall j, k :: 0 <= j < k < |ranges| ==>
          ranges[j].start <= ranges[k].start && ranges[j].end <= ranges[k].end)
  }

  lemma {:induction false} WindowsRise(lines: seq<string>, hit: string -> bool, context: nat, n: nat)
    requires n <= |lines|
    ensures Rising(Windows(lines, hit, context, n))
  {
    if n > 0 {
      WindowsRise(lines, hit, context, n - 1);
      var ws := Windows(lines, hit, context, n - 1);
      forall k | 0 <= k < |ws|
        ensures var w := Window(n - 1, context, |lines|); ws[k].start <= w.start && ws[k].end <= w.end
      {
        WindowsAreOfHits(lines, hit, context, n - 1, k);
      }
    }
  }

  lemma WindowsCoverNear(lines: seq<string>, hit: string -> bool, context: nat, j: nat)
    ensures Covers(Windows(lines, hit, context, |lines|), j) <==> j < |lines| && Near(lines, hit, context, j)
  {
    var ws := Windows(lines, hit, context, |lines|);
    if k :| 0 <= k < |ws| && ws[k].start <= j <= ws[k].end {
      WindowsAreOfHits(lines, hit, context, |lines|, k);
      var i :| 0 <= i < |lines| && hit(lines[i]) && ws[k] == Window(i, context, |lines|);
    }
    if j < |lines| && Near(lines, hit, context, j) {
      var i :| 0 <= i < |lines| && hit(lines[i]) && i - context <= j <= i + context;
      HitsHaveWindows(lines, hit, context, |lines|, i);
    }
  }

  /******* The sort *******/

  /** Python's order on pairs. */
  predicate LessOrEqual(a: Range, b: Range) {
    a.start < b.start || (a.start == b.start && a.end <= b.end)
  }

  predicate Sorted(ranges: seq<Range>) {
    forall j, k :: 0 <= j < k < |ranges| ==> LessOrEqual(ranges[j], ranges[k])
  }

  lemma FirstIsLeast(a: seq<Range>, r: Range)
    requires Sorted(a) && r in a
    ensures LessOrEqual(a[0], r)
  {
  }

  lemma SameContents(a: seq<Range>, b: seq<Range>, r: Range)
    requires multiset(a) == multiset(b) && r in a
    ensures r in b
  {
    assert r in multiset(b);
  }

  lemma SameFirstSorted(a: seq<Range>, b: seq<Range>)
    requires Sorted(a) && Sorted(b) && multiset(a) == multiset(b) && a != []
    ensures b != [] && a[0] == b[0]
  {
    SameContents(a, b, a[0]);
    SameContents(b, a, b[0]);
    FirstIsLeast(a, b[0]);
    FirstIsLeast(b, a[0]);
  }

  lemma RestOf(a: seq<Range>)
    requires a != []
    ensures multiset(a[1..]) == multiset(a) - multiset{a[0]}
  {
    assert a == [a[0]] + a[1..];
  }

  lemma {:induction false} SortedUnique(a: seq<Range>, b: seq<Range>)
    requires Sorted(a) && Sorted(b) && multiset(a) == multiset(b)
    ensures a == b
  {
    if a == [] {
      assert |multiset(b)| == |b|;
    } else {
      SameFirstSorted(a, b);
      RestOf(a);
      RestOf(b);
      SortedUnique(a[1..], b[1..]);
      assert a == [a[0]] + a[1..] && b == [b[0]] + b[1..];
    }
  }

  /** Sorting the windows changes nothing. */
  lemma SortIsNoOp(lines: seq<string>, hit: string -> bool, context: nat, sorted: seq<Range>)
    requires Sorted(sorted) && multiset(sorted) == multiset(Windows(lines, hit, context, |lines|))
    ensures sorted == Windows(lines, hit, context, |lines|)
  {
    WindowsRise(lines, hit, context, |lines|);
    SortedUnique(sorted, Windows(lines, hit, context, |lines|));
  }

  /******* Merging *******/

  /** `merged`, the last range still open, covers what the first `i` ranges cover. */
  ghost predicate MergedSoFar(merged: seq<Range>, ranges: seq<Range>, i: nat)
    requires i <= |ranges|
  {
    && Canonical(merged) && SameCover(merged, ranges[..i])
    && (i > 0 ==> merged != [] && merged[|merged| - 1].end == ranges[i - 1].end
                  && merged[|merged| - 1].start <= ranges[i - 1].start)
    && (i == 0 ==> merged == [])
  }

  lemma CoverOneMore(ranges: seq<Range>, r: Range, j: nat)
    ensures Covers(ranges + [r], j) <==> Covers(ranges, j) || r.start <= j <= r.end
  {
    assert forall k :: 0 <= k < |ranges| ==> (ranges + [r])[k] == ranges[k];
    assert (ranges + [r])[|ranges|] == r;
  }

  /** The next range begins beyond the open one. */
  lemma MergeApart(merged: seq<Range>, ranges: seq<Range>, i: nat)
    requires i < |ranges| && Rising(ranges) && MergedSoFar(merged, ranges, i)
    requires i > 0 ==> merged[|merged| - 1].end + 1 < ranges[i].start
    ensures MergedSoFar(merged + [ranges[i]], ranges, i + 1)
  {
    assert ranges[..i + 1] == ranges[..i] + [ranges[i]];
    forall j: nat
      ensures Covers(merged + [ranges[i]], j) <==> Covers(ranges[..i + 1], j)
    {
      CoverOneMore(merged, ranges[i], j);
      CoverOneMore(ranges[..i], ranges[i], j);
    }
  }

  /** The next range meets the open one, which grows to its end. */
  lemma MergeJoin(merged: seq<Range>, last: Range, ranges: seq<Range>, i: nat)
    requires 0 < i < |ranges| && Rising(ranges) && MergedSoFar(merged + [last], ranges, i)
    requires ranges[i].start <= last.end + 1
    ensures last.end <= ranges[i].end
    ensures MergedSoFar(merged + [Range(last.start, ranges[i].end)], ranges, i + 1)
  {
    var grown := Range(last.start, ranges[i].end);
    assert (merged + [last])[|merged|] == last;
    assert ranges[..i + 1] == ranges[..i] + [ranges[i]];
    assert Canonical(merged + [grown]) by {
      forall j, k | 0 <= j < k < |merged| + 1
        ensures (merged + [grown])[j].end + 1 < (merged + [grown])[k].start
      {
        assert (merged + [last])[j].end + 1 < (merged + [last])[k].start;
      }
      forall k | 0 <= k < |merged|
        ensures merged[k].start <= merged[k].end
      {
        assert (merged + [last])[k] == merged[k];
      }
    }
    forall j: nat
      ensures Covers(merged + [grown], j) <==> Covers(ranges[..i + 1], j)
    {
      CoverOneMore(merged, grown, j);
      CoverOneMore(merged, last, j);
      CoverOneMore(ranges[..i], ranges[i], j);
    }
  }

  lemma MergedExtracts(merged: seq<Range>, lines: seq<string>, hit: string -> bool, context: nat)
    requires var ws := Windows(lines, hit, context, |lines|); MergedSoFar(merged, ws, |ws|)
    ensures Extracts(merged, lines, hit, context)
  {
    var ws := Windows(lines, hit, context, |lines|);
    assert ws[..|ws|] == ws;
    forall j: nat
      ensures Covers(merged, j) <==> j < |lines| && Near(lines, hit, context, j)
    {
      WindowsCoverNear(lines, hit, context, j);
    }
  }

  /******* The three scripts *******/

  /** The lines that match, among the first `n`. */
  function Matches(lines: seq<string>, hit: string -> bool, n: nat): (matches: seq<nat>)
    requires n <= |lines|
    ensures forall k :: 0 <= k < |matches| ==> matches[k] < n
  {
    if n == 0 then []
    else Matches(lines, hit, n - 1) + (if hit(lines[n - 1]) then [n - 1] else [])
  }

  function WindowsOf(matches: seq<nat>, context: nat, n: nat): seq<Range>
    requires forall k :: 0 <= k < |matches| ==> matches[k] < n
  {
    seq(|matches|, k requires 0 <= k < |matches| => Window(matches[k], context, n))
  }

  lemma {:induction false} WindowsOfMatches(lines: seq<string>, hit: string -> bool, context: nat, n: nat)
    requires n <= |lines|
    ensures WindowsOf(Matches(lines, hit, n), context, |lines|) == Windows(lines, hit, context, n)
  {
    if n > 0 {
      WindowsOfMatches(lines, hit, context, n - 1);
    }
  }

  /** `find_match_ranges` of extract_context.py, with what `ranges.sort()` leaves: overwrites the last merged range. */
  method FindMatchRanges(lines: seq<string>, hit: string -> bool, context: nat, sorted: seq<Range>)
    returns (merged: seq<Range>)
    requires Sorted(sorted) && multiset(sorted) == multiset(Windows(lines, hit, context, |lines|))
    ensures Extracts(merged, lines, hit, context)
  {
    var matches := [];
    for i := 0 to |lines|
      invariant matches == Matches(lines, hit, i)
    {
      if hit(lines[i]) {
        matches := matches + [i];
      }
    }
    var ranges := [];
    for k := 0 to |matches|
      invariant ranges == WindowsOf(matches, context, |lines|)[..k]
    {
      ranges := ranges + [Window(matches[k], context, |lines|)];
    }
    assert ranges == WindowsOf(matches, context, |lines|);
    WindowsOfMatches(lines, hit, context, |lines|);
    if ranges == [] {
      MergedExtracts([], lines, hit, context);
      return [];
    }
    SortIsNoOp(lines, hit, context, sorted);
    WindowsRise(lines, hit, context, |lines|);
    merged := MergeRanges(sorted);
    MergedExtracts(merged, lines, hit, context);
  }

  lemma LastApart<T>(s: seq<T>, x: T)
    requires s != []
    ensures s == s[..|s| - 1] + [s[|s| - 1]]
    ensures s[|s| - 1 := x] == s[..|s| - 1] + [x]
  {
  }

  /** Lines 44-50. */
  method MergeRanges(ranges: seq<Range>) returns (merged: seq<Range>)
    requires ranges != [] && Rising(ranges)
    ensures MergedSoFar(merged, ranges, |ranges|)
  {
    merged := [ranges[0]];
    MergeApart([], ranges, 0);
    assert [] + [ranges[0]] == merged;
    for i := 1 to |ranges|
      invariant MergedSoFar(merged, ranges, i)
    {
      var s, e := ranges[i].start, ranges[i].end;
      var last := merged[|merged| - 1];
      if s <= last.end + 1 {
        LastApart(merged, Range(last.start, e));
        MergeJoin(merged[..|merged| - 1], last, ranges, i);
        merged := merged[|merged| - 1 := Range(last.start, if last.end < e then e else last.end)];
      } else {
        MergeApart(merged, ranges, i);
        merged := merged + [Range(s, e)];
      }
    }
  }

  /** `extractByPattern` of manage-logs.js and `extract_by_pattern` of extract_logs.py: keep the open range apart. */
  method ExtractByPattern(lines: seq<string>, hit: string -> bool, context: nat) returns (merged: seq<Range>)
    ensures Extracts(merged, lines, hit, context)
  {
    var ranges: seq<Range> := [];
    for i := 0 to |lines|
      invariant ranges == Windows(lines, hit, context, i)
    {
      if hit(lines[i]) {
        ranges := ranges + [Window(i, context, |lines|)];
      }
    }
    WindowsRise(lines, hit, context, |lines|);
    if ranges == [] {
      MergedExtracts([], lines, hit, context);
      return [];
    }
    merged := MergeKeepingOpen(ranges);
    MergedExtracts(merged, lines, hit, context);
  }

  /** Lines 66-78 of manage-logs.js and 58-68 of extract_logs.py. */
  method MergeKeepingOpen(ranges: seq<Range>) returns (merged: seq<Range>)
    requires ranges != [] && Rising(ranges)
    ensures MergedSoFar(merged, ranges, |ranges|)
  {
    merged := [];
    var current := ranges[0];
    MergeApart([], ranges, 0);
    for i := 1 to |ranges|
      invariant MergedSoFar(merged + [current], ranges, i)
    {
      OpenIsLast(merged, current, ranges, i);
      if ranges[i].start <= current.end + 1 {
        MergeJoin(merged, current, ranges, i);
        current := Range(current.start, if current.end < ranges[i].end then ranges[i].end else current.end);
      } else {
        MergeApart(merged + [current], ranges, i);
        merged := merged + [current];
        current := ranges[i];
      }
    }
    merged := merged + [current];
  }

  lemma OpenIsLast(merged: seq<Range>, current: Range, ranges: seq<Range>, i: nat)
    requires 0 < i <= |ranges| && MergedSoFar(merged + [current], ranges, i)
    ensures (merged + [current])[|merged + [current]| - 1] == current
    ensures current.end == ranges[i - 1].end
  {
  }
}
