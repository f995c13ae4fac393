/**
 The main result about src/hooks/useMessageGrouping.ts: over any run of renders with one
 boundary, whatever lists lie between them, the cached render of a list yields the groups of a
 render from an empty cache, as long as no tool group of that list can show a call in more than
 one way. GroupingHistories shows that the condition is exact.
 */
module GroupingCache {
  import opened MessageGrouping
  import opened IncrementalGrouping
  import opened GroupingResults

  /******* What a scan builds with any map *******/

  /** The group that a scan from `s` shows at `x`. */
  function ShownAt(s: Scan, ms: seq<Message>, x: Extent): Group
    requires s.i <= x.start < x.end <= |ms|
  {
    var calls := Calls(ms[x.start..x.end]);
    GroupOf(ms[x.start..x.end], Paired(calls, CaptureAll(s.results, ms[s.i..x.end])))
  }

  /** The scan `u` goes on from `s` with the groups at `xs`. */
  predicate GoesOn(s: Scan, u: Scan, xs: seq<Extent>) {
    |u.groups| == |s.groups| + |xs| && s.groups <= u.groups && u.ends == s.ends + Ends(xs)
  }

  lemma GoesOnBehind(s: Scan, t: Scan, u: Scan, first: seq<Extent>, rest: seq<Extent>)
    requires GoesOn(s, t, first) && GoesOn(t, u, rest)
    ensures GoesOn(s, u, first + rest)
  {
    EndsJoin(first, rest);
  }

  lemma {:induction false} ScanEnds(s: Scan, ms: seq<Message>, boundary: string)
    requires s.i <= |ms|
    ensures GoesOn(s, Finish(s, ms, boundary), Extents(ms, boundary, s.i))
    decreases |ms| - s.i
  {
    if s.i < |ms| {
      var t := Step(s, ms, boundary);
      var first := if Standalone(ms[s.i]) then [] else [Extent(s.i, t.i)];
      StepEnds(s, ms, boundary);
      ScanEnds(t, ms, boundary);
      FinishUnfolds(s, ms, boundary);
      ExtentsUnfold(ms, boundary, s.i);
      GoesOnBehind(s, t, Finish(t, ms, boundary), first, Extents(ms, boundary, t.i));
      assert [] + Extents(ms, boundary, t.i) == Extents(ms, boundary, t.i);
    }
  }

  lemma StepEnds(s: Scan, ms: seq<Message>, boundary: string)
    requires s.i < |ms|
    ensures var t := Step(s, ms, boundary);
            && t.i == Next(ms, boundary, s.i)
            && s.groups <= t.groups && |t.groups| == |s.groups| + (if Standalone(ms[s.i]) then 0 else 1)
            && t.ends == s.ends + (if Standalone(ms[s.i]) then [] else Ends([Extent(s.i, t.i)]))
  {
  }

  lemma EndsJoin(xs: seq<Extent>, ys: seq<Extent>)
    ensures Ends(xs + ys) == Ends(xs) + Ends(ys)
  {
  }

  lemma {:induction false} ScanMap(s: Scan, ms: seq<Message>, boundary: string)
    requires s.i <= |ms| && !FollowsItsCall(ms, s.i)
    ensures var t := Finish(s, ms, boundary);
            t.results == CaptureAll(s.results, ms[s.i..|ms|]) && t.last == LastResult(s.last, ms, s.i, |ms|)
    decreases |ms| - s.i
  {
    if s.i < |ms| {
      var t := Step(s, ms, boundary);
      StepCaptures(s, ms, boundary);
      ScanMap(t, ms, boundary);
      CaptureRanges(s.results, ms, s.i, t.i, |ms|);
      LastResultJoin(s.last, ms, s.i, t.i, |ms|);
    }
  }

  lemma ShownLater(s: Scan, t: Scan, ms: seq<Message>, x: Extent)
    requires s.i <= t.i <= x.start < x.end <= |ms|
    requires t.results == CaptureAll(s.results, ms[s.i..t.i])
    ensures ShownAt(t, ms, x) == ShownAt(s, ms, x)
  {
    CaptureRanges(s.results, ms, s.i, t.i, x.end);
  }

  lemma StepShows(s: Scan, ms: seq<Message>, boundary: string)
    requires s.i < |ms| && !Standalone(ms[s.i])
    ensures Step(s, ms, boundary).groups == s.groups + [ShownAt(s, ms, Extent(s.i, Next(ms, boundary, s.i)))]
  {
  }

  lemma FirstShown(s: Scan, ms: seq<Message>, boundary: string)
    requires s.i < |ms| && !FollowsItsCall(ms, s.i) && !Standalone(ms[s.i])
    ensures var t := Finish(s, ms, boundary);
            && |s.groups| < |t.groups|
            && t.groups[|s.groups|] == ShownAt(s, ms, Extent(s.i, Next(ms, boundary, s.i)))
  {
    var t := Step(s, ms, boundary);
    StepCaptures(s, ms, boundary);
    StepShows(s, ms, boundary);
    ScanEnds(t, ms, boundary);
    assert t.groups[|s.groups|] == Finish(t, ms, boundary).groups[|s.groups|];
  }

  /** The scan `t` ends with `g` at place `k` behind the groups that `s` has. */
  predicate EndsWith(s: Scan, t: Scan, k: nat, g: Group) {
    |s.groups| + k < |t.groups| && t.groups[|s.groups| + k] == g
  }

  lemma ShownBehind(s: Scan, t: Scan, ms: seq<Message>, u: Scan, k: nat, k': nat, x: Extent)
    requires s.i <= t.i <= x.start < x.end <= |ms| && t.results == CaptureAll(s.results, ms[s.i..t.i])
    requires |s.groups| + k == |t.groups| + k' && EndsWith(t, u, k', ShownAt(t, ms, x))
    ensures EndsWith(s, u, k, ShownAt(s, ms, x))
  {
    ShownLater(s, t, ms, x);
  }

  lemma FinishUnfolds(s: Scan, ms: seq<Message>, boundary: string)
    requires s.i < |ms|
    ensures Finish(s, ms, boundary) == Finish(Step(s, ms, boundary), ms, boundary)
  {
  }

  /** What the scan shows behind its next step, it shows now, one place later if the step adds a group. */
  lemma {:induction false} ShowsBehindStep(s: Scan, ms: seq<Message>, boundary: string, k: nat, x: Extent)
    requires s.i < |ms| && !FollowsItsCall(ms, s.i)
    requires k < |Extents(ms, boundary, Next(ms, boundary, s.i))|
    requires x == Extents(ms, boundary, Next(ms, boundary, s.i))[k]
    ensures s.i <= x.start
    ensures EndsWith(s, Finish(s, ms, boundary), if Standalone(ms[s.i]) then k else k + 1, ShownAt(s, ms, x))
    decreases |ms| - s.i, 0
  {
    var t := Step(s, ms, boundary);
    StepCaptures(s, ms, boundary);
    StepEnds(s, ms, boundary);
    ScanShows(t, ms, boundary, k);
    FinishUnfolds(s, ms, boundary);
    ShownBehind(s, t, ms, Finish(t, ms, boundary), if Standalone(ms[s.i]) then k else k + 1, k, x);
  }

  lemma FirstOrLater(ms: seq<Message>, boundary: string, i: nat, k: nat)
    requires i < |ms| && k < |Extents(ms, boundary, i)|
    ensures var e, k' := Next(ms, boundary, i), if Standalone(ms[i]) then k else k - 1;
            if k' < 0 then Extents(ms, boundary, i)[k] == Extent(i, e)
            else k' < |Extents(ms, boundary, e)| && Extents(ms, boundary, i)[k] == Extents(ms, boundary, e)[k']
  {
    ExtentsUnfold(ms, boundary, i);
  }

  lemma {:induction false} ScanShows(s: Scan, ms: seq<Message>, boundary: string, k: nat)
    requires s.i <= |ms| && !FollowsItsCall(ms, s.i) && k < |Extents(ms, boundary, s.i)|
    ensures s.i <= Extents(ms, boundary, s.i)[k].start
    ensures EndsWith(s, Finish(s, ms, boundary), k, ShownAt(s, ms, Extents(ms, boundary, s.i)[k]))
    decreases |ms| - s.i, 1
  {
    var x := Extents(ms, boundary, s.i)[k];
    FirstOrLater(ms, boundary, s.i, k);
    if Standalone(ms[s.i]) {
      ShowsBehindStep(s, ms, boundary, k, x);
    } else if k > 0 {
      ShowsBehindStep(s, ms, boundary, k - 1, x);
    } else {
      FirstShown(s, ms, boundary);
    }
  }

  /******* Rescanning from the end of the reused groups *******/

  /** The scan's map and last index account for every message before its position and before `h`. */
  ghost predicate Resumed(s: Scan, ms: seq<Message>, h: nat) {
    && s.i <= |ms| && h <= |ms|
    && !FollowsItsCall(ms, s.i)
    && Accounts(s.results, ms[..Max(s.i, h)])
    && s.last == LastResult(-1, ms, 0, Max(s.i, h))
  }

  /** A group without what it shows of results. */
  function Bare(g: Group): Group {
    if g.ToolGroup? then g.(results := []) else g
  }

  /** Up to its results the group is that of the reference, and if it is robust, in full. */
  predicate Faithful(g: Group, ms: seq<Message>, x: Extent)
    requires x.start < x.end <= |ms|
  {
    Bare(g) == Bare(GroupAt(ms, x)) && (RobustAt(ms, x) ==> g == GroupAt(ms, x))
  }

  lemma ShownIsFaithful(s: Scan, ms: seq<Message>, x: Extent, h: nat)
    requires Resumed(s, ms, h) && s.i <= x.start < x.end <= |ms| && h <= x.end
    ensures Faithful(ShownAt(s, ms, x), ms, x)
  {
    assert ms[x.start..x.end][0] == ms[x.start];
    if DeclaresCalls(ms[x.start]) && RobustAt(ms, x) {
      RangeAccounts(s.results, ms, s.i, x.end, h);
      PairedAlike(CaptureAll(s.results, ms[s.i..x.end]), ms, x);
    }
  }

  predicate Beyond(xs: seq<Extent>, h: nat) {
    forall k :: 0 <= k < |xs| ==> h <= xs[k].end
  }

  lemma {:induction false} BeyondFromFirst(ms: seq<Message>, boundary: string, i: nat, h: nat)
    requires i <= |ms|
    requires var xs := Extents(ms, boundary, i); xs != [] ==> h <= xs[0].end
    ensures Beyond(Extents(ms, boundary, i), h)
  {
    var xs := Extents(ms, boundary, i);
    var k := 0;
    while k < |xs|
      invariant k <= |xs| && forall q :: 0 <= q < k ==> h <= xs[q].end
    {
      ExtentsIncrease(ms, boundary, i, k);
      k := k + 1;
    }
  }

  /******* What the reuse loop keeps *******/

  predicate AllFaithful(groups: seq<Group>, ms: seq<Message>, xs: seq<Extent>)
    requires Inside(xs, |ms|)
  {
    && |groups| == |xs|
    && forall k {:trigger Faithful(groups[k], ms, xs[k])} :: 0 <= k < |xs| ==> Faithful(groups[k], ms, xs[k])
  }

  /** What every history of renders leaves: where the list is not robust, results shown may be wrong, and no more. */
  ghost predicate Valid(c: Cache, boundary: string) {
    && AllFaithful(c.groups, c.messages, Extents(c.messages, boundary, 0))
    && c.ends == Ends(Extents(c.messages, boundary, 0))
    && Accounts(c.results, c.messages)
    && c.last == LastResult(-1, c.messages, 0, |c.messages|)
  }

  lemma ReusableIsKept(g: Group, ms: seq<Message>, x: Extent, d: nat)
    requires x.start < x.end <= |ms| && Faithful(g, ms, x)
    ensures Reusable(g, x.end, d) <==> Keeps(ms, x, d)
  {
    assert ms[x.start..x.end][0] == ms[x.start];
  }

  predicate Increasing(xs: seq<Extent>) {
    forall k :: 0 < k < |xs| ==> xs[k - 1].end <= xs[k].start
  }

  lemma ExtentsAreIncreasing(ms: seq<Message>, boundary: string)
    ensures Increasing(Extents(ms, boundary, 0))
  {
    forall k | 0 < k < |Extents(ms, boundary, 0)|
      ensures Extents(ms, boundary, 0)[k - 1].end <= Extents(ms, boundary, 0)[k].start
    {
      ExtentsIncrease(ms, boundary, 0, k);
    }
  }

  lemma {:induction false} ReuseIsMaximal(c: Cache, xs: seq<Extent>, d: nat, k: nat)
    requires Inside(xs, |c.messages|) && Increasing(xs)
    requires AllFaithful(c.groups, c.messages, xs) && c.ends == Ends(xs)
    requires k <= |xs|
    ensures var n := ReuseCount(c, d, k);
            && (forall q :: k <= q < n ==> Keeps(c.messages, xs[q], d))
            && (n < |xs| ==> !Keeps(c.messages, xs[n], d))
    decreases |xs| - k
  {
    if k < |xs| {
      ReusableIsKept(c.groups[k], c.messages, xs[k], d);
      if Reusable(c.groups[k], c.ends[k], d) && c.ends[k] < d {
        ReuseIsMaximal(c, xs, d, k + 1);
      }
    }
  }

  /** A group of `a` that ends before `d` is a group of `b`, and kept there too. */
  lemma KeptBothWays(a: seq<Message>, b: seq<Message>, d: nat, boundary: string, i: nat)
    requires Agree(a, b, d) && i <= |a| && i <= |b|
    requires var xs := Extents(a, boundary, i); xs != [] && xs[0].end < d
    ensures var xs, ys := Extents(a, boundary, i), Extents(b, boundary, i);
            ys != [] && ys[0] == xs[0] && Keeps(b, ys[0], d)
  {
    var first := Extents(a, boundary, i)[..1];
    PrefixReused(a, b, d, boundary, i, first);
  }

  /** Where the reuse stops, no group of the new list ends before the divergence. */
  lemma RestBeyond(a: seq<Message>, b: seq<Message>, d: nat, boundary: string, kept: seq<Extent>)
    requires Agree(a, b, d)
    requires kept <= Extents(a, boundary, 0) && KeepsAll(a, kept, d)
    requires var xs := Extents(a, boundary, 0); |kept| < |xs| ==> !Keeps(a, xs[|kept|], d)
    ensures EndOf(kept, 0) <= |b|
    ensures Beyond(Extents(b, boundary, EndOf(kept, 0)), d)
  {
    var start := EndOf(kept, 0);
    PrefixReused(a, b, d, boundary, 0, kept);
    PrefixReused(a, a, d, boundary, 0, kept);
    var old_, rest := Extents(a, boundary, start), Extents(b, boundary, start);
    assert old_ != [] ==> Extents(a, boundary, 0)[|kept|] == old_[0];
    if rest != [] && rest[0].end < d {
      KeptBothWays(b, a, d, boundary, start);
    }
    BeyondFromFirst(b, boundary, start, d);
  }

  function Kept(c: Cache, ms: seq<Message>, boundary: string): seq<Extent>
    requires c.WellFormed() && |c.ends| <= |Extents(c.messages, boundary, 0)|
  {
    Extents(c.messages, boundary, 0)[..ReuseCount(c, Divergence(c.messages, ms, 0), 0)]
  }

  lemma StartFacts(c: Cache, ms: seq<Message>)
    requires c.WellFormed()
    ensures var s, n := StartScan(c, ms), ReuseCount(c, Divergence(c.messages, ms, 0), 0);
            && s.groups == c.groups[..n] && s.ends == c.ends[..n]
            && s.i == if n > 0 then c.ends[n - 1] else 0
  {
  }

  lemma KeptIsMaximal(c: Cache, ms: seq<Message>, boundary: string)
    requires Valid(c, boundary)
    ensures var d, kept, xs := Divergence(c.messages, ms, 0), Kept(c, ms, boundary), Extents(c.messages, boundary, 0);
            && KeepsAll(c.messages, kept, d)
            && (|kept| < |xs| ==> !Keeps(c.messages, xs[|kept|], d))
  {
    ExtentsAreIncreasing(c.messages, boundary);
    ReuseIsMaximal(c, Extents(c.messages, boundary, 0), Divergence(c.messages, ms, 0), 0);
  }

  lemma StartEnds(ms: seq<Message>, xs: seq<Extent>, n: nat, d: nat)
    requires n <= |xs| && KeepsAll(ms, xs[..n], d)
    ensures EndOf(xs[..n], 0) == (if n > 0 then Ends(xs)[n - 1] else 0) <= d
  {
    if n > 0 {
      assert xs[..n][n - 1] == xs[n - 1] && Keeps(ms, xs[..n][n - 1], d);
    }
  }

  lemma KeptEnds(c: Cache, ms: seq<Message>, boundary: string)
    requires Valid(c, boundary)
    requires KeepsAll(c.messages, Kept(c, ms, boundary), Divergence(c.messages, ms, 0))
    ensures EndOf(Kept(c, ms, boundary), 0) == StartScan(c, ms).i <= Divergence(c.messages, ms, 0)
  {
    StartFacts(c, ms);
    StartEnds(c.messages, Extents(c.messages, boundary, 0), |Kept(c, ms, boundary)|, Divergence(c.messages, ms, 0));
  }

  /** The new list's extents are the reused ones and then those found from their end, all reaching the divergence. */
  lemma ReuseSplits(c: Cache, ms: seq<Message>, boundary: string)
    requires Valid(c, boundary)
    ensures var d, kept, start := Divergence(c.messages, ms, 0), Kept(c, ms, boundary), StartScan(c, ms).i;
            && KeepsAll(c.messages, kept, d)
            && EndOf(kept, 0) == start <= d
            && Extents(ms, boundary, 0) == kept + Extents(ms, boundary, start)
            && Beyond(Extents(ms, boundary, start), d)
  {
    var d, kept := Divergence(c.messages, ms, 0), Kept(c, ms, boundary);
    KeptIsMaximal(c, ms, boundary);
    KeptEnds(c, ms, boundary);
    PrefixReused(c.messages, ms, d, boundary, 0, kept);
    RestBeyond(c.messages, ms, d, boundary, kept);
  }

  /******* The map and the last index with which the scan resumes *******/

  lemma ResumesFromCache(c: Cache, ms: seq<Message>, boundary: string)
    requires Valid(c, boundary)
    requires Divergence(c.messages, ms, 0) > c.last
    ensures var d := Divergence(c.messages, ms, 0);
            Accounts(c.results, ms[..d]) && c.last == LastResult(-1, ms, 0, d)
  {
    var old_, d := c.messages, Divergence(c.messages, ms, 0);
    LastIsLast(old_, |old_|);
    LastBelow(old_, d, |old_|);
    LastAgrees(old_, ms, d, d);
    forall id
      ensures ResultsFor(ms[..d], id) == ResultsFor(old_, id)
    {
      NoResultsBehind(old_, d, id);
    }
  }

  lemma {:induction false} NoResultsIn(range: seq<Message>, id: string)
    requires forall k :: 0 <= k < |range| ==> !IsResult(range[k])
    ensures ResultsFor(range, id) == []
  {
    if range != [] {
      NoResultsIn(range[..|range| - 1], id);
    }
  }

  lemma NoResultsBehind(ms: seq<Message>, d: nat, id: string)
    requires d <= |ms| && forall k :: d <= k < |ms| ==> !IsResult(ms[k])
    ensures ResultsFor(ms[..d], id) == ResultsFor(ms, id)
  {
    assert ms[..d] + ms[d..] == ms;
    ResultsForConcat(ms[..d], ms[d..], id);
    NoResultsIn(ms[d..], id);
  }

  /** Up to where the map of the resumed scan is complete. */
  function Horizon(c: Cache, ms: seq<Message>): nat
    requires c.WellFormed()
  {
    var d := Divergence(c.messages, ms, 0);
    if d > c.last then d else StartScan(c, ms).i
  }

  lemma StartIsClean(ms: seq<Message>, boundary: string, kept: seq<Extent>)
    requires kept <= Extents(ms, boundary, 0)
    ensures !FollowsItsCall(ms, EndOf(kept, 0))
  {
    if kept != [] {
      ExtentsIncrease(ms, boundary, 0, |kept| - 1);
    }
  }

  lemma ScanResumes(c: Cache, ms: seq<Message>, boundary: string)
    requires Valid(c, boundary)
    ensures Resumed(StartScan(c, ms), ms, Horizon(c, ms))
    ensures Beyond(Extents(ms, boundary, StartScan(c, ms).i), Horizon(c, ms))
  {
    var s := StartScan(c, ms);
    ReuseSplits(c, ms, boundary);
    StartIsClean(ms, boundary, Kept(c, ms, boundary));
    if Divergence(c.messages, ms, 0) > c.last {
      ResumesFromCache(c, ms, boundary);
    } else {
      RebuildAccounts(ms[..s.i]);
      BeyondFromFirst(ms, boundary, s.i, s.i);
    }
  }

  /** A kept group is as faithful to the new list as it was to the old one. */
  lemma KeptIsFaithful(g: Group, a: seq<Message>, b: seq<Message>, d: nat, x: Extent)
    requires Agree(a, b, d) && x.start < x.end <= d && Faithful(g, a, x)
    ensures Faithful(g, b, x)
  {
    AgreeOn(a, b, d, x.start, x.end);
    AgreeOn(a, b, d, 0, x.end);
    AgreeAt(a, b, d, x.start);
    assert a[0..x.end] == a[..x.end] && b[0..x.end] == b[..x.end];
    var calls := Calls(a[x.start..x.end]);
    assert forall c :: 0 <= c < |calls| ==> (Settled(a, x, c) <==> Settled(b, x, c));
  }

  lemma KeptAreFaithful(groups: seq<Group>, a: seq<Message>, b: seq<Message>, d: nat, xs: seq<Extent>)
    requires Agree(a, b, d) && KeepsAll(a, xs, d) && Inside(xs, |a|) && AllFaithful(groups, a, xs)
    ensures Inside(xs, |b|) && AllFaithful(groups, b, xs)
  {
    forall k | 0 <= k < |xs|
      ensures xs[k].end <= |b| && Faithful(groups[k], b, xs[k])
    {
      assert Keeps(a, xs[k], d);
      KeptIsFaithful(groups[k], a, b, d, xs[k]);
    }
  }

  lemma FaithfulStart(groups: seq<Group>, ms: seq<Message>, xs: seq<Extent>, n: nat)
    requires Inside(xs, |ms|) && AllFaithful(groups, ms, xs) && n <= |xs|
    ensures Inside(xs[..n], |ms|) && AllFaithful(groups[..n], ms, xs[..n])
  {
  }

  lemma StartIsFaithful(groups: seq<Group>, a: seq<Message>, b: seq<Message>, d: nat, xs: seq<Extent>, n: nat)
    requires Inside(xs, |a|) && AllFaithful(groups, a, xs) && n <= |xs|
    requires Agree(a, b, d) && KeepsAll(a, xs[..n], d)
    ensures Inside(xs[..n], |b|) && AllFaithful(groups[..n], b, xs[..n])
  {
    FaithfulStart(groups, a, xs, n);
    KeptAreFaithful(groups[..n], a, b, d, xs[..n]);
  }

  lemma ReusedAreFaithful(c: Cache, ms: seq<Message>, boundary: string)
    requires Valid(c, boundary) && KeepsAll(c.messages, Kept(c, ms, boundary), Divergence(c.messages, ms, 0))
    ensures var kept := Kept(c, ms, boundary);
            Inside(kept, |ms|) && |kept| <= |c.groups| && AllFaithful(c.groups[..|kept|], ms, kept)
  {
    var kept := Kept(c, ms, boundary);
    StartIsFaithful(c.groups, c.messages, ms, Divergence(c.messages, ms, 0), Extents(c.messages, boundary, 0), |kept|);
  }

  lemma ScannedIsFaithful(s: Scan, ms: seq<Message>, boundary: string, h: nat, k: nat)
    requires Resumed(s, ms, h) && Beyond(Extents(ms, boundary, s.i), h)
    requires k < |Extents(ms, boundary, s.i)|
    ensures |s.groups| + k < |Finish(s, ms, boundary).groups|
    ensures Faithful(Finish(s, ms, boundary).groups[|s.groups| + k], ms, Extents(ms, boundary, s.i)[k])
  {
    ScanShows(s, ms, boundary, k);
    ShownIsFaithful(s, ms, Extents(ms, boundary, s.i)[k], h);
  }

  lemma ScannedAreFaithful(s: Scan, ms: seq<Message>, boundary: string, h: nat)
    requires Resumed(s, ms, h) && Beyond(Extents(ms, boundary, s.i), h)
    ensures s.groups <= Finish(s, ms, boundary).groups
    ensures AllFaithful(Finish(s, ms, boundary).groups[|s.groups|..], ms, Extents(ms, boundary, s.i))
  {
    var xs, groups := Extents(ms, boundary, s.i), Finish(s, ms, boundary).groups;
    ScanEnds(s, ms, boundary);
    forall k | 0 <= k < |xs|
      ensures Faithful(groups[|s.groups|..][k], ms, xs[k])
    {
      ScannedIsFaithful(s, ms, boundary, h, k);
    }
  }

  lemma FaithfulJoin(groups: seq<Group>, n: nat, ms: seq<Message>, xs: seq<Extent>, ys: seq<Extent>)
    requires n <= |groups| && Inside(xs, |ms|) && Inside(ys, |ms|)
    requires AllFaithful(groups[..n], ms, xs) && AllFaithful(groups[n..], ms, ys)
    ensures Inside(xs + ys, |ms|) && AllFaithful(groups, ms, xs + ys)
  {
    forall k | 0 <= k < |xs + ys|
      ensures (xs + ys)[k].start < (xs + ys)[k].end <= |ms| && Faithful(groups[k], ms, (xs + ys)[k])
    {
      if k < n {
        assert (xs + ys)[k] == xs[k] && groups[k] == groups[..n][k];
      } else {
        assert (xs + ys)[k] == ys[k - n] && groups[k] == groups[n..][k - n];
      }
    }
  }

  lemma ScanJoins(s: Scan, ms: seq<Message>, boundary: string, h: nat, kept: seq<Extent>)
    requires Resumed(s, ms, h) && Beyond(Extents(ms, boundary, s.i), h)
    requires Inside(kept, |ms|) && AllFaithful(s.groups, ms, kept)
    ensures Inside(kept + Extents(ms, boundary, s.i), |ms|)
    ensures AllFaithful(Finish(s, ms, boundary).groups, ms, kept + Extents(ms, boundary, s.i))
  {
    var groups := Finish(s, ms, boundary).groups;
    ScannedAreFaithful(s, ms, boundary, h);
    assert groups[..|s.groups|] == s.groups;
    FaithfulJoin(groups, |s.groups|, ms, kept, Extents(ms, boundary, s.i));
  }

  lemma GroupsStayFaithful(c: Cache, ms: seq<Message>, boundary: string)
    requires Valid(c, boundary)
    ensures AllFaithful(NextCache(c, ms, boundary).groups, ms, Extents(ms, boundary, 0))
  {
    ReuseSplits(c, ms, boundary);
    ScanResumes(c, ms, boundary);
    StartFacts(c, ms);
    ReusedAreFaithful(c, ms, boundary);
    ScanJoins(StartScan(c, ms), ms, boundary, Horizon(c, ms), Kept(c, ms, boundary));
  }

  lemma ExtentsAreKept(c: Cache, ms: seq<Message>, boundary: string)
    requires Valid(c, boundary)
    ensures NextCache(c, ms, boundary).ends == Ends(Extents(ms, boundary, 0))
  {
    var s, kept := StartScan(c, ms), Kept(c, ms, boundary);
    ReuseSplits(c, ms, boundary);
    ScanEnds(s, ms, boundary);
    assert s.ends == Ends(kept);
    EndsJoin(kept, Extents(ms, boundary, s.i));
  }

  lemma MapIsKept(c: Cache, ms: seq<Message>, boundary: string)
    requires Valid(c, boundary)
    ensures Accounts(NextCache(c, ms, boundary).results, ms)
    ensures NextCache(c, ms, boundary).last == LastResult(-1, ms, 0, |ms|)
  {
    var s, h := StartScan(c, ms), Horizon(c, ms);
    ScanResumes(c, ms, boundary);
    ScanMap(s, ms, boundary);
    RangeAccounts(s.results, ms, s.i, |ms|, h);
    assert ms[..|ms|] == ms;
    LastExtends(ms, s.i, |ms|, h);
  }

  /** One render keeps the cache valid, whatever the edit and whatever the ids: the heart of the matter. */
  lemma RenderKeepsValid(c: Cache, ms: seq<Message>, boundary: string)
    requires Valid(c, boundary)
    ensures Valid(NextCache(c, ms, boundary), boundary)
  {
    GroupsStayFaithful(c, ms, boundary);
    ExtentsAreKept(c, ms, boundary);
    MapIsKept(c, ms, boundary);
  }

  /******* Runs of renders *******/

  /** The cache after rendering `lists` one after another, with `boundary` fixed. */
  function Renders(lists: seq<seq<Message>>, boundary: string): (c: Cache)
    ensures c.WellFormed()
  {
    if lists == [] then EMPTY_CACHE
    else NextCache(Renders(lists[..|lists| - 1], boundary), Visible(lists[|lists| - 1]), boundary)
  }

  /** The map from each tool_call_id to its message, as a property of the n = 0 keys of `r`. */
  ghost predicate HoldsResults(r: ResultMap, ms: seq<Message>) {
    && (forall m :: m in ms && IsResult(m) ==> Key(m.toolCallId, 0) in r && r[Key(m.toolCallId, 0)] == m)
    && (forall id :: Key(id, 0) in r ==> exists m :: m in ms && IsResult(m) && m.toolCallId == id)
  }

  lemma {:induction false} EveryRenderValid(lists: seq<seq<Message>>, boundary: string)
    ensures Valid(Renders(lists, boundary), boundary)
  {
    if lists != [] {
      EveryRenderValid(lists[..|lists| - 1], boundary);
      RenderKeepsValid(Renders(lists[..|lists| - 1], boundary), Visible(lists[|lists| - 1]), boundary);
    }
  }

  lemma OneResult(ms: seq<Message>, m: Message)
    requires UniqueResults(ms) && m in ms && IsResult(m)
    ensures ResultsFor(ms, m.toolCallId) == [m]
  {
    ResultListed(ms, m);
    assert ms[..|ms|] == ms;
    UniqueHasOneResult(ms, |ms|, m.toolCallId);
  }

  lemma UniqueIsHeld(r: ResultMap, ms: seq<Message>, m: Message)
    requires UniqueResults(ms) && Accounts(r, ms) && m in ms && IsResult(m)
    ensures Key(m.toolCallId, 0) in r && r[Key(m.toolCallId, 0)] == m
  {
    OneResult(ms, m);
    LookupAlike(r, ms, m.toolCallId, 0);
  }

  lemma UniqueAccounts(r: ResultMap, ms: seq<Message>)
    requires UniqueResults(ms) && Accounts(r, ms)
    ensures HoldsResults(r, ms)
  {
    forall m | m in ms && IsResult(m)
      ensures Key(m.toolCallId, 0) in r && r[Key(m.toolCallId, 0)] == m
    {
      UniqueIsHeld(r, ms, m);
    }
    forall id | Key(id, 0) in r
      ensures exists m :: m in ms && IsResult(m) && m.toolCallId == id
    {
      ListedIsResult(ms, id, r[Key(id, 0)]);
    }
  }

  lemma FaithfulMeans(groups: seq<Group>, ms: seq<Message>, xs: seq<Extent>)
    requires Inside(xs, |ms|) && AllFaithful(groups, ms, xs)
    ensures |groups| == |xs| && forall k :: 0 <= k < |xs| ==> Bare(groups[k]) == Bare(GroupsAt(ms, xs)[k])
    ensures (forall k :: 0 <= k < |xs| ==> RobustAt(ms, xs[k])) ==> groups == GroupsAt(ms, xs)
  {
    assert forall k :: 0 <= k < |xs| ==> Faithful(groups[k], ms, xs[k]);
  }

  /**
   Over any run of renders of any lists, the last one yields what a render from an empty cache
   yields, if its list is robust. If it is not, only the results shown may differ.
   */
  lemma {:induction false} IncrementalEqualsFromScratch(lists: seq<seq<Message>>, boundary: string)
    requires lists != []
    ensures var ms, c := Visible(lists[|lists| - 1]), Renders(lists, boundary);
            var fresh_ := NextCache(EMPTY_CACHE, ms, boundary);
            && c.messages == ms && c.ends == fresh_.ends && |c.groups| == |fresh_.groups|
            && (forall k :: 0 <= k < |c.groups| ==> Bare(c.groups[k]) == Bare(fresh_.groups[k]))
            && (Robust(ms, boundary) ==> c.groups == fresh_.groups)
            && (UniqueResults(ms) ==> HoldsResults(c.results, ms))
  {
    var ms, c := Visible(lists[|lists| - 1]), Renders(lists, boundary);
    EveryRenderValid(lists, boundary);
    FromScratch(ms, boundary);
    FaithfulMeans(c.groups, ms, Extents(ms, boundary, 0));
    if UniqueResults(ms) {
      UniqueAccounts(c.results, ms);
    }
  }
}
