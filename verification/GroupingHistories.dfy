/**
 That the condition of GroupingCache is exact: if a tool group of a list can show a call in more
 than one way, then some history of renders makes the cached render of
 src/hooks/useMessageGrouping.ts differ from the one from scratch.
 */
module GroupingHistories {
  import opened Wrappers
  import opened MessageGrouping
  import opened IncrementalGrouping
  import opened GroupingResults
  import opened GroupingCache
  import opened GroupingLayout

  /** No message stands twice in the list. */
  predicate DistinctRefs(ms: seq<Message>) {
    forall i, j :: 0 <= i < j < |ms| ==> ms[i].ref != ms[j].ref
  }

  lemma {:induction false} ResultsDiffer(ms: seq<Message>, h: nat, id: string, i: nat, j: nat)
    requires DistinctRefs(ms) && h <= |ms| && i < j < |ResultsFor(ms[..h], id)|
    ensures ResultsFor(ms[..h], id)[i] != ResultsFor(ms[..h], id)[j]
    decreases h
  {
    if h > 0 {
      assert ms[..h][..h - 1] == ms[..h - 1];
      var front := ResultsFor(ms[..h - 1], id);
      if j < |front| {
        ResultsDiffer(ms, h - 1, id, i, j);
      } else {
        ListedIsResult(ms[..h - 1], id, front[i]);
      }
    }
  }

  /******* Calls by number *******/

  lemma {:induction false} FirstCall(calls: seq<ToolCall>, c: nat) returns (q: nat)
    requires c < |calls|
    ensures q <= c && calls[q].id == calls[c].id && Occurrences(calls, q, calls[c].id) == 0
  {
    if k :| 0 <= k < c && calls[k].id == calls[c].id {
      q := FirstCall(calls, k);
    } else {
      q := c;
      NoOccurrence(calls, c, calls[c].id);
    }
  }

  lemma {:induction false} SecondCall(calls: seq<ToolCall>, a: nat, b: nat) returns (q: nat)
    requires a < b < |calls| && calls[a].id == calls[b].id
    ensures q < |calls| && calls[q].id == calls[a].id && Occurrences(calls, q, calls[a].id) == 1
  {
    var first := FirstCall(calls, a);
    q := first + 1;
    while calls[q].id != calls[a].id
      invariant first < q <= b && Occurrences(calls, q, calls[a].id) == 1
      decreases b - q
    {
      q := q + 1;
    }
  }

  /******* A list that is cut behind a group *******/

  /** Whatever ends at `d` in a list with the same first `d` messages ends there in `b` too. */
  predicate Wall(b: seq<Message>, d: nat) {
    d < |b| ==> !b[d].role.Tool? && !DeclaresCalls(b[d])
  }

  lemma {:induction false} ErrorEndAtWall(a: seq<Message>, b: seq<Message>, d: nat, j: nat)
    requires Agree(a, b, d) && Wall(b, d) && j <= d && ErrorEnd(a, j) <= d
    ensures ErrorEnd(b, j) == ErrorEnd(a, j)
    decreases d - j
  {
    if j < d {
      AgreeAt(a, b, d, j);
      if IsToolError(a[j]) {
        ErrorEndAtWall(a, b, d, j + 1);
      }
    }
  }

  lemma {:induction false} ResultsEndAtWall(a: seq<Message>, b: seq<Message>, d: nat, j: nat, ids: set<string>)
    requires Agree(a, b, d) && Wall(b, d) && j <= d && ResultsEnd(a, j, ids) <= d
    ensures ResultsEnd(b, j, ids) == ResultsEnd(a, j, ids)
    decreases d - j
  {
    if j < d {
      AgreeAt(a, b, d, j);
      if Answers(a[j], ids) {
        ResultsEndAtWall(a, b, d, j + 1, ids);
      }
    }
  }

  lemma {:induction false} GroupEndAtWall(a: seq<Message>, b: seq<Message>, d: nat, boundary: string,
                                          start: nat, j: nat, ids: set<string>)
    requires Agree(a, b, d) && Wall(b, d) && start <= j <= d && GroupEnd(a, boundary, start, j, ids) <= d
    ensures GroupEnd(b, boundary, start, j, ids) == GroupEnd(a, boundary, start, j, ids)
    decreases d - j
  {
    if j < d {
      AgreeAt(a, b, d, j);
      if Continues(a, start, j) {
        var ids' := ids + CallIds(a[j].toolCalls);
        var k := ResultsEnd(a, j + 1, ids');
        ResultsEndAtWall(a, b, d, j + 1, ids');
        AgreeOn(a, b, d, j, k);
        if !HitsBoundary(a[j..k], boundary) {
          GroupEndAtWall(a, b, d, boundary, start, k, ids');
        }
      }
    }
  }

  lemma NextAtWall(a: seq<Message>, b: seq<Message>, d: nat, boundary: string, i: nat)
    requires Agree(a, b, d) && Wall(b, d) && i < d && Next(a, boundary, i) <= d
    ensures a[i] == b[i] && Next(b, boundary, i) == Next(a, boundary, i)
  {
    AgreeAt(a, b, d, i);
    if IsToolError(a[i]) {
      ErrorEndAtWall(a, b, d, i);
    } else if DeclaresCalls(a[i]) {
      GroupEndAtWall(a, b, d, boundary, i, i, {});
    }
  }

  /** The extents of `a` that end before the wall are extents of `b`. */
  lemma {:induction false} ExtentAtWall(a: seq<Message>, b: seq<Message>, d: nat, boundary: string, i: nat, k: nat)
    requires Agree(a, b, d) && Wall(b, d) && i <= d
    requires k < |Extents(a, boundary, i)| && Extents(a, boundary, i)[k].end <= d
    ensures k < |Extents(b, boundary, i)| && Extents(b, boundary, i)[k] == Extents(a, boundary, i)[k]
    decreases |a| - i
  {
    var e := Next(a, boundary, i);
    ExtentsIncrease(a, boundary, i, k);
    ExtentsUnfold(a, boundary, i);
    NextIsBefore(a, boundary, i, k);
    NextAtWall(a, b, d, boundary, i);
    ExtentsUnfold(b, boundary, i);
    if Standalone(a[i]) {
      ExtentAtWall(a, b, d, boundary, e, k);
    } else if k > 0 {
      ExtentAtWall(a, b, d, boundary, e, k - 1);
    }
  }

  lemma {:induction false} NextIsBefore(ms: seq<Message>, boundary: string, i: nat, k: nat)
    requires i < |ms| && k < |Extents(ms, boundary, i)|
    ensures i < Next(ms, boundary, i) <= Extents(ms, boundary, i)[k].end
  {
    ExtentsUnfold(ms, boundary, i);
    var e := Next(ms, boundary, i);
    if Standalone(ms[i]) {
      if e < |ms| {
        NextIsBeforeFrom(ms, boundary, e, k);
      }
    } else if k > 0 {
      NextIsBeforeFrom(ms, boundary, e, k - 1);
    }
  }

  lemma {:induction false} NextIsBeforeFrom(ms: seq<Message>, boundary: string, i: nat, k: nat)
    requires i <= |ms| && k < |Extents(ms, boundary, i)|
    ensures i <= Extents(ms, boundary, i)[k].start < Extents(ms, boundary, i)[k].end
    decreases k
  {
    ExtentsIncrease(ms, boundary, i, k);
    if k > 0 {
      NextIsBeforeFrom(ms, boundary, i, k - 1);
    }
  }

  /******* A render that reuses the old map *******/

  /** The tool group at `x` shows a result that a scan from scratch does not show. */
  lemma ShownWrong(s: Scan, ms: seq<Message>, x: Extent, q: nat)
    requires s.i <= x.start < x.end <= |ms| && DeclaresCalls(ms[x.start])
    requires q < |Calls(ms[x.start..x.end])|
    requires var call := Calls(ms[x.start..x.end])[q];
             var n := Occurrences(Calls(ms[x.start..x.end]), q, call.id);
             Lookup(CaptureAll(s.results, ms[s.i..x.end]), Key(call.id, n)) != Nth(ResultsFor(ms[..x.end], call.id), n)
    ensures ShownAt(s, ms, x) != GroupAt(ms, x)
  {
    var calls := Calls(ms[x.start..x.end]);
    assert ms[x.start..x.end][0] == ms[x.start];
    var r := CaptureAll(s.results, ms[s.i..x.end]);
    assert Paired(calls, r)[q] != PairedInOrder(calls, ms[..x.end])[q];
  }

  lemma NotKeptAt(a: seq<Message>, b: seq<Message>, d: nat, x: Extent)
    requires Agree(a, b, d) && x.start < x.end <= |b| && DeclaresCalls(b[x.start]) && d <= x.end
    ensures !Keeps(a, x, d)
  {
    if x.start < d {
      AgreeAt(a, b, d, x.start);
    }
  }

  /** The k-th group of the list lies at `x` and is a tool group. */
  predicate ToolGroupAt(ms: seq<Message>, boundary: string, k: nat, x: Extent) {
    && k < |Extents(ms, boundary, 0)| && Extents(ms, boundary, 0)[k] == x
    && x.start < x.end <= |ms| && DeclaresCalls(ms[x.start])
  }

  lemma NotKept(c: Cache, ms: seq<Message>, boundary: string, k: nat, x: Extent)
    requires Valid(c, boundary) && ToolGroupAt(ms, boundary, k, x) && Divergence(c.messages, ms, 0) <= x.end
    ensures var s, n := StartScan(c, ms), |Kept(c, ms, boundary)|;
            && |s.groups| == n <= k && k - n < |Extents(ms, boundary, s.i)| && !FollowsItsCall(ms, s.i)
            && Extents(ms, boundary, s.i)[k - n] == x
  {
    var kept, d := Kept(c, ms, boundary), Divergence(c.messages, ms, 0);
    ReuseSplits(c, ms, boundary);
    StartFacts(c, ms);
    StartIsClean(ms, boundary, kept);
    NotKeptAt(c.messages, ms, d, x);
    assert forall j :: 0 <= j < |kept| ==> kept[j] == Extents(ms, boundary, 0)[j];
  }

  lemma NextFinishes(c: Cache, ms: seq<Message>, boundary: string)
    requires c.WellFormed()
    ensures NextCache(c, ms, boundary).groups == Finish(StartScan(c, ms), ms, boundary).groups
  {
  }

  /** A tool group that ends at or behind the divergence is scanned again. */
  lemma ScannedAgain(c: Cache, ms: seq<Message>, boundary: string, k: nat, x: Extent)
    requires Valid(c, boundary) && ToolGroupAt(ms, boundary, k, x) && Divergence(c.messages, ms, 0) <= x.end
    ensures var s, t := StartScan(c, ms), NextCache(c, ms, boundary);
            s.i <= x.start && k < |t.groups| && t.groups[k] == ShownAt(s, ms, x)
  {
    NotKept(c, ms, boundary, k, x);
    ShowsAtPlace(StartScan(c, ms), ms, boundary, k, x);
    NextFinishes(c, ms, boundary);
  }

  lemma ShowsAtPlace(s: Scan, ms: seq<Message>, boundary: string, k: nat, x: Extent)
    requires s.i <= |ms| && !FollowsItsCall(ms, s.i) && |s.groups| <= k < |s.groups| + |Extents(ms, boundary, s.i)|
    requires Extents(ms, boundary, s.i)[k - |s.groups|] == x
    ensures s.i <= x.start && EndsWith(s, Finish(s, ms, boundary), k - |s.groups|, ShownAt(s, ms, x))
  {
    ScanShows(s, ms, boundary, k - |s.groups|);
  }

  /******* A second call with an id that has one result *******/

  lemma CutDivergence(ms: seq<Message>, n: nat)
    requires n <= |ms|
    ensures Divergence(ms[..n], ms, 0) == n == Divergence(ms, ms[..n], 0)
  {
    assert forall k :: 0 <= k < n ==> ms[..n][k] == ms[k];
  }

  /** Rendered from scratch, a list that ends with a result leaves that index. */
  lemma EndsWithResult(ms: seq<Message>, boundary: string)
    requires ms != [] && IsResult(ms[|ms| - 1])
    ensures NextCache(EMPTY_CACHE, ms, boundary).last == |ms| - 1
  {
    FromScratch(ms, boundary);
    LastIsLast(ms, |ms|);
  }

  lemma EmptyIsValid(boundary: string)
    ensures Valid(EMPTY_CACHE, boundary)
  {
    assert Extents([], boundary, 0) == [] && Ends([]) == [];
  }

  lemma KeptEndsBeforeResult(ms: seq<Message>, boundary: string, kept: seq<Extent>, p: nat)
    requires |ms| == p + 1 && IsResult(ms[p])
    requires kept <= Extents(ms, boundary, 0) && KeepsAll(ms, kept, p + 1)
    ensures EndOf(kept, 0) <= p
  {
    if kept != [] {
      var n := |kept| - 1;
      assert kept[n] == Extents(ms, boundary, 0)[n];
      ExtentsIncrease(ms, boundary, 0, n);
    }
  }

  /** If the old list ends with a result, the scan starts no later than there. */
  lemma StartsBeforeResult(c: Cache, ms: seq<Message>, boundary: string, p: nat)
    requires Valid(c, boundary) && Divergence(c.messages, ms, 0) == p + 1 == |c.messages| && IsResult(c.messages[p])
    ensures StartScan(c, ms).i <= p
  {
    ReuseSplits(c, ms, boundary);
    KeptEndsBeforeResult(c.messages, boundary, Kept(c, ms, boundary), p);
  }

  lemma TwoResults(a: seq<Message>, b: seq<Message>, id: string)
    requires ResultsFor(a, id) != [] && ResultsFor(b, id) != []
    ensures Key(id, 1) in CaptureAll(CaptureAll(map[], a), b)
  {
    CaptureAllConcat(map[], a, b);
    ResultsForConcat(a, b, id);
    CapturedInOrder(a + b);
  }

  lemma ResultAt(ms: seq<Message>, lo: nat, hi: nat, p: nat)
    requires lo <= p < hi <= |ms| && IsResult(ms[p])
    ensures ResultsFor(ms[lo..hi], ms[p].toolCallId) != []
  {
    assert ms[lo..hi][p - lo] == ms[p];
    ResultListed(ms[lo..hi], ms[p]);
  }

  /** Call `q` of the group at `x` has the id `id`. */
  predicate CallAt(ms: seq<Message>, x: Extent, q: nat, id: string)
    requires x.start < x.end <= |ms|
  {
    q < |Calls(ms[x.start..x.end])| && Calls(ms[x.start..x.end])[q].id == id
  }

  lemma SecondCallShows(s: Scan, ms: seq<Message>, x: Extent, a: nat, b: nat, p: nat)
    requires s.i <= x.start < x.end <= |ms| && DeclaresCalls(ms[x.start])
    requires s.i <= p < x.end && IsResult(ms[p]) && s.results == CaptureAll(map[], ms[..p + 1])
    requires a < b && CallAt(ms, x, a, ms[p].toolCallId) && CallAt(ms, x, b, ms[p].toolCallId)
    requires |ResultsFor(ms[..x.end], ms[p].toolCallId)| == 1
    ensures ShownAt(s, ms, x) != GroupAt(ms, x)
  {
    ResultAt(ms, 0, p + 1, p);
    assert ms[0..p + 1] == ms[..p + 1];
    ResultAt(ms, s.i, x.end, p);
    TwoResults(ms[..p + 1], ms[s.i..x.end], ms[p].toolCallId);
    var q := SecondCall(Calls(ms[x.start..x.end]), a, b);
    ShownWrong(s, ms, x, q);
  }

  lemma WrongAt(groups: seq<Group>, ms: seq<Message>, boundary: string, k: nat)
    requires k < |Extents(ms, boundary, 0)| && k < |groups|
    requires groups[k] != GroupAt(ms, Extents(ms, boundary, 0)[k])
    ensures groups != Plan(ms, boundary)
  {
    assert Plan(ms, boundary)[k] == GroupAt(ms, Extents(ms, boundary, 0)[k]);
  }

  lemma StartsWithOldMap(c: Cache, ms: seq<Message>)
    requires c.WellFormed() && c.last < Divergence(c.messages, ms, 0)
    ensures StartScan(c, ms).results == c.results
  {
  }

  /** What the render of the list up to and with its first result at `p` leaves. */
  lemma CutAtResult(ms: seq<Message>, boundary: string, p: nat)
    requires p < |ms| && IsResult(ms[p])
    ensures var c := NextCache(EMPTY_CACHE, ms[..p + 1], boundary);
            && Valid(c, boundary) && c.messages == ms[..p + 1] && c.last == p
            && c.results == CaptureAll(map[], ms[..p + 1])
  {
    EmptyIsValid(boundary);
    RenderKeepsValid(EMPTY_CACHE, ms[..p + 1], boundary);
    FromScratch(ms[..p + 1], boundary);
    EndsWithResult(ms[..p + 1], boundary);
  }

  /**
   If a group calls an id twice and that id has one result so far, then a render of the list up to that
   result makes the next render show the result at the second call too.
   */
  lemma SecondCallBreaks(c: Cache, ms: seq<Message>, boundary: string, k: nat, x: Extent, a: nat, b: nat, p: nat)
    requires p < |ms| && IsResult(ms[p])
    requires Valid(c, boundary) && c.messages == ms[..p + 1] && c.last == p
    requires c.results == CaptureAll(map[], ms[..p + 1])
    requires ToolGroupAt(ms, boundary, k, x) && p < x.end
    requires a < b && CallAt(ms, x, a, ms[p].toolCallId) && CallAt(ms, x, b, ms[p].toolCallId)
    requires |ResultsFor(ms[..x.end], ms[p].toolCallId)| == 1
    ensures NextCache(c, ms, boundary).groups != Plan(ms, boundary)
  {
    CutDivergence(ms, p + 1);
    StartsBeforeResult(c, ms, boundary, p);
    ScannedAgain(c, ms, boundary, k, x);
    StartsWithOldMap(c, ms);
    SecondCallShows(StartScan(c, ms), ms, x, a, b, p);
    WrongAt(NextCache(c, ms, boundary).groups, ms, boundary, k);
  }

  /******* A second result before the end of a group *******/

  function FreshRef(ms: seq<Message>): (r: nat)
    ensures forall m :: m in ms ==> m.ref < r
  {
    if ms == [] then 0
    else
      var r, last := FreshRef(ms[..|ms| - 1]), ms[|ms| - 1].ref;
      if r <= last then last + 1 else r
  }

  /** A user message that is in no list of `ms`. */
  function Stranger(ms: seq<Message>): Message {
    Message(FreshRef(ms), "", User, OtherSource, "", [], [], "", false)
  }

  const LATE_RESULT := Message(0, "", Tool, OtherSource, "", [], [], "late", false)

  function Cut(ms: seq<Message>, e: nat): seq<Message>
    requires e <= |ms|
  {
    ms[..e] + [Stranger(ms)]
  }

  lemma CutFacts(ms: seq<Message>, e: nat)
    requires e <= |ms|
    ensures var b := Cut(ms, e);
            && Agree(ms, b, e) && Wall(b, e) && |b| == e + 1 && !IsResult(b[e])
            && Divergence(b, ms, 0) == e && Divergence(b + [LATE_RESULT], b, 0) == e + 1
  {
    var b := Cut(ms, e);
    assert b[..e] == ms[..e];
    assert forall k :: 0 <= k < e ==> b[k] == ms[k];
    assert (b + [LATE_RESULT])[..|b|] == b;
    CutDivergence(b + [LATE_RESULT], |b|);
  }

  lemma {:induction false} RebuildHoldsLast(range: seq<Message>, id: string)
    requires ResultsFor(range, id) != []
    ensures var results := ResultsFor(range, id);
            Key(id, 0) in Rebuild(range) && Rebuild(range)[Key(id, 0)] == results[|results| - 1]
  {
    var front, m := range[..|range| - 1], range[|range| - 1];
    if !(IsResult(m) && m.toolCallId == id) {
      RebuildHoldsLast(front, id);
    }
  }

  lemma {:induction false} CapturedStays(r: ResultMap, range: seq<Message>, key: Key)
    requires key in r
    ensures key in CaptureAll(r, range) && CaptureAll(r, range)[key] == r[key]
  {
    if range != [] {
      CapturedStays(r, range[..|range| - 1], key);
    }
  }

  lemma SameResults(b: seq<Message>, e: nat, i: nat, id: string)
    requires e <= i <= |b| == e + 1 && !IsResult(b[e])
    ensures ResultsFor(b[..i], id) == ResultsFor(b[..e], id)
  {
    if i == e + 1 {
      assert b[..e + 1] == b[..e] + [b[e]];
      OneMoreResult(b[..e], b[e], id);
    }
  }

  lemma RebuiltStays(b: seq<Message>, i: nat, id: string)
    requires i <= |b| && ResultsFor(b[..i], id) != []
    ensures var results, r := ResultsFor(b[..i], id), CaptureAll(Rebuild(b[..i]), b[i..|b|]);
            Key(id, 0) in r && r[Key(id, 0)] == results[|results| - 1]
  {
    RebuildHoldsLast(b[..i], id);
    CapturedStays(Rebuild(b[..i]), b[i..|b|], Key(id, 0));
  }

  lemma RebuiltResults(c: Cache, b: seq<Message>, boundary: string)
    requires Valid(c, boundary) && Divergence(c.messages, b, 0) <= c.last
    ensures var i := StartScan(c, b).i;
            NextCache(c, b, boundary).results == CaptureAll(Rebuild(b[..i]), b[i..|b|])
  {
    ScanResumes(c, b, boundary);
    ScanMap(StartScan(c, b), b, boundary);
  }

  /** Behind a map that is rebuilt, the plain key holds the last result of the prefix. */
  lemma RebuiltMap(r: ResultMap, b: seq<Message>, e: nat, i: nat, id: string)
    requires e <= i <= |b| == e + 1 && !IsResult(b[e]) && ResultsFor(b[..e], id) != []
    requires r == CaptureAll(Rebuild(b[..i]), b[i..|b|])
    ensures HoldsLast(r, b[..e], id)
  {
    SameResults(b, e, i, id);
    RebuiltStays(b, i, id);
  }

  lemma EndGrows(xs: seq<Extent>, n: nat, k: nat)
    requires Inside(xs, n) && Increasing(xs) && k < |xs|
    ensures xs[k].end <= EndOf(xs, 0)
  {
    if k < |xs| - 1 {
      IncreasingFar(xs, n, k, |xs| - 1);
    }
  }

  lemma KeptCovers(xs: seq<Extent>, kept: seq<Extent>, rest: seq<Extent>, n: nat, k: nat, h: nat)
    requires xs == kept + rest && Inside(xs, n) && Increasing(xs) && Beyond(rest, h)
    requires k < |xs| && xs[k].end < h
    ensures xs[k].end <= EndOf(kept, 0)
  {
    forall q | |kept| <= q < |xs|
      ensures h <= xs[q].end
    {
      assert xs[q] == rest[q - |kept|];
    }
    assert forall q :: 0 <= q < |kept| ==> kept[q] == xs[q];
    EndGrows(kept, n, k);
  }

  /** A group that ends before the divergence is kept, so the scan starts behind it. */
  lemma StartsBehind(c: Cache, b: seq<Message>, boundary: string, k: nat)
    requires Valid(c, boundary) && k < |Extents(b, boundary, 0)|
    requires Extents(b, boundary, 0)[k].end < Divergence(c.messages, b, 0)
    ensures Extents(b, boundary, 0)[k].end <= StartScan(c, b).i
  {
    ReuseSplits(c, b, boundary);
    ExtentsAreIncreasing(b, boundary);
    KeptCovers(Extents(b, boundary, 0), Kept(c, b, boundary), Extents(b, boundary, StartScan(c, b).i), |b|, k,
               Divergence(c.messages, b, 0));
  }

  /** The map holds the last of the results for `id` in `seen` at the plain key. */
  predicate HoldsLast(r: ResultMap, seen: seq<Message>, id: string) {
    var results := ResultsFor(seen, id);
    results != [] && Key(id, 0) in r && r[Key(id, 0)] == results[|results| - 1]
  }

  /** A cache from which a scan of `ms` starts at or before `e` with such a map. */
  ghost predicate Primed(c: Cache, ms: seq<Message>, boundary: string, e: nat, id: string)
    requires e <= |ms|
  {
    && Valid(c, boundary) && Divergence(c.messages, ms, 0) == e && c.last < e
    && HoldsLast(c.results, ms[..e], id)
  }

  lemma NextMessages(c: Cache, ms: seq<Message>, boundary: string)
    requires c.WellFormed()
    ensures NextCache(c, ms, boundary).messages == ms
  {
  }

  lemma LastBeforeEnd(c: Cache, boundary: string, b: seq<Message>, e: nat)
    requires Valid(c, boundary) && c.messages == b && |b| == e + 1 && !IsResult(b[e])
    ensures c.last < e
  {
    LastIsLast(b, e + 1);
  }

  lemma CutPrimes(c: Cache, ms: seq<Message>, boundary: string, k: nat, id: string)
    requires k < |Extents(ms, boundary, 0)|
    requires var e := Extents(ms, boundary, 0)[k].end;
             && ResultsFor(ms[..e], id) != []
             && Valid(c, boundary) && c.messages == Cut(ms, e) + [LATE_RESULT] && c.last == e + 1
    ensures var e := Extents(ms, boundary, 0)[k].end;
            Primed(NextCache(c, Cut(ms, e), boundary), ms, boundary, e, id)
  {
    var e := Extents(ms, boundary, 0)[k].end;
    var b := Cut(ms, e);
    CutFacts(ms, e);
    ExtentAtWall(ms, b, e, boundary, 0, k);
    StartsBehind(c, b, boundary, k);
    RebuiltResults(c, b, boundary);
    RebuiltMap(NextCache(c, b, boundary).results, b, e, StartScan(c, b).i, id);
    RenderKeepsValid(c, b, boundary);
    NextMessages(c, b, boundary);
    LastBeforeEnd(NextCache(c, b, boundary), boundary, b, e);
  }

  lemma LastResultShows(s: Scan, ms: seq<Message>, x: Extent, q: nat, id: string)
    requires s.i <= x.start < x.end <= |ms| && DeclaresCalls(ms[x.start]) && DistinctRefs(ms)
    requires CallAt(ms, x, q, id) && |ResultsFor(ms[..x.end], id)| >= 2 && HoldsLast(s.results, ms[..x.end], id)
    ensures ShownAt(s, ms, x) != GroupAt(ms, x)
  {
    CapturedStays(s.results, ms[s.i..x.end], Key(id, 0));
    ResultsDiffer(ms, x.end, id, 0, |ResultsFor(ms[..x.end], id)| - 1);
    var first := FirstCall(Calls(ms[x.start..x.end]), q);
    ShownWrong(s, ms, x, first);
  }

  /**
   If a group calls an id that has two results by its end, a render from a primed cache shows the last
   result at the first call.
   */
  lemma PrimedBreaks(c: Cache, ms: seq<Message>, boundary: string, k: nat, x: Extent, q: nat, id: string)
    requires DistinctRefs(ms) && ToolGroupAt(ms, boundary, k, x) && CallAt(ms, x, q, id)
    requires Primed(c, ms, boundary, x.end, id) && |ResultsFor(ms[..x.end], id)| >= 2
    ensures NextCache(c, ms, boundary).groups != Plan(ms, boundary)
  {
    ScannedAgain(c, ms, boundary, k, x);
    StartsWithOldMap(c, ms);
    LastResultShows(StartScan(c, ms), ms, x, q, id);
    WrongAt(NextCache(c, ms, boundary).groups, ms, boundary, k);
  }

  /******* The condition is exact *******/

  predicate Shown(m: Message) {
    !m.source.SessionContext? && !m.source.CompactionInstruction?
  }

  lemma {:induction false} VisibleAreShown(list: seq<Message>)
    ensures forall m :: m in Visible(list) ==> Shown(m)
  {
    if list != [] {
      VisibleAreShown(list[..|list| - 1]);
    }
  }

  lemma {:induction false} ShownAreVisible(list: seq<Message>)
    requires forall k :: 0 <= k < |list| ==> Shown(list[k])
    ensures Visible(list) == list
  {
    if list != [] {
      ShownAreVisible(list[..|list| - 1]);
    }
  }

  /** Whatever was rendered before, `list` is rendered as from scratch. */
  ghost predicate HistoryNeverShows(list: seq<Message>, boundary: string) {
    forall before: seq<seq<Message>> ::
      Renders(before + [list], boundary).groups == NextCache(EMPTY_CACHE, Visible(list), boundary).groups
  }

  lemma RendersOneMore(before: seq<seq<Message>>, list: seq<Message>, boundary: string)
    ensures Renders(before + [list], boundary) == NextCache(Renders(before, boundary), Visible(list), boundary)
  {
    assert (before + [list])[..|before|] == before;
  }

  lemma RobustNeverShows(list: seq<Message>, boundary: string)
    requires Robust(Visible(list), boundary)
    ensures HistoryNeverShows(list, boundary)
  {
    forall before: seq<seq<Message>>
      ensures Renders(before + [list], boundary).groups == NextCache(EMPTY_CACHE, Visible(list), boundary).groups
    {
      assert (before + [list])[|before|] == list;
      IncrementalEqualsFromScratch(before + [list], boundary);
    }
  }

  lemma HistoryShows(before: seq<seq<Message>>, list: seq<Message>, boundary: string)
    requires NextCache(Renders(before, boundary), Visible(list), boundary).groups != Plan(Visible(list), boundary)
    ensures !HistoryNeverShows(list, boundary)
  {
    RendersOneMore(before, list, boundary);
    FromScratch(Visible(list), boundary);
    assert Renders(before + [list], boundary).groups != NextCache(EMPTY_CACHE, Visible(list), boundary).groups;
  }

  lemma OneRender(list: seq<Message>, boundary: string)
    requires forall m :: m in list ==> Shown(m)
    ensures Renders([list], boundary) == NextCache(EMPTY_CACHE, list, boundary)
  {
    ShownAreVisible(list);
    RendersOneMore([], list, boundary);
    assert [] + [list] == [list];
  }

  lemma LateHistory(b: seq<Message>, boundary: string)
    requires forall m :: m in b ==> Shown(m)
    ensures var c := Renders([b + [LATE_RESULT]], boundary);
            Valid(c, boundary) && c.messages == b + [LATE_RESULT] && c.last == |b|
  {
    OneRender(b + [LATE_RESULT], boundary);
    EveryRenderValid([b + [LATE_RESULT]], boundary);
    EndsWithResult(b + [LATE_RESULT], boundary);
    NextMessages(EMPTY_CACHE, b + [LATE_RESULT], boundary);
  }

  /** Rendering a longer list and then the one cut behind the group primes the cache. */
  lemma CutHistoryPrimes(ms: seq<Message>, boundary: string, k: nat, id: string)
    requires k < |Extents(ms, boundary, 0)| && ResultsFor(ms[..Extents(ms, boundary, 0)[k].end], id) != []
    requires forall m :: m in ms ==> Shown(m)
    ensures var e := Extents(ms, boundary, 0)[k].end;
            Primed(Renders([Cut(ms, e) + [LATE_RESULT]] + [Cut(ms, e)], boundary), ms, boundary, e, id)
  {
    var e := Extents(ms, boundary, 0)[k].end;
    var b := Cut(ms, e);
    LateHistory(b, boundary);
    CutPrimes(Renders([b + [LATE_RESULT]], boundary), ms, boundary, k, id);
    ShownAreVisible(b);
    RendersOneMore([b + [LATE_RESULT]], b, boundary);
  }

  lemma ResultsBreak(list: seq<Message>, boundary: string, k: nat, x: Extent, q: nat, id: string)
    requires DistinctRefs(Visible(list)) && ToolGroupAt(Visible(list), boundary, k, x)
    requires CallAt(Visible(list), x, q, id) && |ResultsFor(Visible(list)[..x.end], id)| >= 2
    ensures !HistoryNeverShows(list, boundary)
  {
    var ms := Visible(list);
    var before := [Cut(ms, x.end) + [LATE_RESULT]] + [Cut(ms, x.end)];
    VisibleAreShown(list);
    CutHistoryPrimes(ms, boundary, k, id);
    PrimedBreaks(Renders(before, boundary), ms, boundary, k, x, q, id);
    HistoryShows(before, list, boundary);
  }

  lemma CallsBreak(list: seq<Message>, boundary: string, k: nat, x: Extent, a: nat, b: nat, id: string)
    requires ToolGroupAt(Visible(list), boundary, k, x)
    requires a < b && CallAt(Visible(list), x, a, id) && CallAt(Visible(list), x, b, id)
    requires |ResultsFor(Visible(list)[..x.end], id)| == 1
    ensures !HistoryNeverShows(list, boundary)
  {
    var ms := Visible(list);
    ListedIsResult(ms[..x.end], id, ResultsFor(ms[..x.end], id)[0]);
    var p :| 0 <= p < x.end && ms[..x.end][p] == ResultsFor(ms[..x.end], id)[0];
    VisibleAreShown(list);
    CutAtResult(ms, boundary, p);
    SecondCallBreaks(NextCache(EMPTY_CACHE, ms[..p + 1], boundary), ms, boundary, k, x, a, b, p);
    OneRender(ms[..p + 1], boundary);
    HistoryShows([ms[..p + 1]], list, boundary);
  }

  lemma UnsettledBreaks(list: seq<Message>, boundary: string, k: nat, x: Extent, c: nat)
    requires DistinctRefs(Visible(list)) && ToolGroupAt(Visible(list), boundary, k, x)
    requires c < |Calls(Visible(list)[x.start..x.end])| && !Settled(Visible(list), x, c)
    ensures !HistoryNeverShows(list, boundary)
  {
    var calls := Calls(Visible(list)[x.start..x.end]);
    var id := calls[c].id;
    if |ResultsFor(Visible(list)[..x.end], id)| == 1 {
      var other :| 0 <= other < |calls| && calls[other].id == id && other != c;
      if c < other {
        CallsBreak(list, boundary, k, x, c, other, id);
      } else {
        CallsBreak(list, boundary, k, x, other, c, id);
      }
    } else {
      ResultsBreak(list, boundary, k, x, c, id);
    }
  }

  /**
   A list of distinct messages is rendered as from scratch after every history if and only if each call
   in a tool group has, by the group's end, no result, or one and no second call with its id in the group.
   */
  lemma ExactlyWhenRobust(list: seq<Message>, boundary: string)
    requires DistinctRefs(Visible(list))
    ensures HistoryNeverShows(list, boundary) <==> Robust(Visible(list), boundary)
  {
    var ms := Visible(list);
    if Robust(ms, boundary) {
      RobustNeverShows(list, boundary);
    } else {
      var k :| 0 <= k < |Extents(ms, boundary, 0)| && !RobustAt(ms, Extents(ms, boundary, 0)[k]);
      var x := Extents(ms, boundary, 0)[k];
      var c :| 0 <= c < |Calls(ms[x.start..x.end])| && !Settled(ms, x, c);
      UnsettledBreaks(list, boundary, k, x, c);
    }
  }
}
