/**
 Why the cached render of src/hooks/useMessageGrouping.ts may reuse what it reuses: a scan
 from scratch yields the reference plan, a group that ended before the divergence is the
 group a scan of the new list would build, and rescanning from there with the reused or
 rebuilt result map gives the groups of a scan from scratch.
 */
module IncrementalGrouping {
  import opened MessageGrouping

  /******* The result map holds the results in order *******/

  lemma {:induction false} CaptureAllConcat(r: ResultMap, a: seq<Message>, b: seq<Message>)
    ensures CaptureAll(CaptureAll(r, a), b) == CaptureAll(r, a + b)
  {
    if b == [] {
      assert a + b == a;
    } else {
      CaptureAllConcat(r, a, b[..|b| - 1]);
      assert (a + b)[..|a + b| - 1] == a + b[..|b| - 1];
    }
  }

  lemma {:induction false} CallsConcat(a: seq<Message>, b: seq<Message>)
    ensures Calls(a + b) == Calls(a) + Calls(b)
  {
    if b == [] {
      assert a + b == a;
    } else {
      CallsConcat(a, b[..|b| - 1]);
      assert (a + b)[..|a + b| - 1] == a + b[..|b| - 1];
    }
  }

  /** From an empty map, key (id, n) holds the n-th result for id. */
  lemma {:induction false} CapturedInOrder(range: seq<Message>)
    ensures forall key :: key in CaptureAll(map[], range) <==> key.n < |ResultsFor(range, key.id)|
    ensures forall key :: key in CaptureAll(map[], range) ==>
              CaptureAll(map[], range)[key] == ResultsFor(range, key.id)[key.n]
  {
    if range != [] {
      var front, m := range[..|range| - 1], range[|range| - 1];
      CapturedInOrder(front);
      var r := CaptureAll(map[], front);
      if IsResult(m) {
        var n := FirstFree(r, m.toolCallId, 0);
        assert n == |ResultsFor(front, m.toolCallId)| by {
          assert Key(m.toolCallId, n) !in r;
          assert n > 0 ==> Key(m.toolCallId, n - 1) in r;
        }
      }
    }
  }

  lemma PairedFromEmptyMap(calls: seq<ToolCall>, prefix: seq<Message>)
    ensures Paired(calls, CaptureAll(map[], prefix)) == PairedInOrder(calls, prefix)
  {
    CapturedInOrder(prefix);
  }

  lemma {:induction false} LastResultJoin(floor: int, ms: seq<Message>, lo: nat, mid: nat, hi: nat)
    requires lo <= mid <= hi <= |ms|
    ensures LastResult(LastResult(floor, ms, lo, mid), ms, mid, hi) == LastResult(floor, ms, lo, hi)
    decreases hi
  {
    if mid < hi {
      LastResultJoin(floor, ms, lo, mid, hi - 1);
    }
  }

  /******* What the extents contain *******/

  lemma {:induction false} ErrorRun(ms: seq<Message>, j: nat)
    requires j <= |ms|
    ensures var e := ErrorEnd(ms, j);
            && (forall k :: j <= k < e ==> IsToolError(ms[k]))
            && (e < |ms| ==> !IsToolError(ms[e]))
    decreases |ms| - j
  {
    if j < |ms| && IsToolError(ms[j]) {
      ErrorRun(ms, j + 1);
    }
  }

  lemma {:induction false} ResultRun(ms: seq<Message>, j: nat, ids: set<string>)
    requires j <= |ms|
    ensures var e := ResultsEnd(ms, j, ids);
            && (forall k :: j <= k < e ==> Answers(ms[k], ids))
            && (e < |ms| ==> !Answers(ms[e], ids))
    decreases |ms| - j
  {
    if j < |ms| && Answers(ms[j], ids) {
      ResultRun(ms, j + 1, ids);
    }
  }

  /******* The guard of lines 249-253 never fires *******/

  lemma {:induction false} GroupEndClean(ms: seq<Message>, boundary: string, start: nat, j: nat, ids: set<string>)
    requires start <= j <= |ms|
    requires j > start ==> !FollowsItsCall(ms, j)
    ensures var e := GroupEnd(ms, boundary, start, j, ids); e > start ==> !FollowsItsCall(ms, e)
    decreases |ms| - j
  {
    if Continues(ms, start, j) {
      var ids' := ids + CallIds(ms[j].toolCalls);
      var k := ResultsEnd(ms, j + 1, ids');
      ResultRun(ms, j + 1, ids');
      assert CallIds(ms[j].toolCalls) <= ids';
      GroupEndClean(ms, boundary, start, k, ids');
    }
  }

  lemma NextClean(ms: seq<Message>, boundary: string, i: nat)
    requires i < |ms|
    ensures !FollowsItsCall(ms, Next(ms, boundary, i))
  {
    if IsToolError(ms[i]) {
      ErrorRun(ms, i);
    } else if DeclaresCalls(ms[i]) {
      GroupEndClean(ms, boundary, i, i, {});
    }
  }

  /** Where the guard does not hold, a step captures every result it passes, whatever it passes. */
  lemma StepCaptures(s: Scan, ms: seq<Message>, boundary: string)
    requires s.i < |ms| && !FollowsItsCall(ms, s.i)
    ensures var t := Step(s, ms, boundary);
            && t.results == CaptureAll(s.results, ms[s.i..t.i])
            && t.last == LastResult(s.last, ms, s.i, t.i)
            && !FollowsItsCall(ms, t.i)
  {
    NextClean(ms, boundary, s.i);
  }

  /******* A scan from scratch follows the plan *******/

  /** What a scan from scratch knows at position `i`. */
  predicate Scratch(s: Scan, ms: seq<Message>) {
    && s.i <= |ms|
    && !FollowsItsCall(ms, s.i)
    && s.results == CaptureAll(map[], ms[..s.i])
    && s.last == LastResult(-1, ms, 0, s.i)
  }

  lemma ScratchStep(s: Scan, ms: seq<Message>, boundary: string)
    requires Scratch(s, ms) && s.i < |ms|
    ensures Scratch(Step(s, ms, boundary), ms)
    ensures Extended(s, Step(s, ms, boundary), ms)
  {
    var t := Step(s, ms, boundary);
    StepCaptures(s, ms, boundary);
    CaptureAllConcat(map[], ms[..s.i], ms[s.i..t.i]);
    assert ms[..s.i] + ms[s.i..t.i] == ms[..t.i];
    LastResultJoin(-1, ms, 0, s.i, t.i);
    PairedFromEmptyMap(Calls(ms[s.i..t.i]), ms[..t.i]);
  }

  /** The step from `s` to `t` has added the group it passed, if it passed one. */
  predicate Extended(s: Scan, t: Scan, ms: seq<Message>) {
    && s.i < t.i <= |ms|
    && if Standalone(ms[s.i]) then t.groups == s.groups && t.ends == s.ends
       else t.groups == s.groups + [GroupAt(ms, Extent(s.i, t.i))] && t.ends == s.ends + [t.i]
  }

  /** Between `s` and `t` the groups at `xs` have been added. */
  predicate Built(s: Scan, t: Scan, ms: seq<Message>, xs: seq<Extent>)
    requires Inside(xs, |ms|)
  {
    t.groups == s.groups + GroupsAt(ms, xs) && t.ends == s.ends + Ends(xs)
  }

  lemma BuiltCons(s: Scan, t: Scan, u: Scan, ms: seq<Message>, xs: seq<Extent>)
    requires Inside(xs, |ms|) && s.i < |ms|
    requires Extended(s, t, ms) && Built(t, u, ms, xs)
    ensures Standalone(ms[s.i]) ==> Built(s, u, ms, xs)
    ensures !Standalone(ms[s.i]) ==>
              Inside([Extent(s.i, t.i)] + xs, |ms|) && Built(s, u, ms, [Extent(s.i, t.i)] + xs)
  {
    var x := Extent(s.i, t.i);
    assert Inside([x] + xs, |ms|);
    assert GroupsAt(ms, [x] + xs) == [GroupAt(ms, x)] + GroupsAt(ms, xs);
    assert Ends([x] + xs) == [x.end] + Ends(xs);
  }

  lemma {:induction false} ScratchFollowsPlan(s: Scan, ms: seq<Message>, boundary: string)
    requires Scratch(s, ms)
    ensures var t := Finish(s, ms, boundary);
            Built(s, t, ms, Extents(ms, boundary, s.i)) && t.i == |ms| && Scratch(t, ms)
    decreases |ms| - s.i
  {
    if s.i < |ms| {
      var t := Step(s, ms, boundary);
      ScratchStep(s, ms, boundary);
      ScratchFollowsPlan(t, ms, boundary);
      BuiltCons(s, t, Finish(t, ms, boundary), ms, Extents(ms, boundary, t.i));
    }
  }

  /** From an empty cache, and for every list, the groups are those of the reference. */
  lemma FromScratch(ms: seq<Message>, boundary: string)
    ensures var c := NextCache(EMPTY_CACHE, ms, boundary);
            && c.groups == Plan(ms, boundary)
            && c.ends == Ends(Extents(ms, boundary, 0))
            && c.results == CaptureAll(map[], ms)
            && c.last == LastResult(-1, ms, 0, |ms|)
  {
    var s := StartScan(EMPTY_CACHE, ms);
    assert ReuseCount(EMPTY_CACHE, Divergence([], ms, 0), 0) == 0;
    assert s == Scan(0, [], [], map[], -1);
    ScratchFollowsPlan(s, ms, boundary);
    assert ms[..|ms|] == ms;
  }

  /******* Stability: what was decided before the divergence is decided again *******/

  /** Two lists have the same first `d` messages. */
  predicate Agree(a: seq<Message>, b: seq<Message>, d: nat) {
    d <= |a| && d <= |b| && a[..d] == b[..d]
  }

  lemma AgreeAt(a: seq<Message>, b: seq<Message>, d: nat, i: nat)
    requires Agree(a, b, d) && i < d
    ensures a[i] == b[i]
  {
    assert a[i] == a[..d][i];
  }

  lemma AgreeOn(a: seq<Message>, b: seq<Message>, d: nat, lo: nat, hi: nat)
    requires Agree(a, b, d) && lo <= hi <= d
    ensures a[lo..hi] == b[lo..hi]
  {
    assert a[lo..hi] == a[..d][lo..hi];
    assert b[lo..hi] == b[..d][lo..hi];
  }

  lemma {:induction false} ErrorEndStable(a: seq<Message>, b: seq<Message>, d: nat, j: nat)
    requires Agree(a, b, d) && j <= |a|
    requires ErrorEnd(a, j) < d
    ensures ErrorEnd(b, j) == ErrorEnd(a, j)
    decreases |a| - j
  {
    AgreeAt(a, b, d, j);
    if IsToolError(a[j]) {
      ErrorEndStable(a, b, d, j + 1);
    }
  }

  lemma {:induction false} ResultsEndStable(a: seq<Message>, b: seq<Message>, d: nat, j: nat, ids: set<string>)
    requires Agree(a, b, d) && j <= |a|
    requires ResultsEnd(a, j, ids) < d
    ensures ResultsEnd(b, j, ids) == ResultsEnd(a, j, ids)
    decreases |a| - j
  {
    AgreeAt(a, b, d, j);
    if Answers(a[j], ids) {
      ResultsEndStable(a, b, d, j + 1, ids);
    }
  }

  lemma {:induction false} GroupEndStable(a: seq<Message>, b: seq<Message>, d: nat, boundary: string,
                                          start: nat, j: nat, ids: set<string>)
    requires Agree(a, b, d) && start <= j <= |a|
    requires GroupEnd(a, boundary, start, j, ids) < d
    ensures GroupEnd(b, boundary, start, j, ids) == GroupEnd(a, boundary, start, j, ids)
    decreases |a| - j
  {
    AgreeAt(a, b, d, j);
    if Continues(a, start, j) {
      var ids' := ids + CallIds(a[j].toolCalls);
      var k := ResultsEnd(a, j + 1, ids');
      ResultsEndStable(a, b, d, j + 1, ids');
      AgreeOn(a, b, d, j, k);
      if !HitsBoundary(a[j..k], boundary) {
        GroupEndStable(a, b, d, boundary, start, k, ids');
      }
    }
  }

  /** A group at `x` that is reusable against a divergence at `d`. */
  predicate Keeps(ms: seq<Message>, x: Extent, d: nat) {
    && x.start < x.end <= |ms|
    && (x.end < d || (x.end == d && !IsToolError(ms[x.start]) && !DeclaresCalls(ms[x.start])))
  }

  lemma NextStable(a: seq<Message>, b: seq<Message>, d: nat, boundary: string, i: nat)
    requires Agree(a, b, d) && i < |a|
    requires Keeps(a, Extent(i, Next(a, boundary, i)), d)
    ensures i < |b| && a[i] == b[i]
    ensures Next(b, boundary, i) == Next(a, boundary, i)
  {
    AgreeAt(a, b, d, i);
    if IsToolError(a[i]) {
      ErrorEndStable(a, b, d, i);
    } else if DeclaresCalls(a[i]) {
      GroupEndStable(a, b, d, boundary, i, i, {});
    }
  }

  /** The extents increase, and no scan position among them is one where the guard holds. */
  lemma {:induction false} ExtentsIncrease(ms: seq<Message>, boundary: string, i: nat, k: nat)
    requires i <= |ms| && k < |Extents(ms, boundary, i)|
    ensures var xs := Extents(ms, boundary, i);
            && (if k == 0 then i else xs[k - 1].end) <= xs[k].start
            && !Standalone(ms[xs[k].start])
            && xs[k].end == Next(ms, boundary, xs[k].start)
            && !FollowsItsCall(ms, xs[k].end)
    decreases |ms| - i
  {
    var e := Next(ms, boundary, i);
    if Standalone(ms[i]) {
      ExtentsIncrease(ms, boundary, e, k);
    } else if k > 0 {
      ExtentsIncrease(ms, boundary, e, k - 1);
    } else {
      NextClean(ms, boundary, i);
    }
  }

  predicate KeepsAll(ms: seq<Message>, xs: seq<Extent>, d: nat) {
    forall k :: 0 <= k < |xs| ==> Keeps(ms, xs[k], d)
  }

  function EndOf(xs: seq<Extent>, i: nat): nat {
    if xs == [] then i else xs[|xs| - 1].end
  }

  lemma PrefixTail(xs: seq<Extent>, x: Extent, ys: seq<Extent>)
    requires xs != [] && xs <= [x] + ys
    ensures xs[0] == x && xs[1..] <= ys && xs == [x] + xs[1..]
    ensures EndOf(xs, 0) == EndOf(xs[1..], x.end)
  {
    assert ([x] + ys)[1..] == ys;
  }

  lemma KeepsTail(ms: seq<Message>, xs: seq<Extent>, d: nat)
    requires xs != [] && KeepsAll(ms, xs, d)
    ensures Keeps(ms, xs[0], d) && KeepsAll(ms, xs[1..], d)
  {
  }

  lemma ExtentsUnfold(ms: seq<Message>, boundary: string, i: nat)
    requires i < |ms|
    ensures Standalone(ms[i]) ==> Extents(ms, boundary, i) == Extents(ms, boundary, i + 1)
    ensures var x := Extent(i, Next(ms, boundary, i));
            !Standalone(ms[i]) ==> Extents(ms, boundary, i) == [x] + Extents(ms, boundary, x.end)
  {
  }

  lemma PrefixReusedCons(b: seq<Message>, boundary: string, i: nat, x: Extent, xs: seq<Extent>)
    requires i < |b| && !Standalone(b[i]) && x == Extent(i, Next(b, boundary, i))
    requires EndOf(xs, x.end) <= |b|
    requires Extents(b, boundary, x.end) == xs + Extents(b, boundary, EndOf(xs, x.end))
    ensures Extents(b, boundary, i) == [x] + xs + Extents(b, boundary, EndOf(xs, x.end))
  {
    ExtentsUnfold(b, boundary, i);
  }

  /** If the old list's extents begin with `xs`, all reusable, so do the new list's, which go on from their end. */
  lemma {:induction false} PrefixReused(a: seq<Message>, b: seq<Message>, d: nat, boundary: string, i: nat,
                                        xs: seq<Extent>)
    requires Agree(a, b, d) && i <= |a| && i <= |b|
    requires xs <= Extents(a, boundary, i) && KeepsAll(a, xs, d)
    ensures EndOf(xs, i) <= |b|
    ensures Extents(b, boundary, i) == xs + Extents(b, boundary, EndOf(xs, i))
    decreases |a| - i
  {
    if xs == [] {
      assert Extents(b, boundary, i) == xs + Extents(b, boundary, i);
    } else {
      var e := Next(a, boundary, i);
      ExtentsIncrease(a, boundary, i, 0);
      KeepsTail(a, xs, d);
      NextStable(a, b, d, boundary, i);
      if Standalone(a[i]) {
        ExtentsUnfold(b, boundary, i);
        PrefixReused(a, b, d, boundary, e, xs);
      } else {
        PrefixTail(xs, Extent(i, e), Extents(a, boundary, e));
        PrefixReused(a, b, d, boundary, e, xs[1..]);
        PrefixReusedCons(b, boundary, i, xs[0], xs[1..]);
      }
    }
  }
}
