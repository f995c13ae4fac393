/**
 What the groups of src/hooks/useMessageGrouping.ts contain: they tile the message list up to
 unclaimed tool results, and a group's n-th call with an id gets the n-th result for it. The
 last lemma is a small list that the cached render shows wrongly.
 */
module GroupingLayout {
  import opened Wrappers
  import opened MessageGrouping
  import opened IncrementalGrouping
  import opened GroupingResults
  import opened GroupingCache

  /******* Tiling *******/

  predicate Holds(x: Extent, p: nat) {
    x.start <= p < x.end
  }

  predicate Claims(xs: seq<Extent>, p: nat) {
    exists k :: 0 <= k < |xs| && Holds(xs[k], p)
  }

  /** Some message from `lo` up to but not including `hi` declares a call with `id`. */
  predicate Declared(ms: seq<Message>, lo: nat, hi: nat, id: string)
    requires lo <= hi <= |ms|
  {
    exists q :: lo <= q < hi && DeclaresCalls(ms[q]) && id in CallIds(ms[q].toolCalls)
  }

  /** The message at `p` declares calls, or is a tool result that answers a call declared since `start`. */
  predicate Belongs(ms: seq<Message>, start: nat, p: nat)
    requires start <= p < |ms|
  {
    DeclaresCalls(ms[p]) || (IsResult(ms[p]) && Declared(ms, start, p, ms[p].toolCallId))
  }

  lemma RoundBelongs(ms: seq<Message>, start: nat, j: nat, ids: set<string>, k: nat)
    requires start <= j < k <= |ms| && DeclaresCalls(ms[j])
    requires forall id :: id in ids ==> Declared(ms, start, j, id)
    requires forall p :: j < p < k ==> Answers(ms[p], ids + CallIds(ms[j].toolCalls))
    ensures forall id :: id in ids + CallIds(ms[j].toolCalls) ==> Declared(ms, start, k, id)
    ensures forall p :: j <= p < k ==> Belongs(ms, start, p)
  {
    forall id, p | id in ids + CallIds(ms[j].toolCalls) && j < p <= k
      ensures Declared(ms, start, p, id)
    {
      if id in ids {
        assert Declared(ms, start, j, id);
      }
    }
  }

  lemma {:induction false} GroupRange(ms: seq<Message>, boundary: string, start: nat, j: nat, ids: set<string>)
    requires start <= j <= |ms|
    requires forall id :: id in ids ==> Declared(ms, start, j, id)
    ensures forall p :: j <= p < GroupEnd(ms, boundary, start, j, ids) ==> Belongs(ms, start, p)
    decreases |ms| - j
  {
    if Continues(ms, start, j) {
      var ids' := ids + CallIds(ms[j].toolCalls);
      var k := ResultsEnd(ms, j + 1, ids');
      ResultRun(ms, j + 1, ids');
      RoundBelongs(ms, start, j, ids, k);
      if !HitsBoundary(ms[j..k], boundary) {
        GroupRange(ms, boundary, start, k, ids');
      }
    }
  }

  /** What a group at `x` holds, according to its kind. */
  predicate WellPlaced(ms: seq<Message>, x: Extent, g: Group)
    requires x.start < x.end <= |ms|
  {
    var range := ms[x.start..x.end];
    match g
    case Single(m) => x.end == x.start + 1 && m == ms[x.start] && !m.role.Tool? && !DeclaresCalls(m)
    case ErrorGroup(m, messages) =>
      && m == ms[x.start] && messages == range
      && (forall p :: x.start <= p < x.end ==> IsToolError(ms[p]))
      && (x.end < |ms| ==> !IsToolError(ms[x.end]))
    case ToolGroup(m, messages, covered, calls, _) =>
      && m == ms[x.start] && DeclaresCalls(m)
      && |covered| == |range| && (forall p :: 0 <= p < |range| ==> covered[p] == range[p].id)
      && messages == Members(range) && calls == Calls(range)
      && (forall p :: x.start <= p < x.end ==> Belongs(ms, x.start, p))
  }

  lemma {:induction false} IdsAt(range: seq<Message>)
    ensures |Ids(range)| == |range| && forall p :: 0 <= p < |range| ==> Ids(range)[p] == range[p].id
  {
    if range != [] {
      IdsAt(range[..|range| - 1]);
    }
  }

  lemma GroupIsWellPlaced(ms: seq<Message>, boundary: string, i: nat)
    requires i < |ms| && !Standalone(ms[i])
    ensures var x := Extent(i, Next(ms, boundary, i)); WellPlaced(ms, x, GroupAt(ms, x))
  {
    var x := Extent(i, Next(ms, boundary, i));
    assert ms[x.start..x.end][0] == ms[i];
    IdsAt(ms[x.start..x.end]);
    if IsToolError(ms[i]) {
      ErrorRun(ms, i);
    } else if DeclaresCalls(ms[i]) {
      GroupRange(ms, boundary, i, i, {});
    }
  }

  lemma {:induction false} Claimed(ms: seq<Message>, boundary: string, i: nat, p: nat)
    requires i <= p < |ms| && !Standalone(ms[p])
    ensures Claims(Extents(ms, boundary, i), p)
    decreases |ms| - i
  {
    var e := Next(ms, boundary, i);
    var xs := Extents(ms, boundary, i);
    if Standalone(ms[i]) {
      Claimed(ms, boundary, e, p);
    } else if p < e {
      assert xs[0] == Extent(i, e);
    } else {
      Claimed(ms, boundary, e, p);
      var ys := Extents(ms, boundary, e);
      var k :| 0 <= k < |ys| && Holds(ys[k], p);
      assert xs[k + 1] == ys[k];
    }
  }

  lemma {:induction false} IncreasingFar(xs: seq<Extent>, n: nat, a: nat, b: nat)
    requires Inside(xs, n) && Increasing(xs) && a < b < |xs|
    ensures xs[a].end <= xs[b].start
    decreases b
  {
    if a + 1 < b {
      IncreasingFar(xs, n, a, b - 1);
    }
  }

  /**
   The groups lie in increasing, disjoint ranges and hold exactly their range; a message
   outside all of them is a tool message that is no error, so every other message is in
   exactly one group.
   */
  lemma Tiling(ms: seq<Message>, boundary: string)
    ensures var xs, groups := Extents(ms, boundary, 0), NextCache(EMPTY_CACHE, ms, boundary).groups;
            && |groups| == |xs|
            && (forall k :: 0 <= k < |xs| ==> WellPlaced(ms, xs[k], groups[k]))
            && (forall j, k :: 0 <= j < k < |xs| ==> xs[j].end <= xs[k].start)
            && (forall p :: 0 <= p < |ms| ==> Standalone(ms[p]) || Claims(xs, p))
            && (forall p, j, k :: 0 <= j < k < |xs| ==> !(Holds(xs[j], p) && Holds(xs[k], p)))
  {
    var xs := Extents(ms, boundary, 0);
    FromScratch(ms, boundary);
    ExtentsAreIncreasing(ms, boundary);
    forall k | 0 <= k < |xs|
      ensures WellPlaced(ms, xs[k], GroupAt(ms, xs[k]))
    {
      ExtentsIncrease(ms, boundary, 0, k);
      GroupIsWellPlaced(ms, boundary, xs[k].start);
    }
    forall j, k | 0 <= j < k < |xs|
      ensures xs[j].end <= xs[k].start
    {
      IncreasingFar(xs, |ms|, j, k);
    }
    forall p | 0 <= p < |ms| && !Standalone(ms[p])
      ensures Claims(xs, p)
    {
      Claimed(ms, boundary, 0, p);
    }
  }

  /******* The guard *******/

  /** A scan that stands at `i` comes to stand at `p`. */
  predicate Visits(ms: seq<Message>, boundary: string, i: nat, p: nat)
    requires i <= |ms|
    decreases |ms| - i
  {
    i == p || (i < |ms| && Visits(ms, boundary, Next(ms, boundary, i), p))
  }

  lemma {:induction false} GuardStaysFalse(ms: seq<Message>, boundary: string, i: nat, p: nat)
    requires i <= |ms| && !FollowsItsCall(ms, i) && Visits(ms, boundary, i, p)
    ensures !FollowsItsCall(ms, p)
    decreases |ms| - i
  {
    if i != p {
      NextClean(ms, boundary, i);
      GuardStaysFalse(ms, boundary, Next(ms, boundary, i), p);
    }
  }

  /** Starting at 0 or where a group ends, the guard of lines 249-253 holds at no position of the scan. */
  lemma GuardNeverHolds(ms: seq<Message>, boundary: string, start: nat, p: nat)
    requires start <= |ms| && Visits(ms, boundary, start, p)
    requires start == 0 || exists x :: x in Extents(ms, boundary, 0) && x.end == start
    ensures !FollowsItsCall(ms, p)
  {
    if start > 0 {
      var xs := Extents(ms, boundary, 0);
      var k :| 0 <= k < |xs| && xs[k].end == start;
      ExtentsIncrease(ms, boundary, 0, k);
    }
    GuardStaysFalse(ms, boundary, start, p);
  }

  /******* Pairing *******/

  /** The n-th call with an id (counting from 0) has the n-th result for that id that the group at `x` consumed. */
  predicate PairedInGroup(ms: seq<Message>, x: Extent, g: Group, c: nat)
    requires x.start < x.end <= |ms|
    requires c < |Calls(ms[x.start..x.end])|
  {
    var range := ms[x.start..x.end];
    var calls := Calls(range);
    && g.ToolGroup? && g.calls == calls && c < |g.results|
    && g.results[c] == Nth(ResultsFor(range, calls[c].id), Occurrences(calls, c, calls[c].id))
  }

  lemma ResultsInGroup(ms: seq<Message>, x: Extent, id: string)
    requires x.start < x.end <= |ms| && ResultsFor(ms[..x.start], id) == []
    ensures ResultsFor(ms[..x.end], id) == ResultsFor(ms[x.start..x.end], id)
  {
    ResultsForConcat(ms[..x.start], ms[x.start..x.end], id);
    assert ms[..x.start] + ms[x.start..x.end] == ms[..x.end];
  }

  lemma PairedAt(ms: seq<Message>, x: Extent, c: nat)
    requires x.start < x.end <= |ms| && DeclaresCalls(ms[x.start])
    requires c < |Calls(ms[x.start..x.end])|
    requires ResultsFor(ms[..x.start], Calls(ms[x.start..x.end])[c].id) == []
    ensures PairedInGroup(ms, x, GroupAt(ms, x), c)
  {
    ResultsInGroup(ms, x, Calls(ms[x.start..x.end])[c].id);
    assert ms[x.start..x.end][0] == ms[x.start];
  }

  /** From an empty cache, calls whose id has no result before their group are paired in order, duplicates included. */
  lemma PairingWithDuplicates(ms: seq<Message>, boundary: string, k: nat, c: nat)
    requires k < |Extents(ms, boundary, 0)|
    requires var x := Extents(ms, boundary, 0)[k];
             DeclaresCalls(ms[x.start]) && c < |Calls(ms[x.start..x.end])|
    requires var x := Extents(ms, boundary, 0)[k];
             ResultsFor(ms[..x.start], Calls(ms[x.start..x.end])[c].id) == []
    ensures var groups := NextCache(EMPTY_CACHE, ms, boundary).groups;
            k < |groups| && PairedInGroup(ms, Extents(ms, boundary, 0)[k], groups[k], c)
  {
    FromScratch(ms, boundary);
    PairedAt(ms, Extents(ms, boundary, 0)[k], c);
  }

  /******* A list that the cache may show wrongly *******/

  /** An assistant message with two calls of one id, its result, and perhaps a user message. */
  predicate Doubled(ms: seq<Message>) {
    && 2 <= |ms| <= 3
    && ms[0].role.Assistant? && |ms[0].toolCalls| == 2
    && ms[0].toolCalls[0].id == ms[0].toolCalls[1].id == ms[1].toolCallId
    && IsResult(ms[1])
    && (|ms| == 3 ==> ms[2].role.User? && ms[2].toolCalls == [])
  }

  lemma DoubledExtent(ms: seq<Message>)
    requires Doubled(ms)
    ensures Next(ms, "", 0) == 2
  {
    var ids := {} + CallIds(ms[0].toolCalls);
    assert ms[0].toolCalls[0] in ms[0].toolCalls;
    assert ResultsEnd(ms, 2, ids) == 2;
    assert ResultsEnd(ms, 1, ids) == 2;
    assert GroupEnd(ms, "", 0, 2, ids) == 2;
  }

  lemma PairContents(a: Message, t: Message, r: ResultMap)
    requires DeclaresCalls(a) && IsResult(t)
    ensures Members([a, t]) == [a] && Ids([a, t]) == [a.id, t.id] && Calls([a, t]) == a.toolCalls
    ensures CaptureAll(r, [a, t]) == Capture(r, t)
  {
    assert [a, t][..1] == [a] && [a][..0] == [];
    assert Members([a]) == [a] && Ids([a]) == [a.id] && Calls([a]) == a.toolCalls && CaptureAll(r, [a]) == r;
  }

  lemma DoubledGroup(ms: seq<Message>, r: ResultMap)
    requires Doubled(ms)
    ensures ms[0..2] == ms[..2] == [ms[0], ms[1]]
    ensures Calls(ms[..2]) == ms[0].toolCalls && CaptureAll(r, ms[..2]) == Capture(r, ms[1])
    ensures Paired(ms[0].toolCalls, CaptureAll(r, ms[..2]))
         == [Lookup(Capture(r, ms[1]), Key(ms[1].toolCallId, 0)), Lookup(Capture(r, ms[1]), Key(ms[1].toolCallId, 1))]
  {
    PairContents(ms[0], ms[1], r);
    assert ms[..2] == [ms[0], ms[1]];
    assert Occurrences(ms[0].toolCalls, 1, ms[1].toolCallId) == 1;
  }

  /** With a doubled id the scan from scratch gives the second call no result. */
  lemma DoubledFromScratch(ms: seq<Message>)
    requires Doubled(ms)
    ensures var groups := NextCache(EMPTY_CACHE, ms, "").groups;
            groups != [] && groups[0].ToolGroup? && groups[0].results == [Some(ms[1]), None]
  {
    DoubledExtent(ms);
    DoubledGroup(ms, map[]);
    FromScratch(ms, "");
    PairedFromEmptyMap(ms[0].toolCalls, ms[..2]);
    assert Extents(ms, "", 0) == [Extent(0, 2)] + Extents(ms, "", 2);
  }

  lemma DoubledCache(ms: seq<Message>)
    requires Doubled(ms) && |ms| == 2
    ensures var c := NextCache(EMPTY_CACHE, ms, "");
            c.ends == [2] && c.results == map[Key(ms[1].toolCallId, 0) := ms[1]] && c.last == 1
  {
    DoubledExtent(ms);
    DoubledGroup(ms, map[]);
    FromScratch(ms, "");
    assert ms[..2] == ms;
    assert Extents(ms, "", 0) == [Extent(0, 2)];
    assert LastResult(-1, ms, 0, 1) == -1;
  }

  /** A render of one message more, from the cache of the list without it, scans the group again. */
  lemma DoubledRescan(c: Cache, ms: seq<Message>)
    requires Doubled(ms) && |ms| == 3 && c.WellFormed()
    requires c.messages == ms[..2] && c.ends == [2] && c.last == 1
    requires c.results == map[Key(ms[1].toolCallId, 0) := ms[1]]
    requires c.groups[0].ToolGroup?
    ensures var groups := NextCache(c, ms, "").groups;
            groups != [] && groups[0].ToolGroup? && groups[0].results == [Some(ms[1]), Some(ms[1])]
  {
    DoubledExtent(ms);
    DoubledGroup(ms, c.results);
    var s := StartScan(c, ms);
    assert Divergence(ms[..2], ms, 0) == 2;
    assert s == Scan(0, [], [], c.results, 1);
    var t := Step(s, ms, "");
    assert FirstFree(c.results, ms[1].toolCallId, 0) == 1;
    assert t.groups[0].results == [Some(ms[1]), Some(ms[1])];
    var u := Step(t, ms, "");
    assert u.i == 3 && u.groups[0] == t.groups[0];
    assert Finish(u, ms, "") == u;
    assert Finish(s, ms, "") == Finish(t, ms, "") == Finish(u, ms, "");
  }

  /**
   Two calls of one id and one result: appending a user message makes the cached render show
   that result at both calls, where a render from scratch leaves the second call without one.
   */
  lemma DuplicateIdsDiverge(ms: seq<Message>)
    requires Doubled(ms) && |ms| == 3
    ensures var cached := NextCache(NextCache(EMPTY_CACHE, ms[..2], ""), ms, "").groups;
            var fromScratch := NextCache(EMPTY_CACHE, ms, "").groups;
            && cached != [] && cached[0].ToolGroup? && cached[0].results == [Some(ms[1]), Some(ms[1])]
            && fromScratch != [] && fromScratch[0].ToolGroup? && fromScratch[0].results == [Some(ms[1]), None]
  {
    DoubledFromScratch(ms[..2]);
    DoubledFromScratch(ms);
    DoubledCache(ms[..2]);
    DoubledRescan(NextCache(EMPTY_CACHE, ms[..2], ""), ms);
  }
}
