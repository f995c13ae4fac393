/**
 The hook `useMessageGrouping` as it runs: a cache that each render replaces, loops over the
 message list, and a result map that is shared with the previous render until it is first
 written (src/hooks/useMessageGrouping.ts:78-396). Every render computes `NextCache`.
 */
module GroupingHook {
  import opened Wrappers
  import opened MessageGrouping
  import opened IncrementalGrouping

  /** A JavaScript `Map` instance: renders may share it, so its identity matters. */
  class ResultBox {
    var entries: ResultMap

    constructor (entries: ResultMap)
      ensures this.entries == entries
    {
      this.entries := entries;
    }
  }

  /** `areMapsEqual`: equal sizes, and every key of the first maps to the same message in the second. */
  method AreMapsEqual(a: ResultMap, b: ResultMap) returns (equal: bool)
    ensures equal <==> a == b
  {
    if |a| != |b| {
      return false;
    }
    var keys := a.Keys;
    while keys != {}
      invariant keys <= a.Keys
      invariant forall k :: k in a.Keys - keys ==> k in b && a[k] == b[k]
      decreases keys
    {
      var key :| key in keys;
      if key !in b || b[key] != a[key] {
        return false;
      }
      keys := keys - {key};
    }
    assert a.Keys <= b.Keys;
    SameKeys(a.Keys, b.Keys);
    return true;
  }

  lemma SameKeys<T>(s: set<T>, t: set<T>)
    requires s <= t && |s| == |t|
    ensures s == t
  {
    assert |t - s| == |t| - |s|;
  }

  method FilterVisible(messages: seq<Message>) returns (visible: seq<Message>)
    ensures visible == Visible(messages)
  {
    visible := [];
    for i := 0 to |messages|
      invariant visible == Visible(messages[..i])
    {
      assert messages[..i + 1][..i] == messages[..i];
      var source := messages[i].source;
      if !source.SessionContext? && !source.CompactionInstruction? {
        visible := visible + [messages[i]];
      }
    }
    assert messages[..|messages|] == messages;
  }

  class Hook {
    var messages: seq<Message>
    var groups: seq<Group>
    var ends: seq<nat>
    var results: ResultBox
    var last: int

    function State(): Cache
      reads this, results
    {
      Cache(messages, groups, ends, results.entries, last)
    }

    constructor ()
      ensures State() == EMPTY_CACHE && fresh(results)
    {
      messages, groups, ends, last := [], [], [], -1;
      results := new ResultBox(map[]);
    }

    /** `captureToolResult`: clones the map before the first write of a render. */
    static method CaptureResult(box: ResultBox, cloned: bool, m: Message, floor: int, index: int)
      returns (box': ResultBox, cloned': bool, last': int)
      modifies if cloned then {box} else {}
      ensures box'.entries == Capture(old(box.entries), m)
      ensures last' == if IsResult(m) && floor < index then index else floor
      ensures cloned ==> cloned' && box' == box
      ensures !cloned && cloned' ==> fresh(box')
      ensures !cloned' ==> box' == box && box.entries == old(box.entries)
    {
      box', cloned', last' := box, cloned, floor;
      if IsResult(m) {
        if !cloned' {
          box' := new ResultBox(box.entries);
          cloned' := true;
        }
        var n: nat := 0;
        while Key(m.toolCallId, n) in box'.entries
          invariant n <= FirstFree(box'.entries, m.toolCallId, 0)
          decreases FirstFree(box'.entries, m.toolCallId, 0) - n
        {
          n := n + 1;
        }
        box'.entries := box'.entries[Key(m.toolCallId, n) := m];
        last' := if floor < index then index else floor;
      }
    }

    /** One render, committed to the cache; the map of the previous render is never written. */
    method Render(allMessages: seq<Message>, boundary: string)
      requires State().WellFormed()
      modifies this
      ensures State() == NextCache(old(State()), Visible(allMessages), boundary)
      ensures results == old(results) || fresh(results)
      ensures results == old(results) <==> results.entries == old(results.entries)
      ensures old(results).entries == old(results.entries)
    {
      var current := FilterVisible(allMessages);
      var start, n, box, cloned, newLast := StartRender(current);
      ghost var s := StartScan(State(), current);
      var newGroups, newEnds;
      newGroups, newEnds, box, cloned, newLast :=
        ScanMessages(current, boundary, s, start, groups[..n], ends[..n], box, cloned, newLast);
      box := ReuseMap(box, cloned, results);
      messages, groups, ends, results, last := current, newGroups, newEnds, box, newLast;
    }

    /** Lines 149-190: the reused groups, and the old map or one rebuilt for them. */
    method StartRender(current: seq<Message>) returns (start: nat, n: nat, box: ResultBox, cloned: bool, newLast: int)
      requires State().WellFormed()
      ensures n <= |groups| && start <= |current|
      ensures Scan(start, groups[..n], ends[..n], box.entries, newLast) == StartScan(State(), current)
      ensures if cloned then fresh(box) else box == results
    {
      var d;
      d, n := FindReuse(current);
      start := if n > 0 then ends[n - 1] else 0;
      box, cloned, newLast := results, false, last;
      if d <= last {
        box, newLast := RebuildMap(current, start);
        cloned := true;
      }
    }

    /** Lines 366-377: a new map that equals the old one is given up for it. */
    static method ReuseMap(box: ResultBox, cloned: bool, previous: ResultBox) returns (box': ResultBox)
      requires !cloned ==> box == previous
      ensures box'.entries == old(box.entries)
      ensures box' == previous || (box' == box && box.entries != previous.entries)
    {
      box' := box;
      if cloned {
        var equal := AreMapsEqual(box.entries, previous.entries);
        if equal {
          box' := previous;
        }
      }
    }

    /** Lines 115-147: where the lists part, and how many cached groups lie safely before that. */
    method FindReuse(current: seq<Message>) returns (d: nat, reuseCount: nat)
      requires State().WellFormed()
      ensures d == Divergence(messages, current, 0) && reuseCount == ReuseCount(State(), d, 0)
    {
      d := 0;
      while d < |messages| && d < |current| && messages[d] == current[d]
        invariant d <= |messages| && d <= |current| && messages[..d] == current[..d]
        invariant Divergence(messages, current, d) == Divergence(messages, current, 0)
      {
        d := d + 1;
      }
      reuseCount := 0;
      while reuseCount < |ends|
        invariant reuseCount <= |ends|
        invariant ReuseCount(State(), d, reuseCount) == ReuseCount(State(), d, 0)
      {
        if ends[reuseCount] < d {
          reuseCount := reuseCount + 1;
        } else if ends[reuseCount] == d && groups[reuseCount].Single? {
          reuseCount := reuseCount + 1;
          return;
        } else {
          return;
        }
      }
    }

    /** Lines 214-364: the scan of the new and changed messages. */
    static method ScanMessages(current: seq<Message>, boundary: string, ghost s: Scan, start: nat,
                               groups0: seq<Group>, ends0: seq<nat>, box0: ResultBox, cloned0: bool, last0: int)
      returns (groups: seq<Group>, ends: seq<nat>, box: ResultBox, cloned: bool, newLast: int)
      requires start <= |current| && s == Scan(start, groups0, ends0, box0.entries, last0)
      modifies if cloned0 then {box0} else {}
      ensures Scan(|current|, groups, ends, box.entries, newLast) == Finish(s, current, boundary)
      ensures cloned0 ==> cloned && box == box0
      ensures !cloned0 && cloned ==> fresh(box)
      ensures !cloned ==> box == box0 && box.entries == old(box0.entries)
    {
      groups, ends, box, cloned, newLast := groups0, ends0, box0, cloned0, last0;
      var i := start;
      while i < |current|
        invariant i <= |current|
        invariant cloned0 ==> cloned && box == box0
        invariant !cloned0 && cloned ==> fresh(box)
        invariant !cloned ==> box == box0 && box.entries == old(box0.entries)
        invariant Finish(Scan(i, groups, ends, box.entries, newLast), current, boundary)
               == Finish(s, current, boundary)
      {
        i, groups, ends, box, cloned, newLast :=
          ScanOne(current, boundary, i, groups, ends, box, cloned, newLast);
      }
    }

    /** One round of the scan loop, lines 219-363. */
    static method ScanOne(current: seq<Message>, boundary: string, i: nat,
                          groups0: seq<Group>, ends0: seq<nat>, box0: ResultBox, cloned0: bool, last0: int)
      returns (j: nat, groups: seq<Group>, ends: seq<nat>, box: ResultBox, cloned: bool, newLast: int)
      requires i < |current|
      modifies if cloned0 then {box0} else {}
      ensures Scan(j, groups, ends, box.entries, newLast)
           == Step(Scan(i, groups0, ends0, old(box0.entries), last0), current, boundary)
      ensures cloned0 ==> cloned && box == box0
      ensures !cloned0 && cloned ==> fresh(box)
      ensures !cloned ==> box == box0 && box.entries == old(box0.entries)
    {
      groups, ends, box, cloned, newLast := groups0, ends0, box0, cloned0, last0;
      var msg := current[i];
      if IsToolError(msg) {
        var run;
        j, run, box, cloned, newLast := ScanErrors(current, i, box, cloned, newLast);
        groups, ends := groups + [ErrorGroup(run[0], run)], ends + [j];
        return;
      }
      if IsResult(msg) && !FollowsItsCall(current, i) {
        box, cloned, newLast := CaptureResult(box, cloned, msg, newLast, i);
      }
      if msg.role.Tool? {
        j := i + 1;
        StandaloneStep(Scan(i, groups0, ends0, old(box0.entries), last0), current, boundary);
      } else if DeclaresCalls(msg) {
        var members, covered, calls;
        j, members, covered, calls, box, cloned, newLast :=
          ScanToolGroup(current, boundary, i, box, cloned, newLast);
        var paired := PairResults(calls, box.entries);
        groups, ends := groups + [ToolGroup(msg, members, covered, calls, paired)], ends + [j];
      } else {
        j := i + 1;
        groups, ends := groups + [Single(msg)], ends + [j];
        PlainStep(Scan(i, groups0, ends0, old(box0.entries), last0), current, boundary);
      }
    }

    /** Lines 174-190: the plain map of the stable prefix. */
    static method RebuildMap(current: seq<Message>, start: nat) returns (box: ResultBox, newLast: int)
      requires start <= |current|
      ensures fresh(box)
      ensures box.entries == Rebuild(current[..start]) && newLast == LastResult(-1, current, 0, start)
    {
      box := new ResultBox(map[]);
      newLast := -1;
      for p := 0 to start
        invariant fresh(box)
        invariant box.entries == Rebuild(current[..p]) && newLast == LastResult(-1, current, 0, p)
      {
        assert current[..p + 1][..p] == current[..p];
        var msg := current[p];
        if IsResult(msg) {
          box.entries := box.entries[Key(msg.toolCallId, 0) := msg];
          newLast := if newLast < p then p else newLast;
        }
      }
    }

    /** Lines 223-235: a run of failed tool results, captured as it is collected. */
    static method ScanErrors(current: seq<Message>, i: nat, box0: ResultBox, cloned0: bool, last0: int)
      returns (j: nat, run: seq<Message>, box: ResultBox, cloned: bool, newLast: int)
      requires i < |current| && IsToolError(current[i])
      modifies if cloned0 then {box0} else {}
      ensures j == ErrorEnd(current, i) && i < j && run == current[i..j]
      ensures box.entries == CaptureAll(old(box0.entries), current[i..j])
      ensures newLast == LastResult(last0, current, i, j)
      ensures cloned0 ==> cloned && box == box0
      ensures !cloned0 && cloned ==> fresh(box)
      ensures !cloned ==> box == box0 && box.entries == old(box0.entries)
    {
      j, run, box, cloned, newLast := i, [], box0, cloned0, last0;
      while j < |current| && IsToolError(current[j])
        invariant i <= j <= |current| && run == current[i..j]
        invariant ErrorEnd(current, j) == ErrorEnd(current, i)
        invariant box.entries == CaptureAll(old(box0.entries), current[i..j])
        invariant newLast == LastResult(last0, current, i, j)
        invariant cloned0 ==> cloned && box == box0
        invariant !cloned0 && cloned ==> fresh(box)
        invariant !cloned ==> box == box0 && box.entries == old(box0.entries)
      {
        assert current[i..j + 1][..j - i] == current[i..j];
        box, cloned, newLast := CaptureResult(box, cloned, current[j], newLast, j);
        run := run + [current[j]];
        j := j + 1;
      }
    }

    /** Lines 278-323: consecutive assistant messages with tool calls, and the results that answer them. */
    static method ScanToolGroup(current: seq<Message>, boundary: string, i: nat,
                                box0: ResultBox, cloned0: bool, last0: int)
      returns (j: nat, members: seq<Message>, covered: seq<string>, calls: seq<ToolCall>,
               box: ResultBox, cloned: bool, newLast: int)
      requires i < |current| && DeclaresCalls(current[i])
      modifies if cloned0 then {box0} else {}
      ensures i < j <= |current| && j == GroupEnd(current, boundary, i, i, {})
      ensures members == Members(current[i..j]) && covered == Ids(current[i..j]) && calls == Calls(current[i..j])
      ensures box.entries == CaptureAll(old(box0.entries), current[i..j])
      ensures newLast == LastResult(last0, current, i, j)
      ensures cloned0 ==> cloned && box == box0
      ensures !cloned0 && cloned ==> fresh(box)
      ensures !cloned ==> box == box0 && box.entries == old(box0.entries)
    {
      j, members, covered, calls, box, cloned, newLast := i, [], [], [], box0, cloned0, last0;
      var ids: set<string> := {};
      while j < |current| && DeclaresCalls(current[j])
        invariant i <= j <= |current|
        invariant GroupEnd(current, boundary, i, j, ids) == GroupEnd(current, boundary, i, i, {})
        invariant members == Members(current[i..j]) && covered == Ids(current[i..j]) && calls == Calls(current[i..j])
        invariant box.entries == CaptureAll(old(box0.entries), current[i..j])
        invariant newLast == LastResult(last0, current, i, j)
        invariant cloned0 ==> cloned && box == box0
        invariant !cloned0 && cloned ==> fresh(box)
        invariant !cloned ==> box == box0 && box.entries == old(box0.entries)
        decreases |current| - j
      {
        if HasText(current[j]) && j > i {
          break;
        }
        var k, skipped, hit;
        k, skipped, hit, box, cloned, newLast := CollectOne(current, boundary, j, ids, box, cloned, newLast);
        JoinRound(current, i, j, k, old(box0.entries), last0);
        members := members + [current[j]];
        covered := covered + skipped;
        calls := calls + current[j].toolCalls;
        ids := ids + CallIds(current[j].toolCalls);
        j := k;
        if hit {
          break;
        }
      }
    }

    /** Lines 296-318: one assistant message of a group and the results that follow it. */
    static method CollectOne(current: seq<Message>, boundary: string, j: nat, ids: set<string>,
                             box0: ResultBox, cloned0: bool, last0: int)
      returns (k: nat, covered: seq<string>, hit: bool, box: ResultBox, cloned: bool, newLast: int)
      requires j < |current| && DeclaresCalls(current[j])
      modifies if cloned0 then {box0} else {}
      ensures j < k <= |current| && k == ResultsEnd(current, j + 1, ids + CallIds(current[j].toolCalls))
      ensures covered == Ids(current[j..k])
      ensures Members(current[j..k]) == [current[j]] && Calls(current[j..k]) == current[j].toolCalls
      ensures hit <==> HitsBoundary(current[j..k], boundary)
      ensures box.entries == CaptureAll(old(box0.entries), current[j..k])
      ensures newLast == LastResult(last0, current, j, k)
      ensures cloned0 ==> cloned && box == box0
      ensures !cloned0 && cloned ==> fresh(box)
      ensures !cloned ==> box == box0 && box.entries == old(box0.entries)
    {
      var msg := current[j];
      var ids' := ids + CallIds(msg.toolCalls);
      hit := boundary != "" && msg.id == boundary;
      var skipped, hitSkipped;
      k, skipped, hitSkipped, box, cloned, newLast :=
        SkipResults(current, boundary, j + 1, ids', box0, cloned0, last0);
      covered := [msg.id] + skipped;
      hit := hit || hitSkipped;
      ResultRun(current, j + 1, ids');
      assert current[j..k] == [msg] + current[j + 1..k];
      RoundContents(msg, current[j + 1..k]);
      RoundCaptures(old(box0.entries), msg, current[j + 1..k]);
      BoundaryInRound(msg, current[j + 1..k], boundary);
      LastResultJoin(last0, current, j, j + 1, k);
    }

    /** Lines 305-318: the tool results, right after an assistant message of the group, that answer its calls. */
    static method SkipResults(current: seq<Message>, boundary: string, from: nat, ids: set<string>,
                              box0: ResultBox, cloned0: bool, last0: int)
      returns (j: nat, skipped: seq<string>, hit: bool, box: ResultBox, cloned: bool, newLast: int)
      requires from <= |current|
      modifies if cloned0 then {box0} else {}
      ensures from <= j <= |current| && j == ResultsEnd(current, from, ids)
      ensures skipped == Ids(current[from..j]) && (hit <==> HitsBoundary(current[from..j], boundary))
      ensures box.entries == CaptureAll(old(box0.entries), current[from..j])
      ensures newLast == LastResult(last0, current, from, j)
      ensures cloned0 ==> cloned && box == box0
      ensures !cloned0 && cloned ==> fresh(box)
      ensures !cloned ==> box == box0 && box.entries == old(box0.entries)
    {
      j, skipped, hit, box, cloned, newLast := from, [], false, box0, cloned0, last0;
      while j < |current| && Answers(current[j], ids)
        invariant from <= j <= |current|
        invariant ResultsEnd(current, j, ids) == ResultsEnd(current, from, ids)
        invariant skipped == Ids(current[from..j]) && (hit <==> HitsBoundary(current[from..j], boundary))
        invariant box.entries == CaptureAll(old(box0.entries), current[from..j])
        invariant newLast == LastResult(last0, current, from, j)
        invariant cloned0 ==> cloned && box == box0
        invariant !cloned0 && cloned ==> fresh(box)
        invariant !cloned ==> box == box0 && box.entries == old(box0.entries)
      {
        assert current[from..j + 1][..j - from] == current[from..j];
        assert current[from..j + 1] == current[from..j] + [current[j]];
        box, cloned, newLast := CaptureResult(box, cloned, current[j], newLast, j);
        skipped := skipped + [current[j].id];
        if boundary != "" && current[j].id == boundary {
          hit := true;
        }
        j := j + 1;
      }
    }

    /** Lines 327-337: the n-th call with an id takes the entry at (id, n). */
    static method PairResults(calls: seq<ToolCall>, results: ResultMap) returns (paired: seq<Option<Message>>)
      ensures paired == Paired(calls, results)
    {
      paired := [];
      var usage: map<string, nat> := map[];
      for k := 0 to |calls|
        invariant |paired| == k
        invariant forall q :: 0 <= q < k ==> paired[q] == Paired(calls, results)[q]
        invariant forall id :: (if id in usage then usage[id] else 0) == Occurrences(calls, k, id)
      {
        var id := calls[k].id;
        var count := if id in usage then usage[id] else 0;
        usage := usage[id := count + 1];
        paired := paired + [Lookup(results, Key(id, count))];
      }
    }
  }

  lemma StandaloneStep(s: Scan, ms: seq<Message>, boundary: string)
    requires s.i < |ms| && Standalone(ms[s.i])
    ensures Step(s, ms, boundary)
         == if FollowsItsCall(ms, s.i) then s.(i := s.i + 1)
            else s.(i := s.i + 1,
                    results := Capture(s.results, ms[s.i]),
                    last := if IsResult(ms[s.i]) && s.last < s.i then s.i else s.last)
  {
    var one := ms[s.i..s.i + 1];
    assert one[..|one| - 1] == [] && one[0] == ms[s.i];
    assert CaptureAll(s.results, one) == Capture(s.results, ms[s.i]);
    assert LastResult(s.last, ms, s.i, s.i + 1)
        == if IsResult(ms[s.i]) && s.last < s.i then s.i else s.last;
  }

  lemma PlainStep(s: Scan, ms: seq<Message>, boundary: string)
    requires s.i < |ms| && !ms[s.i].role.Tool? && !DeclaresCalls(ms[s.i])
    ensures Step(s, ms, boundary)
         == Scan(s.i + 1, s.groups + [Single(ms[s.i])], s.ends + [s.i + 1], s.results, s.last)
  {
    var one := ms[s.i..s.i + 1];
    assert one[..|one| - 1] == [] && one[0] == ms[s.i];
    assert CaptureAll(s.results, one) == s.results;
    assert LastResult(s.last, ms, s.i, s.i + 1) == s.last;
  }

  lemma {:induction false} MembersConcat(a: seq<Message>, b: seq<Message>)
    ensures Members(a + b) == Members(a) + Members(b)
  {
    if b == [] {
      assert a + b == a;
    } else {
      MembersConcat(a, b[..|b| - 1]);
      assert (a + b)[..|a + b| - 1] == a + b[..|b| - 1];
    }
  }

  lemma {:induction false} IdsConcat(a: seq<Message>, b: seq<Message>)
    ensures Ids(a + b) == Ids(a) + Ids(b)
  {
    if b == [] {
      assert a + b == a;
    } else {
      IdsConcat(a, b[..|b| - 1]);
      assert (a + b)[..|a + b| - 1] == a + b[..|b| - 1];
    }
  }

  lemma {:induction false} ResultsDeclareNothing(range: seq<Message>)
    requires forall k :: 0 <= k < |range| ==> IsResult(range[k])
    ensures Members(range) == [] && Calls(range) == []
  {
    if range != [] {
      ResultsDeclareNothing(range[..|range| - 1]);
    }
  }

  lemma BoundaryInRound(m: Message, tail: seq<Message>, boundary: string)
    ensures HitsBoundary([m] + tail, boundary) <==>
              (boundary != "" && m.id == boundary) || HitsBoundary(tail, boundary)
  {
    var all := [m] + tail;
    assert all[0] == m && forall q :: 0 <= q < |tail| ==> tail[q] == all[q + 1];
    assert forall q :: 0 < q < |all| ==> all[q] == tail[q - 1];
  }

  lemma UnitContents(m: Message, r: ResultMap)
    requires DeclaresCalls(m)
    ensures Members([m]) == [m] && Ids([m]) == [m.id] && Calls([m]) == m.toolCalls && CaptureAll(r, [m]) == r
  {
    var unit := [m];
    assert unit[..|unit| - 1] == [];
  }

  lemma RoundContents(m: Message, tail: seq<Message>)
    requires DeclaresCalls(m) && forall k :: 0 <= k < |tail| ==> IsResult(tail[k])
    ensures Members([m] + tail) == [m]
    ensures Ids([m] + tail) == [m.id] + Ids(tail)
    ensures Calls([m] + tail) == m.toolCalls
  {
    UnitContents(m, map[]);
    ResultsDeclareNothing(tail);
    MembersConcat([m], tail);
    IdsConcat([m], tail);
    CallsConcat([m], tail);
  }

  lemma RoundCaptures(r: ResultMap, m: Message, tail: seq<Message>)
    requires DeclaresCalls(m)
    ensures CaptureAll(r, [m] + tail) == CaptureAll(r, tail)
  {
    UnitContents(m, r);
    CaptureAllConcat(r, [m], tail);
  }

  /** What a group begun at `i` has collected at `k` is what it had at `j` and then what lies between. */
  lemma JoinRound(ms: seq<Message>, i: nat, j: nat, k: nat, r: ResultMap, floor: int)
    requires i <= j <= k <= |ms|
    ensures Members(ms[i..k]) == Members(ms[i..j]) + Members(ms[j..k])
    ensures Ids(ms[i..k]) == Ids(ms[i..j]) + Ids(ms[j..k])
    ensures Calls(ms[i..k]) == Calls(ms[i..j]) + Calls(ms[j..k])
    ensures CaptureAll(r, ms[i..k]) == CaptureAll(CaptureAll(r, ms[i..j]), ms[j..k])
    ensures LastResult(floor, ms, i, k) == LastResult(LastResult(floor, ms, i, j), ms, j, k)
  {
    assert ms[i..k] == ms[i..j] + ms[j..k];
    MembersConcat(ms[i..j], ms[j..k]);
    IdsConcat(ms[i..j], ms[j..k]);
    CallsConcat(ms[i..j], ms[j..k]);
    CaptureAllConcat(r, ms[i..j], ms[j..k]);
    LastResultJoin(floor, ms, i, j, k);
  }
}
