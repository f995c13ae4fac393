/**
 What the groups of src/hooks/useMessageGrouping.ts are, said of the fields of the messages alone:
 where each kind of group begins and ends, what it holds, and which result each call is given.
 */
module GroupingShape {
  import opened Wrappers
  import opened MessageGrouping
  import opened IncrementalGrouping
  import opened GroupingCache
  import opened GroupingLayout
  import JsText

  /******* Messages *******/

  predicate Failed(m: Message) {
    m.role == Tool && m.toolError
  }

  /** An assistant message with tool calls. */
  predicate Calling(m: Message) {
    m.role == Assistant && |m.toolCalls| > 0
  }

  predicate Inked(text: string) {
    exists k :: 0 <= k < |text| && !JsText.IsSpaceCode(text[k] as int)
  }

  /** Its thinking, or a text or thinking item of its content, is not blank. */
  predicate Wordy(m: Message) {
    || Inked(m.thinking)
    || (exists k :: 0 <= k < |m.content| && m.content[k].Text? && Inked(m.content[k].text))
    || (exists k :: 0 <= k < |m.content| && m.content[k].Thinking? && Inked(m.content[k].thinking))
  }

  /** A message from `lo` up to but not including `hi` calls with the id. */
  predicate CalledIn(ms: seq<Message>, lo: nat, hi: nat, id: string)
    requires lo <= hi <= |ms|
  {
    exists q, c :: lo <= q < hi && Calling(ms[q]) && 0 <= c < |ms[q].toolCalls| && ms[q].toolCalls[c].id == id
  }

  /** The message at `p` is a tool message for a call made from `lo` on. */
  predicate AnswersIn(ms: seq<Message>, lo: nat, p: nat)
    requires lo <= p < |ms|
  {
    ms[p].role == Tool && ms[p].toolCallId != "" && CalledIn(ms, lo, p, ms[p].toolCallId)
  }

  /** The boundary message is among those from `lo` up to but not including `hi`. */
  predicate BoundaryIn(ms: seq<Message>, boundary: string, lo: nat, hi: nat)
    requires lo <= hi <= |ms|
  {
    boundary != "" && exists p :: lo <= p < hi && ms[p].id == boundary
  }

  /******* Where a tool group ends *******/

  /** No later member has words, and the boundary message lies in the last round. */
  predicate KeepsTogether(ms: seq<Message>, boundary: string, start: nat, end: nat)
    requires start <= end <= |ms|
  {
    && (forall p :: start < p < end && Calling(ms[p]) ==> !Wordy(ms[p]))
    && (forall p, q :: start <= p < q < end && boundary != "" && ms[p].id == boundary ==> !Calling(ms[q]))
  }

  /** Each message of the group calls, or answers a call of the group before it. */
  predicate AllBelong(ms: seq<Message>, start: nat, end: nat)
    requires start <= end <= |ms|
  {
    forall p :: start <= p < end ==> Calling(ms[p]) || AnswersIn(ms, start, p)
  }

  /** The next message, if any, answers no call of the group, and cannot be its next round. */
  predicate Stops(ms: seq<Message>, boundary: string, start: nat, end: nat)
    requires start <= end <= |ms|
  {
    end < |ms| ==>
      && !AnswersIn(ms, start, end)
      && (BoundaryIn(ms, boundary, start, end) || !Calling(ms[end]) || Wordy(ms[end]))
  }

  predicate IsToolGroup(ms: seq<Message>, boundary: string, start: nat, end: nat) {
    && start < end <= |ms| && Calling(ms[start])
    && AllBelong(ms, start, end) && KeepsTogether(ms, boundary, start, end) && Stops(ms, boundary, start, end)
  }

  lemma EndsNoEarlier(ms: seq<Message>, boundary: string, start: nat, d: nat, e: nat)
    requires IsToolGroup(ms, boundary, start, d) && IsToolGroup(ms, boundary, start, e)
    ensures d >= e
  {
  }

  /** From a given start these conditions allow one end only. */
  lemma ToolGroupIsUnique(ms: seq<Message>, boundary: string, start: nat, d: nat, e: nat)
    requires IsToolGroup(ms, boundary, start, d) && IsToolGroup(ms, boundary, start, e)
    ensures d == e
  {
    EndsNoEarlier(ms, boundary, start, d, e);
    EndsNoEarlier(ms, boundary, start, e, d);
  }

  lemma WordsAre(m: Message)
    ensures HasText(m) <==> Wordy(m)
  {
    forall k | 0 <= k < |m.content|
      ensures ValidText(m.content[k]) <==>
                || (m.content[k].Text? && Inked(m.content[k].text))
                || (m.content[k].Thinking? && Inked(m.content[k].thinking))
    {
    }
  }

  /** The ids collected by the loop are those called so far. */
  ghost predicate Collected(ms: seq<Message>, start: nat, j: nat, ids: set<string>)
    requires start <= j <= |ms|
  {
    forall id :: id in ids <==> CalledIn(ms, start, j, id)
  }

  lemma CollectedMore(ms: seq<Message>, start: nat, j: nat, k: nat, ids: set<string>)
    requires start <= j < k <= |ms| && Calling(ms[j]) && Collected(ms, start, j, ids)
    requires forall p :: j < p < k ==> !Calling(ms[p])
    ensures Collected(ms, start, k, ids + CallIds(ms[j].toolCalls))
  {
    forall id
      ensures id in ids + CallIds(ms[j].toolCalls) <==> CalledIn(ms, start, k, id)
    {
      if id in ids {
        assert CalledIn(ms, start, j, id);
      } else if c :| c in ms[j].toolCalls && c.id == id {
        var n :| 0 <= n < |ms[j].toolCalls| && ms[j].toolCalls[n] == c;
      }
      if q, c :| start <= q < k && Calling(ms[q]) && 0 <= c < |ms[q].toolCalls| && ms[q].toolCalls[c].id == id {
        assert q <= j;
        if q < j {
          assert CalledIn(ms, start, j, id);
        } else {
          assert ms[j].toolCalls[c] in ms[j].toolCalls;
        }
      }
    }
  }

  lemma StillCalled(ms: seq<Message>, start: nat, j: nat, k: nat, id: string)
    requires start <= j <= k <= |ms| && CalledIn(ms, start, j, id)
    ensures CalledIn(ms, start, k, id)
  {
  }

  /** What holds of a group while its collecting loop stands at `j`. */
  ghost predicate SoFar(ms: seq<Message>, boundary: string, start: nat, j: nat, ids: set<string>) {
    && start <= j <= |ms| && Collected(ms, start, j, ids)
    && AllBelong(ms, start, j) && KeepsTogether(ms, boundary, start, j) && !BoundaryIn(ms, boundary, start, j)
    && (start < j < |ms| ==> !AnswersIn(ms, start, j))
  }

  /** One round of the loop: the calling message at `j` and the answers behind it, up to `k`. */
  predicate IsRound(ms: seq<Message>, j: nat, k: nat, ids: set<string>) {
    && j < k <= |ms| && Calling(ms[j])
    && (forall p :: j < p < k ==> Answers(ms[p], ids))
    && (k < |ms| ==> !Answers(ms[k], ids))
  }

  lemma RoundCollects(ms: seq<Message>, start: nat, j: nat, k: nat, ids: set<string>)
    requires start <= j < |ms| && Collected(ms, start, j, ids) && IsRound(ms, j, k, ids + CallIds(ms[j].toolCalls))
    ensures Collected(ms, start, k, ids + CallIds(ms[j].toolCalls))
    ensures Collected(ms, start, j + 1, ids + CallIds(ms[j].toolCalls))
  {
    CollectedMore(ms, start, j, k, ids);
    CollectedMore(ms, start, j, j + 1, ids);
  }

  lemma RoundBelongsHere(ms: seq<Message>, start: nat, j: nat, k: nat, ids: set<string>)
    requires start <= j < |ms| && Collected(ms, start, j, ids) && IsRound(ms, j, k, ids + CallIds(ms[j].toolCalls))
    requires AllBelong(ms, start, j)
    ensures AllBelong(ms, start, k) && (k < |ms| ==> !AnswersIn(ms, start, k))
  {
    RoundCollects(ms, start, j, k, ids);
    forall p | start <= p < k
      ensures Calling(ms[p]) || AnswersIn(ms, start, p)
    {
      if j < p {
        StillCalled(ms, start, j + 1, p, ms[p].toolCallId);
      }
    }
  }

  lemma RoundKeepsTogether(ms: seq<Message>, boundary: string, start: nat, j: nat, k: nat, ids: set<string>)
    requires start <= j && IsRound(ms, j, k, ids) && (Wordy(ms[j]) ==> j == start)
    requires KeepsTogether(ms, boundary, start, j) && !BoundaryIn(ms, boundary, start, j)
    ensures KeepsTogether(ms, boundary, start, k)
    ensures HitsBoundary(ms[j..k], boundary) <==> BoundaryIn(ms, boundary, start, k)
  {
    var range := ms[j..k];
    assert forall p :: j <= p < k ==> range[p - j] == ms[p];
  }

  lemma {:induction false} GroupEndIsRight(ms: seq<Message>, boundary: string, start: nat, j: nat, ids: set<string>)
    requires SoFar(ms, boundary, start, j, ids) && start < |ms| && Calling(ms[start])
    ensures IsToolGroup(ms, boundary, start, GroupEnd(ms, boundary, start, j, ids))
    decreases |ms| - j
  {
    if j < |ms| {
      WordsAre(ms[j]);
    }
    if Continues(ms, start, j) {
      var ids' := ids + CallIds(ms[j].toolCalls);
      var k := ResultsEnd(ms, j + 1, ids');
      ResultRun(ms, j + 1, ids');
      RoundCollects(ms, start, j, k, ids);
      RoundBelongsHere(ms, start, j, k, ids);
      RoundKeepsTogether(ms, boundary, start, j, k, ids');
      if !HitsBoundary(ms[j..k], boundary) {
        GroupEndIsRight(ms, boundary, start, k, ids');
      }
    }
  }

  /******* What a group holds *******/

  /** The calling messages, in order. */
  function Callers(range: seq<Message>): seq<Message> {
    if range == [] then [] else (if Calling(range[0]) then [range[0]] else []) + Callers(range[1..])
  }

  /** The calls of the messages, one after another. */
  function CallsOf(members: seq<Message>): seq<ToolCall> {
    if members == [] then [] else members[0].toolCalls + CallsOf(members[1..])
  }

  /** The tool messages for the id, oldest first. */
  function ResultsOf(range: seq<Message>, id: string): seq<Message> {
    if range == [] then []
    else
      (if range[0].role == Tool && range[0].toolCallId != "" && range[0].toolCallId == id then [range[0]] else []) +
      ResultsOf(range[1..], id)
  }

  function NamesakesBefore(calls: seq<ToolCall>, id: string, k: nat): set<nat>
    requires k <= |calls|
  {
    set q: nat | q < k && calls[q].id == id
  }

  /** The calls before the c-th that have its id. */
  function Namesakes(calls: seq<ToolCall>, c: nat): set<nat>
    requires c < |calls|
  {
    NamesakesBefore(calls, calls[c].id, c)
  }

  /** Each call is given the result whose number, among those for its id so far, is the call's among its namesakes. */
  predicate GivenInOrder(seen: seq<Message>, calls: seq<ToolCall>, results: seq<Option<Message>>) {
    && |results| == |calls|
    && forall c :: 0 <= c < |calls| ==>
         var found, n := ResultsOf(seen, calls[c].id), |Namesakes(calls, c)|;
         results[c] == if n < |found| then Some(found[n]) else None
  }

  /** The group `g` from `start` up to but not including `end`, by the kind of its first message. */
  predicate IsGroup(ms: seq<Message>, boundary: string, start: nat, end: nat, g: Group) {
    && start < end <= |ms|
    && if Failed(ms[start]) then
         && g == ErrorGroup(ms[start], ms[start..end])
         && (forall p :: start <= p < end ==> Failed(ms[p])) && (end < |ms| ==> !Failed(ms[end]))
       else if Calling(ms[start]) then
         && IsToolGroup(ms, boundary, start, end)
         && g.ToolGroup? && g.message == ms[start]
         && g.messages == Callers(ms[start..end]) && g.calls == CallsOf(g.messages)
         && |g.covered| == end - start && (forall p :: start <= p < end ==> g.covered[p - start] == ms[p].id)
         && GivenInOrder(ms[..end], g.calls, g.results)
       else end == start + 1 && ms[start].role != Tool && g == Single(ms[start])
  }

  lemma TailOf<T>(a: seq<T>, b: seq<T>)
    requires a != []
    ensures a + b != [] && (a + b)[0] == a[0] && (a + b)[1..] == a[1..] + b
  {
  }

  lemma {:induction false} CallersConcat(a: seq<Message>, b: seq<Message>)
    ensures Callers(a + b) == Callers(a) + Callers(b)
  {
    if a == [] {
      assert a + b == b;
    } else {
      TailOf(a, b);
      CallersConcat(a[1..], b);
    }
  }

  lemma {:induction false} CallsOfConcat(a: seq<Message>, b: seq<Message>)
    ensures CallsOf(a + b) == CallsOf(a) + CallsOf(b)
  {
    if a == [] {
      assert a + b == b;
    } else {
      TailOf(a, b);
      CallsOfConcat(a[1..], b);
    }
  }

  lemma {:induction false} ResultsOfConcat(a: seq<Message>, b: seq<Message>, id: string)
    ensures ResultsOf(a + b, id) == ResultsOf(a, id) + ResultsOf(b, id)
  {
    if a == [] {
      assert a + b == b;
    } else {
      TailOf(a, b);
      ResultsOfConcat(a[1..], b, id);
    }
  }

  lemma CallersOfOne(m: Message)
    ensures Callers([m]) == if Calling(m) then [m] else []
    ensures CallsOf([m]) == m.toolCalls
  {
    assert [m][1..] == [];
  }

  lemma {:induction false} MembersAre(range: seq<Message>)
    ensures Members(range) == Callers(range) && Calls(range) == CallsOf(Callers(range))
  {
    if range != [] {
      var front, m := range[..|range| - 1], range[|range| - 1];
      MembersAre(front);
      assert range == front + [m];
      CallersConcat(front, [m]);
      CallersOfOne(m);
      CallsOfConcat(Callers(front), Callers([m]));
    }
  }

  lemma {:induction false} ResultsAre(range: seq<Message>, id: string)
    ensures ResultsFor(range, id) == ResultsOf(range, id)
  {
    if range != [] {
      var front, m := range[..|range| - 1], range[|range| - 1];
      ResultsAre(front, id);
      assert range == front + [m];
      ResultsOfConcat(front, [m], id);
      assert [m][1..] == [];
    }
  }

  lemma OneMoreNamesake(calls: seq<ToolCall>, id: string, k: nat)
    requires 0 < k <= |calls|
    ensures |NamesakesBefore(calls, id, k)|
         == |NamesakesBefore(calls, id, k - 1)| + (if calls[k - 1].id == id then 1 else 0)
  {
    var before := NamesakesBefore(calls, id, k - 1);
    assert NamesakesBefore(calls, id, k) == if calls[k - 1].id == id then before + {k - 1} else before;
  }

  lemma {:induction false} NamesakesAre(calls: seq<ToolCall>, id: string, k: nat)
    requires k <= |calls|
    ensures Occurrences(calls, k, id) == |NamesakesBefore(calls, id, k)|
  {
    if k == 0 {
      assert NamesakesBefore(calls, id, 0) == {};
    } else {
      NamesakesAre(calls, id, k - 1);
      OneMoreNamesake(calls, id, k);
    }
  }

  lemma GivenAre(seen: seq<Message>, calls: seq<ToolCall>)
    ensures GivenInOrder(seen, calls, PairedInOrder(calls, seen))
  {
    forall c | 0 <= c < |calls|
      ensures var found, n := ResultsOf(seen, calls[c].id), |Namesakes(calls, c)|;
              PairedInOrder(calls, seen)[c] == if n < |found| then Some(found[n]) else None
    {
      ResultsAre(seen, calls[c].id);
      NamesakesAre(calls, calls[c].id, c);
    }
  }

  lemma NothingCollected(ms: seq<Message>, boundary: string, start: nat)
    requires start <= |ms|
    ensures SoFar(ms, boundary, start, start, {})
  {
  }

  lemma GroupIsRight(ms: seq<Message>, boundary: string, start: nat)
    requires start < |ms| && !Standalone(ms[start])
    ensures var end := Next(ms, boundary, start);
            start < end <= |ms| && IsGroup(ms, boundary, start, end, GroupAt(ms, Extent(start, end)))
  {
    var end := Next(ms, boundary, start);
    assert ms[start..end][0] == ms[start];
    if Failed(ms[start]) {
      ErrorRun(ms, start);
    } else if Calling(ms[start]) {
      NothingCollected(ms, boundary, start);
      GroupEndIsRight(ms, boundary, start, start, {});
      MembersAre(ms[start..end]);
      IdsAt(ms[start..end]);
      GivenAre(ms[..end], Calls(ms[start..end]));
    }
  }

  /** A tool message that did not fail. */
  predicate Quiet(m: Message) {
    m.role == Tool && !m.toolError
  }

  /** Places in increasing order; between them, and at none of their starts, are quiet messages. */
  predicate Tiles(ms: seq<Message>, xs: seq<Extent>) {
    && (forall k :: 0 <= k < |xs| ==> xs[k].start < xs[k].end <= |ms| && !Quiet(ms[xs[k].start]))
    && Increase(xs)
    && (forall p :: 0 <= p < |ms| && !Claims(xs, p) ==> Quiet(ms[p]))
  }

  predicate AreGroups(ms: seq<Message>, boundary: string, xs: seq<Extent>, groups: seq<Group>) {
    && Tiles(ms, xs) && |groups| == |xs|
    && forall k {:trigger IsGroup(ms, boundary, xs[k].start, xs[k].end, groups[k])} :: 0 <= k < |xs| ==>
         IsGroup(ms, boundary, xs[k].start, xs[k].end, groups[k])
  }

  lemma PlacesAreRight(ms: seq<Message>, boundary: string)
    ensures Tiles(ms, Extents(ms, boundary, 0))
  {
    var xs := Extents(ms, boundary, 0);
    Tiling(ms, boundary);
    forall k | 0 <= k < |xs|
      ensures !Quiet(ms[xs[k].start])
    {
      ExtentsIncrease(ms, boundary, 0, k);
    }
  }

  lemma GroupIsRightAt(ms: seq<Message>, boundary: string, k: nat)
    requires k < |Extents(ms, boundary, 0)|
    ensures var x := Extents(ms, boundary, 0)[k]; IsGroup(ms, boundary, x.start, x.end, GroupAt(ms, x))
  {
    ExtentsIncrease(ms, boundary, 0, k);
    GroupIsRight(ms, boundary, Extents(ms, boundary, 0)[k].start);
  }

  lemma PlanIsRight(ms: seq<Message>, boundary: string)
    ensures AreGroups(ms, boundary, Extents(ms, boundary, 0), Plan(ms, boundary))
  {
    var xs := Extents(ms, boundary, 0);
    PlacesAreRight(ms, boundary);
    forall k | 0 <= k < |xs|
      ensures IsGroup(ms, boundary, xs[k].start, xs[k].end, Plan(ms, boundary)[k])
    {
      GroupIsRightAt(ms, boundary, k);
    }
  }

  /** From an empty cache, the groups of any list are groups of it in this sense. */
  lemma GroupsAreRight(ms: seq<Message>, boundary: string)
    ensures AreGroups(ms, boundary, Extents(ms, boundary, 0), NextCache(EMPTY_CACHE, ms, boundary).groups)
  {
    FromScratch(ms, boundary);
    PlanIsRight(ms, boundary);
  }

  lemma FailedRunIsUnique(ms: seq<Message>, start: nat, d: nat, e: nat)
    requires start < d <= |ms| && start < e <= |ms|
    requires (forall p :: start <= p < d ==> Failed(ms[p])) && (d < |ms| ==> !Failed(ms[d]))
    requires (forall p :: start <= p < e ==> Failed(ms[p])) && (e < |ms| ==> !Failed(ms[e]))
    ensures d == e
  {
  }

  lemma GivenIsUnique(seen: seq<Message>, calls: seq<ToolCall>, a: seq<Option<Message>>, b: seq<Option<Message>>)
    requires GivenInOrder(seen, calls, a) && GivenInOrder(seen, calls, b)
    ensures a == b
  {
  }

  lemma GroupIsUnique(ms: seq<Message>, boundary: string, start: nat, d: nat, e: nat, g: Group, h: Group)
    requires IsGroup(ms, boundary, start, d, g) && IsGroup(ms, boundary, start, e, h)
    ensures d == e && g == h
  {
    if Failed(ms[start]) {
      FailedRunIsUnique(ms, start, d, e);
    } else if Calling(ms[start]) {
      ToolGroupIsUnique(ms, boundary, start, d, e);
      GivenIsUnique(ms[..d], g.calls, g.results, h.results);
      assert forall k :: 0 <= k < |g.covered| ==> g.covered[k] == ms[start + k].id;
      assert g.covered == h.covered;
    }
  }

  predicate SameBefore(xs: seq<Extent>, ys: seq<Extent>, k: nat) {
    k <= |xs| && k <= |ys| && forall j :: 0 <= j < k ==> xs[j] == ys[j]
  }

  predicate Increase(xs: seq<Extent>) {
    forall j, k :: 0 <= j < k < |xs| ==> xs[j].end <= xs[k].start
  }

  lemma ClaimedAt(ms: seq<Message>, xs: seq<Extent>, p: nat) returns (q: nat)
    requires Tiles(ms, xs) && p < |ms| && !Quiet(ms[p])
    ensures q < |xs| && Holds(xs[q], p)
  {
    q :| q < |xs| && Holds(xs[q], p);
  }

  lemma NotBefore(xs: seq<Extent>, ys: seq<Extent>, k: nat, q: nat)
    requires Increase(xs) && SameBefore(xs, ys, k) && k < |xs| && q < |ys| && Holds(ys[q], xs[k].start)
    ensures k <= q
  {
    assert forall j :: 0 <= j < k ==> xs[j].end <= xs[k].start;
  }

  lemma StartsInOrder(ys: seq<Extent>, k: nat, q: nat)
    requires Increase(ys) && k <= q < |ys| && forall j :: 0 <= j < |ys| ==> ys[j].start < ys[j].end
    ensures ys[k].start <= ys[q].start
  {
  }

  /** If `xs` and `ys` agree before `k`, the next place of `ys` starts no later than that of `xs`. */
  lemma StartsNoLater(ms: seq<Message>, xs: seq<Extent>, ys: seq<Extent>, k: nat)
    requires Tiles(ms, xs) && Tiles(ms, ys) && SameBefore(xs, ys, k) && k < |xs|
    ensures k < |ys| && ys[k].start <= xs[k].start
  {
    var q := ClaimedAt(ms, ys, xs[k].start);
    NotBefore(xs, ys, k, q);
    StartsInOrder(ys, k, q);
  }

  lemma SameNext(ms: seq<Message>, boundary: string, xs: seq<Extent>, ys: seq<Extent>, g: seq<Group>,
                 h: seq<Group>, k: nat)
    requires AreGroups(ms, boundary, xs, g) && AreGroups(ms, boundary, ys, h)
    requires SameBefore(xs, ys, k) && k < |xs|
    ensures k < |ys| && xs[k] == ys[k] && g[k] == h[k]
  {
    StartsNoLater(ms, xs, ys, k);
    StartsNoLater(ms, ys, xs, k);
    assert IsGroup(ms, boundary, xs[k].start, xs[k].end, g[k]);
    assert IsGroup(ms, boundary, ys[k].start, ys[k].end, h[k]);
    GroupIsUnique(ms, boundary, xs[k].start, xs[k].end, ys[k].end, g[k], h[k]);
  }

  predicate SameGroupsBefore(g: seq<Group>, h: seq<Group>, k: nat) {
    k <= |g| && k <= |h| && forall j :: 0 <= j < k ==> g[j] == h[j]
  }

  lemma OneMoreSame(xs: seq<Extent>, ys: seq<Extent>, g: seq<Group>, h: seq<Group>, k: nat)
    requires SameBefore(xs, ys, k) && SameGroupsBefore(g, h, k)
    requires k < |xs| && k < |ys| && k < |g| && k < |h| && xs[k] == ys[k] && g[k] == h[k]
    ensures SameBefore(xs, ys, k + 1) && SameGroupsBefore(g, h, k + 1)
  {
  }

  lemma {:induction false} SameUpTo(ms: seq<Message>, boundary: string, xs: seq<Extent>, ys: seq<Extent>,
                                    g: seq<Group>, h: seq<Group>, k: nat)
    requires AreGroups(ms, boundary, xs, g) && AreGroups(ms, boundary, ys, h) && k <= |xs|
    ensures SameBefore(xs, ys, k) && SameGroupsBefore(g, h, k)
  {
    if k > 0 {
      SameUpTo(ms, boundary, xs, ys, g, h, k - 1);
      SameNext(ms, boundary, xs, ys, g, h, k - 1);
      OneMoreSame(xs, ys, g, h, k - 1);
    }
  }

  /** A list has no other groups in this sense than those it is shown with. */
  lemma GroupsExactlyWhen(ms: seq<Message>, boundary: string, groups: seq<Group>)
    ensures groups == NextCache(EMPTY_CACHE, ms, boundary).groups <==>
              exists xs :: AreGroups(ms, boundary, xs, groups)
  {
    var ys, h := Extents(ms, boundary, 0), NextCache(EMPTY_CACHE, ms, boundary).groups;
    GroupsAreRight(ms, boundary);
    if xs :| AreGroups(ms, boundary, xs, groups) {
      SameUpTo(ms, boundary, xs, ys, groups, h, |xs|);
      SameUpTo(ms, boundary, ys, xs, h, groups, |ys|);
    }
  }

  /******* The list that is grouped *******/

  /** The messages whose source is neither of the two hidden ones, in order. */
  function NotHidden(list: seq<Message>): seq<Message> {
    if list == [] then []
    else
      (if list[0].source != SessionContext && list[0].source != CompactionInstruction then [list[0]] else []) +
      NotHidden(list[1..])
  }

  lemma {:induction false} NotHiddenConcat(a: seq<Message>, b: seq<Message>)
    ensures NotHidden(a + b) == NotHidden(a) + NotHidden(b)
  {
    if a == [] {
      assert a + b == b;
    } else {
      TailOf(a, b);
      NotHiddenConcat(a[1..], b);
    }
  }

  lemma {:induction false} VisibleAreNotHidden(list: seq<Message>)
    ensures Visible(list) == NotHidden(list)
  {
    if list != [] {
      var front, m := list[..|list| - 1], list[|list| - 1];
      VisibleAreNotHidden(front);
      assert list == front + [m];
      NotHiddenConcat(front, [m]);
      assert [m][1..] == [];
    }
  }
}
