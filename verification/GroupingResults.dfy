/**
 What result maps hold in src/hooks/useMessageGrouping.ts, whatever they were built from, and the
 lists for which that is enough to tell what a tool group shows.
 */
module GroupingResults {
  import opened MessageGrouping
  import opened IncrementalGrouping

  /******* Unique ids *******/

  predicate UniqueResults(ms: seq<Message>) {
    forall i, j :: 0 <= i < j < |ms| && IsResult(ms[i]) && IsResult(ms[j]) ==>
      ms[i].toolCallId != ms[j].toolCallId
  }

  predicate DistinctCalls(calls: seq<ToolCall>) {
    forall i, j :: 0 <= i < j < |calls| ==> calls[i].id != calls[j].id
  }

  predicate UniqueIds(ms: seq<Message>) {
    UniqueResults(ms) && DistinctCalls(Calls(ms))
  }

  lemma CallsSplit(ms: seq<Message>, lo: nat, hi: nat)
    requires lo <= hi <= |ms|
    ensures Calls(ms) == Calls(ms[..lo]) + Calls(ms[lo..hi]) + Calls(ms[hi..])
  {
    assert ms == ms[..hi] + ms[hi..];
    CallsConcat(ms[..hi], ms[hi..]);
    assert ms[..hi] == ms[..lo] + ms[lo..hi];
    CallsConcat(ms[..lo], ms[lo..hi]);
  }

  lemma DistinctMiddle(a: seq<ToolCall>, b: seq<ToolCall>, c: seq<ToolCall>)
    requires DistinctCalls(a + b + c)
    ensures DistinctCalls(b)
  {
    forall i, j | 0 <= i < j < |b|
      ensures b[i].id != b[j].id
    {
      assert b[i] == (a + b + c)[|a| + i] && b[j] == (a + b + c)[|a| + j];
    }
  }

  lemma DistinctInRange(ms: seq<Message>, lo: nat, hi: nat)
    requires lo <= hi <= |ms| && DistinctCalls(Calls(ms))
    ensures DistinctCalls(Calls(ms[lo..hi]))
  {
    CallsSplit(ms, lo, hi);
    DistinctMiddle(Calls(ms[..lo]), Calls(ms[lo..hi]), Calls(ms[hi..]));
  }

  lemma {:induction false} NoOccurrence(calls: seq<ToolCall>, k: nat, id: string)
    requires k <= |calls| && forall j :: 0 <= j < k ==> calls[j].id != id
    ensures Occurrences(calls, k, id) == 0
  {
    if k > 0 {
      NoOccurrence(calls, k - 1, id);
    }
  }

  /******* Which lists are safe *******/

  /** Call `c` of the group at `x` has no result so far, or one, and then its id is called once. */
  predicate Settled(ms: seq<Message>, x: Extent, c: nat)
    requires x.start < x.end <= |ms| && c < |Calls(ms[x.start..x.end])|
  {
    var calls := Calls(ms[x.start..x.end]);
    var n := |ResultsFor(ms[..x.end], calls[c].id)|;
    n == 0 || (n == 1 && forall k :: 0 <= k < |calls| && calls[k].id == calls[c].id ==> k == c)
  }

  predicate RobustAt(ms: seq<Message>, x: Extent)
    requires x.start < x.end <= |ms|
  {
    DeclaresCalls(ms[x.start]) ==> forall c :: 0 <= c < |Calls(ms[x.start..x.end])| ==> Settled(ms, x, c)
  }

  predicate Robust(ms: seq<Message>, boundary: string) {
    forall k :: 0 <= k < |Extents(ms, boundary, 0)| ==> RobustAt(ms, Extents(ms, boundary, 0)[k])
  }

  lemma {:induction false} ResultsForConcat(a: seq<Message>, b: seq<Message>, id: string)
    ensures ResultsFor(a + b, id) == ResultsFor(a, id) + ResultsFor(b, id)
  {
    if b == [] {
      assert a + b == a;
    } else {
      ResultsForConcat(a, b[..|b| - 1], id);
      assert (a + b)[..|a + b| - 1] == a + b[..|b| - 1];
    }
  }

  lemma {:induction false} ResultListed(ms: seq<Message>, m: Message)
    requires m in ms && IsResult(m)
    ensures m in ResultsFor(ms, m.toolCallId)
  {
    if m in ms[..|ms| - 1] {
      ResultListed(ms[..|ms| - 1], m);
    }
  }

  lemma {:induction false} ListedIsResult(ms: seq<Message>, id: string, m: Message)
    requires m in ResultsFor(ms, id)
    ensures m in ms && IsResult(m) && m.toolCallId == id
  {
    if m in ResultsFor(ms[..|ms| - 1], id) {
      ListedIsResult(ms[..|ms| - 1], id, m);
    }
  }

  lemma {:induction false} UniqueHasOneResult(ms: seq<Message>, h: nat, id: string)
    requires UniqueResults(ms) && h <= |ms|
    ensures |ResultsFor(ms[..h], id)| <= 1
  {
    if h > 0 {
      assert ms[..h][..h - 1] == ms[..h - 1];
      UniqueHasOneResult(ms, h - 1, id);
      if ResultsFor(ms[..h - 1], id) != [] {
        ListedIsResult(ms[..h - 1], id, ResultsFor(ms[..h - 1], id)[0]);
      }
    }
  }

  /** Unique ids suffice. */
  lemma UniqueIsRobust(ms: seq<Message>, boundary: string)
    requires UniqueIds(ms)
    ensures Robust(ms, boundary)
  {
    forall k, c | 0 <= k < |Extents(ms, boundary, 0)|
                  && 0 <= c < |Calls(ms[Extents(ms, boundary, 0)[k].start..Extents(ms, boundary, 0)[k].end])|
      ensures Settled(ms, Extents(ms, boundary, 0)[k], c)
    {
      var x := Extents(ms, boundary, 0)[k];
      DistinctInRange(ms, x.start, x.end);
      UniqueHasOneResult(ms, x.end, Calls(ms[x.start..x.end])[c].id);
    }
  }

  /******* What any result map holds, whatever the history *******/

  /** Each id with results has its plain key, and every key of an id holds one of its results. */
  ghost predicate Accounts(r: ResultMap, seen: seq<Message>) {
    && (forall id :: ResultsFor(seen, id) != [] ==> Key(id, 0) in r)
    && (forall key :: key in r ==> r[key] in ResultsFor(seen, key.id))
  }

  function Max(a: nat, b: nat): nat {
    if a < b then b else a
  }

  lemma OneMoreResult(seen: seq<Message>, m: Message, id: string)
    ensures ResultsFor(seen + [m], id)
         == ResultsFor(seen, id) + (if IsResult(m) && m.toolCallId == id then [m] else [])
  {
    assert (seen + [m])[..|seen|] == seen;
  }

  lemma CaptureAccounts(r: ResultMap, seen: seq<Message>, m: Message)
    requires Accounts(r, seen)
    ensures Accounts(Capture(r, m), seen + [m])
  {
    var r' := Capture(r, m);
    forall id | ResultsFor(seen + [m], id) != []
      ensures Key(id, 0) in r'
    {
      OneMoreResult(seen, m, id);
    }
    forall key | key in r'
      ensures r'[key] in ResultsFor(seen + [m], key.id)
    {
      OneMoreResult(seen, m, key.id);
    }
  }

  lemma RecaptureAccounts(r: ResultMap, seen: seq<Message>, m: Message)
    requires Accounts(r, seen) && m in seen
    ensures Accounts(Capture(r, m), seen)
  {
    if IsResult(m) {
      ResultListed(seen, m);
    }
  }

  lemma RangeJoin(ms: seq<Message>, lo: nat, mid: nat, hi: nat)
    requires lo <= mid <= hi <= |ms|
    ensures ms[lo..mid] + ms[mid..hi] == ms[lo..hi]
  {
  }

  lemma CaptureRanges(r: ResultMap, ms: seq<Message>, lo: nat, mid: nat, hi: nat)
    requires lo <= mid <= hi <= |ms|
    ensures CaptureAll(CaptureAll(r, ms[lo..mid]), ms[mid..hi]) == CaptureAll(r, ms[lo..hi])
  {
    CaptureAllConcat(r, ms[lo..mid], ms[mid..hi]);
    RangeJoin(ms, lo, mid, hi);
  }

  lemma {:induction false} NewAccounts(r: ResultMap, seen: seq<Message>, range: seq<Message>)
    requires Accounts(r, seen)
    ensures Accounts(CaptureAll(r, range), seen + range)
  {
    if range == [] {
      assert seen + range == seen;
    } else {
      var front, m := range[..|range| - 1], range[|range| - 1];
      NewAccounts(r, seen, front);
      CaptureAccounts(CaptureAll(r, front), seen + front, m);
      assert seen + range == seen + front + [m];
    }
  }

  lemma {:induction false} OldAccounts(r: ResultMap, seen: seq<Message>, range: seq<Message>)
    requires Accounts(r, seen) && forall m :: m in range ==> m in seen
    ensures Accounts(CaptureAll(r, range), seen)
  {
    if range != [] {
      var front, m := range[..|range| - 1], range[|range| - 1];
      OldAccounts(r, seen, front);
      RecaptureAccounts(CaptureAll(r, front), seen, m);
    }
  }

  /** Scanning from `lo` to `hi` with a map that accounts for the messages before `h` makes it account for all. */
  lemma RangeAccounts(r: ResultMap, ms: seq<Message>, lo: nat, hi: nat, h: nat)
    requires lo <= hi <= |ms| && h <= hi && Accounts(r, ms[..Max(lo, h)])
    ensures Accounts(CaptureAll(r, ms[lo..hi]), ms[..hi])
  {
    var mid := Max(lo, h);
    OldAccounts(r, ms[..mid], ms[lo..mid]);
    NewAccounts(CaptureAll(r, ms[lo..mid]), ms[..mid], ms[mid..hi]);
    CaptureRanges(r, ms, lo, mid, hi);
    assert ms[..mid] + ms[mid..hi] == ms[..hi];
  }

  lemma {:induction false} RebuildAccounts(range: seq<Message>)
    ensures Accounts(Rebuild(range), range)
  {
    if range != [] {
      var front, m := range[..|range| - 1], range[|range| - 1];
      RebuildAccounts(front);
    }
  }

  lemma LookupAlike(r: ResultMap, seen: seq<Message>, id: string, n: nat)
    requires Accounts(r, seen)
    requires ResultsFor(seen, id) == [] || (|ResultsFor(seen, id)| == 1 && n == 0)
    ensures Lookup(r, Key(id, n)) == Nth(ResultsFor(seen, id), n)
  {
    if ResultsFor(seen, id) == [] {
      assert Key(id, n) !in r;
    } else {
      assert r[Key(id, 0)] in ResultsFor(seen, id);
    }
  }

  /** Any map that accounts for the messages up to its end lets a robust group show the same. */
  lemma PairedAlike(r: ResultMap, ms: seq<Message>, x: Extent)
    requires x.start < x.end <= |ms| && DeclaresCalls(ms[x.start]) && RobustAt(ms, x)
    requires Accounts(r, ms[..x.end])
    ensures var calls := Calls(ms[x.start..x.end]); Paired(calls, r) == PairedInOrder(calls, ms[..x.end])
  {
    var calls := Calls(ms[x.start..x.end]);
    forall c | 0 <= c < |calls|
      ensures Lookup(r, Key(calls[c].id, Occurrences(calls, c, calls[c].id)))
           == Nth(ResultsFor(ms[..x.end], calls[c].id), Occurrences(calls, c, calls[c].id))
    {
      assert Settled(ms, x, c);
      if ResultsFor(ms[..x.end], calls[c].id) != [] {
        NoOccurrence(calls, c, calls[c].id);
      }
      LookupAlike(r, ms[..x.end], calls[c].id, Occurrences(calls, c, calls[c].id));
    }
  }

  /******* The index of the last tool result *******/

  lemma {:induction false} LastIsLast(ms: seq<Message>, h: nat)
    requires h <= |ms|
    ensures var l := LastResult(-1, ms, 0, h);
            && -1 <= l < h
            && (l >= 0 ==> IsResult(ms[l]))
            && (forall k :: l < k < h ==> !IsResult(ms[k]))
  {
    if h > 0 {
      LastIsLast(ms, h - 1);
    }
  }

  lemma {:induction false} LastExtends(ms: seq<Message>, lo: nat, hi: nat, h: nat)
    requires lo <= hi <= |ms| && h <= |ms|
    ensures LastResult(LastResult(-1, ms, 0, Max(lo, h)), ms, lo, hi) == LastResult(-1, ms, 0, Max(hi, h))
    decreases hi
  {
    if lo < hi {
      LastExtends(ms, lo, hi - 1, h);
      LastIsLast(ms, Max(hi - 1, h));
    }
  }

  lemma {:induction false} LastBelow(ms: seq<Message>, d: nat, n: nat)
    requires d <= n <= |ms| && LastResult(-1, ms, 0, n) < d
    ensures LastResult(-1, ms, 0, d) == LastResult(-1, ms, 0, n)
    decreases n
  {
    if d < n {
      LastIsLast(ms, n - 1);
      LastBelow(ms, d, n - 1);
    }
  }

  lemma {:induction false} LastAgrees(a: seq<Message>, b: seq<Message>, d: nat, h: nat)
    requires Agree(a, b, d) && h <= d
    ensures LastResult(-1, a, 0, h) == LastResult(-1, b, 0, h)
    decreases h
  {
    if h > 0 {
      AgreeAt(a, b, d, h - 1);
      LastAgrees(a, b, d, h - 1);
    }
  }
}
