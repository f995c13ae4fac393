/**
 The media cache of src/lib/message-preprocessor.ts:14-249: a map in insertion order whose
 entries move to the end when used, bounded by the bytes they are estimated to hold.
 */
module MediaCache {
  import opened Wrappers

  const MAX_BYTES: nat := 64 * 1024 * 1024

  /** `entries` in the order in which the JavaScript map iterates them: oldest use first. */
  datatype Entry = Entry(key: string, data: string, size: nat)

  function Base64Bytes(data: string): nat {
    |data| * 3 / 4
  }

  function Sum(entries: seq<Entry>): nat {
    if entries == [] then 0 else entries[0].size + Sum(entries[1..])
  }

  predicate HasKey(entries: seq<Entry>, key: string) {
    exists k :: 0 <= k < |entries| && entries[k].key == key
  }

  function Get(entries: seq<Entry>, key: string): Entry
    requires HasKey(entries, key)
  {
    if entries[0].key == key then entries[0] else Get(entries[1..], key)
  }

  /** `delete(key)`. */
  function Delete(entries: seq<Entry>, key: string): seq<Entry> {
    if entries == [] then []
    else if entries[0].key == key then entries[1..]
    else [entries[0]] + Delete(entries[1..], key)
  }

  /** What pruning to `max` bytes leaves. */
  function Pruned(entries: seq<Entry>, max: nat): seq<Entry> {
    if Sum(entries) > max then Pruned(entries[1..], max) else entries
  }

  /** The entries after a cache hit: the one hit is the latest. */
  function Touched(entries: seq<Entry>, key: string): seq<Entry>
    requires HasKey(entries, key)
  {
    Delete(entries, key) + [Get(entries, key)]
  }

  /** The entries after an update, before pruning. */
  function WithEntry(entries: seq<Entry>, key: string, data: string): seq<Entry> {
    Delete(entries, key) + [Entry(key, data, Base64Bytes(data))]
  }

  function Updated(entries: seq<Entry>, key: string, data: string): seq<Entry> {
    Pruned(WithEntry(entries, key, data), MAX_BYTES)
  }

  predicate Distinct(entries: seq<Entry>) {
    forall i, j :: 0 <= i < j < |entries| ==> entries[i].key != entries[j].key
  }

  /******* Map operations *******/

  lemma {:induction false} DeleteMember(entries: seq<Entry>, key: string, e: Entry)
    requires Distinct(entries)
    ensures e in Delete(entries, key) <==> e in entries && e.key != key
  {
    if entries != [] {
      assert entries == [entries[0]] + entries[1..];
      if entries[0].key != key {
        DeleteMember(entries[1..], key, e);
      }
    }
  }

  lemma {:induction false} DeleteDistinct(entries: seq<Entry>, key: string)
    requires Distinct(entries)
    ensures Distinct(Delete(entries, key))
  {
    if entries != [] && entries[0].key != key {
      DeleteDistinct(entries[1..], key);
      var rest := Delete(entries[1..], key);
      forall k | 0 <= k < |rest|
        ensures rest[k].key != entries[0].key
      {
        DeleteMember(entries[1..], key, rest[k]);
        var j :| 0 <= j < |entries[1..]| && entries[1..][j] == rest[k];
        assert entries[j + 1] == rest[k];
      }
    }
  }

  lemma HasKeyTail(entries: seq<Entry>, key: string)
    requires entries != [] && entries[0].key != key
    ensures HasKey(entries, key) <==> HasKey(entries[1..], key)
  {
    assert forall k :: 0 < k < |entries| ==> entries[k] == entries[1..][k - 1];
    assert forall k :: 0 <= k < |entries[1..]| ==> entries[k + 1] == entries[1..][k];
  }

  lemma {:induction false} DeleteSum(entries: seq<Entry>, key: string)
    ensures Sum(Delete(entries, key)) == Sum(entries) - (if HasKey(entries, key) then Get(entries, key).size else 0)
  {
    if entries != [] {
      if entries[0].key == key {
        assert HasKey(entries, key);
      } else {
        HasKeyTail(entries, key);
        DeleteSum(entries[1..], key);
      }
    }
  }

  lemma DeleteFacts(entries: seq<Entry>, key: string)
    requires Distinct(entries)
    ensures var rest := Delete(entries, key);
            && Distinct(rest) && !HasKey(rest, key)
            && (forall e :: e in rest <==> e in entries && e.key != key)
            && Sum(rest) == Sum(entries) - (if HasKey(entries, key) then Get(entries, key).size else 0)
  {
    DeleteDistinct(entries, key);
    DeleteSum(entries, key);
    forall e
      ensures e in Delete(entries, key) <==> e in entries && e.key != key
    {
      DeleteMember(entries, key, e);
    }
  }

  lemma {:induction false} GetFacts(entries: seq<Entry>, key: string)
    requires HasKey(entries, key)
    ensures Get(entries, key) in entries && Get(entries, key).key == key
  {
    if entries[0].key != key {
      var k :| 0 <= k < |entries| && entries[k].key == key;
      assert entries[1..][k - 1].key == key;
      GetFacts(entries[1..], key);
    }
  }

  lemma {:induction false} SumAppend(entries: seq<Entry>, e: Entry)
    ensures Sum(entries + [e]) == Sum(entries) + e.size
  {
    if entries == [] {
      assert Sum([e]) == e.size + Sum([]);
    } else {
      assert (entries + [e])[1..] == entries[1..] + [e];
      SumAppend(entries[1..], e);
    }
  }

  /** Pruning keeps the longest suffix that fits. */
  predicate LongestFittingSuffix(kept: seq<Entry>, all: seq<Entry>, max: nat) {
    && |kept| <= |all| && kept == all[|all| - |kept|..]
    && Sum(kept) <= max
    && forall k :: 0 <= k < |all| - |kept| ==> Sum(all[k..]) > max
  }

  lemma {:induction false} SumOfSuffix(entries: seq<Entry>, k: nat)
    requires k <= |entries|
    ensures Sum(entries[k..]) <= Sum(entries)
  {
    if k > 0 {
      assert entries[1..][k - 1..] == entries[k..];
      SumOfSuffix(entries[1..], k - 1);
    }
  }

  lemma {:induction false} PrunedIsLongest(entries: seq<Entry>, max: nat)
    ensures LongestFittingSuffix(Pruned(entries, max), entries, max)
  {
    if Sum(entries) > max {
      var rest := entries[1..];
      PrunedIsLongest(rest, max);
      var kept := Pruned(rest, max);
      assert entries[|entries| - |kept|..] == rest[|rest| - |kept|..];
      forall k | 0 <= k < |entries| - |kept|
        ensures Sum(entries[k..]) > max
      {
        if k == 0 {
          assert entries[0..] == entries;
        } else {
          assert entries[k..] == rest[k - 1..];
        }
      }
    }
  }

  /******* The cache as it runs *******/

  predicate SizedRight(entries: seq<Entry>) {
    forall k :: 0 <= k < |entries| ==> entries[k].size == Base64Bytes(entries[k].data) && entries[k].key != ""
  }

  /** The piece between the first comma and the second, if there is a first. */
  function SecondField(text: string): string {
    if text == [] then ""
    else if text[0] == ',' then UpToComma(text[1..])
    else SecondField(text[1..])
  }

  function UpToComma(text: string): string {
    if text == [] || text[0] == ',' then [] else [text[0]] + UpToComma(text[1..])
  }

  predicate IsDataUri(uri: string) {
    "data:" <= uri
  }

  /** A load without a cache; `world` says what reading a file or fetching a URI yields, if it does not throw. */
  function Direct(uri: string, world: string -> Option<string>): Option<string> {
    if IsDataUri(uri) then Some(SecondField(uri)) else world(uri)
  }

  predicate NoComma(text: string) {
    forall k :: 0 <= k < |text| ==> text[k] != ','
  }

  lemma {:induction false} WholeUpToComma(text: string, rest: string)
    requires NoComma(text)
    ensures UpToComma(text) == text && UpToComma(text + "," + rest) == text
  {
    var whole := text + "," + rest;
    if text != [] {
      WholeUpToComma(text[1..], rest);
      assert whole[1..] == text[1..] + "," + rest;
      assert [text[0]] + text[1..] == text;
    }
  }

  lemma {:induction false} FieldBehind(head: string, rest: string)
    requires NoComma(head)
    ensures SecondField(head) == "" && SecondField(head + "," + rest) == UpToComma(rest)
  {
    var whole := head + "," + rest;
    if head == [] {
      assert whole[1..] == rest;
    } else {
      FieldBehind(head[1..], rest);
      assert whole[1..] == head[1..] + "," + rest;
    }
  }

  /** A `data:` URI yields what stands between its first comma and its second, or its end; nothing without a comma. */
  lemma DataUriYields(head: string, data: string, more: string, world: string -> Option<string>)
    requires NoComma(head) && NoComma(data) && "data:" <= head
    ensures Direct(head + "," + data, world) == Some(data)
    ensures Direct(head + "," + data + "," + more, world) == Some(data)
    ensures Direct(head, world) == Some("")
  {
    assert IsDataUri(head + "," + data) && IsDataUri(head + "," + data + "," + more);
    FieldBehind(head, data);
    FieldBehind(head, data + "," + more);
    assert head + "," + data + "," + more == head + "," + (data + "," + more);
    WholeUpToComma(data, more);
  }

  /** Any URI that does not begin with `data:` is read. */
  lemma OthersAreRead(uri: string, world: string -> Option<string>)
    requires |uri| < 5 || uri[0] != 'd' || uri[1] != 'a' || uri[2] != 't' || uri[3] != 'a' || uri[4] != ':'
    ensures Direct(uri, world) == world(uri)
  {
  }

  /** An entry counts for three bytes in four characters, rounded down. */
  lemma SizeIsThreeQuarters(entries: seq<Entry>, k: nat)
    requires SizedRight(entries) && k < |entries|
    ensures 4 * entries[k].size <= 3 * |entries[k].data| < 4 * (entries[k].size + 1)
  {
  }

  /** Every entry holds what its URI yields. */
  predicate Coherent(entries: seq<Entry>, world: string -> Option<string>) {
    forall k :: 0 <= k < |entries| ==> world(entries[k].key) == Some(entries[k].data)
  }

  lemma {:induction false} PrunedIsSuffix(entries: seq<Entry>, max: nat, x: Entry)
    ensures x in Pruned(entries, max) ==> x in entries
    ensures Distinct(entries) ==> Distinct(Pruned(entries, max))
    ensures Sum(Pruned(entries, max)) <= max
  {
    if Sum(entries) > max {
      assert Distinct(entries) ==> Distinct(entries[1..]);
      PrunedIsSuffix(entries[1..], max, x);
    }
  }

  class Cache {
    var entries: seq<Entry>
    var bytes: int

    predicate Valid()
      reads this
    {
      bytes == Sum(entries) && Distinct(entries) && SizedRight(entries)
    }

    constructor ()
      ensures Valid() && entries == []
    {
      entries, bytes := [], 0;
    }

    method Prune(max: nat)
      requires Valid()
      modifies this
      ensures Valid() && entries == Pruned(old(entries), max)
    {
      while bytes > max && |entries| > 0
        invariant Valid() && Pruned(entries, max) == Pruned(old(entries), max)
        decreases |entries|
      {
        var oldest := entries[0];
        if oldest.key == "" {
          break;
        }
        bytes := bytes - oldest.size;
        entries := entries[1..];
      }
    }

    method Update(key: string, data: string)
      requires Valid() && key != ""
      modifies this
      ensures Valid() && entries == Updated(old(entries), key, data)
    {
      var size := Base64Bytes(data);
      DeleteFacts(entries, key);
      if HasKey(entries, key) {
        var existing := Get(entries, key);
        bytes := bytes - existing.size;
        entries := Delete(entries, key);
      } else {
        DeleteAbsent(entries, key);
      }
      SumAppend(entries, Entry(key, data, size));
      entries := entries + [Entry(key, data, size)];
      bytes := bytes + size;
      Prune(MAX_BYTES);
    }

    /** `loadBase64FromUri`; its callers pass no empty URI (lines 324, 354 and 358). */
    method Load(uri: string, world: string -> Option<string>) returns (data: Option<string>)
      requires Valid() && uri != "" && Coherent(entries, world)
      modifies this
      ensures Valid() && Coherent(entries, world)
      ensures data == Direct(uri, world)
      ensures entries == if IsDataUri(uri) then old(entries)
                         else if HasKey(old(entries), uri) then Touched(old(entries), uri)
                         else if data.Some? then Updated(old(entries), uri, data.value)
                         else old(entries)
    {
      if IsDataUri(uri) {
        return Some(SecondField(uri));
      }
      if HasKey(entries, uri) {
        var cached := Get(entries, uri);
        DeleteFacts(entries, uri);
        GetFacts(entries, uri);
        SumAppend(Delete(entries, uri), cached);
        entries := Delete(entries, uri) + [cached];
        return Some(cached.data);
      }
      data := world(uri);
      if data.Some? {
        UpdateStaysCoherent(entries, uri, data.value, world);
        Update(uri, data.value);
      }
    }
  }

  lemma {:induction false} DeleteAbsent(entries: seq<Entry>, key: string)
    requires !HasKey(entries, key)
    ensures Delete(entries, key) == entries
  {
    if entries != [] {
      assert forall k :: 0 <= k < |entries[1..]| ==> entries[1..][k] == entries[k + 1];
      DeleteAbsent(entries[1..], key);
    }
  }

  lemma UpdateStaysCoherent(entries: seq<Entry>, key: string, data: string, world: string -> Option<string>)
    requires Distinct(entries) && Coherent(entries, world) && world(key) == Some(data)
    ensures Coherent(Updated(entries, key, data), world)
  {
    var all := WithEntry(entries, key, data);
    DeleteFacts(entries, key);
    forall e | e in Updated(entries, key, data)
      ensures world(e.key) == Some(e.data)
    {
      PrunedIsSuffix(all, MAX_BYTES, e);
      assert e in Delete(entries, key) || e == Entry(key, data, Base64Bytes(data));
    }
  }

  /******* Runs *******/

  /** Loads are asynchronous: hits and updates of several loads may come in any order. */
  datatype Event = Hit(key: string) | Put(key: string, data: string)

  predicate Possible(es: seq<Event>) {
    es == [] ||
    (&& Possible(es[..|es| - 1])
     && (es[|es| - 1].Hit? ==> HasKey(After(es[..|es| - 1]), es[|es| - 1].key)))
  }

  function After(es: seq<Event>): seq<Entry> {
    if es == [] then []
    else
      var entries := After(es[..|es| - 1]);
      match es[|es| - 1]
      case Hit(key) => if HasKey(entries, key) then Touched(entries, key) else entries
      case Put(key, data) => Updated(entries, key, data)
  }

  /** The position of the last event that used `key`, or -1. */
  function LastUse(es: seq<Event>, key: string): int {
    if es == [] then -1
    else if es[|es| - 1].key == key then |es| - 1
    else LastUse(es[..|es| - 1], key)
  }

  /** Entries stand in the order in which they were last used. */
  predicate InRecencyOrder(entries: seq<Entry>, es: seq<Event>) {
    forall i, j :: 0 <= i < j < |entries| ==> LastUse(es, entries[i].key) < LastUse(es, entries[j].key)
  }

  lemma {:induction false} LastUseBelow(es: seq<Event>, key: string)
    ensures LastUse(es, key) < |es|
  {
    if es != [] && es[|es| - 1].key != key {
      LastUseBelow(es[..|es| - 1], key);
    }
  }

  lemma {:induction false} DeleteKeepsOrder(entries: seq<Entry>, key: string, es: seq<Event>)
    requires InRecencyOrder(entries, es)
    ensures InRecencyOrder(Delete(entries, key), es)
  {
    if entries != [] && entries[0].key != key {
      var rest := Delete(entries[1..], key);
      DeleteKeepsOrder(entries[1..], key, es);
      forall j | 0 <= j < |rest|
        ensures LastUse(es, entries[0].key) < LastUse(es, rest[j].key)
      {
        DeletedFrom(entries[1..], key, rest[j]);
        var k :| 0 <= k < |entries[1..]| && entries[1..][k] == rest[j];
        assert entries[k + 1] == rest[j];
      }
    }
  }

  lemma {:induction false} DeletedFrom(entries: seq<Entry>, key: string, e: Entry)
    requires e in Delete(entries, key)
    ensures e in entries
  {
    if entries[0].key != key && e != entries[0] {
      assert e in Delete(entries[1..], key);
      DeletedFrom(entries[1..], key, e);
    }
  }

  /** Putting the key just used at the end is putting it in its place. */
  lemma UseKeepsOrder(entries: seq<Entry>, e: Entry, es: seq<Event>, event: Event)
    requires Distinct(entries) && InRecencyOrder(entries, es) && event.key == e.key
    ensures InRecencyOrder(Delete(entries, e.key) + [e], es + [event])
  {
    var rest, es' := Delete(entries, e.key), es + [event];
    DeleteKeepsOrder(entries, e.key, es);
    DeleteFacts(entries, e.key);
    assert es'[..|es'| - 1] == es;
    forall k | 0 <= k < |rest|
      ensures LastUse(es', rest[k].key) == LastUse(es, rest[k].key) < |es|
    {
      assert rest[k] in rest;
      LastUseBelow(es, rest[k].key);
    }
  }

  lemma {:induction false} PruneKeepsOrder(entries: seq<Entry>, max: nat, es: seq<Event>)
    requires InRecencyOrder(entries, es)
    ensures InRecencyOrder(Pruned(entries, max), es)
  {
    if Sum(entries) > max {
      PruneKeepsOrder(entries[1..], max, es);
    }
  }

  /** What the cache keeps over any run of hits and updates. */
  predicate Kept(entries: seq<Entry>, es: seq<Event>) {
    Distinct(entries) && Sum(entries) <= MAX_BYTES && InRecencyOrder(entries, es)
  }

  lemma UsedKept(entries: seq<Entry>, e: Entry)
    requires Distinct(entries)
    ensures Distinct(Delete(entries, e.key) + [e])
  {
    var rest := Delete(entries, e.key);
    DeleteFacts(entries, e.key);
    assert forall k :: 0 <= k < |rest| ==> rest[k] in rest;
  }

  lemma HitKept(entries: seq<Entry>, es: seq<Event>, key: string)
    requires Kept(entries, es) && HasKey(entries, key)
    ensures Kept(Touched(entries, key), es + [Hit(key)])
  {
    var e := Get(entries, key);
    GetFacts(entries, key);
    DeleteFacts(entries, key);
    SumAppend(Delete(entries, key), e);
    UsedKept(entries, e);
    UseKeepsOrder(entries, e, es, Hit(key));
  }

  lemma PutKept(entries: seq<Entry>, es: seq<Event>, key: string, data: string)
    requires Kept(entries, es)
    ensures Kept(Updated(entries, key, data), es + [Put(key, data)])
  {
    var e := Entry(key, data, Base64Bytes(data));
    var all := WithEntry(entries, key, data);
    UsedKept(entries, e);
    UseKeepsOrder(entries, e, es, Put(key, data));
    PruneKeepsOrder(all, MAX_BYTES, es + [Put(key, data)]);
    PrunedIsSuffix(all, MAX_BYTES, e);
  }

  /** After any run, keys are distinct and in recency order, and the bytes are within the bound. */
  lemma {:induction false} CacheKept(es: seq<Event>)
    requires Possible(es)
    ensures Kept(After(es), es)
  {
    if es != [] {
      var front, last := es[..|es| - 1], es[|es| - 1];
      CacheKept(front);
      assert es == front + [last];
      match last
      case Hit(key) => HitKept(After(front), front, key);
      case Put(key, data) => PutKept(After(front), front, key, data);
    }
  }

  /** An update keeps the longest most recent suffix, the new entry included, that fits. */
  lemma UpdateKeepsLongestSuffix(entries: seq<Entry>, key: string, data: string)
    ensures LongestFittingSuffix(Updated(entries, key, data), WithEntry(entries, key, data), 67_108_864)
  {
    PrunedIsLongest(WithEntry(entries, key, data), MAX_BYTES);
  }

  /******* Loads that overlap *******/

  /** Every update puts what its URI stands for, however long ago the load looked the cache up. */
  predicate Truthful(es: seq<Event>, world: string -> Option<string>) {
    forall k :: 0 <= k < |es| && es[k].Put? ==> world(es[k].key) == Some(es[k].data)
  }

  lemma TouchedStaysCoherent(entries: seq<Entry>, key: string, world: string -> Option<string>)
    requires Distinct(entries) && Coherent(entries, world) && HasKey(entries, key)
    ensures Coherent(Touched(entries, key), world)
  {
    GetFacts(entries, key);
    DeleteFacts(entries, key);
  }

  lemma {:induction false} AlwaysCoherent(es: seq<Event>, world: string -> Option<string>)
    requires Possible(es) && Truthful(es, world)
    ensures Coherent(After(es), world)
  {
    if es != [] {
      var front, last := es[..|es| - 1], es[|es| - 1];
      assert forall k :: 0 <= k < |front| ==> front[k] == es[k];
      AlwaysCoherent(front, world);
      CacheKept(front);
      match last
      case Hit(key) => TouchedStaysCoherent(After(front), key, world);
      case Put(key, data) => UpdateStaysCoherent(After(front), key, data, world);
    }
  }

  /** In whatever order the steps of several loads come, a hit gives what a direct load gives. */
  lemma HitIsDirect(es: seq<Event>, world: string -> Option<string>, key: string)
    requires Possible(es) && Truthful(es, world) && HasKey(After(es), key)
    ensures world(key) == Some(Get(After(es), key).data)
  {
    AlwaysCoherent(es, world);
    GetFacts(After(es), key);
  }
}
