/**
 The grouping computation of src/hooks/useMessageGrouping.ts as functions: one render
 (`NextCache`) that finds the divergence from the cached list, reuses a prefix of groups
 and rescans the rest, and, beside it, `Plan`, a reference that knows nothing of caches or
 result maps.
 */
module MessageGrouping {
  import opened Wrappers
  import JsText

  datatype Role = User | Assistant | System | Tool

  datatype Source = SessionContext | CompactionInstruction | OtherSource

  datatype Content = Text(text: string) | Thinking(thinking: string) | OtherContent

  datatype ToolCall = ToolCall(id: string, name: string, arguments: string)

  /** `ref` is the identity that `===` compares; an empty string or sequence stands for an absent field. */
  datatype Message = Message(
    ref: nat,
    id: string,
    role: Role,
    source: Source,
    thinking: string,
    content: seq<Content>,
    toolCalls: seq<ToolCall>,
    toolCallId: string,
    toolError: bool
  )

  datatype Group =
    | Single(message: Message)
    | ToolGroup(
        message: Message,
        messages: seq<Message>,
        covered: seq<string>,
        calls: seq<ToolCall>,
        results: seq<Option<Message>>)
    | ErrorGroup(message: Message, messages: seq<Message>)

  /** `Key(id, 0)` is the key `id`, `Key(id, n)` the key `id_dupN`. */
  datatype Key = Key(id: string, n: nat)

  type ResultMap = map<Key, Message>

  datatype Cache = Cache(
    messages: seq<Message>,
    groups: seq<Group>,
    ends: seq<nat>,
    results: ResultMap,
    last: int
  ) {
    predicate WellFormed() {
      |groups| == |ends|
    }
  }

  const EMPTY_CACHE := Cache([], [], [], map[], -1)

  /******* Message predicates *******/

  function Visible(messages: seq<Message>): seq<Message> {
    if messages == [] then []
    else
      var last := messages[|messages| - 1];
      Visible(messages[..|messages| - 1]) +
      (if last.source.SessionContext? || last.source.CompactionInstruction? then [] else [last])
  }

  predicate HasText(m: Message) {
    || JsText.NotBlank(m.thinking)
    || exists k :: 0 <= k < |m.content| && ValidText(m.content[k])
  }

  predicate ValidText(c: Content) {
    match c
    case Text(text) => JsText.NotBlank(text)
    case Thinking(thinking) => JsText.NotBlank(thinking)
    case OtherContent => false
  }

  predicate IsToolError(m: Message) {
    m.role.Tool? && m.toolError
  }

  predicate IsResult(m: Message) {
    m.role.Tool? && m.toolCallId != ""
  }

  predicate DeclaresCalls(m: Message) {
    m.role.Assistant? && m.toolCalls != []
  }

  /** A tool message that the scan skips unless a tool group has consumed it. */
  predicate Standalone(m: Message) {
    m.role.Tool? && !m.toolError
  }

  function CallIds(calls: seq<ToolCall>): set<string> {
    set c | c in calls :: c.id
  }

  /******* The result map *******/

  function FirstFree(r: ResultMap, id: string, n: nat): (k: nat)
    ensures n <= k && Key(id, k) !in r
    ensures forall q: nat :: n <= q < k ==> Key(id, q) in r
    decreases set k | k in r.Keys && k.id == id && n <= k.n
  {
    if Key(id, n) !in r then n
    else
      assert (set k | k in r.Keys && k.id == id && n + 1 <= k.n)
          == (set k | k in r.Keys && k.id == id && n <= k.n) - {Key(id, n)};
      FirstFree(r, id, n + 1)
  }

  function Capture(r: ResultMap, m: Message): ResultMap {
    if IsResult(m) then r[Key(m.toolCallId, FirstFree(r, m.toolCallId, 0)) := m] else r
  }

  function CaptureAll(r: ResultMap, range: seq<Message>): ResultMap {
    if range == [] then r
    else Capture(CaptureAll(r, range[..|range| - 1]), range[|range| - 1])
  }

  /** The plain `set` used when the map of a stable prefix is rebuilt: a later result replaces an earlier one. */
  function Rebuild(range: seq<Message>): ResultMap {
    if range == [] then map[]
    else
      var r := Rebuild(range[..|range| - 1]);
      var m := range[|range| - 1];
      if IsResult(m) then r[Key(m.toolCallId, 0) := m] else r
  }

  /** The largest index below `hi` of a tool result, or `floor`. */
  function LastResult(floor: int, ms: seq<Message>, lo: nat, hi: nat): int
    requires lo <= hi <= |ms|
  {
    if lo == hi then floor
    else
      var l := LastResult(floor, ms, lo, hi - 1);
      if IsResult(ms[hi - 1]) && l < hi - 1 then hi - 1 else l
  }

  /******* Extents of groups *******/

  function ErrorEnd(ms: seq<Message>, j: nat): (e: nat)
    requires j <= |ms|
    ensures j <= e <= |ms|
    decreases |ms| - j
  {
    if j < |ms| && IsToolError(ms[j]) then ErrorEnd(ms, j + 1) else j
  }

  predicate Answers(m: Message, ids: set<string>) {
    IsResult(m) && m.toolCallId in ids
  }

  function ResultsEnd(ms: seq<Message>, j: nat, ids: set<string>): (e: nat)
    requires j <= |ms|
    ensures j <= e <= |ms|
    decreases |ms| - j
  {
    if j < |ms| && Answers(ms[j], ids) then ResultsEnd(ms, j + 1, ids) else j
  }

  /** Whether the boundary message, when there is a boundary, lies in the range. */
  predicate HitsBoundary(range: seq<Message>, boundary: string) {
    boundary != "" && exists k :: 0 <= k < |range| && range[k].id == boundary
  }

  /** A message that the tool group begun at `start` can continue with at `j`. */
  predicate Continues(ms: seq<Message>, start: nat, j: nat)
    requires start <= j <= |ms|
  {
    j < |ms| && DeclaresCalls(ms[j]) && (HasText(ms[j]) ==> j == start)
  }

  /** Where the tool group begun at `start` stops, with its collecting loop standing at `j`. */
  function GroupEnd(ms: seq<Message>, boundary: string, start: nat, j: nat, ids: set<string>): (e: nat)
    requires start <= j <= |ms|
    ensures j <= e <= |ms|
    ensures Continues(ms, start, j) ==> j < e
    decreases |ms| - j
  {
    if !Continues(ms, start, j) then j
    else
      var ids' := ids + CallIds(ms[j].toolCalls);
      var k := ResultsEnd(ms, j + 1, ids');
      if HitsBoundary(ms[j..k], boundary) then k else GroupEnd(ms, boundary, start, k, ids')
  }

  /** The scan position after the one at `i`. */
  function Next(ms: seq<Message>, boundary: string, i: nat): (e: nat)
    requires i < |ms|
    ensures i < e <= |ms|
  {
    if IsToolError(ms[i]) then ErrorEnd(ms, i)
    else if DeclaresCalls(ms[i]) then GroupEnd(ms, boundary, i, i, {})
    else i + 1
  }

  /******* Contents of groups *******/

  function Members(range: seq<Message>): seq<Message> {
    if range == [] then []
    else
      var m := range[|range| - 1];
      Members(range[..|range| - 1]) + (if DeclaresCalls(m) then [m] else [])
  }

  function Ids(range: seq<Message>): seq<string> {
    if range == [] then [] else Ids(range[..|range| - 1]) + [range[|range| - 1].id]
  }

  function Calls(range: seq<Message>): seq<ToolCall> {
    if range == [] then []
    else
      var m := range[|range| - 1];
      Calls(range[..|range| - 1]) + (if DeclaresCalls(m) then m.toolCalls else [])
  }

  /** How many of the first `k` calls carry `id`. */
  function Occurrences(calls: seq<ToolCall>, k: nat, id: string): nat
    requires k <= |calls|
  {
    if k == 0 then 0
    else Occurrences(calls, k - 1, id) + (if calls[k - 1].id == id then 1 else 0)
  }

  function Lookup(r: ResultMap, key: Key): Option<Message> {
    if key in r then Some(r[key]) else None
  }

  function Paired(calls: seq<ToolCall>, r: ResultMap): seq<Option<Message>> {
    seq(|calls|, k requires 0 <= k < |calls| =>
      Lookup(r, Key(calls[k].id, Occurrences(calls, k, calls[k].id))))
  }

  function GroupOf(range: seq<Message>, results: seq<Option<Message>>): Group
    requires range != []
  {
    if IsToolError(range[0]) then ErrorGroup(range[0], range)
    else if DeclaresCalls(range[0]) then
      ToolGroup(range[0], Members(range), Ids(range), Calls(range), results)
    else Single(range[0])
  }

  /******* The scan *******/

  datatype Scan = Scan(i: nat, groups: seq<Group>, ends: seq<nat>, results: ResultMap, last: int)

  /** Lines 249-253: the message before position `i` declares the call that `ms[i]` answers. */
  predicate FollowsItsCall(ms: seq<Message>, i: nat) {
    && 0 < i < |ms|
    && DeclaresCalls(ms[i - 1])
    && Answers(ms[i], CallIds(ms[i - 1].toolCalls))
  }

  function Step(s: Scan, ms: seq<Message>, boundary: string): (t: Scan)
    requires s.i < |ms|
    ensures s.i < t.i <= |ms|
  {
    var e := Next(ms, boundary, s.i);
    if Standalone(ms[s.i]) then
      if FollowsItsCall(ms, s.i) then s.(i := e)
      else s.(i := e,
              results := CaptureAll(s.results, ms[s.i..e]),
              last := LastResult(s.last, ms, s.i, e))
    else
      var results := CaptureAll(s.results, ms[s.i..e]);
      var group := GroupOf(ms[s.i..e], Paired(Calls(ms[s.i..e]), results));
      Scan(e, s.groups + [group], s.ends + [e], results, LastResult(s.last, ms, s.i, e))
  }

  function Finish(s: Scan, ms: seq<Message>, boundary: string): (t: Scan)
    requires s.i <= |ms|
    ensures |s.groups| == |s.ends| ==> |t.groups| == |t.ends|
    decreases |ms| - s.i
  {
    if s.i < |ms| then Finish(Step(s, ms, boundary), ms, boundary) else s
  }

  /******* One render *******/

  function Divergence(old_: seq<Message>, new_: seq<Message>, from: nat): (d: nat)
    requires from <= |old_| && from <= |new_| && old_[..from] == new_[..from]
    ensures from <= d <= |old_| && d <= |new_|
    ensures old_[..d] == new_[..d]
    ensures d < |old_| && d < |new_| ==> old_[d] != new_[d]
    decreases |old_| - from
  {
    if from < |old_| && from < |new_| && old_[from] == new_[from] then
      assert old_[..from + 1] == old_[..from] + [old_[from]];
      assert new_[..from + 1] == new_[..from] + [new_[from]];
      Divergence(old_, new_, from + 1)
    else from
  }

  /** A cached group that lines 136-146 keep: it ends before the divergence, or at it and is single. */
  predicate Reusable(group: Group, end: nat, d: nat) {
    end < d || (end == d && group.Single?)
  }

  /** The number of groups the reuse loop accepts, having accepted the first `k`. */
  function ReuseCount(c: Cache, d: nat, k: nat): (n: nat)
    requires c.WellFormed() && k <= |c.ends|
    ensures k <= n <= |c.ends|
    ensures forall q :: k <= q < n ==> Reusable(c.groups[q], c.ends[q], d)
    decreases |c.ends| - k
  {
    if k == |c.ends| || !Reusable(c.groups[k], c.ends[k], d) then k
    else if c.ends[k] < d then ReuseCount(c, d, k + 1)
    else k + 1
  }

  function StartScan(c: Cache, ms: seq<Message>): (s: Scan)
    requires c.WellFormed()
    ensures s.i <= |ms| && |s.groups| == |s.ends|
  {
    var d := Divergence(c.messages, ms, 0);
    var k := ReuseCount(c, d, 0);
    assert k > 0 ==> Reusable(c.groups[k - 1], c.ends[k - 1], d);
    var start := if k > 0 then c.ends[k - 1] else 0;
    if d > c.last then Scan(start, c.groups[..k], c.ends[..k], c.results, c.last)
    else Scan(start, c.groups[..k], c.ends[..k], Rebuild(ms[..start]), LastResult(-1, ms, 0, start))
  }

  function NextCache(c: Cache, ms: seq<Message>, boundary: string): (next: Cache)
    requires c.WellFormed()
    ensures next.WellFormed()
  {
    var s := Finish(StartScan(c, ms), ms, boundary);
    Cache(ms, s.groups, s.ends, s.results, s.last)
  }

  /******* The reference *******/

  /** A group's place in the list: it covers the messages from `start` up to but not including `end`. */
  datatype Extent = Extent(start: nat, end: nat)

  /** The results for `id`, oldest first. */
  function ResultsFor(range: seq<Message>, id: string): seq<Message> {
    if range == [] then []
    else
      var m := range[|range| - 1];
      ResultsFor(range[..|range| - 1], id) + (if IsResult(m) && m.toolCallId == id then [m] else [])
  }

  function Nth<T>(s: seq<T>, n: nat): Option<T> {
    if n < |s| then Some(s[n]) else None
  }

  /** The n-th call with an id gets the n-th result for it among the messages up to the group's end. */
  function PairedInOrder(calls: seq<ToolCall>, prefix: seq<Message>): seq<Option<Message>> {
    seq(|calls|, k requires 0 <= k < |calls| =>
      Nth(ResultsFor(prefix, calls[k].id), Occurrences(calls, k, calls[k].id)))
  }

  /** The extents of the groups that a scan finds from position `i` on. */
  function Extents(ms: seq<Message>, boundary: string, i: nat): (xs: seq<Extent>)
    requires i <= |ms|
    ensures Inside(xs, |ms|)
    decreases |ms| - i
  {
    if i == |ms| then []
    else
      var e := Next(ms, boundary, i);
      if Standalone(ms[i]) then Extents(ms, boundary, e)
      else [Extent(i, e)] + Extents(ms, boundary, e)
  }

  predicate Inside(xs: seq<Extent>, n: nat) {
    forall k :: 0 <= k < |xs| ==> xs[k].start < xs[k].end <= n
  }

  function GroupAt(ms: seq<Message>, x: Extent): Group
    requires x.start < x.end <= |ms|
  {
    var range := ms[x.start..x.end];
    GroupOf(range, PairedInOrder(Calls(range), ms[..x.end]))
  }

  function GroupsAt(ms: seq<Message>, xs: seq<Extent>): seq<Group>
    requires Inside(xs, |ms|)
  {
    seq(|xs|, k requires 0 <= k < |xs| => GroupAt(ms, xs[k]))
  }

  function Ends(xs: seq<Extent>): seq<nat> {
    seq(|xs|, k requires 0 <= k < |xs| => xs[k].end)
  }

  /** The groups of a list, computed without a cache and without a result map. */
  function Plan(ms: seq<Message>, boundary: string): seq<Group> {
    GroupsAt(ms, Extents(ms, boundary, 0))
  }
}
