/**
 When a persisted assistant message supersedes a streaming one:
 src/lib/message-streaming-supersession.ts and `extractTextContent` of src/lib/message-utils.ts.
 */
module Supersession {
  import opened Wrappers

  /** A creation or update time: absent, a `Date`, or a number. */
  datatype Stamp = Missing | DateStamp(ms: int) | Number(ms: int)

  datatype Content = Text(text: string) | OtherContent

  /** Empty strings and sequences stand for absent fields. */
  datatype ToolCall = ToolCall(id: string, name: string, arguments: string)

  datatype Message = Message(
    isAssistant: bool,
    updatedAt: Stamp,
    createdAt: Stamp,
    thinking: string,
    content: seq<Content>,
    toolCalls: seq<ToolCall>
  )

  /** `toTimestamp`: the number 0 is falsy and counts as absent. */
  function ToTimestamp(stamp: Stamp): Option<int> {
    match stamp
    case Missing => None
    case DateStamp(ms) => Some(ms)
    case Number(ms) => if ms == 0 then None else Some(ms)
  }

  function Timestamp(m: Message): Option<int> {
    if ToTimestamp(m.updatedAt).Some? then ToTimestamp(m.updatedAt) else ToTimestamp(m.createdAt)
  }

  function TextContent(content: seq<Content>): string {
    if content == [] then ""
    else (if content[0].Text? then content[0].text else "") + TextContent(content[1..])
  }

  /** `find`: the first call with the id. */
  function FindById(calls: seq<ToolCall>, id: string): Option<ToolCall> {
    if calls == [] then None
    else if calls[0].id == id then Some(calls[0])
    else FindById(calls[1..], id)
  }

  /** `resolvePersistedToolCall` */
  function Resolve(call: ToolCall, persisted: seq<ToolCall>, index: nat): Option<ToolCall> {
    var atIndex := if index < |persisted| then Some(persisted[index]) else None;
    if call.id == "" then atIndex
    else
      var byId := FindById(persisted, call.id);
      if byId.Some? then byId else atIndex
  }

  /** Lines 63-92 for one streaming call and its persisted counterpart. */
  predicate CallCovered(s: ToolCall, p: ToolCall) {
    if s.id != "" && p.id != "" && s.id != p.id then false
    else if s.name != "" && p.name != s.name then false
    else if s.id != "" && p.id != "" && s.id == p.id then true
    else |p.arguments| >= |s.arguments| && s.arguments <= p.arguments
  }

  predicate CoveredAt(streaming: seq<ToolCall>, persisted: seq<ToolCall>, i: nat)
    requires i < |streaming|
  {
    var p := Resolve(streaming[i], persisted, i);
    p.Some? && CallCovered(streaming[i], p.value)
  }

  /** `persistedToolCallsCoverStreamingState` */
  predicate CallsCovered(streaming: seq<ToolCall>, persisted: seq<ToolCall>) {
    streaming == [] ||
    (|persisted| >= |streaming| && forall i :: 0 <= i < |streaming| ==> CoveredAt(streaming, persisted, i))
  }

  predicate ExtendsPrefix(s: string, p: string) {
    s == "" || (|p| >= |s| && s <= p)
  }

  /** `isAssistantStreamingMessageSuperseded` */
  predicate Superseded(s: Message, p: Message) {
    && s.isAssistant && p.isAssistant
    && Timestamp(s).Some? && Timestamp(p).Some? && Timestamp(p).value >= Timestamp(s).value
    && ExtendsPrefix(s.thinking, p.thinking)
    && ExtendsPrefix(TextContent(s.content), TextContent(p.content))
    && CallsCovered(s.toolCalls, p.toolCalls)
  }

  /******* Reflexivity *******/

  lemma {:induction false} FindIsFirst(calls: seq<ToolCall>, id: string, k: nat)
    requires k < |calls| && calls[k].id == id
    requires forall j :: 0 <= j < k ==> calls[j].id != id
    ensures FindById(calls, id) == Some(calls[k])
  {
    if k > 0 {
      FindIsFirst(calls[1..], id, k - 1);
    }
  }

  lemma {:induction false} FoundHasId(calls: seq<ToolCall>, id: string)
    ensures FindById(calls, id).Some? ==> FindById(calls, id).value.id == id && FindById(calls, id).value in calls
    ensures FindById(calls, id).None? ==> forall k :: 0 <= k < |calls| ==> calls[k].id != id
  {
    if calls != [] {
      FoundHasId(calls[1..], id);
    }
  }

  /** Calls that share an id with an earlier call carry its name, or none. */
  predicate ConsistentNames(calls: seq<ToolCall>) {
    forall i :: 0 <= i < |calls| && calls[i].id != "" && calls[i].name != "" ==>
      FindById(calls, calls[i].id).Some? && FindById(calls, calls[i].id).value.name == calls[i].name
  }

  /** A message supersedes itself exactly when it is a timestamped assistant message with consistent names. */
  lemma SelfExactlyWhen(m: Message)
    ensures Superseded(m, m) <==> m.isAssistant && Timestamp(m).Some? && ConsistentNames(m.toolCalls)
  {
    forall i | 0 <= i < |m.toolCalls|
      ensures CoveredAt(m.toolCalls, m.toolCalls, i) <==>
                (m.toolCalls[i].id != "" && m.toolCalls[i].name != "" ==>
                   FindById(m.toolCalls, m.toolCalls[i].id).Some? &&
                   FindById(m.toolCalls, m.toolCalls[i].id).value.name == m.toolCalls[i].name)
    {
      FoundHasId(m.toolCalls, m.toolCalls[i].id);
    }
  }

  predicate DistinctIds(calls: seq<ToolCall>) {
    forall i, j :: 0 <= i < j < |calls| && calls[i].id != "" ==> calls[i].id != calls[j].id
  }

  lemma DistinctIsConsistent(calls: seq<ToolCall>)
    requires DistinctIds(calls)
    ensures ConsistentNames(calls)
  {
    forall i | 0 <= i < |calls| && calls[i].id != ""
      ensures FindById(calls, calls[i].id) == Some(calls[i])
    {
      FindIsFirst(calls, calls[i].id, i);
    }
  }

  /** Timestamped assistant messages whose non-empty ids are distinct supersede themselves. */
  lemma Reflexive(m: Message)
    requires m.isAssistant && Timestamp(m).Some? && DistinctIds(m.toolCalls)
    ensures Superseded(m, m)
  {
    DistinctIsConsistent(m.toolCalls);
    SelfExactlyWhen(m);
  }

  /******* Transitivity *******/

  predicate HasIds(calls: seq<ToolCall>) {
    calls != [] && DistinctIds(calls) && forall k :: 0 <= k < |calls| ==> calls[k].id != ""
  }

  predicate NoIds(calls: seq<ToolCall>) {
    forall k :: 0 <= k < |calls| ==> calls[k].id == ""
  }

  /** The calls either all have ids, distinct ones, or all have none. */
  predicate Uniform(m: Message) {
    HasIds(m.toolCalls) || NoIds(m.toolCalls)
  }

  /** Which of three messages have call ids; a message without calls counts as having none. */
  datatype Pattern = Pattern(a: bool, b: bool, c: bool)

  function PatternOf(a: Message, b: Message, c: Message): Pattern {
    Pattern(HasIds(a.toolCalls), HasIds(b.toolCalls), HasIds(c.toolCalls))
  }

  /** The patterns in which an id is dropped on the way, or found only on the way. */
  predicate Mixed(p: Pattern) {
    p == Pattern(true, false, true) || p == Pattern(false, true, true) || p == Pattern(true, true, false)
  }

  /** The id case: each counterpart is the call with the same id. */
  lemma CoveredById(a: seq<ToolCall>, b: seq<ToolCall>, c: seq<ToolCall>, i: nat)
    requires HasIds(a) && HasIds(b) && HasIds(c) && CallsCovered(a, b) && CallsCovered(b, c) && i < |a|
    ensures CoveredAt(a, c, i)
  {
    assert CoveredAt(a, b, i);
    FoundHasId(b, a[i].id);
    var p := Resolve(a[i], b, i).value;
    assert p.id == a[i].id && p in b;
    var j :| 0 <= j < |b| && b[j] == p;
    assert CoveredAt(b, c, j);
    FoundHasId(c, p.id);
  }

  /** The other cases that hold: each counterpart is the call at the same index. */
  lemma CoveredByIndex(a: seq<ToolCall>, b: seq<ToolCall>, c: seq<ToolCall>, i: nat)
    requires CallsCovered(a, b) && CallsCovered(b, c) && i < |a|
    requires (NoIds(a) && NoIds(b)) || (NoIds(b) && NoIds(c)) || (NoIds(a) && HasIds(b) && NoIds(c))
    ensures CoveredAt(a, c, i)
  {
    assert CoveredAt(a, b, i) && CoveredAt(b, c, i);
    FoundHasId(b, a[i].id);
    FoundHasId(c, a[i].id);
    FoundHasId(c, b[i].id);
    var p, q := b[i], c[i];
    assert Resolve(a[i], b, i) == Some(p) && Resolve(p, c, i) == Some(q) && Resolve(a[i], c, i) == Some(q);
  }

  lemma PrefixesChain(a: string, b: string, c: string)
    requires ExtendsPrefix(a, b) && ExtendsPrefix(b, c)
    ensures ExtendsPrefix(a, c)
  {
  }

  /** Outside the mixed patterns supersession is transitive: a superseded snapshot stays superseded. */
  lemma Transitive(a: Message, b: Message, c: Message)
    requires Uniform(a) && Uniform(b) && Uniform(c)
    requires Superseded(a, b) && Superseded(b, c)
    requires a.toolCalls != [] ==> !Mixed(PatternOf(a, b, c))
    ensures Superseded(a, c)
  {
    PrefixesChain(a.thinking, b.thinking, c.thinking);
    PrefixesChain(TextContent(a.content), TextContent(b.content), TextContent(c.content));
    forall i | 0 <= i < |a.toolCalls|
      ensures CoveredAt(a.toolCalls, c.toolCalls, i)
    {
      if HasIds(a.toolCalls) && HasIds(b.toolCalls) && HasIds(c.toolCalls) {
        CoveredById(a.toolCalls, b.toolCalls, c.toolCalls, i);
      } else {
        CoveredByIndex(a.toolCalls, b.toolCalls, c.toolCalls, i);
      }
    }
  }

  function Snapshot(call: ToolCall): Message {
    Message(true, Missing, Number(1), "", [], [call])
  }

  /** Three messages of one call each that break transitivity, for each mixed pattern. */
  function Broken(p: Pattern): (Message, Message, Message)
    requires Mixed(p)
  {
    if p == Pattern(true, false, true) then
      (Snapshot(ToolCall("x", "", "")), Snapshot(ToolCall("", "", "")), Snapshot(ToolCall("y", "", "")))
    else if p == Pattern(false, true, true) then
      (Snapshot(ToolCall("", "", "q")), Snapshot(ToolCall("x", "", "q")), Snapshot(ToolCall("x", "", "")))
    else
      (Snapshot(ToolCall("x", "", "q")), Snapshot(ToolCall("x", "", "")), Snapshot(ToolCall("", "", "")))
  }

  lemma MixedPatternsBreak(p: Pattern)
    requires Mixed(p)
    ensures var (a, b, c) := Broken(p);
            && Uniform(a) && Uniform(b) && Uniform(c) && PatternOf(a, b, c) == p
            && Superseded(a, b) && Superseded(b, c) && !Superseded(a, c)
  {
    var (a, b, c) := Broken(p);
    SingleCovered(a.toolCalls[0], b.toolCalls[0]);
    SingleCovered(b.toolCalls[0], c.toolCalls[0]);
    SingleCovered(a.toolCalls[0], c.toolCalls[0]);
  }

  lemma SingleCovered(s: ToolCall, p: ToolCall)
    ensures CallsCovered([s], [p]) <==> CallCovered(s, p)
  {
    FoundHasId([p], s.id);
    assert Resolve(s, [p], 0) == Some(p);
    assert CoveredAt([s], [p], 0) <==> CallCovered(s, p);
  }

  /** Three uniform messages of the pattern, each superseded by the next. */
  predicate InChain(a: Message, b: Message, c: Message, p: Pattern) {
    && Uniform(a) && Uniform(b) && Uniform(c)
    && a.toolCalls != [] && PatternOf(a, b, c) == p
    && Superseded(a, b) && Superseded(b, c)
  }

  /** Transitivity over all uniform messages of a pattern. */
  ghost predicate TransitiveFor(p: Pattern) {
    forall a, b, c | InChain(a, b, c, p) :: Superseded(a, c)
  }

  /** Supersession is transitive exactly on the patterns that are not mixed. */
  lemma TransitiveExactlyWhen(p: Pattern)
    ensures TransitiveFor(p) <==> !Mixed(p)
  {
    if Mixed(p) {
      MixedPatternsBreak(p);
      var (a, b, c) := Broken(p);
      assert InChain(a, b, c, p);
    } else {
      forall a, b, c | InChain(a, b, c, p)
        ensures Superseded(a, c)
      {
        Transitive(a, b, c);
      }
    }
  }

  /******* Exactly when, for any ids *******/

  function Ids(calls: seq<ToolCall>): seq<string> {
    seq(|calls|, k requires 0 <= k < |calls| => calls[k].id)
  }

  function FirstIndex(ids: seq<string>, id: string): (k: nat)
    ensures k <= |ids|
    ensures k < |ids| ==> ids[k] == id
  {
    if ids == [] || ids[0] == id then 0 else 1 + FirstIndex(ids[1..], id)
  }

  /** Where the call with `id` at `index` finds its counterpart. */
  function Target(id: string, ids: seq<string>, index: nat): (k: nat)
    requires index < |ids|
    ensures k < |ids|
  {
    if id != "" && FirstIndex(ids, id) < |ids| then FirstIndex(ids, id) else index
  }

  predicate Compatible(a: string, b: string) {
    a == "" || b == "" || a == b
  }

  predicate SameId(a: string, b: string) {
    a != "" && a == b
  }

  /** The ids alone do not keep `b` from covering `a`. */
  predicate Linked(a: seq<string>, b: seq<string>) {
    |a| <= |b| && forall i :: 0 <= i < |a| ==> Compatible(a[i], b[Target(a[i], b, i)])
  }

  /**
   The i-th call of `a` finds the same counterpart in `c` directly as by way of `b`, and where its
   arguments count there, they count on the way as well.
   */
  predicate Carries(a: seq<string>, b: seq<string>, c: seq<string>, i: nat)
    requires i < |a| <= |b| <= |c|
  {
    var j, k := Target(a[i], b, i), Target(a[i], c, i);
    && Target(b[j], c, j) == k
    && Compatible(a[i], c[k])
    && (SameId(a[i], c[k]) || (!SameId(a[i], b[j]) && !SameId(b[j], c[k])))
  }

  predicate CarriesAll(a: seq<string>, b: seq<string>, c: seq<string>) {
    Linked(a, b) && Linked(b, c) ==> forall i :: 0 <= i < |a| ==> Carries(a, b, c, i)
  }

  lemma {:induction false} FoundAtFirst(calls: seq<ToolCall>, id: string)
    ensures var k := FirstIndex(Ids(calls), id);
            FindById(calls, id) == if k < |calls| then Some(calls[k]) else None
  {
    if calls != [] && calls[0].id != id {
      assert Ids(calls)[1..] == Ids(calls[1..]);
      FoundAtFirst(calls[1..], id);
    }
  }

  lemma ResolvesToTarget(call: ToolCall, persisted: seq<ToolCall>, i: nat)
    requires i < |persisted|
    ensures Resolve(call, persisted, i) == Some(persisted[Target(call.id, Ids(persisted), i)])
  {
    FoundAtFirst(persisted, call.id);
  }

  /** The call at `i` has the name and the arguments that its counterpart needs to cover it. */
  predicate Fits(s: ToolCall, p: ToolCall) {
    (s.name != "" ==> p.name == s.name) && (SameId(s.id, p.id) || s.arguments <= p.arguments)
  }

  lemma CoveredExactlyWhen(s: seq<ToolCall>, p: seq<ToolCall>, i: nat)
    requires i < |s| <= |p|
    ensures var target := p[Target(s[i].id, Ids(p), i)];
            CoveredAt(s, p, i) <==> Compatible(s[i].id, target.id) && Fits(s[i], target)
  {
    ResolvesToTarget(s[i], p, i);
  }

  lemma CoveredIsLinked(s: seq<ToolCall>, p: seq<ToolCall>)
    requires CallsCovered(s, p)
    ensures Linked(Ids(s), Ids(p))
  {
    forall i | 0 <= i < |s|
      ensures Compatible(s[i].id, Ids(p)[Target(s[i].id, Ids(p), i)])
    {
      CoveredExactlyWhen(s, p, i);
    }
  }

  lemma CarriedIsCovered(x: seq<ToolCall>, y: seq<ToolCall>, z: seq<ToolCall>, i: nat)
    requires CallsCovered(x, y) && CallsCovered(y, z) && i < |x| <= |y| <= |z|
    requires Carries(Ids(x), Ids(y), Ids(z), i)
    ensures CoveredAt(x, z, i)
  {
    var j := Target(x[i].id, Ids(y), i);
    assert CoveredAt(x, y, i) && CoveredAt(y, z, j);
    CoveredExactlyWhen(x, y, i);
    CoveredExactlyWhen(y, z, j);
    CoveredExactlyWhen(x, z, i);
  }

  lemma CarriedIsTransitive(x: Message, y: Message, z: Message)
    requires Superseded(x, y) && Superseded(y, z)
    requires CarriesAll(Ids(x.toolCalls), Ids(y.toolCalls), Ids(z.toolCalls))
    ensures Superseded(x, z)
  {
    PrefixesChain(x.thinking, y.thinking, z.thinking);
    PrefixesChain(TextContent(x.content), TextContent(y.content), TextContent(z.content));
    CoveredIsLinked(x.toolCalls, y.toolCalls);
    CoveredIsLinked(y.toolCalls, z.toolCalls);
    forall i | 0 <= i < |x.toolCalls|
      ensures CoveredAt(x.toolCalls, z.toolCalls, i)
    {
      assert Carries(Ids(x.toolCalls), Ids(y.toolCalls), Ids(z.toolCalls), i);
      CarriedIsCovered(x.toolCalls, y.toolCalls, z.toolCalls, i);
    }
  }

  /** Calls with the given ids of which only the one at `at` may have a name and arguments. */
  function CallsWith(ids: seq<string>, at: nat, name: string, arguments: string): (calls: seq<ToolCall>)
    ensures |calls| == |ids| && Ids(calls) == ids
  {
    seq(|ids|, k requires 0 <= k < |ids| =>
      ToolCall(ids[k], if k == at then name else "", if k == at then arguments else ""))
  }

  function MessageOf(calls: seq<ToolCall>): Message {
    Message(true, Missing, Number(1), "", [], calls)
  }

  lemma LinkedIsSuperseded(s: seq<ToolCall>, p: seq<ToolCall>)
    requires Linked(Ids(s), Ids(p))
    requires forall i :: 0 <= i < |s| ==> Fits(s[i], p[Target(s[i].id, Ids(p), i)])
    ensures Superseded(MessageOf(s), MessageOf(p))
  {
    forall i | 0 <= i < |s|
      ensures CoveredAt(s, p, i)
    {
      assert Compatible(Ids(s)[i], Ids(p)[Target(Ids(s)[i], Ids(p), i)]);
      CoveredExactlyWhen(s, p, i);
    }
  }

  lemma UncoveredIsNot(s: seq<ToolCall>, p: seq<ToolCall>, i: nat)
    requires i < |s| <= |p|
    requires var target := p[Target(s[i].id, Ids(p), i)]; !(Compatible(s[i].id, target.id) && Fits(s[i], target))
    ensures !Superseded(MessageOf(s), MessageOf(p))
  {
    CoveredExactlyWhen(s, p, i);
  }

  /** Messages of any kind with these call ids, each superseded by the next. */
  predicate ChainOf(x: Message, y: Message, z: Message, a: seq<string>, b: seq<string>, c: seq<string>) {
    && Ids(x.toolCalls) == a && Ids(y.toolCalls) == b && Ids(z.toolCalls) == c
    && Superseded(x, y) && Superseded(y, z)
  }

  ghost predicate TransitiveForIds(a: seq<string>, b: seq<string>, c: seq<string>) {
    forall x, y, z | ChainOf(x, y, z, a, b, c) :: Superseded(x, z)
  }

  /** Where the counterparts differ, a name can tell. */
  lemma OtherTargetBreaks(a: seq<string>, b: seq<string>, c: seq<string>, i: nat)
    requires Linked(a, b) && Linked(b, c) && i < |a|
    requires var j := Target(a[i], b, i); Target(b[j], c, j) != Target(a[i], c, i)
    ensures !TransitiveForIds(a, b, c)
  {
    var j := Target(a[i], b, i);
    var x, y, z := CallsWith(a, i, "n", ""), CallsWith(b, j, "n", ""), CallsWith(c, Target(b[j], c, j), "n", "");
    LinkedIsSuperseded(x, y);
    LinkedIsSuperseded(y, z);
    UncoveredIsNot(x, z, i);
    assert ChainOf(MessageOf(x), MessageOf(y), MessageOf(z), a, b, c);
  }

  lemma OtherIdBreaks(a: seq<string>, b: seq<string>, c: seq<string>, i: nat)
    requires Linked(a, b) && Linked(b, c) && i < |a|
    requires !Compatible(a[i], c[Target(a[i], c, i)])
    ensures !TransitiveForIds(a, b, c)
  {
    var x, y, z := CallsWith(a, 0, "", ""), CallsWith(b, 0, "", ""), CallsWith(c, 0, "", "");
    LinkedIsSuperseded(x, y);
    LinkedIsSuperseded(y, z);
    UncoveredIsNot(x, z, i);
    assert ChainOf(MessageOf(x), MessageOf(y), MessageOf(z), a, b, c);
  }

  /** Where ids hide the arguments on the way but not in the end, the arguments can tell. */
  lemma HiddenArgumentsBreak(a: seq<string>, b: seq<string>, c: seq<string>, i: nat)
    requires Linked(a, b) && Linked(b, c) && i < |a|
    requires var j, k := Target(a[i], b, i), Target(a[i], c, i);
             Target(b[j], c, j) == k && !SameId(a[i], c[k]) && (SameId(a[i], b[j]) || SameId(b[j], c[k]))
    ensures !TransitiveForIds(a, b, c)
  {
    var j := Target(a[i], b, i);
    var x, y, z := CallsWith(a, i, "", "q"), CallsWith(b, j, "", if SameId(a[i], b[j]) then "" else "q"),
                   CallsWith(c, 0, "", "");
    LinkedIsSuperseded(x, y);
    LinkedIsSuperseded(y, z);
    UncoveredIsNot(x, z, i);
    assert ChainOf(MessageOf(x), MessageOf(y), MessageOf(z), a, b, c);
  }

  /**
   For messages with any call ids, some or all of them absent or repeated: whatever the rest of the
   messages is, supersession is transitive if and only if the ids carry every call through.
   */
  lemma TransitiveExactlyWhenCarried(a: seq<string>, b: seq<string>, c: seq<string>)
    ensures TransitiveForIds(a, b, c) <==> CarriesAll(a, b, c)
  {
    if CarriesAll(a, b, c) {
      forall x, y, z | ChainOf(x, y, z, a, b, c)
        ensures Superseded(x, z)
      {
        CarriedIsTransitive(x, y, z);
      }
    } else {
      var i :| 0 <= i < |a| && !Carries(a, b, c, i);
      var j, k := Target(a[i], b, i), Target(a[i], c, i);
      if Target(b[j], c, j) != k {
        OtherTargetBreaks(a, b, c, i);
      } else if !Compatible(a[i], c[k]) {
        OtherIdBreaks(a, b, c, i);
      } else {
        HiddenArgumentsBreak(a, b, c, i);
      }
    }
  }
}
