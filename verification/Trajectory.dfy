/**
 `build_atif_trajectory` of benchmarks/harbor/libragent_agent.py as functions: messages turn
 into steps, and tool results find the step that declares their call id, whether it comes
 before or after them.
 */
module Trajectory {
  import opened Wrappers

  /******* Messages *******/

  /** A field of a message: missing or falsy, a string, or a truthy value that is no string. */
  datatype Field = Absent | Str(text: string) | Other

  datatype RawCall = NotADict | RawCall(id: Field, toolCallId: Field, toolCallIdSnake: Field)

  /** The role after `str(...)` and `lower()`. */
  datatype Role = User | System | Tool | Assistant | OtherRole

  /** `rawCalls` is empty where `toolCalls` is no list; `content` is what `_tool_observation_content` extracts. */
  datatype Message =
    | NotAMessage
    | Message(role: Role, rawCalls: seq<RawCall>, toolCallId: Field, toolCallIdSnake: Field, content: string)

  /** Python's `a or b`. */
  function Or(a: Field, b: Field): Field {
    if a == Absent || a == Str("") then b else a
  }

  predicate IsPySpace(c: char) {
    var n := c as int;
    || 9 <= n <= 13 || 28 <= n <= 32 || n == 0x85 || n == 0xA0 || n == 0x1680
    || 0x2000 <= n <= 0x200A || n == 0x2028 || n == 0x2029 || n == 0x202F || n == 0x205F || n == 0x3000
  }

  function Strip(text: string): string {
    if text == [] then []
    else if IsPySpace(text[0]) then Strip(text[1..])
    else if IsPySpace(text[|text| - 1]) then Strip(text[..|text| - 1])
    else text
  }

  function Decimal(n: nat): string {
    var digit := ["0123456789"[n % 10]];
    if n < 10 then digit else Decimal(n / 10) + digit
  }

  /** The id of the tool call at list index `index`: a non-blank string id, stripped, or a numbered one. */
  function CallId(call: RawCall, index: nat): string
    requires call.RawCall?
  {
    var id := Or(Or(call.id, call.toolCallId), call.toolCallIdSnake);
    if id.Str? && Strip(id.text) != "" then Strip(id.text) else "tool_call_" + Decimal(index + 1)
  }

  /** `_libragent_tool_calls`, as far as ids go: entries that are no dict are skipped but counted. */
  function ToolCallIds(calls: seq<RawCall>): seq<string> {
    if calls == [] then []
    else
      var n := |calls| - 1;
      ToolCallIds(calls[..n]) + (if calls[n].RawCall? then [CallId(calls[n], n)] else [])
  }

  predicate IsTool(m: Message) {
    m.Message? && m.role.Tool?
  }

  /** A message that becomes a step. */
  predicate Speaks(m: Message) {
    m.Message? && (m.role.User? || m.role.System? || m.role.Assistant?)
  }

  predicate IsAgent(m: Message) {
    m.Message? && m.role.Assistant?
  }

  function DeclaredIds(m: Message): seq<string> {
    if IsAgent(m) then ToolCallIds(m.rawCalls) else []
  }

  predicate Declares(m: Message, id: string) {
    id in DeclaredIds(m)
  }

  /** The call id that a tool message answers. */
  function SourceId(m: Message): Option<string>
    requires m.Message?
  {
    var id := Or(m.toolCallId, m.toolCallIdSnake);
    if id.Str? && Strip(id.text) != "" then Some(Strip(id.text)) else None
  }

  /******* Steps *******/

  datatype Source = FromUser | FromSystem | FromAgent

  datatype Result = Result(source: Option<string>, content: string)

  /** Empty `calls` and `observation` stand for the absent ones. */
  datatype Step = Step(stepId: nat, source: Source, calls: seq<string>, observation: seq<Result>)

  /** `pending_by_id`, a dict in insertion order. */
  datatype Entry = Entry(id: string, results: seq<Result>)

  datatype State = State(steps: seq<Step>, pending: seq<Entry>)

  function ResultOf(m: Message): Result
    requires m.Message?
  {
    Result(SourceId(m), m.content)
  }

  function Append(steps: seq<Step>, k: nat, results: seq<Result>): seq<Step>
    requires k < |steps|
  {
    steps[k := steps[k].(observation := steps[k].observation + results)]
  }

  /** `_find_agent_step_for_tool_call` among the first `n` steps: the last agent step that declares `id`. */
  function FindStep(steps: seq<Step>, n: nat, id: string): (k: Option<nat>)
    requires n <= |steps|
    ensures k.Some? ==> k.value < n
  {
    if n == 0 then None
    else if steps[n - 1].source.FromAgent? && id in steps[n - 1].calls then Some(n - 1)
    else FindStep(steps, n - 1, id)
  }

  function FindAgent(steps: seq<Step>, n: nat): (k: Option<nat>)
    requires n <= |steps|
    ensures k.Some? ==> k.value < n
  {
    if n == 0 then None
    else if steps[n - 1].source.FromAgent? then Some(n - 1)
    else FindAgent(steps, n - 1)
  }

  /** `pending.setdefault(id, []).append(result)`. */
  function PutPending(pending: seq<Entry>, id: string, result: Result): seq<Entry> {
    if pending == [] then [Entry(id, [result])]
    else if pending[0].id == id then [Entry(id, pending[0].results + [result])] + pending[1..]
    else [pending[0]] + PutPending(pending[1..], id, result)
  }

  /** `pending.get(id, [])`. */
  function PendingFor(pending: seq<Entry>, id: string): seq<Result> {
    if pending == [] then []
    else if pending[0].id == id then pending[0].results
    else PendingFor(pending[1..], id)
  }

  /** What `pending.pop(id, [])` leaves. */
  function WithoutPending(pending: seq<Entry>, id: string): seq<Entry> {
    if pending == [] then []
    else if pending[0].id == id then pending[1..]
    else [pending[0]] + WithoutPending(pending[1..], id)
  }

  /** `_consume_pending_observations`: what the ids take, in order, and what they leave. */
  function Taken(pending: seq<Entry>, ids: seq<string>): seq<Result>
    decreases |ids|
  {
    if ids == [] then []
    else PendingFor(pending, ids[0]) + Taken(WithoutPending(pending, ids[0]), ids[1..])
  }

  function Left(pending: seq<Entry>, ids: seq<string>): seq<Entry>
    decreases |ids|
  {
    if ids == [] then pending else Left(WithoutPending(pending, ids[0]), ids[1..])
  }

  /** `_attach_tool_observation`. */
  function Attach(st: State, m: Message): State
    requires IsTool(m)
  {
    match SourceId(m)
    case Some(id) =>
      (match FindStep(st.steps, |st.steps|, id)
       case Some(k) => st.(steps := Append(st.steps, k, [ResultOf(m)]))
       case None => st.(pending := PutPending(st.pending, id, ResultOf(m))))
    case None =>
      (match FindAgent(st.steps, |st.steps|)
       case Some(k) => st.(steps := Append(st.steps, k, [ResultOf(m)]))
       case None => st)
  }

  function SourceOf(m: Message): Source
    requires Speaks(m)
  {
    if m.role.User? then FromUser else if m.role.System? then FromSystem else FromAgent
  }

  /** One round of the loop over the messages. */
  function Add(st: State, m: Message): State {
    if Speaks(m) then
      var ids := DeclaredIds(m);
      var step := Step(|st.steps| + 1, SourceOf(m), ids, Taken(st.pending, ids));
      State(st.steps + [step], Left(st.pending, ids))
    else if IsTool(m) then Attach(st, m)
    else st
  }

  function Process(ms: seq<Message>): State {
    if ms == [] then State([], []) else Add(Process(ms[..|ms| - 1]), ms[|ms| - 1])
  }

  /** The pending results in dict order, stripped of their ids. */
  function Orphans(pending: seq<Entry>): seq<Result> {
    if pending == [] then []
    else Stripped(pending[0].results) + Orphans(pending[1..])
  }

  function Stripped(results: seq<Result>): seq<Result> {
    if results == [] then []
    else Stripped(results[..|results| - 1]) + [Result(None, results[|results| - 1].content)]
  }

  /** Lines 613-641: orphans go to the last agent step, or to a new one, and there is always a step. */
  function Close(st: State): seq<Step> {
    var n := |st.steps|;
    if st.pending != [] then
      match FindAgent(st.steps, n)
      case Some(k) => Append(st.steps, k, Orphans(st.pending))
      case None => st.steps + [Step(n + 1, FromAgent, [], Orphans(st.pending))]
    else if st.steps == [] then [Step(1, FromAgent, [], [])]
    else st.steps
  }

  function Build(ms: seq<Message>): seq<Step> {
    Close(Process(ms))
  }

  /******* The reference: where each tool message belongs *******/

  /** The messages that become steps, in order: step k + 1 is the k-th of them. */
  function Spoken(ms: seq<Message>): seq<Message> {
    if ms == [] then []
    else Spoken(ms[..|ms| - 1]) + (if Speaks(ms[|ms| - 1]) then [ms[|ms| - 1]] else [])
  }

  /** A tool message and how many speaking messages precede it. */
  datatype Arrival = Arrival(m: Message, n: nat)

  function Arrivals(ms: seq<Message>): seq<Arrival> {
    if ms == [] then []
    else
      var front, last := ms[..|ms| - 1], ms[|ms| - 1];
      Arrivals(front) + (if IsTool(last) then [Arrival(last, |Spoken(front)|)] else [])
  }

  /** The last of the first `n` speakers that declares `id`. */
  function LastDeclarer(speakers: seq<Message>, n: nat, id: string): (k: Option<nat>)
    requires n <= |speakers|
    ensures k.Some? ==> k.value < n && Declares(speakers[k.value], id)
  {
    if n == 0 then None
    else if Declares(speakers[n - 1], id) then Some(n - 1)
    else LastDeclarer(speakers, n - 1, id)
  }

  /** The first speaker from position `n` on that declares `id`. */
  function FirstDeclarer(speakers: seq<Message>, n: nat, id: string): (k: Option<nat>)
    requires n <= |speakers|
    ensures k.Some? ==> n <= k.value < |speakers| && Declares(speakers[k.value], id)
    decreases |speakers| - n
  {
    if n == |speakers| then None
    else if Declares(speakers[n], id) then Some(n)
    else FirstDeclarer(speakers, n + 1, id)
  }

  function LastAgent(speakers: seq<Message>, n: nat): (k: Option<nat>)
    requires n <= |speakers|
    ensures k.Some? ==> k.value < n && IsAgent(speakers[k.value])
  {
    if n == 0 then None
    else if IsAgent(speakers[n - 1]) then Some(n - 1)
    else LastAgent(speakers, n - 1)
  }

  /** Where a result for `id` belongs: with the latest declaration before it, or else the earliest after it. */
  function Declarer(speakers: seq<Message>, n: nat, id: string): Option<nat>
    requires n <= |speakers|
  {
    var before := LastDeclarer(speakers, n, id);
    if before.Some? then before else FirstDeclarer(speakers, n, id)
  }

  datatype Place = AtStep(k: nat) | Waiting(id: string) | Dropped

  /** Where an arrival stands once all `speakers` have spoken. */
  function PlaceOf(speakers: seq<Message>, a: Arrival): Place
    requires a.m.Message? && a.n <= |speakers|
  {
    match SourceId(a.m)
    case Some(id) =>
      (match Declarer(speakers, a.n, id) case Some(k) => AtStep(k) case None => Waiting(id))
    case None =>
      (match LastAgent(speakers, a.n) case Some(k) => AtStep(k) case None => Dropped)
  }

  predicate Arrived(speakers: seq<Message>, arrivals: seq<Arrival>) {
    forall k :: 0 <= k < |arrivals| ==> IsTool(arrivals[k].m) && arrivals[k].n <= |speakers|
  }

  datatype Placing = Placing(place: Place, result: Result)

  /** Where each arrival stands, in the order of arrival. */
  function Places(speakers: seq<Message>, arrivals: seq<Arrival>): seq<Placing>
    requires Arrived(speakers, arrivals)
  {
    seq(|arrivals|, k requires 0 <= k < |arrivals| =>
      Placing(PlaceOf(speakers, arrivals[k]), ResultOf(arrivals[k].m)))
  }

  /** The results that stand at `place`. */
  function Bucket(ps: seq<Placing>, place: Place): seq<Result> {
    if ps == [] then []
    else
      var last := ps[|ps| - 1];
      Bucket(ps[..|ps| - 1], place) + (if last.place == place then [last.result] else [])
  }

  /** The step that hosts the orphans: the last agent step, or the one made for them. */
  function OrphanHost(speakers: seq<Message>): nat {
    match LastAgent(speakers, |speakers|)
    case Some(k) => k
    case None => |speakers|
  }

  /** Whether step `k` of the finished trajectory receives what stands at `place`. */
  predicate Receives(place: Place, host: nat, k: nat) {
    match place
    case AtStep(j) => j == k
    case Waiting(_) => host == k
    case Dropped => false
  }

  /** The observation a result becomes: an orphan loses its id. */
  function ObservationOf(p: Placing): Result {
    if p.place.Waiting? then Result(None, p.result.content) else p.result
  }

  /** What step `k` receives of one placing. */
  function Share(p: Placing, host: nat, k: nat): multiset<Result> {
    if Receives(p.place, host, k) then multiset{ObservationOf(p)} else multiset{}
  }

  /** The observations that step `k` receives. */
  function Received(ps: seq<Placing>, host: nat, k: nat): multiset<Result> {
    if ps == [] then multiset{}
    else Received(ps[..|ps| - 1], host, k) + Share(ps[|ps| - 1], host, k)
  }
}
