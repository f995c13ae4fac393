/**
 What the trajectory of benchmarks/harbor/libragent_agent.py is, said of the fields of the messages:
 which id a call declares, which one a tool message answers, and where the two meet.
 */
module TrajectoryFields {
  import opened Wrappers
  import opened Trajectory
  import opened TrajectoryPlacement
  import opened TrajectoryOrder
  import JsText

  /******* Text *******/

  /** Python strips the separators 28 to 31 and U+0085, which JavaScript does not, and leaves U+FEFF. */
  lemma SpacesDiffer(c: char)
    ensures IsPySpace(c) != JsText.IsSpaceCode(c as int) <==> c as int in {28, 29, 30, 31, 0x85, 0xFEFF}
  {
  }

  predicate Blank(text: string) {
    forall k :: 0 <= k < |text| ==> IsPySpace(text[k])
  }

  /** `core` is the text between `lo` and `hi`, with white space alone around it and none at its ends. */
  predicate TrimsAt(text: string, core: string, lo: nat, hi: nat) {
    && lo <= hi <= |text| && core == text[lo..hi]
    && Blank(text[..lo]) && Blank(text[hi..])
    && (lo < hi ==> !IsPySpace(text[lo]) && !IsPySpace(text[hi - 1]))
  }

  /** `core` is the text without the white space around it. */
  predicate Trims(text: string, core: string) {
    exists lo: nat, hi: nat | lo <= hi <= |text| :: TrimsAt(text, core, lo, hi)
  }

  lemma TrimsInTail(text: string, core: string, lo: nat, hi: nat)
    requires text != "" && IsPySpace(text[0]) && TrimsAt(text[1..], core, lo, hi)
    ensures TrimsAt(text, core, lo + 1, hi + 1)
  {
    var tail := text[1..];
    assert forall k :: 0 <= k < |tail| ==> tail[k] == text[k + 1];
    assert tail[lo..hi] == text[lo + 1..hi + 1] && tail[hi..] == text[hi + 1..];
    assert text[..lo + 1] == [text[0]] + tail[..lo];
  }

  lemma TrimsInFront(text: string, core: string, lo: nat, hi: nat)
    requires text != "" && IsPySpace(text[|text| - 1]) && TrimsAt(text[..|text| - 1], core, lo, hi)
    ensures TrimsAt(text, core, lo, hi)
  {
    var front := text[..|text| - 1];
    assert front[lo..hi] == text[lo..hi] && front[..lo] == text[..lo];
    assert text[hi..] == front[hi..] + [text[|text| - 1]];
  }

  lemma {:induction false} StripTrims(text: string)
    ensures Trims(text, Strip(text))
  {
    if text == "" {
      assert TrimsAt(text, "", 0, 0);
    } else if IsPySpace(text[0]) {
      StripTrims(text[1..]);
      var lo: nat, hi: nat :| lo <= hi <= |text[1..]| && TrimsAt(text[1..], Strip(text[1..]), lo, hi);
      TrimsInTail(text, Strip(text), lo, hi);
    } else if IsPySpace(text[|text| - 1]) {
      StripTrims(text[..|text| - 1]);
      var lo: nat, hi: nat :| lo <= hi <= |text[..|text| - 1]| && TrimsAt(text[..|text| - 1], Strip(text), lo, hi);
      TrimsInFront(text, Strip(text), lo, hi);
    } else {
      assert TrimsAt(text, text, 0, |text|);
    }
  }

  lemma TrimsAtOnce(text: string, a: string, b: string, lo: nat, hi: nat, lo': nat, hi': nat)
    requires TrimsAt(text, a, lo, hi) && TrimsAt(text, b, lo', hi')
    ensures a == b
  {
    assert forall k :: 0 <= k < lo ==> text[k] == text[..lo][k];
    assert forall k :: 0 <= k < lo' ==> text[k] == text[..lo'][k];
    assert forall k :: hi <= k < |text| ==> text[k] == text[hi..][k - hi];
    assert forall k :: hi' <= k < |text| ==> text[k] == text[hi'..][k - hi'];
  }

  /** There is one trimmed text. */
  lemma TrimsExactlyWhen(text: string, core: string)
    ensures Trims(text, core) <==> core == Strip(text)
  {
    StripTrims(text);
    if Trims(text, core) {
      var lo: nat, hi: nat :| lo <= hi <= |text| && TrimsAt(text, core, lo, hi);
      var lo': nat, hi': nat :| lo' <= hi' <= |text| && TrimsAt(text, Strip(text), lo', hi');
      TrimsAtOnce(text, core, Strip(text), lo, hi, lo', hi');
    }
  }

  lemma {:induction false} BlankExactlyWhen(text: string)
    ensures Blank(text) <==> Strip(text) == ""
  {
    if text != "" {
      if IsPySpace(text[0]) {
        BlankExactlyWhen(text[1..]);
        assert forall k :: 0 < k < |text| ==> text[k] == text[1..][k - 1];
      } else if IsPySpace(text[|text| - 1]) {
        BlankExactlyWhen(text[..|text| - 1]);
        assert forall k :: 0 <= k < |text| - 1 ==> text[k] == text[..|text| - 1][k];
      }
    }
  }

  predicate IsDigit(c: char) {
    '0' <= c <= '9'
  }

  function Value(digits: string): int {
    if digits == "" then 0 else 10 * Value(digits[..|digits| - 1]) + (digits[|digits| - 1] as int - '0' as int)
  }

  /** The decimal numeral of `n`. */
  predicate IsNumeral(digits: string, n: nat) {
    && digits != "" && (forall k :: 0 <= k < |digits| ==> IsDigit(digits[k]))
    && Value(digits) == n && (digits[0] == '0' ==> |digits| == 1)
  }

  lemma DigitOf(n: nat)
    requires n < 10
    ensures var c := "0123456789"[n]; IsDigit(c) && c as int - '0' as int == n
  {
  }

  lemma {:induction false} DecimalIsNumeral(n: nat)
    ensures IsNumeral(Decimal(n), n)
  {
    DigitOf(n % 10);
    var digit := ["0123456789"[n % 10]];
    if n < 10 {
      assert digit[..0] == "";
    } else {
      DecimalIsNumeral(n / 10);
      var front := Decimal(n / 10);
      assert (front + digit)[..|front|] == front;
      assert front != "0";
    }
  }

  /******* The id of a call *******/

  /** What Python takes for true. */
  predicate Truthy(f: Field) {
    f != Absent && f != Str("")
  }

  /** `f` is the first of the fields that is truthy. */
  predicate Picks(fields: seq<Field>, f: Field) {
    exists j :: 0 <= j < |fields| && fields[j] == f && Truthy(f) && forall k :: 0 <= k < j ==> !Truthy(fields[k])
  }

  function CallFields(call: RawCall): seq<Field>
    requires call.RawCall?
  {
    [call.id, call.toolCallId, call.toolCallIdSnake]
  }

  function AnswerFields(m: Message): seq<Field>
    requires m.Message?
  {
    [m.toolCallId, m.toolCallIdSnake]
  }

  /** The fields give `id`: the first truthy one is a string that is not blank, and `id` is its trimmed text. */
  predicate GiveId(fields: seq<Field>, id: string) {
    exists j :: 0 <= j < |fields| && fields[j].Str? && Picks(fields, fields[j]) && !Blank(fields[j].text)
                && Trims(fields[j].text, id)
  }

  predicate GiveNoId(fields: seq<Field>) {
    forall j :: 0 <= j < |fields| && fields[j].Str? && Picks(fields, fields[j]) ==> Blank(fields[j].text)
  }

  lemma FirstOfThree(a: Field, b: Field, c: Field, f: Field)
    ensures Picks([a, b, c], f) <==> Truthy(f) && f == Or(Or(a, b), c)
  {
    var fields := [a, b, c];
    assert fields[0] == a && fields[1] == b && fields[2] == c;
  }

  lemma FirstOfTwo(a: Field, b: Field, f: Field)
    ensures Picks([a, b], f) <==> Truthy(f) && f == Or(a, b)
  {
    var fields := [a, b];
    assert fields[0] == a && fields[1] == b;
  }

  /** A call declares the id its fields give, the field `id` before the two others, or else a numbered one. */
  lemma CallIdIs(call: RawCall, index: nat)
    requires call.RawCall?
    ensures forall id :: GiveId(CallFields(call), id) ==> CallId(call, index) == id
    ensures GiveNoId(CallFields(call)) ==>
              exists digits :: CallId(call, index) == "tool_call_" + digits && IsNumeral(digits, index + 1)
  {
    var fields := CallFields(call);
    var first := Or(Or(call.id, call.toolCallId), call.toolCallIdSnake);
    FirstOfThree(call.id, call.toolCallId, call.toolCallIdSnake, first);
    forall j | 0 <= j < |fields|
      ensures Picks(fields, fields[j]) ==> fields[j] == first
    {
      FirstOfThree(call.id, call.toolCallId, call.toolCallIdSnake, fields[j]);
    }
    if first.Str? {
      BlankExactlyWhen(first.text);
      forall id
        ensures Trims(first.text, id) <==> id == Strip(first.text)
      {
        TrimsExactlyWhen(first.text, id);
      }
    }
    DecimalIsNumeral(index + 1);
    if first.Str? && !Blank(first.text) {
      assert first.text != "" && Picks(fields, first);
    } else {
      assert CallId(call, index) == "tool_call_" + Decimal(index + 1);
    }
  }

  /** A tool message answers the id its fields give, `toolCallId` before `tool_call_id`, or none. */
  lemma SourceIdIs(m: Message)
    requires m.Message?
    ensures forall id :: GiveId(AnswerFields(m), id) ==> SourceId(m) == Some(id)
    ensures GiveNoId(AnswerFields(m)) ==> SourceId(m) == None
  {
    var fields, first := AnswerFields(m), Or(m.toolCallId, m.toolCallIdSnake);
    FirstOfTwo(m.toolCallId, m.toolCallIdSnake, first);
    forall j | 0 <= j < |fields|
      ensures Picks(fields, fields[j]) ==> fields[j] == first
    {
      FirstOfTwo(m.toolCallId, m.toolCallIdSnake, fields[j]);
    }
    if first.Str? {
      BlankExactlyWhen(first.text);
      forall id
        ensures Trims(first.text, id) <==> id == Strip(first.text)
      {
        TrimsExactlyWhen(first.text, id);
      }
      if !Blank(first.text) {
        assert first.text != "" && Picks(fields, first);
      }
    }
  }

  /** The fields give an id or they give none. */
  lemma IdOrNone(fields: seq<Field>)
    ensures GiveNoId(fields) <==> !exists id :: GiveId(fields, id)
  {
    if !GiveNoId(fields) {
      var j :| 0 <= j < |fields| && fields[j].Str? && Picks(fields, fields[j]) && !Blank(fields[j].text);
      StripTrims(fields[j].text);
      assert GiveId(fields, Strip(fields[j].text));
    }
  }

  /******* The ids a message declares *******/

  /** The entries before the n-th that are dicts. */
  function Dicts(calls: seq<RawCall>, n: nat): set<nat>
    requires n <= |calls|
  {
    set k: nat | k < n && calls[k].RawCall?
  }

  lemma OneMoreDict(calls: seq<RawCall>, n: nat)
    requires 0 < n <= |calls|
    ensures |Dicts(calls, n)| == |Dicts(calls, n - 1)| + (if calls[n - 1].RawCall? then 1 else 0)
  {
    assert Dicts(calls, n) == if calls[n - 1].RawCall? then Dicts(calls, n - 1) + {n - 1} else Dicts(calls, n - 1);
  }

  lemma FrontDicts(calls: seq<RawCall>, n: nat)
    requires n < |calls|
    ensures Dicts(calls[..|calls| - 1], n) == Dicts(calls, n)
  {
  }

  /** There are as many ids as dicts. */
  lemma {:induction false} ToolCallIdsCount(calls: seq<RawCall>)
    ensures |ToolCallIds(calls)| == |Dicts(calls, |calls|)|
  {
    if calls == [] {
      assert Dicts(calls, 0) == {};
    } else {
      var n := |calls| - 1;
      ToolCallIdsCount(calls[..n]);
      OneMoreDict(calls, n + 1);
      FrontDicts(calls, n);
    }
  }

  /** Each dict in the list gives the id of its list index, in order. */
  lemma {:induction false} ToolCallIdAt(calls: seq<RawCall>, k: nat)
    requires k < |calls| && calls[k].RawCall?
    ensures var n := |Dicts(calls, k)|; n < |ToolCallIds(calls)| && ToolCallIds(calls)[n] == CallId(calls[k], k)
  {
    var last := |calls| - 1;
    FrontDicts(calls, k);
    if k < last {
      ToolCallIdAt(calls[..last], k);
    } else {
      ToolCallIdsCount(calls[..last]);
    }
  }

  /** The id that the k-th entry of an assistant message's list declares. */
  lemma DeclaredAt(m: Message, k: nat)
    requires m.Message? && m.role == Assistant && k < |m.rawCalls| && m.rawCalls[k].RawCall?
    ensures var n := |Dicts(m.rawCalls, k)|;
            n < |DeclaredIds(m)| && DeclaredIds(m)[n] == CallId(m.rawCalls[k], k)
  {
    ToolCallIdAt(m.rawCalls, k);
  }

  /** It declares no more ids than it has dicts in its list, and no other message declares any. */
  lemma NoMoreDeclared(m: Message)
    requires m.Message?
    ensures |DeclaredIds(m)| == if m.role == Assistant then |Dicts(m.rawCalls, |m.rawCalls|)| else 0
  {
    ToolCallIdsCount(m.rawCalls);
  }

  /******* Which messages make steps *******/

  predicate Talks(m: Message) {
    m.Message? && m.role in {User, System, Assistant}
  }

  /** The positions before `n` of the messages of users, the system and assistants. */
  function Talkers(ms: seq<Message>, n: nat): set<nat>
    requires n <= |ms|
  {
    set k: nat | k < n && Talks(ms[k])
  }

  lemma OneMoreTalker(ms: seq<Message>, n: nat)
    requires 0 < n <= |ms|
    ensures |Talkers(ms, n)| == |Talkers(ms, n - 1)| + (if Talks(ms[n - 1]) then 1 else 0)
  {
    assert Talkers(ms, n) == if Talks(ms[n - 1]) then Talkers(ms, n - 1) + {n - 1} else Talkers(ms, n - 1);
  }

  lemma {:induction false} SpokenUpTo(ms: seq<Message>, n: nat)
    requires n <= |ms|
    ensures |Spoken(ms[..n])| == |Talkers(ms, n)|
  {
    if n > 0 {
      SpokenUpTo(ms, n - 1);
      OneMoreTalker(ms, n);
      assert ms[..n][..n - 1] == ms[..n - 1];
    } else {
      assert Talkers(ms, 0) == {};
    }
  }

  lemma SpokenAt(ms: seq<Message>, i: nat)
    requires i < |ms| && Talks(ms[i])
    ensures var k := |Talkers(ms, i)|; k < |Spoken(ms)| && Spoken(ms)[k] == ms[i]
  {
    SpokenUpTo(ms, i);
    assert ms[..i + 1][..i] == ms[..i];
    assert ms[..i + 1] + ms[i + 1..] == ms;
    SpokenConcat(ms[..i + 1], ms[i + 1..]);
  }

  /** Which message a step comes from. */
  lemma {:induction false} SpeakerFrom(ms: seq<Message>, k: nat) returns (i: nat)
    requires k < |Spoken(ms)|
    ensures i < |ms| && Talks(ms[i]) && |Talkers(ms, i)| == k && Spoken(ms)[k] == ms[i]
  {
    var n := |ms| - 1;
    if k < |Spoken(ms[..n])| {
      i := SpeakerFrom(ms[..n], k);
      assert Talkers(ms[..n], i) == Talkers(ms, i);
    } else {
      i := n;
      SpokenUpTo(ms, n);
    }
  }

  /** A message of a user, the system or an assistant makes a step of its own, of its own source, in order. */
  lemma StepOfMessage(ms: seq<Message>, i: nat)
    requires i < |ms| && Talks(ms[i])
    ensures var k := |Talkers(ms, i)|;
            && k < |Build(ms)| && Build(ms)[k].stepId == k + 1 && Build(ms)[k].calls == DeclaredIds(ms[i])
            && Build(ms)[k].source == match ms[i].role
                                      case User => FromUser
                                      case System => FromSystem
                                      case _ => FromAgent
  {
    Placement(ms);
    SpokenAt(ms, i);
  }

  /** There is no other step, but for one without calls if no message or no assistant is there to make one. */
  lemma NoOtherSteps(ms: seq<Message>)
    ensures var n := |Talkers(ms, |ms|)|;
            && n <= |Build(ms)| <= n + 1 && |Build(ms)| >= 1
            && (|Build(ms)| > n ==>
                  && Build(ms)[n].source == FromAgent && Build(ms)[n].calls == []
                  && (n == 0 || forall i :: 0 <= i < |ms| && Talks(ms[i]) ==> ms[i].role != Assistant))
  {
    Placement(ms);
    SpokenUpTo(ms, |ms|);
    assert ms[..|ms|] == ms;
    LastAgentIsLast(Spoken(ms), |Spoken(ms)|);
    forall i | 0 <= i < |ms| && Talks(ms[i])
      ensures |Talkers(ms, i)| < |Spoken(ms)| && Spoken(ms)[|Talkers(ms, i)|] == ms[i]
    {
      SpokenAt(ms, i);
    }
  }

  /******* Where a result goes *******/

  /** With an id: to the last speaker before it that declares the id, or else the first behind it, or none. */
  lemma PlaceWithId(speakers: seq<Message>, m: Message, n: nat, id: string)
    requires m.Message? && n <= |speakers| && SourceId(m) == Some(id)
    ensures match PlaceOf(speakers, Arrival(m, n))
            case AtStep(k) =>
              && k < |speakers| && id in DeclaredIds(speakers[k])
              && (k < n ==> forall q :: k < q < n ==> id !in DeclaredIds(speakers[q]))
              && (k >= n ==> forall q :: 0 <= q < k ==> id !in DeclaredIds(speakers[q]))
            case Waiting(w) => w == id && forall q :: 0 <= q < |speakers| ==> id !in DeclaredIds(speakers[q])
            case Dropped => false
  {
    LastDeclarerIsLast(speakers, n, id);
    FirstDeclarerIsFirst(speakers, n, id);
  }

  /** Without an id: to the last assistant before it, or nowhere. */
  lemma PlaceWithoutId(speakers: seq<Message>, m: Message, n: nat)
    requires m.Message? && n <= |speakers| && SourceId(m) == None
    ensures match PlaceOf(speakers, Arrival(m, n))
            case AtStep(k) =>
              && k < n && speakers[k].Message? && speakers[k].role == Assistant
              && forall q :: k < q < n && speakers[q].Message? ==> speakers[q].role != Assistant
            case Waiting(_) => false
            case Dropped => forall q :: 0 <= q < n && speakers[q].Message? ==> speakers[q].role != Assistant
  {
    LastAgentIsLast(speakers, n);
  }

  lemma {:induction false} ArrivalOf(ms: seq<Message>, j: nat) returns (t: nat)
    requires j < |ms| && ms[j].Message? && ms[j].role == Tool
    ensures t < |Arrivals(ms)| && Arrivals(ms)[t] == Arrival(ms[j], |Spoken(ms[..j])|)
  {
    var n := |ms| - 1;
    if j < n {
      t := ArrivalOf(ms[..n], j);
      assert ms[..n][..j] == ms[..j];
    } else {
      t := |Arrivals(ms[..n])|;
    }
  }

  lemma {:induction false} ReceivedHas(ps: seq<Placing>, host: nat, k: nat, t: nat)
    requires t < |ps| && Receives(ps[t].place, host, k)
    ensures ObservationOf(ps[t]) in Received(ps, host, k)
  {
    if t < |ps| - 1 {
      ReceivedHas(ps[..|ps| - 1], host, k, t);
    }
  }

  /** A result stands in the observations of the step where it is placed. */
  lemma PlacedResult(ms: seq<Message>, j: nat, k: nat)
    requires j < |ms| && ms[j].Message? && ms[j].role == Tool && k < |Build(ms)|
    requires |Spoken(ms[..j])| <= |Spoken(ms)|
    requires PlaceOf(Spoken(ms), Arrival(ms[j], |Spoken(ms[..j])|)) == AtStep(k)
    ensures Result(SourceId(ms[j]), ms[j].content) in Build(ms)[k].observation
  {
    Placement(ms);
    var t := ArrivalOf(ms, j);
    var ps := Places(Spoken(ms), Arrivals(ms));
    ReceivedHas(ps, OrphanHost(Spoken(ms)), k, t);
    assert ObservationOf(ps[t]) in multiset(Build(ms)[k].observation);
  }

  lemma SpokenGrows(ms: seq<Message>, j: nat)
    requires j <= |ms|
    ensures |Spoken(ms[..j])| <= |Spoken(ms)|
  {
    assert ms[..j] + ms[j..] == ms;
    SpokenConcat(ms[..j], ms[j..]);
  }

  /**
   A tool message that gives the id given by a call of an assistant message, and of no other, is an
   observation with that id on the step of the assistant message, wherever it stands.
   */
  lemma ResultMeetsCall(ms: seq<Message>, i: nat, c: nat, j: nat, id: string)
    requires i < |ms| && ms[i].Message? && ms[i].role == Assistant
    requires c < |ms[i].rawCalls| && ms[i].rawCalls[c].RawCall? && GiveId(CallFields(ms[i].rawCalls[c]), id)
    requires j < |ms| && ms[j].Message? && ms[j].role == Tool && GiveId(AnswerFields(ms[j]), id)
    requires forall q :: 0 <= q < |ms| && q != i ==> id !in DeclaredIds(ms[q])
    ensures var k := |Talkers(ms, i)|;
            k < |Build(ms)| && id in Build(ms)[k].calls
            && Result(Some(id), ms[j].content) in Build(ms)[k].observation
  {
    var speakers, n := Spoken(ms), |Spoken(ms[..j])|;
    StepOfMessage(ms, i);
    SpokenAt(ms, i);
    SpokenGrows(ms, j);
    CallIdIs(ms[i].rawCalls[c], c);
    DeclaredAt(ms[i], c);
    SourceIdIs(ms[j]);
    forall k | 0 <= k < |speakers| && id in DeclaredIds(speakers[k])
      ensures k == |Talkers(ms, i)|
    {
      var q := SpeakerFrom(ms, k);
    }
    PlaceWithId(speakers, ms[j], n, id);
    assert speakers[|Talkers(ms, i)|] == ms[i];
    PlacedResult(ms, j, |Talkers(ms, i)|);
  }

  /** A message with one call, in the forms in which the builder meets it. */
  predicate IsCall(a: Message, id: string) {
    && a.Message? && a.role == Assistant && |a.rawCalls| == 1 && a.rawCalls[0].RawCall?
    && GiveId(CallFields(a.rawCalls[0]), id)
  }

  predicate IsAnswer(t: Message, id: string) {
    t.Message? && t.role == Tool && GiveId(AnswerFields(t), id)
  }

  lemma CallDeclares(a: Message, id: string)
    requires IsCall(a, id)
    ensures DeclaredIds(a) == [id] && IsAgent(a)
  {
    CallIdIs(a.rawCalls[0], 0);
    assert ToolCallIds(a.rawCalls[..0]) == [];
  }

  lemma AnswerResult(t: Message, id: string)
    requires IsAnswer(t, id)
    ensures IsTool(t) && SourceId(t) == Some(id) && ResultOf(t) == Result(Some(id), t.content)
  {
    SourceIdIs(t);
  }

  lemma ProcessOneMore(ms: seq<Message>, m: Message)
    ensures Process(ms + [m]) == Add(Process(ms), m)
  {
    assert (ms + [m])[..|ms|] == ms;
  }

  lemma ProcessTwo(a: Message, b: Message)
    ensures Process([a, b]) == Add(Add(State([], []), a), b)
  {
    ProcessOneMore([], a);
    ProcessOneMore([a], b);
    assert [] + [a] == [a] && [a] + [b] == [a, b];
  }

  lemma TakenByOne(id: string, waiting: seq<Result>)
    ensures Taken([Entry(id, waiting)], [id]) == waiting && Left([Entry(id, waiting)], [id]) == []
    ensures Taken([], [id]) == [] && Left([], [id]) == []
  {
    assert [id][1..] == [];
    assert Taken([], []) == [] && Left([], []) == [];
    assert WithoutPending([Entry(id, waiting)], id) == [] && WithoutPending([], id) == [];
    assert waiting + [] == waiting;
  }

  lemma CallMakesStep(pending: seq<Entry>, a: Message, id: string)
    requires IsCall(a, id)
    ensures Add(State([], pending), a)
         == State([Step(1, FromAgent, [id], Taken(pending, [id]))], Left(pending, [id]))
  {
    CallDeclares(a, id);
  }

  lemma AnswerBehindCall(t: Message, id: string)
    requires IsAnswer(t, id)
    ensures Attach(State([Step(1, FromAgent, [id], [])], []), t)
         == State([Step(1, FromAgent, [id], [Result(Some(id), t.content)])], [])
  {
    var steps, result := [Step(1, FromAgent, [id], [])], Result(Some(id), t.content);
    AnswerResult(t, id);
    assert FindStep(steps, 1, id) == Some(0);
    assert [] + [result] == [result];
    assert Append(steps, 0, [result]) == [Step(1, FromAgent, [id], [result])];
  }

  lemma AnswerAlone(t: Message, id: string)
    requires IsAnswer(t, id)
    ensures Attach(State([], []), t) == State([], [Entry(id, [Result(Some(id), t.content)])])
  {
    AnswerResult(t, id);
  }

  lemma CallFirst(a: Message, t: Message, id: string)
    requires IsCall(a, id) && IsAnswer(t, id)
    ensures Build([a, t]) == [Step(1, FromAgent, [id], [Result(Some(id), t.content)])]
  {
    ProcessTwo(a, t);
    CallMakesStep([], a, id);
    TakenByOne(id, []);
    AnswerBehindCall(t, id);
  }

  lemma ResultFirst(a: Message, t: Message, id: string)
    requires IsCall(a, id) && IsAnswer(t, id)
    ensures Build([t, a]) == [Step(1, FromAgent, [id], [Result(Some(id), t.content)])]
  {
    ProcessTwo(t, a);
    AnswerAlone(t, id);
    CallMakesStep([Entry(id, [Result(Some(id), t.content)])], a, id);
    TakenByOne(id, [Result(Some(id), t.content)]);
  }

  /** One call and its result, in either order. */
  lemma CallAndResult(a: Message, t: Message, id: string)
    requires IsCall(a, id) && IsAnswer(t, id)
    ensures Build([a, t]) == Build([t, a]) == [Step(1, FromAgent, [id], [Result(Some(id), t.content)])]
  {
    CallFirst(a, t, id);
    ResultFirst(a, t, id);
  }
}
