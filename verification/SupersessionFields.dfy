/**
 What a superseding message must hold, part by part and in terms of the fields of both messages
 (src/lib/message-streaming-supersession.ts:4-152).
 */
module SupersessionFields {
  import opened Wrappers
  import opened Supersession

  /** A stamp that tells a time; the number 0 does not. */
  predicate Tells(stamp: Stamp, time: int) {
    stamp == DateStamp(time) || (stamp == Number(time) && time != 0)
  }

  predicate TellsNothing(stamp: Stamp) {
    stamp.Missing? || stamp == Number(0)
  }

  /** The time of a message: of its update, or if that tells nothing of its creation. */
  predicate TimeIs(m: Message, time: int) {
    Tells(m.updatedAt, time) || (TellsNothing(m.updatedAt) && Tells(m.createdAt, time))
  }

  ghost predicate NotBefore(s: Message, p: Message) {
    exists t, u :: TimeIs(s, t) && TimeIs(p, u) && t <= u
  }

  lemma TimeExactlyWhen(m: Message, time: int)
    ensures Timestamp(m) == Some(time) <==> TimeIs(m, time)
  {
  }

  lemma NotBeforeExactlyWhen(s: Message, p: Message)
    ensures NotBefore(s, p) <==>
              Timestamp(s).Some? && Timestamp(p).Some? && Timestamp(s).value <= Timestamp(p).value
  {
    if NotBefore(s, p) {
      var t, u :| TimeIs(s, t) && TimeIs(p, u) && t <= u;
      TimeExactlyWhen(s, t);
      TimeExactlyWhen(p, u);
    } else if Timestamp(s).Some? && Timestamp(p).Some? {
      TimeExactlyWhen(s, Timestamp(s).value);
      TimeExactlyWhen(p, Timestamp(p).value);
    }
  }

  predicate StartsWith(whole: string, start: string) {
    |start| <= |whole| && forall k :: 0 <= k < |start| ==> whole[k] == start[k]
  }

  lemma ExtendsExactlyWhen(s: string, p: string)
    ensures ExtendsPrefix(s, p) <==> StartsWith(p, s)
  {
  }

  /** The texts of the text items, one after another. */
  function JoinedText(content: seq<Content>): string {
    if content == [] then ""
    else
      var last := content[|content| - 1];
      JoinedText(content[..|content| - 1]) + (if last.Text? then last.text else "")
  }

  lemma {:induction false} JoinedConcat(a: seq<Content>, b: seq<Content>)
    ensures JoinedText(a + b) == JoinedText(a) + JoinedText(b)
  {
    if b == [] {
      assert a + b == a;
    } else {
      JoinedConcat(a, b[..|b| - 1]);
      assert (a + b)[..|a + b| - 1] == a + b[..|b| - 1];
    }
  }

  lemma JoinedOne(item: Content)
    ensures JoinedText([item]) == if item.Text? then item.text else ""
  {
    assert [item][..0] == [];
  }

  lemma {:induction false} TextIsJoined(content: seq<Content>)
    ensures TextContent(content) == JoinedText(content)
  {
    if content != [] {
      TextIsJoined(content[1..]);
      JoinedConcat([content[0]], content[1..]);
      JoinedOne(content[0]);
      assert [content[0]] + content[1..] == content;
    }
  }

  /******* Calls *******/

  /** The persisted call a streaming one is compared with: the first with its id, or else the one at its index. */
  predicate IsCounterpart(call: ToolCall, persisted: seq<ToolCall>, index: nat, k: nat) {
    && k < |persisted|
    && if call.id != "" && exists j :: 0 <= j < |persisted| && persisted[j].id == call.id
       then persisted[k].id == call.id && forall j :: 0 <= j < k ==> persisted[j].id != call.id
       else k == index
  }

  /** The names agree where there is one; with one id any arguments will do, and two ids will not. */
  predicate Meets(s: ToolCall, p: ToolCall) {
    && (s.name == "" || p.name == s.name)
    && if s.id == "" || p.id == "" then StartsWith(p.arguments, s.arguments) else s.id == p.id
  }

  predicate Met(call: ToolCall, persisted: seq<ToolCall>, index: nat) {
    exists k :: 0 <= k < |persisted| && IsCounterpart(call, persisted, index, k) && Meets(call, persisted[k])
  }

  lemma {:induction false} FirstIndexIsFirst(ids: seq<string>, id: string)
    ensures forall j :: 0 <= j < FirstIndex(ids, id) ==> ids[j] != id
  {
    if ids != [] && ids[0] != id {
      FirstIndexIsFirst(ids[1..], id);
    }
  }

  lemma TargetIsCounterpart(call: ToolCall, persisted: seq<ToolCall>, index: nat, k: nat)
    requires index < |persisted|
    ensures IsCounterpart(call, persisted, index, k) <==> k == Target(call.id, Ids(persisted), index)
  {
    var first := FirstIndex(Ids(persisted), call.id);
    FirstIndexIsFirst(Ids(persisted), call.id);
    assert forall j :: 0 <= j < |persisted| ==> Ids(persisted)[j] == persisted[j].id;
    if first < |persisted| {
      assert persisted[first].id == call.id;
    }
  }

  lemma MetExactlyWhen(s: seq<ToolCall>, p: seq<ToolCall>, i: nat)
    requires i < |s| <= |p|
    ensures CoveredAt(s, p, i) <==> Met(s[i], p, i)
  {
    var k := Target(s[i].id, Ids(p), i);
    CoveredExactlyWhen(s, p, i);
    forall j: nat
      ensures IsCounterpart(s[i], p, i, j) <==> j == k
    {
      TargetIsCounterpart(s[i], p, i, j);
    }
  }

  predicate AllMet(s: seq<ToolCall>, p: seq<ToolCall>) {
    |s| <= |p| && forall i :: 0 <= i < |s| ==> Met(s[i], p, i)
  }

  lemma AllMetExactlyWhen(s: seq<ToolCall>, p: seq<ToolCall>)
    ensures CallsCovered(s, p) <==> AllMet(s, p)
  {
    if |s| <= |p| {
      forall i | 0 <= i < |s|
        ensures CoveredAt(s, p, i) <==> Met(s[i], p, i)
      {
        MetExactlyWhen(s, p, i);
      }
    }
  }

  /******* The whole *******/

  /**
   A persisted message supersedes a streaming one if and only if both are from the assistant, it is
   not older, its thinking and its text start with the other's, and each call has met its counterpart.
   */
  lemma SupersededExactlyWhen(s: Message, p: Message)
    ensures Superseded(s, p) <==>
              && s.isAssistant && p.isAssistant && NotBefore(s, p)
              && StartsWith(p.thinking, s.thinking)
              && StartsWith(JoinedText(p.content), JoinedText(s.content))
              && AllMet(s.toolCalls, p.toolCalls)
  {
    NotBeforeExactlyWhen(s, p);
    ExtendsExactlyWhen(s.thinking, p.thinking);
    TextIsJoined(s.content);
    TextIsJoined(p.content);
    ExtendsExactlyWhen(TextContent(s.content), TextContent(p.content));
    AllMetExactlyWhen(s.toolCalls, p.toolCalls);
  }

  /** A streaming copy is kept whenever its text has a character the persisted text does not have there. */
  lemma OtherTextIsKept(s: Message, p: Message, k: nat)
    requires k < |JoinedText(s.content)|
    requires k < |JoinedText(p.content)| ==> JoinedText(p.content)[k] != JoinedText(s.content)[k]
    ensures !Superseded(s, p)
  {
    SupersededExactlyWhen(s, p);
  }
}
