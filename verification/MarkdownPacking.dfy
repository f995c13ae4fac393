/**
 `messagesToMarkdown` of src/lib/message-markdown.ts:230-284: the sections that fit a byte
 budget. How a message is formatted and encoded is a parameter; sections are UTF-8 bytes.
 */
module MarkdownPacking {
  import opened Wrappers

  newtype Byte = b: int | 0 <= b < 256

  type Bytes = seq<Byte>

  /** What `shouldIncludeMessage` looks at, and which message it is. */
  datatype Message = Message(ref: nat, isStreaming: bool, isSystem: bool, source: string)

  /** "---" */
  const RULE: Bytes := [45, 45, 45]

  /** "\n\n" */
  const BREAK: Bytes := [10, 10]

  /** "\n\n---\n\n" */
  const SEPARATOR: Bytes := BREAK + RULE + BREAK

  predicate ShouldInclude(m: Message, includeSystem: bool) {
    && !m.isStreaming
    && (includeSystem || !m.isSystem)
    && m.source != "compact-summary" && m.source != "compaction-instruction" && m.source != "recovery"
  }

  function Eligible(messages: seq<Message>, includeSystem: bool): seq<Message> {
    if messages == [] then []
    else
      var last := messages[|messages| - 1];
      Eligible(messages[..|messages| - 1], includeSystem) + (if ShouldInclude(last, includeSystem) then [last] else [])
  }

  /** JavaScript's `slice(start)`. */
  function Slice<T>(s: seq<T>, start: int): seq<T> {
    if start < 0 then (if -start <= |s| then s[|s| + start..] else s)
    else if start <= |s| then s[start..] else []
  }

  /** The eligible messages that `maxMessages` leaves, and how many it counts as omitted. */
  function Limited(eligible: seq<Message>, maxMessages: Option<int>): (seq<Message>, int) {
    if maxMessages.Some? && |eligible| > maxMessages.value then
      (Slice(eligible, -maxMessages.value), |eligible| - maxMessages.value)
    else (eligible, 0)
  }

  /** `sections.join('\n\n')` */
  function Join(sections: seq<Bytes>): Bytes {
    if sections == [] then []
    else if |sections| == 1 then sections[0]
    else Join(sections[..|sections| - 1]) + BREAK + sections[|sections| - 1]
  }

  /** The reference: formatted messages with a rule between neighbours. */
  function Body(ms: seq<Message>, format: Message -> Bytes): Bytes {
    if ms == [] then []
    else
      var front, last := ms[..|ms| - 1], ms[|ms| - 1];
      (if front == [] then [] else Body(front, format) + SEPARATOR) + format(last)
  }

  /** The first `k` messages fit the budget, and no longer start of the list does. */
  ghost predicate LongestFit(ms: seq<Message>, k: nat, format: Message -> Bytes, maxBytes: int) {
    && k <= |ms|
    && (k > 0 ==> |Body(ms[..k], format)| <= maxBytes)
    && forall n :: k < n <= |ms| ==> |Body(ms[..n], format)| > maxBytes
  }

  datatype Result = Result(content: Bytes, truncated: bool, omittedCount: Option<int>)

  /** `notice` encodes the remark on how many messages were left out. */
  function Finished(body: Bytes, omitted: int, notice: int -> Bytes): Result {
    if omitted > 0 then
      Result(if body != [] then notice(omitted) + BREAK + body else notice(omitted), true, Some(omitted))
    else Result(body, false, None)
  }

  /******* Which messages *******/

  lemma {:induction false} EligibleConcat(a: seq<Message>, b: seq<Message>, includeSystem: bool)
    ensures Eligible(a + b, includeSystem) == Eligible(a, includeSystem) + Eligible(b, includeSystem)
  {
    if b == [] {
      assert a + b == a;
    } else {
      EligibleConcat(a, b[..|b| - 1], includeSystem);
      assert (a + b)[..|a + b| - 1] == a + b[..|b| - 1];
    }
  }

  predicate IsLeftOut(m: Message, includeSystem: bool) {
    || m.isStreaming || (m.isSystem && !includeSystem)
    || m.source in {"compact-summary", "compaction-instruction", "recovery"}
  }

  /**
   Wherever it stands, a message is left out if and only if it is streaming, a system message that
   is not asked for, or a compaction or recovery message; the messages around it keep their places.
   */
  lemma LeftOutExactlyWhen(before: seq<Message>, m: Message, after: seq<Message>, includeSystem: bool)
    ensures Eligible(before + [m] + after, includeSystem)
         == Eligible(before, includeSystem) + (if IsLeftOut(m, includeSystem) then [] else [m])
          + Eligible(after, includeSystem)
  {
    EligibleConcat(before + [m], after, includeSystem);
    EligibleConcat(before, [m], includeSystem);
    assert [m][..0] == [];
  }

  /******* The running counter *******/

  lemma {:induction false} BodyGrows(ms: seq<Message>, format: Message -> Bytes, k: nat, n: nat)
    requires 0 < k <= n <= |ms|
    ensures |Body(ms[..k], format)| <= |Body(ms[..n], format)|
  {
    if k < n {
      assert ms[..n][..n - 1] == ms[..n - 1];
      BodyGrows(ms, format, k, n - 1);
    }
  }

  lemma BodyOneMore(ms: seq<Message>, format: Message -> Bytes, k: nat)
    requires k < |ms|
    ensures Body(ms[..k + 1], format)
         == (if k == 0 then [] else Body(ms[..k], format) + SEPARATOR) + format(ms[k])
  {
    assert ms[..k + 1][..k] == ms[..k];
  }

  lemma {:induction false} BodyJoins(a: seq<Message>, b: seq<Message>, format: Message -> Bytes)
    requires a != [] && b != []
    ensures Body(a + b, format) == Body(a, format) + [10, 10, 45, 45, 45, 10, 10] + Body(b, format)
  {
    var front := a + b[..|b| - 1];
    assert (a + b)[..|a + b| - 1] == front;
    if |b| == 1 {
      assert front == a;
      assert b[..0] == [];
    } else {
      BodyJoins(a, b[..|b| - 1], format);
    }
  }

  lemma JoinOneMore(sections: seq<Bytes>, s: Bytes)
    ensures Join(sections + [s]) == if sections == [] then s else Join(sections) + BREAK + s
  {
    assert (sections + [s])[..|sections|] == sections;
  }

  lemma JoinRuleAndSection(sections: seq<Bytes>, s: Bytes)
    requires sections != []
    ensures Join(sections + [RULE] + [s]) == Join(sections) + SEPARATOR + s
  {
    JoinOneMore(sections, RULE);
    JoinOneMore(sections + [RULE], s);
    assert Join(sections) + BREAK + RULE + BREAK + s == Join(sections) + SEPARATOR + s;
  }

  /******* The function as it runs *******/

  /** Lines 253-269: sections until one does not fit. */
  method Pack(ms: seq<Message>, format: Message -> Bytes, maxBytes: int)
    returns (sections: seq<Bytes>, included: nat, totalBytes: nat)
    ensures LongestFit(ms, included, format, maxBytes)
    ensures Join(sections) == Body(ms[..included], format)
    ensures totalBytes == |Body(ms[..included], format)|
  {
    sections, totalBytes, included := [], 0, 0;
    while included < |ms|
      invariant included <= |ms|
      invariant sections == [] <==> included == 0
      invariant Join(sections) == Body(ms[..included], format)
      invariant totalBytes == |Body(ms[..included], format)|
      invariant included > 0 ==> totalBytes <= maxBytes
    {
      var section := format(ms[included]);
      var separatorBytes := if |sections| > 0 then |SEPARATOR| else 0;
      BodyOneMore(ms, format, included);
      if totalBytes + separatorBytes + |section| > maxBytes {
        forall n | included < n <= |ms|
          ensures |Body(ms[..n], format)| > maxBytes
        {
          BodyGrows(ms, format, included + 1, n);
        }
        return;
      }
      if |sections| > 0 {
        JoinRuleAndSection(sections, section);
        sections := sections + [RULE];
      } else {
        JoinOneMore(sections, section);
      }
      sections := sections + [section];
      totalBytes := totalBytes + separatorBytes + |section|;
      included := included + 1;
    }
  }

  method FilterEligible(messages: seq<Message>, includeSystem: bool) returns (eligible: seq<Message>)
    ensures eligible == Eligible(messages, includeSystem)
  {
    eligible := [];
    for i := 0 to |messages|
      invariant eligible == Eligible(messages[..i], includeSystem)
    {
      assert messages[..i + 1][..i] == messages[..i];
      if ShouldInclude(messages[i], includeSystem) {
        eligible := eligible + [messages[i]];
      }
    }
    assert messages[..|messages|] == messages;
  }

  /** Besides its result, the number of messages that it includes. */
  method MessagesToMarkdown(messages: seq<Message>, includeSystem: bool, maxMessages: Option<int>, maxBytes: int,
                            format: Message -> Bytes, notice: int -> Bytes)
    returns (r: Result, included: nat)
    ensures var eligible := Eligible(messages, includeSystem);
            var (window, skipped) := Limited(eligible, maxMessages);
            && LongestFit(window, included, format, maxBytes)
            && r == Finished(Body(window[..included], format), Omitted(eligible, maxMessages, included), notice)
    ensures r.truncated <==> r.omittedCount.Some?
    ensures r.truncated ==> r.omittedCount.value > 0 && notice(r.omittedCount.value) <= r.content
  {
    var eligible := FilterEligible(messages, includeSystem);
    ghost var all := eligible;
    var omittedCount := 0;
    if maxMessages.Some? && |eligible| > maxMessages.value {
      omittedCount := |eligible| - maxMessages.value;
      eligible := Slice(eligible, -maxMessages.value);
    }
    assert (eligible, omittedCount) == Limited(all, maxMessages);
    var sections, totalBytes;
    sections, included, totalBytes := Pack(eligible, format, maxBytes);
    if included < |eligible| {
      omittedCount := omittedCount + |eligible| - included;
    }
    assert omittedCount == Omitted(all, maxMessages, included);
    var truncated := omittedCount > 0;
    var content := Join(sections);
    if truncated {
      content := if content != [] then notice(omittedCount) + BREAK + content else notice(omittedCount);
    }
    r := Result(content, truncated, if truncated then Some(omittedCount) else None);
  }

  /******* Counting *******/

  /** With a positive limit, or none, the window is the newest stretch of the eligible messages. */
  lemma WindowIsNewest(eligible: seq<Message>, maxMessages: Option<int>)
    requires maxMessages.Some? ==> maxMessages.value >= 1
    ensures var (window, skipped) := Limited(eligible, maxMessages);
            && 0 <= skipped <= |eligible| && window == eligible[skipped..]
            && (maxMessages.Some? && maxMessages.value <= |eligible| ==> |window| == maxMessages.value)
            && (maxMessages.None? || maxMessages.value >= |eligible| ==> window == eligible)
  {
  }

  /** What the result counts as omitted when it includes `included` messages. */
  function Omitted(eligible: seq<Message>, maxMessages: Option<int>, included: nat): int {
    Limited(eligible, maxMessages).1 + |Limited(eligible, maxMessages).0| - included
  }

  /**
   Included and omitted messages add up to the eligible ones exactly when the limit is absent
   or at least 1, or is 0 with nothing eligible: a limit of 0 keeps every message and yet
   counts them all as omitted.
   */
  lemma CountsAddUpExactlyWhen(eligible: seq<Message>, maxMessages: Option<int>, included: nat)
    ensures included + Omitted(eligible, maxMessages, included) == |eligible| <==>
              maxMessages.None? || maxMessages.value >= 1 || (maxMessages.value == 0 && eligible == [])
  {
    if maxMessages.Some? && maxMessages.value >= 1 {
      WindowIsNewest(eligible, maxMessages);
    }
  }
}
