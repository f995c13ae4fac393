/**
 Where the bytes of a shown image or audio come from, in terms of an item's fields and of what
 reading its URIs gives (src/lib/message-preprocessor.ts:313-384 and 475-570).
 */
module MediaSources {
  import opened Wrappers
  import opened MediaPlacement

  /******* One item, one attachment *******/

  /** The data an item comes with: its own, or without any its source's. */
  predicate ComesWith(item: Item, data: string)
    requires item.Media?
  {
    item.data == Some(data) || (item.data.None? && item.sourceData == Some(data))
  }

  /** The item comes with no data, or with empty data. */
  predicate ComesEmpty(item: Item)
    requires item.Media?
  {
    item.data == Some("") || (item.data.None? && (item.sourceData.None? || item.sourceData == Some("")))
  }

  predicate Gives(uri: string, data: string, load: Loader) {
    uri != "" && load(uri) == Some(data) && data != ""
  }

  predicate GivesNothing(uri: string, load: Loader) {
    uri == "" || load(uri) == Some("")
  }

  predicate Throws(uri: string, load: Loader) {
    uri != "" && load(uri) == None
  }

  /** The item can be shown with these data. */
  predicate ItemYields(item: Item, data: string, load: Loader)
    requires item.Media?
  {
    || (ComesWith(item, data) && data != "")
    || (ComesEmpty(item) && Gives(item.uri, data, load))
    || (ComesEmpty(item) && GivesNothing(item.uri, load) && Gives(item.sourceUri, data, load))
  }

  /** Showing the item takes reading a URI that throws. */
  predicate ItemFails(item: Item, load: Loader)
    requires item.Media?
  {
    ComesEmpty(item) &&
    (Throws(item.uri, load) || (GivesNothing(item.uri, load) && Throws(item.sourceUri, load)))
  }

  /** For an attachment, data that are there at all keep the URI from being read. */
  predicate AttachmentYields(a: Attachment, data: string, load: Loader)
    requires a.Inline?
  {
    (a.data == Some(data) && data != "") || (a.data.None? && Gives(a.uri, data, load))
  }

  predicate AttachmentFails(a: Attachment, load: Loader)
    requires a.Inline?
  {
    a.data.None? && Throws(a.uri, load)
  }

  lemma ItemExactlyWhen(item: Item, data: string, load: Loader)
    requires item.Media?
    ensures ItemFate(item, true, load) == Ready(data) <==> ItemYields(item, data, load)
    ensures ItemFate(item, true, load) == Threw <==> ItemFails(item, load)
  {
  }

  lemma AttachmentExactlyWhen(a: Attachment, data: string, load: Loader)
    requires a.Inline?
    ensures AttachmentFate(a, true, load) == Ready(data) <==> AttachmentYields(a, data, load)
    ensures AttachmentFate(a, true, load) == Threw <==> AttachmentFails(a, load)
  {
  }

  ghost predicate ItemShown(item: Item, load: Loader)
    requires item.Media?
  {
    exists data :: ItemYields(item, data, load)
  }

  ghost predicate AttachmentShown(a: Attachment, load: Loader)
    requires a.Inline?
  {
    exists data :: AttachmentYields(a, data, load)
  }

  lemma ShownIsReady(item: Item, load: Loader)
    requires item.Media?
    ensures ItemShown(item, load) <==> ItemFate(item, true, load).Ready?
  {
    var fate := ItemFate(item, true, load);
    if fate.Ready? {
      ItemExactlyWhen(item, fate.data, load);
    } else if data :| ItemYields(item, data, load) {
      ItemExactlyWhen(item, data, load);
    }
  }

  lemma ShownAttachmentIsReady(a: Attachment, load: Loader)
    requires a.Inline?
    ensures AttachmentShown(a, load) <==> AttachmentFate(a, true, load).Ready?
  {
    var fate := AttachmentFate(a, true, load);
    if fate.Ready? {
      AttachmentExactlyWhen(a, fate.data, load);
    } else if data :| AttachmentYields(a, data, load) {
      AttachmentExactlyWhen(a, data, load);
    }
  }

  /** Own data are shown as they are, whatever the URIs are and whatever reading them does. */
  lemma OwnDataShown(item: Item, load: Loader)
    requires item.Media? && item.data.Some? && item.data.value != ""
    ensures ItemYields(item, item.data.value, load) && !ItemFails(item, load)
    ensures forall data :: ItemYields(item, data, load) ==> data == item.data.value
  {
  }

  /******* The latest message with media *******/

  /** Showing all media of the message takes reading a URI that throws. */
  predicate Failing(m: Message, load: Loader) {
    || (exists k :: 0 <= k < |m.content| && m.content[k].Media? && ItemFails(m.content[k], load))
    || (exists k :: 0 <= k < |m.attachments| && m.attachments[k].Inline? && AttachmentFails(m.attachments[k], load))
  }

  lemma FailsExactlyWhen(m: Message, load: Loader)
    ensures ThrowsIn(m, true, load) <==> Failing(m, load)
  {
    forall k | 0 <= k < |m.content| && m.content[k].Media?
      ensures ItemFate(m.content[k], true, load).Threw? <==> ItemFails(m.content[k], load)
    {
      ItemExactlyWhen(m.content[k], "", load);
    }
    forall k | 0 <= k < |m.attachments| && m.attachments[k].Inline?
      ensures AttachmentFate(m.attachments[k], true, load).Threw? <==> AttachmentFails(m.attachments[k], load)
    {
      AttachmentExactlyWhen(m.attachments[k], "", load);
    }
  }

  /** The items that are no media, or media that can be shown. */
  ghost function ShownItems(content: seq<Item>, load: Loader): nat {
    if content == [] then 0
    else
      var item := content[|content| - 1];
      ShownItems(content[..|content| - 1], load) + (if item.Plain? || ItemShown(item, load) then 1 else 0)
  }

  ghost function ShownAttachments(attachments: seq<Attachment>, load: Loader): nat {
    if attachments == [] then 0
    else
      var a := attachments[|attachments| - 1];
      ShownAttachments(attachments[..|attachments| - 1], load) +
      (if a.Inline? && AttachmentShown(a, load) then 1 else 0)
  }

  lemma {:induction false} ItemsCounted(content: seq<Item>, load: Loader)
    ensures |ContentBlocks(content, true, load)| == ShownItems(content, load)
    ensures |Unmade(content, true, load)| == |content| - ShownItems(content, load)
  {
    if content != [] {
      ItemsCounted(content[..|content| - 1], load);
      var item := content[|content| - 1];
      if item.Media? {
        ShownIsReady(item, load);
      }
    }
  }

  lemma {:induction false} AttachmentsCounted(attachments: seq<Attachment>, load: Loader)
    ensures |AttachmentBlocks(attachments, true, load)| == ShownAttachments(attachments, load)
    ensures |UnmadeAttachments(attachments, true, load)|
         == InlineCount(attachments) - ShownAttachments(attachments, load)
  {
    if attachments != [] {
      AttachmentsCounted(attachments[..|attachments| - 1], load);
      var a := attachments[|attachments| - 1];
      if a.Inline? {
        ShownAttachmentIsReady(a, load);
      }
    }
  }

  /** A medium that can be shown is a payload of just these data, right behind what is shown before it. */
  lemma ItemIsPayload(m: Message, k: nat, data: string, load: Loader)
    requires !Failing(m, load) && k < |m.content| && m.content[k].Media? && ItemYields(m.content[k], data, load)
    ensures var at, blocks := ShownItems(m.content[..k], load), Prepared(m, true, load);
            at < |blocks| && blocks[at] == Payload(m.content[k].isImage, data)
  {
    FailsExactlyWhen(m, load);
    ItemExactlyWhen(m.content[k], data, load);
    BlockInPlace(m, k, true, load);
    ItemsCounted(m.content[..k], load);
  }

  lemma ItemIsKept(m: Message, k: nat, load: Loader)
    requires !Failing(m, load) && k < |m.content| && m.content[k].Plain?
    ensures var at, blocks := ShownItems(m.content[..k], load), Prepared(m, true, load);
            at < |blocks| && blocks[at] == Original(m.content[k])
  {
    FailsExactlyWhen(m, load);
    BlockInPlace(m, k, true, load);
    ItemsCounted(m.content[..k], load);
  }

  /** One that comes empty and whose URIs give nothing is a summary, numbered by those before it. */
  lemma ItemIsSummary(m: Message, k: nat, load: Loader)
    requires !Failing(m, load) && k < |m.content| && m.content[k].Media? && ComesEmpty(m.content[k])
    requires GivesNothing(m.content[k].uri, load) && GivesNothing(m.content[k].sourceUri, load)
    ensures var n, summaries := k - ShownItems(m.content[..k], load), SummariesOf(Prepared(m, true, load));
            0 <= n < |summaries| && summaries[n] == OfItem(n, m.content[k])
  {
    FailsExactlyWhen(m, load);
    ShownIsReady(m.content[k], load);
    SummaryInPlace(m, k, true, load);
    ItemsCounted(m.content[..k], load);
  }

  lemma AttachmentIsPayload(m: Message, k: nat, data: string, load: Loader)
    requires !Failing(m, load) && k < |m.attachments| && m.attachments[k].Inline?
    requires AttachmentYields(m.attachments[k], data, load)
    ensures var at := ShownItems(m.content, load) + ShownAttachments(m.attachments[..k], load);
            var blocks := Prepared(m, true, load);
            at < |blocks| && blocks[at] == Payload(m.attachments[k].isImage, data)
  {
    FailsExactlyWhen(m, load);
    AttachmentExactlyWhen(m.attachments[k], data, load);
    InlineInPlace(m, k, true, load);
    ItemsCounted(m.content, load);
    AttachmentsCounted(m.attachments[..k], load);
  }

  lemma AttachmentIsSummary(m: Message, k: nat, load: Loader)
    requires !Failing(m, load) && k < |m.attachments| && m.attachments[k].Inline?
    requires var a := m.attachments[k]; a.data == Some("") || (a.data.None? && GivesNothing(a.uri, load))
    ensures var hidden := InlineCount(m.attachments[..k]) - ShownAttachments(m.attachments[..k], load);
            var n := |m.content| - ShownItems(m.content, load) + hidden;
            var summaries := SummariesOf(Prepared(m, true, load));
            0 <= n < |summaries| && summaries[n] == OfAttachment(n, m.attachments[k])
  {
    FailsExactlyWhen(m, load);
    ShownAttachmentIsReady(m.attachments[k], load);
    InlineSummaryInPlace(m, k, true, load);
    ItemsCounted(m.content, load);
    AttachmentsCounted(m.attachments[..k], load);
  }

  /** Over a whole list: the data an item of the last media-bearing message has of its own reach the model. */
  lemma OwnDataReachTheModel(ms: seq<Message>, k: nat, load: Loader)
    requires var i := LatestMedia(ms); i >= 0 && !Failing(ms[i], load) && k < |ms[i].content|
    requires var item := ms[LatestMedia(ms)].content[k]; item.Media? && item.data.Some? && item.data.value != ""
    ensures var i := LatestMedia(ms);
            var item := ms[i].content[k];
            var at, blocks := ShownItems(ms[i].content[..k], load), PreparedAll(ms, i, load)[i];
            at < |blocks| && blocks[at] == Payload(item.isImage, item.data.value)
  {
    var i := LatestMedia(ms);
    PreparedAt(ms, i, load, i);
    ItemIsPayload(ms[i], k, ms[i].content[k].data.value, load);
  }

  /** A message with media keeps its content as it is if and only if a read it takes throws. */
  lemma UnchangedExactlyWhen(m: Message, load: Loader)
    requires HasMedia(m)
    ensures Prepared(m, true, load) == Unchanged(m.content) <==> Failing(m, load)
  {
    FailsExactlyWhen(m, load);
    if !Failing(m, load) {
      EachMediumOnce(m, true, load);
      UnchangedHasNoMedia(m.content);
      MediaIsCounted(m.content);
      InlineIsCounted(m.attachments);
    }
  }

  lemma {:induction false} UnchangedHasNoMedia(content: seq<Item>)
    ensures Payloads(Unchanged(content)) == 0 && SummariesOf(Unchanged(content)) == []
  {
    if content != [] {
      var front := content[..|content| - 1];
      UnchangedHasNoMedia(front);
      assert Unchanged(content) == Unchanged(front) + [Original(content[|content| - 1])];
      BlocksOneMore(Unchanged(front), Original(content[|content| - 1]));
    }
  }

  lemma {:induction false} MediaIsCounted(content: seq<Item>)
    ensures MediaCount(content) > 0 <==> exists k :: 0 <= k < |content| && content[k].Media?
  {
    if content != [] {
      var front := content[..|content| - 1];
      MediaIsCounted(front);
      assert forall k :: 0 <= k < |front| ==> content[k] == front[k];
    }
  }

  lemma {:induction false} InlineIsCounted(attachments: seq<Attachment>)
    ensures InlineCount(attachments) > 0 <==> exists k :: 0 <= k < |attachments| && attachments[k].Inline?
  {
    if attachments != [] {
      var front := attachments[..|attachments| - 1];
      InlineIsCounted(front);
      assert forall k :: 0 <= k < |front| ==> attachments[k] == front[k];
    }
  }

  /******* Every other message *******/

  lemma {:induction false} AllItemsUnmade(content: seq<Item>, load: Loader)
    ensures |Unmade(content, false, load)| == MediaCount(content)
  {
    if content != [] {
      AllItemsUnmade(content[..|content| - 1], load);
    }
  }

  lemma {:induction false} AllAttachmentsUnmade(attachments: seq<Attachment>, load: Loader)
    ensures |UnmadeAttachments(attachments, false, load)| == InlineCount(attachments)
  {
    if attachments != [] {
      AllAttachmentsUnmade(attachments[..|attachments| - 1], load);
    }
  }

  lemma HistoryReadsNothing(m: Message, load: Loader)
    ensures !ThrowsIn(m, false, load)
  {
  }

  /** In history each medium is a summary, numbered by the media before it, and nothing is read. */
  lemma HistoryIsSummaries(m: Message, k: nat, load: Loader)
    requires k < |m.content| && m.content[k].Media?
    ensures var n, summaries := MediaCount(m.content[..k]), SummariesOf(Prepared(m, false, load));
            n < |summaries| && summaries[n] == OfItem(n, m.content[k])
  {
    HistoryReadsNothing(m, load);
    SummaryInPlace(m, k, false, load);
    AllItemsUnmade(m.content[..k], load);
  }

  lemma HistoryAttachmentIsSummary(m: Message, k: nat, load: Loader)
    requires k < |m.attachments| && m.attachments[k].Inline?
    ensures var n := MediaCount(m.content) + InlineCount(m.attachments[..k]);
            var summaries := SummariesOf(Prepared(m, false, load));
            n < |summaries| && summaries[n] == OfAttachment(n, m.attachments[k])
  {
    HistoryReadsNothing(m, load);
    InlineSummaryInPlace(m, k, false, load);
    AllItemsUnmade(m.content, load);
    AllAttachmentsUnmade(m.attachments[..k], load);
  }

  /******* Stored attachments *******/

  lemma {:induction false} StoredConcat(a: seq<Attachment>, b: seq<Attachment>)
    ensures StoredOnes(a + b) == StoredOnes(a) + StoredOnes(b)
  {
    if b == [] {
      assert a + b == a;
    } else {
      StoredConcat(a, b[..|b| - 1]);
      assert (a + b)[..|a + b| - 1] == a + b[..|b| - 1];
    }
  }

  /** The stored attachments that the last block lists; none if there is no such block. */
  function ListedIn(blocks: seq<Block>): seq<Attachment> {
    if blocks != [] && blocks[|blocks| - 1].Hints? then blocks[|blocks| - 1].stored else []
  }

  /** The k-th attachment, if it is a stored one, is listed behind those stored before it. */
  lemma StoredIsListed(m: Message, k: nat, latest: bool, load: Loader)
    requires !ThrowsIn(m, latest, load) && k < |m.attachments|
    ensures ListedIn(Prepared(m, latest, load))
         == StoredOnes(m.attachments[..k]) + (if m.attachments[k].Stored? then [m.attachments[k]] else [])
          + StoredOnes(m.attachments[k + 1..])
  {
    var a := m.attachments;
    assert a == a[..k] + [a[k]] + a[k + 1..];
    StoredConcat(a[..k] + [a[k]], a[k + 1..]);
    StoredConcat(a[..k], [a[k]]);
    assert [a[k]][..0] == [];
    FrontListsNone(m, latest, load);
  }

  lemma FrontListsNone(m: Message, latest: bool, load: Loader)
    ensures ListedIn(Front(m, latest, load)) == []
  {
    NoHintsInContent(m.content, latest, load);
    NoHintsInAttachments(m.attachments, latest, load);
  }
}
