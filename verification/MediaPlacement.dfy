/**
 Where `prepareMessagesForLLM` puts images and audio (src/lib/message-preprocessor.ts:255-266
 and 313-657): into the last message that has any, and as numbered summaries elsewhere.
 */
module MediaPlacement {
  import opened Wrappers

  /** A content item; `ref` tells items apart. An empty uri stands for an absent one. */
  datatype Item =
    | Plain(ref: nat)
    | Media(ref: nat, isImage: bool, data: Option<string>, uri: string, sourceData: Option<string>, sourceUri: string)

  /** An attachment: with inline content, inline without content, or of another status. */
  datatype Attachment =
    | Inline(ref: nat, isImage: bool, data: Option<string>, uri: string)
    | InlineWithoutContent(ref: nat)
    | Stored(ref: nat)

  datatype Message = Message(content: seq<Item>, attachments: seq<Attachment>)

  /** What a summary is about, with the number that stands in its tag. */
  datatype Summary = OfItem(index: nat, item: Item) | OfAttachment(index: nat, attachment: Attachment)

  /** A block of the prepared message; `Hints` is the one text block of summaries and stored attachments. */
  datatype Block =
    | Original(item: Item)
    | Payload(isImage: bool, data: string)
    | Hints(summaries: seq<Summary>, stored: seq<Attachment>)

  /** What reading a URI comes to; None when it throws. */
  type Loader = string -> Option<string>

  datatype Made = Threw | Nothing | Ready(data: string)

  /******* Materializing *******/

  function OrElse(a: Option<string>, b: Option<string>): Option<string> {
    if a.Some? then a else b
  }

  predicate Truthy(s: Option<string>) {
    s.Some? && s.value != ""
  }

  /** Loads `uri` if there is nothing yet and there is a uri; None when the loader throws. */
  function LoadIfMissing(sofar: Option<string>, uri: string, load: Loader): Option<Option<string>> {
    if Truthy(sofar) || uri == "" then Some(sofar)
    else if load(uri).Some? then Some(load(uri))
    else None
  }

  function AsMade(data: Option<string>): Made {
    if Truthy(data) then Ready(data.value) else Nothing
  }

  /** `materializeMediaContentItem` */
  function MadeOfItem(item: Item, load: Loader): Made
    requires item.Media?
  {
    match LoadIfMissing(OrElse(item.data, item.sourceData), item.uri, load)
    case None => Threw
    case Some(first) =>
      (match LoadIfMissing(first, item.sourceUri, load)
       case None => Threw
       case Some(second) => AsMade(second))
  }

  /** `materializeInlineAttachment`: data, even if empty, keeps the uri from being loaded. */
  function MadeOfAttachment(a: Attachment, load: Loader): Made
    requires a.Inline?
  {
    if a.data.Some? then AsMade(a.data)
    else if a.uri == "" then Nothing
    else if load(a.uri).Some? then AsMade(load(a.uri))
    else Threw
  }

  function ItemFate(item: Item, latest: bool, load: Loader): Made
    requires item.Media?
  {
    if latest then MadeOfItem(item, load) else Nothing
  }

  function AttachmentFate(a: Attachment, latest: bool, load: Loader): Made
    requires a.Inline?
  {
    if latest then MadeOfAttachment(a, load) else Nothing
  }

  /******* The reference *******/

  predicate ThrowsIn(m: Message, latest: bool, load: Loader) {
    || (exists k :: 0 <= k < |m.content| && m.content[k].Media? && ItemFate(m.content[k], latest, load).Threw?)
    || (exists k :: 0 <= k < |m.attachments| && m.attachments[k].Inline?
                    && AttachmentFate(m.attachments[k], latest, load).Threw?)
  }

  function Unchanged(content: seq<Item>): seq<Block> {
    seq(|content|, k requires 0 <= k < |content| => Original(content[k]))
  }

  /** Items that are no media as they are, and media that could be materialized, in order. */
  function ContentBlocks(content: seq<Item>, latest: bool, load: Loader): seq<Block> {
    if content == [] then []
    else
      var item := content[|content| - 1];
      ContentBlocks(content[..|content| - 1], latest, load) +
      (if item.Plain? then [Original(item)]
       else if ItemFate(item, latest, load).Ready? then [Payload(item.isImage, ItemFate(item, latest, load).data)]
       else [])
  }

  function AttachmentBlocks(attachments: seq<Attachment>, latest: bool, load: Loader): seq<Block> {
    if attachments == [] then []
    else
      var a := attachments[|attachments| - 1];
      AttachmentBlocks(attachments[..|attachments| - 1], latest, load) +
      (if a.Inline? && AttachmentFate(a, latest, load).Ready?
       then [Payload(a.isImage, AttachmentFate(a, latest, load).data)] else [])
  }

  /** The media items that could not, or were not to, be materialized. */
  function Unmade(content: seq<Item>, latest: bool, load: Loader): seq<Item> {
    if content == [] then []
    else
      var item := content[|content| - 1];
      Unmade(content[..|content| - 1], latest, load) +
      (if item.Media? && !ItemFate(item, latest, load).Ready? then [item] else [])
  }

  function UnmadeAttachments(attachments: seq<Attachment>, latest: bool, load: Loader): seq<Attachment> {
    if attachments == [] then []
    else
      var a := attachments[|attachments| - 1];
      UnmadeAttachments(attachments[..|attachments| - 1], latest, load) +
      (if a.Inline? && !AttachmentFate(a, latest, load).Ready? then [a] else [])
  }

  function NumberedItems(items: seq<Item>): seq<Summary> {
    seq(|items|, k requires 0 <= k < |items| => OfItem(k, items[k]))
  }

  function NumberedAttachments(first: nat, attachments: seq<Attachment>): seq<Summary> {
    seq(|attachments|, k requires 0 <= k < |attachments| => OfAttachment(first + k, attachments[k]))
  }

  /** One summary each, numbered from 0 on through items and attachments alike. */
  function Numbered(items: seq<Item>, attachments: seq<Attachment>): seq<Summary> {
    NumberedItems(items) + NumberedAttachments(|items|, attachments)
  }

  function StoredOnes(attachments: seq<Attachment>): seq<Attachment> {
    if attachments == [] then []
    else
      var a := attachments[|attachments| - 1];
      StoredOnes(attachments[..|attachments| - 1]) + (if a.Stored? then [a] else [])
  }

  function HintBlock(summaries: seq<Summary>, stored: seq<Attachment>): seq<Block> {
    if summaries == [] && stored == [] then [] else [Hints(summaries, stored)]
  }

  /** The content of a prepared message. */
  function Prepared(m: Message, latest: bool, load: Loader): seq<Block> {
    if ThrowsIn(m, latest, load) then Unchanged(m.content)
    else
      ContentBlocks(m.content, latest, load) + AttachmentBlocks(m.attachments, latest, load) +
      HintBlock(Numbered(Unmade(m.content, latest, load), UnmadeAttachments(m.attachments, latest, load)),
                StoredOnes(m.attachments))
  }

  predicate HasMedia(m: Message) {
    || (exists k :: 0 <= k < |m.content| && m.content[k].Media?)
    || (exists k :: 0 <= k < |m.attachments| && m.attachments[k].Inline?)
  }

  predicate HasMediaItem(content: seq<Item>) {
    exists k :: 0 <= k < |content| && content[k].Media?
  }

  /** The last message with media, or -1. */
  function LatestMedia(ms: seq<Message>): (k: int)
    ensures -1 <= k < |ms|
    ensures k >= 0 ==> HasMedia(ms[k])
    ensures forall j :: k < j < |ms| ==> !HasMedia(ms[j])
  {
    if ms == [] then -1
    else if HasMedia(ms[|ms| - 1]) then |ms| - 1
    else LatestMedia(ms[..|ms| - 1])
  }

  /******* The functions as they run *******/

  lemma {:induction false} NothingToPrepare(content: seq<Item>, latest: bool, load: Loader)
    requires !HasMediaItem(content)
    ensures ContentBlocks(content, latest, load) == Unchanged(content) && Unmade(content, latest, load) == []
  {
    if content != [] {
      var front := content[..|content| - 1];
      assert !HasMediaItem(front) by {
        assert forall k :: 0 <= k < |front| ==> front[k] == content[k];
      }
      assert content[|content| - 1].Plain?;
      NothingToPrepare(front, latest, load);
    }
  }

  /** `prepareMessageForLLM` */
  method PrepareMessage(m: Message, latest: bool, load: Loader) returns (content: seq<Block>)
    ensures content == Prepared(m, latest, load)
  {
    if |m.attachments| == 0 && !HasMediaItem(m.content) {
      NothingToPrepare(m.content, latest, load);
      return Unchanged(m.content);
    }
    var processed, summaries, threw := PrepareContent(m.content, latest, load);
    if threw {
      return Unchanged(m.content);
    }
    var inline, more, stored;
    inline, more, stored, threw := PrepareAttachments(m.attachments, |summaries|, latest, load);
    if threw {
      return Unchanged(m.content);
    }
    content := processed + inline + HintBlock(summaries + more, stored);
  }

  /** Lines 515-535. */
  method PrepareContent(items: seq<Item>, latest: bool, load: Loader)
    returns (processed: seq<Block>, summaries: seq<Summary>, threw: bool)
    ensures threw <==> exists k :: 0 <= k < |items| && items[k].Media? && ItemFate(items[k], latest, load).Threw?
    ensures !threw ==> processed == ContentBlocks(items, latest, load)
    ensures !threw ==> summaries == NumberedItems(Unmade(items, latest, load))
  {
    processed, summaries, threw := [], [], false;
    var index := 0;
    for i := 0 to |items|
      invariant forall k :: 0 <= k < i && items[k].Media? ==> !ItemFate(items[k], latest, load).Threw?
      invariant processed == ContentBlocks(items[..i], latest, load)
      invariant index == |Unmade(items[..i], latest, load)|
      invariant summaries == NumberedItems(Unmade(items[..i], latest, load))
    {
      assert items[..i + 1][..i] == items[..i];
      var item := items[i];
      if item.Plain? {
        processed := processed + [Original(item)];
        continue;
      }
      if latest {
        var made := MadeOfItem(item, load);
        if made.Threw? {
          threw := true;
          return;
        }
        if made.Ready? {
          processed := processed + [Payload(item.isImage, made.data)];
          continue;
        }
      }
      summaries, index := summaries + [OfItem(index, item)], index + 1;
    }
    assert items[..|items|] == items;
  }

  /** Lines 501-506 and 537-553. */
  method PrepareAttachments(attachments: seq<Attachment>, first: nat, latest: bool, load: Loader)
    returns (inline: seq<Block>, summaries: seq<Summary>, stored: seq<Attachment>, threw: bool)
    ensures threw <==> exists k :: 0 <= k < |attachments| && attachments[k].Inline?
                                   && AttachmentFate(attachments[k], latest, load).Threw?
    ensures !threw ==>
              && inline == AttachmentBlocks(attachments, latest, load)
              && summaries == NumberedAttachments(first, UnmadeAttachments(attachments, latest, load))
              && stored == StoredOnes(attachments)
  {
    inline, summaries, stored, threw := [], [], [], false;
    var index := first;
    for i := 0 to |attachments|
      invariant forall k :: 0 <= k < i && attachments[k].Inline? ==>
                  !AttachmentFate(attachments[k], latest, load).Threw?
      invariant inline == AttachmentBlocks(attachments[..i], latest, load)
      invariant index == first + |UnmadeAttachments(attachments[..i], latest, load)|
      invariant summaries == NumberedAttachments(first, UnmadeAttachments(attachments[..i], latest, load))
      invariant stored == StoredOnes(attachments[..i])
    {
      assert attachments[..i + 1][..i] == attachments[..i];
      var a := attachments[i];
      if a.Inline? {
        var made := if latest then MadeOfAttachment(a, load) else Nothing;
        if made.Threw? {
          threw := true;
          return;
        }
        if made.Ready? {
          inline := inline + [Payload(a.isImage, made.data)];
        } else {
          summaries, index := summaries + [OfAttachment(index, a)], index + 1;
        }
      } else if a.Stored? {
        stored := stored + [a];
      }
    }
    assert attachments[..|attachments|] == attachments;
  }

  lemma OneMoreMessage(ms: seq<Message>, i: nat)
    requires i < |ms|
    ensures LatestMedia(ms[..i + 1]) == if HasMedia(ms[i]) then i else LatestMedia(ms[..i])
  {
    assert ms[..i + 1][..i] == ms[..i];
  }

  /** The backward pass of lines 626-640; the rest of what it counts is for the log only. */
  method FindLatestMedia(ms: seq<Message>) returns (latest: int)
    ensures latest == LatestMedia(ms)
  {
    latest := -1;
    var i := |ms| - 1;
    assert ms[..|ms|] == ms;
    while i >= 0
      invariant -1 <= i < |ms|
      invariant LatestMedia(ms) == if latest == -1 then LatestMedia(ms[..i + 1]) else latest
    {
      OneMoreMessage(ms, i);
      if latest == -1 && HasMedia(ms[i]) {
        latest := i;
      }
      i := i - 1;
    }
  }

  /** All messages, of which `latest` may carry media. */
  function PreparedAll(ms: seq<Message>, latest: int, load: Loader): (all: seq<seq<Block>>)
    ensures |all| == |ms|
  {
    if ms == [] then []
    else
      PreparedAll(ms[..|ms| - 1], latest, load) + [Prepared(ms[|ms| - 1], |ms| - 1 == latest, load)]
  }

  lemma {:induction false} PreparedAt(ms: seq<Message>, latest: int, load: Loader, i: nat)
    requires i < |ms|
    ensures PreparedAll(ms, latest, load)[i] == Prepared(ms[i], i == latest, load)
  {
    if i < |ms| - 1 {
      PreparedAt(ms[..|ms| - 1], latest, load, i);
    }
  }

  /** `prepareMessagesForLLM` */
  method PrepareMessages(ms: seq<Message>, load: Loader) returns (prepared: seq<seq<Block>>)
    ensures prepared == PreparedAll(ms, LatestMedia(ms), load)
  {
    var latest := FindLatestMedia(ms);
    prepared := [];
    for j := 0 to |ms|
      invariant prepared == PreparedAll(ms[..j], latest, load)
    {
      var content := PrepareMessage(ms[j], j == latest, load);
      assert ms[..j + 1][..j] == ms[..j];
      prepared := prepared + [content];
    }
    assert ms[..|ms|] == ms;
  }

  /******* What the model receives *******/

  predicate CarriesMedia(b: Block) {
    b.Payload? || (b.Original? && b.item.Media?)
  }

  lemma {:induction false} NoPayloadInHistory(content: seq<Item>, load: Loader, b: Block)
    requires b in ContentBlocks(content, false, load)
    ensures !CarriesMedia(b)
  {
    var front := content[..|content| - 1];
    if b in ContentBlocks(front, false, load) {
      NoPayloadInHistory(front, load, b);
    }
  }

  lemma {:induction false} NoInlineInHistory(attachments: seq<Attachment>, load: Loader)
    ensures AttachmentBlocks(attachments, false, load) == []
  {
    if attachments != [] {
      NoInlineInHistory(attachments[..|attachments| - 1], load);
    }
  }

  /** Images and audio, loaded or not, stand in the last media-bearing message only, even if loading fails. */
  lemma {:induction false} OnlyLatestCarriesMedia(ms: seq<Message>, load: Loader, i: nat, b: Block)
    requires i < |ms| && b in PreparedAll(ms, LatestMedia(ms), load)[i] && CarriesMedia(b)
    ensures i == LatestMedia(ms)
  {
    PreparedAt(ms, LatestMedia(ms), load, i);
    if i != LatestMedia(ms) {
      NoInlineInHistory(ms[i].attachments, load);
      if b in ContentBlocks(ms[i].content, false, load) {
        NoPayloadInHistory(ms[i].content, load, b);
      }
    }
  }

  function Payloads(blocks: seq<Block>): nat {
    if blocks == [] then 0
    else Payloads(blocks[..|blocks| - 1]) + (if blocks[|blocks| - 1].Payload? then 1 else 0)
  }

  function Originals(blocks: seq<Block>): seq<Item> {
    if blocks == [] then []
    else
      var b := blocks[|blocks| - 1];
      Originals(blocks[..|blocks| - 1]) + (if b.Original? then [b.item] else [])
  }

  function PlainItems(content: seq<Item>): seq<Item> {
    if content == [] then []
    else
      var item := content[|content| - 1];
      PlainItems(content[..|content| - 1]) + (if item.Plain? then [item] else [])
  }

  function MediaCount(content: seq<Item>): nat {
    if content == [] then 0
    else MediaCount(content[..|content| - 1]) + (if content[|content| - 1].Media? then 1 else 0)
  }

  function InlineCount(attachments: seq<Attachment>): nat {
    if attachments == [] then 0
    else InlineCount(attachments[..|attachments| - 1]) + (if attachments[|attachments| - 1].Inline? then 1 else 0)
  }

  lemma {:induction false} BlocksConcat(a: seq<Block>, b: seq<Block>)
    ensures Payloads(a + b) == Payloads(a) + Payloads(b)
    ensures Originals(a + b) == Originals(a) + Originals(b)
  {
    if b == [] {
      assert a + b == a;
    } else {
      BlocksConcat(a, b[..|b| - 1]);
      assert (a + b)[..|a + b| - 1] == a + b[..|b| - 1];
    }
  }

  lemma BlocksOneMore(a: seq<Block>, b: Block)
    ensures Payloads(a + [b]) == Payloads(a) + (if b.Payload? then 1 else 0)
    ensures Originals(a + [b]) == Originals(a) + (if b.Original? then [b.item] else [])
  {
    assert (a + [b])[..|a|] == a;
  }

  lemma {:induction false} ContentAccounted(content: seq<Item>, latest: bool, load: Loader)
    ensures Payloads(ContentBlocks(content, latest, load)) + |Unmade(content, latest, load)| == MediaCount(content)
    ensures Originals(ContentBlocks(content, latest, load)) == PlainItems(content)
  {
    if content != [] {
      var front, item := content[..|content| - 1], content[|content| - 1];
      ContentAccounted(front, latest, load);
      var blocks := ContentBlocks(front, latest, load);
      if item.Plain? {
        BlocksOneMore(blocks, Original(item));
      } else if ItemFate(item, latest, load).Ready? {
        BlocksOneMore(blocks, Payload(item.isImage, ItemFate(item, latest, load).data));
      } else {
        assert blocks + [] == blocks;
      }
    }
  }

  lemma {:induction false} AttachmentsAccounted(attachments: seq<Attachment>, latest: bool, load: Loader)
    ensures Payloads(AttachmentBlocks(attachments, latest, load)) + |UnmadeAttachments(attachments, latest, load)|
         == InlineCount(attachments)
    ensures Originals(AttachmentBlocks(attachments, latest, load)) == []
  {
    if attachments != [] {
      var front, a := attachments[..|attachments| - 1], attachments[|attachments| - 1];
      AttachmentsAccounted(front, latest, load);
      var blocks := AttachmentBlocks(front, latest, load);
      if a.Inline? && AttachmentFate(a, latest, load).Ready? {
        BlocksOneMore(blocks, Payload(a.isImage, AttachmentFate(a, latest, load).data));
      } else {
        assert blocks + [] == blocks;
      }
    }
  }

  /** The summaries of a prepared message. */
  function SummariesOf(blocks: seq<Block>): seq<Summary> {
    if blocks != [] && blocks[|blocks| - 1].Hints? then blocks[|blocks| - 1].summaries else []
  }

  function Front(m: Message, latest: bool, load: Loader): seq<Block> {
    ContentBlocks(m.content, latest, load) + AttachmentBlocks(m.attachments, latest, load)
  }

  lemma FrontAccounted(m: Message, latest: bool, load: Loader)
    ensures Payloads(Front(m, latest, load)) + |Unmade(m.content, latest, load)|
            + |UnmadeAttachments(m.attachments, latest, load)| == MediaCount(m.content) + InlineCount(m.attachments)
    ensures Originals(Front(m, latest, load)) == PlainItems(m.content)
  {
    ContentAccounted(m.content, latest, load);
    AttachmentsAccounted(m.attachments, latest, load);
    BlocksConcat(ContentBlocks(m.content, latest, load), AttachmentBlocks(m.attachments, latest, load));
  }

  lemma FrontHasNoHints(m: Message, latest: bool, load: Loader)
    ensures SummariesOf(Front(m, latest, load)) == []
  {
    NoHintsInContent(m.content, latest, load);
    NoHintsInAttachments(m.attachments, latest, load);
  }

  lemma {:induction false} NoHintsInContent(content: seq<Item>, latest: bool, load: Loader)
    ensures forall b :: b in ContentBlocks(content, latest, load) ==> !b.Hints?
  {
    if content != [] {
      NoHintsInContent(content[..|content| - 1], latest, load);
    }
  }

  lemma {:induction false} NoHintsInAttachments(attachments: seq<Attachment>, latest: bool, load: Loader)
    ensures forall b :: b in AttachmentBlocks(attachments, latest, load) ==> !b.Hints?
  {
    if attachments != [] {
      NoHintsInAttachments(attachments[..|attachments| - 1], latest, load);
    }
  }

  lemma HintsAreLast(front: seq<Block>, summaries: seq<Summary>, stored: seq<Attachment>)
    requires SummariesOf(front) == []
    ensures SummariesOf(front + HintBlock(summaries, stored)) == summaries
    ensures Payloads(front + HintBlock(summaries, stored)) == Payloads(front)
    ensures Originals(front + HintBlock(summaries, stored)) == Originals(front)
  {
    if summaries == [] && stored == [] {
      assert front + HintBlock(summaries, stored) == front;
    } else {
      BlocksOneMore(front, Hints(summaries, stored));
    }
  }

  /**
   If loading does not fail, each media item and inline attachment becomes one payload or one
   summary, summaries are numbered 0, 1, 2 and so on, and the other items keep their order.
   */
  lemma EachMediumOnce(m: Message, latest: bool, load: Loader)
    requires !ThrowsIn(m, latest, load)
    ensures var blocks := Prepared(m, latest, load);
            && Payloads(blocks) + |SummariesOf(blocks)| == MediaCount(m.content) + InlineCount(m.attachments)
            && (forall k :: 0 <= k < |SummariesOf(blocks)| ==> SummariesOf(blocks)[k].index == k)
            && Originals(blocks) == PlainItems(m.content)
  {
    FrontAccounted(m, latest, load);
    FrontHasNoHints(m, latest, load);
    HintsAreLast(Front(m, latest, load),
                 Numbered(Unmade(m.content, latest, load), UnmadeAttachments(m.attachments, latest, load)),
                 StoredOnes(m.attachments));
  }

  /** What a content item becomes, unless it becomes a summary. */
  function BlockOf(item: Item, latest: bool, load: Loader): Option<Block> {
    if item.Plain? then Some(Original(item))
    else if ItemFate(item, latest, load).Ready? then Some(Payload(item.isImage, ItemFate(item, latest, load).data))
    else None
  }

  lemma {:induction false} ContentPlace(content: seq<Item>, k: nat, latest: bool, load: Loader)
    requires k < |content| && BlockOf(content[k], latest, load).Some?
    ensures |ContentBlocks(content[..k], latest, load)| < |ContentBlocks(content, latest, load)|
    ensures ContentBlocks(content, latest, load)[|ContentBlocks(content[..k], latest, load)|]
         == BlockOf(content[k], latest, load).value
  {
    if k < |content| - 1 {
      var front := content[..|content| - 1];
      assert front[..k] == content[..k];
      ContentPlace(front, k, latest, load);
    }
  }

  lemma {:induction false} UnmadePlace(content: seq<Item>, k: nat, latest: bool, load: Loader)
    requires k < |content| && BlockOf(content[k], latest, load).None?
    ensures |Unmade(content[..k], latest, load)| < |Unmade(content, latest, load)|
    ensures Unmade(content, latest, load)[|Unmade(content[..k], latest, load)|] == content[k]
  {
    if k < |content| - 1 {
      var front := content[..|content| - 1];
      assert front[..k] == content[..k];
      UnmadePlace(front, k, latest, load);
    }
  }

  /** If loading does not fail, the k-th content item stands right after what the items before it became. */
  lemma BlockInPlace(m: Message, k: nat, latest: bool, load: Loader)
    requires !ThrowsIn(m, latest, load)
    requires k < |m.content| && BlockOf(m.content[k], latest, load).Some?
    ensures |ContentBlocks(m.content[..k], latest, load)| < |Prepared(m, latest, load)|
    ensures Prepared(m, latest, load)[|ContentBlocks(m.content[..k], latest, load)|]
         == BlockOf(m.content[k], latest, load).value
  {
    ContentPlace(m.content, k, latest, load);
  }

  /** A medium that is not shown has the summary whose number counts those before it. */
  lemma SummaryInPlace(m: Message, k: nat, latest: bool, load: Loader)
    requires !ThrowsIn(m, latest, load)
    requires k < |m.content| && BlockOf(m.content[k], latest, load).None?
    ensures |Unmade(m.content[..k], latest, load)| < |SummariesOf(Prepared(m, latest, load))|
    ensures SummariesOf(Prepared(m, latest, load))[|Unmade(m.content[..k], latest, load)|]
         == OfItem(|Unmade(m.content[..k], latest, load)|, m.content[k])
  {
    UnmadePlace(m.content, k, latest, load);
    FrontHasNoHints(m, latest, load);
    HintsAreLast(Front(m, latest, load),
                 Numbered(Unmade(m.content, latest, load), UnmadeAttachments(m.attachments, latest, load)),
                 StoredOnes(m.attachments));
  }

  lemma {:induction false} InlinePlace(attachments: seq<Attachment>, k: nat, latest: bool, load: Loader)
    requires k < |attachments| && attachments[k].Inline? && AttachmentFate(attachments[k], latest, load).Ready?
    ensures |AttachmentBlocks(attachments[..k], latest, load)| < |AttachmentBlocks(attachments, latest, load)|
    ensures AttachmentBlocks(attachments, latest, load)[|AttachmentBlocks(attachments[..k], latest, load)|]
         == Payload(attachments[k].isImage, AttachmentFate(attachments[k], latest, load).data)
  {
    if k < |attachments| - 1 {
      var front := attachments[..|attachments| - 1];
      assert front[..k] == attachments[..k];
      InlinePlace(front, k, latest, load);
    }
  }

  lemma {:induction false} UnmadeInlinePlace(attachments: seq<Attachment>, k: nat, latest: bool, load: Loader)
    requires k < |attachments| && attachments[k].Inline? && !AttachmentFate(attachments[k], latest, load).Ready?
    ensures |UnmadeAttachments(attachments[..k], latest, load)| < |UnmadeAttachments(attachments, latest, load)|
    ensures UnmadeAttachments(attachments, latest, load)[|UnmadeAttachments(attachments[..k], latest, load)|]
         == attachments[k]
  {
    if k < |attachments| - 1 {
      var front := attachments[..|attachments| - 1];
      assert front[..k] == attachments[..k];
      UnmadeInlinePlace(front, k, latest, load);
    }
  }

  /** An inline attachment that is shown stands behind the content and the attachments shown before it. */
  lemma InlineInPlace(m: Message, k: nat, latest: bool, load: Loader)
    requires !ThrowsIn(m, latest, load)
    requires k < |m.attachments| && m.attachments[k].Inline? && AttachmentFate(m.attachments[k], latest, load).Ready?
    ensures var at := |ContentBlocks(m.content, latest, load)| + |AttachmentBlocks(m.attachments[..k], latest, load)|;
            && at < |Prepared(m, latest, load)|
            && Prepared(m, latest, load)[at]
            == Payload(m.attachments[k].isImage, AttachmentFate(m.attachments[k], latest, load).data)
  {
    InlinePlace(m.attachments, k, latest, load);
  }

  /** One that is not shown has the summary whose number counts the items and attachments not shown before it. */
  lemma InlineSummaryInPlace(m: Message, k: nat, latest: bool, load: Loader)
    requires !ThrowsIn(m, latest, load)
    requires k < |m.attachments| && m.attachments[k].Inline? && !AttachmentFate(m.attachments[k], latest, load).Ready?
    ensures var n := |Unmade(m.content, latest, load)| + |UnmadeAttachments(m.attachments[..k], latest, load)|;
            && n < |SummariesOf(Prepared(m, latest, load))|
            && SummariesOf(Prepared(m, latest, load))[n] == OfAttachment(n, m.attachments[k])
  {
    UnmadeInlinePlace(m.attachments, k, latest, load);
    FrontHasNoHints(m, latest, load);
    HintsAreLast(Front(m, latest, load),
                 Numbered(Unmade(m.content, latest, load), UnmadeAttachments(m.attachments, latest, load)),
                 StoredOnes(m.attachments));
  }
}
