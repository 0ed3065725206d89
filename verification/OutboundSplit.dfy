/** Cutting one outbound message into the messages a channel accepts. */
module OutboundSplit {
  import opened Wrappers
  import opened Text
  import opened Outbound
  import opened TextSplit
  import opened TelegramBatches

  function MaxChars(channel: string): Option<nat> {
    if channel == "whatsapp" then Some(4000)
    else if channel == "discord" then Some(1900)
    else if channel == "telegram" then Some(3500)
    else if channel == "slack" then Some(3500)
    else if channel == "signal" then Some(3000)
    else None
  }

  /** The channels that have a limit. */
  lemma ChannelLimits(channel: string)
    ensures MaxChars(channel).Some? <==> channel in ["whatsapp", "discord", "telegram", "slack", "signal"]
    ensures MaxChars("whatsapp") == Some(4000) && MaxChars("discord") == Some(1900) && MaxChars("signal") == Some(3000)
    ensures MaxChars("telegram") == MaxChars("slack") == Some(3500)
  {
  }

  predicate SameEnvelope(a: OutboundMessage, b: OutboundMessage) {
    a.channel == b.channel && a.accountId == b.accountId && a.to == b.to && a.threadId == b.threadId
  }

  /** All messages go where the original went, and only the first is a reply. */
  predicate Addressed(outbound: OutboundMessage, messages: seq<OutboundMessage>) {
    && messages != []
    && forall i :: 0 <= i < |messages| ==>
         SameEnvelope(messages[i], outbound) && messages[i].replyTo == if i == 0 then outbound.replyTo else None
  }

  function AttachmentsOf(messages: seq<OutboundMessage>): seq<seq<Attachment>> {
    seq(|messages|, i requires 0 <= i < |messages| => messages[i].attachments)
  }

  function TextsOf(messages: seq<OutboundMessage>): seq<string> {
    seq(|messages|, i requires 0 <= i < |messages| => messages[i].text)
  }

  /** Consecutive slices of a fixed size; a size of zero takes nothing and stops at once. */
  method SplitAttachmentVec(attachments: seq<Attachment>, batchSize: nat) returns (batches: seq<seq<Attachment>>)
    ensures batchSize == 0 ==> batches == []
    ensures batchSize > 0 ==> Flatten(batches) == attachments
    ensures forall b :: b in batches ==> 1 <= |b| <= batchSize
    ensures forall i :: 0 <= i < |batches| - 1 ==> |batches[i]| == batchSize
  {
    batches := [];
    var next := 0;
    while true
      invariant next <= |attachments| && (batchSize == 0 ==> batches == [])
      invariant Flatten(batches) == attachments[..next]
      invariant forall b :: b in batches ==> 1 <= |b| <= batchSize
      invariant forall i :: 0 <= i < |batches| && (i < |batches| - 1 || next < |attachments|) ==> |batches[i]| == batchSize
      decreases |attachments| - next
    {
      var end := if next + batchSize < |attachments| then next + batchSize else |attachments|;
      var chunk := attachments[next..end];
      if chunk == [] {
        assert batchSize > 0 ==> attachments[..next] == attachments;
        break;
      }
      FlattenAppend(batches, chunk);
      assert attachments[..next] + chunk == attachments[..end];
      batches := batches + [chunk];
      next := end;
    }
  }

  function GroupMessage(outbound: OutboundMessage, grouped: seq<seq<Attachment>>, index: nat): OutboundMessage
    requires index < |grouped|
  {
    outbound.(text := if index == 0 then outbound.text else "",
              attachments := grouped[index],
              replyTo := if index == 0 then outbound.replyTo else None)
  }

  /** Attachments are kept in order; Telegram gets the fewest batches its adapter accepts, WhatsApp one each. */
  method SplitAttachmentBatches(outbound: OutboundMessage) returns (messages: seq<OutboundMessage>)
    ensures Addressed(outbound, messages) && Flatten(AttachmentsOf(messages)) == outbound.attachments
    ensures forall i :: 0 <= i < |messages| ==> messages[i].text == if i == 0 then outbound.text else ""
    ensures |messages| == 1 ==> messages[0] == outbound
    ensures outbound.attachments == [] ==> messages == [outbound]
    ensures outbound.attachments != [] && outbound.channel == "telegram" ==>
              (forall i :: 0 <= i < |messages| ==> ValidBatch(messages[i].attachments)) &&
              forall p :: ValidPartition(p, outbound.attachments) ==> |messages| <= |p|
    ensures outbound.attachments != [] && outbound.channel == "whatsapp" ==>
              forall i :: 0 <= i < |messages| ==> |messages[i].attachments| == 1
  {
    hide ValidBatch, ValidPartition, Addressed, GroupMessage;
    Single(outbound);
    if outbound.attachments == [] {
      return [outbound];
    }
    var grouped;
    if outbound.channel == "whatsapp" {
      grouped := SplitAttachmentVec(outbound.attachments, 1);
      assert forall i :: 0 <= i < |grouped| ==> grouped[i] in grouped;
    } else if outbound.channel == "telegram" {
      grouped := SplitTelegramAttachmentBatches(outbound.attachments);
      PartitionMeans(grouped, outbound.attachments);
    } else {
      return [outbound];
    }
    if |grouped| <= 1 {
      OneGroup(grouped, outbound.attachments);
      return [outbound];
    }
    messages := seq(|grouped|, i requires 0 <= i < |grouped| => GroupMessage(outbound, grouped, i));
    Grouped(outbound, grouped, messages);
  }

  lemma PartitionMeans(grouped: seq<seq<Attachment>>, attachments: seq<Attachment>)
    requires ValidPartition(grouped, attachments)
    ensures Flatten(grouped) == attachments
    ensures forall i :: 0 <= i < |grouped| ==> ValidBatch(grouped[i])
  {
    assert forall i :: 0 <= i < |grouped| ==> grouped[i] in grouped;
  }

  lemma OneGroup(grouped: seq<seq<Attachment>>, attachments: seq<Attachment>)
    requires |grouped| <= 1 && Flatten(grouped) == attachments && attachments != []
    ensures grouped == [attachments]
  {
    if |grouped| == 1 {
      assert grouped[1..] == [];
      assert Flatten(grouped) == grouped[0] + [] == grouped[0];
    }
  }

  lemma Grouped(outbound: OutboundMessage, grouped: seq<seq<Attachment>>, messages: seq<OutboundMessage>)
    requires grouped != [] && |messages| == |grouped|
    requires forall i :: 0 <= i < |grouped| ==> messages[i] == GroupMessage(outbound, grouped, i)
    ensures Addressed(outbound, messages) && AttachmentsOf(messages) == grouped
    ensures forall i :: 0 <= i < |messages| ==>
              messages[i].attachments == grouped[i] && messages[i].text == if i == 0 then outbound.text else ""
  {
  }

  lemma Single(outbound: OutboundMessage)
    ensures Addressed(outbound, [outbound])
    ensures Flatten(AttachmentsOf([outbound])) == outbound.attachments
    ensures TextsOf([outbound]) == [outbound.text]
  {
    assert AttachmentsOf([outbound]) == [outbound.attachments];
    assert [outbound.attachments][1..] == [];
  }

  function TextMessage(outbound: OutboundMessage, texts: seq<string>, index: nat): OutboundMessage
    requires index < |texts|
  {
    outbound.(text := texts[index], replyTo := if index == 0 then outbound.replyTo else None)
  }

  /** Nothing is lost: the attachments in order, the visible text in order. A text message is cut into pieces
      within the channel's limit (a blank one stays whole), a message with attachments keeps its text on its first piece. */
  method SplitOutboundMessage(outbound: OutboundMessage) returns (messages: seq<OutboundMessage>)
    ensures Addressed(outbound, messages)
    ensures Flatten(AttachmentsOf(messages)) == outbound.attachments
    ensures AllNonWhitespace(TextsOf(messages)) == NonWhitespace(outbound.text)
    ensures outbound.attachments == [] ==>
              forall i :: 0 <= i < |messages| ==>
                messages[i].attachments == [] &&
                (MaxChars(outbound.channel).Some? ==>
                   |messages[i].text| <= MaxChars(outbound.channel).value || AllWhitespace(messages[i].text))
    ensures outbound.attachments == [] && MaxChars(outbound.channel).Some? ==>
              (AllWords(TextsOf(messages)) == Words(outbound.text) <==>
               |outbound.text| <= MaxChars(outbound.channel).value || WordsFit(outbound.text, MaxChars(outbound.channel).value))
    ensures outbound.attachments == [] ==>
              var limit := MaxChars(outbound.channel);
              TextsOf(messages) == if limit.None? || |outbound.text| <= limit.value || AllWhitespace(outbound.text) || limit.value == 0
                                   then [outbound.text] else Pieces(Trim(outbound.text), limit.value)
    ensures outbound.attachments != [] ==>
              forall i :: 0 <= i < |messages| ==> messages[i].text == if i == 0 then outbound.text else ""
    ensures outbound.attachments != [] && outbound.channel == "telegram" ==>
              (forall i :: 0 <= i < |messages| ==> ValidBatch(messages[i].attachments)) &&
              forall p :: ValidPartition(p, outbound.attachments) ==> |messages| <= |p|
  {
    hide MaxChars, Pieces, ChunkOk, Trim, ValidBatch, ValidPartition, AllNonWhitespace, AllWords, NonWhitespace, Words, WordsFit;
    var attachmentBatches := SplitAttachmentBatches(outbound);
    Single(outbound);
    Whole(outbound.text);
    if |attachmentBatches| > 1 {
      TextOnFirst(attachmentBatches, outbound.text);
      return attachmentBatches;
    }
    var first := attachmentBatches[0];
    assert first == outbound && attachmentBatches == [outbound];
    var maxChars := MaxChars(first.channel);
    if maxChars.None? {
      return [first];
    }
    if first.attachments != [] || |first.text| <= maxChars.value {
      return [first];
    }
    assert maxChars.value > 0 by { LimitsArePositive(first.channel); }
    var texts := TextSplit.Split(first.text, maxChars.value);
    messages := seq(|texts|, i requires 0 <= i < |texts| => TextMessage(outbound, texts, i));
    assert TextsOf(messages) == texts;
    ChunksAreShort(first.text, maxChars.value, texts);
    NoAttachments(messages);
  }

  lemma ChunksAreShort(text: string, maxChars: nat, texts: seq<string>)
    requires (AllWhitespace(text) && texts == [text]) || forall c :: c in texts ==> ChunkOk(c, maxChars)
    ensures forall i :: 0 <= i < |texts| ==> |texts[i]| <= maxChars || AllWhitespace(texts[i])
  {
    assert forall i :: 0 <= i < |texts| ==> texts[i] in texts;
  }

  lemma LimitsArePositive(channel: string)
    ensures MaxChars(channel).Some? ==> MaxChars(channel).value > 0
  {
  }

  lemma {:induction false} NoAttachments(messages: seq<OutboundMessage>)
    requires forall i :: 0 <= i < |messages| ==> messages[i].attachments == []
    ensures Flatten(AttachmentsOf(messages)) == []
  {
    if messages == [] {
    } else {
      NoAttachments(messages[1..]);
      assert AttachmentsOf(messages)[1..] == AttachmentsOf(messages[1..]);
    }
  }

  lemma {:induction false} BlankTexts(texts: seq<string>)
    requires forall i :: 0 <= i < |texts| ==> texts[i] == ""
    ensures AllNonWhitespace(texts) == ""
  {
    if texts == [] {
    } else {
      BlankTexts(texts[1..]);
    }
  }

  lemma TextOnFirst(messages: seq<OutboundMessage>, text: string)
    requires messages != []
    requires forall i :: 0 <= i < |messages| ==> messages[i].text == if i == 0 then text else ""
    ensures AllNonWhitespace(TextsOf(messages)) == NonWhitespace(text)
  {
    var texts := TextsOf(messages);
    BlankTexts(texts[1..]);
    assert AllNonWhitespace(texts) == NonWhitespace(text) + "";
  }
}
