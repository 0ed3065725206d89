/** Thread addresses packed into one string by the Telegram and Slack adapters. */
module ThreadAddress {
  import opened Wrappers
  import opened Text
  import Decimal

  const TELEGRAM_SEPARATOR := ":topic:"

  const SLACK_SEPARATOR := ":thread:"

  function EncodeThreadId(chatId: int, topicId: Option<int>): string {
    match topicId
    case Some(topic) => Decimal.ToString(chatId) + TELEGRAM_SEPARATOR + Decimal.ToString(topic)
    case None => Decimal.ToString(chatId)
  }

  function ParseTargetThread(threadId: Option<string>, fallbackTo: string): (string, Option<int>) {
    var raw := if threadId.Some? then threadId.value else fallbackTo;
    match Find(raw, TELEGRAM_SEPARATOR)
    case Some(i) => (raw[..i], Decimal.ParseI64(raw[i + |TELEGRAM_SEPARATOR|..]))
    case None => (raw, None)
  }

  function EncodeThreadTarget(channelId: string, threadTs: Option<string>): string {
    match threadTs
    case Some(ts) => channelId + SLACK_SEPARATOR + ts
    case None => channelId
  }

  function ParseThreadTarget(threadId: Option<string>, fallbackTo: string): (string, Option<string>) {
    var raw := if threadId.Some? then threadId.value else fallbackTo;
    match Find(raw, SLACK_SEPARATOR)
    case Some(i) => (raw[..i], Some(raw[i + |SLACK_SEPARATOR|..]))
    case None => (raw, None)
  }

  /** Separators of the form colon, word without colon, colon. */
  predicate IsSeparator(sep: string) {
    |sep| >= 2 && sep[0] == ':' && sep[|sep| - 1] == ':' && forall i :: 0 < i < |sep| - 1 ==> sep[i] != ':'
  }

  /** An occurrence before the end of the first part lies within that part and the separator's first colon. */
  lemma EarlyOccurrence(first: string, sep: string, rest: string, j: nat)
    requires IsSeparator(sep) && j < |first|
    ensures OccursAt(first + sep + rest, sep, j) <==> OccursAt(first + ":", sep, j)
  {
    var full, head := first + sep + rest, first + ":";
    if j + |sep| <= |head| {
      assert full[j..j + |sep|] == head[j..j + |sep|];
    } else if j + |sep| <= |full| {
      var piece := full[j..j + |sep|];
      assert piece[|first| - j] == ':';
      assert sep[|first| - j] != ':';
    }
  }

  /** The separator is found where it was put exactly when the first part, with the separator's first colon, contains none. */
  lemma SeparatorIsFirst(first: string, sep: string, rest: string)
    requires IsSeparator(sep)
    ensures Find(first + sep + rest, sep) == Some(|first|) <==> !Contains(first + ":", sep)
    ensures Find(first + sep + rest, sep).Some?
  {
    var full := first + sep + rest;
    assert full[|first|..|first| + |sep|] == sep;
    assert OccursAt(full, sep, |first|);
    forall j: nat | j < |first| ensures OccursAt(full, sep, j) <==> OccursAt(first + ":", sep, j) {
      EarlyOccurrence(first, sep, rest, j);
    }
    assert forall j: int :: OccursAt(first + ":", sep, j) ==> j < |first|;
  }

  lemma OccurrenceHasColons(s: string, sep: string, j: int)
    requires IsSeparator(sep) && OccursAt(s, sep, j)
    ensures 0 <= j && j + |sep| <= |s| && s[j] == ':' && s[j + |sep| - 1] == ':'
  {
    var piece := s[j..j + |sep|];
    assert piece[0] == s[j] && piece[|sep| - 1] == s[j + |sep| - 1];
  }

  /** A text without colons contains no separator, even with one colon appended. */
  lemma NoColonNoSeparator(s: string, sep: string)
    requires ':' !in s && IsSeparator(sep)
    ensures !Contains(s, sep) && !Contains(s + ":", sep)
  {
    hide Find, OccursAt;
    forall j: int ensures !OccursAt(s, sep, j) { if OccursAt(s, sep, j) { OccurrenceHasColons(s, sep, j); } }
    forall j: int ensures !OccursAt(s + ":", sep, j) { if OccursAt(s + ":", sep, j) { OccurrenceHasColons(s + ":", sep, j); } }
  }

  /** Any 64-bit chat id and optional topic come back as decimal text and number. */
  lemma TelegramRoundTrip(chatId: int, topicId: Option<int>, fallbackTo: string)
    requires Decimal.IsI64(chatId) && (topicId.Some? ==> Decimal.IsI64(topicId.value))
    ensures ParseTargetThread(Some(EncodeThreadId(chatId, topicId)), fallbackTo) == (Decimal.ToString(chatId), topicId)
    ensures topicId.Some? ==>
              EncodeThreadId(chatId, topicId) == Decimal.ToString(chatId) + ":topic:" + Decimal.ToString(topicId.value)
  {
    hide Find;
    var chat := Decimal.ToString(chatId);
    NoColonNoSeparator(chat, TELEGRAM_SEPARATOR);
    if topicId.Some? {
      var text := Decimal.ToString(topicId.value);
      SeparatorIsFirst(chat, TELEGRAM_SEPARATOR, text);
      var full := chat + TELEGRAM_SEPARATOR + text;
      assert full[..|chat|] == chat && full[|chat| + |TELEGRAM_SEPARATOR|..] == text;
      Decimal.ParseOfToString(topicId.value);
    }
  }

  /** A Slack address comes back exactly when the channel id neither contains the separator nor, for a threaded
      address, ends in all of it but the last colon; the time stamp is unrestricted. */
  lemma SlackRoundTrip(channelId: string, threadTs: Option<string>, fallbackTo: string)
    ensures ParseThreadTarget(Some(EncodeThreadTarget(channelId, threadTs)), fallbackTo) == (channelId, threadTs)
       <==> !Contains(if threadTs.Some? then channelId + ":" else channelId, ":thread:")
    ensures threadTs.Some? ==> EncodeThreadTarget(channelId, threadTs) == channelId + ":thread:" + threadTs.value
  {
    hide Find;
    match threadTs
    case None =>
    case Some(ts) =>
      var full := channelId + SLACK_SEPARATOR + ts;
      SeparatorIsFirst(channelId, SLACK_SEPARATOR, ts);
      assert full[..|channelId|] == channelId && full[|channelId| + |SLACK_SEPARATOR|..] == ts;
      var i := Find(full, SLACK_SEPARATOR).value;
      assert |full[..i]| == i;
  }

  /** Without a thread address the recipient is read as one. */
  lemma FallbackIsRead(recipient: string, other: string)
    ensures ParseTargetThread(None, recipient) == ParseTargetThread(Some(recipient), other)
    ensures ParseThreadTarget(None, recipient) == ParseThreadTarget(Some(recipient), other)
  {
  }

  /** In particular for every channel id without a colon. */
  lemma SlackRoundTripWithoutColon(channelId: string, threadTs: Option<string>, fallbackTo: string)
    requires ':' !in channelId
    ensures ParseThreadTarget(Some(EncodeThreadTarget(channelId, threadTs)), fallbackTo) == (channelId, threadTs)
  {
    SlackRoundTrip(channelId, threadTs, fallbackTo);
    NoColonNoSeparator(channelId, SLACK_SEPARATOR);
  }
}
