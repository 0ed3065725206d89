/** Outbound messages and how their attachments are grouped for one send. */
module Outbound {
  import opened Wrappers

  datatype Attachment = Attachment(mediaId: string, mimeType: string, filename: Option<string>, url: Option<string>, bytes: seq<nat>)

  datatype OutboundMessage = OutboundMessage(
    channel: string, accountId: string, to: string, threadId: Option<string>,
    text: string, attachments: seq<Attachment>, replyTo: Option<string>)
}

/** The Telegram adapter's own classification and its media-group checks. */
module TelegramAdapter {
  import opened Wrappers
  import opened Text
  import opened Outbound

  datatype AttachmentKind = Image | AudioFile | Video | File

  datatype GroupKind = VisualGroup | AudioGroup | DocumentGroup

  function AttachmentKindOf(mimeType: string): AttachmentKind {
    var normalized := ToAsciiLower(Trim(mimeType));
    if "image/" <= normalized then Image
    else if "audio/" <= normalized then AudioFile
    else if "video/" <= normalized then Video
    else File
  }

  function GroupKindOf(kind: AttachmentKind): GroupKind {
    match kind
    case Image => VisualGroup
    case Video => VisualGroup
    case AudioFile => AudioGroup
    case File => DocumentGroup
  }

  function GroupKindOfAttachment(a: Attachment): GroupKind {
    GroupKindOf(AttachmentKindOf(a.mimeType))
  }

  datatype MediaItem = MediaItem(kind: AttachmentKind, file: nat, caption: Option<string>, parseMode: bool)

  datatype GroupError = WrongGroupSize | MixedKinds

  function ItemFor(attachments: seq<Attachment>, text: string, includeParseMode: bool, i: nat): MediaItem
    requires i < |attachments|
  {
    var captioned := i == 0 && text != "";
    MediaItem(AttachmentKindOf(attachments[i].mimeType), i, if captioned then Some(text) else None,
              captioned && includeParseMode)
  }

  /** Accepts exactly the groups of two to ten attachments of one kind. */
  method BuildMediaGroupItems(attachments: seq<Attachment>, text: string, includeParseMode: bool)
    returns (r: Result<seq<MediaItem>, GroupError>)
    ensures r.Ok? <==> 2 <= |attachments| <= 10 &&
                       forall i :: 0 <= i < |attachments| ==>
                         GroupKindOfAttachment(attachments[i]) == GroupKindOfAttachment(attachments[0])
    ensures r.Ok? ==> |r.value| == |attachments| &&
                      forall i :: 0 <= i < |attachments| ==> r.value[i] == ItemFor(attachments, text, includeParseMode, i)
    ensures r.Ok? ==> forall i :: 0 <= i < |attachments| ==>
              r.value[i].file == i && r.value[i].kind == AttachmentKindOf(attachments[i].mimeType) &&
              r.value[i].caption == (if i == 0 && text != "" then Some(text) else None) &&
              (r.value[i].parseMode <==> i == 0 && text != "" && includeParseMode)
    ensures r.Err? ==> (r.error == WrongGroupSize <==> !(2 <= |attachments| <= 10))
  {
    hide AttachmentKindOf, GroupKindOf;
    if !(2 <= |attachments| <= 10) {
      return Err(WrongGroupSize);
    }
    var media: seq<MediaItem> := [];
    var groupKind := None;
    for index := 0 to |attachments|
      invariant |media| == index
      invariant groupKind == if index == 0 then None else Some(GroupKindOfAttachment(attachments[0]))
      invariant forall i :: 0 <= i < index ==>
                  GroupKindOfAttachment(attachments[i]) == GroupKindOfAttachment(attachments[0]) &&
                  media[i] == ItemFor(attachments, text, includeParseMode, i)
    {
      var kind := AttachmentKindOf(attachments[index].mimeType);
      var nextGroupKind := GroupKindOf(kind);
      match groupKind {
        case Some(existing) =>
          if existing != nextGroupKind {
            return Err(MixedKinds);
          }
        case None =>
          groupKind := Some(nextGroupKind);
      }
      var item := MediaItem(kind, index, None, false);
      if index == 0 && text != "" {
        item := item.(caption := Some(text));
        if includeParseMode {
          item := item.(parseMode := true);
        }
      }
      media := media + [item];
    }
    return Ok(media);
  }
}

/** Greedy grouping of consecutive items of one kind, for any items and any notion of kind. */
module GreedyBatches {
  import opened Text

  const MAX_BATCH: nat := 10

  predicate UniformBatch<T, K(==)>(kind: T -> K, batch: seq<T>) {
    batch != [] && |batch| <= MAX_BATCH && forall i :: 0 <= i < |batch| ==> kind(batch[i]) == kind(batch[0])
  }

  ghost predicate UniformPartition<T, K>(kind: T -> K, batches: seq<seq<T>>, items: seq<T>) {
    Flatten(batches) == items && forall i :: 0 <= i < |batches| ==> UniformBatch(kind, batches[i])
  }

  /** How many leading items have the kind, up to a limit. */
  function Run<T, K(==)>(kind: T -> K, s: seq<T>, k: K, room: nat): (n: nat)
    ensures n <= room && n <= |s|
    ensures forall i :: 0 <= i < n ==> kind(s[i]) == k
    ensures n < room && n < |s| ==> kind(s[n]) != k
  {
    if s == [] || room == 0 || kind(s[0]) != k then 0
    else
      var n := Run(kind, s[1..], k, room - 1);
      assert forall i :: 1 <= i <= n ==> s[i] == s[1..][i - 1];
      n + 1
  }

  function FirstRun<T, K(==)>(kind: T -> K, s: seq<T>): (n: nat)
    requires s != []
    ensures 1 <= n <= |s| && UniformBatch(kind, s[..n])
    ensures n < |s| ==> n == MAX_BATCH || kind(s[n]) != kind(s[0])
  {
    Run(kind, s, kind(s[0]), MAX_BATCH)
  }

  /** Cut off the longest valid batch, again and again. */
  function Greedy<T, K(==)>(kind: T -> K, s: seq<T>): seq<seq<T>>
    decreases |s|
  {
    if s == [] then [] else [s[..FirstRun(kind, s)]] + Greedy(kind, s[FirstRun(kind, s)..])
  }

  lemma {:induction false} GreedyIsValid<T, K>(kind: T -> K, s: seq<T>)
    ensures UniformPartition(kind, Greedy(kind, s), s)
    decreases |s|
  {
    if s == [] {
    } else {
      hide FirstRun;
      var n := FirstRun(kind, s);
      GreedyIsValid(kind, s[n..]);
      var batches := Greedy(kind, s);
      assert batches[0] == s[..n] && batches[1..] == Greedy(kind, s[n..]);
      assert Flatten(batches) == s[..n] + s[n..] == s;
      assert forall i :: 1 <= i < |batches| ==> batches[i] == batches[1..][i - 1];
    }
  }

  /** A valid batch at the front of s is no longer than its first run. */
  lemma FirstRunIsLongest<T, K>(kind: T -> K, s: seq<T>, m: nat)
    requires 0 < m <= |s| && UniformBatch(kind, s[..m])
    ensures m <= FirstRun(kind, s)
  {
    assert forall j :: 0 <= j < m ==> s[..m][j] == s[j];
  }

  lemma FirstRunOfSuffix<T, K>(kind: T -> K, s: seq<T>, i: nat)
    requires s != [] && i < FirstRun(kind, s)
    ensures FirstRun(kind, s) <= i + FirstRun(kind, s[i..])
  {
    hide Run, FirstRun;
    var k := FirstRun(kind, s);
    var t := s[i..];
    var run, part := s[..k], t[..k - i];
    assert forall j :: 0 <= j < |part| ==> part[j] == run[i + j];
    FirstRunIsLongest(kind, t, k - i);
  }

  /** Dropping items from the front never needs more batches. */
  lemma {:induction false} GreedyIsMonotone<T, K>(kind: T -> K, s: seq<T>, i: nat)
    requires i <= |s|
    ensures |Greedy(kind, s[i..])| <= |Greedy(kind, s)|
    decreases |s|
  {
    hide FirstRun;
    if i == 0 {
      assert s[0..] == s;
    } else {
      var k := FirstRun(kind, s);
      if k <= i {
        assert s[k..][i - k..] == s[i..];
        GreedyIsMonotone(kind, s[k..], i - k);
      } else {
        var t := s[i..];
        FirstRunOfSuffix(kind, s, i);
        var j := i + FirstRun(kind, t) - k;
        assert t[FirstRun(kind, t)..] == s[k..][j..];
        GreedyIsMonotone(kind, s[k..], j);
      }
    }
  }

  /** No partition into valid batches uses fewer of them. */
  lemma {:induction false} GreedyIsMinimal<T, K>(kind: T -> K, s: seq<T>, batches: seq<seq<T>>)
    requires UniformPartition(kind, batches, s)
    ensures |Greedy(kind, s)| <= |batches|
    decreases |batches|
  {
    if batches == [] {
    } else {
      hide FirstRun;
      var b, rest := batches[0], batches[1..];
      var m := |b|;
      assert s == b + Flatten(rest);
      assert s[..m] == b && s[m..] == Flatten(rest);
      assert forall i :: 0 <= i < |rest| ==> rest[i] == batches[i + 1];
      GreedyIsMinimal(kind, s[m..], rest);
      FirstRunIsLongest(kind, s, m);
      var k := FirstRun(kind, s);
      GreedyIsMonotone(kind, s[m..], k - m);
      assert s[m..][k - m..] == s[k..];
    }
  }

  /** A full or broken-off batch is exactly what the greedy cut takes. */
  lemma GreedyTakes<T, K>(kind: T -> K, batch: seq<T>, rest: seq<T>)
    requires UniformBatch(kind, batch)
    requires rest != [] ==> |batch| == MAX_BATCH || kind(rest[0]) != kind(batch[0])
    ensures Greedy(kind, batch + rest) == [batch] + Greedy(kind, rest)
  {
    hide Run;
    var s := batch + rest;
    var n := FirstRun(kind, s);
    assert s[..|batch|] == batch && s[|batch|..] == rest;
    FirstRunIsLongest(kind, s, |batch|);
    assert rest != [] ==> s[|batch|] == rest[0];
    assert forall j :: 0 <= j < n ==> s[..n][j] == s[j];
    assert n == |batch|;
  }
}

/** The gateway's grouping of attachments into Telegram sends. */
module TelegramBatches {
  import opened Wrappers
  import opened Text
  import opened Outbound
  import opened TelegramAdapter
  import opened GreedyBatches

  datatype BatchKind = Visual | Audio | Document

  function BatchKindOf(mimeType: string): BatchKind {
    var normalized := ToAsciiLower(Trim(mimeType));
    if "image/" <= normalized || "video/" <= normalized then Visual
    else if "audio/" <= normalized then Audio
    else Document
  }

  function Kind(a: Attachment): BatchKind {
    BatchKindOf(a.mimeType)
  }

  /** One to ten attachments of one kind. */
  ghost predicate ValidBatch(batch: seq<Attachment>) {
    UniformBatch(Kind, batch)
  }

  ghost predicate ValidPartition(batches: seq<seq<Attachment>>, attachments: seq<Attachment>) {
    UniformPartition(Kind, batches, attachments)
  }

  /** Order is kept, batches are valid, and no valid partition is shorter. */
  method SplitTelegramAttachmentBatches(attachments: seq<Attachment>) returns (batches: seq<seq<Attachment>>)
    ensures ValidPartition(batches, attachments)
    ensures forall p :: ValidPartition(p, attachments) ==> |batches| <= |p|
  {
    hide Greedy, BatchKindOf, UniformPartition;
    batches := [];
    var current: seq<Attachment> := [];
    var currentKind: Option<BatchKind> := None;
    assert attachments == [] + attachments[0..];
    assert [] + Greedy(Kind, attachments) == Greedy(Kind, attachments);
    for i := 0 to |attachments|
      invariant current == [] <==> currentKind == None
      invariant current == [] ==> i == 0
      invariant current != [] ==> ValidBatch(current) && currentKind == Some(Kind(current[0]))
      invariant Greedy(Kind, attachments) == batches + Greedy(Kind, current + attachments[i..])
    {
      ghost var rest := attachments[i..];
      var attachmentKind := BatchKindOf(attachments[i].mimeType);
      var compatible := if currentKind.Some? then currentKind.value == attachmentKind else true;
      if !compatible || |current| >= 10 {
        if current != [] {
          GreedyTakes(Kind, current, rest);
          Regroup(batches, current, Greedy(Kind, rest));
          batches := batches + [current];
          current := [];
          assert [] + rest == rest;
        }
        currentKind := None;
      }
      if currentKind.None? {
        currentKind := Some(attachmentKind);
      }
      assert current + rest == current + [attachments[i]] + attachments[i + 1..];
      current := current + [attachments[i]];
    }
    assert current + attachments[|attachments|..] == current;
    if current != [] {
      GreedyTakes(Kind, current, []);
      assert current + [] == current;
      GreedyOfNothing();
      batches := batches + [current];
    } else {
      GreedyOfNothing();
    }
    assert batches == Greedy(Kind, attachments);
    GreedyIsValid(Kind, attachments);
    forall p | ValidPartition(p, attachments) ensures |batches| <= |p| {
      GreedyIsMinimal(Kind, attachments, p);
    }
  }

  lemma Regroup<T>(a: seq<T>, x: T, b: seq<T>)
    ensures a + ([x] + b) == a + [x] + b
  {
  }

  lemma GreedyOfNothing()
    ensures Greedy(Kind, []) == []
  {
  }

  /** Gateway and adapter classify alike, although they test the prefixes in different orders. */
  lemma KindsAgree(a: Attachment, b: Attachment)
    ensures Kind(a) == Kind(b) <==> GroupKindOfAttachment(a) == GroupKindOfAttachment(b)
  {
    KindsCorrespond(a.mimeType);
    KindsCorrespond(b.mimeType);
  }

  lemma KindsCorrespond(mimeType: string)
    ensures BatchKindOf(mimeType) == Visual <==> GroupKindOf(AttachmentKindOf(mimeType)) == VisualGroup
    ensures BatchKindOf(mimeType) == Audio <==> GroupKindOf(AttachmentKindOf(mimeType)) == AudioGroup
  {
    var normalized := ToAsciiLower(Trim(mimeType));
    assert "video/" <= normalized ==> normalized[0] == 'v';
    assert "audio/" <= normalized ==> normalized[0] == 'a';
  }

  /** A batch is valid exactly if it is a single attachment or one the adapter accepts as a group. */
  lemma ValidIsAcceptable(batch: seq<Attachment>)
    ensures ValidBatch(batch) <==>
              |batch| == 1 ||
              (2 <= |batch| <= 10 && forall i :: 0 <= i < |batch| ==>
                 GroupKindOfAttachment(batch[i]) == GroupKindOfAttachment(batch[0]))
  {
    hide BatchKindOf, AttachmentKindOf, GroupKindOf;
    forall i | 0 <= i < |batch|
      ensures Kind(batch[i]) == Kind(batch[0]) <==> GroupKindOfAttachment(batch[i]) == GroupKindOfAttachment(batch[0])
    {
      KindsAgree(batch[i], batch[0]);
    }
  }

  lemma TrimKeepsPrefix(prefix: string, rest: string)
    requires prefix != "" && !IsWhitespace(prefix[0]) && !IsWhitespace(prefix[|prefix| - 1])
    ensures prefix <= Trim(prefix + rest)
  {
    hide TrimEnd, IsWhitespace;
    var text := prefix + rest;
    assert text[0] == prefix[0] && TrimStart(text) == text;
    hide TrimStart;
    var kept := TrimEnd(text);
    assert text[|prefix| - 1] == prefix[|prefix| - 1];
    assert kept[..|prefix|] == prefix;
  }

  lemma LowerKeepsPrefix(prefix: string, text: string)
    requires prefix <= text && ToAsciiLower(prefix) == prefix
    ensures prefix <= ToAsciiLower(text)
  {
    hide AsciiLower;
    var lower := ToAsciiLower(text);
    assert forall i :: 0 <= i < |prefix| ==> lower[i] == ToAsciiLower(prefix)[i];
  }

  lemma LowerLiterals()
    ensures ToAsciiLower("image/") == "image/" && ToAsciiLower("video/") == "video/" && ToAsciiLower("audio/") == "audio/"
  {
  }

  lemma KindByPrefix(mimeType: string, prefix: string)
    requires prefix in ["image/", "video/", "audio/"] && prefix <= ToAsciiLower(Trim(mimeType))
    ensures BatchKindOf(mimeType) == if prefix == "audio/" then Audio else Visual
  {
    hide TrimStart, TrimEnd, AsciiLower;
    var normalized := ToAsciiLower(Trim(mimeType));
    assert prefix == "audio/" ==> normalized[0] == 'a';
  }

  lemma PrefixSurvives(prefix: string, subtype: string)
    requires prefix != "" && !IsWhitespace(prefix[0]) && !IsWhitespace(prefix[|prefix| - 1])
    requires ToAsciiLower(prefix) == prefix
    ensures prefix <= ToAsciiLower(Trim(prefix + subtype))
  {
    hide Trim, ToAsciiLower, IsWhitespace;
    TrimKeepsPrefix(prefix, subtype);
    LowerKeepsPrefix(prefix, Trim(prefix + subtype));
  }

  /** Images and videos go together, sounds apart from them, whatever the subtype. */
  lemma MimeKinds(subtype: string)
    ensures BatchKindOf("image/" + subtype) == Visual
    ensures BatchKindOf("video/" + subtype) == Visual
    ensures BatchKindOf("audio/" + subtype) == Audio
  {
    hide BatchKindOf, ToAsciiLower, Trim;
    LowerLiterals();
    PrefixSurvives("image/", subtype);
    PrefixSurvives("video/", subtype);
    PrefixSurvives("audio/", subtype);
    hide IsWhitespace;
    KindByPrefix("image/" + subtype, "image/");
    KindByPrefix("video/" + subtype, "video/");
    KindByPrefix("audio/" + subtype, "audio/");
  }

  /** A batch of two or more always passes the adapter's checks. */
  method SendBatch(batch: seq<Attachment>, text: string, includeParseMode: bool)
    returns (r: Result<seq<MediaItem>, GroupError>)
    requires ValidBatch(batch) && |batch| > 1
    ensures r.Ok? && |r.value| == |batch|
    ensures forall i :: 0 <= i < |batch| ==> r.value[i] == ItemFor(batch, text, includeParseMode, i)
  {
    forall i | 0 <= i < |batch| ensures GroupKindOfAttachment(batch[i]) == GroupKindOfAttachment(batch[0]) {
      KindsAgree(batch[i], batch[0]);
    }
    r := BuildMediaGroupItems(batch, text, includeParseMode);
  }
}
