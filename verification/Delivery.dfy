/** Prefix previews shown while a long reply is being "typed". */
module Preview {
  import opened Wrappers
  import opened Text

  const PSEUDO_STREAM_MIN_CHARS: nat := 240

  predicate IsBoundary(c: char) {
    IsWhitespace(c) || c == '.' || c == '!' || c == '?' || c == ',' || c == ';' || c == ':'
  }

  /** The end of the shortest prefix of at least target characters that ends at a boundary, or the whole text. */
  function PreviewEnd(text: string, target: nat, from: nat): (end: nat)
    requires from <= |text|
    ensures from <= end <= |text|
    ensures end < |text| ==> end > 0 && end >= target && IsBoundary(text[end - 1])
    ensures forall i :: from <= i < end - 1 ==> !(i + 1 >= target && IsBoundary(text[i]))
    decreases |text| - from
  {
    if from == |text| then from
    else if from + 1 >= target && IsBoundary(text[from]) then from + 1
    else PreviewEnd(text, target, from + 1)
  }

  function PreviewOf(text: string, target: nat): Option<string> {
    if text == "" then None
    else
      var candidate := Trim(text[..PreviewEnd(text, target, 0)]);
      if candidate == "" || candidate == text then None else Some(candidate)
  }

  method PreviewSlice(text: string, targetChars: nat) returns (r: Option<string>)
    ensures r == PreviewOf(text, targetChars)
  {
    hide TrimStart, TrimEnd;
    if text == "" {
      return None;
    }
    var fallbackEnd := |text|;
    var boundaryEnd: Option<nat> := None;
    var count := 0;
    for idx := 0 to |text|
      invariant count == idx
      invariant boundaryEnd.None? && (idx > 0 ==> fallbackEnd == idx) && (idx == 0 ==> fallbackEnd == |text|)
      invariant PreviewEnd(text, targetChars, 0) == PreviewEnd(text, targetChars, idx)
    {
      count := count + 1;
      fallbackEnd := idx + 1;
      if count >= targetChars && IsBoundary(text[idx]) {
        boundaryEnd := Some(fallbackEnd);
        break;
      }
    }
    var end := if boundaryEnd.Some? then boundaryEnd.value else fallbackEnd;
    var candidate := Trim(text[..end]);
    if candidate == "" || candidate == text {
      return None;
    }
    return Some(candidate);
  }

  /** A preview of a trimmed text is a proper, non-empty, trimmed prefix. */
  lemma PreviewIsPrefix(text: string, target: nat)
    requires Trimmed(text)
    ensures PreviewOf(text, target).Some? ==>
              PreviewOf(text, target).value != "" && PreviewOf(text, target).value < text &&
              Trimmed(PreviewOf(text, target).value)
  {
    hide TrimStart, TrimEnd;
    if text != "" {
      var end := PreviewEnd(text, target, 0);
      TrimOfPrefix(text, end);
    }
  }

  /** Trimming a prefix of a trimmed text only shortens it. */
  lemma TrimOfPrefix(text: string, end: nat)
    requires Trimmed(text) && end <= |text|
    ensures Trim(text[..end]) == TrimEnd(text[..end]) && Trim(text[..end]) <= text
  {
    var prefix := text[..end];
    hide TrimEnd;
    assert TrimStart(prefix) == prefix;
    var r := TrimEnd(prefix);
    assert r == prefix[..|r|] == text[..|r|];
  }

  lemma PreviewEndMonotone(text: string, target: nat, later: nat, from: nat)
    requires from <= |text| && target <= later
    ensures PreviewEnd(text, target, from) <= PreviewEnd(text, later, from)
    decreases |text| - from
  {
  }

  lemma TrimEndMonotone(text: string, a: nat, b: nat)
    requires a <= b <= |text|
    ensures TrimEnd(text[..a]) <= TrimEnd(text[..b])
  {
    hide TrimEnd;
    var p, q := text[..a], text[..b];
    var r, s := TrimEnd(p), TrimEnd(q);
    assert forall i :: 0 <= i < a ==> p[i] == q[i];
    assert |r| <= |s| by {
      if |r| > 0 { assert r[|r| - 1] == p[|r| - 1] == q[|r| - 1]; }
    }
    assert r == text[..|r|] && s == text[..|s|];
  }

  /** A later target never gives a shorter preview. */
  lemma PreviewMonotone(text: string, target: nat, later: nat)
    requires Trimmed(text) && target <= later
    requires PreviewOf(text, target).Some? && PreviewOf(text, later).Some?
    ensures PreviewOf(text, target).value <= PreviewOf(text, later).value
  {
    hide TrimStart, TrimEnd, PreviewEnd;
    var a, b := PreviewEnd(text, target, 0), PreviewEnd(text, later, 0);
    PreviewEndMonotone(text, target, later, 0);
    TrimOfPrefix(text, a);
    TrimOfPrefix(text, b);
    TrimEndMonotone(text, a, b);
  }

  /** One to three strictly growing prefixes of the trimmed text, the last being the whole of it. */
  predicate GrowingSteps(original: string, steps: seq<string>) {
    && 1 <= |steps| <= 3 && steps[|steps| - 1] == Trim(original)
    && (forall i, j :: 0 <= i < j < |steps| ==> steps[i] < steps[j])
    && (forall i :: 0 <= i < |steps| - 1 ==> steps[i] != "" && Trimmed(steps[i]))
  }

  /** The steps before the last are exactly the previews at one third and two thirds of a text that is long enough. */
  ghost predicate Previews(original: string, steps: seq<string>) {
    var text := Trim(original);
    && GrowingSteps(original, steps)
    && if |text| < PSEUDO_STREAM_MIN_CHARS then |steps| == 1
       else forall step :: step in steps[..|steps| - 1] <==>
              Some(step) == PreviewOf(text, |text| / 3) || Some(step) == PreviewOf(text, 2 * |text| / 3)
  }

  method PseudoStreamSteps(original: string) returns (steps: seq<string>)
    ensures Previews(original, steps)
  {
    hide TrimStart, TrimEnd, PreviewOf, Trim, Previews;
    var text := Trim(original);
    assert Trimmed(text) by { TrimIsTrimmed(original); }
    var total := |text|;
    if total < PSEUDO_STREAM_MIN_CHARS {
      ShortText(original);
      return [text];
    }
    steps := [];
    var target := total * 1 / 3;
    var later := total * 2 / 3;
    var candidate := PreviewSlice(text, target);
    PreviewIsPrefix(text, target);
    if candidate.Some? {
      steps := [candidate.value];
    }
    ghost var first := candidate;
    candidate := PreviewSlice(text, later);
    PreviewIsPrefix(text, later);
    if first.Some? && candidate.Some? { PreviewMonotone(text, target, later); }
    if candidate.Some? {
      if steps == [] || steps[|steps| - 1] != candidate.value {
        steps := steps + [candidate.value];
      }
    }
    PreviewsGrow(original, text, first, candidate, steps);
    PreviewsComplete(original, text, first, candidate, steps);
    if steps == [] || steps[|steps| - 1] != text {
      steps := steps + [text];
    }
  }

  /** The previews found, followed by the text itself. */
  lemma PreviewsGrow(original: string, text: string, first: Option<string>, second: Option<string>, previews: seq<string>)
    requires text == Trim(original)
    requires first.Some? ==> first.value != "" && first.value < text && Trimmed(first.value)
    requires second.Some? ==> second.value != "" && second.value < text && Trimmed(second.value)
    requires first.Some? && second.Some? ==> first.value <= second.value
    requires previews == (if first.Some? then [first.value] else []) +
                         (if second.Some? && second != first then [second.value] else [])
    ensures previews == [] || previews[|previews| - 1] != text
    ensures GrowingSteps(original, previews + [text])
  {
    hide Trim, Trimmed;
    if first.Some? && second.Some? && first != second { ProperPrefix(first.value, second.value); }
  }

  lemma PreviewsComplete(original: string, text: string, first: Option<string>, second: Option<string>, previews: seq<string>)
    requires text == Trim(original) && |text| >= PSEUDO_STREAM_MIN_CHARS && GrowingSteps(original, previews + [text])
    requires first == PreviewOf(text, |text| / 3) && second == PreviewOf(text, 2 * |text| / 3)
    requires previews == (if first.Some? then [first.value] else []) +
                         (if second.Some? && second != first then [second.value] else [])
    ensures Previews(original, previews + [text])
  {
    hide PreviewOf, Trim, GrowingSteps;
    assert (previews + [text])[..|previews|] == previews;
    assert forall step :: step in previews <==> Some(step) == first || Some(step) == second;
  }

  lemma ShortText(original: string)
    requires |Trim(original)| < PSEUDO_STREAM_MIN_CHARS
    ensures Previews(original, [Trim(original)])
  {
    hide Trim;
  }

  lemma ProperPrefix(a: string, b: string)
    requires a <= b && a != b
    ensures a < b
  {
    assert b[..|b|] == b;
  }

  lemma PreviewsAreSteps(original: string, steps: seq<string>)
    requires Previews(original, steps)
    ensures 1 <= |steps| <= 3
  {
  }

  /** A preview exists exactly if the text, cut right after the first character from the target on that ends a word or
      sentence, has something left when trimmed and is then not the whole text; and it is that prefix. */
  lemma PreviewIsFirstBoundary(text: string, target: nat, end: nat)
    requires end <= |text|
    requires end < |text| ==> 0 < end && target <= end && (IsWhitespace(text[end - 1]) || text[end - 1] in ".!?,;:")
    requires forall i :: 0 <= i < end - 1 && target <= i + 1 ==> !IsWhitespace(text[i]) && text[i] !in ".!?,;:"
    ensures var candidate := Trim(text[..end]);
            PreviewOf(text, target) == if candidate == "" || candidate == text then None else Some(candidate)
  {
    hide TrimStart, TrimEnd;
    var found := PreviewEnd(text, target, 0);
    assert forall c: char :: IsBoundary(c) <==> IsWhitespace(c) || c in ".!?,;:";
    hide IsBoundary;
    assert forall i :: 0 <= i < end - 1 && target <= i + 1 ==> !IsBoundary(text[i]);
    assert forall i: int :: 0 <= i && i + 1 < found && target <= i + 1 ==> !IsBoundary(text[i]);
    assert end < |text| ==> IsBoundary(text[end - 1]);
    assert found == end;
  }

  lemma TrimIsTrimmed(s: string)
    ensures Trimmed(Trim(s))
  {
  }
}

/** A channel is an arbitrary deterministic reaction to everything it has been sent so far. */
module Channel {
  import opened Wrappers
  import opened Outbound

  datatype Call =
    | Send(message: OutboundMessage)
    | StreamStart(message: OutboundMessage)
    | StreamUpdate(draft: string, text: string)
    | StreamEnd(draft: string, text: string)

  datatype SendOutcome =
    | Sent(platformMessageId: string)
    | RateLimited(retryAfterSecs: Option<nat>)
    | Failed(reason: string)
    | Errored(message: string)

  /** Reactions to a log of calls whose last one is being answered. */
  datatype Behaviour = Behaviour(
    onSend: seq<Call> -> SendOutcome,
    onStart: seq<Call> -> Result<string, string>,
    onUpdate: seq<Call> -> Result<(), string>,
    onEnd: seq<Call> -> Result<(), string>)

  class ChannelPlugin {
    const behaviour: Behaviour
    const streaming: bool
    const edit: bool
    var log: seq<Call>

    constructor (behaviour: Behaviour, streaming: bool, edit: bool)
      ensures this.behaviour == behaviour && this.streaming == streaming && this.edit == edit && log == []
    {
      this.behaviour, this.streaming, this.edit := behaviour, streaming, edit;
      log := [];
    }

    method DoSend(message: OutboundMessage) returns (outcome: SendOutcome)
      modifies this
      ensures log == old(log) + [Send(message)] && outcome == behaviour.onSend(log)
    {
      log := log + [Send(message)];
      outcome := behaviour.onSend(log);
    }

    method DoStart(message: OutboundMessage) returns (draft: Result<string, string>)
      modifies this
      ensures log == old(log) + [StreamStart(message)] && draft == behaviour.onStart(log)
    {
      log := log + [StreamStart(message)];
      draft := behaviour.onStart(log);
    }

    method DoUpdate(draft: string, text: string) returns (r: Result<(), string>)
      modifies this
      ensures log == old(log) + [StreamUpdate(draft, text)] && r == behaviour.onUpdate(log)
    {
      log := log + [StreamUpdate(draft, text)];
      r := behaviour.onUpdate(log);
    }

    method DoEnd(draft: string, text: string) returns (r: Result<(), string>)
      modifies this
      ensures log == old(log) + [StreamEnd(draft, text)] && r == behaviour.onEnd(log)
    {
      log := log + [StreamEnd(draft, text)];
      r := behaviour.onEnd(log);
    }
  }

  /** The last call of a log puts the message, or its complete text, in front of the recipient under this identifier. */
  predicate Delivers(b: Behaviour, log: seq<Call>, message: OutboundMessage, id: string) {
    log != [] &&
    match log[|log| - 1]
    case Send(sent) => sent == message && b.onSend(log) == Sent(id)
    case StreamEnd(draft, final) => final == message.text && draft == id && b.onEnd(log).Ok?
    case _ => false
  }

  predicate Succeeds(b: Behaviour, log: seq<Call>) {
    log != [] &&
    match log[|log| - 1]
    case Send(_) => b.onSend(log).Sent?
    case StreamEnd(_, _) => b.onEnd(log).Ok?
    case _ => false
  }

  /** How many calls of a log delivered something. */
  function Deliveries(b: Behaviour, log: seq<Call>): nat {
    if log == [] then 0 else Deliveries(b, log[..|log| - 1]) + (if Succeeds(b, log) then 1 else 0)
  }

  /** Some call of the log after the first ones delivered this message under this identifier. */
  predicate Delivered(b: Behaviour, from: nat, log: seq<Call>, message: OutboundMessage, id: string) {
    exists k :: from < k <= |log| && Delivers(b, log[..k], message, id)
  }

  lemma DeliveriesStep(b: Behaviour, log: seq<Call>, call: Call)
    ensures Deliveries(b, log + [call]) == Deliveries(b, log) + (if Succeeds(b, log + [call]) then 1 else 0)
  {
    assert (log + [call])[..|log|] == log;
  }

  lemma DeliveredNow(b: Behaviour, from: nat, log: seq<Call>, message: OutboundMessage, id: string)
    requires Delivers(b, log, message, id) && from < |log|
    ensures Delivered(b, from, log, message, id)
  {
    assert log[..|log|] == log;
  }
}

/** Sending with retries, streaming with fallback, and delivering a whole reply. */
module Delivery {
  import opened Wrappers
  import opened Text
  import opened Outbound
  import opened Channel
  import opened Preview
  import opened OutboundSplit
  import opened TextSplit

  const MAX_OUTBOUND_ATTEMPTS: nat := 3

  const MAX_RETRY_DELAY_SECS: nat := 30

  const MAX_U64: nat := 0xFFFF_FFFF_FFFF_FFFF

  datatype Status = SentStatus | RateLimitedStatus | FailedStatus

  datatype ChunkRecord = ChunkRecord(
    text: string, status: Status, platformMessageId: Option<string>, attempts: nat,
    retryAfterSecs: Option<nat>, error: Option<string>)

  datatype DeliveryRecord = DeliveryRecord(
    status: Status, platformMessageId: Option<string>, attempts: nat,
    retryAfterSecs: Option<nat>, error: Option<string>, chunks: seq<ChunkRecord>)

  function MaxAttempts(channel: string): (n: nat)
    ensures 3 <= n <= 4
  {
    if channel == "slack" || channel == "discord" || channel == "whatsapp" then 4 else MAX_OUTBOUND_ATTEMPTS
  }

  function Clamp(n: nat): (r: nat)
    ensures 1 <= r <= MAX_RETRY_DELAY_SECS
  {
    if n < 1 then 1 else if n > MAX_RETRY_DELAY_SECS then MAX_RETRY_DELAY_SECS else n
  }

  function Pow2(exponent: nat): (n: nat)
    ensures n >= 1
  {
    if exponent == 0 then 1 else 2 * Pow2(exponent - 1)
  }

  function Saturate(n: nat): nat {
    if n > MAX_U64 then MAX_U64 else n
  }

  function BaseDelay(channel: string): (n: nat)
    ensures 1 <= n <= 3
  {
    if channel == "slack" then 2 else if channel == "discord" then 2
    else if channel == "whatsapp" then 3 else if channel == "signal" then 2 else 1
  }

  function RetryDelaySecs(channel: string, attempts: nat, retryAfterSecs: Option<nat>): (delay: nat)
    ensures 1 <= delay <= MAX_RETRY_DELAY_SECS
  {
    match retryAfterSecs
    case Some(secs) => Clamp(secs)
    case None =>
      var exponent := if attempts == 0 then 0 else attempts - 1;
      Clamp(Saturate(BaseDelay(channel) * Saturate(Pow2(exponent))))
  }

  /** Saturation never shows below the cap. */
  lemma CapHidesSaturation(base: nat, p: nat)
    requires 1 <= base <= 3 && p >= 1
    ensures Clamp(Saturate(base * Saturate(p))) == if base * p < MAX_RETRY_DELAY_SECS then base * p else MAX_RETRY_DELAY_SECS
  {
    if base == 1 {
    } else if base == 2 {
    } else {
      assert base == 3;
    }
  }

  /** Without a server hint the delay doubles from one attempt to the next until it reaches the cap. */
  lemma BackoffDoubles(channel: string, attempts: nat)
    requires attempts >= 1
    ensures RetryDelaySecs(channel, 1, None) == BaseDelay(channel)
    ensures var delay := RetryDelaySecs(channel, attempts, None);
            RetryDelaySecs(channel, attempts + 1, None) ==
            if 2 * delay < MAX_RETRY_DELAY_SECS then 2 * delay else MAX_RETRY_DELAY_SECS
  {
    hide BaseDelay, Clamp, Saturate;
    var base, p := BaseDelay(channel), Pow2(attempts - 1);
    CapHidesSaturation(base, 1);
    CapHidesSaturation(base, p);
    CapHidesSaturation(base, 2 * p);
    assert base * (2 * p) == 2 * (base * p);
  }

  const PERMANENT_MARKERS: seq<string> := [
    "invalid_auth", "unauthorized", "forbidden", "not_in_channel", "channel_not_found", "chat not found",
    "message_not_found", "authentication failed", "auth failed", "invalid token", "permission denied"]

  const TRANSIENT_MARKERS: seq<string> := [
    "timeout", "temporarily_unavailable", "temporarily unavailable", "internal", "server error",
    "connection reset", "connection refused", "rate limit", "try again"]

  predicate ContainsAny(s: string, markers: seq<string>) {
    exists i :: 0 <= i < |markers| && Contains(s, markers[i])
  }

  predicate ShouldRetrySendFailure(channel: string, reason: string) {
    var normalized := ToAsciiLower(Trim(reason));
    if normalized == "" then true
    else if ContainsAny(normalized, PERMANENT_MARKERS) then false
    else if ContainsAny(normalized, TRANSIENT_MARKERS) then true
    else !(channel == "whatsapp" || channel == "slack" || channel == "discord")
  }

  predicate Retryable(channel: string, outcome: SendOutcome) {
    match outcome
    case Sent(_) => false
    case RateLimited(_) => true
    case Failed(reason) => ShouldRetrySendFailure(channel, reason)
    case Errored(message) => ShouldRetrySendFailure(channel, message)
  }

  function RetryHint(outcome: SendOutcome): Option<nat> {
    if outcome.RateLimited? then outcome.retryAfterSecs else None
  }

  // ----- one message, with retries

  function Copies(message: OutboundMessage, n: nat): (calls: seq<Call>)
    ensures |calls| == n
  {
    if n == 0 then [] else Copies(message, n - 1) + [Send(message)]
  }

  /** The outcome of the k-th of several identical sends after a log. */
  function OutcomeAt(b: Behaviour, log: seq<Call>, message: OutboundMessage, k: nat): SendOutcome {
    b.onSend(log + Copies(message, k))
  }

  /** The hint of the latest rate limit among the first n sends. */
  function LatestHint(b: Behaviour, log: seq<Call>, message: OutboundMessage, n: nat): Option<nat> {
    if n == 0 then None
    else if OutcomeAt(b, log, message, n).RateLimited? then OutcomeAt(b, log, message, n).retryAfterSecs
    else LatestHint(b, log, message, n - 1)
  }

  /** What n sends, the last of them conclusive, amount to. */
  function Conclusion(b: Behaviour, log: seq<Call>, message: OutboundMessage, n: nat): Result<ChunkRecord, string>
    requires n > 0
  {
    match OutcomeAt(b, log, message, n)
    case Sent(id) => Ok(ChunkRecord(message.text, SentStatus, Some(id), n, LatestHint(b, log, message, n), None))
    case RateLimited(hint) => Ok(ChunkRecord(message.text, RateLimitedStatus, None, n, hint, Some("rate limited")))
    case Failed(reason) => Ok(ChunkRecord(message.text, FailedStatus, None, n, None, Some(reason)))
    case Errored(error) => Err(error)
  }

  /** Exactly n identical sends: all but the last were retryable, the last was not or exhausted the attempts. */
  predicate RetriedUntil(b: Behaviour, log: seq<Call>, message: OutboundMessage, n: nat) {
    && 1 <= n <= MaxAttempts(message.channel)
    && (forall k :: 1 <= k < n ==> Retryable(message.channel, OutcomeAt(b, log, message, k)))
    && (n == MaxAttempts(message.channel) || !Retryable(message.channel, OutcomeAt(b, log, message, n)))
  }

  // ----- which outcomes are final, and how long the waits are

  /** Why a send failed, whether the channel reported it or raised it. */
  function FailureOf(outcome: SendOutcome): Option<string> {
    match outcome
    case Failed(reason) => Some(reason)
    case Errored(message) => Some(message)
    case _ => None
  }

  /** A reason, up to case, that no further attempt can mend. */
  predicate SaysPermanent(reason: string) {
    var s := ToAsciiLower(Trim(reason));
    Contains(s, "invalid_auth") || Contains(s, "unauthorized") || Contains(s, "forbidden") ||
    Contains(s, "not_in_channel") || Contains(s, "channel_not_found") || Contains(s, "chat not found") ||
    Contains(s, "message_not_found") || Contains(s, "authentication failed") || Contains(s, "auth failed") ||
    Contains(s, "invalid token") || Contains(s, "permission denied")
  }

  /** A reason, up to case, that another attempt may mend. */
  predicate SaysTransient(reason: string) {
    var s := ToAsciiLower(Trim(reason));
    Contains(s, "timeout") || Contains(s, "temporarily_unavailable") || Contains(s, "temporarily unavailable") ||
    Contains(s, "internal") || Contains(s, "server error") || Contains(s, "connection reset") ||
    Contains(s, "connection refused") || Contains(s, "rate limit") || Contains(s, "try again")
  }

  predicate FourAttempts(channel: string) {
    channel == "slack" || channel == "discord" || channel == "whatsapp"
  }

  lemma PermanentMarkers(s: string)
    ensures ContainsAny(s, PERMANENT_MARKERS) <==>
              Contains(s, "invalid_auth") || Contains(s, "unauthorized") || Contains(s, "forbidden") ||
              Contains(s, "not_in_channel") || Contains(s, "channel_not_found") || Contains(s, "chat not found") ||
              Contains(s, "message_not_found") || Contains(s, "authentication failed") || Contains(s, "auth failed") ||
              Contains(s, "invalid token") || Contains(s, "permission denied")
  {
    hide Contains;
    var m := PERMANENT_MARKERS;
    assert |m| == 11;
    assert m[0] == "invalid_auth" && m[1] == "unauthorized" && m[2] == "forbidden" && m[3] == "not_in_channel";
    assert m[4] == "channel_not_found" && m[5] == "chat not found" && m[6] == "message_not_found";
    assert m[7] == "authentication failed" && m[8] == "auth failed" && m[9] == "invalid token" && m[10] == "permission denied";
  }

  lemma TransientMarkers(s: string)
    ensures ContainsAny(s, TRANSIENT_MARKERS) <==>
              Contains(s, "timeout") || Contains(s, "temporarily_unavailable") || Contains(s, "temporarily unavailable") ||
              Contains(s, "internal") || Contains(s, "server error") || Contains(s, "connection reset") ||
              Contains(s, "connection refused") || Contains(s, "rate limit") || Contains(s, "try again")
  {
    hide Contains;
    var m := TRANSIENT_MARKERS;
    assert |m| == 9;
    assert m[0] == "timeout" && m[1] == "temporarily_unavailable" && m[2] == "temporarily unavailable" && m[3] == "internal";
    assert m[4] == "server error" && m[5] == "connection reset" && m[6] == "connection refused";
    assert m[7] == "rate limit" && m[8] == "try again";
  }

  lemma FailureIsRetried(channel: string, reason: string)
    ensures ShouldRetrySendFailure(channel, reason) <==>
              AllWhitespace(reason) ||
              (!SaysPermanent(reason) && (SaysTransient(reason) || !FourAttempts(channel)))
  {
    hide Contains, TrimStart, TrimEnd, ContainsAny;
    var s := ToAsciiLower(Trim(reason));
    PermanentMarkers(s);
    TransientMarkers(s);
    if AllWhitespace(reason) { assert s == ""; }
  }

  lemma BlankSaysNothing(reason: string)
    requires AllWhitespace(reason)
    ensures !SaysPermanent(reason) && !SaysTransient(reason)
  {
    hide TrimStart, TrimEnd, Find;
    var s := ToAsciiLower(Trim(reason));
    assert s == "";
    forall pattern: string | pattern != "" ensures !Contains(s, pattern) { NothingInEmpty(pattern); }
  }

  lemma NothingInEmpty(pattern: string)
    requires pattern != ""
    ensures !Contains("", pattern)
  {
  }

  /** Which of the sends made so far was the last: a success always is, a rate limit only at the attempt limit, and a
      failure if its reason is permanent, or, on the three channels that know their errors, neither blank nor transient. */
  lemma LastAttempt(b: Behaviour, log: seq<Call>, message: OutboundMessage, n: nat, k: nat)
    requires RetriedUntil(b, log, message, n) && 1 <= k <= n
    ensures var limit := if message.channel in ["slack", "discord", "whatsapp"] then 4 else 3;
            var outcome := b.onSend(log + Copies(message, k));
            && n <= limit
            && (outcome.Sent? ==> n == k)
            && (outcome.RateLimited? && k < limit ==> n > k)
            && (FailureOf(outcome).Some? ==>
                  var reason := FailureOf(outcome).value;
                  && (SaysPermanent(reason) ==> n == k)
                  && (k < limit && (AllWhitespace(reason) || (!SaysPermanent(reason) && SaysTransient(reason))) ==> n > k)
                  && (k < limit && !AllWhitespace(reason) && !SaysPermanent(reason) && !SaysTransient(reason) ==>
                        (n == k <==> message.channel in ["slack", "discord", "whatsapp"])))
  {
    hide SaysPermanent, SaysTransient, ShouldRetrySendFailure;
    var outcome := OutcomeAt(b, log, message, k);
    if FailureOf(outcome).Some? {
      var reason := FailureOf(outcome).value;
      FailureIsRetried(message.channel, reason);
      if AllWhitespace(reason) { BlankSaysNothing(reason); }
    }
    assert k < n ==> Retryable(message.channel, outcome);
  }

  /** The waits without a server hint, channel by channel; a hint is obeyed within one to thirty seconds. */
  lemma Waits(channel: string, hint: nat)
    ensures var first := if channel == "whatsapp" then 3 else if channel in ["slack", "discord", "signal"] then 2 else 1;
            && RetryDelaySecs(channel, 1, None) == first
            && RetryDelaySecs(channel, 2, None) == 2 * first
            && RetryDelaySecs(channel, 3, None) == 4 * first
    ensures forall attempts :: RetryDelaySecs(channel, attempts, Some(hint)) ==
                                 if hint == 0 then 1 else if hint <= 30 then hint else 30
  {
    assert Pow2(1) == 2 && Pow2(2) == 4;
    var base := BaseDelay(channel);
    CapHidesSaturation(base, 1);
    CapHidesSaturation(base, 2);
    CapHidesSaturation(base, 4);
  }

  /** Retries exactly as long as allowed and useful, waits one to thirty seconds before each retry, and reports the last outcome. */
  method SendOutboundChunk(channel: ChannelPlugin, outbound: OutboundMessage)
    returns (r: Result<ChunkRecord, string>, attempts: nat, delays: seq<nat>)
    modifies channel
    ensures RetriedUntil(channel.behaviour, old(channel.log), outbound, attempts)
    ensures channel.log == old(channel.log) + Copies(outbound, attempts)
    ensures r == Conclusion(channel.behaviour, old(channel.log), outbound, attempts)
    ensures |delays| == attempts - 1
    ensures forall k :: 0 <= k < |delays| ==>
              1 <= delays[k] <= MAX_RETRY_DELAY_SECS &&
              delays[k] == RetryDelaySecs(outbound.channel, k + 1,
                                          RetryHint(OutcomeAt(channel.behaviour, old(channel.log), outbound, k + 1)))
  {
    hide ShouldRetrySendFailure, RetryDelaySecs, MaxAttempts;
    ghost var start := channel.log;
    attempts, delays := 0, [];
    var lastRetryAfter: Option<nat> := None;
    var maxAttempts := MaxAttempts(outbound.channel);
    assert start + Copies(outbound, 0) == start;
    while true
      invariant attempts < maxAttempts
      invariant channel.log == start + Copies(outbound, attempts)
      invariant lastRetryAfter == LatestHint(channel.behaviour, start, outbound, attempts)
      invariant forall k :: 1 <= k <= attempts ==> Retryable(outbound.channel, OutcomeAt(channel.behaviour, start, outbound, k))
      invariant |delays| == attempts
      invariant forall k :: 0 <= k < |delays| ==>
                  delays[k] == RetryDelaySecs(outbound.channel, k + 1,
                                              RetryHint(OutcomeAt(channel.behaviour, start, outbound, k + 1)))
      decreases maxAttempts - attempts
    {
      attempts := attempts + 1;
      var outcome := channel.DoSend(outbound);
      assert channel.log == start + Copies(outbound, attempts);
      assert outcome == OutcomeAt(channel.behaviour, start, outbound, attempts);
      match outcome {
        case Sent(id) =>
          return Ok(ChunkRecord(outbound.text, SentStatus, Some(id), attempts, lastRetryAfter, None)), attempts, delays;
        case RateLimited(hint) =>
          lastRetryAfter := hint;
          if attempts >= maxAttempts {
            return Ok(ChunkRecord(outbound.text, RateLimitedStatus, None, attempts, hint, Some("rate limited"))), attempts, delays;
          }
          delays := delays + [RetryDelaySecs(outbound.channel, attempts, hint)];
        case Failed(reason) =>
          if attempts >= maxAttempts || !ShouldRetrySendFailure(outbound.channel, reason) {
            return Ok(ChunkRecord(outbound.text, FailedStatus, None, attempts, None, Some(reason))), attempts, delays;
          }
          delays := delays + [RetryDelaySecs(outbound.channel, attempts, None)];
        case Errored(error) =>
          if attempts >= maxAttempts || !ShouldRetrySendFailure(outbound.channel, error) {
            return Err(error), attempts, delays;
          }
          delays := delays + [RetryDelaySecs(outbound.channel, attempts, None)];
      }
    }
  }

  lemma {:induction false} CopiesDeliver(b: Behaviour, log: seq<Call>, message: OutboundMessage, n: nat)
    requires forall k :: 1 <= k <= n ==> !OutcomeAt(b, log, message, k).Sent?
    ensures Deliveries(b, log + Copies(message, n)) == Deliveries(b, log)
  {
    if n == 0 {
      assert log + Copies(message, 0) == log;
    } else {
      CopiesDeliver(b, log, message, n - 1);
      var before := log + Copies(message, n - 1);
      assert before + [Send(message)] == log + Copies(message, n);
      DeliveriesStep(b, before, Send(message));
      assert !Succeeds(b, before + [Send(message)]) by {
        assert b.onSend(before + [Send(message)]) == OutcomeAt(b, log, message, n);
      }
    }
  }

  lemma SendDelivers(b: Behaviour, from: nat, log: seq<Call>, message: OutboundMessage)
    requires from <= |log|
    ensures var after := log + [Send(message)];
            && Deliveries(b, after) == Deliveries(b, log) + (if b.onSend(after).Sent? then 1 else 0)
            && (b.onSend(after).Sent? ==> Delivered(b, from, after, message, b.onSend(after).platformMessageId))
  {
    var after := log + [Send(message)];
    DeliveriesStep(b, log, Send(message));
    if b.onSend(after).Sent? { DeliveredNow(b, from, after, message, b.onSend(after).platformMessageId); }
  }

  /** A retried send delivers once if it is reported sent, and otherwise not at all. */
  lemma RetriedDeliversOnce(b: Behaviour, log: seq<Call>, message: OutboundMessage, n: nat)
    requires RetriedUntil(b, log, message, n)
    ensures var r := Conclusion(b, log, message, n);
            var after := log + Copies(message, n);
            && Deliveries(b, after) == Deliveries(b, log) + (if r.Ok? && r.value.status == SentStatus then 1 else 0)
            && (r.Ok? && r.value.status == SentStatus ==>
                  r.value.platformMessageId.Some? && Delivered(b, |log|, after, message, r.value.platformMessageId.value))
  {
    hide MaxAttempts, ShouldRetrySendFailure, Deliveries, Delivered, LatestHint;
    var before := log + Copies(message, n - 1);
    forall k | 1 <= k <= n - 1 ensures !OutcomeAt(b, log, message, k).Sent? {
      assert Retryable(message.channel, OutcomeAt(b, log, message, k));
    }
    CopiesDeliver(b, log, message, n - 1);
    assert before + [Send(message)] == log + Copies(message, n);
    SendDelivers(b, |log|, before, message);
  }

  lemma {:induction false} LatestHintIs(b: Behaviour, log: seq<Call>, message: OutboundMessage, n: nat, j: nat)
    requires j <= n && (j > 0 ==> OutcomeAt(b, log, message, j).RateLimited?)
    requires forall i :: j < i <= n ==> !OutcomeAt(b, log, message, i).RateLimited?
    ensures LatestHint(b, log, message, n) == if j == 0 then None else OutcomeAt(b, log, message, j).retryAfterSecs
    decreases n
  {
    hide OutcomeAt;
    if n == 0 || j == n {
    } else {
      LatestHintIs(b, log, message, n - 1, j);
    }
  }

  /** The report names the outcome of the last send; a success also carries the hint of the latest rate limit, the j-th
      send, if there was one. */
  lemma Reported(b: Behaviour, log: seq<Call>, message: OutboundMessage, n: nat, j: nat)
    requires n > 0 && j <= n && (j > 0 ==> b.onSend(log + Copies(message, j)).RateLimited?)
    requires forall i :: j < i <= n ==> !b.onSend(log + Copies(message, i)).RateLimited?
    ensures var r, outcome := Conclusion(b, log, message, n), b.onSend(log + Copies(message, n));
            var latest := if j == 0 then None else b.onSend(log + Copies(message, j)).retryAfterSecs;
            && (outcome.Sent? ==>
                  r == Ok(ChunkRecord(message.text, SentStatus, Some(outcome.platformMessageId), n, latest, None)))
            && (outcome.RateLimited? ==>
                  r == Ok(ChunkRecord(message.text, RateLimitedStatus, None, n, outcome.retryAfterSecs, Some("rate limited"))))
            && (outcome.Failed? ==> r == Ok(ChunkRecord(message.text, FailedStatus, None, n, None, Some(outcome.reason))))
            && (outcome.Errored? ==> r == Err(outcome.message))
  {
    forall i | j < i <= n ensures !OutcomeAt(b, log, message, i).RateLimited? {
      assert !b.onSend(log + Copies(message, i)).RateLimited?;
    }
    LatestHintIs(b, log, message, n, j);
  }

  // ----- one message, streamed

  /** What a chunk leaves behind: the old log survives, and of the calls after it exactly one delivered something if the
      chunk is reported sent, namely this message with its full original text, and none did otherwise. */
  predicate ChunkOutcome(b: Behaviour, before: seq<Call>, after: seq<Call>, message: OutboundMessage,
                         r: Result<ChunkRecord, string>) {
    && before <= after
    && Deliveries(b, after) == Deliveries(b, before) + (if r.Ok? && r.value.status == SentStatus then 1 else 0)
    && (r.Ok? ==> r.value.text == message.text && 1 <= r.value.attempts <= 4)
    && (r.Ok? && r.value.status == SentStatus ==>
          r.value.error == None && r.value.platformMessageId.Some? &&
          Delivered(b, |before|, after, message, r.value.platformMessageId.value))
    && (r.Ok? && r.value.status != SentStatus ==> r.value.error.Some? && r.value.platformMessageId.None?)
  }

  lemma RetriedIsChunkOutcome(b: Behaviour, log: seq<Call>, message: OutboundMessage, n: nat)
    requires RetriedUntil(b, log, message, n)
    ensures ChunkOutcome(b, log, log + Copies(message, n), message, Conclusion(b, log, message, n))
  {
    hide Delivered, Deliveries;
    RetriedDeliversOnce(b, log, message, n);
  }

  predicate IsDraftCall(call: Call) {
    call.StreamStart? || call.StreamUpdate?
  }

  lemma DraftDeliversNothing(b: Behaviour, log: seq<Call>, call: Call)
    requires IsDraftCall(call)
    ensures Deliveries(b, log + [call]) == Deliveries(b, log)
  {
    DeliveriesStep(b, log, call);
  }

  lemma EndDelivers(b: Behaviour, from: nat, log: seq<Call>, draft: string, message: OutboundMessage)
    requires from <= |log|
    ensures var after := log + [StreamEnd(draft, message.text)];
            && Deliveries(b, after) == Deliveries(b, log) + (if b.onEnd(after).Ok? then 1 else 0)
            && (b.onEnd(after).Ok? ==> Delivered(b, from, after, message, draft))
  {
    var after := log + [StreamEnd(draft, message.text)];
    DeliveriesStep(b, log, StreamEnd(draft, message.text));
    if b.onEnd(after).Ok? { DeliveredNow(b, from, after, message, draft); }
  }

  /** A stream counts as one attempt; an error on ending it is the channel's. */
  function Ended(reaction: Result<(), string>, message: OutboundMessage, draft: string): Result<ChunkRecord, string> {
    match reaction
    case Ok(_) => Ok(ChunkRecord(message.text, SentStatus, Some(draft), 1, None, None))
    case Err(error) => Err(error)
  }

  function Updates(draft: string, texts: seq<string>): (calls: seq<Call>)
    ensures |calls| == |texts|
  {
    if texts == [] then []
    else Updates(draft, texts[..|texts| - 1]) + [StreamUpdate(draft, texts[|texts| - 1])]
  }

  /** The log after the first n updates of an open stream. */
  function Updated(begun: seq<Call>, draft: string, steps: seq<string>, n: nat): seq<Call>
    requires n + 1 <= |steps|
  {
    begun + Updates(draft, steps[1..n + 1])
  }

  /** An open stream saw n updates, all but the last accepted, ending early only on a refused one; then it was ended with
      the original text. */
  predicate StreamedThrough(b: Behaviour, begun: seq<Call>, log: seq<Call>, message: OutboundMessage, draft: string,
                            steps: seq<string>, n: nat, r: Result<ChunkRecord, string>) {
    && n + 2 <= |steps|
    && log == Updated(begun, draft, steps, n) + [StreamEnd(draft, message.text)]
    && (forall k :: 0 < k < n ==> b.onUpdate(Updated(begun, draft, steps, k)).Ok?)
    && (n != |steps| - 2 ==> n != 0 && b.onUpdate(Updated(begun, draft, steps, n)).Err?)
    && r == Ended(b.onEnd(log), message, draft)
  }

  predicate SentPlainly(b: Behaviour, before: seq<Call>, log: seq<Call>, message: OutboundMessage, n: nat,
                        r: Result<ChunkRecord, string>) {
    RetriedUntil(b, before, message, n) && log == before + Copies(message, n) && r == Conclusion(b, before, message, n)
  }

  /** The whole exchange: a plain send if there is nothing to preview or the stream does not open, a stream otherwise. */
  predicate Exchange(b: Behaviour, start: seq<Call>, log: seq<Call>, message: OutboundMessage, steps: seq<string>, n: nat,
                     r: Result<ChunkRecord, string>) {
    if |steps| < 2 then SentPlainly(b, start, log, message, n, r)
    else
      var begun := start + [StreamStart(message.(text := steps[0]))];
      match b.onStart(begun)
      case Err(_) => SentPlainly(b, begun, log, message, n, r)
      case Ok(draft) => StreamedThrough(b, begun, log, message, draft, steps, n, r)
  }

  lemma UpdateStep(begun: seq<Call>, draft: string, steps: seq<string>, n: nat)
    requires n + 1 < |steps|
    ensures Updated(begun, draft, steps, n) + [StreamUpdate(draft, steps[n + 1])] == Updated(begun, draft, steps, n + 1)
  {
    var texts := steps[1..n + 2];
    assert texts[..|texts| - 1] == steps[1..n + 1];
  }

  /** The text is previewed in steps and always ended with the full original text, even after a failed update;
      a stream that cannot start, or a text too short to preview, falls back to a plain send. */
  method SendStreamedChunk(channel: ChannelPlugin, outbound: OutboundMessage)
    returns (r: Result<ChunkRecord, string>, steps: seq<string>, n: nat)
    modifies channel
    ensures Previews(outbound.text, steps)
    ensures Exchange(channel.behaviour, old(channel.log), channel.log, outbound, steps, n, r)
    ensures ChunkOutcome(channel.behaviour, old(channel.log), channel.log, outbound, r)
  {
    hide ChunkOutcome, RetriedUntil, Conclusion, Deliveries, Delivered, Trim, Previews;
    ghost var b, start := channel.behaviour, channel.log;
    steps := PseudoStreamSteps(outbound.text);
    PreviewsAreSteps(outbound.text, steps);
    n := 0;
    if |steps| < 2 {
      var delays;
      r, n, delays := SendOutboundChunk(channel, outbound);
      RetriedIsChunkOutcome(b, start, outbound, n);
      return;
    }
    var initial := outbound.(text := steps[0]);
    var handle := channel.DoStart(initial);
    ghost var begun := channel.log;
    DraftDeliversNothing(b, start, StreamStart(initial));
    if handle.Err? {
      var delays;
      r, n, delays := SendOutboundChunk(channel, outbound);
      RetriedIsChunkOutcome(b, begun, outbound, n);
      OutcomeAfterDraft(b, start, begun, channel.log, outbound, r);
      return;
    }
    var draft := handle.value;
    assert Updated(begun, draft, steps, 0) == begun;
    hide Updated;
    for i := 1 to |steps| - 1
      invariant n == i - 1
      invariant channel.log == Updated(begun, draft, steps, n)
      invariant start <= channel.log && Deliveries(b, channel.log) == Deliveries(b, start)
      invariant forall k :: 1 <= k <= n ==> b.onUpdate(Updated(begun, draft, steps, k)).Ok?
    {
      ghost var drafted := channel.log;
      var update := channel.DoUpdate(draft, steps[i]);
      DraftDeliversNothing(b, drafted, StreamUpdate(draft, steps[i]));
      UpdateStep(begun, draft, steps, n);
      n := n + 1;
      if update.Err? {
        r := EndStream(channel, outbound, draft, start);
        return;
      }
    }
    r := EndStream(channel, outbound, draft, start);
  }

  lemma DeliveredEarlier(b: Behaviour, earlier: nat, from: nat, log: seq<Call>, message: OutboundMessage, id: string)
    requires Delivered(b, from, log, message, id) && earlier <= from
    ensures Delivered(b, earlier, log, message, id)
  {
    hide Delivers;
  }

  lemma OutcomeAfterDraft(b: Behaviour, start: seq<Call>, drafted: seq<Call>, after: seq<Call>, message: OutboundMessage,
                          r: Result<ChunkRecord, string>)
    requires start <= drafted && Deliveries(b, drafted) == Deliveries(b, start)
    requires ChunkOutcome(b, drafted, after, message, r)
    ensures ChunkOutcome(b, start, after, message, r)
  {
    hide Delivered, Deliveries;
    if r.Ok? && r.value.status == SentStatus {
      DeliveredEarlier(b, |start|, |drafted|, after, message, r.value.platformMessageId.value);
    }
  }

  method EndStream(channel: ChannelPlugin, outbound: OutboundMessage, draft: string, ghost start: seq<Call>)
    returns (r: Result<ChunkRecord, string>)
    requires start <= channel.log && Deliveries(channel.behaviour, channel.log) == Deliveries(channel.behaviour, start)
    modifies channel
    ensures channel.log == old(channel.log) + [StreamEnd(draft, outbound.text)]
    ensures r == Ended(channel.behaviour.onEnd(channel.log), outbound, draft)
    ensures var reaction := channel.behaviour.onEnd(channel.log);
            r == if reaction.Ok? then Ok(ChunkRecord(outbound.text, SentStatus, Some(draft), 1, None, None)) else Err(reaction.error)
    ensures ChunkOutcome(channel.behaviour, start, channel.log, outbound, r)
  {
    hide Delivered, Deliveries;
    var ended := channel.DoEnd(draft, outbound.text);
    EndDelivers(channel.behaviour, |start|, old(channel.log), draft, outbound);
    match ended {
      case Err(error) => r := Err(error);
      case Ok(_) => r := Ok(ChunkRecord(outbound.text, SentStatus, Some(draft), 1, None, None));
    }
  }

  /** Only a channel that can both stream and edit previews a text. */
  predicate ShouldPseudoStream(capable: bool, outbound: OutboundMessage) {
    capable && outbound.attachments == [] && |outbound.text| >= PSEUDO_STREAM_MIN_CHARS
  }

  /** The calls that handling one piece made and what they amount to. */
  ghost predicate Handled(b: Behaviour, capable: bool, before: seq<Call>, after: seq<Call>, piece: OutboundMessage,
                          r: Result<ChunkRecord, string>) {
    if ShouldPseudoStream(capable, piece)
    then exists steps, n :: Previews(piece.text, steps) && Exchange(b, before, after, piece, steps, n, r)
    else exists n :: SentPlainly(b, before, after, piece, n, r)
  }

  lemma CopiesStart(message: OutboundMessage, n: nat)
    requires n > 0
    ensures Copies(message, n)[0] == Send(message)
  {
    if n > 1 { CopiesStart(message, n - 1); }
  }

  lemma UpdatesAfterStart(begun: seq<Call>, draft: string, steps: seq<string>, n: nat)
    requires n + 1 <= |steps|
    ensures begun <= Updated(begun, draft, steps, n)
  {
  }

  /** A stream is opened exactly for a text without attachments of at least 240 characters, also when trimmed, that has
      a preview at one or two thirds, on a channel that can stream and edit. */
  lemma StreamsExactly(b: Behaviour, capable: bool, before: seq<Call>, after: seq<Call>, piece: OutboundMessage,
                       r: Result<ChunkRecord, string>)
    requires Handled(b, capable, before, after, piece, r)
    ensures |before| < |after| && before <= after
    ensures var text := Trim(piece.text);
            after[|before|].StreamStart? <==>
              capable && piece.attachments == [] && |piece.text| >= 240 && |text| >= 240 &&
              (PreviewOf(text, |text| / 3).Some? || PreviewOf(text, 2 * |text| / 3).Some?)
  {
    hide PreviewOf, TrimStart, TrimEnd, Trim, RetriedUntil, Conclusion;
    if ShouldPseudoStream(capable, piece) {
      var steps, n :| Previews(piece.text, steps) && Exchange(b, before, after, piece, steps, n, r);
      StepsShowPreviews(piece.text, steps);
      if |steps| < 2 {
        PlainStart(b, before, after, piece, n, r);
      } else {
        var begun := before + [StreamStart(piece.(text := steps[0]))];
        assert begun <= after by {
          match b.onStart(begun)
          case Err(_) => PlainStart(b, begun, after, piece, n, r);
          case Ok(draft) => UpdatesAfterStart(begun, draft, steps, n);
        }
        assert after[|before|] == begun[|before|];
      }
    } else {
      var n :| SentPlainly(b, before, after, piece, n, r);
      PlainStart(b, before, after, piece, n, r);
    }
  }

  lemma PlainStart(b: Behaviour, before: seq<Call>, after: seq<Call>, piece: OutboundMessage, n: nat, r: Result<ChunkRecord, string>)
    requires SentPlainly(b, before, after, piece, n, r)
    ensures |before| < |after| && before <= after && after[|before|] == Send(piece)
  {
    hide Conclusion;
    assert n > 0;
    CopiesStart(piece, n);
  }

  lemma StepsShowPreviews(original: string, steps: seq<string>)
    requires Previews(original, steps)
    ensures var text := Trim(original);
            |steps| >= 2 <==>
              |text| >= 240 && (PreviewOf(text, |text| / 3).Some? || PreviewOf(text, 2 * |text| / 3).Some?)
  {
    hide PreviewOf, Trim;
    var text := Trim(original);
    if |text| >= 240 {
      var shown := steps[..|steps| - 1];
      var first, second := PreviewOf(text, |text| / 3), PreviewOf(text, 2 * |text| / 3);
      assert forall step :: step in shown <==> Some(step) == first || Some(step) == second;
      assert |shown| > 0 ==> shown[0] in shown;
      assert first.Some? ==> first.value in shown;
      assert second.Some? ==> second.value in shown;
      assert |shown| > 0 <==> first.Some? || second.Some?;
    }
  }

  // ----- a whole reply

  function TotalAttempts(chunks: seq<ChunkRecord>): nat {
    if chunks == [] then 0 else TotalAttempts(chunks[..|chunks| - 1]) + chunks[|chunks| - 1].attempts
  }

  function LastId(chunks: seq<ChunkRecord>): Option<string> {
    if chunks == [] then None
    else if chunks[|chunks| - 1].platformMessageId.Some? then chunks[|chunks| - 1].platformMessageId
    else LastId(chunks[..|chunks| - 1])
  }

  function LastHint(chunks: seq<ChunkRecord>): Option<nat> {
    if chunks == [] then None else chunks[|chunks| - 1].retryAfterSecs
  }

  function SentCount(chunks: seq<ChunkRecord>): nat {
    if chunks == [] then 0
    else SentCount(chunks[..|chunks| - 1]) + (if chunks[|chunks| - 1].status == SentStatus then 1 else 0)
  }

  lemma AppendChunk(chunks: seq<ChunkRecord>, chunk: ChunkRecord)
    ensures var more := chunks + [chunk];
            && TotalAttempts(more) == TotalAttempts(chunks) + chunk.attempts
            && LastId(more) == (if chunk.platformMessageId.Some? then chunk.platformMessageId else LastId(chunks))
            && LastHint(more) == chunk.retryAfterSecs
            && SentCount(more) == SentCount(chunks) + (if chunk.status == SentStatus then 1 else 0)
  {
    assert (chunks + [chunk])[..|chunks|] == chunks;
  }

  /** The calls between two positions of the log are those of one piece, with its outcome. */
  ghost predicate Segment(b: Behaviour, capable: bool, log: seq<Call>, from: nat, to: nat, piece: OutboundMessage,
                          r: Result<ChunkRecord, string>) {
    && from <= to <= |log|
    && Handled(b, capable, log[..from], log[..to], piece, r)
    && ChunkOutcome(b, log[..from], log[..to], piece, r)
  }

  /** The marks cut the calls of a log into one segment for each of the first pieces, in order. */
  ghost predicate Segmented(b: Behaviour, capable: bool, log: seq<Call>, marks: seq<nat>, pieces: seq<OutboundMessage>,
                            results: seq<Result<ChunkRecord, string>>) {
    && |marks| == |results| + 1 && |results| <= |pieces| && marks[|results|] == |log|
    && forall i :: 0 <= i < |results| ==> Segment(b, capable, log, marks[i], marks[i + 1], pieces[i], results[i])
  }

  function Oks(chunks: seq<ChunkRecord>): (results: seq<Result<ChunkRecord, string>>)
    ensures |results| == |chunks| && forall i :: 0 <= i < |chunks| ==> results[i] == Ok(chunks[i])
  {
    seq(|chunks|, i requires 0 <= i < |chunks| => Ok(chunks[i]))
  }

  predicate AllSent(chunks: seq<ChunkRecord>) {
    forall i :: 0 <= i < |chunks| ==> chunks[i].status == SentStatus
  }

  /** A finished record: the chunks cover a prefix of the pieces, all but the last sent; it is sent exactly when all
      pieces are; counters and identifiers are those of its chunks. */
  predicate Accounts(record: DeliveryRecord, pieces: seq<OutboundMessage>) {
    var chunks := record.chunks;
    && 1 <= |chunks| <= |pieces| && AllSent(chunks[..|chunks| - 1])
    && record.status == chunks[|chunks| - 1].status
    && (record.status == SentStatus <==> |chunks| == |pieces| && AllSent(chunks))
    && record.attempts == TotalAttempts(chunks)
    && record.platformMessageId == LastId(chunks)
    && record.retryAfterSecs == LastHint(chunks)
    && record.error == chunks[|chunks| - 1].error
  }

  /** The identifier of a whole reply is that of its last chunk that has one. */
  lemma {:induction false} LastIdIs(chunks: seq<ChunkRecord>)
    ensures LastId(chunks).None? <==> forall i :: 0 <= i < |chunks| ==> chunks[i].platformMessageId.None?
    ensures forall i :: 0 <= i < |chunks| && chunks[i].platformMessageId.Some? &&
                        (forall j :: i < j < |chunks| ==> chunks[j].platformMessageId.None?) ==>
                          LastId(chunks) == chunks[i].platformMessageId
  {
    if chunks == [] {
    } else {
      var n := |chunks| - 1;
      var front := chunks[..n];
      LastIdIs(front);
      assert forall i :: 0 <= i < n ==> front[i] == chunks[i];
    }
  }

  lemma SegmentStays(b: Behaviour, capable: bool, log: seq<Call>, after: seq<Call>, from: nat, to: nat,
                     piece: OutboundMessage, r: Result<ChunkRecord, string>)
    requires Segment(b, capable, log, from, to, piece, r) && log <= after
    ensures Segment(b, capable, after, from, to, piece, r)
  {
    hide Handled, ChunkOutcome;
    assert after[..from] == log[..from] && after[..to] == log[..to];
  }

  lemma SegmentNow(b: Behaviour, capable: bool, log: seq<Call>, after: seq<Call>, piece: OutboundMessage,
                   r: Result<ChunkRecord, string>)
    requires log <= after && Handled(b, capable, log, after, piece, r) && ChunkOutcome(b, log, after, piece, r)
    ensures Segment(b, capable, after, |log|, |after|, piece, r)
  {
    hide Handled, ChunkOutcome;
    assert after[..|log|] == log && after[..|after|] == after;
  }

  lemma SegmentedMarks(b: Behaviour, capable: bool, log: seq<Call>, marks: seq<nat>, pieces: seq<OutboundMessage>,
                       results: seq<Result<ChunkRecord, string>>)
    requires Segmented(b, capable, log, marks, pieces, results)
    ensures |marks| == |results| + 1
  {
  }

  lemma SegmentedNext(b: Behaviour, capable: bool, log: seq<Call>, after: seq<Call>, marks: seq<nat>,
                      pieces: seq<OutboundMessage>, results: seq<Result<ChunkRecord, string>>, r: Result<ChunkRecord, string>)
    requires Segmented(b, capable, log, marks, pieces, results) && |results| < |pieces| && log <= after
    requires Handled(b, capable, log, after, pieces[|results|], r) && ChunkOutcome(b, log, after, pieces[|results|], r)
    ensures Segmented(b, capable, after, marks + [|after|], pieces, results + [r])
  {
    hide Handled, ChunkOutcome, Segment;
    var moreMarks, more := marks + [|after|], results + [r];
    SegmentNow(b, capable, log, after, pieces[|results|], r);
    forall i | 0 <= i < |more| ensures Segment(b, capable, after, moreMarks[i], moreMarks[i + 1], pieces[i], more[i]) {
      if i < |results| { SegmentStays(b, capable, log, after, marks[i], marks[i + 1], pieces[i], results[i]); }
    }
  }

  /** A delivery in progress: all pieces so far were sent, each delivered once. */
  ghost predicate Underway(b: Behaviour, capable: bool, start: seq<Call>, log: seq<Call>, marks: seq<nat>,
                           pieces: seq<OutboundMessage>, chunks: seq<ChunkRecord>,
                           attempts: nat, id: Option<string>, hint: Option<nat>) {
    && start <= log && Segmented(b, capable, log, marks, pieces, Oks(chunks)) && marks[0] == |start|
    && AllSent(chunks) && SentCount(chunks) == |chunks|
    && Deliveries(b, log) == Deliveries(b, start) + |chunks|
    && attempts == TotalAttempts(chunks) && id == LastId(chunks) && hint == LastHint(chunks)
    && (chunks != [] ==> chunks[|chunks| - 1].error == None)
  }

  lemma UnderwayStarts(b: Behaviour, capable: bool, start: seq<Call>, pieces: seq<OutboundMessage>)
    ensures Underway(b, capable, start, start, [|start|], pieces, [], 0, None, None)
  {
  }

  lemma UnderwayMeans(b: Behaviour, capable: bool, start: seq<Call>, log: seq<Call>, marks: seq<nat>,
                      pieces: seq<OutboundMessage>, chunks: seq<ChunkRecord>,
                      attempts: nat, id: Option<string>, hint: Option<nat>)
    requires Underway(b, capable, start, log, marks, pieces, chunks, attempts, id, hint)
    ensures start <= log && Segmented(b, capable, log, marks, pieces, Oks(chunks)) && marks[0] == |start|
    ensures AllSent(chunks) && Deliveries(b, log) == Deliveries(b, start) + |chunks| && SentCount(chunks) == |chunks|
  {
  }

  /** One more chunk either keeps the delivery going or closes its account. */
  lemma UnderwayNext(b: Behaviour, capable: bool, start: seq<Call>, log: seq<Call>, after: seq<Call>, marks: seq<nat>,
                     pieces: seq<OutboundMessage>, chunks: seq<ChunkRecord>, attempts: nat, id: Option<string>,
                     hint: Option<nat>, chunk: ChunkRecord)
    requires Underway(b, capable, start, log, marks, pieces, chunks, attempts, id, hint) && |chunks| < |pieces|
    requires Handled(b, capable, log, after, pieces[|chunks|], Ok(chunk))
    requires ChunkOutcome(b, log, after, pieces[|chunks|], Ok(chunk))
    ensures var more, total, moreMarks := chunks + [chunk], attempts + chunk.attempts, marks + [|after|];
            var newId := if chunk.platformMessageId.Some? then chunk.platformMessageId else id;
            && start <= after && Segmented(b, capable, after, moreMarks, pieces, Oks(more)) && moreMarks[0] == |start|
            && Deliveries(b, after) == Deliveries(b, start) + SentCount(more)
            && (chunk.status == SentStatus ==>
                  Underway(b, capable, start, after, moreMarks, pieces, more, total, newId, chunk.retryAfterSecs))
            && (chunk.status != SentStatus ==>
                  Accounts(DeliveryRecord(chunk.status, newId, total, chunk.retryAfterSecs, chunk.error, more), pieces))
  {
    hide Deliveries, Delivered, Handled, Segmented;
    SegmentedMarks(b, capable, log, marks, pieces, Oks(chunks));
    SegmentedNext(b, capable, log, after, marks, pieces, Oks(chunks), Ok(chunk));
    assert Oks(chunks) + [Ok(chunk)] == Oks(chunks + [chunk]);
    AppendChunk(chunks, chunk);
    hide TotalAttempts, LastId, SentCount, LastHint;
    assert (chunks + [chunk])[..|chunks|] == chunks;
  }

  lemma OutcomeExtends(b: Behaviour, before: seq<Call>, after: seq<Call>, message: OutboundMessage,
                       r: Result<ChunkRecord, string>)
    requires ChunkOutcome(b, before, after, message, r)
    ensures before <= after && (r.Err? ==> Deliveries(b, after) == Deliveries(b, before))
  {
    hide Deliveries, Delivered;
  }

  lemma UnderwayEnds(b: Behaviour, capable: bool, start: seq<Call>, log: seq<Call>, marks: seq<nat>,
                     pieces: seq<OutboundMessage>, chunks: seq<ChunkRecord>,
                     attempts: nat, id: Option<string>, hint: Option<nat>)
    requires Underway(b, capable, start, log, marks, pieces, chunks, attempts, id, hint) && |chunks| == |pieces| > 0
    ensures Accounts(DeliveryRecord(SentStatus, id, attempts, hint, None, chunks), pieces)
  {
    hide Deliveries, Segmented, TotalAttempts, LastId, SentCount, LastHint;
  }

  method SendPiece(channel: ChannelPlugin, piece: OutboundMessage) returns (r: Result<ChunkRecord, string>)
    modifies channel
    ensures Handled(channel.behaviour, channel.streaming && channel.edit, old(channel.log), channel.log, piece, r)
    ensures ChunkOutcome(channel.behaviour, old(channel.log), channel.log, piece, r)
  {
    hide ChunkOutcome, RetriedUntil, Conclusion, Previews, Exchange;
    if ShouldPseudoStream(channel.streaming && channel.edit, piece) {
      var steps, n;
      r, steps, n := SendStreamedChunk(channel, piece);
    } else {
      var n, delays;
      r, n, delays := SendOutboundChunk(channel, piece);
      RetriedIsChunkOutcome(channel.behaviour, old(channel.log), piece, n);
      assert SentPlainly(channel.behaviour, old(channel.log), channel.log, piece, n, r);
    }
  }

  /** Every piece is sent in order until one is not: the calls fall into one segment for each piece handled, and a
      segment delivers its piece once if that piece is recorded as sent and nothing otherwise. An error of the channel
      itself ends the delivery without a record; the pieces before it were all sent. */
  method DeliverOutboundMessage(channel: ChannelPlugin, outbound: OutboundMessage)
    returns (r: Result<DeliveryRecord, string>, pieces: seq<OutboundMessage>,
             ghost marks: seq<nat>, ghost results: seq<Result<ChunkRecord, string>>)
    modifies channel
    ensures Addressed(outbound, pieces) && Flatten(AttachmentsOf(pieces)) == outbound.attachments
    ensures AllNonWhitespace(TextsOf(pieces)) == NonWhitespace(outbound.text)
    ensures old(channel.log) <= channel.log
    ensures Segmented(channel.behaviour, channel.streaming && channel.edit, channel.log, marks, pieces, results)
    ensures marks[0] == |old(channel.log)|
    ensures r.Ok? ==> Accounts(r.value, pieces) && results == Oks(r.value.chunks)
    ensures r.Ok? ==> Deliveries(channel.behaviour, channel.log)
                        == Deliveries(channel.behaviour, old(channel.log)) + SentCount(r.value.chunks)
    ensures r.Err? ==> exists sent :: AllSent(sent) && results == Oks(sent) + [Err(r.error)] &&
                         Deliveries(channel.behaviour, channel.log)
                           == Deliveries(channel.behaviour, old(channel.log)) + |sent|
  {
    hide Deliveries, ChunkOutcome, Handled, Segmented, TotalAttempts, LastId, SentCount, Underway, Accounts, AllSent,
         Addressed, AttachmentsOf, TextsOf, AllNonWhitespace, NonWhitespace;
    ghost var b, start := channel.behaviour, channel.log;
    ghost var capable := channel.streaming && channel.edit;
    pieces := SplitOutboundMessage(outbound);
    assert pieces != [] by { AddressedIsNotEmpty(outbound, pieces); }
    var chunks: seq<ChunkRecord> := [];
    var totalAttempts: nat := 0;
    var lastPlatformMessageId: Option<string> := None;
    var lastRetryAfter: Option<nat> := None;
    marks := [|start|];
    UnderwayStarts(b, capable, start, pieces);
    for index := 0 to |pieces|
      invariant |chunks| == index
      invariant Underway(b, capable, start, channel.log, marks, pieces, chunks,
                         totalAttempts, lastPlatformMessageId, lastRetryAfter)
    {
      var piece := pieces[index];
      ghost var before := channel.log;
      var sent := SendPiece(channel, piece);
      OutcomeExtends(b, before, channel.log, piece, sent);
      if sent.Err? {
        UnderwayMeans(b, capable, start, before, marks, pieces, chunks, totalAttempts, lastPlatformMessageId, lastRetryAfter);
        SegmentedNext(b, capable, before, channel.log, marks, pieces, Oks(chunks), Err(sent.error));
        SegmentedMarks(b, capable, before, marks, pieces, Oks(chunks));
        return Err(sent.error), pieces, marks + [|channel.log|], Oks(chunks) + [Err(sent.error)];
      }
      var chunk := sent.value;
      UnderwayNext(b, capable, start, before, channel.log, marks, pieces, chunks,
                   totalAttempts, lastPlatformMessageId, lastRetryAfter, chunk);
      totalAttempts := totalAttempts + chunk.attempts;
      if chunk.platformMessageId.Some? {
        lastPlatformMessageId := chunk.platformMessageId;
      }
      lastRetryAfter := chunk.retryAfterSecs;
      chunks := chunks + [chunk];
      marks := marks + [|channel.log|];
      if chunk.status != SentStatus {
        return Ok(DeliveryRecord(chunk.status, lastPlatformMessageId, totalAttempts, lastRetryAfter, chunk.error, chunks)),
               pieces, marks, Oks(chunks);
      }
    }
    UnderwayMeans(b, capable, start, channel.log, marks, pieces, chunks, totalAttempts, lastPlatformMessageId, lastRetryAfter);
    UnderwayEnds(b, capable, start, channel.log, marks, pieces, chunks, totalAttempts, lastPlatformMessageId, lastRetryAfter);
    return Ok(DeliveryRecord(SentStatus, lastPlatformMessageId, totalAttempts, lastRetryAfter, None, chunks)),
           pieces, marks, Oks(chunks);
  }

  lemma AddressedIsNotEmpty(outbound: OutboundMessage, pieces: seq<OutboundMessage>)
    requires Addressed(outbound, pieces)
    ensures pieces != []
  {
  }
}
