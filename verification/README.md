# FrankClaw: verified model of the message path, the guards and the stores

This Dafny project models the stateful core of FrankClaw, a chat gateway for language-model agents, and proves
what that core keeps over unbounded runs. `dafny verify dfyconfig.toml` checks all of it.

| file | what it models |
|---|---|
| `Basics.dfy`, `Text.dfy`, `Decimal.dfy` | instants, set sizes, rounding-down division, trimming, searching, UTF-8 lengths, decimal text |
| `SignalSse.dfy` | the incremental event-stream parser of the Signal channel, and the wire format it reads |
| `TextSplit.dfy`, `Attachments.dfy`, `OutboundSplit.dfy` | cutting a reply into pieces: words, attachment batches, whole messages, with the Telegram adapter's own checks |
| `Delivery.dfy` | previews, an adversarial channel, sending with retries, streaming with fallback, delivering a whole reply |
| `Discord.dfy` | text normalisation in the adapters, and what the Discord adapter posts, re-split included |
| `RateLimit.dfy` | the authentication rate limiter, `authenticate`, and whole runs of both |
| `Cron.dfy` | the cron tick loop, completions and table synchronisation |
| `Acp.dfy` | the agent-protocol session table: time to live, least-recently-used eviction, creation rate |
| `ApiKeys.dfy` | rotation and backoff of API keys |
| `Links.dfy` | markdown-link stripping and address extraction |
| `Health.dfy` | the channel-restart limiter |
| `Job.dfy` | the job lifecycle with bounded history and bounded repairs |
| `Canvas.dfy` | the canvas store with revision-checked patches |
| `ThreadAddress.dfy` | thread addresses of Telegram and Slack |

Code that updates objects is a class whose methods are proved against functions on values; the whole-run theorems
(modules `AuthRuns`, `CronRuns`, `AcpRuns`, `ApiKeyRuns`, and the second halves of `Health`, `Job` and `Canvas`) are
about those functions. Every clock reading is a parameter. A clock is assumed monotone only where a precondition says
so: non-decreasing in the runs of the limiter and the session table, increasing between selections where a mark of the
key rotator is to hit the key selected last; fairness of the rotator only needs readings later than the last use of the
key in question, and the restart limiter and the cron runs need less. A channel, and the Discord server, is an arbitrary
function of everything it was sent so far. Text is a sequence of Unicode scalar values, whitespace is the Unicode
White_Space property, and byte lengths are computed where the code compares bytes.

## What the proofs found

- Without a success of the address in between, the number of its failed authentications in any interval of one window
  is at most max(M, 2M - 2) plus the number of lockouts that fit into a window, M being the attempt limit. For a lockout longer
  than the window and M of at least 2 the bound 2M - 2 is reached. With a zero lockout there is no bound.
- `cleanup` never changes an answer. It can change whether a later failure records a lock, but only with a zero
  lockout, when such a lock is never in force.
- `finish` of the event-stream parser does not flush: a non-blank partial line makes it drop the pending event
  (crates/frankclaw-channels/src/signal.rs:260-265). A missing final blank line is harmless.
- The event-stream format is lossless exactly for events that are not empty, have one-line `event` and `id`, and no
  field line ending in a carriage return.
- `split_text` keeps all words whole exactly when each word fits into the limit.
- `split_text` never uses more chunks than any word-keeping partition into slices of at most one character less than
  the limit. For slices up to the limit itself it uses the fewest unless, at some cut, whitespace follows the first
  limit characters: the word that would fill the limit exactly is moved on. That can cost a chunk ("aa bb cc dd" at 5)
  or not ("aa bb cc" at 5).
- The Discord adapter normalises each chunk of an over-long text a second time. The visible characters of the normal
  form survive exactly if no chunk begins with a reasoning section before a body; a chunk that does loses the section,
  even where the whole text has none. The text of a message with attachments is never cut.
- The newline normalisation is not repeated: two carriage returns before a newline leave one of them.
- A Slack address round-trips exactly when the channel id does not contain `:thread:`, with a colon appended to the id
  if the address is threaded: the id `C:thread` comes back without a thread and not with one.
- In reachable states the hourly restart test never refuses: the limiter is equivalent to the ten-minute cooldown.
- A cron job never has two active runs and never fires an occurrence twice, over any interleaving of ticks,
  completions, synchronisations, additions and removals, if every run log that comes in with the job from outside
  guards it: the log is marked running, or no run is active and it starts at or after the last fired occurrence (a job
  that never fired needs no log). For every addition or synchronisation that violates this some safe continuation
  breaks the property; a job re-added without its log after it fired is such a case.
- A job that a caller moves from Stuck back to InProgress directly, without `attempt_recovery`, can run for ever.
- The block limit of a canvas holds throughout a run exactly if every accepted whole-document write respects it, since
  only patches enforce it. An old revision expectation can only succeed again after a clear, namely exactly when it
  equals the number of writes since.
- With ticks at most a minute apart no cron occurrence is missed that is alone in its minute and finds the job ready.
- The cooldown ladder of an API key is only climbed by several failure marks between two selections: a caller that marks
  each failure right after its own selection stays on the first rung, because an expired cooldown clears the record
  before the key is selected again.
- The key rotator is fair to a key under any clock whose readings are later than the key's own last use. While the
  clock stands at that use, an available key is never returned again exactly if an available key has a smaller index.

## Model

| member | source | states |
|---|---|---|
| SignalSse.SignalSseParser.Push | crates/frankclaw-channels/src/signal.rs:218-258 | the loop over complete lines returns the events and leaves the buffer and pending event of the line-by-line specification, with no complete line left |
| SignalSse.SignalSseParser.TakeCurrent | crates/frankclaw-channels/src/signal.rs:267-275 | yields the pending event if any field is set, and always clears it |
| SignalSse.SignalSseParser.Finish | crates/frankclaw-channels/src/signal.rs:260-265 | yields the pending event exactly when the buffered rest is blank; otherwise it is lost with the events of the inner push |
| SignalSse.ChunkingIndependence | crates/frankclaw-channels/src/signal.rs:217-258 | however a stream is cut into chunks, the events and the final parser are those of one push of the whole text |
| SignalSse.SerializedEvents | crates/frankclaw-channels/src/signal.rs:217-275 | any list of framable events written to the wire is parsed back with each field line shorn of one trailing carriage return |
| SignalSse.ReturnsOnlyFramable | crates/frankclaw-channels/src/signal.rs:217-275 | for any input every returned event is non-empty with one-line event and id |
| SignalSse.RoundTrip | crates/frankclaw-channels/src/signal.rs:217-275 | in any chunking, writing and parsing returns the same list if and only if every event is framable and has no line-final carriage return |
| SignalSse.MissingBlankLineIsForgiven | crates/frankclaw-channels/src/signal.rs:260-275 | after any framable events, a last one whose closing blank line never arrives is still yielded at the end of the stream |
| SignalSse.CutLineIsLost | crates/frankclaw-channels/src/signal.rs:260-265 | a stream that ends inside a non-blank line yields nothing at its end |
| SignalSse.FieldWithoutSpace | crates/frankclaw-channels/src/signal.rs:241-254 | a field line without a space after the colon sets event or id to all that follows, or adds it to the data as a further line |
| SignalSse.FieldWithSpace | crates/frankclaw-channels/src/signal.rs:241-254 | one space after the colon is dropped, and only one |
| SignalSse.FieldWithoutColon | crates/frankclaw-channels/src/signal.rs:241-254 | a field line without a colon carries the empty value |
| SignalSse.OtherLinesAreIgnored | crates/frankclaw-channels/src/signal.rs:237-255 | comments and unknown fields change nothing |
| SignalSse.CrLfEndsLine | crates/frankclaw-channels/src/signal.rs:223-228 | a carriage return before the newline belongs to the line end |
| SignalSse.BlankLineDispatches | crates/frankclaw-channels/src/signal.rs:230-235 | a blank line yields the pending event exactly if a field of it is set, and clears it |
| TextSplit.ScanForSplit | crates/frankclaw-gateway/src/delivery.rs:539-553 | the scan finds the end of the first maxChars characters and the last whitespace before it |
| TextSplit.Split | crates/frankclaw-gateway/src/delivery.rs:529-577 | for every text and limit: blank text or zero limit stays whole; else non-empty trimmed chunks within the limit; cut at the last whitespace in reach each time; visible characters kept in order; words kept whole if and only if each fits |
| TextSplit.CutIsUnique | crates/frankclaw-gateway/src/delivery.rs:539-555 | the rule "last whitespace after the first character, else the limit" determines each cut |
| TextSplit.CutIsLate | crates/frankclaw-gateway/src/delivery.rs:548-555 | a cut at whitespace comes so late that the next word would reach the limit |
| TextSplit.PartitionKeepsWords | crates/frankclaw-gateway/src/delivery.rs:529-577 | a partition into slices, as used in the next rows, contains exactly the words of the text in order and respects its limit |
| TextSplit.PiecesPartition | crates/frankclaw-gateway/src/delivery.rs:534-570 | the chunks form such a partition within the limit if and only if every word fits |
| TextSplit.FewestBelowTheLimit | crates/frankclaw-gateway/src/delivery.rs:534-570 | for every text and limit no word-keeping partition into slices of at most the limit less one has fewer parts |
| TextSplit.FewestWithoutExactFit | crates/frankclaw-gateway/src/delivery.rs:534-570 | no partition within the limit itself has fewer parts, if no remainder longer than the limit has whitespace right at it |
| TextSplit.NotAlwaysFewest | crates/frankclaw-gateway/src/delivery.rs:539-555 | the condition cannot be dropped: a text that violates it is cut into three chunks although two slices within the limit hold it |
| TextSplit.ExactFitCanBeHarmless | crates/frankclaw-gateway/src/delivery.rs:539-555 | the condition is sufficient only: a text that violates it is still cut into the fewest chunks |
| TelegramAdapter.BuildMediaGroupItems | crates/frankclaw-channels/src/telegram.rs:646-706 | accepts exactly groups of 2 to 10 of one kind, and lists each item in order with the caption on the first |
| TelegramBatches.SplitTelegramAttachmentBatches | crates/frankclaw-gateway/src/delivery.rs:453-482 | batches keep all attachments in order, are non-empty, of one kind and at most 10, and no such partition has fewer |
| GreedyBatches.GreedyIsMinimal | crates/frankclaw-gateway/src/delivery.rs:453-482 | for any items and kinds, cutting the longest valid batch each time is optimal among all contiguous partitions |
| GreedyBatches.GreedyIsMonotone | crates/frankclaw-gateway/src/delivery.rs:460-475 | dropping items from the front never needs more batches |
| TelegramBatches.KindsAgree | crates/frankclaw-gateway/src/delivery.rs:507-516 | two attachments are alike for the gateway if and only if they are alike for the adapter |
| TelegramBatches.KindsCorrespond | crates/frankclaw-channels/src/outbound_media.rs:14-25 | the adapter's classification and the gateway's single out the same visual and audio types |
| TelegramBatches.SendBatch | crates/frankclaw-channels/src/telegram.rs:652-673 | the adapter never rejects a gateway batch of two or more |
| TelegramBatches.ValidIsAcceptable | crates/frankclaw-channels/src/telegram.rs:652-673 | a gateway batch is valid if and only if it is a single attachment or two to ten that the adapter accepts as a group |
| TelegramBatches.MimeKinds | crates/frankclaw-gateway/src/delivery.rs:507-516 | image and video types are visual and audio types audio, whatever the subtype |
| OutboundSplit.SplitAttachmentVec | crates/frankclaw-gateway/src/delivery.rs:484-498 | consecutive non-empty slices that concatenate to the input, all but the last of exactly the batch size and the last no larger; none for size zero |
| OutboundSplit.SplitAttachmentBatches | crates/frankclaw-gateway/src/delivery.rs:419-451 | same addressee on all messages, text and reply only on the first, attachments conserved in order; fewest valid batches for Telegram, one each for WhatsApp |
| OutboundSplit.SplitOutboundMessage | crates/frankclaw-gateway/src/delivery.rs:390-417 | attachments and visible text conserved in order; a text message is cut into the pieces of `split_text` exactly if it exceeds its channel's limit and is not blank, words whole if and only if they fit |
| OutboundSplit.ChannelLimits | crates/frankclaw-gateway/src/delivery.rs:518-527 | the five channels with a limit and their limits |
| Preview.PreviewSlice | crates/frankclaw-gateway/src/delivery.rs:688-712 | the preview is cut at the first boundary at or after the target, or is none |
| Preview.PreviewIsPrefix | crates/frankclaw-gateway/src/delivery.rs:688-712 | a preview of a trimmed text is a proper, non-empty, trimmed prefix |
| Preview.PreviewMonotone | crates/frankclaw-gateway/src/delivery.rs:673-681 | a later target never gives a shorter preview |
| Preview.PreviewIsFirstBoundary | crates/frankclaw-gateway/src/delivery.rs:688-712 | a preview is the trimmed text up to the first whitespace or punctuation at or after the target, unless that is blank or everything |
| Preview.PseudoStreamSteps | crates/frankclaw-gateway/src/delivery.rs:666-686 | one to three strictly growing prefixes ending in the trimmed text; those before the last are exactly the previews at one and two thirds of a text of at least 240 characters |
| Delivery.CapHidesSaturation | crates/frankclaw-gateway/src/delivery.rs:608-610 | saturating 64-bit arithmetic never shows below the 30-second cap |
| Delivery.BackoffDoubles | crates/frankclaw-gateway/src/delivery.rs:596-611 | without a server hint the delay starts at the channel's base and doubles up to the cap |
| Delivery.Waits | crates/frankclaw-gateway/src/delivery.rs:596-611 | the delays of each channel in seconds, and that a hint is obeyed within 1 to 30 s |
| Delivery.SendOutboundChunk | crates/frankclaw-gateway/src/delivery.rs:149-269 | for every channel behaviour exactly `attempts` identical sends, all but the last retryable, the last conclusive or the third or fourth; the record reports the last outcome; each delay is the prescribed one within 1 to 30 s |
| Delivery.LastAttempt | crates/frankclaw-gateway/src/delivery.rs:589-652 | which send was the last: a success always, a rate limit only at the attempt limit (four on Slack, Discord and WhatsApp, else three), a failure or error if its reason names one of eleven permanent conditions, continued below the limit if it is blank or names one of nine transient ones, and otherwise final on those three channels alone |
| Delivery.Reported | crates/frankclaw-gateway/src/delivery.rs:149-269 | the report is that of the last send, with the hint of the latest rate limit on a success |
| Delivery.RetriedDeliversOnce | crates/frankclaw-gateway/src/delivery.rs:149-269 | a retried send puts the message in front of the recipient exactly once if reported sent, else never |
| Delivery.SendStreamedChunk | crates/frankclaw-gateway/src/delivery.rs:271-354 | the whole exchange with the channel; a chunk reported sent ended with a successful stream end of the full original text, even after a failed update, or with a successful plain send, exactly once |
| Delivery.EndStream | crates/frankclaw-gateway/src/delivery.rs:317-353 | ending a stream delivers the original text once if accepted and passes the channel's error on otherwise |
| Delivery.StreamsExactly | crates/frankclaw-gateway/src/delivery.rs:579-587 | a stream is opened if and only if the channel can stream and edit and the text, of at least 240 characters and without attachments, has a preview |
| Delivery.DeliverOutboundMessage | crates/frankclaw-gateway/src/delivery.rs:66-115 | the calls of the delivery fall into one segment for each piece handled, in order; each segment is the plain or streamed exchange of that piece, delivers it exactly once if it is recorded as sent and nothing otherwise; the record covers a prefix of the pieces with all but the last sent, is sent if and only if all pieces are, sums their attempts, carries the last identifier and hint; on a channel error all earlier pieces were sent and the failing one delivered nothing |
| Delivery.UnderwayNext | crates/frankclaw-gateway/src/delivery.rs:80-105 | each further chunk adds its segment and either keeps all accounts of the running delivery or closes them |
| Delivery.LastIdIs | crates/frankclaw-gateway/src/delivery.rs:84-91 | the identifier of a whole reply is that of its last chunk that has one |
| OutboundText.NormalizeWhatsAppText | crates/frankclaw-channels/src/outbound_text.rs:43-66 | the index loop computes the left-to-right halving of doubled markers |
| OutboundText.WhatsAppHalvesRuns | crates/frankclaw-channels/src/outbound_text.rs:43-66 | a maximal run of n asterisks or tildes becomes one of n/2 rounded up |
| OutboundText.CrLfSurvives | crates/frankclaw-channels/src/outbound_text.rs:12 | the newline replacement leaves a carriage return before a newline if and only if the text had two of them there |
| OutboundText.NormalizeNeverLengthens | crates/frankclaw-channels/src/outbound_text.rs:7-41 | normalisation never lengthens any text, in either flavour, and empties a blank one |
| OutboundText.BodyStart | crates/frankclaw-channels/src/outbound_text.rs:31-35 | finds the first non-blank line right after a blank one, if any |
| OutboundText.SectionIsDropped | crates/frankclaw-channels/src/outbound_text.rs:21-41 | of a text that begins with the marker exactly the lines from the first non-blank one after a blank one are kept, or all of it if there is none |
| OutboundText.WhatsAppEmphasis | crates/frankclaw-channels/src/outbound_text.rs:7-19 | a normal form set off by n markers on either side is set off by n/2 rounded up in the WhatsApp flavour |
| OutboundText.WhatsAppPlain | crates/frankclaw-channels/src/outbound_text.rs:7-19 | the flavours agree on texts without markers |
| OutboundText.NormalFormShows | crates/frankclaw-channels/src/outbound_text.rs:7-41 | normalising keeps all visible characters unless a reasoning section before a body is stripped, and then shows strictly fewer |
| Discord.ChunkDiscordText | crates/frankclaw-channels/src/discord.rs:605-634 | cuts after the last newline in reach, else at the limit, again and again; lossless under concatenation and within the limit |
| Discord.ChunkEnd | crates/frankclaw-channels/src/discord.rs:622-627 | a cut follows a newline with none between it and the limit, or is at the limit with no newline before it |
| Discord.Send | crates/frankclaw-channels/src/discord.rs:285-311 | for every server the posts are a prefix of the planned ones, one per chunk with only the first a reply, up to the first that is not accepted, whose outcome is returned; they go to the thread, or to the recipient if there is none |
| Discord.PostsFit | crates/frankclaw-channels/src/discord.rs:285-311 | every post has at most 2000 characters if and only if the message has no attachments or a short enough normal form, and there is one post exactly unless a cut is needed |
| Discord.VisibleTextSurvives | crates/frankclaw-channels/src/discord.rs:515-517 | the posts show all visible characters of the normal form if and only if it is not re-split or no chunk begins with a reasoning section before a body |
| Discord.CutSectionIsLost | crates/frankclaw-channels/src/discord.rs:285-311 | a concrete text, itself in normal form, that loses a section because a cut falls before it |
| Discord.GatewayPieces | crates/frankclaw-channels/src/discord.rs:285-289 | each piece of a text message cut by the gateway is one post within the limit, and all visible characters are shown if and only if no piece begins with a reasoning section before a body |
| RateLimit.AuthRateLimiter.constructor | crates/frankclaw-gateway/src/rate_limit.rs:25-30 | starts with no entries |
| RateLimit.AuthRateLimiter.IsLocked | crates/frankclaw-gateway/src/rate_limit.rs:33-43 | answers exactly while a lock is in force, with a remaining time that never underflows |
| RateLimit.AuthRateLimiter.RecordFailure | crates/frankclaw-gateway/src/rate_limit.rs:46-71 | replaces exactly the address's entry by its successor |
| RateLimit.AuthRateLimiter.RecordSuccess | crates/frankclaw-gateway/src/rate_limit.rs:74-77 | removes exactly the address's entry |
| RateLimit.AuthRateLimiter.Cleanup | crates/frankclaw-gateway/src/rate_limit.rs:80-85 | keeps exactly the entries younger than window plus lockout |
| Auth.Authenticate | crates/frankclaw-gateway/src/auth.rs:32-112 | turned away exactly while a lock is in force, with the whole seconds left and no record; else admitted if and only if no authentication is asked for or the credential is of the mode's kind and genuine, as editor exactly behind a trusted proxy; a wrong value of the right kind fails and counts, a missing token is a misconfiguration, any other kind is asked to authenticate; success clears the entry |
| AuthRuns.RunsAreSound | crates/frankclaw-gateway/src/rate_limit.rs:46-71 | in every reachable table an entry is locked if and only if it reached the limit, and no lock outlives window plus lockout |
| AuthRuns.CleanupBisimulation | crates/frankclaw-gateway/src/rate_limit.rs:80-85 | with a positive lockout the cleaned table and the never-cleaned one answer every further run alike |
| AuthRuns.CleanupIsInvisible | crates/frankclaw-gateway/src/rate_limit.rs:80-85 | cleanup calls anywhere in a run change no outcome, for every configuration |
| AuthRuns.LockDecisionNeedsLockout | crates/frankclaw-gateway/src/rate_limit.rs:58-69 | the next failure of a stale entry sets the same lock with a positive lockout; with a zero lockout a concrete entry differs |
| AuthRuns.LockHolds | crates/frankclaw-gateway/src/auth.rs:38-45 | until a lock expires every attempt of its address is turned away and its entry stands, through any events and past the window's end |
| AuthRuns.FailuresPerWindow | crates/frankclaw-gateway/src/auth.rs:38-109 | without a success of the address, any interval of one window holds at most max(M, 2M-2) plus window/lockout failures |
| AuthRuns.BoundIsReached | crates/frankclaw-gateway/src/rate_limit.rs:58-69 | for every limit of at least two and lockout longer than the window a run attains the bound |
| AuthRuns.FailuresFillWindow | crates/frankclaw-gateway/src/rate_limit.rs:46-71 | failures within one window are counted one by one, none locks before the limit, and the one that reaches it locks for exactly the lockout |
| AuthRuns.WindowOpens | crates/frankclaw-gateway/src/rate_limit.rs:51-64 | a failure without an entry, or after the window and out of lock, opens a new window |
| AuthRuns.NoLockoutNoBound | crates/frankclaw-gateway/src/rate_limit.rs:66-69 | with a zero lockout any number of failures is let through at one instant |
| Cron.CronService.Tick | crates/frankclaw-cron/src/service.rs:93-146 | a job is marked and returned if and only if it is enabled, its schedule parses, its first occurrence after the last sixty seconds began has come, and its log is neither running nor begun since; each once, and no other is changed |
| Cron.CronService.Fires | crates/frankclaw-cron/src/service.rs:100-134 | the guards of the tick body decide as the specification of a due job |
| Cron.CronService.Complete | crates/frankclaw-cron/src/service.rs:166-181 | records the outcome of a stored job and ignores a vanished one |
| Cron.CronService.SyncJobs | crates/frankclaw-cron/src/service.rs:230-251 | swaps in the new table with inherited run logs, or changes nothing if any schedule is invalid |
| Cron.CronService.Add | crates/frankclaw-cron/src/service.rs:195-218 | stores the job exactly when schedule, prompt and id are valid |
| Cron.CronService.Remove | crates/frankclaw-cron/src/service.rs:220-224 | removes exactly that job |
| CronRuns.SyncedLookup | crates/frankclaw-cron/src/service.rs:234-246 | after a synchronisation exactly the mentioned jobs exist, each as last mentioned, with the run log of the job it replaces if there is one |
| CronRuns.OneRunAndNoRepeat | crates/frankclaw-cron/src/service.rs:93-251 | over any interleaving of ticks, completions, synchronisations, additions and removals in which every log brought in for the job guards it, at most one of its runs is active and its fired occurrences strictly increase |
| CronRuns.AnyTableMayStart | crates/frankclaw-cron/src/service.rs:93-251 | in particular from any table whose jobs have not been fired yet |
| CronRuns.ActiveRunBlocksTicks | crates/frankclaw-cron/src/service.rs:117-125 | while a run is active no tick fires its job |
| CronRuns.SafeExactly | crates/frankclaw-cron/src/service.rs:195-251 | in any state the invariant allows, an event brings in a guarding log if and only if every safe run after it keeps one active run and no repeat |
| CronRuns.UnguardedBreaks | crates/frankclaw-cron/src/service.rs:195-218 | from any table whose log does not guard the job, a synchronisation and a tick start a second run or repeat an occurrence |
| CronRuns.NoOccurrenceIsMissed | crates/frankclaw-cron/src/service.rs:93-146 | with ticks at most sixty seconds apart a job is fired for every occurrence that the first tick at or after it finds it ready for and that is alone in the minute before that tick |
| CronRuns.LogTellsOutcome | crates/frankclaw-cron/src/service.rs:155-178 | over any run a log marked successful or failed tells how the latest completed run of the job ended |
| CronRuns.CompletionIsRecorded | crates/frankclaw-cron/src/service.rs:166-178 | a completion of a stored job leaves exactly its times and its verdict |
| Acp.AcpServer.CheckRateLimit | crates/frankclaw-gateway/src/acp.rs:345-359 | admits and counts as the window rule says |
| Acp.AcpServer.EvictExpired | crates/frankclaw-gateway/src/acp.rs:361-366 | keeps exactly the sessions within their time to live |
| Acp.AcpServer.EvictLru | crates/frankclaw-gateway/src/acp.rs:368-378 | removes one session of least last use, any of them on a tie, and nothing from an empty table |
| Acp.AcpServer.HandleNewSession | crates/frankclaw-gateway/src/acp.rs:105-142 | a refused creation changes no session; an admitted one expires, evicts if full, and inserts the new session under its key |
| Acp.AcpServer.HandleLoadSession | crates/frankclaw-gateway/src/acp.rs:144-175 | touches a known session; reports an empty or unknown id without change |
| Acp.AcpServer.BeginPrompt | crates/frankclaw-gateway/src/acp.rs:177-210 | rejects empty and over-long messages by bytes and unknown sessions; otherwise touches the session and yields its key |
| Acp.AcpServer.EndPrompt | crates/frankclaw-gateway/src/acp.rs:266-274 | re-keys and touches the session if it still exists |
| AcpRuns.TableIsBounded | crates/frankclaw-gateway/src/acp.rs:105-142 | over any run the table holds at most maxSessions sessions, one if the limit is zero |
| AcpRuns.EvictionIsDeserved | crates/frankclaw-gateway/src/acp.rs:361-378 | after any run a session disappears only in an admitted creation, and then it had expired or at least maxSessions others, the new one among them, were used at or after its last use |
| AcpRuns.CreationsPerWindow | crates/frankclaw-gateway/src/acp.rs:345-359 | any closed ten-second interval admits at most limit + max(1, limit) creations |
| AcpRuns.RefusedOnlyAtLimit | crates/frankclaw-gateway/src/acp.rs:345-359 | after any run a creation is refused only if the limit's worth was admitted in the ten seconds before, and never more than ten seconds after the server's start and all admitted creations |
| AcpRuns.ExpiredAreGone | crates/frankclaw-gateway/src/acp.rs:361-366 | after any run an admitted creation leaves the new session and otherwise only sessions whose latest use is within their time to live |
| ApiKeys.CooldownLadder | crates/frankclaw-core/src/api_keys.rs:167-179 | cooldowns are 60, 300, 1500, 3600 s, one rung higher for authentication and billing, and never shrink |
| ApiKeys.BestUpTo | crates/frankclaw-core/src/api_keys.rs:97-102 | the first among the available keys of oldest use; none exactly when all are cooling down |
| ApiKeys.MostRecentUpTo | crates/frankclaw-core/src/api_keys.rs:155-161 | the last among the used keys of newest use; none exactly when no key was used |
| ApiKeys.KeyRotator.Select | crates/frankclaw-core/src/api_keys.rs:84-110 | clears expired cooldowns and takes the best key; none if and only if all keys are cooling down |
| ApiKeys.KeyRotator.MarkSuccess | crates/frankclaw-core/src/api_keys.rs:114-120 | resets the most recently used key and no other |
| ApiKeys.KeyRotator.MarkFailure | crates/frankclaw-core/src/api_keys.rs:124-133 | puts the most recently used key into its next cooldown and changes no other |
| ApiKeyRuns.MarksHitTheLastSelected | crates/frankclaw-core/src/api_keys.rs:114-161 | after any run under a strictly increasing clock a mark changes exactly the key of the last successful selection |
| ApiKeyRuns.KthFailureInARow | crates/frankclaw-core/src/api_keys.rs:124-133 | after any run, k failures marked in a row after a selection put the selected key, which starts afresh, into the cooldown of the k-th rung, and change no other key |
| ApiKeyRuns.CooldownIsKept | crates/frankclaw-core/src/api_keys.rs:84-110 | a selection fails if and only if every key is before the end of a cooldown, and never returns such a key |
| ApiKeyRuns.PairedUseStaysOnFirstRung | crates/frankclaw-core/src/api_keys.rs:84-133 | if every failure is marked directly after a successful selection no key ever has more than one failure on record |
| ApiKeyRuns.ChosenExactly | crates/frankclaw-core/src/api_keys.rs:97-105 | for any readings an available key is chosen if and only if no other available key is older, or tied with a smaller index |
| ApiKeyRuns.NoStarvation | crates/frankclaw-core/src/api_keys.rs:84-110 | from any state, a key out of cooldown at as many selections as there are keys, each reading later than the key's own last use, is returned by one of them |
| ApiKeyRuns.NoStarvationUnderStrictClock | crates/frankclaw-core/src/api_keys.rs:84-110 | in particular after any history of a new rotator under a strictly increasing clock |
| ApiKeyRuns.StalledClockExactly | crates/frankclaw-core/src/api_keys.rs:97-105 | while the clock stands at its last use an available key is never returned if and only if an available key has a smaller index, and otherwise within as many selections as there are keys |
| Links.StripMarkdownLinks | crates/frankclaw-core/src/links.rs:22-53 | the scan replaces each complete link found left to right by one space |
| Links.ScanLink | crates/frankclaw-core/src/links.rs:28-46 | the nested searches find the link that starts at a position, if any |
| Links.StripIsComplete | crates/frankclaw-core/src/links.rs:22-53 | the result contains no complete link anywhere, stripping is idempotent, and changes a text if and only if it contains one |
| Links.StripFirstLink | crates/frankclaw-core/src/links.rs:36-49 | the text before the first link is kept, the link becomes one space, the rest is stripped likewise |
| Links.ExtractUrlAt | crates/frankclaw-core/src/links.rs:56-79 | an address is a non-empty prefix of address characters, longer than eight bytes, without trailing punctuation |
| Links.ExtractExactly | crates/frankclaw-core/src/links.rs:56-79 | the address is exactly the run of address characters without its trailing punctuation, if it begins with a scheme and exceeds eight bytes |
| Links.ExtractLinks | crates/frankclaw-core/src/links.rs:114-155 | the search loop collects allowed, unseen candidates up to the limit |
| Links.CandidatesAreComplete | crates/frankclaw-core/src/links.rs:114-155 | the scan visits non-overlapping addresses in order, and every position of the text where an address stands is visited or lies inside an address visited before |
| Links.ExtractedLinks | crates/frankclaw-core/src/links.rs:108-155 | the results are distinct allowed addresses of the stripped text in order of non-overlapping position, at most max(1, limit); unless that limit is reached every allowed address at any position is among them or begins inside an earlier one |
| Health.ChannelHealth.TryRestart | crates/frankclaw-gateway/src/health_monitor.rs:55-78 | cooldown test, pruning, hourly test and recording, in this order |
| Health.RunKeepsSummary | crates/frankclaw-gateway/src/health_monitor.rs:65-76 | after any calls the pruned history is the last hour of the full log of accepted restarts |
| Health.HourlyTestNeverRefuses | crates/frankclaw-gateway/src/health_monitor.rs:70-73 | in reachable states at most five entries survive pruning |
| Health.RefinesCooldown | crates/frankclaw-gateway/src/health_monitor.rs:55-78 | the accepted calls are those of the limiter that checks the cooldown alone |
| Health.RestartRate | crates/frankclaw-gateway/src/health_monitor.rs:28-32 | accepted restarts are at least 600 s apart and any half-open hour holds at most six |
| Job.TerminalMeansStuckForever | crates/frankclaw-cron/src/job.rs:41-71 | a state is terminal if and only if no transition leaves it |
| Job.Targets | crates/frankclaw-cron/src/job.rs:41-62 | the states each state leads to in one move |
| Job.EveryEndIsReachable | crates/frankclaw-cron/src/job.rs:145-187 | a running job can be accepted in three moves, failed or cancelled in one, whatever its history |
| Job.DoneStaysDone | crates/frankclaw-cron/src/job.rs:41-62 | once completed, submitted, accepted or failed, no run takes a job up again or cancels it |
| Job.TimesAreTrue | crates/frankclaw-cron/src/job.rs:172-184 | after any run the start is the first move into progress and the completion the latest move to an end or to Completed |
| Job.JobContext.TransitionTo | crates/frankclaw-cron/src/job.rs:145-187 | a legal transition updates state, history, and time stamps; an illegal one changes nothing |
| Job.JobContext.MarkStuck | crates/frankclaw-cron/src/job.rs:190-192 | possible exactly from InProgress |
| Job.JobContext.AttemptRecovery | crates/frankclaw-cron/src/job.rs:197-214 | counts and moves back exactly while stuck with repairs left; else changes nothing and says why |
| Job.RepairStuckJob | crates/frankclaw-cron/src/job.rs:258-285 | succeeds exactly when a recovery would, and never fails halfway |
| Job.StoredIsTail | crates/frankclaw-cron/src/job.rs:157-170 | after any run the stored transitions are the last min(n, 200) of the full history, which is legal and chained into the state |
| Job.LifeIsFinite | crates/frankclaw-cron/src/job.rs:41-71 | runs that leave Stuck only through recovery make at most 2 * maxRepairAttempts + 4 transitions |
| Job.LifeBoundIsReached | crates/frankclaw-cron/src/job.rs:197-214 | for every limit some run makes exactly that many |
| Job.DirectMovesAreUnbounded | crates/frankclaw-cron/src/job.rs:58-61 | direct moves from Stuck to InProgress allow any number of transitions without counting a repair |
| Canvas.CanvasStore.ValidateDocumentSize | crates/frankclaw-gateway/src/canvas.rs:343-355 | accepts exactly documents of at most 1 MiB of title, body and block text in bytes |
| Canvas.CanvasStore.Set | crates/frankclaw-gateway/src/canvas.rs:143-153 | stores the document under the next revision, or rejects an over-large one without change |
| Canvas.CanvasStore.ApplyPatch | crates/frankclaw-gateway/src/canvas.rs:155-205 | checks revision, block count and size in this order; a rejected patch changes nothing |
| Canvas.CanvasStore.Clear | crates/frankclaw-gateway/src/canvas.rs:207-209 | removes exactly that canvas |
| Canvas.RunIsSound | crates/frankclaw-gateway/src/canvas.rs:143-205 | after any run every document lies under its own id, within the size limit |
| Canvas.AcceptedExactly | crates/frankclaw-gateway/src/canvas.rs:143-205 | a write is accepted if and only if it fits one mebibyte; a patch if and only if its expectation is current and its outcome has at most 200 blocks and fits |
| Canvas.WriteStores | crates/frankclaw-gateway/src/canvas.rs:143-153 | an accepted write stores the document as given under the next revision |
| Canvas.PatchKeeps | crates/frankclaw-gateway/src/canvas.rs:155-205 | an accepted patch keeps what it does not mention and all earlier blocks in front of its own |
| Canvas.NoBlockIsLost | crates/frankclaw-gateway/src/canvas.rs:191-199 | over a run without clear and rewrite the blocks of a canvas are the earlier ones and those of all accepted patches in order |
| Canvas.RevisionCountsWrites | crates/frankclaw-gateway/src/canvas.rs:143-209 | a revision is the number of successful writes since creation or the last clear |
| Canvas.NoLostUpdate | crates/frankclaw-gateway/src/canvas.rs:169-179 | of two patches expecting the same revision with no clear in between, the second is rejected once the first was accepted |
| Canvas.SecondPatchExactly | crates/frankclaw-gateway/src/canvas.rs:169-179 | over any run the second patch passes the revision check if and only if the writes since creation or the last clear equal its expectation; with the same expectation as an accepted first one, only after a clear |
| Canvas.ClearForgetsRevisions | crates/frankclaw-gateway/src/canvas.rs:207-209 | such a clear can let it succeed, for every canvas id |
| Canvas.BlockLimitExactly | crates/frankclaw-gateway/src/canvas.rs:143-205 | all stored documents stay within the block limit throughout a run if and only if every accepted whole-document write does |
| Canvas.SetCanBreakBlockLimit | crates/frankclaw-gateway/src/canvas.rs:143-153 | on every store and for every canvas some accepted whole-document write exceeds it |
| Decimal.ParseOfToString | crates/frankclaw-channels/src/telegram.rs:757 | every 64-bit integer is parsed back from its decimal text |
| Decimal.ParsesNumbersOnly | crates/frankclaw-channels/src/telegram.rs:757 | nothing but an optional sign and digits with a value in range is parsed |
| Text.Utf8RoundTrip | crates/frankclaw-gateway/src/canvas.rs:343-355 | the widths used for byte lengths are those of the UTF-8 encoding, which is decoded for every scalar value |
| ThreadAddress.SeparatorIsFirst | crates/frankclaw-channels/src/slack.rs:625-631 | splitting at the first separator finds the intended one if and only if the first part with a colon appended contains none |
| ThreadAddress.TelegramRoundTrip | crates/frankclaw-channels/src/telegram.rs:510-515 | for all 64-bit chat ids and optional topics, parsing the encoding returns the decimal chat id and the topic |
| ThreadAddress.SlackRoundTrip | crates/frankclaw-channels/src/slack.rs:618-631 | for every channel id and time stamp, parsing returns both if and only if the id contains no separator, with a colon appended when threaded |
| ThreadAddress.SlackRoundTripWithoutColon | crates/frankclaw-channels/src/slack.rs:618-631 | in particular for every channel id without a colon |
| ThreadAddress.FallbackIsRead | crates/frankclaw-channels/src/slack.rs:625-631 | without a thread address the recipient is read as one |

## Left out

- Interleavings inside one operation: each lock-guarded section is one atomic step, authentication attempts are sequential, and `sync_jobs` reads and swaps the table in one step.
- Auth.Authenticate: token comparison is equality of contents and password hashing is an oracle; constant-time behaviour and hashing are not modelled.
- Overflow of counters (failures, revisions, attempts) at the end of their machine width and of instants at the ends of the clock: they are unbounded here.
- Instants before the start of the clock, which the language library refuses to compute in `try_restart`.
- Cron.CronService.Tick: a schedule is any function to a later instant; the cron expression grammar, job timeouts, file persistence and loading are not modelled.
- Links.ExtractLinks: which addresses are allowed is a parameter, so address parsing and the address-range checks are not modelled.
- Acp.AcpServer.HandleNewSession: identifiers come from the caller and are assumed fresh in the whole-run theorems; the model call between the two halves of a prompt, tool calls and the transport are not modelled.
- Delivery.DeliverOutboundMessage: loading attachment bytes from the media store before splitting is not modelled; logging and sleeping are reduced to the list of delays.
- Discord.ChunkDiscordText: a limit of zero is excluded because the code never advances with it; the adapter always passes 2000.
- Discord.Server.SendSingle: a request that cannot be built because the bytes of an attachment are missing, and the encoding of the request, are not modelled.
- Document metadata, timestamps of canvas writes by `set` as supplied, export, broadcast and the conversions between the two canvas types.
- Networking, JSON, configuration, the command line, the security audit, webhooks, pairing, triggers, MIME tables and encryption: shallow or wrappers over libraries.
- Key rotation across several providers: a map of independent rotators.
