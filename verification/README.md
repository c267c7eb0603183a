# Verification of the developer service

Dafny models of the parts of the service in which something can go subtly wrong, with
proofs that they do what the rest of the platform relies on. `dafny verify dfyconfig.toml`
checks the whole project.

| file | what it models |
|---|---|
| `Collections.dfy` | the order-preserving list operations the other files share |
| `Messages.dfy` | message rows, the two shapes of `replyingTo`, reply-parent enrichment, `RepliesTo` |
| `ReplyLineage.dfy` | the reply-lineage walk that stitches two single-shape graph traversals per round trip |
| `Regexes.dfy` | an ordered-choice backtracking matcher: greedy bounded repetition, groups, lookahead, anchors, global scan |
| `TextScan.dfy` | the two hand-written scanners that stand in for JavaScript patterns |
| `RateWindows.dfy` | fixed windows over the Gregorian calendar, and Retry-After |
| `RateLimiter.dfy` | replicas sharing only INCR and EXPIRE: every interleaving, crash and store error |
| `CounterRestarts.dfy` | what a late INCR does to a window's limit |
| `Presence.dfy` | session rows, the grace period, the re-read and the offline frame, any number of streams in flight |
| `CommentForest.dfy` | two-level comment threads under interleaved load-then-insert and soft deletes |
| `Mentionable.dfy` | mention candidates, resolution, blocks and the cap |
| `CommentFanOut.dfy` | the notifications of one comment, for every mix of write outcomes |
| `EventStream.dfy` | the stream's writer against the parser of the HTML Living Standard, sections 9.2.5 and 9.2.6 |
| `Permissions.dfy` | the memoised membership filter of a moderation read |
| `JobQueue.dfy` | the AMQP publisher's connection, channel and declared queues |
| `ConversationTypes.dfy` | how a send types a conversation, over every interleaving of sends |

## How the models are built

Loops of the source are methods with loops, proved equal to a specification that does not
mention the loop: a one-hop-at-a-time walk, a backtracking matcher, a plain filter. Objects
that the source updates are classes whose methods are tied to functions of the old state.
Concurrency is a step relation: `Enabled` says when a step may happen, `Apply` what it does,
and `After` the state a whole run of steps reaches, so that a lemma about `After` speaks of
every interleaving. In each such module the class methods and the steps share the same
functions of the stored rows.

The environment is a parameter wherever it decides something: which reads fail (`fault`,
`readFails`), whether a failed write took effect all the same (`applied`,
`StoredUnacknowledged`, `FailsAfter`), what the clock reads, what the broker does, what JSON
a payload decodes to. Time is an unbounded integer of nanoseconds since 1 January of year 1.

## Where the code and its documentation disagree

The models follow the code.

* `internal/auth/ratelimit.go:31` says that the fixed windows are anchored at the Unix
  epoch. `time.Truncate` counts from year 1: windows up to a day line up with the epoch all
  the same, week windows never do (`RateWindows.WeeksAreNotEpochAnchored`).
* `internal/auth/ratelimit.go:134-137` calls the burst at the boundary of two windows the one
  imprecision, and lines 142-146 say that counting first is what makes the limit a limit.
  There is a second one: the window is fixed by an earlier clock read, and an INCR may run
  after the window has ended and its counter has died. It then starts the counter again
  while earlier checks of the window hold a count. Without such a restart, which only happens
  late (`CounterRestarts.RestartsAreLate`), all checks of one window, late ones included, stay
  within the limit (`CounterRestarts.WithinLimitUnlessRestarted`). When every check has
  decided and nothing spoils the counter (an INCR on it that fails after taking effect, or a
  counted check that fails to arm it or stops), they exceed it exactly when the counter was
  restarted and there were more checks than the limit
  (`CounterRestarts.ExceededIffRestarted`; `RateLimiter.LateIncrIsAllowedAgain` is such a run).
* `internal/platform/thread.go:29` says that `Truncated` means the limit stopped the walk.
  It is also set, below the limit, exactly when some link within it leads to a message that
  is deleted, missing or in another conversation (`ReplyLineage.TruncatedBelowLimitIff`, and
  `ReplyLineage.DeletedParentTruncates` for such a thread), and always on a cycle
  (`ReplyLineage.CycleThreadIsTruncated`).
* `internal/platform/thread.go:37-41` says that `RootMessageID` is the message that started
  the thread. Lines 149-154 name the oldest readable one, which differs exactly when the
  root cannot be read, being an image or a file, say (`ReplyLineage.RootNamedIffReadable`,
  `ReplyLineage.ImageRootIsMisnamed`).
* `internal/platform/messages.go:384` says that a deleted parent leaves the sender empty.
  The lookup does not exclude deleted rows (`Messages.DeletedParentIsNamed`). The sender is
  empty exactly when the parent is not stored or its row names no sender
  (`Messages.ParentSenderBlankIff`).
* `internal/stream/sse.go:109-113` forwards a payload verbatim on one `data:` line. A client
  reads it back if and only if neither it nor its event name holds a line end; an empty
  payload is read back too (`EventStream.ClientReadsPassedIffClean`). A JSON object over two
  lines is one that is not (`EventStream.TwoLineFrameIsCut`).
* `internal/platform/comments.go:310-311` says that a mention does not arrive as a second
  notification. That holds for every outcome of the writes exactly when the first recipient,
  if there is one, is not mentioned too (`CommentFanOut.NeverTwiceIffNotMentioned`). For given
  outcomes it fails exactly when that recipient is mentioned, the first write was stored but
  reported as failed, and the mention's write was stored as well
  (`CommentFanOut.AtMostOneEach`; `CommentFanOut.OwnerNotifiedTwice` is such a comment).
* `internal/presence/presence.go:121` says that a row goes offline once the entity actually
  is. A close also puts out the row of another stream still open with the same credential;
  the row is truthful exactly when closes do not overlap in that way
  (`Presence.TruthfulIffNoOverlappedClose`; `Presence.OverlappedCloseHidesStream` is a run of
  two streams in which one does). The entity is then announced offline with a stream open
  (`Presence.OverlappedCloseAnnouncesOffline`), and a successful re-read misses an open stream
  only after such a close (`Presence.OfflineWhileOpenFollowsOverlap`).

## Model

| member | source | states |
|---|---|---|
| Collections.Distinct | internal/platform/moderation.go:387-398 | the result is the list's non-blank values, each at its first occurrence (the loop of `dedupe` in identity.go:58-69 as well) |
| Collections.DedupOfPrefix | internal/platform/moderation.go:387-398 | later values only add to the end: the order is that of first occurrences |
| Messages.DecodeInvertsStore | internal/platform/send.go:545-555 | what is written for a reply; decoding recovers every id that is written, and an old bare-id row decodes to the same id and target as a new one |
| Messages.DecodeMessage | internal/platform/messages.go:268-303 | a row is usable exactly when it has an id, a sender and text content |
| Messages.DecodeMeans | internal/platform/messages.go:268-303 | what a decoded message says, in the row's own fields: id, sender, content, time and reply mark, the conversation asked for when the row has none, "text" when it has no type, and the target it replies to, a message or not |
| Messages.NoTargetMeans | internal/platform/messages.go:318-341 | which stored values name no target |
| Messages.CollectParentIDs | internal/platform/messages.go:349-355 | collects the non-empty parent ids, in order |
| Messages.SendersOf | internal/platform/messages.go:361-382 | the lookup by id maps exactly the found, non-blank ids with a sender to that sender, deletion and conversation ignored |
| Messages.ResolveReplyParents | internal/platform/messages.go:343-388 | in place, every reply gets the sender of its parent or "", unless the one lookup was needed and failed, which changes nothing |
| Messages.EnrichedPointwise | internal/platform/messages.go:383-386 | enrichment of freshly decoded rows is row by row |
| Messages.ParentSenderBlankIff | internal/platform/messages.go:375-386 | a reply's parent sender is empty exactly when it replies to no message, the parent is not stored, or its row names no sender |
| Messages.DeletedParentIsNamed | internal/platform/messages.go:383-386 | a reply to a deleted message, whose sender is filled in all the same |
| Messages.FindMessages | internal/platform/messages.go:229-265 | the readable rows of a newest-first page, oldest first, each with its row's sender, content, time and reply mark |
| Messages.MessagesAuthoredBy | internal/platform/messages.go:390-428 | exactly the asked-for ids that are stored with that sender; fails only when there is something to ask |
| Messages.SelectRepliesTo | internal/platform/messages.go:212-227 | keeps exactly the messages whose parent is in the set, in order |
| Messages.SelectionIsEnrichment | internal/platform/messages.go:202-208 | selecting by "the parent is mine" and then naming myself equals enriching everything and keeping the rows whose parent sender is me |
| Messages.RepliesTo | internal/platform/messages.go:147-210 | oldest first, exactly the readable rows among the newest `limit` undeleted reply rows whose parent was written by the caller, whatever mix of stored shapes, each with its row's fields; fails exactly when a needed read fails |
| Messages.WindowMeans | internal/platform/messages.go:178-183 | exactly which rows the limit keeps: an undeleted reply row of the conversation with fewer than `limit` newer ones, or any when the limit is 0 |
| Messages.RepliesToMeans | internal/platform/messages.go:147-210 | who is answered: a message is returned if and only if it is a readable one of those rows and the message it replies to was written by the caller |
| Messages.RepliesOldestFirst | internal/platform/messages.go:229-265 | of two returned messages the later one is the newer one in the collection's sort order |
| ReplyLineage.AncestorSegment | internal/platform/thread.go:164-237 | one round trip brings back what the pipeline's two single-shape traversals and its start row give |
| ReplyLineage.SegmentMeans | internal/platform/thread.go:164-237 | exactly which rows that is: nothing from a start that is not live, else the start and the end of every path of one stored shape from the message the start names, over live rows of the conversation, with at most `budget-1` of them |
| ReplyLineage.LinkedAncestors | internal/platform/thread.go:239-268 | follows message parents through what was found for at most `budget` links: the readable messages nearest first, where it stopped, and how many links it followed |
| ReplyLineage.ChainResumes | internal/platform/thread.go:116-131 | however the chain is cut, following a part and resuming where that stopped is following all of it |
| ReplyLineage.ChainLinks | internal/platform/thread.go:256-266 | consecutive messages of a walk are linked, and the last one's parent is where it stopped |
| ReplyLineage.WalkStaysInConversation | internal/platform/thread.go:67-74 | every message followed is stored under the conversation asked for and not deleted |
| ReplyLineage.SegmentCovers | internal/platform/thread.go:189-207 | one round trip covers the start, its parent and the whole run of equally shaped links, up to the full remaining budget |
| ReplyLineage.CutAtChange | internal/platform/thread.go:54-65 | a message a round trip misses lies behind a change of link shape |
| ReplyLineage.RoundTripProgress | internal/platform/thread.go:116-131 | a round trip from a live parent makes progress, and leaves a rest only by using up a shape change of its own |
| ReplyLineage.OneShapeOneTrip | internal/platform/thread.go:62-65 | a chain stored in one shape has no shape change to pay for |
| ReplyLineage.OneShapeTrips | internal/platform/thread.go:62-65 | a walk through links of one shape takes at most one round trip, whatever its length, and one more only to find a broken link below the limit |
| ReplyLineage.WalkAncestors | internal/platform/thread.go:111-131 | the segmented loop returns the reference walk's messages and stopping point within the bound on round trips, and fails exactly at a failing round trip |
| ReplyLineage.Assemble | internal/platform/thread.go:133-154 | transcript, depth, truncation and root from the walk's result |
| ReplyLineage.WithParentSenders | internal/platform/thread.go:156-161 | parent senders are filled in as in any transcript read, or left out when that read fails |
| ReplyLineage.ReplyThread | internal/platform/thread.go:75-162 | refines the one-hop-at-a-time walk: same messages, order, truncation and root, within the round trips of `MaxTripsMeans`; a failed enrichment only leaves it out. Every message returned is stored in this conversation, undeleted, and says what its row does; a missing, deleted or foreign anchor never succeeds |
| ReplyLineage.ReadLineage | internal/platform/thread.go:111-161 | once the anchor is found: the reference thread, with its parent senders or without, or the first round trip that failed |
| ReplyLineage.ThreadTells | internal/platform/thread.go:133-154 | the reference thread holds only stored, undeleted rows of the conversation, ends in the message asked for and is no deeper than the limit |
| ReplyLineage.MaxTripsMeans | internal/platform/thread.go:54-65 | the bound on round trips: one, one per message whose link is stored in another shape than the next one's, and one for a broken link below the limit |
| ReplyLineage.WalkReachesRoot | internal/platform/thread.go:116-131 | the walk stops at "" exactly when some hop within the budget arrives there |
| ReplyLineage.TruncatedMeaning | internal/platform/thread.go:138-154 | truncated exactly when no message without a message parent is reached within `limit` hops, and exactly then no root is named; depth is at most the limit |
| ReplyLineage.CycleIsTruncated | internal/platform/thread.go:138-142 | on a reply cycle no number of hops arrives at a root |
| ReplyLineage.CycleThreadIsTruncated | internal/platform/thread.go:138-142 | a thread whose replies run in a cycle is truncated, whatever the limit |
| ReplyLineage.StopsAtMissing | internal/platform/thread.go:121-127 | a walk stops short of its budget, away from a root, exactly when some hop within the budget arrives at a message that is not there |
| ReplyLineage.TruncatedBelowLimitIff | internal/platform/thread.go:26-35 | truncated without the limit having stopped the walk, exactly when a link within the limit leads to a message that is deleted, missing or in another conversation |
| ReplyLineage.DeletedParentTruncates | internal/platform/thread.go:29 | a reply to a deleted message: truncated with no link followed and ten allowed |
| ReplyLineage.RootedWalkDistinct | internal/platform/thread.go:116-131 | a walk that reaches a root visits no message twice |
| ReplyLineage.TranscriptOfLineage | internal/platform/thread.go:133-148 | the messages are the readable ones of the anchor and its lineage, oldest first |
| ReplyLineage.RootNamedIffReadable | internal/platform/thread.go:149-154 | a complete thread names its true root if and only if that message can be read |
| ReplyLineage.ImageRootIsMisnamed | internal/platform/thread.go:37-41 | a thread under an image: complete, and its root is not the message named |
| ReplyLineage.OtherTargetEndsWalk | internal/platform/messages.go:305-341 | a reply to a post, moment or thought ends the walk even when its target's id is a live message's, which the traversal does bring back |
| Regexes.RepeatOfClass | internal/platform/mentions_parse.go:37-45 | a greedy bounded repetition of one character class tries its longest run first and gives back one character at a time, down to its minimum |
| TextScan.BacktrackToStop | internal/platform/mentions_parse.go:72-83 | trying stops longest first yields what the pattern yields by giving back characters until the lookahead holds |
| TextScan.LongestStop | internal/platform/mentions_parse.go:63-83 | the loops find that stop |
| TextScan.NoMentionInside | internal/platform/mentions_parse.go:54-61 | no mention opens inside another one's match |
| TextScan.SkipMention | internal/platform/mentions_parse.go:54-84 | going on at the next character finds no more than going on at the match end |
| TextScan.ScanFindsHandles | internal/platform/mentions_parse.go:31-45 | the global backtracking scan finds the same handles as trying every position |
| TextScan.ExtractMentions | internal/platform/mentions_parse.go:46-86 | equals the deduplicated global matches of the platform's mention pattern |
| TextScan.MentionsAreWellFormed | internal/platform/mentions_parse.go:26-33 | the handles are distinct, of 1 to 30 mention characters |
| TextScan.HandleAlone | internal/platform/mentions_parse.go:26-45 | a handle of one to thirty characters that ends the text is found whole; of a longer one something is found exactly when one of its characters 2 to 31 is a dot |
| TextScan.HandleThen | internal/platform/mentions_parse.go:16-24 | exactly which characters, whitespace or punctuation, may follow a handle for it to be found |
| TextScan.HandleAfter | internal/platform/mentions_parse.go:54-61 | an `@` behind another character opens a mention exactly when that is whitespace |
| TextScan.OneCharacter | internal/platform/mentions_parse.go:5-14 | exactly which characters a handle is made of |
| TextScan.SlashThenBody | internal/platform/mentions_parse.go:116-120 | trying the optional slash first and then the body ends where the body alone would |
| TextScan.RemovalIsStripping | internal/platform/mentions_parse.go:96-100 | global removal of the tag pattern keeps exactly what the scanner keeps |
| TextScan.SanitizeForStorage | internal/platform/mentions_parse.go:101-135 | equals global replacement of the tag pattern by nothing |
| TextScan.SanitizedIsClean | internal/platform/mentions_parse.go:96-135 | sanitised text is a subsequence of the input with no tag left; exactly tagless texts are left alone, so sanitising twice changes nothing |
| TextScan.TagsAreRemoved | internal/platform/mentions_parse.go:96-135 | what becomes of the first `<` of a text, and so of every one: removed with what follows it up to the next `>` or the end, kept when nothing is between |
| RateWindows.YearOf | internal/auth/ratelimit.go:65-67 | the Gregorian year of a day, for every integer day |
| RateWindows.WindowsTile | internal/auth/ratelimit.go:44-71 | for every period an instant is in its window, exactly the instants of that window share it, and the windows before and after are adjacent |
| RateWindows.LaterWindow | internal/auth/ratelimit.go:44-71 | later instants never fall into earlier windows |
| RateWindows.WindowLength | internal/auth/ratelimit.go:44-71 | every window has its period's length, a year that of its year |
| RateWindows.MonthWindowDays | internal/auth/ratelimit.go:62-64 | the n-th month window of every year has 30 days for April, June, September and November, 28 or 29 for February by the leap rule, and 31 otherwise |
| RateWindows.MayStartsInMay | internal/auth/ratelimit.go:62-64 | 1 May 2025 is the start of its own month window |
| RateWindows.NamedWindows | internal/auth/ratelimit.go:44-61 | the seven names, and the lengths of the shorter windows in nanoseconds |
| RateWindows.EpochStartsAllButWeeks | internal/auth/ratelimit.go:47-67 | the Unix epoch starts a window of every period but the week, which with lengths and tiling fixes every boundary |
| RateWindows.YearIsTwelveMonths | internal/auth/ratelimit.go:62-67 | a year window is exactly the concatenation of its twelve month windows |
| RateWindows.RetryLandsLater | internal/auth/middleware.go:79 | waiting the advertised Retry-After, float64 rounding included, always lands in a strictly later window, at most a second and a nanosecond into it: the very next one, except for a one-second window denied on its first nanosecond |
| RateWindows.StartsOnSecond | internal/auth/ratelimit.go:176 | window starts are whole seconds, so printing the Unix second loses nothing |
| RateWindows.WeeksAreNotEpochAnchored | internal/auth/ratelimit.go:31-37 | day windows line up with the Unix epoch, week windows never do |
| RateLimiter.KeyInjective | internal/auth/ratelimit.go:176 | equal counter keys mean equal token id, period and window, whatever characters the id holds |
| RateLimiter.KeyText | internal/auth/ratelimit.go:176 | the key is the token, the period's name and the window's start as a Unix second in decimal |
| RateLimiter.StepKeepsGood | internal/auth/ratelimit.go:178-199 | every step of any replica keeps: no counter dies before its window ends, and no two attempts counted in one window hold the same count |
| RateLimiter.NeverOverLimit | internal/auth/ratelimit.go:157-200 | in every interleaving, with crashes and store errors anywhere, at most `limit` attempts of one token counted before the window's end are allowed |
| RateLimiter.UndisturbedRunsKeepExact | internal/auth/ratelimit.go:178-194 | as long as no INCR on a window's counter fails after taking effect, and no attempt counted in it fails to arm it or stops, the counts of that window are exactly 1 to n |
| RateLimiter.ExactlyTheLimit | internal/auth/ratelimit.go:196-199 | in such a window, whatever happens to other windows and tokens, n counted attempts get exactly min(n, max(limit, 0)) allowed |
| CounterRestarts.HeldIsWindow | internal/auth/ratelimit.go:176 | the attempts holding a count of a window's counter are exactly the counted checks of its token, period and window, late ones included |
| CounterRestarts.RestartsAreLate | internal/auth/ratelimit.go:173-194 | a counter is started again under an attempt that holds a count only after its window has ended |
| CounterRestarts.WithinLimitUnlessRestarted | internal/auth/ratelimit.go:157-200 | in every run, crashes and store errors anywhere, at most `limit` of all checks of one window are allowed, late ones included, unless its counter was restarted |
| CounterRestarts.UnspoiledRunsStayDense | internal/auth/ratelimit.go:178-194 | while nothing spoils a counter the counts held are closed downward and its value is one of them; a restart leaves two attempts with count one |
| CounterRestarts.ExceededIffRestarted | internal/auth/ratelimit.go:157-200 | with every check decided and nothing spoiled, more checks than the limit are allowed exactly when the counter was restarted and more checks than the limit were counted |
| RateLimiter.LateIncrIsAllowedAgain | internal/auth/ratelimit.go:173-199 | a run in which an INCR after its window's end lets a limit of one be used twice |
| RateLimiter.RateLimitStore.Incr | internal/auth/ratelimit.go:77-81 | INCR creates at 1 or adds one and keeps the deadline, for every way of failing |
| RateLimiter.RateLimitStore.Expire | internal/auth/ratelimit.go:81-85 | EXPIRE sets the deadline of a key that is there |
| RateLimiter.AloneStepByStep | internal/auth/ratelimit.go:172-199 | what the protocol's steps, taken by one attempt alone, leave in the store and answer |
| RateLimiter.CountedMeans | internal/auth/ratelimit.go:178-199 | the counter goes up by one, only the attempt that opens it sets its deadline, at most `limit` is allowed, and each error is named |
| RateLimiter.CountAttempt | internal/auth/ratelimit.go:178-199 | counting, arming and deciding, for every way the two store calls end |
| RateLimiter.CheckRateLimit | internal/auth/ratelimit.go:157-200 | no limit touches nothing; a missing or unknown period fails and touches nothing; anything else leaves the store and answers as the protocol's steps do: allowed exactly while the new count is within the limit, and a denial waits exactly to the end of the window that holds `now` |
| Presence.Sessions.FindIndex | internal/presence/presence.go:147-149 | the first row of an entity and credential, if any |
| Presence.Sessions.Connected | internal/presence/presence.go:101-119 | the upsert: liveness refreshed, identity written on insert only; announces exactly after a write without error |
| Presence.Sessions.Disconnected | internal/presence/presence.go:138-157 | an update of the one row and never an insert; the grace period follows exactly a write without error |
| Presence.Sessions.HasLiveSession | internal/presence/scope.go:147-157 | true exactly when some row of this entity is online |
| Presence.MarkOnlineMeans | internal/presence/presence.go:256-284 | a connect leaves the credential's row, old or new, online as of now under the client's name, writes identity only when it is new, and touches no other row |
| Presence.MarkOfflineMeans | internal/presence/presence.go:147-150 | a close leaves one row of the credential, if it has any, offline as of now and otherwise as it was, and touches no other row |
| Presence.StreamStep | internal/presence/presence.go:138-177 | a stream stays who it is and only moves forward |
| Presence.OfflineFollowsQuietRead | internal/presence/presence.go:138-177 | in every run an offline frame comes after that stream's close was written and a re-read, at least the grace period later, failed or found no online row |
| Presence.LiveReadSuppresses | internal/presence/presence.go:162-174 | a re-read that finds the entity live ends that close without a frame, for good |
| Presence.QuietReadAnnounces | internal/presence/presence.go:162-176 | a successful re-read that sees no row of the stream's own entity online goes on to announce, whatever other entities' rows say |
| Presence.QuietReadIsLate | internal/presence/presence.go:79 | the re-read comes at least six seconds after the close |
| Presence.WritesStatus | internal/presence/presence.go:256-284 | a connect lights exactly its own credential's row, a close puts out exactly that one |
| Presence.StepStatus | internal/presence/presence.go:101-157 | after any step a credential is online exactly when the step lit it or it was online and the step did not put it out |
| Presence.StaysOnline | internal/presence/presence.go:64-79 | a credential lit and not closed since is online |
| Presence.ReconnectSuppresses | internal/presence/presence.go:64-79 | a connect write of any credential of the entity, not undone before the re-read, suppresses the frame of the stream that closed |
| Presence.FindStays | internal/presence/presence.go:95-97 | a reconnect lands on the row its credential was first given |
| Presence.RowsEndure | internal/presence/presence.go:252-284 | in every run there is one row per entity and credential, and every row keeps its place and identity fields for good |
| Presence.StepTruthful | internal/presence/presence.go:147-150 | from a truthful row a step leaves it truthful exactly when it is not a close that overlaps another open stream of the credential |
| Presence.TruthfulIffNoOverlappedClose | internal/presence/presence.go:101-157 | with successful writes and no replica stopping, the row is online exactly while a stream of the credential is open, throughout a run, if and only if no stream of it closes while another is open |
| Presence.OverlappedCloseHidesStream | internal/presence/presence.go:147-150 | two streams of one credential, the first of which closes: the row reads offline while the second is open |
| Presence.OfflineWhileOpenFollowsOverlap | internal/presence/presence.go:162-176 | a successful re-read that misses a stream still open follows a close of another stream of that credential while this one was open, for every stream of the entity still open |
| Presence.OverlappedCloseAnnouncesOffline | internal/presence/presence.go:138-177 | two streams of one credential, every write and read successful: the first one's close announces the entity offline while the second is open |
| CommentForest.LoadParent | internal/platform/comments.go:228-262 | a parent is found exactly when it exists, is not deleted and is on the same post |
| CommentForest.CommentTable.LoadParentComment | internal/platform/comments.go:228-262 | the lookup with its errors in the source's order |
| CommentForest.CommentTable.CreateComment | internal/platform/comments.go:128-175 | an undisturbed creation, of a new id or a taken one, leaves the rows and frames, and answers, as the protocol's steps do; the answer, the row, the frame and each error are given from the stored rows |
| CommentForest.InsertKeepsTwoLevels | internal/platform/comments.go:177-192 | a row placed by the flattening rule hangs under a top-level comment of its own post |
| CommentForest.StepKeepsGood | internal/platform/comments.go:128-165 | every step of any interleaving keeps the thread invariant, in-flight parents included |
| CommentForest.RunsKeepGood | internal/platform/comments.go:109-192 | in every run every stored parent exists, is top-level and on the same post; every stored comment is in the thread it was aimed at; every published `parent_id` is its row's stored parent (post_activity.go:215-221) |
| CommentForest.RunsOnlyGrow | internal/platform/comments.go:63-73 | no comment is ever removed, moved to another thread or post, or undeleted |
| Mentionable.CandidatesAreFirst | internal/platform/mentionable.go:129-151 | candidates are the first of all lowercased handles and their forms without trailing dots, in order; all of them below twenty, never more than twenty-one |
| Mentionable.AllCandidatesMean | internal/platform/mentionable.go:137-145 | the forms are the lower-case handles and those without their trailing dots |
| Mentionable.FullStaysFull | internal/platform/mentionable.go:146-148 | once there are twenty candidates no later handle is offered |
| Mentionable.CandidatesClosed | internal/platform/mentionable.go:116-125 | candidates are non-blank and closed under stripping trailing dots |
| Mentionable.MentionCandidates | internal/platform/mentionable.go:129-151 | the loop computes those candidates from a text's mentions |
| Mentionable.BlockedEntityIDs | internal/platform/mentionable.go:153-178 | exactly the others in a block relationship with the entity, in either direction |
| Mentionable.DistinctEntities | internal/platform/mentionable.go:69-81 | the first row of every entity other than the author and blanks |
| Mentionable.KeepUnblocked | internal/platform/mentionable.go:103-113 | the first twenty that are not blocked |
| Mentionable.ResolveMentions | internal/platform/mentionable.go:42-114 | yields the specified entities; fails exactly when the lookup was needed and failed, or somebody was named and the blocks could not be read |
| Mentionable.MentionedMeaning | internal/platform/mentionable.go:21-41 | everyone kept is named by the text, listed, not the author, in no block either way, and kept once; at most twenty, and nobody of that kind is left out while candidates and kept both stay below twenty |
| CommentFanOut.NotificationStore.WriteNotification | internal/platform/notifications.go:78-151 | one attempt, stored and acknowledged as its outcome says |
| CommentFanOut.NotificationStore.NotifyMentions | internal/platform/comments.go:362-411 | tries every mentioned entity once, the author and those already notified excepted |
| CommentFanOut.NotificationStore.CommentFanOut | internal/platform/comments.go:308-360 | who is tried, what is stored and what is handed back; nothing is handed back on community posts. A reply reaches first the author of the comment replied to, another comment the post's author; the post's author is reached by a reply only as that author or by a mention, and its own replies reach only those mentioned |
| CommentFanOut.WhoIsStored | internal/platform/comments.go:314-353 | the same of the specification, for all outcomes of the writes |
| CommentFanOut.AtMostOneEach | internal/platform/comments.go:310-353 | at most one stored notification per entity, except exactly when the first recipient is mentioned too, the first write was stored but reported as failed, and the mention loop's write for that recipient, at the turn the mentions fix, was not lost |
| CommentFanOut.NeverTwiceIffNotMentioned | internal/platform/comments.go:310-353 | nobody is stored twice, whatever becomes of the writes, exactly when there is no first recipient or it is not mentioned |
| CommentFanOut.NeverTwiceWhenFailuresAreLost | internal/platform/comments.go:333 | nobody is stored twice when a write reported as failed was not stored |
| CommentFanOut.OwnerNotifiedTwice | internal/platform/comments.go:337-353 | a comment that mentions the post's owner, whose first notification is stored but reported as failed: two are stored |
| CommentFanOut.OnlyThoseConcerned | internal/platform/comments.go:314-353 | never one to the author, nor to anyone who is neither the first recipient nor mentioned |
| CommentFanOut.NotifiedWithoutRepeats | internal/platform/comments.go:351-359 | the list handed back never repeats an entity |
| CommentFanOut.AcknowledgedAreStored | internal/platform/comments.go:333 | the list names only stored notifications, and all of them when no write went unacknowledged |
| EventStream.Serve | internal/stream/sse.go:95-127 | the select loop's output for every sequence of inputs and write results |
| EventStream.FrameWritten | internal/stream/sse.go:108-113 | the text of a frame, character for character, under the event name its payload carries or "message" |
| EventStream.OtherTurns | internal/stream/sse.go:95-127 | what every other input does: a keepalive line, nothing for a refused frame, and what closes the stream |
| EventStream.OutputIsText | internal/stream/sse.go:95-127 | the output is a prefix of the text of the frames and keepalives in order, and all of it while writes go out |
| EventStream.CleanFrameRead | internal/stream/sse.go:108-113 | a frame free of line ends is read back as one event of its name and payload |
| EventStream.KeepaliveRead | internal/stream/sse.go:118-123 | a keepalive is read as nothing |
| EventStream.FrameReadIffClean | internal/stream/sse.go:108-113 | a frame is read back as itself if and only if neither its name nor its payload holds a line end |
| EventStream.TextReadIffClean | internal/stream/sse.go:95-127 | a text of frames and keepalives is read back as its frames, in order and verbatim, if and only if all are free of line ends |
| EventStream.ClientReadsPassedIffClean | internal/stream/sse.go:95-127 | over every run whose writes go out, a client reads exactly the received frames that passed the filter, under their event names, if and only if none holds a line end |
| EventStream.PassedMeans | internal/stream/sse.go:95-141 | the frames that pass, one for one and in order: the payload of every allowed message before the loop is told to stop, under the name it carries |
| EventStream.SecondLineIsLost | internal/stream/sse.go:113 | of a payload over two lines whose second names no field, the client reads the first |
| EventStream.DataLinesAreJoined | internal/stream/sse.go:113 | a second line that is itself a `data:` field is joined to the first, the field's name gone |
| EventStream.TwoLineFrameIsCut | internal/stream/sse.go:108-113 | a JSON object over two lines that passes the filter and does not reach the client whole |
| EventStream.BrokenOutputReadsFirst | internal/stream/sse.go:113-115 | however a write breaks, a client reads the first of those frames and nothing else |
| EventStream.NothingBeforeABreakIsLost | internal/stream/sse.go:113-116 | every frame that passed before a write broke has reached the client |
| Permissions.IsMember | internal/platform/moderation.go:117-128 | the two refusals read as "no", any other error as a failure |
| Permissions.PermittedMessages | internal/platform/moderation.go:139-189 | equals the plain filter: exactly the known ids whose conversation the caller is in; asks each known conversation once and none for unknown ids; fails exactly when a needed question fails, with the first failure and no list |
| Permissions.PermittedKeepsDistinct | internal/platform/moderation.go:151-153 | distinct ids give a result without repeats |
| Permissions.PermittedOfPrefix | internal/platform/moderation.go:147-149 | later ids only add to the end: the caller's order is kept |
| Permissions.ReadableMessages | internal/platform/moderation.go:100-137 | each asked-for id at most once, exactly those known and in a conversation of the caller; fails exactly when something was asked and a needed read failed |
| JobQueue.Publisher.Publish | internal/queue/queue.go:102-139 | one call's new state and answer, whatever the broker does |
| JobQueue.Publisher.EnsureReady | internal/queue/queue.go:141-168 | redials, reopens and redeclares exactly where needed |
| JobQueue.Publisher.Close | internal/queue/queue.go:170-186 | drops everything held |
| JobQueue.CallGood | internal/queue/queue.go:104-186 | every call keeps the invariant of the held connection, channel and declared queues |
| JobQueue.RunsKeepGood | internal/queue/queue.go:104-186 | in every run a queue counts as declared exactly when it was declared on the channel held; nothing is published on a queue not declared on the channel used, or declared there twice; after a failed publish every later one uses a connection and a channel opened since |
| JobQueue.AnswersWhatWasSent | internal/queue/queue.go:102-139 | true exactly when the job was sent once and the send reported no error; a false answer means nothing was sent, or the send failed and everything was dropped |
| JobQueue.WhenJobsAreSent | internal/queue/queue.go:102-168 | a call answers true exactly when there is an address, the payload encodes and every request it needs succeeds; the broker then sees these requests, only what is needed, and the job at the end |
| JobQueue.ClosedIsNotUsed | internal/queue/queue.go:141-159 | a connection or channel seen closed is not published on |
| JobQueue.UnconfiguredSendsNothing | internal/queue/queue.go:105-108 | without a broker address no run contacts a broker |
| ConversationTypes.NormalizeTwice | internal/platform/send.go:525-536 | normalising is idempotent and never leaves a blank or "server" |
| ConversationTypes.NormalizeMeans | internal/platform/send.go:525-536 | letter by letter: lower case, except that a blank type becomes "single" and "server", in any case, "channel" |
| ConversationTypes.StoredAlike | internal/platform/send.go:525-536 | two types are stored alike exactly when they differ only in case, or one is "server" and the other "channel", or one is blank and the other "single" |
| ConversationTypes.ClaimDecidesIffNothingKnown | internal/platform/send.go:501-523 | the caller's claim matters exactly when no stored type and no realm type is seen |
| ConversationTypes.Conversations.ResolveConversationType | internal/platform/send.go:501-523 | the stored type as it is, else the realm's, normalised, else the claim, normalised |
| ConversationTypes.Conversations.SaveConversation | internal/platform/send.go:422-459 | the upsert writes a type only on insert and participants only when some were resolved, and touches no other conversation |
| ConversationTypes.TypesNeverChange | internal/platform/send.go:106-116 | over every interleaving of sends a conversation's type never changes once its document exists |
| ConversationTypes.MessagesTakeTheStoredType | internal/platform/send.go:106-116 | a send that reads a stored type stores messages of exactly the type the conversation has ever after |
| ConversationTypes.RunsStayNormal | internal/platform/send.go:501-536 | whatever callers claim, every type stored or sent is a normalised one, given that the types other services store are |

## Left out

- HTTP handlers, routing, JSON encoding, configuration, connection pools and shutdown.
- SQL text and the Mongo, Redis and AMQP drivers, beyond the small contracts stated in the
  modules: a map of rows, an upsert, bounded one-shape reachability, INCR and EXPIRE, and a
  connection with channels. Retries inside a driver are not modelled.
- Writers to the collections between the reads of one call (`ReplyThread`, `RepliesTo`,
  `ResolveMentions`, `ReadableMessages`): such a call reads one unchanging store. Message ids
  are unique.
- Publisher confirms: the publisher uses none, so a send without an error is all that a true
  answer of `Publish` stands for.
- Non-ASCII text in the scanners, in lower-casing and in `\s`; Python's `\s` also matches
  U+001C to U+001F, the model's is JavaScript's over ASCII.
- Clock skew between replicas: one clock, which never goes back, serves all of them.
- The time to live as the Redis client sends it. The model has the contract of the
  `RateLimitStore` interface, by which a counter dies exactly when its time to live is over; an
  adapter that sends whole seconds, rounded down, lets one die up to a second earlier.
- Two upserts of one session row at the same instant, which without a unique index could
  insert it twice: an upsert is one step. Other services write only rows of their own
  devices, never a credential's.
- The ready event that opens a stream: the parser starts after it.
- The last event id and the reconnection time of a stream's client; no frame sets them.
- The audience of a presence frame, its signature, and the order of online and offline
  announcements, which are sent by separate goroutines.
- The text of a comment and of a notification, access predicates of posts and communities,
  push payloads, previews, ranking and interest jobs.
- Comments that other services insert during a run; the platform's other writer does not
  check that a parent is on the same post, so a table it has written need not be well formed.
- CommentForest.CommentTable.CreateComment: does not model the checks before the parent is
  loaded (blank text, post access, anonymity), which end the call before anything is read or
  written here.
- The sort order of messages, by date and then by the database's own id: a given list of all
  ids, newest first, stands for it.
- Mentionable.ResolveMentions: the order of rows in the directory lookup is the order of a
  given list, because the query does not state one.
- Id minting, token hashing, signatures and constant-time comparison.
- The recursion that names a realm, which needs acyclic realm parents.
