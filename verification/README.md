# Verified models of a merchant control plane

Dafny models of the logic that carries state, time or text in a control plane for Shopify apps, with proofs about every
input, every run or every interleaving. `dafny verify dfyconfig.toml` checks all of it.

- **Badge images** (`Pixels`, `FloodFill`, `FringeHalo`, `BackgroundRemoval`, `EdgeColours`, `UntouchedImages`,
  `PatchedImage`). A raw RGBA buffer is an `array` updated in place. The worklist fill is proved to clear graph reachability
  from the border, the fringe passes a closed form that counts reversals of raster order along a path, and the search over
  three tolerances what its winner is.
- **Subscription cache** (`BillingCache`, `BillingLog`). Code between two awaits is atomic; a run is a sequence of calls, read
  successes, read failures and clock ticks.
- **Audited services over a store** (`BreakGlass`, `BreakGlassAccess`, `Conversations`, `ConversationLog`, `Lifecycle`,
  `LifecycleFlips`, `LifecycleRaces`, `FinishedLogs`, `Flags`, `FlagHistory`). Each transaction is one step of a state machine,
  and the class methods are proved to take exactly those steps. A sweep is its snapshot and its updates; a message call is its
  insert, its look at the conversation and its update, a lifecycle call its check and its insert; anything may fall between.
  What a caller sees after a run is told by the steps of the run alone.
- **Text and events** (`Text`, `LineText`, `RichDom`, `RichReading`, `RichInline`, `RichRules`, `RichSpans`, `RichBlocks`, `RichRoundTrip`,
  `RichSpanTrip`, `MarkdownScanner`, `MarkdownLines`, `InlineTokens`, `Journey`, `JourneySessions`). Loops with flags are
  proved equal to recursive readings of the input, and those to partition it or give it back.
- **Timers and numbers** (`Ringer`, `Calendar`, `Percentiles`, `Sorting`). The ringer with its callbacks, re-entrant ones
  included; days and weeks from the calendar algorithms of ECMA-262, weeks as in section 2.2.8 of ISO 8601:2004; nearest-rank
  percentiles and bands.

Where a loop or a mutation is in the source it is a method here, proved against a function; the theorems are about the
functions and hold of the methods through that. Time never goes back.

## Where the code and its documentation differ

The code is followed each time; both the failing case and the exact condition are proved.

- A sweep overtaken by a revoke (or by a second sweep) writes EXPIRED over the newer status, and its audit row says the
  grant was ACTIVE (`BreakGlass.RevokeOvertaken`, `BreakGlass.SweepRowFalseIff`).
- "Stamps firstReplyAt exactly once" fails for overlapping replies (`Conversations.OverlappingRepliesRestamp`); it holds exactly
  when the replies that look before the first commit were created at one time (`Conversations.StampedOnceIff`), and so whenever
  replies take turns.
- The lifecycle check stands outside its transaction, so two racing uninstalls are recorded twice
  (`LifecycleRaces.RacingUninstallsRecordTwice`, `LifecycleRaces.AlternatesIffInTurn`); and a rollup that began before an
  uninstall records a reinstall that does not count (`LifecycleRaces.OvertakenRollup`,
  `LifecycleRaces.AlternatesThroughoutIff`, `FinishedLogs.FinishedAlternatesIff`).
- "Raising the percentage only ever adds shops" fails when a ramp starts from zero or null on a flag that is on by default
  (`Flags.RampOnlyAddsIff`).
- An image can be left alone by background removal without the mildest trial having been too eager
  (`UntouchedImages.UntouchedIff`, `PatchedImage.LeftAloneWithoutBeingTooEager`).
- Normalising Markdown twice is not always normalising it once (`RichRoundTrip.TwiceIsOnceIff`, `RichSpanTrip.TwiceIsOnceIffSpans`,
  `RichRoundTrip.TwiceIsNotAlwaysOnce`, `RichRoundTrip.CarriageReturnChangesTwice`).
- A link whose address holds a double quote does not come back as it was; where no equals sign follows the quote, the address is
  cut there (`RichSpans.LinkSurvivesIff`, `RichSpans.QuotedAddressIsCut`).
- An onStop that starts a ringer leaves an orphan when it is triggered by a start (`Ringer.TwoAtOnce`,
  `Ringer.OneRingerIff`); the callbacks in the source do not (`Ringer.QuietCallbacksRingOne`).
- Instants in the years 0 to 99 are moved to the 1900s, so utcDayStart does not truncate there and isoWeekStart is not
  idempotent on the first three days of the year 100 (`Calendar.DayStartTruncatesIff`, `Calendar.WeekStartIdempotentIff`).

## Model

| member | source | states |
|---|---|---|
| FloodFill.FloodFillBackground | app/server/services/badgeGraphicImageProcessor.ts:94-138 | the worklist fill, in place: afterwards exactly the pixels joined to the image border by a 4-neighbour walk over backdrop pixels have alpha 0, and no other byte has changed; it terminates although pixels are queued repeatedly |
| FloodFill.QueueBorder | app/server/services/badgeGraphicImageProcessor.ts:103-117 | the initial queue holds border pixels only, and every border pixel |
| FloodFill.PathStaysIn | app/server/services/badgeGraphicImageProcessor.ts:119-137 | a set that holds the backdrop's border pixels and is closed under backdrop neighbours holds every walk from the border: why an empty queue means the fill is complete, whatever the pop order |
| FloodFill.ToleranceWidens | app/server/services/badgeGraphicImageProcessor.ts:64-88 | a larger tolerance never takes a pixel out of the filled set |
| FringeHalo.RemoveFringeHalos | app/server/services/badgeGraphicImageProcessor.ts:141-182 | the in-place passes with early exit clear exactly the pixels that a walk over light opaque pixels reaches, from the edge or from a pixel transparent at entry, with fewer steps against raster order than there are passes |
| FringeHalo.OnePass | app/server/services/badgeGraphicImageProcessor.ts:163-181 | one raster pass advances that closed form by one pass, although it reads pixels it has itself just cleared; `changed` false means the next pass would clear nothing |
| FringeHalo.VisitDecides | app/server/services/badgeGraphicImageProcessor.ts:168-178 | at each visit, the test on the half-updated buffer agrees with the path characterisation |
| FringeHalo.StableOnceUnchanged | app/server/services/badgeGraphicImageProcessor.ts:180 | after one unchanged pass all further passes clear nothing: stopping early equals running every pass |
| FringeHalo.EatenAlongAPath | app/server/services/badgeGraphicImageProcessor.ts:141-182 | behind each cleared pixel lies a walk of cleared light neutral pixels that starts at the edge or next to a pixel transparent at entry |
| FringeHalo.FringeMonotone | app/server/services/badgeGraphicImageProcessor.ts:141-182 | more transparency before the passes never leaves a pixel opaque that would otherwise be cleared |
| BackgroundRemoval.SampleEdgeColors | app/server/services/badgeGraphicImageProcessor.ts:35-54 | the colour samples of all four edges, in the order they are taken |
| BackgroundRemoval.MedianChannelsAreSampled | app/server/services/badgeGraphicImageProcessor.ts:28-62 | each channel of the reference colour is that channel of some edge sample |
| EdgeColours.MedianIff | app/server/services/badgeGraphicImageProcessor.ts:28-33 | the median of a channel is the one value with more than half of the samples at or below it and at least half at or above |
| EdgeColours.SamplesStand | app/server/services/badgeGraphicImageProcessor.ts:35-54 | which pixels are sampled, in which order, and how many: the top and bottom pixel every so many columns, then the left and right one every so many rows |
| EdgeColours.ShortSides | app/server/services/badgeGraphicImageProcessor.ts:41-42 | a side of less than 80 pixels is sampled pixel by pixel, a longer one in at least 40 strides |
| EdgeColours.NeutralIff | app/server/services/badgeGraphicImageProcessor.ts:17-92 | what passes for backdrop: a colour near a reference, or one whose channels differ by less than its brightness allows (40 in the dark, nothing up to 165, 24 up to 225, 50 above); and likewise for a fringe |
| EdgeColours.MajorityCleared | app/server/services/badgeGraphicImageProcessor.ts:28-238 | whatever the artwork: of a colour that most edge samples have, the shades within 48, 72 or 96 end with alpha 0 in the first, second or third trial, as far as they reach in from the border |
| BackgroundRemoval.OpaqueRatio | app/server/services/badgeGraphicImageProcessor.ts:206-213 | the share of pixels whose alpha is at least 128, as a cardinality |
| EdgeColours.OpaqueIff | app/server/services/badgeGraphicImageProcessor.ts:206-213 | the pixels counted are those that are not transparent, each once, and the share is their number over all pixels |
| BackgroundRemoval.EdgeChecksAreTheBorder | app/server/services/badgeGraphicImageProcessor.ts:194-201 | the positions checked are exactly the border, each side's corners counted as the loops count them |
| BackgroundRemoval.EdgeTransparentRatio | app/server/services/badgeGraphicImageProcessor.ts:184-204 | the transparent share of the checked positions |
| BackgroundRemoval.ScoreBackgroundRemoval | app/server/services/badgeGraphicImageProcessor.ts:215-221 | the score is the function of the two ratios the design gives |
| BackgroundRemoval.TrialMonotone | app/server/services/badgeGraphicImageProcessor.ts:229-232 | through the fill and all fringe passes, a larger tolerance leaves no pixel opaque that a smaller one made transparent |
| BackgroundRemoval.OpaqueShareFalls | app/server/services/badgeGraphicImageProcessor.ts:229-232 | the opaque share never rises from tolerance 48 to 72 to 96 |
| BackgroundRemoval.ScoresRise | app/server/services/badgeGraphicImageProcessor.ts:215-237 | while a tolerance still keeps 4% of the image, the score never falls on the way up to it |
| BackgroundRemoval.WinnerMatchesLargestSafe | app/server/services/badgeGraphicImageProcessor.ts:229-238 | the winner scores as well as the largest tolerance that keeps 4%, is never a larger one, and itself keeps 4% |
| BackgroundRemoval.ReferenceCleared | app/server/services/badgeGraphicImageProcessor.ts:94-138 | a border pixel that is itself a reference colour is cleared at every tolerance |
| BackgroundRemoval.RemoveSolidBackground | app/server/services/badgeGraphicImageProcessor.ts:223-241 | the buffer ends as it was when the tolerance-48 trial keeps under 4%, and otherwise as the first best-scoring trial |
| BackgroundRemoval.KeptIff | app/server/services/badgeGraphicImageProcessor.ts:223-241 | the result is the image exactly when the 48 trial keeps under 4%, or is the winner and changes nothing, which a visible top-left pixel rules out |
| UntouchedImages.BorderAfterTrial | app/server/services/badgeGraphicImageProcessor.ts:60-182 | where the 48 trial has nothing to clear, a larger tolerance opens an opaque border pixel exactly when its colour passes for backdrop there |
| UntouchedImages.UntouchedIff | app/server/services/badgeGraphicImageProcessor.ts:223-241 | for every image, told from its pixels: it is left alone exactly when the 48 trial keeps under 4%, or nothing is there to clear (all the mildest fill reaches is fully transparent, no light opaque pixel touches transparency) and neither larger tolerance beats that by opening the border, or by the 97% threshold, while keeping 4% |
| PatchedImage.LeftAloneWithoutBeingTooEager | app/server/services/badgeGraphicImageProcessor.ts:223-299 | a concrete image of the second kind, which the upload does process (under 0.35 of its edge is transparent): it is left alone although the 48 trial keeps four percent of it opaque |
| BillingCache.BillingService.GetSubscription | app/server/services/billingService.ts:35-44 | up to the await: a live cache entry answers, else the shop's outstanding read is shared, else one is started |
| BillingCache.BillingService.ReadSucceeded | app/server/services/billingService.ts:45-49 | the value is cached for one TTL and the in-flight mark cleared in one step |
| BillingCache.BillingService.ReadFailed | app/server/services/billingService.ts:50-63 | no cache write; the answer is the entry captured before the read marked stale, or the unavailable record |
| BillingCache.EveryRunIsLawful | app/server/services/billingService.ts:35-67 | in every interleaving a read starts only if none is outstanding and the last one failed or its success is at least a TTL old; a hit is the latest success and younger than the TTL; a stale answer is the most recent success |
| BillingLog.RunIsTold | app/server/services/billingService.ts:29-67 | over every run, what each step adds to the log follows from the log before it and the clock alone: whether a caller is answered, joins or starts a read, what a settlement records, and the answer after a failure, which makes nothing up |
| BillingCache.OneReadPerShop | app/server/services/billingService.ts:41-65 | two outstanding reads are never for one shop |
| BillingCache.ReaderRateLimited | app/server/services/billingService.ts:28-65 | over any run, the reads of a shop beyond the first and beyond one per failure each account for a full TTL: at most one read per TTL, failures aside |
| BreakGlass.BreakGlassService.RequestGrant | app/server/services/breakGlassService.ts:80-124 | a blank reason is refused; otherwise the grant and its audit row appear in one transaction, active at once or requested as the scope demands |
| BreakGlass.BreakGlassService.ChangeStatus | app/server/services/breakGlassService.ts:126-202 | approve, deny and revoke: error when the grant is missing, of another app or in another status, else the new status with its patch and audit row |
| BreakGlass.BreakGlassService.RequireActiveGrant | app/server/services/breakGlassService.ts:209-232 | returns a covering grant with the latest expiry, and fails exactly when no grant covers the request |
| BreakGlassAccess.PassesIff | app/server/services/breakGlassService.ts:66-259 | over every run: a grant lets an actor pass for an app, scope and shop exactly when the run holds that actor's request for that app and scope, for that shop or for none in particular or with no shop asked for; the request itself, or where the scope needs approval the first decision on it, an approval, came less than a ttl ago; and no revoke and no sweep came to it since |
| BreakGlassAccess.ApproverTold | app/server/services/breakGlassService.ts:128-205 | over every run: a grant's approver is whoever took the first decision on its request, approving or denying it, and stays so |
| BreakGlassAccess.RowsNameTheirSteps | app/server/services/breakGlassService.ts:100-258 | over every run: each audit row names what the step that wrote it did and its actor, the system for a sweep, and the app and shop of its grant |
| BreakGlass.BreakGlassService.BeginSweep | app/server/services/breakGlassService.ts:235-239 | the sweep's snapshot read, of at most 1000 expirable grants |
| BreakGlass.BreakGlassService.ContinueSweep | app/server/services/breakGlassService.ts:240-257 | one per-grant update of a sweep, which writes EXPIRED whatever the status is by then |
| BreakGlass.UsableIsAnInterval | app/server/services/breakGlassService.ts:209-259 | over every run, sweeps split open, the states in which a grant can authorize form one unbroken interval |
| BreakGlass.UsableWithinTtl | app/server/services/breakGlassService.ts:80-136 | that interval starts at the activation and is shorter than the TTL |
| BreakGlass.ActivatedOnce | app/server/services/breakGlassService.ts:126-140 | a grant is activated at most once in a run |
| BreakGlass.ClosedForGood | app/server/services/breakGlassService.ts:142-259 | a denied, revoked or expired grant never authorizes again |
| BreakGlass.AuditRebuildsStatuses | app/server/services/breakGlassService.ts:101-258 | replaying the audit rows in commit order gives every grant's current status, in every interleaving |
| BreakGlass.BeforeIsTrueUnlessOvertaken | app/server/services/breakGlassService.ts:173-258 | a row's `before` is the status it replaced exactly when it is not a sweep row that a revoke or another sweep overtook |
| BreakGlass.SweepRowFalseIff | app/server/services/breakGlassService.ts:235-258 | a sweep's row is false exactly when a revoke of the grant, or another sweep's update of it, took effect between the snapshot and the update |
| BreakGlass.RevokeOvertaken | app/server/services/breakGlassService.ts:235-258 | a concrete run in which a sweep rewrites REVOKED as EXPIRED under a row that says ACTIVE |
| BreakGlass.UninterruptedIsExact | app/server/services/breakGlassService.ts:235-258 | when no step falls inside a sweep, every row of the trail tells the truth |
| BreakGlass.FinishedSweepCatchesAll | app/server/services/breakGlassService.ts:235-259 | a finished sweep that was not cut at 1000 leaves no grant active that had expired at its snapshot |
| Conversations.ConversationService.PersistMessage | app/server/services/conversationService.ts:87-133 | an undisturbed call: insert, look at the conversation for replies only, then one update |
| Conversations.ConversationService.PostInternalNote | app/server/services/conversationService.ts:146-160 | persistMessage with sender AGENT and internal set |
| Conversations.ConversationService.MarkAsRead | app/server/services/conversationService.ts:267-272 | the unread count becomes zero and nothing else changes |
| Conversations.ConversationService.UpdateStatus | app/server/services/conversationService.ts:275-320 | the status is set and its audit row written together; an unchanged status or a missing conversation leaves everything as it is |
| Conversations.ConversationService.AgentView | app/server/services/conversationService.ts:163-169 | the conversation's messages in order, internal ones included |
| Conversations.ConversationService.MerchantView | app/server/services/conversationService.ts:176-182 | the conversation's messages that are not internal, in order |
| ConversationLog.StoreIsTold | app/server/services/conversationService.ts:87-319 | when calls run one after another: the messages are those posted, in order and with their times; each conversation has the status last set, the time of its last message, the number of merchant messages since it was marked read, the time of its first answer and the SLA state that follows; the trail has a row for each change of status |
| ConversationLog.LastActivityIsLastCommit | app/server/services/conversationService.ts:107-131 | in any interleaving, lastMessageAt is the creation time of the message whose update came last |
| Conversations.MerchantSeesTheRest | app/server/services/conversationService.ts:162-182 | the merchant's history is the agents' history without its internal messages, in the same order |
| Conversations.NotesAreInvisible | app/server/services/conversationService.ts:95-182 | two runs, in any interleaving, that differ only in the steps of internal notes give every conversation the same merchant history, unread count, first reply and SLA state |
| Conversations.InternalCountsIffMerchant | app/server/services/conversationService.ts:107-109 | an internal message, hidden from the merchant's history, bumps the unread count exactly when its sender is MERCHANT, which no caller in the repository asks for |
| Conversations.StampIsFirstReply | app/server/services/conversationService.ts:111-131 | where replies to a conversation take turns, after any run firstReplyAt is the first reply's time, or that reply's call is unfinished |
| Conversations.StampIsFirstReplyFromTheStart | app/server/services/conversationService.ts:111-131 | the same for runs from the empty store |
| Conversations.StampNeverChanges | app/server/services/conversationService.ts:116-131 | and, once set, the stamp never changes again |
| Conversations.StampedOnceIff | app/server/services/conversationService.ts:111-131 | over every run and interleaving from the start, a conversation's stamp never changes once set exactly when all replies that look before the first reply is committed there, and are themselves committed, were created at the same time |
| Conversations.OverlappingRepliesRestamp | app/server/services/conversationService.ts:83-131 | two overlapping replies both decide to stamp, and the later commit replaces the first reply's time |
| Conversations.CountersTellTheTruth | app/server/services/conversationService.ts:107-131 | with calls one after another, the unread count stays the number of MERCHANT messages since the last markRead and firstReplyAt the first reply's time |
| Conversations.CountersTellTheTruthFromTheStart | app/server/services/conversationService.ts:107-131 | so both hold after every sequence of calls from the empty store |
| Conversations.MetExactlyOnTimelyFirstReply | app/server/services/conversationService.ts:112-125 | a call changes the SLA state exactly when it is the first reply, a due time is set and met, and the state is ON_TRACK or BREACHING; it then becomes MET |
| RichBlocks.MarkdownToHtml | app/components/inbox/richTextConverter.ts:15-54 | the line loop with its inList flag produces the tree of one list per maximal run of list lines and one div per other line |
| RichBlocks.LoopBuildsBlockTree | app/components/inbox/richTextConverter.ts:18-53 | the pushed tags of the stateful loop and the recursive grouping build the same tree, for every sequence of lines |
| RichDom.ReadNode | app/components/inbox/richTextConverter.ts:101-181 | the node's text as the recursive reading gives it, gathered child by child and formatted in the source's stages |
| RichReading.ReadsCanonically | app/components/inbox/richTextConverter.ts:101-181 | any tree reads like its canonical form, in which b, i, s, strike, p and ol are replaced at every depth by the spellings the Markdown reader writes, and elements without a meaning are dissolved; the round trips speak of those spellings |
| RichReading.StyledReads | app/components/inbox/richTextConverter.ts:123-162 | a styled element leaves a text alone exactly when it starts with a mark of its style, swallows exactly blank text, and marking twice is marking once |
| RichReading.BlockReads | app/components/inbox/richTextConverter.ts:167-174 | lists and paragraphs end in a newline and add no more than that to their content |
| RichInline.PlainStableIff | app/components/inbox/richTextConverter.ts:56-87 | the text of a line, if it holds no markers, comes back as the HTML parser receives it, carriage returns read as newlines and NULs dropped: unchanged exactly when it holds neither |
| RichRules.MatchIff | app/components/inbox/richTextConverter.ts:59-77 | each rule matches exactly its pattern, with the shortest body: marks, a body, the same marks, no backtick inside code and no line end inside the others, no asterisk or underscore more around its marks, nor inside single ones |
| RichRules.LinkIff | app/components/inbox/richTextConverter.ts:80-84 | a link is found exactly at a bracketed text without a closing bracket followed by a parenthesised address without white space or closing parenthesis, which goes on after http://, https:// or mailto: |
| RichSpans.RulePass | app/components/inbox/richTextConverter.ts:59-78 | each replacement rule, guards and shortest bodies included, renders exactly the spans of its own style in an unambiguous span sequence and passes the rest by |
| RichSpans.SpansStableIff | app/components/inbox/richTextConverter.ts:56-181 | a line of text and unambiguous code, bold, italic, strike-through and link spans comes back unchanged exactly when its plain text holds no carriage return or NUL, its addresses no double quote or NUL and its marks are no underscores, which come back as asterisks; the text it comes back as is told when no equals sign follows a double quote in an address |
| RichSpans.LinkSurvivesIff | app/components/inbox/richTextConverter.ts:80-84 | a link span comes back unchanged exactly when its address holds no double quote and no NUL; where no equals sign follows the first double quote, it comes back with the address cut at that quote, where the href attribute ends |
| RichSpans.QuotedAddressIsCut | app/components/inbox/richTextConverter.ts:5-84 | a concrete link with a double quote in its address that comes back shorter |
| RichRoundTrip.NormaliseIs | app/components/inbox/richTextConverter.ts:15-54 | a document's trip through the editor is its lines' texts joined, newline runs collapsed and the end trimmed, where a carriage return may have broken a line's text in two; the empty and one-break special cases agree |
| RichRoundTrip.CanonicalRoundTrip | app/components/inbox/richTextConverter.ts:101-211 | canonical Markdown written with text and unambiguous spans that the HTML parser reads as they stand converts to the tree and back to the same text |
| RichRoundTrip.FixedIffCanonical | app/components/inbox/richTextConverter.ts:101-211 | among documents whose inline parts come back unchanged, the fixed points of the trip are exactly the canonical ones: tidy lines, no run of three newlines, nothing to trim at the end |
| RichRoundTrip.TwiceIsOnceIff | app/components/inbox/richTextConverter.ts:24-211 | for every block-only document, carriage returns included, normalising twice equals once exactly when the lines it breaks into at its carriage returns are settled: up to the last visible one none is a list line spelled another way or a line of spaces, and trimming the last visible one does not make it such a list line |
| RichRoundTrip.TwiceIsOnceIffIntact | app/components/inbox/richTextConverter.ts:24-211 | without carriage returns and NULs that is a matter of the last visible line alone: it is a list line already, or trimming its end does not make it one spelled another way |
| RichSpanTrip.TwiceIsOnceIffSpans | app/components/inbox/richTextConverter.ts:24-211 | for every document whose lines are span lines (block marks spelled any way around text and unambiguous, readable spans), normalising twice equals once exactly when the last visible line is settled: a list line already, or trimming its end does not make it one spelled another way |
| RichRoundTrip.CarriageReturnChangesTwice | app/components/inbox/richTextConverter.ts:24-211 | a concrete document, a plus item ended by a carriage return, that the second trip changes again |
| RichRoundTrip.TwiceIsNotAlwaysOnce | app/components/inbox/richTextConverter.ts:24-211 | another, without carriage returns: a plus item ended by a line separator |
| MarkdownScanner.MarkdownText | app/components/inbox/MarkdownText.tsx:139-330 | the line loop with its four variables returns what the recursive grouping of the lines gives |
| MarkdownLines.ItemReads | app/components/inbox/MarkdownText.tsx:225-259 | a line is a fence exactly when it starts with three backticks once trimmed; any other is a bulleted or numbered item with this text exactly when it is made up of white space, a bullet or digits and a dot, white space and the text |
| MarkdownLines.SingleReads | app/components/inbox/MarkdownText.tsx:263-320 | what is neither is a heading of level one to three or a quote exactly by its signs, and otherwise blank or a paragraph as it stands |
| MarkdownLines.AfterGapIff | app/components/inbox/MarkdownText.tsx:242-294 | the group of each pattern is the shortest text that its white space leaves over |
| MarkdownScanner.EveryLineOnce | app/components/inbox/MarkdownText.tsx:139-330 | every line that is not a fence lands in exactly one block, in order and with its content |
| MarkdownScanner.BlocksStandWell | app/components/inbox/MarkdownText.tsx:151-322 | each list block is a maximal run of list lines of its kind outside fences; each code block is everything between two fences or from a fence to the end, and is not empty |
| InlineTokens.RenderInlineTokens | app/components/inbox/MarkdownText.tsx:21-137 | the inline loop, recursive calls included, pushes what the recursive reading of the text gives, for every matcher whose matches have the shape of the pattern's |
| InlineTokens.TokensKeepTheText | app/components/inbox/MarkdownText.tsx:21-137 | at every depth each character lands in exactly one token, in order; a styled token's children hold what its marks enclose; and a link's address always starts with http://, https:// or mailto: |
| InlineTokens.MatchShows | app/components/inbox/MarkdownText.tsx:63-131 | code stays code, a styled stretch keeps its style, and a link is an anchor exactly when its trimmed address has a safe scheme |
| InlineTokens.SafeIff | app/components/inbox/MarkdownText.tsx:3-9 | the safe schemes are http://, https:// and mailto: in any case |
| Journey.GroupEvents | app/routes/merchant-detail.tsx:949-960 | the loop over the feed returns the recursive grouping |
| Journey.GroupsPartition | app/routes/merchant-detail.tsx:949-960 | the groups put end to end are the feed, and a cut stands exactly where the gap exceeds 30 minutes |
| Journey.OnlyOneCut | app/routes/merchant-detail.tsx:949-960 | no other grouping has that property |
| Journey.CollapseSteps | app/routes/merchant-detail.tsx:963-972 | the step loop, which overwrites its last element, returns the recursive run-length form |
| Journey.StepsExpandBack | app/routes/merchant-detail.tsx:963-972 | step counts expand back to the sequence of identities, counts are positive and no two neighbours are alike |
| Journey.StepsCountEvents | app/routes/merchant-detail.tsx:963-972 | the counts of a session add up to its events |
| Journey.BuildJourneySessions | app/routes/merchant-detail.tsx:948-980 | the sessions, each with its id, start, end and steps |
| Journey.AppendOlder | app/routes/merchant-detail.tsx:1059-1066 | appending older events extends the last group or starts new ones behind it |
| Journey.OlderPageKeepsSessions | app/routes/merchant-detail.tsx:1059-1066 | loading an older page leaves every session but the last unchanged |
| JourneySessions.SessionsApart | app/routes/merchant-detail.tsx:948-984 | sessions of a newest-first feed lie more than 30 minutes apart, the newer before the older, and no pause inside one is longer |
| JourneySessions.SessionTells | app/routes/merchant-detail.tsx:962-982 | a session is named and starts by its oldest event and ends at its newest, all of it lies between, and its steps spelled out are its events from the oldest on |
| JourneySessions.StepShowsItsFirst | app/routes/merchant-detail.tsx:964-973 | a step shows the earliest event of its run |
| JourneySessions.IdentityTells | app/routes/merchant-detail.tsx:943-945 | for names and categories without a colon, events collapse exactly when name, category and properties agree |
| Lifecycle.LifecycleService.RecordUninstallEvent | app/server/services/lifecycleService.ts:57-82 | event and audit row together, or nothing when the latest event is already an uninstall |
| Lifecycle.LifecycleService.RecordReinstallEvent | app/server/services/lifecycleService.ts:96-123 | event and audit row together, and true, exactly for a churned shop |
| Lifecycle.LifecycleService.ChurnedShops | app/server/services/lifecycleService.ts:126-136 | exactly the shops whose latest event is an uninstall, each once, in whatever order the log was written |
| Lifecycle.LifecycleService.RunRollup | app/server/services/growthMetricsService.ts:35-57 | a reinstall check per listed shop, then the three figures: NPS as given, the churned count over the updated log, whatever order it was written in, the listed shops that are not healthy |
| Lifecycle.LogAlternates | app/server/services/lifecycleService.ts:57-123 | over any run of whole calls, a shop's log strictly alternates from UNINSTALL, and each event has its audit row |
| LifecycleFlips.LogIsItsFlips | app/server/services/lifecycleService.ts:57-123 | over every run, told by the operations alone: a shop is churned exactly when the last operation concerning it is an uninstall hook, and its log is exactly the list of the operations that changed that, each at its instant |
| LifecycleFlips.AtRiskCounts | app/server/services/growthMetricsService.ts:35-57 | the at-risk figure is the number of listed shops that are not healthy |
| Lifecycle.ChurnedCountsUninstallsLessReinstalls | app/server/services/lifecycleService.ts:126-136 | the churned shops number exactly the uninstalls less the reinstalls |
| Lifecycle.ReinstallAllRemoves | app/server/services/growthMetricsService.ts:38-45 | a rollup takes exactly the listed shops out of the churned set |
| Lifecycle.RollupReports | app/server/services/growthMetricsService.ts:35-57 | the rows it writes, the churned figure being the shops churned before that are not listed |
| Lifecycle.RepeatedRollupAddsNothing | app/server/services/growthMetricsService.ts:42-44 | a repeat adds no event and no audit row when none of its shops was uninstalled in between, whatever else ran: uninstalls of other shops or apps, rollups of any lists |
| LifecycleRaces.AlternatesIffInTurn | app/server/services/lifecycleService.ts:57-123 | over every run of interleaved checks and inserts of calls that take their time as they check, a shop's log strictly alternates by time from UNINSTALL exactly when no two of its calls pass their checks before either inserts and then both insert |
| LifecycleRaces.AlternatesThroughoutIff | app/server/services/lifecycleService.ts:57-123 | over every run, calls included that took their time before they checked, as a rollup's reinstalls do: a shop's log alternates at every moment exactly when each insert's time is later than all the shop's events and an even number of the shop's inserts fell between its check and it |
| FinishedLogs.FinishedAlternatesIff | app/server/services/lifecycleService.ts:57-123 | over every run, the log a shop is left with alternates by time exactly when each check that led to an event had seen the shop churned if and only if an odd number of its events stand before that event in the end |
| FinishedLogs.RowsFollowEvents | app/server/services/lifecycleService.ts:64-123 | however calls interleave, each event has its audit row, in the same order |
| LifecycleRaces.OvertakenRollup | app/server/services/growthMetricsService.ts:35-45 | a run in which a rollup that began before an uninstall comes to the shop after it: the reinstall is recorded with the earlier time, and the shop stays churned |
| LifecycleRaces.RacingUninstallsRecordTwice | app/server/services/lifecycleService.ts:55-82 | a run from the empty log in which two calls both check before either inserts and the uninstall is recorded twice |
| Flags.FeatureFlagService.CreateFlag | app/server/services/featureFlagService.ts:49-67 | the flag and its audit row, or an error for a key already taken |
| Flags.FeatureFlagService.UpdateFlag | app/server/services/featureFlagService.ts:70-100 | only the fields present in the patch change; a missing flag is an error |
| Flags.FeatureFlagService.RemoveFlag | app/server/services/featureFlagService.ts:103-119 | the flag goes with all its overrides |
| Flags.FeatureFlagService.SetShopOverride | app/server/services/featureFlagService.ts:122-149 | the shop's override is created or replaced, whether or not the flag exists |
| Flags.FeatureFlagService.ClearShopOverride | app/server/services/featureFlagService.ts:152-171 | the shop's override is gone; other shops keep theirs |
| Flags.FeatureFlagService.EvaluateForShop | app/server/services/featureFlagService.ts:178-195 | one answer per flag of the app, whatever order the store returns them in |
| Flags.EvaluationFollowsHistory | app/server/services/featureFlagService.ts:49-195 | after any run of mutations a shop sees what the audit trail alone says: the last surviving override, else the bucket against the last percentage, else the last default, for exactly the flags the trail knows |
| FlagHistory.SeenBySteps | app/server/services/featureFlagService.ts:49-195 | over every run, told by the steps alone: a shop sees the flags created and not removed since; of each the override last set and neither cleared nor removed with its flag, else the bucket against the percentage last set if that is positive, else the default last set |
| FlagHistory.UpdateRowsTellBefore | app/server/services/featureFlagService.ts:76-99 | the row of an update names the settings the trail before it gives the flag |
| Flags.OverrideOutlivesMissingFlag | app/server/services/featureFlagService.ts:122-149 | an override set before its flag exists applies once the flag is created |
| Flags.RampOnlyAddsIff | app/lib/featureFlagEval.ts:28-39 | raising a percentage, from null or from a number, only adds shops exactly when the ramp had started, is not started now, the flag is off by default, or the new percentage reaches every shop |
| Ringer.ChatAudio.StartCallRinger | app/lib/chatAudio.ts:228-336 | the active ringer is stopped first; with the sound off onStop runs at once; else bursts and a final timer are set and the new ringer is the active one |
| Ringer.ChatAudio.StopCallRinger | app/lib/chatAudio.ts:339-345 | ends the active ringer, if any |
| Ringer.ChatAudio.IsRingerActive | app/lib/chatAudio.ts:348-350 | true only if some ringer rings, and, as long as no ringer was orphaned, whenever one does |
| Ringer.ChatAudio.SetSoundEnabledTo | app/lib/chatAudio.ts:31-43 | switching the sound off stops the ringer |
| Ringer.ChatAudio.CleanupCall | app/lib/chatAudio.ts:246-267 | the first call of a handle ends its ringer, clears its timers and runs onStop; later calls do nothing |
| Ringer.ChatAudio.FireTimer | app/lib/chatAudio.ts:269-334 | a burst timer sounds a burst, the final timer ends the ringer |
| Ringer.BurstsAre | app/lib/chatAudio.ts:317-329 | the bursts are every multiple of three seconds below the duration; the extra test inside the loop never fails |
| Ringer.EndedExactlyOnce | app/lib/chatAudio.ts:228-345 | over every run, re-entrant starts included: an ended ringer ran its onStop once and has no timer left, a live one has not and still waits for its final timer |
| Ringer.StoppedForGood | app/lib/chatAudio.ts:246-267 | once ended a ringer never changes: no burst after its stop, no second onStop |
| Ringer.RungInFull | app/lib/chatAudio.ts:317-334 | a ringer ended by its own final timer has sounded one burst per three seconds of its duration |
| Ringer.LastTimerEnds | app/lib/chatAudio.ts:269-334 | each timer of a live ringer but the last sounds a burst and leaves it ringing; the last one ends it, at its duration |
| Ringer.StartRecords | app/lib/chatAudio.ts:228-336 | a start leaves a ringer with what it was asked for: active and waiting for its whole schedule with the sound on, ended with its onStop run with the sound off |
| Ringer.StopsEnd | app/lib/chatAudio.ts:31-43 | a handle ends its own ringer, a stop and switching the sound off the active one |
| Ringer.OneRingerIff | app/lib/chatAudio.ts:228-345 | at most one ringer is live throughout a run, and it is the active one, exactly when no start of the run finds an active ringer whose onStop starts another |
| Ringer.QuietCallbacksRingOne | app/lib/chatAudio.ts:228-345 | so callbacks that start nothing never leave two ringers |
| Ringer.TwoAtOnce | app/lib/chatAudio.ts:232-272 | a concrete run with a re-entrant start: a ringer rings on that isRingerActive denies and no stop reaches |
| Ringer.OldHandleIsHarmless | app/lib/chatAudio.ts:246-267 | with one ringer at a time, isRingerActive tells whether anything rings and an old handle changes nothing |
| Calendar.YearIsUnique | app/lib/usageMetrics.ts:303 | the year read from an instant is the only one whose days contain it |
| Calendar.DatesAreInTheirMonths | app/lib/usageMetrics.ts:302-304 | every day's date lies within its month, whose lengths are those of the calendar |
| Calendar.MonthLengths | app/lib/usageMetrics.ts:302-304 | April, June, September and November have thirty days, February 28 or 29, the others 31 |
| Calendar.DayStartTruncatesIff | app/lib/usageMetrics.ts:302-304 | utcDayStart is the midnight at or before the instant exactly when its year is not 0 to 99, which Date.UTC reads as 1900 to 1999 |
| Calendar.WeekStartFloorsIff | app/lib/usageMetrics.ts:313-319 | isoWeekStart is always a Monday midnight, and the one at or before the instant exactly outside those years |
| Calendar.WeekStartIdempotentIff | app/lib/usageMetrics.ts:313-319 | the week start of a week start is itself, except for the first three days of the year 100 |
| Calendar.WeekOffsetCounts | app/lib/usageMetrics.ts:322-324 | for all instants, the offset is k exactly when the two week starts lie 7k days apart, k negative included |
| Calendar.WeekOffsetPlaces | app/lib/usageMetrics.ts:322-324 | the offset is k exactly when the event falls in the k-th week from the cohort's, outside the years 0 to 99 |
| Percentiles.PercentileIsLeast | app/lib/usageMetrics.ts:222-228 | the value is the least member of the population with at least the asked share at or below it |
| Percentiles.PercentileMonotone | app/lib/usageMetrics.ts:222-228 | a larger share never gives a smaller value |
| Percentiles.BandMonotone | app/lib/usageMetrics.ts:210-219 | a higher score never falls into a weaker band, whatever the two cut-points |
| Percentiles.BandShares | app/lib/usageMetrics.ts:210-219 | in its own population at least N less the rank, plus one, members are POWER, and no more exactly when the member before the rank scores less; likewise for REGULAR or better when the power cut is the higher |
| Percentiles.MedianHalves | app/lib/usageMetrics.ts:237-243 | at least half of the sample lies at or below the median and at least half at or above |
| Percentiles.MedianIsMidpoint | app/lib/usageMetrics.ts:237-243 | the median is the mean of the value that at least half are not above and more than half not below, and of the value the other way round |
| Percentiles.BandEdges | app/lib/usageMetrics.ts:210-219 | INACTIVE are exactly those without a positive score, and LIGHT is everyone else when there is nobody to compare with |

## Left out

- Image decoding, resizing, AVIF encoding and file storage: foreign code; the model starts from the raw buffer.
- Floating-point rounding: averages, ratios, scores and percentile shares are reals, times and counts integers.
- Image height and width of zero: the decoder never yields them.
- Database anomalies below serializable, and failures between a message's insert and its update.
- A reader that throws before its first await, and a change of the cache TTL while the process runs.
- Times that callers pass as `now` are taken at commit, except in `LifecycleRaces` and `FinishedLogs`; elsewhere a transaction
  that starts earlier than it commits is not distinguished.
- Two lifecycle events of one shop at the same millisecond: the store's order among them is unspecified.
- The KPI recomputation after an uninstall, retention purge, and the SLA sweep, which appears only as a step that sets an SLA
  state. How a shop's health and the NPS figure come about: the rollup takes both as given.
- Conversations.ConversationService.UpdateStatus: the read before its transaction is taken together with it.
- getOrCreateForShop, which decides whether a conversation is created, setPinned and assign, the inbox listing, search and
  unreadTotal: each is one query or one field.
- The HTML string between the two converters: the tree it denotes is modelled directly, with tags as tokens and the parser's
  reading of carriage returns, NULs and the end of a quoted attribute, so escaping, style attributes, link addresses that contain
  markers and the string fallback outside a browser are not covered.
- RichRoundTrip.NormaliseIs: misnested tags, such as those of crossing bold and italic marks, are closed innermost first, where a
  browser repairs them by its own algorithm; and what follows a double quote in an address is dropped here, where a browser may
  read a further attribute in it: a style that makes the link bold, or a single-quoted value that keeps the tag open.
- RichSpans.SpansStableIff: for the same reason the returned text is not told when an equals sign follows a double quote in an
  address; whether the line is stable is told for every address.
- RichSpans.LinkSurvivesIff: likewise.
- RichRoundTrip.CanonicalRoundTrip: nested spans and adjacent spans of one marker character are outside its grammar, because
  the replacement chain itself reads some of them differently.
- RichRoundTrip.TwiceIsOnceIff: documents without inline markers. `RichSpanTrip.TwiceIsOnceIffSpans` adds unambiguous spans; with
  other markers the first trip may leave text that the second reads as a new span.
- The pattern of the inline tokenizer: any matcher with the pattern's captures stands for it; React keys and styles are dropped.
- Event dates that do not parse, and the JSON encoding of event properties, which is taken as given text.
- Web Audio nodes, the notification chime, browser storage of the sound preference, and an onStop that stops a ringer, switches
  the sound or throws.
- Instants beyond the range of a JavaScript date, and invalid dates.
- The SHA-256 rollout bucket: any fixed function into 0 to 99 stands for it. Percentages are integers.
- Persona tags, lifecycle stages, intensity weights, role checks and input validation: one-branch facts.
