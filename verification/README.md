# microblog.pub: models of the workers and protocol state machines

A Dafny model of the parts of the server that run on their own or that other servers talk to, with proofs of
what they keep over whole runs. Each file is one module; `Base.dfy` holds the sequence vocabulary they share.

| file | what it models |
|---|---|
| `Delivery.dfy` | one batch of outgoing requests, grouped by recipient and delivered by concurrent tasks under a global and per-host semaphores |
| `OutgoingQueue.dfy` | the rows of the outgoing queue through count, delivery, outcome, sweep and crash |
| `IncomingQueue.dfy` | the incoming queue, one row at a time |
| `PushWorker.dfy` | the Web Push cursor of a subscription: catch-up, filters, delivery, backoff, fast-forward |
| `ReplyTree.dfy` | the recursive tree of a conversation |
| `ConversationRoot.dfy` | the depth-bounded walk that names a conversation |
| `QuoteConsent.dfy` | quote posts with consent (FEP-044f) on both sides, with the stamps that authorize them |
| `NotificationGroups.dfy` | group keys, the aggregate that counts a group, and walking the pages |
| `PollTally.dfy` | votes on our polls, their published tally, and edits of the question |
| `ScheduledStatuses.dfy` | scheduled publishing with failures and stops at any point |
| `IndieAuth.dfy` | authorization codes and chains of rotating refresh tokens |
| `StatusIds.dfy` | bit-packed status ids, and direct message threads ordered by them |
| `HttpSignature.dfy` | the signed string, and the Signature header printed and parsed |
| `EndedPolls.dfy` | the ended-poll sweep, with notifications deleted at any point |

A database transaction is one step; what is staged but not committed is lost when a step raises or the process
stops. A query is a function of the table. Answers of other servers, library results and clock readings are
arbitrary inputs; clock readings that the code orders are ordered. Row ids and allocated ids are new.

What each operation does is stated on its inputs and on what it writes, apart from the function that computes it (the
lemmas named `...Writes`, `...Are` and `...Iff`); the results over runs are about those operations.

Where a promise of the code or of its comments does not hold for every input, the model keeps the code and a lemma
gives the exact condition:

- `OutgoingQueue.CrashesAllowMoreTries`, `OutgoingQueue.QueueSafety`: 16 attempts can be exceeded by one for every
  crash between the commit that counts an attempt and the one that stores its outcome, and by no more.
- `PushWorker.PassRaisesIff`, `PushWorker.PoisonRepeats`, `PushWorker.ReceiptsAreCommittedIff`: a status, poll or
  update notification with its alert on has no title, so building its payload raises and rolls the whole batch back,
  and every pass repeats what earlier notifications had already been sent.
- `IncomingQueue.HeadBlocksTheQueue`: a row without an object or a sender never settles, and keeps every later row
  from being fetched once it is at the head.
- `ScheduledStatuses.LostIff`: publishing commits the row's delete without the status when the post to quote was
  found before the send and is no longer stored in it; what fails after that loses the row.
- `NotificationGroups.LinkHeaderIsExactIff`: the docstring of the page assembly says the next page picks up exactly
  where this one left off; with the Link header's cursor rows are listed twice unless the oldest row belongs to the
  last group.
- `NotificationGroups.AnsweredLookupIff`, `NotificationGroups.LookupRefusedIff`: the single-group lookup tests both id
  columns, the key only one; rows of another group can raise its count, or hide it. `NotificationGroups.DismissalIff`: dismissing
  a group deletes such rows of another one.
- `QuoteConsent.AnswerDecides`: a consented quote without source text stays pending.
- `QuoteConsent.RevocationTakesEffectIff`, `QuoteConsent.HidingTakesEffectIff`: of several quotes on one stamp a Delete
  takes down the first; `QuoteConsent.OneDeleteCanLeaveQuotes` is a run with several.
- `PollTally.SingleChoiceConserves`: repeated option names count a vote more than once.
- `PollTally.PublishesItsTallyIff`, `PollTally.EditedPollIsClosed`: editing the text of a question drops its options, its
  end and its tally and keeps the answers; no vote is taken after it.
- `EndedPolls.NotificationsAreAccountedFor`, `EndedPolls.RemovalsRepeat`: the docstring of the module says a second
  notification about a poll is never emitted; one is, after each deletion of its row, while the poll stays a candidate.
- `ReplyTree.TooDeepIff`: a reply chain longer than the interpreter lets calls nest, or a root on a reply cycle, makes
  the tree raise.
- `ConversationRoot.SharesTheConversationIff`, `ConversationRoot.CyclesDisagreeIff`: replies more than eleven hops below
  the end of their chain get another conversation, and so do the members of a reply cycle.

Three lemmas say why a hypothesis is there and not that the code breaks a promise: `HttpSignature.ParsePrintIff` (commas
in printed values), `HttpSignature.NewlinesUnbind` (newlines in signed values) and `NotificationGroups.WalkLosesIff` (a
window full of rows that cannot be grouped; the conditions the router passes keep such rows out).

## Model

| member | source | states |
|---|---|---|
| Delivery.DeliverGroup | activitypub/outgoing_activities.py:293-329 | a recipient's requests get, in queue order, their own replies until one meets a host-level failure; every later one is skipped with that failure's host and retry instant, under its own activity id |
| Delivery.GroupOutcomesSnoc | activitypub/outgoing_activities.py:293-329 | a request of a group is attempted exactly when no earlier one of the group met a host-level failure, and a skip repeats the first such failure |
| Delivery.GroupByRecipient | activitypub/outgoing_activities.py:338-340 | the groups are the requests of each recipient, in queue order, recipients in the order of their first request |
| Delivery.RecipientsDistinct | activitypub/outgoing_activities.py:338-340 | each recipient has one group |
| Delivery.RecipientsComplete | activitypub/outgoing_activities.py:338-340 | every request is in a group |
| Delivery.RecipientsInOrder | activitypub/outgoing_activities.py:338-340 | a recipient comes before another when it has a request before any of the other's |
| Delivery.StartInv | activitypub/outgoing_activities.py:342-355 | a batch starts with all permits free and every request owed its in-order outcome |
| Delivery.OneMoreStep | activitypub/outgoing_activities.py:293-329 | a schedule goes on with exactly the tasks that can move, and each moves by one step |
| Delivery.SemaphoreStep | activitypub/outgoing_activities.py:315-316 | taking and giving back the two semaphores keeps permits plus holders constant, globally and for every host |
| Delivery.SkipStep | activitypub/outgoing_activities.py:304-329 | a task hands out skips exactly from a host-level failure on |
| Delivery.LogStep | activitypub/outgoing_activities.py:304-329 | a step of a recipient's task keeps its log of POSTs in queue order, one at a time, skipped requests absent |
| Delivery.LogFrame | activitypub/outgoing_activities.py:304-329 | a step of one task leaves the logs of all other recipients alone |
| Delivery.StepInv | activitypub/outgoing_activities.py:293-358 | every step of every task keeps the whole invariant |
| Delivery.RunInv | activitypub/outgoing_activities.py:293-358 | so does every interleaving |
| Delivery.SafetyOfInterleavings | activitypub/outgoing_activities.py:293-358 | in every interleaving, finished or not, at most `concurrency` POSTs run at once, at most `perHost` of them to one host, and each recipient's POSTs happen one at a time, in queue order, never after a host-level failure; requests are skipped exactly after one |
| Delivery.NoDeadlock | activitypub/outgoing_activities.py:315-316 | no reachable state with work left is stuck, although a task takes the global semaphore before its host's |
| Delivery.StepLowersWork | activitypub/outgoing_activities.py:304-329 | each step lowers the work left |
| Delivery.RunsAreFinite | activitypub/outgoing_activities.py:352-358 | every interleaving ends after at most three steps for each request |
| Delivery.InterleavingIsConfluent | activitypub/outgoing_activities.py:352-358 | whatever the interleaving, the collected outcomes are those of delivering each group alone and in order |
| Delivery.ExactlyOneOutcomePerRequest | activitypub/outgoing_activities.py:332-358 | the outcomes of a batch are a permutation of a one-pass reading of it |
| Delivery.ReferenceIds | activitypub/outgoing_activities.py:332-358 | that reading has one outcome for each request, in queue order, under the request's id |
| Delivery.AttemptedIff | activitypub/outgoing_activities.py:229-329 | a request of a batch is attempted exactly when no earlier one to its recipient was answered with 429 or 503 or not at all; then its outcome is its own status or exception, with a retry instant only from a 429 or 503 |
| Delivery.SkippedFor | activitypub/outgoing_activities.py:304-329 | behind the first request of a recipient that meets a 429, a 503 or no answer, every later one is skipped under its own id, for that request's host, until the instant that reply asked to wait for |
| Delivery.GroupIsABatch | activitypub/outgoing_activities.py:293-329 | the outcomes of a group are those of a batch that holds nothing else, so both statements are about a group too |
| Delivery.FirstUnavailableIff | activitypub/outgoing_activities.py:281-329 | the skip of a group is caused by one of its requests whose own reply is a host-level failure, and there is none only when no reply of the group is |
| Delivery.DeliverBatch | activitypub/outgoing_activities.py:332-358 | running the tasks under any scheduler returns the outcomes of delivering each group alone and in order, group after group |
| Delivery.Advance | activitypub/outgoing_activities.py:352-355 | whichever task that can move is picked next, the invariant is kept and the work left shrinks |
| OutgoingQueue.SetNextTry | activitypub/models.py:909-923 | sets the next try from the given instant or from the backoff, or gives the activity up at the limit, and touches nothing else |
| OutgoingQueue.BackoffBudget | activitypub/models.py:904-923 | for every retry limit N the waits before giving up add up to 2^N - 2 seconds, and each is twice the one before |
| OutgoingQueue.BackoffBudgets | activitypub/incoming_activities.py:16-16 | 65534 seconds for the outgoing queue's 16 tries, 254 for the incoming queue's 8 |
| OutgoingQueue.ApplyDeliveryOutcome | activitypub/outgoing_activities.py:361-396 | the row becomes what its outcome makes of it, at one reading of the clock |
| OutgoingQueue.GivesUpIff | activitypub/outgoing_activities.py:361-396 | a failure gives the row up exactly when it is a client error other than 401 and 429 or came with the sixteenth try; else the row waits as long as a pausing host asked, or its backoff |
| OutgoingQueue.RowLeavesBatch | activitypub/outgoing_activities.py:399-457 | after a batch a row has used one try and is sent, errored, or scheduled after the sweep looked at it; never both sent and errored; left open only below 16 tries |
| OutgoingQueue.SweepFiresIff | activitypub/outgoing_activities.py:440-457 | the sweep changes a row exactly when it is still open and already due again, which without Retry-After takes a clock that moved the whole backoff meanwhile |
| OutgoingQueue.RowAfterBatch | activitypub/outgoing_activities.py:361-457 | where a batch takes a row, column by column: its try counted and stamped, sent on a response, given up by a client error or the sixteenth failure, else waiting for the instant a paused host asked for if it is still to come, or 2^n seconds |
| OutgoingQueue.StartAttempt | activitypub/outgoing_activities.py:405-412 | an attempt is counted and stamped before the request is built |
| OutgoingQueue.Prepare | activitypub/outgoing_activities.py:405-432 | every row is counted; those whose request could be built are delivered, the others get their error as outcome |
| OutgoingQueue.ApplyOutcomes | activitypub/outgoing_activities.py:434-440 | each outcome is applied to its own row, once, in whatever order outcomes come |
| OutgoingQueue.Sweep | activitypub/outgoing_activities.py:440-457 | only rows that would be fetched again at once are moved to a later try |
| OutgoingQueue.OutcomesAsExpected | activitypub/outgoing_activities.py:405-440 | preparation errors and delivery outcomes together are one expected outcome for each activity |
| OutgoingQueue.OutcomesPermuteExpected | activitypub/outgoing_activities.py:405-440 | what any scheduler returns is a permutation of the expected outcomes |
| OutgoingQueue.DeliverAndApply | activitypub/outgoing_activities.py:434-440 | after delivery every row is where its expected outcome takes it |
| OutgoingQueue.ProcessOutgoingActivitiesBatch | activitypub/outgoing_activities.py:399-457 | one batch takes every row through count, outcome and sweep, at its own clock readings |
| OutgoingQueue.SentIff | activitypub/outgoing_activities.py:186-440 | an activity ends up sent exactly when it could be built, no earlier one to its recipient met a host-level failure, and the remote side accepted it |
| OutgoingQueue.PauseReachesTheRow | activitypub/outgoing_activities.py:304-457 | behind the first request that finds its host down, the row of every later one to that recipient waits for the instant that reply asked for when it is still to come, else for its own backoff |
| OutgoingQueue.NextInv | activitypub/outgoing_activities.py:149-176 | fetch, batch, crash, clock and enqueue steps keep the queue invariant |
| OutgoingQueue.QueueSafety | activitypub/outgoing_activities.py:149-457 | over every run no row is both sent and errored, open rows are scheduled, settled rows never change again, and no row is tried more than 16 times plus once for every crash |
| OutgoingQueue.BatchLowersTriesLeft | activitypub/outgoing_activities.py:399-457 | a batch lowers the sum of the tries left |
| OutgoingQueue.BatchIsAStep | activitypub/outgoing_activities.py:399-457 | what a batch does to the rows it works on is one batch step of the whole table |
| OutgoingQueue.RunBatch | activitypub/outgoing_activities.py:531-546 | running a batch over due rows of the queue takes the queue one batch step further, each row meeting the outcome expected for it |
| OutgoingQueue.NewRowIsDue | activitypub/models.py:878-893 | a new row has made no attempt and is due at once |
| OutgoingQueue.QueueDrains | activitypub/outgoing_activities.py:399-457 | in every stretch of a run, crashes included, the batches number at most the tries left at its start plus 16 for every row it adds |
| OutgoingQueue.CrashesAllowMoreTries | activitypub/outgoing_activities.py:405-440 | the bound of QueueSafety is reached: for every number c of crashes there is a run in which a row makes 16 + c attempts |
| IncomingQueue.FetchNext | activitypub/incoming_activities.py:50-72 | the fetched row is due and no due row comes before it in (next try, id) order |
| IncomingQueue.FetchedIff | activitypub/incoming_activities.py:50-72 | a row is fetched exactly when it is open and due and every other such row has a later next try, or the same and a larger id |
| IncomingQueue.OneMoreStep | activitypub/incoming_activities.py:75-118 | a run goes on step by step, each attempt on what the steps before it left |
| IncomingQueue.AttemptWrites | activitypub/incoming_activities.py:75-118 | an attempt counts the try of the fetched row, then processes it, schedules it 2^n seconds on, or gives it up with the eighth failure; no other row is written |
| IncomingQueue.Worker.SetNextTry | activitypub/models.py:909-923 | gives the row up at eight tries, else moves its next try by the backoff |
| IncomingQueue.Worker.ProcessNext | activitypub/incoming_activities.py:75-118 | one attempt counts a try and settles or reschedules only the fetched row; an attempt cut short keeps only the count |
| IncomingQueue.RunKeeps | activitypub/incoming_activities.py:75-118 | over every run, with activities arriving at any point, a row is never both processed and errored, has a next try until it is errored, is errored only after eight tries, and a processable row is tried at most eight times plus once for every stop |
| IncomingQueue.StepLowersWork | activitypub/incoming_activities.py:75-118 | an attempt at a processable row that is not cut short uses one of its attempts up |
| IncomingQueue.QueueDrains | activitypub/incoming_activities.py:75-118 | rows with an object and a sender are all settled after at most eight attempts each, whenever they arrive |
| IncomingQueue.HeadBlocksTheQueue | activitypub/incoming_activities.py:50-118 | a row at the head of the queue that lacks its object or sender is fetched forever, and every other row, there from the start or arriving later, stays as it was |
| IncomingQueue.AttemptMovesIff | activitypub/incoming_activities.py:88-118 | an attempt settles or reschedules a row exactly when the row has both an object and a sender |
| PushWorker.PushSubscription.ApplyBackoff | app/push_notifications.py:82-90 | reports exhaustion at 16 tries, else sets the next try to the server's instant or the backoff, and touches nothing else |
| PushWorker.AttemptEndsIff | app/push_notifications.py:179-242 | an attempt raises exactly when the type has no title, lets the cursor move on exactly on a 2xx or 413, and ends the subscription exactly when its endpoint is disallowed or gone, or refused its sixteenth try in a row |
| PushWorker.AttemptWrites | app/push_notifications.py:82-90 | an attempt that stops and leaves the row sets the next try to the instant a 429 or 503 asked for, else to 2^n seconds on after the n-th refusal; one that moves on only clears the tries |
| PushWorker.WaitsAddUp | app/push_notifications.py:82-90 | a push service that keeps refusing without asking for a pause is given up after waits of 65534 seconds |
| PushWorker.UntitledAre | app/push_notifications.py:93-106 | exactly status, poll and update have an alert and no title |
| PushWorker.EligibleIff | app/push_notifications.py:301-318 | the scan looks at notifications with an actor and a pushable type that are not muted |
| PushWorker.WantedIff | app/push_notifications.py:245-276 | an eligible notification is wanted exactly when its alert is on and the policy lets its actor through |
| PushWorker.PassStarts | app/push_notifications.py:290-318 | a pass drops the row on a dead token, leaves one that is not behind, and first moves one more than 20 ids behind to 5 before the newest |
| PushWorker.WalkTakesOne | app/push_notifications.py:315-349 | the walk candidate by candidate: past one that is not wanted or that an attempt settles, stopping at any other, at the fifth delivery, or at the end on the newest id |
| PushWorker.PushSubscription.DeliverOne | app/push_notifications.py:179-242 | a 2xx or 413 lets the cursor move, a gone endpoint or exhausted retries drop the subscription, a payload without title raises, everything else backs off |
| PushWorker.PushSubscription.ConsiderOne | app/push_notifications.py:319-343 | a candidate filtered out by alerts or policy moves the cursor without a POST |
| PushWorker.PushSubscription.WalkCandidates | app/push_notifications.py:315-349 | the for/else walk: candidates in id order up to five deliveries; running out of them moves the cursor to the newest id |
| PushWorker.PushSubscription.ProcessSubscription | app/push_notifications.py:285-349 | one pass: drop on a dead token, catch up when more than 20 behind, walk |
| PushWorker.LimitNeverTruncates | app/push_notifications.py:285-318 | after the catch-up at most 20 distinct ids remain, so LIMIT 64 never hides a candidate and the fast-forward skips none |
| PushWorker.FewIds | app/push_notifications.py:285-318 | the counting argument: distinct ids in a window of n positions are at most n |
| PushWorker.ConsiderSafe | app/push_notifications.py:319-343 | a candidate the cursor passes was delivered, refused as too large or filtered, and only such a one can have been received |
| PushWorker.WalkSafe | app/push_notifications.py:315-349 | a walk never moves the cursor back or past the newest id, and its deliveries come in id order between the two cursors |
| PushWorker.WalkDealsWith | app/push_notifications.py:315-349 | every candidate behind the new cursor has been dealt with |
| PushWorker.PassSafe | app/push_notifications.py:285-349 | the same for a whole pass |
| PushWorker.PassAccountsFor | app/push_notifications.py:285-349 | every eligible notification a pass moves past was delivered, refused, filtered or dropped by the catch-up |
| PushWorker.PassRaisesIff | app/push_notifications.py:93-156 | a pass raises exactly when it reaches a wanted notification whose type has no title |
| PushWorker.WalkRaisesIf | app/push_notifications.py:93-156 | such a candidate makes the walk raise |
| PushWorker.WalkRaisesOnlyIf | app/push_notifications.py:93-156 | and nothing else does |
| PushWorker.Rollback | app/push_notifications.py:395-407 | an exception restores every subscription of the batch |
| PushWorker.ProcessPushSubscriptionsBatch | app/push_notifications.py:395-407 | a batch commits every pass, or none when one raises |
| PushWorker.CommitInv | app/push_notifications.py:395-407 | a committed pass keeps the cursor invariant |
| PushWorker.RenewInv | app/mastodon/router.py:2401-2421 | posting the subscription anew keeps the cursor invariant: it never moves the cursor back, and leaves exactly the backlog behind |
| PushWorker.CursorSafety | app/push_notifications.py:285-407 | over every run, rolled-back batches and renewed subscriptions included, the cursor never goes back, everything passed is accounted for by a committed pass or was left behind by a renewal, committed passes receive nothing twice, and tries never exceeds 16 |
| PushWorker.ReceiptsAreCommittedIff | app/push_notifications.py:395-407 | a run receives only what its committed passes receive exactly when no rolled-back batch had a POST accepted |
| PushWorker.NothingReceivedTwice | app/push_notifications.py:395-407 | in such a run no notification is received twice |
| PushWorker.PassLowersLag | app/push_notifications.py:352-392 | a pass through the gate lowers (newest id minus cursor, 16 minus tries) or ends the subscription |
| PushWorker.GateCloses | app/push_notifications.py:352-392 | in every run the committed passes of a subscription number at most its lag (newest id minus cursor, and tries left) behind the last notification of the run, plus 15 for each renewal |
| PushWorker.PoisonRepeats | app/push_notifications.py:395-407 | for every subscription, table and answers whose pass raises, n passes receive everything the pass delivers n times and leave the subscription where it was |
| PushWorker.MentionBeforeStatusRaises | app/push_notifications.py:93-106 | there are such subscriptions: a wanted status behind an accepted mention |
| ReplyTree.IndexReplies | activitypub/boxes.py:4371-4373 | the index holds, for every reply target, the nodes that reply to it in node order |
| ReplyTree.ParentlessIsNotOnCycle | activitypub/boxes.py:4404-4405 | a parentless node is on no reply cycle |
| ReplyTree.ChainsAreUnique | activitypub/boxes.py:4384-4402 | there is at most one way down from such a root to a node |
| ReplyTree.ChainIsShort | activitypub/boxes.py:4384-4402 | a descent from it visits no node twice, which is why the recursion ends |
| ReplyTree.SortIsStable | activitypub/boxes.py:4399-4402 | siblings are sorted by date and those of one date keep their order |
| ReplyTree.BuildSound | activitypub/boxes.py:4384-4402 | only descendants get into a tree |
| ReplyTree.BuildComplete | activitypub/boxes.py:4384-4402 | every descendant gets into it |
| ReplyTree.BuildDistinct | activitypub/boxes.py:4384-4402 | none gets into it twice |
| ReplyTree.BuildWellFormed | activitypub/boxes.py:4384-4402 | every edge is a reply, siblings are sorted, the flags are right |
| ReplyTree.GetRepliesTree | activitypub/boxes.py:4371-4420 | raises exactly on several parentless nodes or when a reply chain from the root is longer than the calls the recursion may nest; else the tree holds exactly what can be reached from its root, each once, siblings by date; the root is the parentless node, else the first of those published earliest |
| ReplyTree.OneRoot | activitypub/boxes.py:4404-4410 | there is only one such root |
| ReplyTree.EarliestIsFirst | activitypub/boxes.py:4407-4410 | the minimum by date is the first node in the list with the least date |
| ReplyTree.TreeIsReachability | activitypub/boxes.py:4371-4420 | membership in the tree is reachability by replies |
| ReplyTree.OneParentlessNode | activitypub/boxes.py:4376-4405 | exactly one parentless node is enough for the recursion to end, whatever cycles the others form |
| ReplyTree.WithinIsBuild | activitypub/boxes.py:4384-4402 | off a cycle the limited recursion builds the same tree, and always when it may nest a call for each node |
| ReplyTree.TooDeepIff | activitypub/boxes.py:4384-4402 | on any nodes, cyclic or not, the recursion runs into its limit exactly when a reply chain from the node is longer |
| ReplyTree.NeverEndsIffOnCycle | activitypub/boxes.py:4384-4402 | it runs into every limit exactly when the root is on a reply cycle |
| ConversationRoot.FetchConversationRoot | activitypub/boxes.py:719-767 | at most twelve calls on any reply graph, and never more than 12 minus the depth |
| ConversationRoot.BoundedWalk | activitypub/boxes.py:719-767 | agrees with the unbounded walk whenever that ends within eleven hops, raises when that fails within ten, else names the ancestor eleven hops up; one of the three always applies |
| ConversationRoot.WalkReaches | activitypub/boxes.py:719-767 | the walk from a post gives what the walk from its n-th ancestor gives at depth n |
| ConversationRoot.CallsOfTheWalk | activitypub/boxes.py:719-767 | the calls are one for each post looked at and one more where a parent within reach cannot be had; a walk that ends names the context of the post it ends at, or that post |
| ConversationRoot.SharesTheConversationIff | activitypub/boxes.py:719-767 | where the chain ends in a post that names the conversation like no other on it, a reply shares the conversation of an ancestor exactly when the end is within eleven hops of the reply |
| ConversationRoot.RepliesShareTheConversation | activitypub/boxes.py:719-767 | whatever the names, it does when the end is within eleven hops |
| ConversationRoot.FiledUnderTheEleventh | activitypub/boxes.py:719-767 | a post of a reply cycle of any length is filed under the id of the post eleven hops up |
| ConversationRoot.CyclesDisagreeIff | activitypub/boxes.py:719-767 | two posts of one cycle get the same conversation exactly when they are the same post |
| QuoteConsent.Instance.SendCreate | activitypub/boxes.py:865-873 | a quote of ours of an own post is stored accepted with a stamp, of anyone else's pending with a request; a forbidden or unknown target stores nothing |
| QuoteConsent.Instance.MintQuoteAuthorization | activitypub/boxes.py:421-456 | stores a stamp that names the owner, the quoting and the quoted post |
| QuoteConsent.Instance.HandleQuoteRequestAnswer | activitypub/boxes.py:2793-2886 | changes only the quote the request belongs to, and only on an answer from the quoted post's author |
| QuoteConsent.Instance.HandleQuoteAuthorizationDelete | activitypub/boxes.py:2381-2457 | a Delete of a remote stamp revokes our quote that stands on it, else hides the inbox quote that does, when its author sent it; a local stamp is not touched |
| QuoteConsent.Instance.ProcessInboundQuote | activitypub/boxes.py:3396-3465 | stores the quote, shown only when its stamp verifies against the quoted post's author |
| QuoteConsent.Instance.HandleQuoteRequest | activitypub/boxes.py:2579-2655 | drops, refuses, grants or asks the owner, by target, policy and visibility, and replies with an Accept that carries the stamp, a Reject, or nothing |
| QuoteConsent.Instance.SendQuoteRevoke | activitypub/boxes.py:2722-2774 | takes a live local stamp back with the quote it backs, or reports that there is none |
| QuoteConsent.DereferenceReads | activitypub/boxes.py:2460-2490 | a stamp under the base URL is read from the table, deleted or not, any other where it is served |
| QuoteConsent.VerifiesIff | activitypub/boxes.py:2460-2516 | a stamp verifies exactly when its host is the author's and its document is an authorization by the author for exactly this quote of exactly this post |
| QuoteConsent.PostingWrites | activitypub/boxes.py:865-873 | a quote is stored exactly when the target is known and ours or not forbidden: accepted with a live stamp, or pending behind a request |
| QuoteConsent.AnswerWrites | activitypub/boxes.py:2793-2886 | an answer rejects or accepts exactly the pending quote its request belongs to, when the author sent it; an Accept that verifies but cannot be republished writes nothing |
| QuoteConsent.UnknownRequestWritesNothing | activitypub/boxes.py:2793-2830 | an answer to no request of ours writes nothing |
| QuoteConsent.DeleteRevokesIff | activitypub/boxes.py:2401-2427 | a Delete revokes a quote of ours exactly when it is the first standing on that remote stamp and the quoted post's author sent it |
| QuoteConsent.DeleteHidesIff | activitypub/boxes.py:2429-2457 | it hides a remote quote exactly when none of ours stands on the stamp, it is the first relying on it, and the author sent it |
| QuoteConsent.StandingIff | activitypub/boxes.py:2401-2457 | a quote of ours stands on a stamp while accepted and not deleted, a remote one relies on it while shown |
| QuoteConsent.ArrivalWrites | activitypub/boxes.py:3396-3465 | an unknown remote quote is stored once, and shown exactly when its stamp is the quoted post's author's for exactly this pair |
| QuoteConsent.RequestWrites | activitypub/boxes.py:2579-2655 | a stamp for exactly this pair is added exactly when the target is known, ours, live and public, the quoting post is named, and the policy is public, or followers for a follower; the owner is asked exactly when it is manual instead; else nothing is written |
| QuoteConsent.ApprovalWrites | activitypub/boxes.py:2679-2702 | approving stamps exactly the pairs that were put to the owner |
| QuoteConsent.RevocationWrites | activitypub/boxes.py:2722-2774 | a revocation takes effect exactly on a shown quote with a live stamp of ours: it hides the quote and spends the stamp |
| QuoteConsent.OtherWrites | activitypub/boxes.py:3396-3425 | deleting a post marks its row; learning of a post records only an author that was not known |
| QuoteConsent.OutQuoteStep | activitypub/boxes.py:2381-2886 | one event moves a quote of ours at most one legal edge, never loses it, and writes its authorization only together with acceptance |
| QuoteConsent.InQuoteStep | activitypub/boxes.py:2381-3465 | one event never makes a stored inbox quote visible that was not |
| QuoteConsent.AuthorsAreKept | activitypub/boxes.py:3396-3465 | the author recorded for a post never changes |
| QuoteConsent.OnlyTheAuthorDecides | activitypub/boxes.py:2793-2830 | an answer or a Delete changes at most quotes of posts by the actor that sent it |
| QuoteConsent.AnswerDecides | activitypub/boxes.py:2832-2886 | an author's answer rejects a pending quote unless it carries a stamp that verifies; then it is accepted exactly when its source text is still there, else rolled back to pending |
| QuoteConsent.RevocationTakesEffectIff | activitypub/boxes.py:2401-2427 | the author's Delete takes a quote of ours down exactly when no earlier one stands on the same stamp |
| QuoteConsent.HidingTakesEffectIff | activitypub/boxes.py:2429-2457 | it hides a remote quote exactly when no quote of ours stands on the stamp and no earlier remote one relies on it |
| QuoteConsent.OneDeleteCanLeaveQuotes | activitypub/boxes.py:2401-2457 | a run in which two quotes of ours and a remote one stand on one stamp, and its author's Delete takes down only the first |
| QuoteConsent.OutQuotesOnlyMoveForward | activitypub/boxes.py:865-2886 | over every run a quote only goes from pending to accepted or rejected and from accepted to revoked |
| QuoteConsent.AcceptanceNeedsConsent | activitypub/boxes.py:2793-2870 | over every run an accepted or revoked quote of someone else's post goes back to an Accept by that post's own author with a stamp naming exactly the quoting post, the quoted post and the author |
| QuoteConsent.HiddenQuotesStayHidden | activitypub/boxes.py:1578-1597 | over every run an inbox quote that is not shown is never shown later |
| QuoteConsent.StampStep | activitypub/boxes.py:2722-2774 | a live stamp is spent only by revoking a quote that stands on it |
| QuoteConsent.RevokedBy | activitypub/boxes.py:2722-2774 | a spent stamp was spent by the owner's revocation |
| QuoteConsent.StepKeepsInv | activitypub/boxes.py:2460-3465 | every event keeps the invariant between stamps and the quotes they back |
| QuoteConsent.InvHolds | activitypub/boxes.py:2460-3465 | it holds in every run |
| QuoteConsent.RevokedStampIsDead | activitypub/boxes.py:2460-2516 | once taken back, a stamp never makes a quote visible again, although verification does not look at its deletion |
| QuoteConsent.ShownCanBeRevoked | activitypub/boxes.py:2722-2774 | in every run the owner can take back any shown quote that stands on a local stamp |
| QuoteConsent.GrantedQuoteIsShown | activitypub/boxes.py:2519-2655 | a granted request makes the quote it was made for visible when it arrives |
| QuoteConsent.NobodyIsAuthorized | activitypub/boxes.py:2613-2615 | under the policy "nobody" every stamp names a post of ours |
| QuoteConsent.NobodyQuotesTheOwner | activitypub/boxes.py:2613-2615 | under that policy no remote quote of the owner's posts is shown in any run, unless its stamp is served by our host from outside the base URL |
| NotificationGroups.GroupCounts | app/mastodon/notification_groups.py:237-252 | the totals are the sums of the aggregate's buckets of each key, and a key is there exactly when a bucket has it |
| NotificationGroups.AggregateRefinesCount | app/mastodon/notification_groups.py:200-252 | for every grouped key, folding the per-(type, outbox id, inbox id, day) buckets gives exactly the number of matching rows of that key |
| NotificationGroups.KeyIs | app/mastodon/notification_groups.py:79-105 | followers of one day share a key, and likes or boosts of one post do, the outbox id before the inbox id; every other row is its own group |
| NotificationGroups.GroupableIff | app/mastodon/notification_groups.py:46-76 | a row can be listed exactly when its kind has a name, its actor is there unless it is a poll, and its post is there if it names one |
| NotificationGroups.TruthyIff | app/mastodon/notification_groups.py:42-43 | an id counts exactly when it is there and not 0 |
| NotificationGroups.MatchesIff | app/mastodon/notification_groups.py:108-149 | what the clause of each key matches |
| NotificationGroups.InCursorIff | app/mastodon/notification_groups.py:285-288 | a page looks at the rows strictly between its two bounds |
| NotificationGroups.LookupFindsTheGroup | app/mastodon/notification_groups.py:108-149 | looking a key up finds every row of its group |
| NotificationGroups.StrayMatchIff | app/mastodon/notification_groups.py:143-149 | a lookup by target matches a row of another group exactly when the inbox id is the target and the outbox id is a different one |
| NotificationGroups.DismissalIff | app/mastodon/router.py:2107-2119 | dismissing a group deletes all of its rows, and no others exactly when none is stray |
| NotificationGroups.FetchNotificationGroup | app/mastodon/notification_groups.py:321-372 | answers exactly when the newest row found computes back to the key, with the newest four rows and the number found |
| NotificationGroups.AnsweredLookupIff | app/mastodon/notification_groups.py:321-372 | an answered lookup is for a group that exists, and its count is that group's exactly when it found no stray row |
| NotificationGroups.LookupRefusedIff | app/mastodon/notification_groups.py:363-369 | the lookup of a group that exists is refused exactly when a stray row is newer than all of it |
| NotificationGroups.LookupCountIff | app/mastodon/notification_groups.py:343-349 | the rows a lookup finds are as many as the group's exactly when none is stray |
| NotificationGroups.Window | app/mastodon/notification_groups.py:277-287 | the newest min(4 * limit, 200) rows |
| NotificationGroups.Assemble | app/mastodon/notification_groups.py:290-302 | the listed rows folded into groups, keys in first-seen order, at most `limit` of them |
| NotificationGroups.CutOnlyWhenFull | app/mastodon/notification_groups.py:290-302 | the assembly stops early only at a row that would start one group too many |
| NotificationGroups.GroupsNewestFirst | app/mastodon/notification_groups.py:290-302 | groups come in the order of their newest notification |
| NotificationGroups.CountIsTrue | app/mastodon/notification_groups.py:304-314 | the total shown for a listed group is the number of matching rows of its key, never below the rows listed |
| NotificationGroups.FetchNotificationGroupPage | app/mastodon/notification_groups.py:255-315 | a page: groups in first-seen order with their listed rows and their true totals |
| NotificationGroups.SmallestIsMinimum | app/mastodon/notification_groups.py:174-177 | the oldest listed row's id is the smallest page_min_id of the page |
| NotificationGroups.NextStart | app/mastodon/notification_groups.py:255-315 | the next page starts right behind a row the page listed |
| NotificationGroups.SmallestListsEachOnce | app/mastodon/notification_groups.py:255-315 | following the smallest page_min_id lists every groupable row exactly once, newest first, and ends |
| NotificationGroups.GapEndsTheWalk | app/mastodon/notification_groups.py:255-315 | no walk gets behind a whole window of rows that cannot be grouped |
| NotificationGroups.WalkLosesIff | app/mastodon/notification_groups.py:255-315 | a walk misses a groupable row exactly when there is such a window in front of one |
| NotificationGroups.WalkFindsAll | app/mastodon/notification_groups.py:255-315 | otherwise both cursors find every groupable row |
| NotificationGroups.LinkHeaderRepeats | app/mastodon/router.py:2045-2052 | with the Link header's cursor the next page lists again, first and in order, the rows listed below the last group's oldest one |
| NotificationGroups.LinkHeaderIsExactIff | app/mastodon/router.py:2045-2052 | it repeats nothing exactly when the page's oldest row belongs to the last group |
| PollTally.Polls.HandleVoteAnswer | activitypub/boxes.py:3468-3542 | a vote is counted, discarded or refused, and a counted one republishes totals and voters from the stored answers |
| PollTally.VerdictIff | activitypub/boxes.py:3468-3496 | a vote is discarded after the end or for a name that is no option, raises without options, conflicts exactly with an answer the constraints forbid, and is counted otherwise |
| PollTally.VoteWrites | activitypub/boxes.py:3487-3536 | a counted vote stores its answer and sets every total to the number of stored answers for that option and the voters to the number of their actors; any other vote writes nothing |
| PollTally.AskAndEditWrite | activitypub/boxes.py:902-923 | a question starts with its options in order and nothing counted; an edit leaves none of it |
| PollTally.OneMoreEvent | activitypub/boxes.py:3468-3542 | a history goes on event by event |
| PollTally.VoteKeepsInv | activitypub/boxes.py:3468-3542 | a vote keeps the constraints and the published tally true |
| PollTally.InvHolds | activitypub/models.py:1002-1024 | in every run, edits included, no two answers break a uniqueness constraint, every question that was not edited publishes its tally, and an edited one publishes nothing |
| PollTally.PublishesItsTallyIff | activitypub/boxes.py:1237-1264 | a question publishes the tally of its stored answers exactly when it was never edited or has no answers |
| PollTally.EditedPollIsClosed | activitypub/boxes.py:1237-1264 | an edited question takes no vote any more: whatever follows, each one raises, and its answers stay as they were |
| PollTally.SecondVoteConflicts | activitypub/models.py:1002-1024 | after a counted vote the actor's next one conflicts and changes nothing: any option for oneOf, the same option for anyOf |
| PollTally.EndedPollIsFrozen | activitypub/boxes.py:3475-3477 | votes after the end change neither answers nor tally, as long as the question is not edited |
| PollTally.TotalsAreStoredAnswers | activitypub/boxes.py:3502-3533 | every total of a question that was not edited is the number of stored answers of that name, votersCount the number of distinct voters, and no total exceeds it |
| PollTally.SingleChoiceConserves | activitypub/boxes.py:3502-3533 | for oneOf, votersCount is the number of answers, and the totals add up to it exactly when nobody chose an option whose name is repeated |
| PollTally.MultipleChoiceBounds | activitypub/boxes.py:3502-3533 | until it is edited, the totals of a question add up to between votersCount and votersCount times the options |
| ScheduledStatuses.Session.RecordFailure | app/scheduled_statuses.py:236-264 | counts the failure and moves the next try by 5 minutes doubled by each earlier one, or gives up at the fifth; a row that is gone is left alone |
| ScheduledStatuses.Session.Publish | app/scheduled_statuses.py:97-179 | the row's delete and the status are committed together or not at all, wherever it raises or stops, unless the send commits early (activitypub/boxes.py, lines 408 to 413) |
| ScheduledStatuses.Session.Attempt | app/scheduled_statuses.py:285-301 | after an attempt what is committed is: the status instead of the row, the row with a failure recorded, nothing new, or only the row's delete when an early send came to nothing |
| ScheduledStatuses.Session.PublishDueScheduledStatuses | app/scheduled_statuses.py:267-301 | a pass is its attempts one after another, up to where the process stopped, and counts those that published |
| ScheduledStatuses.SentArePublished | app/scheduled_statuses.py:267-301 | the number a pass reports is at most that of the statuses it published, and exactly that unless an attempt raised or stopped after its commit |
| ScheduledStatuses.FatesAre | app/scheduled_statuses.py:97-179 | which fates stop the process, raise, reach the commit, or commit early |
| ScheduledStatuses.AttemptWrites | app/scheduled_statuses.py:267-301 | what an attempt commits, by how far it got: the status for the row, only the row's delete, one more failure with its next try, or nothing |
| ScheduledStatuses.OwnerWrites | app/scheduled_statuses.py:182-209 | a new or moved row starts with no tries and is due at its time; a cancelled one is taken out |
| ScheduledStatuses.OneMoreEvent | app/scheduled_statuses.py:267-301 | a history goes on event by event |
| ScheduledStatuses.StepKeepsAccounted | app/scheduled_statuses.py:97-301 | every event keeps each row in at most one place and published at most once |
| ScheduledStatuses.RowsAreAccountedFor | app/scheduled_statuses.py:97-301 | in every run each row is in at most one place: queued, published once, or cancelled |
| ScheduledStatuses.LostIff | activitypub/boxes.py:401-418 | a row is in none of them exactly when an attempt at it committed its delete early and then came to nothing |
| ScheduledStatuses.ExactlyOnce | activitypub/boxes.py:1039-1041 | in every run, with failures and stops anywhere, an uncancelled row has at most one status, and is gone exactly when it has one unless an early send lost it |
| ScheduledStatuses.PublishedForGood | app/scheduled_statuses.py:97-301 | a published row never comes back |
| ScheduledStatuses.FailuresAreBounded | app/scheduled_statuses.py:236-264 | a row counts the failures recorded since it was last (re)scheduled, never more than five, and has no next try exactly after the fifth |
| ScheduledStatuses.RetriesAreSpread | app/scheduled_statuses.py:37-43 | the n-th failure comes at least 5 * (2^(n-1) - 1) minutes after the first: 75 for the last |
| ScheduledStatuses.AttemptsSettle | app/scheduled_statuses.py:267-301 | five attempts that do not stop the process publish a row or give it up, unless an early send loses it |
| IndieAuth.Server.CheckAuthCode | app/indieauth.py:224-263 | redeems the code exactly when it exists, is unused, at most 120 seconds old, and client, redirect URI and PKCE verifier match; then it is used up |
| IndieAuth.Server.IssueAccessToken | app/indieauth.py:354-448 | the resulting tables for each grant, and a token exactly when one was added |
| IndieAuth.Server.RevokeToken | app/indieauth.py:626-651 | marks exactly the live token with that value |
| IndieAuth.GivenIff | app/indieauth.py:387-404 | a missing parameter counts like an empty one |
| IndieAuth.PkceIff | app/indieauth.py:266-299 | a verifier is accepted exactly when no challenge is stored, or it is the challenge under plain or no method, or hashes to it under S256 |
| IndieAuth.CodeIsFoundIff | app/indieauth.py:224-263 | a code is found exactly when the request it is stored with is unused, at most two minutes old, and of this client, redirect URI and verifier; only its used flag is written |
| IndieAuth.CodeGrantWrites | app/indieauth.py:386-398 | in every reachable state a code grant with a good code uses it up and adds one token with the request's scope, or none when the scope is empty; any other writes nothing |
| IndieAuth.ExchangeableIff | app/indieauth.py:404-430 | a token is found for a refresh exactly when it carries the given refresh token, is neither refreshed nor revoked, belongs to a stored request, and the form names that request's client or none |
| IndieAuth.RefreshWrites | app/indieauth.py:400-449 | in every reachable state a refresh exchanges a token exactly when that holds, for one with the request's scope; any other writes nothing |
| IndieAuth.OtherEventsWrite | app/indieauth.py:302-384 | a code redeemed for the profile is only used up, and a grant of any other type writes nothing; consents and tokens the owner makes are appended |
| IndieAuth.OneMoreEvent | app/indieauth.py:354-449 | a history goes on event by event |
| IndieAuth.LogoutWrites | app/indieauth.py:627-652 | logging out revokes the first token of that value exactly when it is live, and nothing else |
| IndieAuth.StepRequests | app/indieauth.py:224-263 | one event changes of old requests only the used flag of the one it redeems |
| IndieAuth.StepTokens | app/indieauth.py:354-448 | one event only raises flags of old tokens, and refreshes exactly the one it exchanges |
| IndieAuth.StepNewcomer | app/indieauth.py:354-448 | a new token is personal, or carries the scope of the request whose code was redeemed or whose token was exchanged |
| IndieAuth.StepKeepsChained | app/indieauth.py:354-448 | along each request exactly the newest token is not refreshed |
| IndieAuth.InvHolds | app/indieauth.py:354-448 | in every run |
| IndieAuth.ChainConservation | app/indieauth.py:354-448 | in every run a request has one token more than refreshed ones once it has any, at most one that can be refreshed, and all with the consented scope |
| IndieAuth.CodeIsRedeemedOnce | app/indieauth.py:224-263 | in no run are two events served by one authorization code (RFC 6749, section 4.1.2) |
| IndieAuth.TokenIsExchangedOnce | app/indieauth.py:400-435 | in no run is one refresh token exchanged twice (RFC 6749, section 6) |
| IndieAuth.RevocationEndsTheChain | app/indieauth.py:626-651 | once the newest token of a request is revoked the request never gets another |
| IndieAuth.TokensComeFromTheCode | app/indieauth.py:354-448 | every token of a request goes back to one redemption of its code |
| IndieAuth.RedemptionIsBound | app/indieauth.py:224-298 | a redemption was in time, by the client and redirect URI of the consent, and with the verifier its stored challenge asks for: hashing to it under S256, equal to it under plain or no method, none under any other (RFC 7636, section 4.6) |
| StatusIds.OrIsSum | app/mastodon/ids.py:82-82 | putting fields that do not overlap together with bitwise or adds them |
| StatusIds.MaskTakesLowField | app/mastodon/ids.py:93-93 | the row mask takes exactly the low field out |
| StatusIds.BitByBit | app/mastodon/ids.py:70-94 | or and and work bit by bit |
| StatusIds.SecondsAre | app/mastodon/ids.py:66-67 | the second of an instant is cut off towards zero |
| StatusIds.EncodedFields | app/mastodon/ids.py:70-82 | an id exists exactly for a row of 30 bits and a second of 32, and is second * 2^31 + row * 2 + source |
| StatusIds.DecodedBits | app/mastodon/ids.py:85-94 | every integer that is not negative decodes to bits 1 to 30 and the source of bit 0 |
| StatusIds.EncodeThenDecode | app/mastodon/ids.py:70-113 | an id decodes to the row and table it was made from, only for that table, and fits a positive signed 64-bit integer |
| StatusIds.OldIdsDecode | app/mastodon/ids.py:85-94 | ids of the old scheme 2 * id + source still decode |
| StatusIds.IdOrderIff | app/mastodon/ids.py:70-82 | ids compare as (second, row, source) do, so an earlier second always gives a smaller id |
| StatusIds.IdsAreUnique | app/mastodon/ids.py:70-82 | different rows of the two tables never share an id |
| StatusIds.GroupByContext | app/mastodon/timelines.py:277-287 | the dictionary holds each context's objects, contexts in insertion order |
| StatusIds.SortIsDescending | app/mastodon/timelines.py:296-296 | the sort leaves the threads strictly descending |
| StatusIds.DmThreads | app/mastodon/timelines.py:277-297 | raises exactly when some post does not fit an id; else one thread for each context, shown by its largest id, with its actors and unread flag, in strictly descending id order |
| StatusIds.ThreadsDiffer | app/mastodon/timelines.py:277-297 | threads of different contexts never share an id |
| HttpSignature.SplitJoin | app/httpsig.py:70-77 | splitting undoes joining for parts without the separator |
| HttpSignature.JoinSplit | app/httpsig.py:70-77 | and joining inverts splitting |
| HttpSignature.ParseSignatureHeader | app/httpsig.py:70-77 | the loop computes the parsed parameters, or fails for a part without an equals sign |
| HttpSignature.ParsedHasNoComma | app/httpsig.py:70-77 | a parsed value never holds a comma |
| HttpSignature.ParsePrintIff | app/httpsig.py:70-77 | parsing a printed header gives its parameters back exactly when no value holds a comma |
| HttpSignature.MalformedIff | app/httpsig.py:70-77 | a header is absent when empty and cannot be read exactly when a part has no equals sign |
| HttpSignature.LastPartWins | app/httpsig.py:70-77 | a key gets what stands between the first and last character behind the equals sign of the last part that names it |
| HttpSignature.SignedValuesAre | app/httpsig.py:37-67 | what each listed name stands for |
| HttpSignature.LowerShifts | app/httpsig.py:37-67 | the method is lowered letter by letter |
| HttpSignature.DatesAre | app/httpsig.py:37-67 | only (created) and date carry a date, read as a time stamp and as an HTTP date |
| HttpSignature.ReadableIff | app/httpsig.py:37-67 | a name can be read exactly when it has a value and its date, if it carries one, can be read |
| HttpSignature.LastDateIs | app/httpsig.py:37-67 | the date is that of the last name that gives one |
| HttpSignature.NoDateIff | app/httpsig.py:37-67 | and there is none exactly when no name gives one |
| HttpSignature.LinesOfTheString | app/httpsig.py:37-67 | the string has one line for each listed name, in order, with its value |
| HttpSignature.BuildSignedString | app/httpsig.py:37-67 | raises exactly when a listed header is missing or a date cannot be read; else the lines joined by newlines and the last date |
| HttpSignature.SignedStringBinds | app/httpsig.py:37-67 | equal strings over one header list mean equal signed values, lower-cased method and path, when no line holds a newline |
| HttpSignature.NewlinesUnbind | app/httpsig.py:37-67 | with a newline in a value they need not |
| HttpSignature.VerifierRebuildsTheString | app/httpsig.py:335-348 | who verifies a request reads back the four printed parameters and rebuilds the very string that was signed |
| EndedPolls.Notifications.NotifyAbout | app/poll_notifications.py:142-171 | one loop notifies about the first ended candidates up to the budget left |
| EndedPolls.Notifications.NotifyEndedPolls | app/poll_notifications.py:127-174 | a pass notifies own polls first, then voted ones, on one budget; nothing when the type is disabled |
| EndedPolls.EmitsUpToTheLimit | app/poll_notifications.py:127-174 | a pass emits exactly min(limit, ended candidates): polls that have not ended use none of the budget |
| EndedPolls.CandidateIff | app/poll_notifications.py:50-122 | a candidate is a question with an end time and no notification, a live one of ours or a voted one of others; it has ended once its time has passed |
| EndedPolls.EmitsTheFirst | app/poll_notifications.py:142-171 | a pass writes about the first ended candidates, in order |
| EndedPolls.OwnPollsFirst | app/poll_notifications.py:138-171 | and about our polls before those of others; about none when the type is disabled |
| EndedPolls.ChecksAre | app/poll_notifications.py:142-171 | each candidate is tested with its own reading of the clock |
| EndedPolls.SweepKeepsBalance | app/poll_notifications.py:50-174 | a pass writes only about polls without a row, once each |
| EndedPolls.RemoveKeepsBalance | app/mastodon/router.py:2107-2119 | deleting any of the rows keeps the account of rows written, deleted and there |
| EndedPolls.NotificationsAreAccountedFor | app/poll_notifications.py:50-174 | over every run, with rows deleted at any point, a poll never has two rows, and it was notified about once for each of its rows that was deleted and once more if it has one now |
| EndedPolls.AgainOnlyAfterRemoval | app/poll_notifications.py:50-104 | in any stretch of a run a poll is notified about at most as often as its row is deleted, and once more if it had none at the start |
| EndedPolls.WrittenIffPending | app/poll_notifications.py:127-174 | a pass with room for all that is pending writes about a poll exactly when it has ended and has no row, whether or not it once had one |
| EndedPolls.RemovalsRepeat | app/mastodon/router.py:2227-2250 | for every ended candidate and every n: a run with n deletions of its row notifies about it n + 1 times |
| EndedPolls.PassLowersPending | app/poll_notifications.py:127-174 | a pass over n pending polls leaves max(0, n - limit) |
| EndedPolls.PassesDrain | app/poll_notifications.py:127-174 | from any state k passes leave max(0, n - k * limit): none after ceil(n / limit) |

## Left out

- Delivery: `_deliver` itself (signing, JSON-LD, HTTP) is the arbitrary reply of a request; cancellation on shutdown.
- OutgoingQueue: the order and limit of `fetch_next_outgoing_activities`; a batch is any set of due rows. Order between batches for one recipient is not promised by the code. Rows in a batch carry distinct ids and requests.
- IncomingQueue: what `save_to_inbox` stores; an attempt only succeeds, raises or is cut short.
- PushWorker: encryption and VAPID headers; building a payload only succeeds or lacks a title. Order and limit of the subscriptions in a batch.
- PushWorker.CursorSafety: whether a notification is muted is fixed; notifications are not deleted during a run and their ids are not used again; a subscription posted after its row was removed starts a new run.
- PushWorker.NothingReceivedTwice: a POST counts as received when its answer came back; one that was accepted and whose answer was lost is retried.
- ReplyTree: visibility filters and webmention replies; the interpreter's recursion limit is a number of nested calls.
- ConversationRoot: the lookup of a parent is a fixed function of its id for the length of a walk.
- QuoteConsent: the quotes counter, notifications, the Update sent after an acceptance, physical deletion of rows, and the fetch of an unknown post before it is quoted (its own event here). Documents are the four fields that verification reads. The lookups of a quote by its stamp name no order; they are taken to find the first row of the table, and "earlier" means that.
- NotificationGroups: keys are values, not the strings printed from them; sample and full account lists; serialization.
- PollTally: the time stamp of the published question.
- ScheduledStatuses: order and limit of the due rows; the JSON form of the compose parameters, a plain record round trip; why the post to quote is no longer stored in the send.
- IndieAuth: consent pages, client registration, introspection; interleavings inside one transaction; comparing values outside ASCII, which raises before anything is stored.
- StatusIds: the decimal text of an id; which objects count as direct posts.
- HttpSignature: keys, hashing and the signature check; lower-casing outside ASCII.
- EndedPolls: parsing of an end time, which is a time or not; the id of a deleted post is not used again.
- Like, boost and reply counters: their decrement paths do not keep them equal to the rows they count.
- WebFinger, media, templates, the admin interface, migrations, pruning.
