# yimsg: verified models of the agent pipeline, the wire formats and the client

This project models the parts of yimsg that decide what is stored, answered, accepted and delivered, and
proves what they guarantee over all inputs, all runs and all interleavings. Run `dafny verify dfyconfig.toml`
to check it.

- **Incremental sync and the processing cursor** (`Ordered`, `LocalStore`, `Grouping`, `AgentState`,
  `SyncProtocol`, `SyncSafety`, `ServerHistory`, `AccountRunner`, `Paging`). An account pages the server's
  log into a local table, takes the smallest foreign messages above a cursor, splits them by conversation
  partner, and commits partner by partner. `SyncProtocol` is the protocol as a step machine with separate memory and
  disk copies of the cursor, beside a server that adds, recalls, deletes and purges messages;
  `AccountRunner` is the runner with its loops, proved to take only such steps.
- **The frame codec and its checksum** (`Crc8`, `Frame`). Encoder and decoder are inverse to each other,
  and the error detection of the checksum is derived from polynomial division, for packets of any length.
- **The request multiplexer** (`Multiplexer`). Callers, one reader, timeouts and the network interleave in
  any order, one atomic section at a time.
- **The plan and tool-loop engine** (`Engine`). The model may answer anything at any time.
- **Search and text** (`Utf8`, `Search`) and **the message codec** (`Varint`, `Wire`, `Tolerance`,
  `WireIO`, `Messages`, `Malformed`).

Where the source changes state, the model does: tables, cursors, buffers, readers and writers are fields
that methods reassign, and each method is proved equal to a specification function about which the
theorems are stated. Surroundings that the source cannot control - the network, the model, the clock, the
disk, the regular expression engine - are parameters that may do anything their contracts allow.

## Where the code does not do what its documents say

- `agent/docs/agent方案.md:164` promises that stopping at a failed group loses and skips no message. That
  holds only when everything in the remaining groups was sent later than everything committed.
  `SyncSafety.PartialFailure` states exactly what is skipped and when nothing is; `SyncSafety.MessageLost`
  is a run of three messages in which one is lost.
- `cli/store/store.go:129-131` and `cli/docs/cli方案.md:53` take the mirror's largest number as a cursor that
  passes tombstones too. But the server's tombstone keeps the `msg_id` of the deleted message under a new
  number (`server/internal/dal/message_store.go:136-168`), `msg_id` is UNIQUE in the mirror
  (`cli/store/store.go:32`), and the upsert resolves conflicts on the number alone (`:94-99`): once a
  mirrored message is deleted, every sync fails at its tombstone. `ServerHistory.DeletionStalls` says so for
  all runs, `ServerHistory.FifthNeverMirrored` is an input, and `ServerHistory.SyncStores` says exactly when
  an answer is stored; `ServerHistory.AlwaysStorable` that it is while nothing is deleted or purged.
- `protocol/generated/typescript/yimsg.ts:1866` and `docs/architecture/同步机制方案.md:58` say that `has_more` is
  set when the limit is reached. The server looks up one more message than that and sets it when it finds
  one (`server/internal/service/message.go:318-327`, `sync_helpers.go:20-39`, as `同步机制方案.md:60` has it).
  The model carries both rules and is instantiated with the server's. `Paging.RulesDiffer` says exactly when
  the number of requests differs, `Paging.RulesAtWork` has inputs, and `Paging.ExtraRequestIsEmpty` says that
  nothing else does.
- `docs/architecture/同步机制方案.md:62` has clients drop the local row of a deleted message. The mirror stores
  a tombstone like any message, and `Pending` looks at neither status nor type (`cli/store/store.go:243-259`):
  a tombstone or a recall event of someone else is processed and answered as a new message.
  `Paging.EveryRowHandedOut` says so of every row, with an input in `ServerHistory.TombstoneHandedOut`.
- A recall overwrites the original message under its number and adds a new event
  (`server/tests/e2e/recall_test.go:69-79`). The mirror keeps the original text: `ServerHistory.EveryRow`.
- `agent/fsread/search.go:13-16` says `truncated` announces further matches. It is set whenever fifty
  matches were returned, also when there are no others: `Search.FlaggedThoughComplete`, with an input in
  `Search.FiftyFlagged`.
- `agent/docs/agent方案.md:213` confines `submit_plan` to the decision phase, and a step ends in plain text
  (`:244`). In a loop that carries out a step the tool is not offered, but the model may call it all the
  same; the step then ends with an empty text, which the user is sent: `Engine.EndsInPlan` and
  `Engine.PlanInStep`, with an input in `Engine.EmptyProgress`.

## Assumptions

- The server takes four kinds of steps on an account's messages, at any time and in any order, as in
  `server/internal/dal/message_store.go`: a new message gets a number above all earlier ones and a `msg_id`
  that no message held has (22-52); a recall replaces type and body of a message in place, any number of
  times but not of a tombstone (120-134); the checks of `server/internal/service/message_recall.go:47-67`
  on who may recall what are made on the sender's copy alone, so here any message may be recalled; a
  deletion moves a message, its `msg_id` and body included, to a new number with status 0xff (136-168); a
  purge removes everything up to a bound (372-388), here any bound. Numbers used up by conversations are
  gaps. The answer to a sync is that of `server/internal/service/message.go:318-327`, with the limit of
  `protobuf_methods.go:48-63` for any configured maximum.
- A reconnect brings back the same account. A transaction is atomic, and so is renaming a file.
- In the sync model, positions in the log, user ids and the like are unbounded integers; request ids are
  modulo 2^64, and the wire formats carry 16, 32 and 64-bit integers with wrap-around and truncation
  written out.
- The protobuf reader and writer follow the Protocol Buffers encoding guide (sections "Base 128 Varints",
  "Length-Delimited Records", "Packed Repeated Fields" and "Groups"); the end mark of the outermost skipped
  group is not compared with its field number, since the generated code (`yimsg.ts:4307`) does not pass it.
  Text decoding follows section 3 of RFC 3629 with one replacement character per stray byte.

## Model

| member | source | states |
|---|---|---|
| SyncProtocol.StepKeeps | agent/pipeline/runner.go:102-158 | every step keeps the invariant, the server's (a message arrives, is recalled in place, is deleted to a new number, old ones are purged) as well as the account's (sync batch, failed sync, batch taken, group committed, group committed but not written out, group failed, poll finished, restart): the mirror has no gap, disk cursor <= memory cursor <= last mirrored number <= last number given out, the open batch is a stretch of foreign messages, and every foreign message at or below the cursor is committed, skipped or still to do |
| SyncProtocol.ServerKeeps | server/internal/dal/message_store.go:22-171 | whatever the server does, the messages it holds keep distinct positive numbers up to the last one given out, and the mirror still lacks nothing the server holds up to the mirror's largest number |
| SyncProtocol.RunKeeps | agent/pipeline/runner.go:102-158 | the invariant holds after every finite run of server and account steps, in any order |
| SyncProtocol.BatchKeepsMirror | agent/pipeline/runner.go:198-219 | saving the server's answer to the mirror's own largest number extends the mirror without a gap, by the messages as the server holds them at that moment, moves that number to cursor_seq exactly when cursor_seq is positive, and changes no row already there |
| SyncProtocol.ReplyFacts | server/internal/dal/message_store.go:170-184 | a batch consists of log messages above last_seq in ascending order, and cursor_seq is its maximum, or 0 when it is empty |
| SyncProtocol.PendingFacts | cli/store/store.go:245-260 | a pending batch is in ascending order, made of foreign rows above the cursor, and jumps over no foreign row below its last |
| SyncProtocol.OneGroup | agent/pipeline/group.go:34-63 | each message of a batch is in exactly one of its groups |
| SyncProtocol.GroupMembers | agent/pipeline/group.go:49-56 | a group holds only messages of the batch with its own key, none numbered above maxSeq |
| SyncProtocol.GroupMaxMember | agent/pipeline/group.go:54-56 | maxSeq is the number of one of the group's own messages |
| SyncProtocol.BatchIsStretch | agent/pipeline/runner.go:111-120 | the groups of a pending batch partition a stretch of the foreign messages that begins right after the cursor |
| SyncProtocol.CommitPasses | agent/state/state.go:112-114 | whatever the cursor newly passes when a group commits is in that group or in a later group of the same batch |
| SyncProtocol.CommitAccounts | agent/pipeline/runner.go:119-126 | committing one more group moves its messages from still-to-do to done and leaves every foreign message at or below the new cursor accounted for |
| SyncProtocol.DoneKeeps | agent/pipeline/runner.go:157 | a commit that is written out keeps the invariant; both cursors become the larger of the old one and maxSeq |
| SyncProtocol.NotSavedKeeps | agent/state/state.go:130-131 | a commit that cannot be written out moves only the memory cursor, ends the poll, and keeps the invariant |
| SyncProtocol.FailsKeeps | agent/pipeline/runner.go:121-123 | a group that fails before its commit moves no cursor, ends the poll, and keeps the invariant |
| SyncProtocol.RestartKeeps | agent/state/state.go:64-88 | a restart resumes from the disk cursor and the mirror, and keeps the invariant |
| SyncSafety.MirrorHasNoGap | agent/pipeline/runner.go:198-219 | after every run the mirror lacks no message the server holds up to the number it will resume from, and disk cursor <= memory cursor <= that number <= the last number given out |
| SyncSafety.DiskKeeps | agent/state/state.go:108-132 | the cursor in the state file never moves back, in any run |
| SyncSafety.NeverAgain | agent/pipeline/runner.go:111-126 | no row at or below the disk cursor is ever returned by Pending again, in any continuation of the run: failures, reconnects, restarts, server steps, any batch size |
| SyncSafety.SavedNeverAgain | agent/pipeline/runner.go:111-126 | in particular no message of a group whose commit was written out |
| SyncSafety.PassedOver | agent/pipeline/runner.go:119-126 | after k groups nothing is left at or below the cursor if and only if every number in the remaining groups exceeds every number in the committed ones |
| SyncSafety.CursorIsMax | agent/state/state.go:112-114 | the cursor after k groups is where the batch began or the largest number committed, and bounds both |
| SyncSafety.PartialFailure | agent/pipeline/runner.go:119-126 | when the next group fails, in any reachable state: the cursor is the maximum over the groups committed, what is newly skipped is exactly what was left at or below it, nothing is skipped iff all that was left lies above all that was committed, and the disk cursor does not exceed the memory cursor |
| SyncSafety.UnsavedFailure | agent/state/state.go:108-132 | the same law when the next group commits in memory but cannot be written out |
| SyncSafety.RestartFailure | agent/state/state.go:64-88 | the same law for a process that dies between two groups and comes back with the disk cursor |
| SyncSafety.RunExact | agent/pipeline/runner.go:102-158 | while every commit is written out, both cursors agree, committed groups are pairwise disjoint, and nothing committed is skipped or still to do |
| SyncSafety.ProcessedOrSkipped | agent/pipeline/runner.go:102-158 | between polls of such a run the foreign messages at or below the cursor are exactly the committed ones together with the skipped ones, and no message is both or in two groups |
| SyncSafety.ExactlyOnce | agent/pipeline/runner.go:102-158 | if no group fails and no restart cuts a batch short, every mirrored foreign message at or below the cursor is in exactly one committed group |
| SyncSafety.MessageLost | agent/pipeline/runner.go:119-126 | the promise that failing groups lose nothing is false: with messages 1 and 3 from one user and 2 from another, a failure of the second group leaves 2 mirrored, unprocessed and never handed out |
| ServerHistory.WhatBecame | server/internal/dal/message_store.go:120-171 | a number is never given out twice: at any later moment the server holds a message under its number iff it has neither deleted nor purged it, as it was but for type and body, which are those the last recall wrote, if there was one |
| ServerHistory.EveryRow | server/tests/e2e/recall_test.go:69-79 | every row of every reachable mirror was saved by one sync step, as the server held the message at that step; the server still holds that number iff it has neither deleted nor purged it since, and then the row equals the server's current message iff no recall since or the last one wrote just what the row says; unless the message saved was a recall itself, that is iff there was none |
| ServerHistory.MirrorIsPrefix | agent/pipeline/runner.go:198-219 | in every run in which the server only adds messages, the mirror holds exactly the server's messages up to the number it will resume from, with their own contents |
| ServerHistory.SyncStores | cli/store/store.go:83-130 | in every reachable state a sync answer is stored whole, as read from the server, iff every body marshals and no msg_id of it is taken; otherwise nothing changes and the poll is over |
| ServerHistory.AlwaysStorable | cli/store/store.go:83-130 | in every run in which the server neither deletes nor purges, no msg_id of an unseen message is taken: what is unseen can be stored as long as the bodies marshal |
| ServerHistory.RepeatedIdBlocks | cli/store/store.go:32 | a message whose msg_id a row under another number carries is never mirrored, nor is any later one |
| ServerHistory.BlockedForGood | cli/store/store.go:94-99 | and that for good: after every further run, whatever it does, that leaves the message in the server's log, the mirror still ends below it |
| ServerHistory.DeletionStalls | server/internal/dal/message_store.go:136-168 | deleting any mirrored message is enough: in no further run does the mirror reach the tombstone's number until the tombstone is removed |
| ServerHistory.FifthNeverMirrored | cli/store/store.go:129-131 | the promise that the mirror's largest number is a cursor that also passes tombstones is false: with 1 to 3 mirrored, 1 deleted and 5 sent, no run that leaves the tombstone alone mirrors 5 |
| ServerHistory.TombstoneHandedOut | cli/store/store.go:243-259 | an input: the server's only message is deleted before the first sync, and the account takes up its tombstone as a new message |
| AccountRunner.Runner.PollOnce | agent/pipeline/runner.go:102-127 | a poll takes only steps of the protocol, ends with no batch open, and from a reachable state leads to a reachable state, so that every theorem about runs holds of the runner. Without a connection, a last number, the sync or the query it fails and moves neither cursor nor saved groups. Once the batch is taken, exactly the groups before the first that is not both replied to and written out are committed and their messages reported, and the connection is lost exactly when that group failed in sending. If nothing hinders it up to the batch - connected or connecting, every call answered and stored, enough of them, the query working - the batch is taken from a mirror with every message of the server; and if then every group is replied to and written out it succeeds, has processed min(maxPull, n) of the n messages of others above the cursor in mirror and log, and its cursor is the number of the last of these in ascending order |
| AccountRunner.Runner.Poll | agent/pipeline/runner.go:102-127 | connecting, syncing and querying, each of which may fail, and only then the batch; what a poll that takes none leaves unchanged |
| AccountRunner.Runner.TakeBatch | agent/pipeline/runner.go:111-126 | from a mirror in sync, the pending batch above the cursor is split into groups and processed up to the first that fails, or nothing is left to do |
| AccountRunner.ReachesOn | agent/pipeline/runner.go:102-127 | what a runner's events lead to from a reachable protocol state is reachable and satisfies the protocol's invariant |
| AccountRunner.Runner.ProcessGroup | agent/pipeline/runner.go:131-189 | one group is one protocol step: failure of engine, notification or reply commits nothing, and the connection is dropped exactly when a notification or the reply could not be sent; success means replied to and written out; the partner is then remembered by the reflection, cut to the limit, or by the old summary if there was none, and every other partner kept as before; what is evicted is never newer than what is kept |
| AccountRunner.Runner.CommitGroup | agent/pipeline/runner.go:150-158 | the commit of one partner is the protocol step of a commit written out or not; the cursor moves either way, and the partner is remembered by the reflection, or by the old summary if there was none |
| AccountRunner.Runner.SyncToLocal | agent/pipeline/runner.go:198-219 | the sync loop takes only protocol steps, ends synced exactly when it reports success, and changes nothing but log, mirror and phase, and nothing at all without a last number; with k storable messages unseen, L the effective limit and no call failing, it makes exactly one request if k is 0 and k / L rounded up otherwise and leaves the old rows with every message of the server, as the server holds it, added, or fails if it is cut short before that |
| AccountRunner.Runner.SyncTurn | agent/pipeline/runner.go:204-217 | one request of the loop is the server's own steps, those it can take in order, and one sync step, or a failed sync that ends the poll; undisturbed, it stores its batch and one request fewer is left to make |
| AccountRunner.Runner.TakeAnswer | agent/pipeline/runner.go:204-217 | the server's answer is saved in one transaction, and the loop goes on exactly when it says there is more; a transaction that fails ends the poll |
| AccountRunner.Runner.ProcessAll | agent/pipeline/runner.go:119-126 | exactly the groups before the first that does not succeed are committed and saved, their messages counted, and the cursor is the maximum over them, and over that one too if only its writing failed; success means all of them |
| AccountRunner.Runner.Restart | agent/pipeline/runner.go:67 | reopening is the protocol's restart step |
| AccountRunner.Server.SyncMessages | server/internal/service/sync_helpers.go:20-39 | the answer is in strictly ascending order, made of messages the server holds above last_seq, jumps over none, and is at most the effective limit long; has_more iff the server holds more of them, and then the answer is full; otherwise it has all there are; cursor_seq is its last number, or 0 |
| LocalStore.Store.SaveMessages | cli/store/store.go:83-130 | all or nothing: either every message of the batch is upserted, in order, and their number returned, or the table is unchanged and the error is the first one met |
| LocalStore.UpsertStuck | cli/store/store.go:106-125 | an error in a prefix of the batch is the error of the whole batch |
| LocalStore.FirstFault | cli/store/store.go:105-125 | a batch that is not stored fails on the first message at fault, because its body does not marshal or, if it does, because another number has its msg_id by then |
| LocalStore.LastIsWritten | cli/store/store.go:94-99 | after a batch is stored, each number has the row of the batch's last message under it, or the row it had |
| LocalStore.StoredIff | cli/store/store.go:25-37 | a batch of new numbers is stored iff every body marshals and every msg_id is new both to the table and to the batch |
| LocalStore.RowReadsBack | cli/store/store.go:105-125 | every column of a row is the message's own, so that the message can be read back but for an absent or empty recipient; peer_uid is 0 for a group message, the recipient of an own message, and otherwise the sender |
| Ordered.Lowest | cli/store/store.go:252 | ORDER BY seq LIMIT n lists at most n keys, in strictly ascending order, each in the table and above the bound |
| Ordered.LowestClosed | cli/store/store.go:252 | no key above the bound and below a listed one is left out |
| Ordered.LowestRest | cli/store/store.go:252 | continuing from the last key listed yields exactly the keys not listed yet |
| Grouping.GroupByPeer | agent/pipeline/group.go:34-63 | the map-based loop computes the simple form: one group per distinct key in order of first occurrence, each the batch filtered by that key, with the maximum of its numbers; and every message of a group is answered by its target: in its own group if it has one, otherwise its sender |
| Grouping.KeysDistinct | agent/pipeline/group.go:47-52 | the keys of the groups are pairwise distinct |
| Grouping.KeysInjective | agent/state/state.go:35-42 | peer keys are injective over all users and over all groups, and no user's key is a group's |
| Grouping.SameKeySameTarget | agent/pipeline/group.go:40-46 | two messages have the same peer key if and only if they have the same reply target |
| Grouping.MaxSeqIsMax | agent/pipeline/group.go:54-56 | maxSeq bounds every number of the group and, for positive numbers, is one of them |
| Grouping.FilterKeepsOrder | agent/pipeline/group.go:31-33 | the ascending order of the batch is kept inside each group |
| Grouping.GroupsArePermutation | agent/pipeline/group.go:34-63 | the groups together are exactly the batch: nothing lost, nothing twice |
| Grouping.GroupsInOrder | agent/pipeline/group.go:31-63 | the groups come in the order of their oldest messages |
| Decimal.ParseFormat | agent/state/state.go:36 | a decimal rendering determines the number, negative ones included |
| AgentState.Store.Commit | agent/state/state.go:108-132 | the cursor never moves back; of every partner kept, the last summary given is remembered, cut to the limit, with the time of the commit, or without an update the entry it had; the oldest are evicted; the file changes only if every step of writing it succeeds, and then holds exactly the new state |
| AgentState.UpdatesRemember | agent/state/state.go:117-128 | applying updates one after another leaves each partner with the last summary given for it, the whole of it if it fits or there is no limit and its first maxCharsPer bytes otherwise, and leaves the others alone |
| AgentState.Store.Open | agent/state/state.go:64-88 | a missing file starts afresh, a readable one is resumed, an unreadable or corrupt one fails |
| AgentState.Store.EvictLocked | agent/state/state.go:135-153 | within the limit nothing changes; above it exactly the limit is kept, unchanged, and nothing evicted is newer than anything kept |
| AgentState.Store.PersistLocked | agent/state/state.go:156-172 | the state goes to a temporary file that is then renamed: if the directory, the encoding, the write (however much of it is left behind) or the rename fails, the state file is what it was, and otherwise exactly the state in memory, whatever an earlier failure left in the temporary file |
| AgentState.OldestFirst | agent/state/state.go:139-147 | every partner once, oldest first |
| AgentState.CommitKeepsBounds | agent/state/state.go:119-121 | no commit lets a summary outgrow its limit or the number of partners exceed its own |
| AgentState.TurnsCount | agent/state/state.go:122-127 | a partner's turns grow by the number of its updates |
| AgentState.KeepsMostRecent | agent/state/state.go:108-153 | from an empty store, with a clock that advances and one update per commit, the partners kept are exactly the maxPeers most recently committed ones |
| Paging.CmdSync | cli/cmd/yimsg-cli/commands.go:228-279 | against a log that does not change, for any limit asked for and configured and by either rule for has_more, with k storable messages unseen the loop ends after exactly the number of requests of Paging.RoundsAre, reports k, and leaves the old rows with every message of the server, as the server holds it, added |
| Paging.RoundsAre | server/internal/service/message.go:318-327 | paging through k messages with effective limit L takes one request if k is 0 and k / L rounded up otherwise, by the server's rule that has_more means one more was found; by the documented rule, that it means a full batch, k / L rounded down plus one |
| Paging.RulesDiffer | protocol/generated/typescript/yimsg.ts:1866 | the documented rule takes the same number of requests, and one more exactly when k is a positive multiple of L |
| Paging.RulesAtWork | server/internal/service/protobuf_methods.go:48-63 | inputs: 200 messages at limit 200 take one request, not the documented two; 700 take two when 1000 are asked for and 500 allowed |
| SyncProtocol.EffectiveLimit | server/internal/service/protobuf_methods.go:48-63 | the limit asked for if it is positive and within the configured one, otherwise the configured one or 200, whichever applies and is smaller |
| Paging.ExtraRequestIsEmpty | server/internal/service/sync_helpers.go:28-31 | the extra request of the documented rule is answered empty and leads just to where the server's rule has the account without it |
| Paging.SyncOnce | agent/pipeline/runner.go:204-216 | one request stores min(k, L) messages as the server holds them, leaves every row and the rest unseen, and is told to go on exactly when the server's rule says so for k and L: more than L, or by the documented rule at least L |
| Paging.ReplyIsStored | cli/store/store.go:106-125 | when the unseen messages have bodies that marshal and msg_ids that neither the mirror nor another of them carries, every batch of the server's log is stored |
| Paging.LastBatchCatchesUp | agent/pipeline/runner.go:214-216 | whenever the loop ends because there is no more, by either rule and after a full batch too, every message the server holds is mirrored |
| Paging.NextCursorIsLast | agent/pipeline/runner.go:119-126 | after a whole batch the cursor stands on the batch's last message |
| Paging.PollLeaves | agent/pipeline/runner.go:111-126 | a poll that commits its whole batch leaves max(0, n - maxPull) of n waiting messages |
| Paging.Drained | agent/pipeline/runner.go:111-126 | after p such polls max(0, n - p * maxPull) are left, and none exactly when p is at least n / maxPull rounded up |
| Paging.EveryRowHandedOut | cli/store/store.go:243-259 | whatever its type or status, recall event or tombstone, every foreign row above the cursor is handed out by exactly one of those polls |
| Paging.CmdPending | cli/cmd/yimsg-cli/commands.go:401-448 | a negative start is refused; otherwise the page is the pending one and max_seq its last number, or the start when it is empty |
| Paging.PagesShowAll | cli/cmd/yimsg-cli/commands.go:428-446 | feeding max_seq back shows every pending row of a fixed mirror exactly once, in ascending order, and ends, for every positive limit |
| Paging.ConversationPartition | cli/store/store.go:220-242 | a row is in the history of the conversation of the message it was saved from and in no other, group number 0 counting as none |
| Paging.UserHistoryLists | cli/store/store.go:220-229 | for every start and limit, the history with a user lists in ascending order exactly the direct messages of that conversation above the start, as many as the limit allows and none jumped over |
| Paging.GroupHistoryLists | cli/store/store.go:232-241 | likewise the history of a group |
| Paging.PendingLists | cli/store/store.go:245-261 | likewise the pending rows, all of them or those of others |
| Paging.ReplyGoesToConversation | agent/pipeline/group.go:16-46 | for a message from someone else, the reply key chosen by grouping is that of the conversation the mirror files it under, and agrees with the stored peer_uid; the target, as it is sent, is that user or group, and the account's own reply to it is filed in the same conversation |
| Crc8.CrcIsCrcBits | cli/wire/frame.go:145-161 | the byte-wise table-free loop equals feeding the bits one by one, most significant first |
| Crc8.CrcIsTheRemainder | cli/wire/frame.go:145-161 | a string of eight bits is the checksum of a message if and only if it is the remainder of x^8 * m(x) by x^8 + x^2 + x + 1 |
| Crc8.CrcLinear | cli/wire/frame.go:145-161 | the checksum of an exclusive-or is the exclusive-or of the checksums |
| Crc8.BurstDetected | cli/wire/frame.go:145-161 | no nonzero pattern within eight consecutive bits, anywhere in a message of any length, has checksum zero |
| Crc8.CrcParity | cli/wire/frame.go:145-161 | the checksum has the parity of the message |
| Frame.ChecksumFrame | cli/wire/frame.go:145-161 | the loop with the blanked checksum byte computes the checksum of the packet with that byte zero |
| Frame.ChecksumIsRemainder | cli/wire/frame.go:145-161 | the checksum of a packet is a remainder by the generator polynomial |
| Frame.EncodeFrame | cli/wire/frame.go:58-79 | filling the buffer in place gives exactly the specified packet, or the source's error for a wrong codec, type 0 or a body over 65519 bytes |
| Frame.EncodedBytes | cli/wire/frame.go:58-79 | an encoded packet, byte for byte: magic, codec, 0, checksum, body size, id and type with the high bytes first, then the body |
| Frame.FillPacket | cli/wire/frame.go:68-76 | the stores into the buffer put magic, version, size, id, type and body where they belong |
| Frame.CodecByteOnly | cli/wire/frame.go:123-136 | an accepted codec byte is one of the two that encode a byte order |
| Frame.AcceptedIff | cli/wire/frame.go:82-121 | a packet is accepted if and only if it is 16 to 65535 bytes long with magic 0x4d, codec byte 0x02 or 0x03, reserved byte 0, the size of its body spelled in that byte order, the checksum of the rest, and a type other than 0 |
| Frame.RejectedFor | cli/wire/frame.go:82-136 | and otherwise it is rejected for the first of the checks it fails: each error if and only if its own condition holds and no earlier one |
| Frame.DecodedFields | cli/wire/frame.go:92-120 | what is read from an accepted packet: byte order by the codec byte, id and type from their own bytes, high byte first or low byte first, and the body behind the header |
| Frame.DecodeSealed | cli/wire/frame.go:82-121 | every sealed packet of either byte order decodes to its fields |
| Frame.AcceptedIsSealed | cli/wire/frame.go:82-121 | every accepted packet is byte for byte the sealed packet of its decoded fields |
| Frame.EncodeDecode | cli/wire/frame.go:58-121 | encoding succeeds exactly for the protobuf codec, nonzero type and body up to 65519 bytes, and what it gives decodes to the same id, type and body |
| Frame.DecodeEncode | cli/wire/frame.go:58-121 | every accepted big-endian packet is the encoding of its decoded fields |
| Frame.DecodeInjective | cli/wire/frame.go:82-121 | two accepted packets, of either byte order, that decode alike are equal |
| Frame.ChecksumSyndrome | cli/wire/frame.go:107-109 | a changed packet passes the checksum iff the change of its checksum byte is the checksum of the change of everything else |
| Frame.ChecksumQuotient | cli/wire/frame.go:107-109 | that is, iff the change of the checksum byte is the remainder, by x^8 + x^2 + x + 1, of x^8 times the change of the packet with that byte blanked |
| Frame.BurstRejected | cli/wire/frame.go:107-109 | any nonzero change within eight consecutive bits outside the checksum byte makes an accepted packet rejected |
| Frame.ByteRejected | cli/wire/frame.go:107-109 | any change confined to one byte makes an accepted packet rejected |
| Frame.AcceptedIsEven | cli/wire/frame.go:82-121 | every accepted packet has an even number of one bits, checksum byte included |
| Frame.OddFlipRejected | cli/wire/frame.go:82-121 | flipping any odd number of bits of an accepted packet makes it rejected |
| Multiplexer.StepKeeps | cli/client/client.go:61-141 | every atomic section of callers and reader keeps: a registered call has the id it is registered under and was never sent to; the reader delivers only to a call with the frame's id; at most one send per channel |
| Multiplexer.RunKeeps | cli/client/client.go:61-141 | so does every interleaving |
| Multiplexer.ReaderNeverBlocks | cli/client/client.go:78-86 | in every reachable state the channel the reader is about to send on is empty, and no channel is sent on twice |
| Multiplexer.OwnReplyOnly | cli/client/client.go:127-135 | a call returns a body only of a received frame that carried its own id, which is never the notification id |
| Multiplexer.NothingLeftPending | cli/client/client.go:113-117 | when all calls have returned, nothing is left registered |
| Multiplexer.IdsRepeat | cli/client/client.go:108 | ids are distinct and nonzero for fewer than 2^64 calls; the call whose id wraps to 0 is never answered |
| Multiplexer.RunRegisters | cli/client/client.go:108-117 | with fewer than 2^64 calls, every active call not answered yet is registered |
| Multiplexer.ReplyArrives | cli/client/client.go:74-86 | a reply that arrives while its call waits reaches that call, whatever else is going on |
| Multiplexer.LateReplyDropped | cli/client/client.go:75-82 | a second reply, a reply to a call that has left, and a notification change nothing |
| Multiplexer.OutcomesAccount | cli/client/client.go:104-141 | over every interleaving: a call comes out with a reply exactly if it took one, as failed in writing, as timed out or as closed exactly if that is what happened to it, and has returned exactly if it was deregistered; no call finds the connection closed unless reading has failed |
| Multiplexer.Client.Lookup | cli/client/client.go:64-83 | one turn of the read loop up to the end of the lock is one protocol step; what is not a binary frame is dropped |
| Multiplexer.Client.Send | cli/client/client.go:84-86 | the send finds its slot empty, and is one protocol step |
| Multiplexer.Client.NextId | cli/client/client.go:108-109 | the counter gives the next id modulo 2^64 and a new channel |
| Multiplexer.Client.RegisterChannel | cli/client/client.go:110-112 | registration is one protocol step |
| Multiplexer.Client.DeregisterChannel | cli/client/client.go:113-117 | the deferred deletion is one protocol step, after which the id is not pending |
| Multiplexer.Client.TryReceive | cli/client/client.go:127-128 | a caller takes a body exactly when one is there, and it is the one delivered to it |
| Engine.Engine.Run | agent/engine/engine.go:71-124 | decision loop, cut of the plan, steps, notifications, summary: outcome, requests and notifications are those of the specification; so with P steps and M rounds it asks the model at most (P + 1)(M + 1) + 1 times, each time with a well-formed extension of the transcript before, and notifies at most P times |
| Engine.Engine.RunSteps | agent/engine/engine.go:92-123 | the step loop and the summary likewise |
| Engine.Engine.ToolLoop | agent/engine/engine.go:130-160 | the round loop ends, answers and grows the transcript as specified; the last round offers no tools |
| Engine.Engine.AnswerCalls | agent/engine/engine.go:147-154 | one tool reply per call in order; the plan is that of the last accepted submission |
| Engine.Engine.constructor | agent/engine/engine.go:59-67 | each limit is at least one and at least the one given, and is one of these two |
| Engine.ExecuteToolCall | agent/engine/tools.go:115-162 | a call is a plan exactly when it is submit_plan with arguments that parse, and only a plan carries steps |
| Engine.ToolAnswers | agent/engine/tools.go:115-162 | what a call is answered, for every host: the list, read and search tools give exactly the host's own text for the arguments parsed, with 200 runes of context when none are asked for; arguments that do not parse, each tool's own failure, an accepted plan and an unknown tool each have their own text |
| Engine.LastPlanWins | agent/engine/engine.go:147-157 | the last accepted submission in a message decides; one without steps withdraws earlier ones |
| Engine.LoopChained | agent/engine/engine.go:130-160 | a loop only extends the transcript, keeps it well-formed, and asks at most M + 1 times |
| Engine.LoopTrace | agent/engine/engine.go:130-160 | the requests of a loop: the tools are offered in every round but the last; each request is the one before with the model's message and, for each of its calls in order, that answer; the loop ends in the text of the last answer, in the plan it submits, with the model's failure, or after its last round |
| Engine.StepsComeOut | agent/engine/engine.go:92-123 | the steps and the summary: only the three tools that look things up are ever offered, the texts sent are in order what the model concluded, the summary prompt is asked last and without tools and its answer is the final one, and each failure names the step at which the model failed or went on calling tools, or the user could not be told |
| Engine.RunComesOut | agent/engine/engine.go:71-124 | every run told from the requests, the model's answers and the texts sent alone: it begins with the system's and the user's message and all four tools; a direct answer is the text of the last answer, carries out nothing and tells nobody; a failed decision tells nobody; otherwise as for the steps |
| Engine.QuietRun | agent/engine/engine.go:104-110 | a run without a notifier has the requests and the result of the run whose notifier takes every message |
| Engine.TranscriptsAndCost | agent/engine/engine.go:59-160 | for any model replies and however the run ends: each transcript shown to the model extends the one before, each message with tool calls is followed at once by exactly one reply per call with the same ids in order, the model is asked at most (P + 1)(M + 1) + 1 times, and no more than P notifications are sent |
| Engine.PlannedRun | agent/engine/engine.go:86-123 | a planned run that succeeds notifies exactly min(the plan length, P) times, of the first that many steps of the plan in order, each time with the conclusion the conversation carries for that step after its prompt; StepsExecuted is that number and StepsTruncated holds iff the plan length > P |
| Engine.DirectRun | agent/engine/engine.go:78-84 | a run answers directly if and only if the decision loop ends in text; then the answer is that text, no step is executed or cut off, and nobody is notified |
| Engine.EndsInPlan | agent/engine/engine.go:127-157 | a loop ends in a plan iff, within its rounds, the model submits one before it answers in text or fails, whatever tools it was offered |
| Engine.PlanInStep | agent/engine/engine.go:92-110 | in every step whose loop ends so, the user is sent an empty text, nothing of that plan is carried out, and the run goes on with the next step |
| Engine.EmptyProgress | agent/docs/agent方案.md:213 | an input: a plan submitted inside a step of a plan; the run succeeds and the one progress message is empty |
| Utf8.RunesOfEncoded | agent/fsread/search.go:77-98 | encoding any Unicode scalar values gives valid text that decodes to them |
| Utf8.EncodedRunes | agent/fsread/search.go:77-98 | decoding valid text and encoding again gives the text |
| Utf8.Encoded | agent/fsread/search.go:77-98 | one rune of each length, and the replacement character for one that cannot be encoded, in bytes |
| Utf8.IllFormed | agent/fsread/search.go:77-98 | an overlong form, a sequence cut short and a surrogate decode to one replacement character per byte |
| Utf8.CutRunes | agent/fsread/search.go:82-83 | cutting any text, valid or not, at a rune boundary cuts its runes in two |
| Utf8.CountsOrdered | agent/fsread/search.go:82-83 | rune counts up to the ends of a match are ordered and within the file |
| Search.WindowIsSlice | agent/fsread/search.go:82-99 | in valid text, before + match + after is one stretch of the file around exactly the matched bytes, and each side holds min(contextChars, available) runes |
| Search.SearchInContent | agent/fsread/search.go:69-102 | the first limit matches of the file in offset order; truncated iff there are more, or the limit is not positive |
| Search.CutOut | agent/fsread/search.go:82-99 | one match: the path of its file, the runes matched and min(contextChars, available) runes on either side, in valid text one stretch of its bytes |
| Search.SearchFiles | agent/fsread/search.go:52-64 | the first fifty of all matches in (file, offset) order over the readable files, truncated iff fifty were returned |
| Search.Search | agent/fsread/search.go:32-65 | the first fifty of all matches, reported as by Search.AnswerReports with contextChars clamped to [0, 2000], flagged iff there are fifty; or the source's errors for an empty pattern, one that does not compile and a listing that fails |
| Search.AnswerReports | agent/fsread/search.go:32-102 | what an answer says, told from the files alone: its matches stand for distinct places (file, span) in ascending order, each with the path of its file, the runes matched and min(contextChars, available) runes on either side, in valid text one stretch of its bytes; no place is left out before fifty are full |
| Search.AllPrefix | agent/fsread/search.go:52-64 | the matches of the first files are the first of all matches |
| Search.FlaggedThoughComplete | agent/fsread/search.go:13-16 | every incomplete answer is flagged truncated; a complete one is flagged as well iff there are fifty matches in all |
| Search.FiftyFlagged | agent/fsread/search.go:13-16 | an input: the pattern a and one file of fifty letters a; all fifty matches are returned and flagged truncated |
| Varint.RoundTrip | protocol/generated/typescript/yimsg.ts:4193-4222 | every value of up to 64 bits written as a varint is read back, and nothing after it is touched |
| Varint.PutSpells | protocol/generated/typescript/yimsg.ts:4193-4222 | a number is written as seven bits a byte, low ones first, with the top bit on all bytes but the last, in as few bytes as spell it |
| Varint.GetReads | protocol/generated/typescript/yimsg.ts:4229 | what any bytes read as: the number spelled up to the first byte without the top bit, if that is among the first ten; otherwise the text is too short or the number too long |
| Varint.IntegersComeBack | protocol/generated/typescript/yimsg.ts:4193-4222 | 64-bit and 32-bit signed integers survive two's complement and sign extension |
| Varint.NumeralsComeBack | protocol/generated/typescript/yimsg.ts:4194-4222 | a canonical decimal string survives being written as a 64-bit varint and read back as a string, and only canonical strings are ever read |
| Varint.Int32Truncates | protocol/generated/typescript/yimsg.ts:4272-4279 | a 64-bit value read as int32 is its remainder modulo 2^32 |
| Varint.ReadModulo | protocol/generated/typescript/yimsg.ts:4229-4300 | whatever number is read, a 64-bit or 32-bit integer, a length and a tag are its remainder modulo the width, within their type |
| Wire.FieldFor | protocol/generated/typescript/yimsg.ts:4224-4310 | a tag is accepted only by a field that takes exactly that tag |
| Wire.DecodeItems | protocol/generated/typescript/yimsg.ts:4224-4310 | decoding a run of well-formed field occurrences, nested to any depth, folds their meanings in order and consumes exactly their bytes, whatever follows |
| Wire.DecodeEncode | protocol/generated/typescript/yimsg.ts:4193-4310 | for every list of fields and every conforming message, decoding its encoding with its length gives the message and stops exactly at the end |
| Wire.WrittenIff | protocol/generated/typescript/yimsg.ts:5342-5400 | a field is left out if and only if it is at its default and not a packed list |
| Malformed.CutItems | protocol/generated/typescript/yimsg.ts:4224-4310 | for every list of fields: when the buffer ends before the declared length, inside or between fields, known or unknown, nested or not, decoding fails for want of bytes |
| Malformed.Truncated | protocol/generated/typescript/yimsg.ts:4224-4310 | any prefix of well-formed bytes, taken for a whole message, decodes to the fields that are whole if it ends with one, and fails for want of bytes otherwise |
| Malformed.CutMessage | protocol/generated/typescript/yimsg.ts:4224-4310 | so does every prefix of an encoded Message |
| Malformed.CutBody | protocol/generated/typescript/yimsg.ts:4442-4528 | a MessageBody of which the buffer holds less than its declared length is always refused |
| Malformed.NoSuchWireType | protocol/generated/typescript/yimsg.ts:4304-4308 | a tag with wire type 6 or 7 is refused as such |
| Malformed.GroupRefused | protocol/generated/typescript/yimsg.ts:4304-4308 | inside a skipped group, after any fields, a tag no field can have and the end mark of another group are each refused as such |
| WireIO.BinaryReader.ReadVarint | protocol/generated/typescript/yimsg.ts:4229 | the shifting loop reads the varint the specification reads and advances past it |
| WireIO.BinaryReader.SkipOver | protocol/generated/typescript/yimsg.ts:4307 | skipping advances past exactly the payload of the given wire type, groups included, or fails |
| WireIO.BinaryReader.SkipToEnd | protocol/generated/typescript/yimsg.ts:4307 | a group is left after the end mark that belongs to it; inside a group an end mark of another number is an error |
| Wire.SkipItems | protocol/generated/typescript/yimsg.ts:4304-4308 | a group of any fields, groups inside it nested to any depth, is skipped to its own end and no further |
| WireIO.ReadPackedLongs | protocol/generated/typescript/yimsg.ts:5380-5384 | the inner loop reads varints until the end of the chunk |
| WireIO.DecodeField | protocol/generated/typescript/yimsg.ts:4230-4308 | the switch on the tag: read the field, stop at an end mark, skip the rest |
| WireIO.DecodeFrom | protocol/generated/typescript/yimsg.ts:4224-4310 | the generated decode loop over a moving position equals the specification, nested decodes included |
| WireIO.BinaryWriter.Join | protocol/generated/typescript/yimsg.ts:4207 | a forked part is written behind its own length |
| WireIO.WriteField | protocol/generated/typescript/yimsg.ts:4193-4222 | each field is written, or left out at its default, as specified |
| WireIO.EncodeTo | protocol/generated/typescript/yimsg.ts:4193-4222 | the generated encode function appends exactly the message's encoding and leaves the stack of forks as it was |
| Messages.GeneratedTags | protocol/generated/typescript/yimsg.ts:4193-4528 | the field lists give the tags spelled out for ConversationTarget, Message and MessageBody |
| Messages.GeneratedBodyTags | protocol/generated/typescript/yimsg.ts:4612-5356 | and those of the nine body kinds |
| Messages.MessageFields | protocol/generated/typescript/yimsg.ts:4224-4310 | each tag of a Message sets its own field, by its own reading, and no other, whatever was read before |
| Messages.TargetFields | protocol/generated/typescript/yimsg.ts:3612-3645 | likewise of a ConversationTarget |
| Messages.BodyFields | protocol/generated/typescript/yimsg.ts:4442-4528 | likewise text, image and system of a MessageBody |
| Messages.MoreBodyFields | protocol/generated/typescript/yimsg.ts:4442-4528 | likewise file, recall and quote |
| Messages.LastBodyFields | protocol/generated/typescript/yimsg.ts:4442-4528 | likewise forward, markdown and mention |
| Messages.ImageFields | protocol/generated/typescript/yimsg.ts:4728-4870 | likewise of an ImageBody |
| Messages.FileFields | protocol/generated/typescript/yimsg.ts:4872-4982 | likewise of a FileBody |
| Messages.RecallFields | protocol/generated/typescript/yimsg.ts:5042-5160 | likewise of a RecallBody |
| Messages.QuoteFields | protocol/generated/typescript/yimsg.ts:5162-5260 | likewise of a QuoteBody |
| Messages.ForwardFields | protocol/generated/typescript/yimsg.ts:5262-5340 | likewise of a ForwardBody, whose message ids are appended |
| Messages.MentionFields | protocol/generated/typescript/yimsg.ts:5342-5400 | likewise of a MentionBody, whose uids are appended |
| Messages.TextFields | protocol/generated/typescript/yimsg.ts:4612-4726 | likewise of the bodies that are one text |
| Messages.DefaultsLeftOut | protocol/generated/typescript/yimsg.ts:4193-4222 | a message without fields has its numbers at 0 or "0", empty text and nothing nested, and is written as no bytes |
| Messages.MessageRoundTrip | protocol/generated/typescript/yimsg.ts:4193-4310 | any Message with canonical 64-bit strings and 32-bit numbers in range, with any nesting of body kinds, decodes from its encoding to itself |
| Messages.NestedMessageRoundTrip | protocol/generated/typescript/yimsg.ts:4193-4310 | a Message followed by other bytes is read to its declared length and no further |
| Messages.NestedBodyRoundTrip | protocol/generated/typescript/yimsg.ts:4411-4528 | a MessageBody, whichever kinds it carries, likewise |
| Messages.NewerWriterTolerated | protocol/generated/typescript/yimsg.ts:4304-4308 | unknown fields, groups among them, anywhere among or inside the known ones never change the Message decoded |
| Messages.MentionedUids | protocol/generated/typescript/yimsg.ts:5373-5390 | any mix of packed and unpacked mentioned uids, among any other fields, decodes to their concatenation in order |
| Messages.WriteMessage | protocol/generated/typescript/yimsg.ts:4193-4222 | writing through the writer gives the encoding |
| Messages.ReadMessage | protocol/generated/typescript/yimsg.ts:4224-4310 | reading through the reader gives the decoding |
| Tolerance.UnknownIgnored | protocol/generated/typescript/yimsg.ts:4521-4526 | for every list of fields, dropping all unknown occurrences at every depth changes nothing |
| Tolerance.KnownPartComesBack | protocol/generated/typescript/yimsg.ts:4442-4528 | bytes whose known part is a message's encoding decode to that message |
| Tolerance.MixedLists | protocol/generated/typescript/yimsg.ts:5373-5390 | a packed list is the concatenation of all its occurrences, packed or not, in order |
| Tolerance.DecodedConforms | protocol/generated/typescript/yimsg.ts:4224-4310 | whatever bytes are decoded, every number in the result is within its type and every 64-bit string canonical, at every depth |
| Tolerance.RereadSame | protocol/generated/typescript/yimsg.ts:4193-4310 | a decoded message that is encoded and decoded again is unchanged: the encoding is a normal form |
| Tolerance.LastWins | protocol/generated/typescript/yimsg.ts:4230-4300 | of a scalar or message field that occurs more than once the last occurrence counts alone |

## Left out

- Dialing, TLS, HTTP retries and JSON: the model and the network are oracles; JSON parsing and the wording of prompts are parameters of the engine.
- SQLite and files: a table is a finite map; a transaction and a rename are atomic and durable once done.
- The server's own state beyond an account's messages: conversations, unread counts, the fan-out to other accounts.
- Building the text given to the engine from the messages of a group, and the memory reflection prompt: formatting.
- Text fields are UTF-8 byte sequences; replacing malformed UTF-8 when a text field is decoded is not modelled.
- Encoding a 64-bit field whose string is not a canonical decimal: the original parses it or throws, the model does not accept it.
- The rest of the generated file: requests, responses, JSON and partial constructors are repetitive.
- Decoding the business error inside a response, after the multiplexer has handed over its body.
- Closing the connection from the caller's side appears only as a failed read.
- Sharing of slices: the body of a decoded frame and the transcript of the engine are values here.
- Groups of a batch are values in a map, not records updated through pointers.
- AgentState.Store.Commit: partners last used at the same millisecond are evicted in any order, as the original's sort leaves it.
- AgentState.CommitKeepsBounds: a summary cut in the middle of a multi-byte character is kept as cut; what JSON makes of it when the file is read again is not modelled.
- Path checks of the file sandbox, the message id generator, account files and back-off.
