# A verified model of the SMB1 client

This project models the parts of the client whose correctness rests on more than one function: the
connection that many callers share, the transfers that keep several requests in flight over it, the glob
matcher and the traversal that should agree with it, recursive removal, the connection pool, and the NDR
and UTF-16 string codecs. `dafny verify dfyconfig.toml` checks all of it.

## How it is laid out

**The connection.** `ConnModel` holds the client half of the connection as a value and each critical section
under its mutex as a function. `Protocol` puts the server, the byte stream and the callers around it: a
`World` with one `Step` per critical section, per message the server sends, and per thing that goes wrong. A
request is named by a number that is never reused, so that "the reply to this request" can be told from "a
reply with this request's MID". `ProtocolSafety` proves an invariant of every step, request by request: what
a request's queue, the stream and the server's ledger hold for it fits the phase it is in. `ProtocolTheorems`
draws the conclusions for every history. `ProtocolOrder` adds what is kept about the numbers of a reply's messages:
they reach their caller in order and, unless one is dropped or cannot be decoded, without a gap. `ProtocolLimits` says
what happens to replies of more messages than a queue holds. `Connection` is the same connection as a class, with the
loops of the code; each method's contract names the step it takes. `Rely` says what one caller may rely on while all
others go on taking steps; `Conn.Interfere` is called wherever the code does not hold the mutex, and its contract is
exactly what `Rely.EnvironmentIsTolerated` proves of any number of steps by others. The connection's `diary` records
which requests the caller whose code runs has begun, what each asked, and the most it had in flight; only the methods
that send add to it, so that `Clean(conn.world, conn.diary.mine)` leaves out no request of the caller's.

**Requests and transfers.** `Transactions` sends a request whose reply may come in several messages, and
`Trans2` puts it back together. `Pipeline` keeps several requests of one transfer in flight and lets go of all
of them; `Chunks` cuts a transfer up; `Reading` and `Writing` are the two directions of a file, each with a
`File` class whose server answers for what the diary says the answered request asked. The server's choices (short
answers, errors, lateness), the caller's cancellations and the send failures are nondeterministic; `Mishaps` counts
those that went wrong, so that a contract can say what holds when nothing does; and since only `Conn.Select` and the
other methods that stand for the outside world make and count them, a caller cannot be told of a failure that nothing
caused, nor of none where there was one. `Storage` says what the bytes of a file
are before and after. `Streams` is the copy between two streams.

**Patterns and trees.** `Pattern` has the grammar, the parse and the declarative meaning of a pattern; `Matcher`
is the code with its greedy choice; `MatchTheorems` proves the two agree. `Paths` has paths and trees,
`PathPatterns` matches paths element by element, `Spelling` trims and validates the paths of requests, `Sorting`
sorts, `GlobPatterns` takes a traversal's patterns apart, `Glob` is the traversal, and `Removal` is `RemoveAll`.

**Pool and codecs.** `PoolModel` is the pool as a state machine, `Pooling` the class; `Utf16` follows RFC 2781
sections 2.1 and 2.2, `Ndr` lays strings out as C706 section 14.3.4.2 does. `Wrappers` and `Sets` are shared helpers.

## Assumptions

- The server sends one message for an ordinary request and one or more for a transaction, fixed when the request
  reaches it; it sends nothing under a MID it owes nothing for. MIDs and the multi-message reply are those of [MS-CIFS]
  sections 2.2.3.1 and 2.2.4.46.2. A transaction's reply ends when it should: until its last message the others, any
  of them missing or not, neither look like a whole reply nor carry an error status. For whole replies in messages
  that share no byte, `Transactions.WholeReplyEndsWhenItShould` says exactly which do.
- A server that answers a READ_ANDX ([MS-CIFS] section 2.2.4.42) with bytes answers with those of the file, and with
  none only at or beyond its end. A WRITE_ANDX reply (section 2.2.4.43) tells truly how much was written; the server
  may carry out any prefix of a write that reached it, answered or not.
- Nobody else changes the file, or the tree, while it is being read, written, globbed or removed, and each `File` has
  one caller at a time.
- The clock of a pool never goes back.
- Pattern and path characters are single units, as in ASCII. Strings for the codecs are sequences of Unicode scalar values.
- No entry at the root of a globbed tree is called ".".

## Where the code and its documentation part ways

- *Bad patterns.* `Match` and `Glob` promise an error for a malformed pattern; the code reports one exactly when the
  well-formed segments before the malformed one match a beginning of the name (`MatchTheorems.BadPatternIsReportedWhenReached`).
  `"a*["` is not reported for any name that does not begin with `a`, nor by `Glob`'s check against the empty name
  (`MatchTheorems.UnreachedDefectIsNotReported`). `Glob` rejects a malformed pattern or returns nothing for it
  (`Glob.WhenExpansionIsRight`).
- *Classes and separators.* A class may accept `\`. The matcher misses no match unless a class between two stars does
  and the name has more separators than the pattern has literal ones; then it can
  (`MatchTheorems.LeftmostChoiceMissesAMatch`). `Glob` goes level by level, so that of the paths `Match` accepts it
  returns exactly those with as many separators as the pattern (`Glob.GlobAgreesWithMatch`): `x[^a]y` matches `x\y`
  and `Glob` never returns that (`Glob.ClassTakesTheSeparator`). `Glob` also splits a pattern at a `\` written inside a
  class, and so rejects the well-formed `[^\]*` (`Glob.SeparatorInAClassIsRejected`). It rejects such a pattern or
  returns nothing, which is right exactly when it is not rejected and no path of the tree matches
  (`Glob.WhenExpansionIsRight`).
- *A directory called ".".* With normalisation switched off, `Glob` takes `.\*` for the root's entries, none of which
  `Match` accepts (`Glob.DotIsTakenForTheRoot`). It expands what follows `.\` in the place of the pattern exactly if the
  next element has a wildcard (`GlobPatterns.DotIsTakenExactly`), and that is wrong exactly if it matches something.
- *Trimmed paths.* Every request trims its path. `Glob` returns the literal `x ` where there is only `x`
  (`Glob.TrimmedPathIsFound`), and lists `d` for `d \*`, spelling its entries `d \f` (`Glob.TrimmedDirectoryIsListed`).
  A literal pattern is expanded rightly exactly if its trimmed path is one of the tree whenever it is itself
  (`Glob.WhenLiteralIsRight`); any pattern is if the part before its first wildcard and the directories of the tree
  are their own trimmed paths, and no file's trimmed path is a directory (`Glob.GlobWith`).
- *Removing odd names.* `RemoveAll` builds each child's path and normalises it again, so a child whose name ends in
  white space is not reached (`Removal.ChildIsReached` says exactly which are), and its directory is asked for while it
  still has an entry. Unless a request fails that need not have, a valid path is removed exactly when every path of its
  subtree is valid and reaches itself (`Removal.Server.RemoveAll`). It never leaves the subtree and never returns
  success with anything left.
- *Dead idle sessions.* The pool never gives back the slot of an idle session found dead; once as many were dropped as
  may be active, it is exhausted for good (`PoolModel.DroppedSlotsAreLost`). Every pool that keeps idle sessions and
  limits the active ones can get there (`PoolModel.EverySlotCanBeLost`), and no other one loses a slot
  (`PoolModel.NothingIdleNothingLost`).
- *Counting bytes.* Reassembly counts bytes, not places; messages that repeat bytes can be taken for a whole reply
  (`Trans2.RepeatedBytesLookComplete`).
- *Message limits.* Reassembly accepts 65 messages, while a request's queue holds 64. A message can be dropped exactly
  of replies of more than 64 (`ProtocolLimits.DroppedExactlyBeyondTheDepth`), the 65th of 65 among them.
- *A queue closed when full.* Close leaves its news in a queue exactly if that is not full
  (`ProtocolLimits.CloseTellsUnlessFull`). A caller that reads on comes to a queue closed and empty, and the code
  takes the nothing it receives for a message and fails. That can happen exactly with replies of more than 64 messages
  before the last is received (`ProtocolLimits.DryExactlyBeyondTheDepth`), and never to a whole reply of up to 64
  (`Transactions.SendRecvTransaction`) or to an ordinary request (`Connection.AwaitedQueueIsNotDry`).
- *An empty last message.* A reply whose bytes are complete before an empty last message is taken for ended
  (`Transactions.WholeReplyEndsWhenItShould`), its MID is freed with that message still to come, and the next request
  that gets the MID is handed it (`Transactions.EmptyLastMessageReachesAnother`).

## Model

| member | source | states |
|---|---|---|
| ConnModel.FirstFreeIsNearest | internal/client/conn.go:194-222 | the MID found is the nearest usable one in cyclic order, and the search gives up only when every place was tried |
| ConnModel.AllocationFailsExactlyWhenFull | internal/client/conn.go:194-222 | allocation fails exactly when all 65535 usable MIDs are held, and never yields 0xFFFF or a held MID |
| ConnModel.IssuedLastComesLast | internal/client/conn.go:188-222 | a MID is issued again, freed or not, only when every other usable one is held |
| ProtocolSafety.StepKeepsInv | internal/client/conn.go:484-698 | every step of the protocol keeps the invariant that ties queues, pending entries, stream and owed replies together |
| ProtocolSafety.ExecutionKeepsInv | internal/client/conn.go:484-698 | so does every history, of any length and interleaving |
| ProtocolOrder.StepKeepsSound | internal/client/conn.go:484-698 | every step also keeps the order of each reply's messages from the server to the caller, with no gap unless one was lost |
| ProtocolOrder.ExecutionKeepsSound | internal/client/conn.go:484-698 | so does every history |
| ProtocolTheorems.QueuedRepliesAreOwn | internal/client/conn.go:593-627 | in every reachable state a reply in a request's queue was sent for that very request, never for an earlier holder of its MID |
| ProtocolTheorems.FreeMidOwesNothing | internal/client/conn.go:62-81 | a MID absent from the pending map has nothing owed and nothing on the wire under it, and no two owed requests share one |
| ProtocolTheorems.TakenInFullOwesNothing | internal/client/conn.go:678-698 | a caller that took the last reply leaves nothing owed, on the wire or queued |
| ProtocolTheorems.ReceiveNeverStuck | internal/client/conn.go:593-627 | the receive loop never meets a missing or closed queue |
| ProtocolTheorems.NothingDroppedWithinDepth | internal/client/conn.go:621-626 | dispatch drops nothing of a request whose server sends no more messages than its queue is deep, whatever comes in between |
| ProtocolTheorems.RepliesArriveInOrder | internal/client/conn.go:356-368 | in every reachable state a caller has received its reply's messages in the order sent and none twice; if none was lost, the first ones without a gap, and all of them once it has the last |
| ProtocolLimits.MoreThanTheDepthCanBeDropped | internal/client/conn.go:621-626 | for any reply of more messages than the queue holds, a history in which the first too many finds it full and is dropped |
| ProtocolLimits.DroppedExactlyBeyondTheDepth | internal/client/conn.go:36-51 | some history drops a message of a reply exactly if that has more messages than the queue's 64 |
| ProtocolLimits.CloseTellsUnlessFull | internal/client/conn.go:172-179 | Close leaves the news in a queue exactly if that is not full, and a full one holds the last message of any reply of no more messages than it holds |
| ProtocolLimits.DryExactlyBeyondTheDepth | internal/client/conn.go:324-330 | a caller short of its reply's last message can come to a queue closed, empty and without news exactly if the reply has more messages than the queue holds |
| ProtocolTheorems.AbandonedHoldsUntilReply | internal/client/conn.go:678-698 | an abandoned ordinary request holds its MID exactly as long as its reply is owed, on the wire, or was lost undecoded |
| ProtocolTheorems.LateReplyFreesMid | internal/client/conn.go:609-618 | exactly one late reply frees an abandoned request's MID, and nobody receives it |
| ProtocolTheorems.HandOffRaceFreesMid | internal/client/conn.go:685-698 | whether the reply or the giving up comes first, the MID ends up free |
| ProtocolTheorems.AbandonedTransactionKeepsMid | internal/client/conn.go:70-81 | an abandoned transaction keeps its MID through every history until teardown |
| ProtocolTheorems.TeardownIsFinal | internal/client/conn.go:654-676 | after teardown the first error stays, the pending map stays empty, no MID is issued and nothing enters a closed queue, through every history |
| ProtocolTheorems.FailureWakesEveryone | internal/client/conn.go:666-673 | a failure leaves the news last in the queue of every request pending at that moment, or that queue full as it was |
| ProtocolTheorems.CloseRemembersEveryone | internal/client/conn.go:166-170 | Close has every request pending at that moment on the list it wakes |
| ProtocolTheorems.CloseWakesEveryone | internal/client/conn.go:172-179 | each of them has the news last in its queue, unless that was full, when it is closed, once |
| ProtocolTheorems.ExhaustionTearsDown | internal/client/conn.go:211-220 | a request is refused on an open connection exactly when no usable MID is left, and the connection is then torn down with nothing pending |
| Rely.EnvironmentIsTolerated | internal/client/conn.go:93-95 | any number of steps by others, in any order, leaves a caller's requests as they were, with perhaps more in their queues |
| Connection.NotAwaitedHoldsNothing | internal/client/conn.go:62-81 | a request nobody waits for has no pending entry but a cancelled one |
| Connection.OthersLeaveTheCloserAlone | internal/client/conn.go:166-179 | nobody but Close takes a request off its list or reopens a queue |
| Connection.HeadIsOwn | internal/client/conn.go:321-354 | what a waiter receives next is its own reply, later than all it received, the next of them if none was lost, and the last exactly when marked so; or news of teardown |
| Connection.AwaitedQueueIsNotDry | internal/client/conn.go:324-330 | whoever waits for an ordinary reply finds something in its queue if that is closed |
| Connection.Conn.constructor | internal/client/conn.go:113-124 | a new connection is in the initial state of the protocol |
| Connection.Conn.WakePending | internal/client/conn.go:666-673 | the loop offers the news to each pending request once and empties the map |
| Connection.Conn.SetErrorLocked | internal/client/conn.go:654-676 | teardown happens once: a second call changes nothing |
| Connection.Conn.SetConnError | internal/client/conn.go:647-651 | is the failure step of the protocol and disturbs no other caller |
| Connection.Conn.AllocateMid | internal/client/conn.go:194-222 | one pass of the ID space finds the nearest usable MID or tears the connection down; it terminates |
| Connection.Conn.Begin | internal/client/conn.go:484-505 | registers a fresh request under the MID found, or none on a connection that is or becomes closed |
| Connection.Conn.Cleanup | internal/client/conn.go:507-513 | a request that never reached the wire is unregistered without disturbing any other |
| Connection.Conn.FreeTaken | internal/client/file.go:417-421 | deleting the MID of a chunk whose reply was taken is a step of the protocol |
| Connection.Conn.ReleaseLocked | internal/client/conn.go:685-698 | is the protocol's finishing step, abandoned or not, for this request only |
| Connection.Conn.Dispatch | internal/client/conn.go:593-627 | is the protocol's receiving step for the next message of the stream |
| Connection.Conn.TakeFrom | internal/client/conn.go:321-346 | takes the oldest message of the request's queue, as the protocol's step |
| Connection.Conn.SendPacket | internal/client/conn.go:484-540 | either the request is on the wire with its caller waiting, or nothing is left registered; a write broken off, and only that, takes the connection down; what was begun and asked is recorded, and no request moves more bytes than the negotiated limits allow |
| Connection.Conn.ReceiveReply | internal/client/conn.go:321-346 | whatever is taken is returned: a reply as the answer, and only news of teardown as the connection gone |
| Connection.Conn.SendRecv | internal/client/conn.go:264-276 | an answer is the one message that the request's caller received, sent for this very request, and a reply received is always the answer; giving up is reported exactly when the caller's context ended, and the connection as gone only when it is; on every exit nobody waits for any request of the caller's |
| Connection.Conn.SendRecvSettled | internal/client/conn.go:286-316 | the same, for a caller that goes on waiting a while after it gave up: a reply received is the answer or came late, the connection is reported gone only with no reply received, and a request that was answered is not abandoned |
| Connection.Conn.SettleLate | internal/client/conn.go:303-315 | the late reply is taken whenever it comes in time, and the request is not abandoned then; whether it comes, does not, or the connection goes, the request is let go of |
| Connection.Conn.Close | internal/client/conn.go:153-186 | closes the queue of every request pending at the call, keeps an earlier error, and leaves nothing pending |
| Transactions.AwaitResponse | internal/client/conn.go:321-354 | a delivered message is this request's, received after all received before and later than those, the last one known as such; a reply at hand is delivered, giving up is reported exactly when the caller did, and nothing is received only from a queue closed, empty and without news |
| Transactions.Finish | internal/client/conn.go:514-518 | frees the MID only of a request whose last message was received |
| Transactions.ReadReply | internal/client/conn.go:397-463 | what the caller is told is what the server's messages received so far, in order, put together yield; it holds the reply for ended exactly when they show it, on every exit, and then it has the last |
| Transactions.WholeReplyIsGivenBack | internal/client/conn.go:356-463 | a reply of at most 64 disjoint covering messages, at most one empty, none undecodable, is told back byte for byte |
| Transactions.WholeReplyEndsWhenItShould | internal/client/conn.go:433-436 | a whole reply cannot look ended before its last message exactly if that is not an empty one after others |
| Transactions.SendRecvTransaction | internal/client/conn.go:369-463 | all of that for one call: the outcome is what the messages received yield, the reply itself when it fits the queue and all of it decoded; without an outcome the end was not seen; the code fails only after 64 messages and never on a whole reply of up to 64; the MID is freed exactly when the reply was seen to end, and held otherwise |
| Transactions.EmptyLastMessageReachesAnother | internal/client/conn.go:433-436 | with an empty last message still to come the reply is seen to end, the MID is freed, and the next request under it is handed that message |
| Trans2.PlaceFragment | internal/client/conn.go:467-478 | copies the bytes to their place and nothing else, or refuses and changes nothing |
| Trans2.AddPart | internal/client/conn.go:412-450 | one message's effect on the buffers, counts and verdict |
| Trans2.ReassemblyIsExact | internal/client/conn.go:356-463 | a reply cut into disjoint covering messages, at most one empty, at most 65, in any order, is given back byte for byte |
| Trans2.NothingIsMissed | internal/client/conn.go:356-463 | a reply of which a byte is missing is never taken for complete |
| Trans2.WhyReadingEnds | internal/client/conn.go:397-450 | of a reply not yet whole: an error status or what does not decode ends it, bytes beyond its end are refused, and so are a second empty message and a 65th message that do not make it whole; otherwise reading goes on |
| Trans2.RepeatedBytesLookComplete | internal/client/conn.go:418-424 | a repeated message can make an incomplete reply look complete |
| Pipeline.SendNext | internal/client/file.go:538-615 | a chunk sent joins those awaited; one not sent leaves nothing behind and disturbs none of them; what it asked and how many are in flight is recorded |
| Pipeline.SendBatch | internal/client/file.go:383-397 | no more chunks are in flight at once than wanted, each request asked for its own chunk, and of all the caller began only those sent are awaited |
| Pipeline.AwaitNext | internal/client/file.go:414-430 | a reply taken is the one message its chunk's caller received and its MID is freed; otherwise every chunk is still awaited |
| Pipeline.CollectReplies | internal/client/file.go:486-525 | on return nothing the caller ever began is awaited: each MID is freed or held as cancelled, and none is given up on unless something went wrong |
| Pipeline.AbandonChunks | internal/client/file.go:527-536 | on return nothing the caller ever began is awaited, every chunk given up on, answered, or gone with the connection |
| Chunks.ClampToNegotiatedBuffer | internal/client/file.go:99-108 | a chunk is the largest that keeps to its ceiling and leaves 1024 bytes for the header in the negotiated buffer when that has more, and is never empty |
| Chunks.Negotiated.MaxReadChunk | internal/client/file.go:67-86 | 65520 bytes with the large-read capability, and otherwise the most that fit the negotiated buffer |
| Chunks.Negotiated.MaxWriteChunk | internal/client/file.go:88-97 | 130048 bytes with the large-write capability, and otherwise the most, up to 65520, that fit the negotiated buffer |
| Chunks.PipelineDepth | internal/client/file.go:110-118 | the depth is what the server takes, at most 50 and at least 1, and above 1 exactly when pipelining is reported |
| Chunks.NumChunksCovers | internal/client/file.go:351-353 | the number of chunks is exactly enough to cover the buffer |
| Chunks.Cut | internal/client/file.go:364-381 | the chunks are a gap-free partition of the buffer, none empty and none too large |
| Reading.CopyInto | internal/client/file.go:452-454 | exactly the delivered bytes change in the buffer, to the file's |
| Reading.File.ReadAtChunk | internal/client/file.go:638-713 | the bytes are those the answered request asked for, as many as one request may move if the server gives them; progress or an error, and end of file only where the file ends; a failure is reported exactly if something went wrong |
| Reading.File.ReadAt | internal/client/file.go:617-636 | fills the range with the file's bytes or reports an error; end of file only at the true end, and a failure exactly if something went wrong |
| Reading.File.ReadSequential | internal/client/file.go:315-343 | delivers consecutive file bytes and, unless something failed, exactly as many as the file has for the buffer, one request at a time |
| Reading.File.TakeTurn | internal/client/file.go:414-469 | the bytes placed answer what the first request in flight asked; when nothing can follow, every chunk in flight is settled or given up on |
| Reading.File.ReadPipelined | internal/client/file.go:345-484 | delivers consecutive file bytes, agrees with a full read when the server answers in full, had as many in flight as the depth allows and never more, leaves no request of the caller's awaited on any exit, and gives up on none unless something went wrong |
| Reading.File.Read | internal/client/file.go:273-313 | a non-empty buffer yields progress or an error, end of file only at the true end, the offset moves by what was delivered, a generous server gives the same result either way, fewer than 128 KiB go one request at a time and more to the depth allowed, nothing is left awaited, and none given up on unless something went wrong |
| Reading.ReadsLoseNothing | internal/client/file.go:307-312 | the results of any run of reads concatenate to consecutive bytes of the file, none lost and none repeated |
| Reading.ReadAll | session.go:1147-1173 | terminates with the rest of the file, byte for byte, or with a true prefix of it and the failure, nothing left awaited |
| Storage.OverwriteAdjacent | internal/client/file.go:808-832 | writing two adjacent pieces is writing them as one |
| Writing.PatchedConfirms | internal/client/file.go:926-971 | whatever prefix of each dispatched chunk the server carries out, the bytes confirmed in order are in the file and nothing outside the range changed |
| Writing.PatchedInFull | internal/client/file.go:926-971 | when every dispatched chunk is carried out in full, the file is the old one with one write over it |
| Writing.EveryByteIsAccountedFor | internal/client/file.go:932-971 | the count returned is true of the file, and exact when it is all that was dispatched |
| Writing.LateChunkDisturbsNothing | internal/client/file.go:938-948 | a chunk carried out after the call returned does not disturb what was confirmed |
| Writing.File.WriteAt | internal/client/file.go:1076-1135 | writes at most one chunk; the count returned is what the reply confirmed and is in the file, and nothing outside the data's range changed |
| Writing.File.WriteSequential | internal/client/file.go:756-796 | the count returned is exactly what the replies confirmed and is in the file; no error means all of it and that nothing went wrong; only mishaps and short writes stop it |
| Writing.File.AwaitChunk | internal/client/file.go:889-914 | a caller that gives up stops the feeding once and goes on waiting |
| Writing.File.TakeTurn | internal/client/file.go:932-962 | counts what the reply to the first request in flight confirms of it, and nothing else; on any error every chunk in flight is settled or given up on |
| Writing.File.SendFirst | internal/client/file.go:834-846 | the chunks sent are those awaited, in order, each request a write of its own chunk, and all of them reached the server |
| Writing.File.Feed | internal/client/file.go:968-988 | at most one chunk more, none once feeding has stopped, and stopping is remembered |
| Writing.File.WritePipelined | internal/client/file.go:798-992 | the count is exactly what the replies read confirmed, those bytes come first in the file and nothing outside the range changed, even when cancelled or cut off; if all that was dispatched was confirmed, the file is exactly the old one overwritten; no error means everything, and that nothing went wrong; the depth was used and kept, and no request of the caller's is left awaited |
| Writing.File.Write | internal/client/file.go:715-754 | the same, with the offset moved by n; fewer than 256 KiB go one request at a time; a thorough server leaves the same file, count and offset either way |
| Streams.CopyStream | file.go:230-257 | the writer accepted a prefix of what was read, as long as the count; an error of the writer's is the one returned, one of the reader's comes after all its data; no error means the end was reached and everything accepted |
| Pattern.ParseInvertsRender | match.go:16-29 | the grammar is unambiguous: parsing what terms are written as gives the terms |
| Pattern.ParsedIsWellFormed | match.go:16-29 | what parses was written by the grammar |
| Pattern.SegmentParses | match.go:81-104 | a pattern parses as its first segment and the rest; a segment that does not parse cannot be completed |
| Matcher.NormPattern | match.go:202-216 | computes that, or leaves the pattern alone with normalisation off |
| Matcher.NormalisationMeans | match.go:202-216 | a slash is written for a separator, leading ".\" elements count for nothing, and nothing else is changed |
| Matcher.OnlyNormalFits | match.go:202-216 | those three rules determine the normalised pattern |
| Matcher.NormalIsNormal | match.go:202-216 | normalising is idempotent and leaves neither slash nor leading ".\" |
| Matcher.SplitChunk | match.go:81-104 | computes the specified split with one pass of the brackets |
| Matcher.SplitRebuilds | match.go:81-104 | stars, segment and rest rebuild any pattern, and the split is not inside a class |
| Matcher.MatchClass | match.go:127-162 | reads a class exactly when it is well formed and says what it accepts |
| Matcher.MatchChunk | match.go:106-181 | reports an error exactly for a malformed segment, even after a mismatch, and a match exactly when the terms fit |
| Matcher.Retry | match.go:58-74 | finds the first later place in the path element where the segment fits |
| Matcher.Match | match.go:35-79 | computes the specified outcome for every pattern and name, with every index in range |
| MatchTheorems.StarSlides | match.go:58-74 | where a later fit of a segment lets the rest match, an earlier one does |
| MatchTheorems.FirstPlaceDecides | match.go:47-74 | whether any fit leads to a match is decided by the first |
| MatchTheorems.MatchHasTheLiterals | match.go:16-29 | what a pattern matches has at least as many separators as it has literal ones, and no more unless a class accepts one |
| MatchTheorems.GreedyIsRight | match.go:35-79 | matches and errors are only reported where the declarative relation has them, and always, unless a class between two stars accepts the separator and the name has more of them than the pattern's literals |
| MatchTheorems.MatchDecidesTheGrammar | match.go:13-34 | a well-formed pattern never errs, what is reported as a match is one by the term-by-term relation, and none is missed unless a class between two stars had to take a separator |
| MatchTheorems.OneCharacter | match.go:18-29 | what "?", a class, its range, its negation and a literal accept, for every character |
| MatchTheorems.OneStar | match.go:18-19 | a star matches exactly the runs without a separator |
| MatchTheorems.BadPatternsAreBad | match.go:33-34 | the error is reported only outside the grammar |
| MatchTheorems.BadPatternIsReportedWhenReached | match.go:106-109 | a malformed pattern is reported exactly when its well-formed segments reach the malformed one |
| MatchTheorems.SplitsBetweenTerms | match.go:81-104 | a well-formed pattern is split between terms |
| MatchTheorems.UnreachedDefectIsNotReported | match.go:33-34 | "a*[" is not reported for names not beginning with 'a' |
| MatchTheorems.LeftmostChoiceMissesAMatch | match.go:58-74 | "*[^a]*b" does not match "x\yb", which its terms do |
| PathPatterns.MatchSplitsAtLastSeparator | session.go:1416-1421 | matching a path is matching its directory and its name |
| PathPatterns.PathSplitsAtLastSeparator | session.go:1416-1421 | the same whatever the classes accept, for paths in which no class takes a separator |
| PathPatterns.SplitIsByElement | session.go:1416-1421 | splitting the text at its last separator splits the terms there |
| PathPatterns.LiteralMatchesItself | match.go:218-222 | a pattern without meta characters is well formed and matches itself only |
| Paths.JoinedPath | session.go:1438-1446 | joining a directory and a name gives the path whose parent and base they are |
| GlobPatterns.PartsOfNormal | session.go:1340-1367 | the directory part of a normalised pattern is normalised and, if it has wildcards, shorter: the traversal has no fixed point |
| GlobPatterns.ElementDecides | session.go:1402-1410 | matching a name against the last element never fails and is exact for every name a directory can list |
| GlobPatterns.PartsMakeRegular | session.go:1416-1436 | a pattern is well formed, with no separator written in a class, if its directory part is and its file part is well formed |
| GlobPatterns.DotIsTakenExactly | session.go:1386-1390 | of a pattern that leads with ".\" the rest is expanded in its place exactly if the next element has a wildcard |
| Glob.PathMatches | session.go:1339-1380 | a path of the tree matches level by level exactly when its directory matches the directory part and its name the last element |
| Glob.GlobDir | session.go:1382-1414 | adds exactly the matching entries of the directory that the path as spelled opens, spelled with it, in order and once each; fails exactly if an entry's name shows the pattern malformed |
| Glob.GlobDirs | session.go:1373-1379 | exactly the matching entries of all the directories, spelled with them, failing exactly if one of them does |
| Glob.GlobWith | session.go:1338-1380 | terminates; a pattern with no class written with a separator is never rejected and, where requests go where they are spelled for, gives exactly the paths of the tree that it matches level by level, strictly sorted, unlisted directories only losing some; any other pattern is rejected or gives nothing; a literal pattern gives itself exactly if its trimmed path is found; for every pattern, what is returned is what the levels come to, and it fails exactly if one of their names shows the pattern malformed |
| Glob.ExpansionIsDetermined | session.go:1314-1328 | where everything can be listed there is only one right answer |
| Glob.WhenExpansionIsRight | session.go:1316-1328 | exactly when the answer is right where everything can be looked up and listed: for a well-formed pattern with a separator in a class, not rejected and nothing matches; for the others, unless ".\" is taken for the root and the rest matches something; a malformed pattern is never expanded |
| Glob.WhenLiteralIsRight | session.go:1348-1354 | a literal pattern is expanded rightly exactly if its trimmed path is a valid one of the tree whenever the pattern is one |
| Glob.TrimmedPathIsFound | session.go:832-838 | "x " is found where there is only "x" |
| Glob.TrimmedDirectoryIsListed | session.go:913-921 | "d \*" lists "d" and spells its entry "d \f" |
| Glob.GlobAgreesWithMatch | session.go:1316-1328 | of the paths the matcher accepts those with as many separators as the pattern are returned; none has fewer, and all have as many unless a class accepts the separator |
| Glob.ClassTakesTheSeparator | match.go:127-162 | "x[^a]y" matches the path "x\y", which the traversal never returns |
| Glob.SeparatorInAClassIsRejected | session.go:1355-1370 | the well-formed "[^\]*" is rejected |
| Glob.DotIsTakenForTheRoot | session.go:1386-1390 | unnormalised ".\*" lists the root's entries, which it does not match |
| Sorting.SortStrings | session.go:1412 | distinct strings come out in order with none lost or added |
| Sorting.LessMeans | session.go:1412 | the order is that of the first differing character, a beginning before the whole |
| Spelling.NormalPathIsNormal | session.go:1640-1668 | nothing is normalised twice |
| Spelling.SlashesAreSeparators | session.go:1648-1668 | a slash is written for a separator |
| Spelling.SpacesAreTrimmed | session.go:1648-1650 | white space around a path counts for nothing |
| Spelling.ValidStaysBelow | session.go:1563-1622 | a path is valid exactly if it begins with an element and no beginning of it has more ".." than named elements |
| Spelling.EveryPathIsJoined | session.go:1576-1590 | that speaks of every path without a slash or a NUL, and any with one is invalid |
| Removal.ChildIsReached | session.go:764-775 | exactly which children a request built from the directory's path and their name reaches |
| Removal.ChildStaysBelow | session.go:764-775 | whatever a child is called, the request for it stays below its directory |
| Removal.TrailingSpaceReachesASibling | session.go:764-775 | the request for "x " is one for "x" |
| Removal.Server.RemoveDir | session.go:683-728 | however often it is retried, only that directory can go, and success means it is gone; it is asked for at most 11 times, and that often unless removed, refused or cancelled |
| Removal.Server.Remove | session.go:634-681 | removes the named file or empty directory or nothing, and fails only for a reason |
| Removal.Server.RemoveAll | session.go:730-779 | terminates, touches nothing outside the subtree even on error, and leaves nothing of it on success; unless a request fails that need not have, it succeeds on a valid path exactly when every path of the subtree is plain, and then asks only for files and emptied directories |
| PoolModel.Limits | pool.go:138-147 | as many may idle as asked for and no more than may be active; a negative limit counts as zero |
| PoolModel.StepKeepsInv | pool.go:177-509 | every critical section and every outcome keeps the pool's invariant |
| PoolModel.PutBackIsTakenNext | pool.go:206-214 | the session put back last is the next one taken, with the pool otherwise as it was |
| PoolModel.EveryRunIsSafe | pool.go:177-509 | in every run no session is in two places, the limits hold, and active is exactly idle, held, checked, being created and dropped while the pool is open |
| PoolModel.ClosedStaysEmpty | pool.go:478-509 | nothing is idle again after Close |
| PoolModel.DroppedSlotsAreLost | pool.go:219-223 | slots of dead idle sessions never come back; enough of them exhaust the pool for good |
| PoolModel.EverySlotCanBeLost | pool.go:219-223 | a run of any pool that keeps idle sessions and limits the active ones ends with every slot lost |
| PoolModel.NothingIdleNothingLost | pool.go:219-223 | a pool that keeps no idle sessions never loses a slot |
| PoolModel.OthersLeaveMyPlace | pool.go:177-289 | no run of other callers' steps changes what one Get holds |
| Pooling.ConnectionPool.constructor | pool.go:133-166 | a new pool is the empty one with normalised limits |
| Pooling.ConnectionPool.TakeTurn | pool.go:192-258 | pops the idle session used last, of all the one with the latest time, or reserves a slot exactly when it may, and says which |
| Pooling.ConnectionPool.Get | pool.go:177-289 | the caller gets a live session that is nobody else's, or nothing of the pool stays with the call |
| Pooling.ConnectionPool.Put | pool.go:324-360 | is the returning step: kept if there is room, closed otherwise |
| Pooling.ConnectionPool.Remove | pool.go:362-388 | is the removing step, from its holder or from the idle list |
| Pooling.ConnectionPool.CleanupExpired | pool.go:451-476 | keeps exactly the sessions used recently, in order, and counts the others out |
| Pooling.ConnectionPool.Close | pool.go:478-509 | is the closing step, once |
| Utf16.DecodeInvertsEncode | internal/utf16le/utf16le.go:24-56 | decoding gives back what was encoded, surrogate pairs included |
| Utf16.EncodeInvertsDecode | internal/utf16le/utf16le.go:44-56 | encoding gives back exactly the units without a lone surrogate |
| Utf16.EncodedAsPair | internal/utf16le/utf16le.go:24-42 | a rune up to 0xFFFF is sent as itself, and one above as its high and low ten bits in surrogates |
| Utf16.LoneSurrogateIsReplaced | internal/utf16le/utf16le.go:44-56 | a lone surrogate reads as U+FFFD |
| Utf16.DecodeEncodedText | internal/utf16le/utf16le.go:32-56 | the byte round trip is the identity exactly for strings not ending in NUL, and otherwise drops that NUL |
| Utf16.EncodedStringLen | internal/utf16le/utf16le.go:12-22 | is the length of the encoding |
| Utf16.EncodeString | internal/utf16le/utf16le.go:24-30 | writes the encoding and nothing beyond it |
| Utf16.EncodeStringToBytes | internal/utf16le/utf16le.go:32-42 | is the encoding |
| Utf16.DecodeToString | internal/utf16le/utf16le.go:44-56 | is the decoding without one trailing NUL |
| Ndr.AlignOffset | internal/dcerpc/ndr.go:20-31 | the least multiple of the alignment not below the offset |
| Ndr.Pad | internal/dcerpc/ndr.go:229-238 | keeps the buffer, adds only zeros, and ends on the nearest boundary |
| Ndr.OnlyPaddedFits | internal/dcerpc/ndr.go:229-238 | there is only one way to do that: the padding lists of strings are laid out with |
| Ndr.U32RoundTrip | internal/dcerpc/ndr.go:40-45 | a count survives its four bytes modulo 2^32 |
| Ndr.U32IsLittleEndian | internal/dcerpc/ndr.go:40-45 | a count goes least significant byte first |
| Ndr.MarshalConformantVaryingString | internal/dcerpc/ndr.go:78-118 | fills its buffer with the two counts modulo 2^32, the zero offset between them and the terminated characters, and has no byte more |
| Ndr.MarshalledLayout | internal/dcerpc/ndr.go:78-118 | the same of the specified layout, read field by field |
| Ndr.UnmarshalConformantVaryingString | internal/dcerpc/ndr.go:120-173 | reads exactly that, with each way of failing and where it leaves the offset |
| Ndr.UnmarshalInvertsMarshal | internal/dcerpc/ndr.go:78-173 | a string is read back wherever it was put at an aligned place, from any offset that aligns to it |
| Ndr.CutOffIsNotRead | internal/dcerpc/ndr.go:120-173 | a string cut off anywhere is rejected, with the error and the offset for where it was |
| Ndr.StringBeginsAligned | internal/dcerpc/ndr.go:229-238 | each string of a list begins at the next multiple of four, after zeros |
| Ndr.ListRoundTrip | internal/dcerpc/ndr.go:78-238 | any list of strings, after any prefix and before any suffix, is read back as the same list with the offset at its end |

## Left out

- Sockets, NetBIOS framing, timers and clocks: nondeterministic steps stand for them (not sent, failed, timed out).
- `Conn.send`, which allocates a MID without registering it; negotiation, sessions, signing and the other SMB1 commands.
- Liveness: that a waiter is served, that a pool's waiter is woken, or that a stalled peer is given up on in time.
- Connection.Conn.Interfere: its body takes no step; that its contract covers every step of others is `Rely.EnvironmentIsTolerated`, and for `InterfereWithCloser` it is `Connection.OthersLeaveTheCloserAlone`. `Pooling.ConnectionPool.Interfere` stands on `PoolModel.OthersLeaveMyPlace` in the same way.
- Reading.File and Writing.File: one file object of the library is two classes here, one for each direction; concurrent use of one file is not modelled.
- Reading.ReadAll: each read fills a buffer of its own instead of the spare capacity of one growing slice.
- Streams.CopyStream: the reader follows a finite script; a reader that never ends is not modelled.
- Connection.Conn.SendRecvSettled: a caller whose context ended when the connection went counts as having given up, except where it received the news of teardown itself, after which the code waits once more for nothing.
- Writing.File.WriteAt: a server that reports more bytes than it was sent is not modelled.
- Pooling.ConnectionPool.Get: the number of rounds its deadline leaves is a parameter, `patience`; the health check, dialling and waiting are nondeterministic.
- MatchTheorems.GreedyIsRight: where a class between two stars accepts the separator and the name has more separators than the pattern's literals, only soundness is stated; whether a match is missed then depends on the rest of both.
- Glob.GlobWith: that a path returned is one of the tree is promised only where requests go where they are spelled for, as trimmed ones can go elsewhere; and the paths that cannot be looked up or listed are a fixed set.
- Multi-byte characters in patterns, where the star loop steps by bytes and characters differ in width; invalid UTF-8.
- Server-side interpretation of paths: case folding, "." and "..", and empty elements; removal while others change the tree.
- The order of `ReadDir` results beyond being arbitrary; `Walk`; the error predicates, logging and `internal/ntlm`.
- Changes of a TRANS2 reply's totals between messages: as in the code, the first message's totals count.
- DCE/RPC headers, pointers and the remaining PDUs, which are fixed layouts.
