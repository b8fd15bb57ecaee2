# Verified model of the ZINCHA client SDK

A Dafny 4.11 project that models the hard core of the SDK and proves its
promises for all inputs, runs and interleavings. Check it with
`dafny verify dfyconfig.toml --resource-limit 2000000`.

## What is modelled

- **The resumable conversation stream** (`SseSplitter`, `EventConnection`,
  `EventStream`, `EventOutcomes`, `ExactlyOnce`, `ServerWire`, `EventFormat`,
  `EventFollower`). The byte-level event splitter, one connection fed in arbitrary
  chunks, the reconnecting cursor machine with back-off and paged resync, exactly
  when it ends, delivery against a server log, what a server writes and what the
  stream format makes of it, and a class whose loops refine all of it. The network
  is a list of replies.
- **The durable outbox** (`OutboxQueue`, `RustOutbox`, `OutboxProtocol`,
  `OutboxHazards`, `OutboxRetry`, `ConversationOutbox`, `ExclusiveLock`,
  `LockProgress`). One specification of a flush, the Rust file outbox and the
  TypeScript outbox as classes that meet it, the file outbox as a step system with
  crashes, the exact condition under which it loses a message, and the
  promise-chain lock as a step system.
- **Canonical JSON** (`CanonicalJson`, `NumberFormat`, `UniqueReading`,
  `CanonicalEquality`, `JsonReader`), which decides whether two requests are the
  same, with a reader of its own.
- **Merkle trees** (`MerkleTree`, `MerkleBinding`, `MerkleProofs`,
  `MerkleBuilder`), over any pair-combining function; facts that need a
  cryptographic hash say "or here is a collision".
- **Encodings** (`Bincode`, `ByteNumbers`, `Utf16`, `Hex`, `HexText`,
  `Transaction`, `TransactionTypes`, `ChainTypes`, `TransactionBytes`,
  `SignedTransactions`, `SignedWire`, `TransactionJson`): the writer, decoders,
  and what signing with an untrusted wallet gains from unique decoding.
- **Agreements** (`Agreements`, `AgreementWire`, `AgreementChecks`,
  `AgreementBuilder`, `AgreementBytes`, `Settlement`, `DisputeEffects`,
  `DisputeOrder`): the chain's validator, the TypeScript builder that validates in
  its own way, settlement arithmetic over whole runs, and the canonical form of
  dispute effects.
- **Derivation paths** (`DerivationPath`, `NormalPath`) and **the pinned agent
  pool** (`AgentPool`, `PoolCalls`).

`Wrappers`, `Numbers`, `Ordering`, `Characters` and `Decimal` hold shared notions.

Code that changes things step by step is a class or a loop with invariants,
proved against a function; the theorems are about that function. Library calls
(hashes, signatures, JSON decoding, UTF-8 validation, address ownership) are
function parameters, so that every theorem holds for any of them. Failures of
disk, store, network and clock are inputs. Integer widths are explicit.
Automatic induction is turned off for every lemma.

## Where the code is not what it says

- `transactionFromJson` is documented as checking every field; it does not check
  the type name (`TransactionJson.UnknownTypePasses`), and what it accepts is
  usable exactly when that name is known (`TransactionJson.ReadIsUsableIff`). It
  refuses chain identifiers longer than 64 code units that `transactionToJson`
  writes (`TransactionJson.JsonRoundTrip`).
- The two agreement validators agree when entities are addresses. Under a wider
  notion they differ both ways: the chain accepts a paid approver of the
  proposer's own entity (`AgreementChecks.SiblingApprover`), and refuses an
  arbitrator of a party's entity (`AgreementChecks.SiblingArbitrator`).
  `AcceptedByChainOnly` and `AcceptedByClientOnly` say exactly when.
- The two flushes differ once a counter or a time of a rejected item no longer fits
  its Rust width (`ConversationOutbox.FlushesAgree`, `FlushesDiffer`).
- In the Rust outbox an id reused for new content can lose the new content
  (`OutboxHazards.ReuseCanLose`), exactly when a flush in progress can still
  submit the old content or is revived by the id (`OutboxHazards.MayEnqueueIff`
  before a call, `RunSafeIff` for whole runs). Other reuse is harmless. The
  TypeScript outbox holds its lock over a whole flush and loses nothing under any
  reuse (`ExclusiveLock.NothingLost`).
- The tree over no leaves reports one leaf and hands out a proof for it
  (`MerkleProofs.ProofExists`).
- A Merkle root does not bind the number of leaves: repeated last leaves and inner
  hashes taken for leaves go unseen (`MerkleBinding.RepeatedLastLeaf`,
  `InnerHashAsLeaf`). `MerkleBinding.RootsAgree` says exactly what it binds.
- The client does not read all events as the stream format has them: it drops
  messages without a type, ignores data lines without a colon, and acts on resync
  and authorization events that carry no data (`EventFormat.ReadAlikeIff` has the
  exact condition). The format also ends lines at a lone CR, the client does not.
- Canonical JSON prints an array of one hole as the empty array
  (`CanonicalEquality.HoleIsLost`), and this is all that is lost
  (`CanonicalEquality.CanonicalDecidesEquality`).
- `distribute_amount` is documented to conserve funds. It does so for every amount
  exactly when the shares before the last add up to at most 10000
  (`Settlement.AlwaysConservedIff`), as those of every validated agreement do.
- RFC 8785 refuses lone surrogates; the code writes them as escapes, which keeps
  the text injective. In the wire format they become U+FFFD and collide
  (`Transaction.LoneSurrogatesCollide`), so that a wallet can exchange a chain
  identifier exactly when it holds a lone surrogate or U+FFFD
  (`SignedTransactions.WalletsKeepChainIff`).
- The listing order of dispute effects decides acceptance where the entity test
  is not symmetric between parties (`DisputeOrder.OrderIrrelevantIff`); for given
  effects `DisputeOrder.ListingMattersIff` has the exact condition.

## Model

| member | source | states |
|---|---|---|
| SseSplitter.SseBoundaryIsFirst | crates/zincha-client/src/conversation.rs:1092-1106 | the boundary found is the first blank line of either kind, LF LF winning a tie; without one there is none anywhere |
| SseSplitter.FirstBoundaryUnique | crates/zincha-client/src/conversation.rs:1092-1106 | any place that is a first boundary is the one found: the search is complete |
| SseSplitter.SeparatorIff | crates/zincha-client/src/conversation.rs:1092-1106 | the two separators byte by byte |
| SseSplitter.BoundaryStable | crates/zincha-client/src/conversation.rs:1092-1106 | a boundary stays the first one whatever bytes are appended, even with LF LF and CR LF CR LF mixed |
| SseSplitter.SplitAll | crates/zincha-client/src/conversation.rs:802-804 | draining leaves a buffer without a boundary |
| SseSplitter.SplitAllAppend | crates/zincha-client/src/conversation.rs:798-804 | splitting what is there and going on later gives the blocks and the leftover of splitting everything at once |
| SseSplitter.ParseSseBlock | crates/zincha-client/src/conversation.rs:1108-1130 | the line loop computes, for any block, the last `event` value and all `data` values joined by line feeds |
| SseSplitter.EventOfAppend | crates/zincha-client/src/conversation.rs:1111-1128 | reading one more line updates the event exactly as the field-by-field definition does |
| SseSplitter.FieldIff | crates/zincha-client/src/conversation.rs:1112-1115 | a line is a field exactly when it spells one: a name without a colon, a colon, one space or none, the value |
| SseSplitter.LinesAre | crates/zincha-client/src/conversation.rs:1111-1111 | lines end at LF, less one CR before it |
| EventOutcomes.EventFields | crates/zincha-client/src/conversation.rs:1116-1128 | the `event` and `data` fields make the event |
| EventOutcomes.NamedEvents | crates/zincha-client/src/conversation.rs:806-825 | by name: a resync is asked for, authorization fails, messages are decoded, every other event is passed over |
| SseSplitter.JoinEndsAtSeparator | crates/zincha-client/src/conversation.rs:1092-1106 | a block of clean lines followed by its separator ends exactly there, whatever follows |
| SseSplitter.ParseRendered | crates/zincha-client/src/conversation.rs:1108-1130 | an event with a type and data, each line a field with a colon, with LF or CR LF, is parsed back to its kind and data |
| EventFormat.ReadAlikeIff | crates/zincha-client/src/conversation.rs:802-826 | the client does with the lines of an event what the server-sent-events format (section 9.2.6 of the WHATWG HTML standard) has them mean, for every decoder, if and only if: without data, it is not a resync or authorization event; with data, a message is called one and has no data line without a colon |
| EventFormat.WrittenReadAlikeIff | crates/zincha-client/src/conversation.rs:802-826 | the same for the bytes of a written event |
| EventFormat.UntypedDropped | crates/zincha-client/src/conversation.rs:806-825 | an event without a type is a message by the format; the client drops it |
| EventFormat.BareDataIgnored | crates/zincha-client/src/conversation.rs:1112-1114 | a data line without a colon is an empty line of data by the format; the client ignores it |
| EventConnection.ChunksDoNotMatter | crates/zincha-client/src/conversation.rs:790-827 | while the size check is silent, the messages passed, the cursor, the stop and the leftover buffer are those of the concatenated bytes |
| EventConnection.RechunkingAgrees | crates/zincha-client/src/conversation.rs:790-827 | two chunkings of the same bytes have the same effect |
| EventConnection.FitsExactly | crates/zincha-client/src/conversation.rs:798-800 | the size check stays silent exactly when every chunk fits on top of what the bytes before it leave over |
| EventOutcomes.Oversized | crates/zincha-client/src/conversation.rs:798-804 | a chunk that does not fit in 262144 bytes behind the leftover ends the connection; any other is split and handled |
| EventConnection.FeedDelivers | crates/zincha-client/src/conversation.rs:790-827 | any connection, cut or failing anywhere, has delivered a prefix of the messages its bytes carry |
| EventStream.RunSafe | crates/zincha-client/src/conversation.rs:757-852 | against any server: every request and page request asks from the last yielded sequence, yields rise, and the k-th wait since the start or the last resync is min(250 * 2^k, 30000) ms |
| EventStream.TraceYieldsRise | crates/zincha-client/src/conversation.rs:811-814 | a trace that keeps these rules yields strictly rising sequences above `after`, ending at the cursor |
| EventStream.YieldsRise | crates/zincha-client/src/conversation.rs:757-852 | yielded sequences are strictly increasing and above `after` in every run |
| EventStream.ResyncBounded | crates/zincha-client/src/conversation.rs:828-846 | a resync asks for at most one page more than it raises the cursor, and so ends |
| EventOutcomes.TriesAgain | crates/zincha-client/src/conversation.rs:763-786 | a failed send and the statuses 408, 429 and 500 to 599: one request, one wait, the delay doubled up to 30000, and no end |
| EventOutcomes.ReadsOn | crates/zincha-client/src/conversation.rs:787-851 | a body that ends by itself: its messages, one wait, and no end |
| EventOutcomes.BodyFails | crates/zincha-client/src/conversation.rs:798-825 | a body that fails ends the stream with its error, after the messages before it |
| EventOutcomes.Refused | crates/zincha-client/src/conversation.rs:772-789 | every other status ends the stream: 401 and 403 for want of authorization, the rest reported |
| EventOutcomes.NeverAsks | crates/zincha-client/src/conversation.rs:758-758 | below zero nothing is asked: no request is made and the stream ends |
| EventOutcomes.ResyncEndsIff | crates/zincha-client/src/conversation.rs:828-848 | a resync ends the stream exactly when a page is missing or names a next cursor that is not the highest sequence so far, raised by it; otherwise the delay is 250 again |
| EventOutcomes.RunEndsIff | crates/zincha-client/src/conversation.rs:757-852 | a stream from a cursor of 0 or more ends if and only if one of its replies is of the ending kind where it then stands |
| EventOutcomes.StreamEndsIff | crates/zincha-client/src/conversation.rs:750-854 | so it is for the stream from its start, where nothing has been done and the delay is 250 |
| ExactlyOnce.DeliverExact | crates/zincha-client/src/conversation.rs:811-814 | offering a gap-free list with replays yields exactly the next log entries |
| ExactlyOnce.ResyncExactlyOnce | crates/zincha-client/src/conversation.rs:828-848 | resync paging keeps exactly-once delivery |
| ExactlyOnce.AttemptExactlyOnce | crates/zincha-client/src/conversation.rs:761-851 | one connection attempt, whatever it meets, keeps exactly-once delivery |
| ExactlyOnce.RunExactlyOnce | crates/zincha-client/src/conversation.rs:757-852 | so does every run |
| ExactlyOnce.DeliveredExactlyOnce | crates/zincha-client/src/conversation.rs:750-854 | the messages yielded are a prefix of the log above `after`, and what is left is the log above the cursor: each once, in order, no gap |
| ExactlyOnce.ResyncedUpToDate | crates/zincha-client/src/conversation.rs:828-848 | a resync over gap-free pages, each naming its last sequence and the last holding the rest of the log, does not fail, resets the delay and has yielded exactly the log above `after` |
| ExactlyOnce.CaughtUp | crates/zincha-client/src/conversation.rs:757-852 | so does a connection that asks for a resync and gets such pages, however many messages came before the request |
| ServerWire.OtherLinesIgnored | crates/zincha-client/src/conversation.rs:1112-1120 | comment lines and fields other than `event` and `data` change nothing, wherever they stand |
| ServerWire.WireIsRead | crates/zincha-client/src/conversation.rs:802-826 | a body of written events of any kind, with comments, other fields and either line ending, is read as exactly the messages before its first event that stops the stream |
| ServerWire.WireEnds | crates/zincha-client/src/conversation.rs:805-825 | and stops as that event says: open, resync or failure, in any chunks that fit |
| ExactlyOnce.CutIsGapFree | crates/zincha-client/src/conversation.rs:793-797 | a connection dropped mid-event still hands over a gap-free list |
| ServerWire.CutWireIsHonest | crates/zincha-client/src/conversation.rs:790-827 | a body so written and cut at any byte meets the hypothesis of exactly-once delivery |
| ServerWire.PlainWireIsHonest | crates/zincha-client/src/conversation.rs:790-827 | one plain event for each message: exactly these messages are read, and gap-free ones stay so wherever the body is cut |
| ServerWire.WireCatchesUp | crates/zincha-client/src/conversation.rs:757-852 | a connection whose body ends in a resync event, followed by complete pages, has yielded the whole log above `after` |
| ServerWire.ServedPagesComplete | crates/zincha-client/src/conversation.rs:828-848 | a server that answers each page request with the first entries above the cursor, `limit` at a time, serves complete pages |
| EventFollower.StreamClient.Take | crates/zincha-client/src/conversation.rs:811-814 | yields a message above the cursor and moves the cursor, else nothing |
| EventFollower.StreamClient.ReadOne | crates/zincha-client/src/conversation.rs:805-825 | what one block does: a message, a resync request, an error or nothing |
| EventFollower.StreamClient.Drain | crates/zincha-client/src/conversation.rs:802-826 | the inner loop handles exactly the complete blocks of the buffer and keeps the rest |
| EventFollower.StreamClient.ReadBody | crates/zincha-client/src/conversation.rs:790-827 | the chunk loop equals feeding the chunks |
| EventFollower.StreamClient.ReadPages | crates/zincha-client/src/conversation.rs:828-846 | the page loop equals the resync function |
| EventFollower.StreamClient.Sleep | crates/zincha-client/src/conversation.rs:769-770 | waits the current delay, then doubles it up to 30 seconds |
| EventFollower.StreamClient.Connect | crates/zincha-client/src/conversation.rs:757-852 | one pass of the loop equals one attempt of the stream model, over request, statuses, body and resync |
| EventFollower.StreamClient.Follow | crates/zincha-client/src/conversation.rs:750-854 | the whole loop equals the run the stream theorems are about |
| CanonicalEquality.CanonicalIffSerializable | sdk/typescript/src/conversation.ts:60-72 | a value has a canonical text exactly when nothing undefined or not JSON is in it, other than as a field value; holes in arrays do not matter |
| CanonicalEquality.CanonicalDecidesEquality | sdk/typescript/src/conversation.ts:60-72 | two such values have the same text exactly when they are equal up to field order, undefined fields and arrays of one hole (sections 3.2.2.2, 3.2.2.3 and 3.2.3 of RFC 8785) |
| CanonicalEquality.HoleIsLost | sdk/typescript/src/conversation.ts:66-66 | an array of one hole has the text of the empty array |
| CanonicalEquality.OrderAndUndefinedDoNotMatter | sdk/typescript/src/conversation.ts:67-70 | objects with the same defined fields have the same text whatever their insertion order and undefined fields |
| JsonReader.CanonicalReads | sdk/typescript/src/conversation.ts:60-72 | a reader written from RFC 8259 reads the canonical text of every value as that value, nothing left over, the keys of every object ascending by code unit |
| JsonReader.PrintReads | sdk/typescript/src/conversation.ts:60-72 | every printed value is read, whatever follows it |
| JsonReader.QuotedReads | sdk/typescript/src/conversation.ts:61-61 | quoted strings read back: letters for the escapes that have one, four lower-case digits for other control characters and lone surrogates, everything else as itself |
| CanonicalEquality.CanonicalIsPrint | sdk/typescript/src/conversation.ts:60-72 | the text is the print of a normal form with sorted keys |
| UniqueReading.QuotedUnique | sdk/typescript/src/conversation.ts:61-61 | a quoted string ends in one place and stands for one string |
| NumberFormat.NumberUnique | sdk/typescript/src/conversation.ts:62-65 | a number, with or without point and exponent, ends in one place and stands for one number (section 6.1.6.1.20 of ECMA-262) |
| NumberFormat.NumeralsDistinct | sdk/typescript/src/conversation.ts:62-65 | numerals that denote one number are the same numeral |
| NumberFormat.IntegerText | sdk/typescript/src/conversation.ts:62-65 | integers below 10^21 print as their decimal numeral |
| NumberFormat.NumberForm | sdk/typescript/src/conversation.ts:62-65 | a number is printed tidily, with an exponent exactly from 10^21 up and below 10^-6 |
| UniqueReading.PrintUnique | sdk/typescript/src/conversation.ts:60-72 | no printed value can be read in two ways, whatever follows it |
| OutboxQueue.FlushConserves | crates/zincha-client/src/conversation.rs:1530-1546 | items before a flush = items after + items sent |
| OutboxQueue.FlushKeepsOrder | crates/zincha-client/src/conversation.rs:1530-1546 | what stays queued keeps its order |
| OutboxQueue.FlushOneMore | crates/zincha-client/src/conversation.rs:1534-1544 | a flush of k+1 items is a flush of k items and the answer to the next due one |
| OutboxQueue.FlushKeepsContents | crates/zincha-client/src/conversation.rs:1530-1546 | no queued content is changed or invented |
| OutboxRetry.RetryDelayLaw | crates/zincha-client/src/conversation.rs:1522-1526 | the first failure waits 500 ms, each of the next six twice as long, every later one 60000 |
| OutboxRetry.KthRejectionInRust | crates/zincha-client/src/conversation.rs:1510-1529 | the k-th rejection of an item makes it wait the k-th wait from then, with its counter at k and the last error kept, cut to the Rust widths |
| OutboxRetry.KthRejectionInTypeScript | sdk/typescript/src/conversation.ts:410-410 | the same without widths |
| OutboxRetry.MarkFailedSets | crates/zincha-client/src/conversation.rs:1510-1529 | marking an item failed does that to it and touches no other |
| OutboxRetry.FlushByPlace | crates/zincha-client/src/conversation.rs:1530-1546 | a flush answers every place on its own: the first `limit` due items are submitted, accepted ones leave, rejected ones are rescheduled in place, the rest stay |
| OutboxRetry.EnqueueNew | crates/zincha-client/src/conversation.rs:1475-1490 | a new identifier is appended, untried and due at once, while there is room |
| OutboxRetry.EnqueueQueued | crates/zincha-client/src/conversation.rs:1467-1474 | a queued identifier absorbs its own content and refuses any other |
| OutboxRetry.MarkSentCuts | crates/zincha-client/src/conversation.rs:1503-1508 | marking an item sent cuts out its place |
| OutboxRetry.MarkFailedMissing | crates/zincha-client/src/conversation.rs:1510-1520 | marking a missing item failed is an error |
| OutboxRetry.UnreadableFile | crates/zincha-client/src/conversation.rs:1550-1572 | a file that cannot be read is left alone by every operation |
| RustOutbox.FileOutbox.Enqueue | crates/zincha-client/src/conversation.rs:1463-1491 | the stored queue and the answer: absorbed, conflicting, full or appended, for any disk failure |
| RustOutbox.FileOutbox.MarkSent | crates/zincha-client/src/conversation.rs:1503-1508 | the item is gone, all others stay, or nothing changed |
| RustOutbox.FileOutbox.MarkFailed | crates/zincha-client/src/conversation.rs:1510-1529 | the item is rescheduled with saturating counters, or nothing changed |
| RustOutbox.FileOutbox.Store | crates/zincha-client/src/conversation.rs:1573-1622 | the file is replaced as a whole or not at all |
| RustOutbox.FileOutbox.Flush | crates/zincha-client/src/conversation.rs:1530-1546 | the loop ends in the specified flush, or after a failure in one of its stages; it succeeds when reads and replacements do |
| OutboxProtocol.OutboxSafe | crates/zincha-client/src/conversation.rs:1463-1622 | in every interleaving of enqueues, flushes, answers, marks and crashes: ids unique, at most `max_entries`, and every confirmed message still queued or accepted by the server, provided no enqueue reuses an id that a flush in progress holds with other content |
| OutboxProtocol.SafeWithoutReuse | crates/zincha-client/src/conversation.rs:1463-1622 | in particular when no id ever stands for two contents |
| OutboxProtocol.AlwaysBounded | crates/zincha-client/src/conversation.rs:1463-1622 | unique ids and the entry bound hold even when ids are reused |
| OutboxRetry.AloneFlushes | crates/zincha-client/src/conversation.rs:1530-1546 | in the step system a flush that nothing disturbs is the flush of the specification, and delivers what the server accepts |
| OutboxProtocol.StepSane | crates/zincha-client/src/conversation.rs:1463-1546 | every event keeps the queue bounded and its ids unique, loses nothing and keeps what flushes in progress know, unless a flush can come to mark content it never submitted |
| OutboxHazards.HazardLoses | crates/zincha-client/src/conversation.rs:1530-1546 | when such a flush is k items away from a lookalike, k+1 accepted and marked items lose the message |
| OutboxHazards.SafeIffNoHazard | crates/zincha-client/src/conversation.rs:1530-1546 | no continuation without an enqueue loses a confirmed message, if and only if there is no such flush |
| OutboxHazards.EnqueueSafeIff | crates/zincha-client/src/conversation.rs:1463-1491 | an enqueue with a given outcome keeps a safe outbox safe if and only if it is not confirmed while a flush in progress can still submit other content under its id, and does not put back an id that a flush behind a rejection has lost |
| OutboxHazards.MayEnqueueIff | crates/zincha-client/src/conversation.rs:1463-1491 | an enqueue is safe however reading and storing go if and only if a test of the state before it holds: where the queue would take it, no flush in progress is of either kind |
| OutboxHazards.RunSafeIff | crates/zincha-client/src/conversation.rs:1463-1546 | a whole run is safe at every point if and only if every enqueue in it is safe in that sense |
| OutboxHazards.ReuseCanLose | crates/zincha-client/src/conversation.rs:1503-1546 | a run from the empty outbox that loses a message |
| OutboxHazards.RevivalCanLose | crates/zincha-client/src/conversation.rs:1503-1546 | a run of ten events to a safe state in which enqueueing a delivered message once more puts another one at risk |
| ConversationOutbox.ConversationOutbox.Enqueue | sdk/typescript/src/conversation.ts:396-403 | the stored queue and the answer, by canonical text, for a store that fails, also after it has persisted the queue |
| ConversationOutbox.ConversationOutbox.Flush | sdk/typescript/src/conversation.ts:404-414 | one load, the specified flush, one save: the stored queue and the answer for every failure of the store |
| ConversationOutbox.SubmitDue | sdk/typescript/src/conversation.ts:408-411 | the loop that splices the loaded array ends in the specified flush |
| ConversationOutbox.FlushesAgree | sdk/typescript/src/conversation.ts:404-414 | the Rust and the TypeScript flush give the same queue and count exactly when attempts and next times of rejected items fit their Rust widths |
| ConversationOutbox.FlushesDiffer | sdk/typescript/src/conversation.ts:404-414 | they differ on a rejected item whose counter is full |
| ConversationOutbox.SentCountsAgree | sdk/typescript/src/conversation.ts:404-414 | the counts agree in any case |
| ConversationOutbox.AbsorbsExactlySame | sdk/typescript/src/conversation.ts:396-403 | a queued id absorbs a request exactly when conversation and request are equal as JSON, and refuses every other |
| ConversationOutbox.NotComparable | sdk/typescript/src/conversation.ts:398-399 | a queued id refuses a request of another conversation, and throws when one of the two is not JSON |
| ExclusiveLock.SerializedInCallOrder | sdk/typescript/src/conversation.ts:396-421 | however concurrent calls interleave, also when they throw or a store persists and then rejects: one critical section at a time, in call order, and the stored queue is that of the finished calls run one after another |
| ExclusiveLock.KeptOrDelivered | sdk/typescript/src/conversation.ts:396-421 | content in the store after some calls is there after all calls, or a later flush that saved had it accepted |
| ExclusiveLock.NothingLost | sdk/typescript/src/conversation.ts:396-421 | in every interleaving, with ids reused at will: a request whose enqueue returned is still stored, itself or as the equal one that absorbed it, or a later flush that saved had it accepted |
| LockProgress.CallEnds | sdk/typescript/src/conversation.ts:396-421 | when its turn comes a call does what the outbox does for one caller, for every answer of the store |
| LockProgress.NeverStuck | sdk/typescript/src/conversation.ts:415-421 | from every state an interleaving reaches, all calls made so far can still be done |
| LockProgress.NewIsTaken | sdk/typescript/src/conversation.ts:396-403 | a new identifier is appended, untried and due at once, while there is room |
| ExclusiveLock.StepInv | sdk/typescript/src/conversation.ts:415-421 | every step of the promise chain keeps this |
| MerkleBinding.RootIsPerfectRoot | crates/zincha-primitives/src/crypto/merkle.rs:30-61 | the layered root is the root, by halving, of the perfect tree over the padded leaves |
| MerkleBinding.RootsAgree | crates/zincha-primitives/src/crypto/merkle.rs:30-61 | for leaf lists of any two lengths, the empty one included: the roots agree exactly when the padded layers at the depth of the shallower tree do, up to a collision handed back |
| MerkleBinding.Binding | crates/zincha-primitives/src/crypto/merkle.rs:30-61 | leaf lists of one length with one root are equal, or here is a collision |
| MerkleBinding.SmallTrees | crates/zincha-primitives/src/crypto/merkle.rs:30-61 | the roots of no leaf and of one |
| MerkleBinding.InnerHashAsLeaf | crates/zincha-primitives/src/crypto/hash.rs:110-115 | two leaves and their hash have one root under every hash, since inner hashes carry no tag |
| MerkleBinding.LayersAsLeaves | crates/zincha-primitives/src/crypto/merkle.rs:30-61 | so every layer of a tree is the leaf list of a shallower tree with its root |
| MerkleBinding.RepeatedLastLeaf | crates/zincha-primitives/src/crypto/merkle.rs:49-53 | an odd list and the list with its last leaf repeated have one root under every hash |
| MerkleBuilder.BuildNextLayer | crates/zincha-primitives/src/crypto/merkle.rs:45-56 | the pairing loop computes the layer above, an unpaired last element taken twice |
| MerkleBuilder.Tree.FromHashes | crates/zincha-primitives/src/crypto/merkle.rs:30-61 | the builder pushes exactly the layers up to the root |
| MerkleBuilder.Tree.Root | crates/zincha-primitives/src/crypto/merkle.rs:91-96 | the stored root is the root of the leaves |
| MerkleBuilder.CollectSiblings | crates/zincha-primitives/src/crypto/merkle.rs:109-122 | the loop over the layers collects the siblings of the leaf, itself where there is none |
| MerkleBuilder.Tree.Proof | crates/zincha-primitives/src/crypto/merkle.rs:104-129 | the proof of a leaf, or none out of range |
| MerkleBuilder.ReduceLevel | crates/zincha-primitives/src/crypto/merkle.rs:73-78 | one level is overwritten in place by the level above although it is read meanwhile |
| MerkleBuilder.RootFromHashesInPlace | crates/zincha-primitives/src/crypto/merkle.rs:67-83 | the in-place reducer returns the root of the layered builder and leaves the root alone in the buffer, or the empty buffer |
| MerkleProofs.VerifyProof | crates/zincha-primitives/src/crypto/merkle.rs:132-144 | the verifier folds the siblings from the leaf up |
| MerkleProofs.ProofComplete | crates/zincha-primitives/src/crypto/merkle.rs:104-144 | every proof verifies, its directions are the binary digits of the index, its length d is the least with n <= 2^d |
| MerkleProofs.ProofExists | crates/zincha-primitives/src/crypto/merkle.rs:104-107 | a proof exists exactly for leaf indices; the empty tree counts one leaf |
| MerkleProofs.ProofBinding | crates/zincha-primitives/src/crypto/merkle.rs:132-144 | verifying proofs with one root and the same directions have the same leaf and siblings, or here is a collision |
| MerkleProofs.ProofSound | crates/zincha-primitives/src/crypto/merkle.rs:132-144 | a verifying proof with the directions of index i proves the leaf at i, or here is a collision |
| Bincode.IntegerRoundTrip | sdk/typescript/src/bincode.ts:28-51 | little-endian integers read back |
| ByteNumbers.TwoBytesSpell | sdk/typescript/src/bincode.ts:28-51 | 16-bit integers are read lowest byte first |
| ByteNumbers.EightBytes | sdk/typescript/src/bincode.ts:28-51 | 64-bit integers are written lowest byte first |
| Bincode.BytesRoundTrip | sdk/typescript/src/bincode.ts:65-72 | length-prefixed bytes read back |
| Bincode.OptionRoundTrip | sdk/typescript/src/bincode.ts:79-87 | optional values read back, for any element encoding that does |
| Bincode.VecRoundTrip | sdk/typescript/src/bincode.ts:89-94 | lists read back, for any element encoding that does |
| Bincode.BincodeWriter.WriteInteger | sdk/typescript/src/bincode.ts:28-51 | appends the little-endian bytes exactly when the value is an integer in range, else throws and appends nothing |
| Bincode.BincodeWriter.WriteBytes | sdk/typescript/src/bincode.ts:69-72 | appends the length and the bytes |
| Bincode.BincodeWriter.WriteString | sdk/typescript/src/bincode.ts:65-67 | appends the UTF-8 bytes with their length |
| Bincode.BincodeWriter.WriteOption | sdk/typescript/src/bincode.ts:79-87 | appends the tag and the value |
| Bincode.BincodeWriter.WriteVec | sdk/typescript/src/bincode.ts:89-94 | appends the count and every element in order, or throws when one does |
| Bincode.BincodeWriter.Finish | sdk/typescript/src/bincode.ts:96-105 | copying the chunks at a moving offset gives all bytes written, in order |
| TransactionTypes.WireCodeInjective | sdk/typescript/src/transaction.ts:28-101 | no two type names share a wire code, and codes fit 32 bits |
| TransactionTypes.WireCodesOk | sdk/typescript/src/transaction.ts:28-101 | the table of wire codes is one the transaction theorems ask for |
| ChainTypes.ClientCodeIsChains | crates/zincha-primitives/src/primitives/transaction.rs:48-121 | the code the client writes for a name is the one the chain reads as that name |
| ChainTypes.EveryChainName | crates/zincha-primitives/src/primitives/transaction.rs:48-121 | the client knows every name the chain knows |
| Transaction.SerializeTransaction | sdk/typescript/src/transaction.ts:181-197 | the writer calls produce the wire encoding of the normalized transaction, or throw exactly when a field does not normalize |
| TransactionBytes.FixedFields | sdk/typescript/src/transaction.ts:181-196 | type code, addresses, hash and all seven numbers of the caller stand in their places, read off byte by byte |
| TransactionBytes.LastFields | sdk/typescript/src/transaction.ts:193-196 | the data and the chain identifier follow, each behind its length, and nothing more |
| TransactionBytes.SerializesIff | sdk/typescript/src/transaction.ts:181-197 | serializing throws exactly when a field is not what the format can hold |
| Transaction.WireLayout | sdk/typescript/src/transaction.ts:181-196 | where every field stands in the bytes, by offset |
| Transaction.WireRoundTrip | sdk/typescript/src/transaction.ts:181-197 | a decoder recovers the transaction and the rest from its bytes followed by anything |
| Transaction.SameBytesSameFields | sdk/typescript/src/transaction.ts:181-197 | two transactions have the same bytes exactly when they agree field by field after normalization |
| Utf16.OnlyTextIff | sdk/typescript/src/transaction.ts:195-195 | a text is the only one with its encoding if and only if it holds no lone surrogate and no U+FFFD |
| Characters.Samples | sdk/typescript/src/transaction.ts:195-195 | one scalar of each UTF-8 length, and surrogates |
| Transaction.ChainIdBoundIff | sdk/typescript/src/transaction.ts:181-197 | the bytes of a transaction fix its chain identifier as a text if and only if it holds no lone surrogate and no U+FFFD |
| Transaction.LoneSurrogatesCollide | sdk/typescript/src/transaction.ts:195-195 | two chain identifiers of that kind that have the same bytes |
| SignedTransactions.BytesDecideTransactions | sdk/typescript/src/transaction.ts:251-260 | comparing bytes compares normalized transactions |
| SignedTransactions.SignedIsRequested | sdk/typescript/src/transaction.ts:227-267 | whatever the wallet does, also to the object it is given: a transaction that signing returns has the hash of the request and a valid signature, and is the requested one field for field, signed by a key that owns the sender, a plain chain identifier as the same text, or here are two messages with one SHA-256 digest; without that proviso when the wallet leaves the object alone |
| SignedTransactions.WalletsKeepChainIff | sdk/typescript/src/transaction.ts:227-267 | every wallet whose answer is accepted keeps the text of the chain identifier, short of a collision, if and only if it holds no lone surrogate and no U+FFFD |
| SignedTransactions.HashWalletIff | sdk/typescript/src/transaction.ts:227-267 | signing with a wallet that signs digests succeeds if and only if the transaction serializes, sender and signer address are one text, the key owns it and the 64-byte signature over the 32-byte digest is valid |
| SignedTransactions.WholeWalletIff | sdk/typescript/src/transaction.ts:227-267 | a wallet that signs whole transactions is accepted if and only if sender and signer address are one text and its answer has the bytes left in the object, the digest of the request and a valid signature; its answer is what comes back |
| SignedWire.SerializeSignedTransaction | sdk/typescript/src/transaction.ts:341-348 | serializes exactly when all parts normalize, to bytes from which all of them are recovered |
| TransactionBytes.SignedFields | sdk/typescript/src/transaction.ts:341-348 | the bytes of the transaction, then signature, key and hash |
| SignedWire.SignedRoundTrip | sdk/typescript/src/transaction.ts:341-348 | a signed transaction reads back from its bytes followed by anything |
| SignedWire.SignedBytesDecide | sdk/typescript/src/transaction.ts:341-348 | equal bytes mean equal normalized parts |
| TransactionJson.JsonRoundTrip | sdk/typescript/src/transaction.ts:291-332 | reading the JSON of a serializable transaction gives back the normalized transaction, exactly when its chain identifier has 1 to 64 code units |
| TransactionJson.JsonSays | sdk/typescript/src/transaction.ts:291-306 | every field of the JSON form says the field of the transaction |
| TransactionJson.ReadNumbersSay | sdk/typescript/src/transaction.ts:308-339 | every number read is the one its one to twenty digits spell |
| TransactionJson.ReadSays | sdk/typescript/src/transaction.ts:308-332 | every other field read is what its text says |
| TransactionJson.ReadNumberIff | sdk/typescript/src/transaction.ts:334-339 | one to twenty digits within 64 bits are read, leading zeros and all, and nothing else |
| TransactionJson.ReadIsUsableIff | sdk/typescript/src/transaction.ts:308-332 | what the reader accepts can be serialized if and only if its type name has a wire code and its data fits a 64-bit length |
| TransactionJson.UnknownTypePasses | sdk/typescript/src/transaction.ts:308-332 | for every name without a wire code, an input the reader accepts that cannot be serialized |
| TransactionTypes.UnknownName | sdk/typescript/src/transaction.ts:28-101 | there is such a name |
| Hex.HexToBytesRoundTrip | sdk/typescript/src/crypto.ts:33-54 | printed bytes read back at their length |
| HexText.HexSpelling | sdk/typescript/src/crypto.ts:33-39 | bytes are printed as two lower-case digits each, the high one first |
| HexText.HexValueIff | sdk/typescript/src/crypto.ts:41-54 | text reads as bytes exactly when it is their digits in either case, after an optional 0x and trimming |
| HexText.PrefixStripped | sdk/typescript/src/crypto.ts:29-31 | one 0x or 0X is taken off |
| HexText.TrimIs | sdk/typescript/src/crypto.ts:41-42 | trimming takes the white space of ECMA-262 off both sides and nothing else |
| HexText.AddressIff | sdk/typescript/src/crypto.ts:70-77 | an address reads as bytes exactly when it is their forty digits, with or without zn1, in any case and with space around it |
| HexText.NormalAddressIff | sdk/typescript/src/crypto.ts:65-68 | its normal form is zn1 and the lower-case digits |
| Hex.AddressesAgree | sdk/typescript/src/crypto.ts:65-77 | addresses name the same bytes exactly when they normalize to the same text |
| Hex.HashesAgree | sdk/typescript/src/transaction.ts:376-382 | hashes have the same bytes exactly when they normalize to the same text |
| Hex.NormalAddressIdempotent | sdk/typescript/src/crypto.ts:65-77 | normalizing an address twice changes nothing |
| Agreements.CheckMilestones | crates/zincha-primitives/src/primitives/agreement.rs:85-113 | accepts exactly one to twenty milestones that add up to the escrow without overflow, descriptions within bounds; each error names a real fault |
| Agreements.CheckDistinct | crates/zincha-primitives/src/primitives/agreement.rs:769-774 | detects a repeated party |
| Agreements.CheckShares | crates/zincha-primitives/src/primitives/agreement.rs:224-243 | accepts exactly non-zero shares of distinct parties that add up to 10000, in spite of the saturating total |
| Agreements.ResolveAllocations | crates/zincha-primitives/src/primitives/agreement.rs:213-261 | accepts exactly good allocations with a third party and the provider among them; the provider alone by default |
| Agreements.ApproverIsIndependent | crates/zincha-primitives/src/primitives/agreement.rs:142-160 | the approver is one entity with no recipient outside the proposer's entity |
| Agreements.ResolveApprover | crates/zincha-primitives/src/primitives/agreement.rs:282-315 | the given approver or, for two parties, the proposer; refused exactly when not a party, missing or dependent |
| Agreements.ValidateAgreementCreateStateless | crates/zincha-primitives/src/primitives/agreement.rs:752-824 | accepts exactly the agreements of the declarative predicate, for any notion of entity; each error names a real fault |
| AgreementWire.AgreementRoundTrip | sdk/typescript/src/builders.ts:743-753 | agreement data reads back from its encoding, whatever follows |
| AgreementChecks.NormalizedAddressSet | sdk/typescript/src/builders.ts:627-629 | the set of parties, as large as the list exactly when no party repeats |
| AgreementChecks.ValidateAgreementPayouts | sdk/typescript/src/builders.ts:638-665 | accepts exactly payouts that read as good shares, among the allowed recipients where there is a set of them |
| AgreementChecks.ValidateMilestones | sdk/typescript/src/builders.ts:702-720 | accepts exactly milestones that read as good milestones, with the running total bounded |
| AgreementChecks.ValidateRoles | sdk/typescript/src/builders.ts:721-741 | accepts exactly good provider, arbitrator, allocations and approver |
| AgreementChecks.ValidateInput | sdk/typescript/src/builders.ts:687-741 | the encoder's checks as a whole |
| AgreementChecks.ClientChecks | sdk/typescript/src/client.ts:621-637 | the client's checks as a whole |
| AgreementChecks.ChecksAgree | sdk/typescript/src/client.ts:620-643 | with entities taken as addresses, client and encoder checks together accept exactly what the chain's validator accepts |
| AgreementChecks.AcceptedByChainOnly | sdk/typescript/src/client.ts:626-636 | under any notion of entity, what the chain accepts the client refuses exactly when the approver is another address that is paid |
| AgreementChecks.SiblingApprover | sdk/typescript/src/client.ts:626-636 | such an agreement |
| AgreementChecks.AcceptedByClientOnly | sdk/typescript/src/client.ts:620-643 | what client and encoder accept the chain refuses exactly when the arbitrator is of a party's entity, the provider of the proposer's, or the approver not independent of all recipients |
| AgreementChecks.SiblingArbitrator | sdk/typescript/src/client.ts:626-636 | such an agreement: its arbitrator is of the proposer's entity |
| AgreementBuilder.WriteAgreement | sdk/typescript/src/builders.ts:743-754 | the writer calls produce the encoding of the agreement data |
| AgreementBytes.InputSays | sdk/typescript/src/builders.ts:687-741 | the agreement built is the input field by field, with one milestone for the whole escrow by default |
| AgreementBytes.EncodedFront | sdk/typescript/src/builders.ts:743-748 | parties behind their count, terms, escrow, expiry and arbitrator stand in their places |
| AgreementBytes.EncodedWork | sdk/typescript/src/builders.ts:749-750 | then the milestones behind their count and the provider |
| AgreementBytes.EncodedPayees | sdk/typescript/src/builders.ts:751-753 | then the allocations behind their count, the approver, and nothing more |
| AgreementBuilder.EncodeAgreementCreateData | sdk/typescript/src/builders.ts:687-754 | encodes exactly the inputs it should, to the encoding of what they read as |
| AgreementBuilder.BuildCreateAgreement | sdk/typescript/src/client.ts:620-643 | builds exactly when the chain accepts the agreement the input stands for, and what it builds decodes to that agreement |
| Settlement.DistributeAmount | crates/zincha-primitives/src/primitives/agreement.rs:648-668 | the loop with its saturating total and 64-bit casts computes the split: shares by position, the remainder last |
| Settlement.AlwaysConservedIff | crates/zincha-primitives/src/primitives/agreement.rs:646-668 | splits pay out exactly the amount, for every amount, if and only if there is a recipient and the shares before the last add up to at most 10000 |
| Settlement.CutShare | crates/zincha-primitives/src/primitives/agreement.rs:662-662 | a share over the whole of a large amount is cut to 64 bits |
| Settlement.OverAllocatedSplit | crates/zincha-primitives/src/primitives/agreement.rs:646-668 | shares over the whole pay out too much |
| Settlement.FairSplit | crates/zincha-primitives/src/primitives/agreement.rs:646-668 | shares adding up to 10000 are conserved and uncut; all but the last get their floor, the last at most n-1 more |
| Settlement.FairShares | crates/zincha-primitives/src/primitives/agreement.rs:646-668 | without rounding: all but the last get the greatest amount not above their exact share, the last all the rest |
| Settlement.EachFindsItsPart | crates/zincha-primitives/src/primitives/agreement.rs:671-677 | looking up a distinct recipient finds its own payout |
| Settlement.Agreement.EscrowRemaining | crates/zincha-primitives/src/primitives/agreement.rs:531-533 | what is left of the escrow |
| Settlement.Agreement.RecordEscrowRelease | crates/zincha-primitives/src/primitives/agreement.rs:537-542 | the released counter never exceeds the escrow, and is exact while releases fit |
| Settlement.Agreement.ReleaseRemainingEscrow | crates/zincha-primitives/src/primitives/agreement.rs:546-548 | nothing remains |
| Settlement.ReleaseBalances | crates/zincha-primitives/src/primitives/agreement.rs:537-542 | one release of an open milestone neither saturates nor is cut, and keeps the books balanced |
| Settlement.RunConserves | crates/zincha-primitives/src/primitives/agreement.rs:531-548 | at every point of a run the counter, the payouts and the open milestones add up |
| Settlement.SettlementConserves | crates/zincha-primitives/src/primitives/agreement.rs:85-128 | for every agreement the validator accepts and every order of releases: remaining = open milestones, paid = released; releasing all pays exactly the escrow |
| Settlement.SettleInOrder | crates/zincha-primitives/src/primitives/agreement.rs:537-542 | releasing on the stored agreement follows the run |
| DisputeEffects.CheckParties | crates/zincha-primitives/src/primitives/agreement.rs:361-378 | the first loop: parties only, no repetition, and which sides were seen |
| DisputeEffects.CheckEntities | crates/zincha-primitives/src/primitives/agreement.rs:386-395 | the nested loops find a same-entity pair if there is one |
| DisputeEffects.NormalizeDisputeReputationEffects | crates/zincha-primitives/src/primitives/agreement.rs:353-404 | succeeds exactly for effects that are acceptable, with the same effects in ascending order of their addresses, byte by byte; each error names a real fault |
| Ordering.LexLessIff | crates/zincha-primitives/src/primitives/agreement.rs:397-402 | the order: a proper prefix, or smaller at the first place where they differ |
| DisputeEffects.OrderIsIrrelevant | crates/zincha-primitives/src/primitives/agreement.rs:353-404 | for an entity test symmetric between the parties all permutations succeed or fail alike, with one result |
| DisputeOrder.PairOrderIff | crates/zincha-primitives/src/primitives/agreement.rs:386-395 | two opponents are judged alike in both orders if and only if the test is symmetric on them |
| DisputeOrder.OrderIrrelevantIff | crates/zincha-primitives/src/primitives/agreement.rs:353-404 | all listings of every collection of effects are accepted or refused alike if and only if the test is symmetric between distinct parties |
| DisputeOrder.ListingMattersIff | crates/zincha-primitives/src/primitives/agreement.rs:353-404 | given effects can be listed both so that they are accepted and so that they are refused if and only if the other checks pass and the test relates some pair of them without a cycle |
| DisputeEffects.CanonicalIsStored | crates/zincha-primitives/src/primitives/agreement.rs:699-721 | normalized effects ascend by address, byte by byte, and storing them sorts them into themselves |
| DisputeEffects.OutcomeDecides | crates/zincha-primitives/src/primitives/agreement.rs:397-402 | of two effects of one party the won one comes first |
| DisputeEffects.CounterpartyIsLowest | crates/zincha-primitives/src/primitives/agreement.rs:407-421 | a counterparty exists exactly when someone opposes, and is below all others who do: smaller at the first byte where they differ |
| DisputeEffects.EveryoneIsOpposed | crates/zincha-primitives/src/primitives/agreement.rs:407-421 | after normalization everyone listed has a counterparty: the least address with the other outcome |
| DerivationPath.SegmentIff | crates/zincha-primitives/src/wallet/mnemonic.rs:107-136 | a segment stands for an index exactly when it spells it: optional plus, leading zeros, the decimal numeral below 2^31 and one of ' h H |
| DerivationPath.ParseDerivationPath | crates/zincha-primitives/src/wallet/mnemonic.rs:94-140 | the loop parses exactly the accepted paths; an error is about the first wrong segment |
| DerivationPath.PathSegmentsToString | crates/zincha-primitives/src/wallet/mnemonic.rs:142-154 | the loop prints the indices |
| DerivationPath.ParsePrint | crates/zincha-primitives/src/wallet/mnemonic.rs:94-154 | printed indices below 2^31 read back |
| DerivationPath.NormalizeDerivationPath | crates/zincha-primitives/src/wallet/mnemonic.rs:60-71 | computes the normal form, or the parse error |
| DerivationPath.NormalizeKeeps | crates/zincha-primitives/src/wallet/mnemonic.rs:60-71 | normalizing keeps the indices and is idempotent |
| NormalPath.NormalIsShortestPlain | crates/zincha-primitives/src/wallet/mnemonic.rs:60-71 | the normal form has the indices of the path; it is the only accepted path with them that has no plus sign, no leading zero and apostrophes for marks, and no accepted path with them is shorter |
| NormalPath.PrintIsWritten | crates/zincha-primitives/src/wallet/mnemonic.rs:142-154 | the printed path, unit by unit |
| NormalPath.MeantIs | crates/zincha-primitives/src/wallet/mnemonic.rs:60-65 | the path meant is what stands between white space, or m |
| DerivationPath.NormalizeAlikeIff | crates/zincha-primitives/src/wallet/mnemonic.rs:60-71 | two accepted paths normalize alike exactly when their indices agree |
| AgentPool.OneOwner | sdk/typescript/src/conversation-node.ts:65-65 | a pool key names its service, since service identifiers hold no line feed |
| AgentPool.KeyIsOwned | sdk/typescript/src/conversation.ts:496-498 | the key of a valid service identifier belongs to it |
| AgentPool.LineFeedsWouldCollide | sdk/typescript/src/conversation-node.ts:65-65 | with line feeds two services could share a key |
| AgentPool.FetchKeeps | sdk/typescript/src/conversation-node.ts:64-106 | a call keeps the whole invariant and returns an agent that is live under the key |
| AgentPool.RunInv | sdk/typescript/src/conversation-node.ts:15-18 | after any calls: live keys are exactly the keys of services, one each, at most 256, agents in order of last use, every agent made live or closed exactly once |
| AgentPool.EveryCall | sdk/typescript/src/conversation-node.ts:97-105 | an evicted agent was used before every agent that stays |
| PoolCalls.EveryCallExactly | sdk/typescript/src/conversation-node.ts:64-106 | in every run a call with a live key hands out the agent there, makes none and closes none; any other makes the next one and closes the agent the service had, or the one used longest ago when it had none and 256 are live, or none |
| PoolCalls.SameAgentAgain | sdk/typescript/src/conversation-node.ts:64-106 | two calls in a row for one service and key get one agent |
| PoolCalls.KeyIs | sdk/typescript/src/conversation-node.ts:65-65 | the key is the service, a line feed and the rest |
| AgentPool.PinnedAgents.ForgetServices | sdk/typescript/src/conversation-node.ts:101-103 | deletes exactly the services with the evicted key |
| AgentPool.PinnedAgents.EvictOld | sdk/typescript/src/conversation-node.ts:97-105 | evicts from the old end down to the limit |
| AgentPool.PinnedAgents.PinnedFetch | sdk/typescript/src/conversation-node.ts:64-106 | the two maps, the closed agents and the agent returned are those of the step the invariant is about |

## Left out

- HTTP, TLS, DNS, timers and file-system calls: inputs of the model, with file replacement atomic.
- Ed25519, X25519, HKDF, XChaCha20, SHA-256, HMAC: function parameters; end-to-end encryption is not modelled.
- BIP-39 phrases and SLIP-0010 key derivation: library hashing over the indices that `DerivationPath` is about.
- Byte-size limits of the outbox, state and profile files, identifier checks and error-text truncation: a failing read, write or request stands for them.
- Two processes on one outbox file: the lock is per process, and the protocol has one.
- RustOutbox.FileOutbox.Load: a file that exists and one that does not are both a sequence of items, the latter empty.
- Which shortest digits identify a floating-point number: the model starts from them, takes minus zero for zero as its text does, and has numerals that no such number has.
- What a wallet does to the signed transaction it handed over once signing has returned it.
- The identity of queued TypeScript items: the store is a value, so a caller that keeps and changes a loaded array is not covered.
- The TypeScript event reader, which normalizes line ends chunk by chunk.
- The other payload encoders of `builders.ts`, and `writeF32` and `writeF64`: more of the same combinators, and floating point.
- Transaction JSON keeps its seven numeric fields as a list in declaration order, and defaults of `createTransaction` for missing fields are left out.
- The sets of address texts in the agreement builder are sets of the addresses they name, which `Hex.AddressesAgree` justifies.
- The signing, fee and validity-window steps after `buildCreateAgreement` has encoded its payload.
- Agreement status, acceptance, expiry and the storing of resolutions; who may release or resolve is decided on the chain, which is not in the repository.
- Reputation scores, matching, embeddings and other floating point.
- TLS certificate checks of pinned agents, and that a cached agent keeps the connect timeout it was created with.
- Command line, query builders, release tables and packaging.
