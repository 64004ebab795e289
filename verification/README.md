# claude-handshake, verified

Dafny models of the parts of claude-handshake where many machines, or one machine over time, have to agree
without an arbiter, and proofs of what those parts promise.

`dafny verify dfyconfig.toml` checks the whole project. There are five independent groups of modules.

1. **The state-branch beat** (`CommitScan`, `ScanUnits`, `Git`, `StateBranch`, `StateBranchSafety`,
   `RecordedHead`, `BeatRunner`). Clones share one branch that nobody arbitrates. Git is a pure store: a commit
   is an optional parent and a tree, a clone is a local ref, a tracking ref and a shard file, the remote is one
   ref. Every git call is one or two separate steps (a fetch reads, then writes; moveRef reads, then swaps; a
   push reads, then lands), so beats of all clones interleave freely, and beats of the same clone too: the batch
   lock is not assumed. `StateBranch` is the machine and its invariant, `StateBranchSafety` what follows over
   whole runs, `RecordedHead` a run that shows a limit, and `BeatRunner` the imperative beat, one method per git
   call, proved to take only steps of the machine while any number of other steps happens between two of its own.
2. **Fair selection and reading** (`Sorting`, `FairSelect`, `SelectFair`, `PagingWalk`, `Decimal`,
   `NtfyCursor`). The per-sender round robin, selectFair with its priority floor, the exhaustive paging walk
   whose completeness rests on that selection, and the ntfy cursor ladder together with the server it reads.
3. **Envelopes, replay memory and queue** (`Utf8`, `CanonicalJson`, `CanonShape`, `JsonParse`, `JsonOrder`, `JsonSame`,
   `Structure`, `Envelope`, `NtfyWire`, `Invite`, `Replay`, `ReplaySafety`, `ReplayOverlap`, `OfflineQueue`,
   `QueueSafety`). The canonical printer and a parser that inverts it, when two values have one text, what the
   signature input stands for, both wire forms, at-most-once consumption and what overlapping handles forget, and
   the fate of every queued envelope.
4. **Merge, render and claims** (`MergeScans`, `MergeRecords`, `MergeSafety`, `Render`, `RenderSafety`, `Injection`,
   `TurnMemory`, `Tiebreak`, `Claims`, `Subject`). The capped union of two scans, the trim-plan search under a hard
   budget, consumption of exactly what was shown and its refusal later, and the claim tiebreak.
5. **The ZIP writer** (`BitDivision`, `Crc32`, `ZipLayout`). The table-driven CRC-32 against division one bit at
   a time, and the archive against a reader that starts at the end record.

`Basics` holds shared vocabulary. JavaScript strings are sequences of UTF-16 code units (`Text`), except in
`Render`, which counts code points as the source does, and `FairSelect`/`OfflineQueue`, whose types and senders
are plain strings.

Code that works by changing things is imperative here too: a class or a loop, proved equal to a function of its
inputs or of the old state. What the source promises is then proved of that function, over whole runs where it
speaks of runs. Cryptography, base64url, zlib, UTF-8 decoding and NFKD are parameters of the lemmas, with what
is needed of them stated as a `requires`: an ideal cipher opens what it sealed, and only under the associated
data it was sealed with; a codec decodes what it encoded; a signature may collide, and the lemma then says so.

## What turned out otherwise

Where the code does not do what its comments or a natural reading promise, the exact condition is proved.

- A nonce named like a property every JavaScript object inherits (`toString`, `constructor`, ...) is always
  taken for a duplicate, because the nonce table is a plain object; both names match the nonce pattern:
  `ReplaySafety.NewIsDuplicateOnlyByName`, `ReplaySafety.InheritedNamesAreNonces`.
- A dedupe handle is a copy of the file, and a flush replaces the file. Whatever any number of handles do, the
  file remembers what one line of them stored, each opened after the one before it had flushed; an envelope
  consumed through any other handle is accepted again exactly when that line stored neither its pair within the
  hour nor its nonce within ten minutes (`ReplayOverlap.FileFollowsItsLine`,
  `ReplayOverlap.ForgottenExactlyWhen`; a prune over its cap can only forget more,
  `ReplayOverlap.DuplicateExactlyWhen`). For two handles: exactly when the one flushed last stored neither
  (`ReplayOverlap.StaleFlushForgets`), so never when it was asked about the envelope too
  (`ReplayOverlap.AskedIsNotForgotten`) or opened after the other's flush
  (`ReplayOverlap.OpenedAfterwardsRemembers`). The hour runs from the opening of the handle, not from the
  consumption (`ReplayOverlap.KeptForAnHour`), so a handle kept open for more than fifty minutes can let a timely
  copy in.
- Reconciliation lowers the acquisition time of a live claim, but an expired local row keeps its own time even
  when the transport reports an earlier one. Reported more than once, a live row ends at the last reported time
  below its own, which is the earliest exactly when no report before that one is earlier:
  `Claims.ReconciliationIsExact`, `Claims.EarliestExactlyWhen`, `Claims.DuplicateReportsCanRaise`. It is never
  raised above what it was before the reconciliation.
- A subject key normalizes to itself exactly when it is at most 200 code units
  (`Subject.NormalizeIsAFixedPoint`). NFKD can expand a subject past that, and the key is then refused as too
  long: 67 ligatures of three letters are enough (`Subject.FoldingCanExpand`).
- `encryptForNtfy` writes any algorithm name it is given; the message comes back exactly when the name is
  absent, falsy or `HS256`: `NtfyWire.NtfyRoundTrip`.
- Of what the shape check passes, the printer still refuses lone surrogates and negative zero, and nothing
  else: `Structure.ShapedValuesPrintWhenClean`.
- The walk is complete for any log of up to pages + cap - 1 messages, and one message more from one chatty
  sender stops it short: `PagingWalk.WalkIsComplete`, `PagingWalk.TheBoundIsExact`.
- `selectFair` takes the oldest candidate always when the cap exceeds the reserved floor, and otherwise
  exactly when the priority pass takes it or leaves room: `SelectFair.OldestSelectedExactlyWhen`.
- An ntfy read that is not reported truncated returns every candidate exactly when there are no more than its
  cap; of the others only `more` tells: `NtfyCursor.Fetch`.
- 32-bit fields of the archive wrap silently while 16-bit ones throw; every central record names its local
  header exactly when the last header starts within 32 bits, and one past them names a place before its own:
  `ZipLayout.EveryOffsetIsExactWhen`, `ZipLayout.StoredOffsetIsExact`.
- A push sends the local ref as it is at that moment, which need not be the commit this beat built, while
  recordHead records the built one. The head recorded is the one that landed exactly when the local ref was
  that head at the push's read (`BeatRunner.World.RunBeat`, `StateBranchSafety.PushingIsSent`); with two beats of
  one clone, one can land the other's commit and record its own (`RecordedHead.RecordedNeedNotBeLanded`).
- A refresh that lands while a turn is on is overwritten when the turn consumes anything: of what it brought, the
  items not in the turn's view are lost, while the watermark follows their cursor
  (`Injection.RefreshDuringTurn`). One that lands inside the turn's own write is fetched again
  (`Injection.LateRefreshIsFetchedAgain`). And what a turn leaves waiting comes back with the next fetch exactly
  when the turn consumed nothing, or when the feed goes by timestamps and the item is of the cursor's second; the
  next refresh drops the rest (`Injection.CarriedComesBackExactlyWhen`).

## Model

| member | source | states |
|---|---|---|
| CommitScan.AddedText | lib/state-branch.js:966-979 | the two counting loops and the join return the middle of the new text after the shared first and last lines |
| CommitScan.CountFront | lib/state-branch.js:973-974 | the loop counts the lines shared at the front: equal, or differing by one trailing return |
| CommitScan.CountBack | lib/state-branch.js:975-976 | the loop counts the lines shared at the back in that sense, never reaching into the front |
| CommitScan.LinesJoin | lib/state-branch.js:967-978 | splitting what was joined gives the lines back |
| CommitScan.JoinLines | lib/state-branch.js:967-978 | joining the lines of a text gives it back |
| CommitScan.AddedIsPartOfTheText | lib/state-branch.js:966-979 | the added text stands in the new text as it is |
| CommitScan.EveryLinePublishedOrAdded | lib/state-branch.js:966-979 | every line of the new text that is not blank is, equal or differing by one trailing return, a line of the parent text or of the added text: nothing new escapes the scan |
| CommitScan.AddedIsTheChange | lib/state-branch.js:966-979 | when the two texts are one front, a middle and one back, with the front and then the back as long as possible, the added text is the new middle and no more |
| ScanUnits.ScanUnits | lib/state-branch.js:911-954 | the header, slice and window loops compute the units, each of at most 2048 UTF-8 bytes |
| ScanUnits.ByteLengthCounts | lib/state-branch.js:937-944 | the length the loops compare with the cap is the number of UTF-8 bytes |
| ScanUnits.FindHeaders | lib/state-branch.js:918-923 | the loop finds every header line, in order |
| ScanUnits.HeaderAtExactlyWhen | lib/state-branch.js:911-923 | what a header line is, spelled out: two number signs at the start of a line, two words with blanks before them, and blanks to its end |
| ScanUnits.SliceRecords | lib/state-branch.js:924-932 | the slices between header lines |
| ScanUnits.FitWindow | lib/state-branch.js:941-947 | halving until the window fits the byte cap |
| ScanUnits.CutWindows | lib/state-branch.js:938-951 | the windows of a long record, and that the loop ends |
| ScanUnits.RecordsConcat | lib/state-branch.js:924-932 | the records concatenate to the input: nothing is dropped |
| ScanUnits.ShrinkFits | lib/state-branch.js:941-947 | a window encodes in at most 2048 bytes, and halving never brings one below the size the overlap needs |
| ScanUnits.NonFinalWindowExceedsOverlap | lib/state-branch.js:941-950 | a window that is not the last is longer than the overlap, so every step advances by what was cut |
| ScanUnits.WindowsOverlap | lib/state-branch.js:938-951 | each window but the last is followed by one that starts 256 units before its end |
| ScanUnits.ShortValuesReachTheFilterWhole | lib/state-branch.js:894-954 | every substring of at most 256 code units inside a record lies whole in one unit |
| ScanUnits.UnitsFit | lib/state-branch.js:935-953 | every unit encodes in at most 2048 bytes of UTF-8, the filter's cap |
| Git.AncestorAntisymmetric | lib/state-branch.js:2045-2046 | two commits that contain each other are the same commit |
| Git.FastForwardTransitive | lib/state-branch.js:1601-1613 | fast-forwards compose |
| StateBranch.StepKeepsInv | lib/state-branch.js:1983-2049 | every step of every beat, in every interleaving, keeps the invariant: a foreign commit in a clone's history is already on the remote |
| StateBranch.PushKeepsInv | lib/state-branch.js:1601-1613 | a push that lands keeps it for every other clone and beat |
| StateBranch.BuiltIsGood | lib/state-branch.js:1336-1429 | a commit built on a good base, past the tree post-condition, is the clone's own surplus over the remote |
| StateBranch.ScanVouches | lib/state-branch.js:1187-1261 | after the scan passed, every line of the snapshot was published before or is in the cleared text |
| StateBranch.StagedIsVouched | lib/state-branch.js:1287-1321 | the bytes staged are the snapshot the scan cleared |
| StateBranchSafety.RunKeepsInv | lib/state-branch.js:1983-2252 | the invariant holds at every moment of every run |
| StateBranchSafety.RemoteOnlyFastForwards | lib/state-branch.js:1601-1613 | between any two moments of a run the remote ref only fast-forwards, once it exists |
| StateBranchSafety.ForeignCommitsAreOnTheRemote | lib/state-branch.js:1997-2049 | a commit of another member in a clone's local history is an ancestor of the remote tip |
| StateBranchSafety.SurplusTouchesOnlyTheShard | lib/state-branch.js:1344-1380 | what a clone has beyond the remote changes its own shard path alone |
| StateBranchSafety.PushChangesOnlyThePushersShard | lib/state-branch.js:1344-1380 | an accepted push leaves every path but the pusher's own as it was on the remote |
| StateBranchSafety.PeerShardsSurvive | lib/state-branch.js:263-270 | over any run, a shard whose owner does not push stays on the remote unchanged |
| StateBranchSafety.RootsNeedProof | lib/state-branch.js:2003-2036 | a beat builds a root only after a probe of this attempt proved the remote ref absent |
| StateBranchSafety.FreshBuildIsPushable | lib/state-branch.js:2037-2061 | with nobody moving the refs meanwhile, the commit built is a fast-forward and replaces one shard in the remote tree |
| StateBranchSafety.QueuedBatchesStay | lib/state-branch.js:2037-2061 | when a beat found its local ref to contain the remote head, or found no remote head, the ref it moves to still has that local ref in its history, and nobody else having moved it the move fast-forwards it |
| StateBranchSafety.BehindBuildsOnTheRemote | lib/state-branch.js:2037-2061 | otherwise the ref it moves to has the remote head in its history |
| StateBranchSafety.EveryLineWasScanned | lib/state-branch.js:1187-1261 | every line, blank ones aside, of every shard blob in a tool-built history is, equal or differing by one trailing return, a line of text that passed the scan at that commit or an earlier one of its chain |
| StateBranchSafety.OwnLineWasScanned | lib/state-branch.js:1187-1261 | the line a commit adds to its own shard is, in that sense, in the text cleared for it or in its parent |
| StateBranchSafety.NothingUnscannedIsPublished | lib/state-branch.js:1187-1321 | no line on the remote branch, at any moment of any run, escaped the scan: each that is not blank stands, up to one trailing return, in text that passed |
| StateBranchSafety.PushingIsSent | lib/state-branch.js:1601-1613 | at any moment of any run, the head a push is about to land is the local ref as the push read it |
| StateBranchSafety.OthersKeep | lib/state-branch.js:1983-2252 | any steps of other beats and users leave a beat's variables, the count of its clone's ref and the ref its push read as they were |
| StateBranchSafety.DeferralsAreCounted | lib/state-branch.js:657-670 | between two recordings a clone's deferred count grows by one with each deferral of a beat of its own, and by nothing else |
| StateBranchSafety.RecordingClears | lib/state-branch.js:641-648 | recording a head starts the count again from zero |
| RecordedHead.RecordedNeedNotBeLanded | lib/state-branch.js:2140-2192 | for any two texts that pass the scan there is a run of two beats of one clone in which each moves the ref to its own commit, and the first then lands the second's and records its own |
| BeatRunner.World.FetchState | lib/state-branch.js:1504-1535 | what it read is the remote ref or nothing; when it reports success the remote had a ref and the tracking ref took it |
| BeatRunner.World.LsRemote | lib/state-branch.js:1480-1502 | answers absent only when the remote had no state ref |
| BeatRunner.World.ChooseParent | lib/state-branch.js:2037-2049 | the parent is the local ref when there is one and no remote head was read, or it is the remote head, or merge-base found it to contain the remote head; otherwise it is the remote head |
| BeatRunner.World.TakeSnapshot | lib/state-branch.js:1165-1200 | a build stops for size exactly when the shard is past 256 KiB of UTF-8; otherwise it takes the one snapshot that is scanned and committed |
| BeatRunner.World.ScanCommitBytes | lib/state-branch.js:1014-1057 | clean only when every unit passed, a finding only when one did not, out of time only past a first unit that passed |
| BeatRunner.World.StageSnapshot | lib/state-branch.js:1278-1333 | seeds the private index and stages the snapshot, under interference of other builds |
| BeatRunner.World.CommitIndex | lib/state-branch.js:1336-1429 | a commit is reported changed only past the tree post-condition, on the chosen parent |
| BeatRunner.World.BuildStateCommit | lib/state-branch.js:1102-1429 | a changed build has scanned its snapshot, and its parent is the chosen base |
| BeatRunner.World.MoveStateRef | lib/state-branch.js:1432-1472 | on success the local ref is the commit built, unless another beat moved it since |
| BeatRunner.World.PushState | lib/state-branch.js:1571-1613 | reports a push only when one landed, and what landed is the local ref as it was when the push was called; non-fast-forward only of a head it read that was no fast-forward of the remote; a lost answer may report a landed push as failed |
| BeatRunner.World.ReadRefs | lib/state-branch.js:1984-2036 | both refs absent only with proof; a stop always counts a deferral |
| BeatRunner.World.Publish | lib/state-branch.js:2140-2252 | delivered only when a push landed; another attempt is asked for exactly when the push answered non-fast-forward or found the ref contended and this was not the last |
| BeatRunner.World.RunBeat | lib/state-branch.js:1926-2252 | at most three attempts, each but the last ended by a push that asked to rebuild; a beat that ends on a non-fast-forward used all three and is deferred; the beat delivers only what landed; the head it reports is the one it records, and landed exactly when the local ref was that head at the push's read, so always when nobody else moved the ref; each deferral counts once; only steps of the machine are taken |
| FairSelect.RoundRobinLoops | lib/transport.js:83-107 | the grouping and dealing loops compute the round robin |
| FairSelect.GroupBySender | lib/transport.js:84-96 | the map-filling loop gives each sender's pending items in order, senders by oldest item |
| FairSelect.DealRounds | lib/transport.js:97-106 | the nested loops deal one item per queue and round up to the budget |
| FairSelect.RoundRobinConservesWork | lib/transport.js:97-106 | exactly min(budget, untaken) items |
| FairSelect.RoundRobinTakesOldestFirst | lib/transport.js:89-102 | a sender gets an oldest-first prefix of its queue |
| FairSelect.RoundRobinIsFair | lib/transport.js:75-107 | when some sender got k, every sender got its whole queue or at least k - 1, and at least k if its oldest is older |
| FairSelect.RoundRobinDealsOnce | lib/transport.js:90-102 | no item is dealt twice and none that was taken |
| FairSelect.RoundRobinIgnoresArrivalOrder | lib/transport.js:85-89 | the result does not depend on the order of the input |
| SelectFair.SelectLoops | lib/transport.js:113-124 | the two passes over the taken set compute the selection |
| SelectFair.SelectFillsTheCap | lib/transport.js:113-124 | min(cap, n) distinct items in order, at least min(reserved, cap, number of priority ones) of them priority |
| SelectFair.SelectTakesAllExactlyWhen | lib/transport.js:113-124 | every candidate is selected exactly when the cap has room for all |
| SelectFair.UrgentIsSelected | lib/transport.js:109-124 | a warning of any sort, or a blocker, is selected whenever no more of them wait than the floor reserves |
| SelectFair.OldestSelectedExactlyWhen | lib/transport.js:119-122 | the exact condition for the oldest candidate to be selected |
| SelectFair.OldestAlwaysSelected | lib/transport.js:119-122 | it is, whenever the cap exceeds the reserved floor |
| SelectFair.SelectIgnoresArrivalOrder | lib/transport.js:113-124 | the selection does not depend on arrival order |
| PagingWalk.FairServerIsGood | e2e/lib/relay-dev.js:86-95 | a page given by selectFair holds min(cap, pending) messages and starts with the oldest |
| PagingWalk.AllRelayMessages | e2e/lib/relay-dev.js:96-117 | the walk's loop returns exactly the messages of its pages, each once, in order |
| PagingWalk.CursorAdvances | e2e/lib/relay-dev.js:104-113 | restarting at the smallest returned sequence number advances the cursor by exactly one message |
| PagingWalk.WalkIsComplete | e2e/lib/relay-dev.js:86-117 | every message of a log of up to pages + cap - 1 messages is returned |
| PagingWalk.TheBoundIsExact | e2e/lib/relay-dev.js:86-117 | one message more from one sender is missed |
| PagingWalk.DefaultWalkReads | e2e/lib/relay-dev.js:96-117 | with the walk's 500 pages and the relay's caps, one sender's log is read whole exactly up to 519 messages |
| NtfyCursor.Server.Store | e2e/mock-ntfy.js:64-81 | a published row is appended with the next ordinal and the server's clock |
| NtfyCursor.PollIsExact | e2e/mock-ntfy.js:90-108 | for any cursor, the poll is exactly the rows it asks for, each once and in store order: the topic's rows of the last twelve hours, after the row of its id under eleven hours, from its second on under twelve |
| NtfyCursor.PollFromRow | lib/transport-ntfy.js:146-164 | the same for a stored row c: row i is polled exactly when it is of the topic, at most twelve hours old and, by the cursor's age, i > c or not before its second |
| NtfyCursor.PollFromNothing | lib/transport-ntfy.js:146-148 | with no cursor, exactly the topic's rows of the last twelve hours |
| NtfyCursor.UntruncatedPollMissesNothing | lib/transport-ntfy.js:146-164 | a read from a stored row that is not reported truncated polls every later message of the topic, across the id and the timestamp tier |
| NtfyCursor.Fetch | lib/transport-ntfy.js:220-266 | every candidate is a stored row the cursor asks the topic for; truncated exactly when the plan or the 200-row window cut; otherwise every decodable row polled is a candidate; candidates are exactly the accepted window rows and the priority rows past it; the next cursor is the last candidate's; the answer is the fair selection, which is all candidates exactly when they are within the cap |
| NtfyCursor.Gather | lib/transport-ntfy.js:227-250 | the row loops keep every decodable row of the 200-row window and every priority row past it |
| NtfyCursor.ChainMissesNothing | lib/transport-ntfy.js:146-266 | over a chain of untruncated reads no message after the first cursor is missed |
| Decimal.ValueOfDigits | lib/envelope.js:101-107 | String(n) reads back as n |
| Utf8.DecodeInvertsEncode | lib/envelope.js:130-132 | a strict UTF-8 decoder reads the bytes back as the text, lone surrogates replaced |
| Utf8.EncodeIsInjective | lib/envelope.js:130-132 | well-formed texts with the same UTF-8 bytes are the same text |
| CanonicalJson.CanonicalStringLoop | lib/envelope.js:59-85 | the accumulating loop computes the escaped string, or refuses a lone surrogate |
| CanonShape.PlainPrintsAsItself | lib/envelope.js:80-83 | a string with no quote, backslash or control character prints as itself between quotes |
| CanonShape.PiecesPrintInPlace | lib/envelope.js:59-85 | and stands as it is wherever it comes inside a longer string |
| CanonShape.StringIsShortest | lib/envelope.js:59-85 | of all the texts a JSON parser reads as the string the printed one is the shortest, and of the shortest the one with its hexadecimal digits in lower case |
| CanonShape.EscapePrintsAs | lib/envelope.js:66-79 | the letters of each escape |
| CanonShape.ScalarsPrintAs | lib/envelope.js:98-107 | null, the booleans and the integers |
| CanonShape.ArrayPrintsAs | lib/envelope.js:108-110 | an array is its items' texts in order, in brackets and with commas between |
| CanonShape.ObjectPrintsAs | lib/envelope.js:111-118 | an object is its present fields in key order, each the quoted key, a colon and the value's text |
| CanonShape.ObjectPrintsExactlyWhen | lib/envelope.js:111-118 | an object prints exactly when each present field has a well-formed key and a value that prints |
| Structure.AcceptedExactlyWhen | lib/envelope.js:344-361 | a value is accepted exactly when it nests at most eight deep and holds integers, strings, booleans and null under well-formed keys |
| JsonParse.ParseInvertsCanon | lib/envelope.js:98-120 | a JSON parser inverts the printer: the value comes back with its keys in order and absent fields gone |
| JsonParse.CanonIsInjective | lib/envelope.js:98-120 | one canonical text stands for one value |
| JsonSame.CanonIgnoresInsertionOrder | lib/envelope.js:98-120 | two values print the same text exactly when they are the same, objects key by key in any order and without absent values, at every depth; refused values are refused alike |
| JsonSame.ReorderedIsSame | lib/envelope.js:111-118 | an object with its fields in another order, and reordered values inside them, is the same |
| JsonSame.NormTellsText | lib/envelope.js:98-120 | values read back alike are printed alike, or refused with the same error |
| JsonOrder.CanonOfNorm | lib/envelope.js:98-120 | printing what was read back prints the same text |
| JsonOrder.CanonWellFormed | lib/envelope.js:59-120 | canonical text holds no lone surrogate |
| Structure.ShapedValuesPrintWhenClean | lib/envelope.js:345-361 | a value of accepted shape prints exactly when it holds no lone surrogate and no negative zero |
| Envelope.BytesStandForFields | lib/envelope.js:122-132 | two objects have the same canonical bytes exactly when they agree on every picked field |
| Envelope.CanonicalBytesStandForTheSignedFields | lib/envelope.js:31-34 | the signature input is the same exactly when all eight signed fields agree |
| Envelope.FieldNames | lib/envelope.js:31-34 | which fields are signed, which travel in the clear and which are hidden |
| Envelope.SignatureInputIgnoresKeyOrder | lib/envelope.js:122-132 | two envelopes have one signature input exactly when their eight signed fields are the same, whatever the order of keys in the envelope, its sender and its body |
| Envelope.ReorderingKeepsBytes | lib/envelope.js:122-132 | the same of any picked fields, down to the error when there are no bytes |
| Envelope.VerifiesExactlyWhen | lib/envelope.js:168-190 | an envelope verifies exactly when its signature is the mac of the signed fields' canonical bytes, and only with 64 hexadecimal digits |
| Envelope.AlteredEnvelopesAreRefused | lib/envelope.js:168-190 | an altered envelope that keeps its signature verifies exactly when no signed field changed, or a collision was found |
| Envelope.ResignedFields | lib/envelope.js:325-337 | re-signing changes the time, nonce and number, drops old signature and ciphertext, and leaves every other field |
| Envelope.ResignedVerifies | lib/envelope.js:325-337 | what was re-signed verifies |
| NtfyWire.EncryptsWhenSignable | lib/envelope.js:442-457 | an envelope has a wire form exactly when it has a signature input and a 12-byte iv |
| NtfyWire.DecryptsOnlyTheWireForm | lib/envelope.js:460-484 | only an object that names this encryption, with a ciphertext and a known algorithm, decrypts |
| NtfyWire.ClearFieldsAreAuthenticated | lib/envelope.js:460-484 | whatever object carries the ciphertext, what decrypts has the sealed envelope's eight signed fields |
| NtfyWire.NtfyRoundTrip | lib/envelope.js:442-484 | the encrypted form comes back as the same eight fields and the same signature verdict, exactly when its algorithm is absent, falsy or HS256 |
| Invite.InviteRoundTrip | lib/invite.js:29-99 | decode of encode returns every field as put in, and passes its own checksum and shape check |
| Invite.ChecksumReadsBack | lib/invite.js:29-33 | the checksum of the object read back is the checksum it carries |
| Invite.ShapedExactlyWhen | lib/invite.js:35-60 | what an invite is, case by case: by the repository with no secret, or inline with what its transport needs and nothing of the other |
| Invite.KeyNames | lib/invite.js:63-78 | the names of an invite's fields |
| Invite.AcceptedIsAnInvite | lib/invite.js:82-99 | what decode accepts has the prefix, is an invite and carries its own checksum |
| Invite.AlteredInvitesAreRefused | lib/invite.js:56-60 | an invite altered under its old checksum passes exactly when it prints and says the same in every field, or two texts with one digest were found |
| Invite.BuiltFrom | lib/invite.js:63-80 | which input becomes which field: short names before long ones, defaults, secret and token only where they belong |
| Replay.PairKeyIsInjective | lib/state.js:530-534 | a stored key stands for one member and one sequence number |
| Replay.CapKeepsNewest | lib/state.js:521-525 | over the cap exactly the oldest pairs go |
| Replay.PrunedIsBounded | lib/state.js:514-526 | after a prune no key occurs twice, at most 4000 pairs remain, none past its hour |
| Replay.Dedupe.constructor | lib/state.js:510-528 | a handle is the file pruned at a fixed time |
| Replay.Dedupe.Prune | lib/state.js:514-526 | the deleting loops compute the pruned store |
| Replay.Dedupe.Add | lib/state.js:533-536 | stores the pair and the nonce under the handle's time |
| Replay.Dedupe.Flush | lib/state.js:537 | prunes and replaces the file |
| Replay.Dedupe.Accept | lib/envelope.js:419-435 | refuses exactly the unsound and what is more than five minutes off the clock, and the known; remembers the rest, ignores unknown types after remembering them |
| ReplaySafety.ConsumedAtMostOnce | lib/envelope.js:391-435 | over any run of sittings on one file, with no prune over its cap, no envelope is consumed twice |
| ReplaySafety.NeverAgain | lib/state.js:510-540 | a consumed envelope stays known for as long as a copy could still be timely |
| ReplaySafety.NewIsDuplicateOnlyByName | lib/state.js:529-532 | after any run, a new pair with a new nonce is called a duplicate exactly when the nonce is an inherited property name |
| ReplaySafety.InheritedNamesAreNonces | lib/envelope.js:23 | "toString" and "constructor" match the nonce pattern, and an empty memory calls an envelope with such a nonce a duplicate |
| ReplayOverlap.FileFollowsItsLine | lib/state.js:510-540 | for any number of handles opened, asked and flushed in any order, the file is what its line of sittings leaves one after another |
| ReplayOverlap.DuplicateExactlyWhen | lib/state.js:510-540 | what a line of sittings makes of an envelope offered later: a duplicate only when the nonce is inherited or the line stored its pair within the hour or its nonce within ten minutes, and always then when no prune is over its cap |
| ReplayOverlap.ForgottenExactlyWhen | lib/state.js:510-540 | after any schedule of handles an envelope is accepted exactly when the final line stored neither its pair nor its nonce in time, whoever consumed it |
| ReplayOverlap.Overlap | lib/state.js:510-540 | of two overlapping handles the last flush decides: the file is what that handle alone leaves |
| ReplayOverlap.StaleFlushForgets | lib/state.js:513-537 | what the first handle consumed is accepted again exactly when what the last handle's prunes leave holds neither its pair nor its nonce; within the cap, exactly when that handle stored neither in time |
| ReplayOverlap.AskedIsNotForgotten | lib/state.js:513-537 | nothing is forgotten that the last handle was asked about |
| ReplayOverlap.OpenedAfterwardsRemembers | lib/state.js:513-537 | nothing is forgotten when every later handle opened after the flush |
| ReplayOverlap.KeptForAnHour | lib/state.js:514-536 | with no handle in between, a copy is accepted again exactly through a handle opened more than an hour after the opening of the one that consumed it |
| OfflineQueue.State.NextSenderSeq | lib/state.js:334-344 | one more than the last number, or the clock when there is none or the result is not positive |
| OfflineQueue.Queue.ReconcileBinding | lib/state.js:607-613 | another binding's entries are all discarded and counted |
| OfflineQueue.Queue.Sweep | lib/state.js:622-630 | expired entries leave, the others stay in order |
| OfflineQueue.Queue.Enqueue | lib/state.js:633-656 | rebinds first even when the filter then throws; otherwise sweeps, appends and drops the oldest past 200; reports the counts |
| OfflineQueue.Queue.Drain | lib/state.js:665-710 | sends in order until refused, failed or empty; the report counts exactly what was sent and refused, says why it stopped, and adds up with what is left |
| OfflineQueue.Queue.Clear | lib/state.js:712-717 | every entry is cleared and counted |
| OfflineQueue.LivesFor | lib/state.js:245-259 | how long each kind of envelope stays queued |
| QueueSafety.EveryEnvelopeHasOneFate | lib/state.js:587-718 | over any run the file holds exactly the pending envelopes, at most 200, in order; a settled fate never changes; attempts go out in order with rising numbers, failed ones included, never again after a delivery |
| QueueSafety.DroppedTotalIsExact | lib/state.js:607-717 | dropped_total counts exactly the envelopes dropped by the cap, a rebind or a clear |
| QueueSafety.CapDropsOldest | lib/state.js:644-651 | an envelope dropped by the cap is older than all 200 that stay |
| QueueSafety.StepKeeps | lib/state.js:587-718 | each operation keeps the ledger and only settles pending fates |
| MergeScans.MergeScans | lib/shard-scan.js:499-600 | the grouping, recovering and widening loops compute the union |
| MergeScans.GroupOverlap | lib/shard-scan.js:516-522 | the map loop groups the working tree's records of members the ref carries |
| MergeScans.Recover | lib/shard-scan.js:526-549 | the member loop adds what is new, newest first, up to the room left, and counts the rest |
| MergeSafety.UnionHoldsExactly | lib/shard-scan.js:572-574 | the result is the ref's records, those of members the ref lacks, and the recovered ones: no other, each as often |
| MergeSafety.NothingIsLostSilently | lib/shard-scan.js:465-485 | each record survives, shares its key with a survivor or with one the cap dropped, and all the cap dropped is counted |
| MergeRecords.EveryRecordIsThereOrCounted | lib/shard-scan.js:486-540 | each working-tree record survives, or one that is the same by id or else by kind, time and fields survives or was dropped by the cap and counted |
| MergeRecords.NothingIsRecoveredTwice | lib/shard-scan.js:526-540 | nothing recovered is the same in that sense as a record of the ref or as another recovered one |
| MergeRecords.CapKeepsTheNewest | lib/shard-scan.js:541-549 | what the cap drops of a member is no newer than what it keeps |
| MergeRecords.MergedIsNewestFirst | lib/shard-scan.js:572-574 | the merged records run from the newest to the oldest |
| MergeRecords.EntryTells | lib/shard-scan.js:553-571 | the entry of a member with recovered records counts them, reports the larger count, is excluded only when both carriers exclude it, and takes the status of the copy that was cleared |
| MergeSafety.UnionRespectsTheCap | lib/shard-scan.js:502-509 | working-tree additions never push a member past the cap, and fill it whenever one was dropped |
| MergeSafety.MergingAgainChangesNoRecord | lib/shard-scan.js:499-600 | merging the same working-tree scan again leaves the records unchanged |
| MergeSafety.EntriesDescribeTheRecords | lib/shard-scan.js:553-571 | kept counts add up to the records present, and no excluded entry has any |
| Render.Plans | hooks/render.js:235-263 | the pushing loops pull one lever one notch at a time in the template's order, from the full plan to the barest |
| Render.RenderWithPlan | hooks/render.js:270-282 | the first plan within the budget, or the last; the block is that plan's |
| RenderSafety.TrimmingNeverLoosens | hooks/render.js:235-263 | later plans show no more of anything; priority items and notices go only after everything else |
| RenderSafety.FloorCounts | hooks/render.js:235-244 | how many items are trimmed last: the priority ones, at least one when anything waits, at most five |
| RenderSafety.FramingIsVerbatim | hooks/render.js:50-54 | under every plan the block ends with the framing and the closing tag, word for word |
| RenderSafety.PeersAddUp | hooks/render.js:155-165 | shown and announced peers make up everyone not gone |
| RenderSafety.PeopleAreThere | hooks/render.js:155-157 | the roster lists everyone who is not gone, in order |
| RenderSafety.PeerNameFirst | hooks/render.js:121-124 | a peer's entry begins with its name |
| RenderSafety.PeerReads | hooks/render.js:121-132 | what follows the name in a peer's entry: state, claim, how long it has been silent, agents |
| RenderSafety.DetailsRead | hooks/render.js:138 | a claim's details follow one by one |
| RenderSafety.ClaimAndItemRead | hooks/render.js:134-146 | what a claim's entry and a digest item say |
| RenderSafety.TagReads | hooks/render.js:60-152 | the opening tag names the workspace and the tier |
| RenderSafety.NoticesRead | hooks/render.js:181-188 | the first two notices stand right below the claims unless the plan drops them |
| RenderSafety.ClaimsAddUp | hooks/render.js:167-175 | shown and announced claims make up all claims |
| RenderSafety.ItemsAddUp | hooks/render.js:177-206 | shown and announced digest items make up all that wait; muted, none is shown |
| RenderSafety.SlotsFit | hooks/render.js:89-102 | the clamp keeps a slot within its cap (but for a cap of one) and leaves alone what was |
| RenderSafety.BlockFitsTheBudget | hooks/render.js:270-282 | for counts of up to 54 digits the block is at most 600 characters, whatever the escaping before the clamp |
| Injection.Session.AdvanceWatermark | lib/state.js:403-420 | the watermark moves exactly when the cursor is ahead: past it on the relay, from nothing or not before it by timestamps |
| Injection.Session.Advance | hooks/user-prompt-submit.js:70-120 | consumes what was rendered, carries the rest, remembers the consumed pairs, moves the watermark; nothing for a child or when muted |
| Injection.Session.Refresh | hooks/sync.js:53-87 | a refresh replaces the digest and its cursor |
| Injection.Session.Turn | hooks/user-prompt-submit.js:50-120 | the items consumed are those the chosen plan rendered, and the digest, the watermark and the replay memory follow, also when refreshes land after the view was read and inside the turn's own write |
| Injection.ConsumedThenWaiting | hooks/common.js:638-648 | between two refreshes, what was consumed followed by what waits is the original digest, priority first; the watermark never moves back |
| Injection.RefreshDuringTurn | hooks/user-prompt-submit.js:100-120 | an item a refresh brings during a turn is neither consumed nor left waiting exactly when the turn consumed anything and the item was not in its view |
| Injection.LateRefreshIsFetchedAgain | hooks/user-prompt-submit.js:100-120 | what a refresh inside the turn's own write brought from past the old cursor is past the watermark the turn leaves |
| Injection.CarriedComesBackExactlyWhen | hooks/user-prompt-submit.js:100-120 | on the relay and in both ntfy tiers, what a turn leaves waiting is fetched again exactly when the turn consumed nothing, or by timestamps for the cursor's own second |
| Injection.CarriedIsDroppedByTheNextRefresh | hooks/user-prompt-submit.js:100-120 | on the relay nothing a consuming turn carried over is past the watermark it leaves, whether or not the cursor was ahead |
| TurnMemory.ShownIsRefused | hooks/user-prompt-submit.js:92-98 | what a turn showed is refused by every fetch within the hour, after any later fetches and turns and any overlapping handles |
| Injection.PriorityGoesFirst | hooks/common.js:646-648 | no ordinary item is consumed while a priority item waits |
| Tiebreak.OneSideLoses | lib/subject.js:102-113 | of two claims exactly one loses, unless times and id bytes are equal |
| Tiebreak.LosesExactlyWhen | lib/subject.js:99-113 | the earlier claim wins, and at the same time the id whose bytes come first |
| Tiebreak.LosingIsTransitive | lib/subject.js:102-113 | losing is transitive |
| Tiebreak.SomebodyWins | lib/subject.js:99-113 | any finite set of claims by different members has one that loses to none |
| Tiebreak.WinnerIsUnique | lib/subject.js:99-113 | and only one |
| Claims.State.AddOwnClaim | lib/state.js:448-464 | the first row of the key is replaced but keeps its acquisition time; a new key is appended |
| Claims.State.RemoveOwnClaim | lib/state.js:466-477 | every row of the key leaves, and it says whether there was one |
| Claims.State.GetOwnClaims | lib/state.js:439-446 | the unexpired rows, earliest acquisition first |
| Claims.State.ReconcileOwnClaims | hooks/sync.js:132-160 | the loop over reported claims, against a snapshot read once; the report counts the keys re-adopted and rewound |
| Claims.ReconciliationIsExact | hooks/sync.js:132-160 | per key, whatever is reported: no row takes the first reported time, a live row the last one below its own, an expired row keeps its own; other keys are untouched; nothing is raised |
| Claims.ReportedOnce | hooks/sync.js:139-156 | when each key is reported once, a live row ends at the earlier of the two times |
| Claims.EarliestExactlyWhen | hooks/sync.js:139-156 | a live row ends at the last report below its own time, which is the earliest of all exactly when no report before it is earlier |
| Claims.KeptWhenNoneIsEarlier | hooks/sync.js:139-156 | with no report below it, a row's time stays |
| Claims.DuplicateReportsCanRaise | hooks/sync.js:139-156 | a second report between the first and the row's own time moves the key from the first time to the second |
| Claims.AcquisitionIsNeverRaised | lib/state.js:448-464 | until release, renewals and reconciliations, with any reports, never move a claim's time later, so it keeps every win |
| Claims.ConflictNotices | hooks/common.js:614-635 | one notice per live rival claim on an own key, with the tiebreak's verdict |
| Claims.NoticeExactlyWhen | hooks/common.js:614-635 | there is a notice exactly of each live claim of another member on a key held live, with the verdict of times and ids |
| Claims.NoticesAgree | hooks/common.js:614-635 | two members that see each other's claim as it stands are told opposite things |
| Subject.NormalizeIsAFixedPoint | lib/subject.js:35-54 | a subject key normalizes to itself exactly when it is within the length limit |
| Subject.FoldingCanExpand | lib/subject.js:35-54 | a subject of n three-letter ligatures has a key of 3n letters, refused when n is past 66 |
| Subject.KeysAreNoLonger | lib/subject.js:35-54 | unless folding expands the subject, it always is |
| Subject.TokensAreTheRuns | lib/subject.js:35-54 | the words of a text are its maximal runs of letters and digits, each once and in order |
| Subject.KeyWords | lib/subject.js:35-54 | the key is the words on no stop list, in order and one space apart, or all the words when they all are |
| BitDivision.TableStep | scripts/build-plugin-zip.js:64 | one table lookup and a byte shift are eight division steps |
| BitDivision.FeedWord | scripts/build-plugin-zip.js:61-65 | feeding up to a register's worth of bytes is stepping over their word |
| Crc32.MakeTable | scripts/build-plugin-zip.js:61-63 | the nested loops fill the table with each byte divided bit by bit |
| Crc32.TableCrc | scripts/build-plugin-zip.js:64 | the table form equals bit-at-a-time division by the reflected polynomial, for every byte string |
| Crc32.BurstsAreDetected | scripts/build-plugin-zip.js:61-65 | any change confined to four consecutive bytes changes the CRC |
| Crc32.CheckValue | scripts/build-plugin-zip.js:61-65 | the digits 1 to 9 give 0xCBF43926 |
| ZipLayout.BuildZip | scripts/build-plugin-zip.js:72-95 | the file loop with its running offset writes the archive of the files, or throws when a 16-bit field would overflow |
| ZipLayout.OffsetsLand | scripts/build-plugin-zip.js:86-90 | every stored offset lands on its local header |
| ZipLayout.ReadInvertsZip | scripts/build-plugin-zip.js:72-95 | a reader that starts at the end record recovers the files written, in order, whenever counts, sizes and offsets fit |
| ZipLayout.FieldIsExact | scripts/build-plugin-zip.js:67-68 | a field reads back as its value exactly when the value fits |
| ZipLayout.OffsetFieldIsExact | scripts/build-plugin-zip.js:67-68 | a four-byte field holds an offset exactly when it fits 32 bits |
| ZipLayout.StoredOffsetIsExact | scripts/build-plugin-zip.js:86-90 | the offset a reader finds in a central record is where the local header stands exactly when that is within 32 bits, and otherwise before it |
| ZipLayout.EveryOffsetIsExactWhen | scripts/build-plugin-zip.js:86-90 | every central record of an archive names its local header exactly when the last header starts within 32 bits |
| ZipLayout.LocalBegins | scripts/build-plugin-zip.js:78-81 | the bytes a local header begins with |
| ZipLayout.CentralBegins | scripts/build-plugin-zip.js:83-87 | the bytes a central record begins with |
| ZipLayout.EndBegins | scripts/build-plugin-zip.js:91-94 | the bytes the end record begins with |

## Left out

- Cryptography, hashing, base64url, zlib and NFKD: parameters of the lemmas.
- Process spawning, timeouts and wall-clock budgets, file modes, atomic renames: each git or file call is one or two
  nondeterministic steps that may fail.
- `acquireBatchLock`, the visibility gate and the preflight checks of the beat: the theorems do not need them.
- The `scan: false` option of `buildStateCommit`, and the lease push of the member's own ref.
- Secret patterns, entropy and the local-secret corpus of `lib/filter.js`: the verdict on a unit is an arbitrary
  predicate.
- BeatRunner.World.RunBeat: a foreign change to the private index is modelled as a change of foreign paths; without a
  parent (where the code runs no diff-tree) none is assumed.
- Git.AncestorAntisymmetric: a commit of the model carries the text that was cleared for it, so two commits of one tree,
  parent and time that git would give one id are told apart here when different text was cleared.
- A clone's user may change the shard file at any time, but nobody moves the state refs except beats.
- `lib/workspace-files.js` and `relay/src` are not part of this model: shard file names are distinct per member, and
  the relay answers with fair selections of everything after the cursor, as the paging walk's own comment says.
- JsonParse.ParseInvertsCanon: numbers are integers; beyond 2^53 - 1 JavaScript prints a rounded value.
- Structure.ShapedValuesPrintWhenClean: the length limits and the patterns of `validate` are not modelled.
- Invite.InviteRoundTrip: `describe` and the confirmation prompt.
- StateBranch.StagedIsVouched: the staged blob has the snapshot's lines up to a trailing carriage return; an
  attribute filter that changes more than line endings is not modelled.
- Replay.Dedupe.Accept: the shape check and the signature check, which read no memory, are one condition of the offer.
- ReplaySafety.ConsumedAtMostOnce: sittings one after another that consume within 50 minutes of opening the memory;
  what longer or overlapping ones forget is stated in `ReplayOverlap`.
- ReplayOverlap.ForgottenExactlyWhen: handles ask through the accept pipeline; turns, which store without asking, come
  one after another in `TurnMemory`.
- OfflineQueue.Queue.Drain: the queue file is read once and written back, so an enqueue by another process during the
  awaited sends is lost; the runs here are of whole operations one after another.
- MergeScans.MergeScans: member names hold no NUL, so (member, key) pairs stand for the concatenated keys; of the
  truncation report the byte, unread, size and budget fields, the author flags and the declared mismatches are left
  out.
- NtfyCursor.Fetch: decryption and the accept pipeline are an arbitrary decoder of a row, so completeness is of polled
  rows; the freshness test drops what is more than five minutes old.
- Injection.ConsumedThenWaiting: a refresh replaces the digest, so the statement is between two refreshes.
- Injection.Session.Advance: escaping an already escaped item again is taken to leave it as it is; an item without a
  sender would take its printed name for one when carried, but an accepted envelope always has a sender; a replay
  memory that cannot be written is not modelled.
- Render.RenderWithPlan: regular-expression escaping is an arbitrary function before the clamp. The knowledge block is
  separate code and not modelled.
- The Jaccard overlap score, presence labels, HTTP error classes, CLI commands, prompts and doctor checks: one-branch
  decisions or plumbing.
- ZipLayout.BuildZip: gathering and sorting the file list, the output file and its hash.
