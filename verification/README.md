# Verified model of IdleToken's protocol and planning core

IdleToken runs language models on a cluster of ordinary machines. This project models the parts of it where a
wrong step is hard to see from one function, and proves what they promise:

- the streaming SHA-256 of `include/idletoken_sha256.h`, and the HMAC built on it;
- the GGUF header reader of `scripts/measure_gguf.py` against the format it reads, its grow-and-retry fetch loops and
  its byte accounting, with the tail-block inventory of `scripts/mtp_manifest_inventory.py`;
- counter-nonce framing between nodes (`src/common/nodecrypt.c`), over many links and a hostile network;
- single-use admission tickets (`src/common/admission.c`): their text, the bounded replay table, in-flight marks, and the
  published key they are minted under;
- the layer split and the MoE Hybrid searches of `src/common/plan.c`;
- the pinnable-memory budget of `include/idletoken_resource.h`;
- three state machines of the desktop client: concurrent chat generations, serialized rebuilds, shared downloads.

## How to read it

Each module has one file. Code that updates state is a class or a method over arrays, with an `ensures` that ties it
to a function of the old state; the laws are lemmas about those functions and about runs of them.

| Area | Files |
|---|---|
| shared | `Arithmetic`, `Bytes`, `Options` |
| digest | `Sha256Spec` (FIPS 180-4), `Sha256Vector` (its example), `Sha256` (the context), `Hmac` (RFC 2104) |
| GGUF | `GgufSpec`, `GgufReader`, `GgufFormat`, `GgufAccepts`, `GgufLaws`, `GgufFetch`, `GgufLimit`, `TensorNames`, `GgufMeasure`, `GgufMeasureLaws`, `GgufOrder`, `MtpInventory` |
| framing | `NodeCrypt` (one link), `NodeNet` (many links, every run) |
| admission | `AdmissionTicket`, `AdmissionText`, `AdmissionSpelling`, `Admission`, `AdmissionAnswers`, `AdmissionRuns`, `AdmissionReplay`, `AdmissionBusy`, `AdmissionParked`, `AdmissionChannel` |
| planning | `LayerSplit`, `LayerBound`, `HybridCost`, `HybridSingle`, `HybridPrefixes`, `HybridCluster`, `HybridCharge`, `HybridBytes`, `HybridSearch`, `ResourceBudget` |
| client | `ChatState`, `ChatPage`, `ChatLive`, `ChatRows`, `ChatTranscripts`, `ChatReplies`, `ChatStore`, `RebuildQueue`, `Downloads` |

`dafny verify dfyconfig.toml` checks everything.

## Where the code and its comments part

Each of these is a lemma; the code is modelled as it is.

- `fetch_header` does not always refuse a header beyond 256 MiB: the last request depends on the first probe. The
  answer is the same for every probe exactly when the first 256 MiB settle it or the whole file does not
  (`GgufFetch.ProbeMattersOnlyBeyondLimit`); for a file that parses, exactly when its header is no longer than that
  (`GgufLimit.ProbeMattersByLength`). `GgufLimit.LongDocumentNeedsTheRightProbe` is a file that one probe size reads
  and another refuses. The two probe sizes in use do agree (`GgufFetch.LoopsAgree`).
- `expert_layer_of` and `tensor_is_moe_expert` are meant to be spelled alike. They agree on a name exactly when it
  lacks even the form `sscanf` reads, or has the plain pattern with a number below 2^32
  (`TensorNames.ProgramsAgreeExactly`). `sscanf` skips spaces and takes a sign (`SignedNameDisagrees`), and no
  `unsigned` holds a larger number (`LargeNumberDisagrees`, `Power32Disagrees`).
- The inventory refuses a tail tensor of size zero, which `measure` accepts
  (`MtpInventory.InventoryRefusesEmptyTail`, `EmptyTailExample`).
- The charset of job ids is said to be what keeps two tickets from sharing a MAC input. Their length is: whatever the
  characters, no two share one while job ids have at most 369 of them, and from 370 on some do, because the message
  is cut at 511 (`AdmissionTicket.InjectiveExactlyUpTo369`). The code allows 64.
- Tickets are meant to be single-use. Whatever the clock does, one is admitted again exactly when it is presented
  again, passes every other check, and the table holds no live entry for its nonce and has a slot that is not live
  (`AdmissionReplay.AdmittedAgainIff`, `SingleUseIff`). Two runs do this: a ticket that expires at second 0 is never
  remembered (`ZeroExpiryIsNeverRemembered`), and a clock that goes back past an expiry finds the entry gone
  (`ClockGoingBackReplays`). With a clock that does not go back and positive expiries no run does
  (`AdmissionRuns.TicketsAreSingleUse`).
- An admitted job is meant to be counted as in flight until it ends. The answer of `platform_busy` stays the number of
  running jobs, whenever it is asked, through exactly the steps whose guard `AdmissionBusy.Keeps` states
  (`AdmissionBusy.StepKeepsIff`, `RunRightIff`): a consumption must find a free slot, `request_end` must clear the mark
  of the job that ends with it and no other, no job may end without it, and healing must find no job late. It is enough
  that a thread ends each job with `request_end` before it consumes again, that no job runs for more than 900 s, and
  that no more jobs run at once than there are slots (`DisciplineSuffices`). On a full table a job is admitted without
  a mark, and the machine looks idle while it runs (`AdmissionParked.FullTableHidesAJob`, `SixtyFifthJobIsMissed`). A
  request that ends late clears the mark of a younger one (`LateEndMissesAnother`).
- The coordinator's loop leaves the marks of parked jobs behind, on the ground that this can only count too many until
  the mark is stale. No running job is missed through exactly the steps whose guard `AdmissionParked.Covers` states
  (`CoverStepIff`, `RunCoveredIff`). The loop breaks it: the thread still remembers the parked job's slot, and if the
  next request it serves was not admitted, the `request_end` after it clears that mark (`ParkedJobIsMissed`,
  `EndHidesIff`). It would be enough that a thread that holds a mark calls `request_end` only for the last job it
  consumed (`PromptNeverMisses`).
- A coordinator start is meant to leave the key of a serving one in the channel file alone. In every run whose lock file
  opens it does (`AdmissionChannel.OwnerStaysPublished`). The key goes exactly at a start that cannot open the lock and
  writes all the same, or at a repair by another coordinator (`PublishedIff`, `RunPublishedIff`); two that repair
  overwrite each other for good (`RestIff`, `UnopenedLockStrandsTheOwner`).
- Boundary nudging can move a stage by more than the k - 1 layers its comment allows: exactly when its two boundaries
  move in opposite directions with their remainders so ordered that the moves make k or more
  (`LayerBound.StageBeyondBoundIff`, `PlannedBoundIff`). `LayerBound.PlannedStageBeyondBound` is an input of the
  planner where it does; k - 1 + k / 2 is what always holds (`LayerSplit.StageMovesAtMost`).
- History is meant to be at most two seconds old on disk. A write that the storage refuses is remembered as a write and
  is not retried. The bound survives a step exactly when it is not a failed write with something to save: any unsaved
  change for the timer's write, one made before that moment for a write on leaving (`ChatStore.BoundSurvivesIff`).
- `stop`'s clear without a request id can drop the row of a generation that is still starting; a second one is then
  let in and the first one's words land in its reply (`ChatReplies.FallbackMixesReplies`). That step, and no other,
  breaks the rule of one writer per conversation (`ChatLive.OneWriterStep`).
- A generation whose listener cannot be installed is never rejected, so it never ends and blocks its conversation until
  that same clear (`ChatLive.WaitsStep`, `UnreleasedBlocks`).
- `startDownload` awaits the default directory outside its `try`. If that fails, the file's entry stays for ever and
  every later request is answered with the failed task (`Downloads.StaleExactlyWhenRefused`, `RefusedForGood`).

## Model

| member | source | states |
|---|---|---|
| `Sha256Spec.KIsCubeRootFraction` | include/idletoken_sha256.h:31-40 | Every round constant is the first 32 bits of the fractional part of the cube root of its prime |
| `Sha256Spec.HIsSquareRootFraction` | include/idletoken_sha256.h:43-44 | Every initial word is the first 32 bits of the fractional part of the square root of its prime |
| `Sha256Spec.ZeroBytesIsSmallest` | include/idletoken_sha256.h:88 | The number of zero bytes is the least that completes a block with the 0x80 byte and the length field |
| `Sha256Spec.BytesOfRoundTrip` | include/idletoken_sha256.h:51 | Splitting a word into four bytes and joining them big-endian gives the word back |
| `Sha256Vector.DigestOfAbc` | include/idletoken_sha256.h:28-105 | The digest of "abc" is the standard's example value, round by round, which fixes every rotation, function, constant and byte order |
| `Sha256.ExtendSchedule` | include/idletoken_sha256.h:53-55 | The shift-or schedule step is the standard's schedule recurrence |
| `Sha256.FirstTemporary` | include/idletoken_sha256.h:59-61 | The first temporary of a round is the standard's T1 |
| `Sha256.SecondTemporary` | include/idletoken_sha256.h:62-64 | The second temporary of a round is the standard's T2 |
| `Sha256.StepRegisters` | include/idletoken_sha256.h:59-65 | One turn of the register rotation is one round of section 6.2.2 |
| `Sha256.FillSchedule` | include/idletoken_sha256.h:49-56 | The 64-word array holds the recursive message schedule of the block |
| `Sha256.RunRounds` | include/idletoken_sha256.h:57-66 | The 64-turn loop computes the recursive compression of the schedule |
| `Sha256.Context.constructor` | include/idletoken_sha256.h:42-46 | A fresh context has absorbed nothing: the hash is the initial one and the buffer is empty |
| `Sha256.Context.AddBack` | include/idletoken_sha256.h:67-68 | The eight words are added back modulo 2^32, each to its own |
| `Sha256.Context.BlockInPlace` | include/idletoken_sha256.h:48-69 | For every state and block the in-place function is one compression step of section 6.2.2 |
| `Sha256.Context.Append` | include/idletoken_sha256.h:77-78 | A chunk that fits extends the buffered tail and changes nothing else |
| `Sha256.Context.Drain` | include/idletoken_sha256.h:79 | A full buffer becomes one absorbed block, a partial one stays |
| `Sha256.Context.Feed` | include/idletoken_sha256.h:75-79 | One turn of the chunking loop appends its bytes to the message and keeps the hash the fold over complete blocks |
| `Sha256.Context.FeedAll` | include/idletoken_sha256.h:74-80 | The chunking loop appends all the data, however it crosses block boundaries |
| `Sha256.Context.Update` | include/idletoken_sha256.h:71-81 | Updating appends the data to the message and advances the byte count modulo 2^64 |
| `Sha256.Context.PadZeros` | include/idletoken_sha256.h:88 | The padding loop stops, at exactly the least number of zero bytes |
| `Sha256.Context.LengthField` | include/idletoken_sha256.h:89-90 | The length field is the bit count in eight big-endian bytes |
| `Sha256.Context.Store` | include/idletoken_sha256.h:92-97 | The output is the eight words, big-endian, in order |
| `Sha256.Context.Final` | include/idletoken_sha256.h:83-98 | Whatever was fed, the output is the hash of the message padded with the pre-padding bit count |
| `Sha256.StreamDigestIsDigest` | include/idletoken_sha256.h:84 | Below 2^61 bytes the wrapped bit count is the true one and the result is the FIPS 180-4 digest |
| `Sha256.HashPieces` | include/idletoken_sha256.h:42-98 | For every way of cutting a message into update calls the digest is that of the whole message |
| `Sha256.OneShot` | include/idletoken_sha256.h:100-105 | The one-shot form computes the same function |
| `Hmac.AdmHmac` | src/common/admission.c:177-203 | For every key length and message the streaming construction is RFC 2104's HMAC over the digest |
| `Hmac.HmacIs` | src/common/admission.c:177-203 | For a key of at most 64 bytes the inner and outer blocks are its bytes and zeros, xor 0x36 and xor 0x5c |
| `Hmac.LongKey` | src/common/admission.c:177-203 | A key of more than 64 bytes stands for its digest |
| `GgufLaws.ElementsEqualBulk` | scripts/measure_gguf.py:87-91 | Skipping a fixed-size array in bulk and element by element end at the same cursor or both run short |
| `GgufLaws.SkipAgreesWithRead` | scripts/measure_gguf.py:80-122 | For every type, buffer, cursor and cap the two walkers end at the same cursor or fail with the same error |
| `GgufLaws.SkipManyAgreesWithRead` | scripts/measure_gguf.py:90-120 | The same for the elements of a nested array, whatever part of it is kept |
| `GgufLaws.ReadManyKeeps` | scripts/measure_gguf.py:116-121 | What is kept of an array is as many of its first elements as there is room for |
| `GgufLaws.KeysAgree` | scripts/measure_gguf.py:168-180 | The key loop moves the cursor and the alignment alike with and without keep_kv |
| `GgufLaws.KeepKvIrrelevant` | scripts/measure_gguf.py:155-189 | The tensors and data_start of a header, or its error, do not depend on keep_kv |
| `GgufLaws.PrefixStability` | scripts/measure_gguf.py:155-189 | On any prefix the parse runs short or gives the very header or error of the whole |
| `GgufLaws.SkipStable` | scripts/measure_gguf.py:80-93 | A skip over a prefix runs short or ends as over the whole |
| `GgufLaws.ReadStable` | scripts/measure_gguf.py:95-122 | A read over a prefix runs short or gives the whole's value |
| `GgufLaws.KeysStable` | scripts/measure_gguf.py:168-180 | The key loop over a prefix runs short or ends as over the whole |
| `GgufLaws.TensorsStable` | scripts/measure_gguf.py:182-187 | The tensor loop over a prefix runs short or gives the whole's directory |
| `GgufLaws.FixedSizeIsFormatSize` | scripts/measure_gguf.py:50-52 | The size table and the struct formats agree on every fixed-size type |
| `GgufFormat.ReadsItem` | scripts/measure_gguf.py:95-122 | Any well-formed value, arrays within arrays included, reads back as itself, cut to the cap as documented |
| `GgufFormat.ReadsEntry` | scripts/measure_gguf.py:169-180 | A written key reads back, with the alignment taken from its own key |
| `GgufFormat.ReadsTensor` | scripts/measure_gguf.py:183-187 | A written tensor entry reads back with its name, dimensions and offset |
| `GgufFormat.WrittenReadsBack` | scripts/measure_gguf.py:155-189 | From any file that begins with a written header the parser gives back its tensors and metadata in both modes, and as data start the least multiple of the alignment at or after its end |
| `GgufSpec.AlignUp` | scripts/measure_gguf.py:188 | The data start is the least multiple of the alignment at or after the end of the header |
| `GgufAccepts.AcceptsIff` | scripts/measure_gguf.py:155-189 | A file parses if and only if it begins with a written header of non-zero alignment, and fails on the alignment if and only if with one of zero |
| `GgufAccepts.BadMagicIff` | scripts/measure_gguf.py:161-163 | A file is refused for its magic if and only if it has four bytes and they are not GGUF |
| `GgufAccepts.RefusedEntry` | scripts/measure_gguf.py:169-180 | After any sound keys, an alignment that is not a UINT32 and an unknown type are each refused by name |
| `GgufReader.Reader.constructor` | scripts/measure_gguf.py:61-62 | A reader starts at the front of its buffer |
| `GgufReader.Reader.Take` | scripts/measure_gguf.py:64-69 | Taking n bytes returns them and advances by n, or raises and stays |
| `GgufReader.Reader.U32` | scripts/measure_gguf.py:71-72 | Four bytes, little-endian |
| `GgufReader.Reader.U64` | scripts/measure_gguf.py:74-75 | Eight bytes, little-endian |
| `GgufReader.Reader.Text` | scripts/measure_gguf.py:77-78 | A length and that many bytes |
| `GgufReader.Reader.SkipValue` | scripts/measure_gguf.py:80-93 | The cursor form of the skipping walk, with at most one take per byte passed |
| `GgufReader.Reader.SkipElements` | scripts/measure_gguf.py:90-91 | Its element loop, for any claimed count |
| `GgufReader.Reader.ReadValue` | scripts/measure_gguf.py:95-122 | The cursor form of the reading walk, with at most one take per byte passed |
| `GgufReader.Reader.ReadElements` | scripts/measure_gguf.py:116-121 | Its element loop, truncated to the cap |
| `GgufReader.ParseKey` | scripts/measure_gguf.py:169-180 | One key: the alignment is read and checked, other values are kept or skipped |
| `GgufReader.ParseTensor` | scripts/measure_gguf.py:183-187 | One tensor entry |
| `GgufReader.ParseHeader` | scripts/measure_gguf.py:155-189 | The parser is the parse function, and takes at most one slice per byte plus one, whatever counts the file claims |
| `GgufFetch.FetchHeader` | scripts/measure_gguf.py:192-209 | The doubling loop ends for every positive first probe and gives the verdict of its last request |
| `GgufFetch.FetchForInventory` | scripts/mtp_manifest_inventory.py:37-73 | The inventory's loop gives the verdict of the same last request, though it tests the limit first |
| `GgufFetch.VerdictSettles` | scripts/measure_gguf.py:203-206 | A probe that does not run short answers as every longer one |
| `GgufFetch.AnswerIndependentOfProbe` | scripts/measure_gguf.py:192-209 | Two first probes that both get an answer get the same one |
| `GgufFetch.ProbeMattersOnlyBeyondLimit` | scripts/measure_gguf.py:207-209 | The first probe is irrelevant if and only if the first 256 MiB settle the header or the whole file does not |
| `GgufLimit.SettledByLength` | scripts/measure_gguf.py:203-206 | A probe settles a file that parses if and only if it reaches to the end of the header |
| `GgufLimit.ProbeMattersByLength` | scripts/measure_gguf.py:207-209 | For a file that parses the first probe is irrelevant if and only if the header ends within 256 MiB |
| `GgufLimit.WrittenHeaderLimit` | scripts/measure_gguf.py:192-209 | Every well-formed header longer than 256 MiB, and no shorter one, is read from some first probes only |
| `GgufLimit.LongDocumentNeedsTheRightProbe` | scripts/measure_gguf.py:207-209 | One concrete file of that kind is too large for one first probe and parsed from another |
| `GgufFetch.PowerOfTwoProbe` | scripts/measure_gguf.py:209 | A probe that doubles into the limit ends at the limit |
| `GgufFetch.LoopsAgree` | scripts/mtp_manifest_inventory.py:37-62 | From its two probe sizes the inventory's fetch answers as fetch_header does at 256 MiB |
| `TensorNames.ExpertLayerIffPattern` | scripts/measure_gguf.py:215-237 | A name is charged to block n if and only if it matches blk.N.ffn_(up,down,gate_up,gate)_(ch)exps with N = n |
| `TensorNames.CExpertIffScanned` | src/common/modelsize.c:239-266 | The C program calls a name an expert if and only if it is blk., white space, an optional sign, digits, .ffn_ and a root and suffix |
| `TensorNames.ProgramsAgreeExactly` | src/common/modelsize.c:239-266 | The C and the Python test agree on a name if and only if it lacks that scanned form or has the plain pattern with a number below 2^32 |
| `TensorNames.LargeNumberDisagrees` | src/common/modelsize.c:242 | A block number of 2^32 or more is never read alike by the two |
| `TensorNames.Power32Disagrees` | src/common/modelsize.c:242 | Block 4294967296 is an expert's block to the Python program and not to the C one |
| `TensorNames.SignedNameDisagrees` | src/common/modelsize.c:242 | A name with a signed block number is an expert to one program only |
| `GgufMeasure.SortIsStable` | scripts/measure_gguf.py:248 | The directory is a permutation sorted by offset that keeps the order of equal offsets |
| `GgufMeasure.SortedIsUnique` | scripts/measure_gguf.py:248 | With distinct offsets the sorted directory is the only one |
| `GgufMeasure.MeasureTensors` | scripts/measure_gguf.py:248-287 | The accounting loop computes the measurement of the sorted directory, or refuses where it does |
| `GgufMeasure.MeasureFile` | scripts/measure_gguf.py:240-287 | The same from the bytes of a file |
| `GgufMeasureLaws.AccountSplits` | scripts/measure_gguf.py:257-269 | Layer bytes and shared bytes are the interval sums of block and other tensors |
| `GgufMeasureLaws.AccountExperts` | scripts/measure_gguf.py:259-261 | Each block's expert bytes are the interval sum of its expert tensors |
| `GgufMeasureLaws.AccountLargest` | scripts/measure_gguf.py:267 | The largest expert tensor bounds them all and is one of them |
| `GgufMeasureLaws.SumsTelescope` | scripts/measure_gguf.py:253-254 | All intervals together span from the smallest offset to the end |
| `GgufMeasureLaws.MeasureSucceedsIff` | scripts/measure_gguf.py:252-287 | Measuring succeeds if and only if the directory is empty or its smallest offset is 0 and its largest inside the file |
| `GgufMeasureLaws.Conservation` | scripts/measure_gguf.py:282-287 | Layer, shared and header bytes add up to the file, and expert bytes to at most the layer bytes |
| `GgufMeasureLaws.IntervalsTile` | scripts/measure_gguf.py:253-254 | Every byte of the data section lies in exactly one tensor's interval, and no other byte does |
| `GgufMeasureLaws.OrderIrrelevant` | scripts/measure_gguf.py:248-287 | With distinct offsets the result does not depend on the order of the directory |
| `GgufOrder.OrderIrrelevantIff` | scripts/measure_gguf.py:248-287 | For any directory every order measures alike if and only if measuring fails or all tensors that share an offset before the end of the data are counted alike |
| `GgufOrder.SortSwapped` | scripts/measure_gguf.py:248 | Of two tensors at one offset the one later in the directory comes out later, and gets the bytes |
| `MtpInventory.BlockIndexIff` | scripts/mtp_manifest_inventory.py:111-112 | A name has block number n if and only if it begins with blk., digits that read n, and a dot |
| `MtpInventory.InTailIff` | scripts/mtp_manifest_inventory.py:111-112 | A tensor is counted if and only if its name has that form with a number of at least the first tail block |
| `MtpInventory.TailOfPart` | scripts/mtp_manifest_inventory.py:108-116 | One shard's loop adds the intervals of tensors at or above the first tail block, or refuses the first empty one |
| `MtpInventory.InventoryTail` | scripts/mtp_manifest_inventory.py:105-116 | The shard loop adds up the shards' tails, or refuses if any has an empty one |
| `MtpInventory.TailWithinLayer` | scripts/mtp_manifest_inventory.py:111-116 | A measured shard's tail bytes are at most its layer bytes |
| `MtpInventory.TailAtMostLayers` | scripts/mtp_manifest_inventory.py:105-116 | Over measured shards the tail total is at most the summed layer bytes |
| `MtpInventory.InventoryRefusesEmptyTail` | scripts/mtp_manifest_inventory.py:114-115 | A measured shard is refused if and only if a tail tensor of it is empty |
| `MtpInventory.EmptyTailExample` | scripts/mtp_manifest_inventory.py:114-115 | A shard that measure accepts and the inventory refuses |
| `NodeCrypt.BuildNonce` | src/common/nodecrypt.c:15-24 | The 24 bytes are the tag, both ids, ten zeros and the counter, big-endian |
| `NodeCrypt.PutU64` | src/common/nodecrypt.c:26-28 | Eight bytes, big-endian |
| `NodeCrypt.GetU64` | src/common/nodecrypt.c:30-34 | The number those bytes stand for |
| `NodeCrypt.CounterRoundTrip` | src/common/nodecrypt.c:26-34 | A 64-bit counter survives the header |
| `NodeCrypt.NonceInjective` | include/idletoken_nodecrypt.h:18-30 | Equal nonces have equal sender, receiver and counter |
| `NodeCrypt.NonceLayout` | include/idletoken_nodecrypt.h:18-30 | The nonce spells ITNC, then both ids, ten zeros and the counter big-endian |
| `NodeCrypt.WrapAnswers` | src/common/nodecrypt.c:72-91 | A frame of 24 bytes more is made if and only if the link is ready and the buffer holds it; else nothing changes |
| `NodeCrypt.UnwrapAnswers` | src/common/nodecrypt.c:93-116 | Each answer exactly: too short or not ready, at or below the mark, not sealed for this counter, or the plaintext |
| `NodeCrypt.NodeCrypt.Init` | src/common/nodecrypt.c:51-64 | A link starts at counter 1 with nothing accepted, ready only with a key |
| `NodeCrypt.NodeCrypt.Clear` | src/common/nodecrypt.c:66-70 | Clearing leaves no key, no counters and a link that is not ready |
| `NodeCrypt.NodeCrypt.Wrap` | src/common/nodecrypt.c:72-91 | Wrapping seals under the next counter and advances it, or refuses and changes nothing |
| `NodeCrypt.NodeCrypt.Unwrap` | src/common/nodecrypt.c:93-116 | Only a frame above the high-water mark that opens moves it; every failure leaves the link untouched |
| `NodeCrypt.WrapThenUnwrap` | include/idletoken_nodecrypt.h:96-107 | A wrapped frame comes back as its plaintext at the peer, and a second delivery is refused as a replay |
| `NodeNet.StepInv` | include/idletoken_nodecrypt.h:9-30 | Sending, any delivery by the network and a new formation all keep the invariant of every link |
| `NodeNet.AcceptedWasSent` | src/common/nodecrypt.c:99-113 | An accepted frame is the one this peer sent for this link under that counter |
| `NodeNet.AcceptedIsSubsequenceOfSent` | include/idletoken_nodecrypt.h:9-30 | In every run what a node accepts on a link is an in-order, duplicate-free part of what that peer wrapped for it |
| `NodeNet.DeliveryIff` | src/common/nodecrypt.c:93-116 | In every run a delivery changes anything if and only if it is a frame of the peer newer than all accepted ones that fits, and then it is accepted as what was sent |
| `NodeNet.NoneLockedOut` | include/idletoken_nodecrypt.h:9-30 | In every run a sent frame can be delivered if and only if neither it nor a later one was accepted and its counter is not 0 again; nothing forged keeps it out |
| `NodeNet.NoncesNeverReused` | include/idletoken_nodecrypt.h:18-27 | In every run equal nonces under one key, of this formation or any before, belong to one frame |
| `NodeNet.CountersRepeatExactlyBeyondBound` | src/common/nodecrypt.c:72-91 | A link that wraps frame after frame uses a counter twice if and only if it carries more than 2^64 frames |
| `NodeNet.SameKeyReusesNonce` | src/common/nodecrypt.c:36-49 | A second formation under an old key seals two plaintexts under one nonce |
| `AdmissionTicket.PrintedInjective` | src/common/admission.c:226-229 | Equal printed messages have equal job, expiry, nonce and body, whatever the characters of the job id |
| `AdmissionTicket.MacInputInjective` | src/common/admission.c:223-233 | The same for the messages as signed, cut at 511 bytes, while job id and printed expiry have at most 389 characters together |
| `AdmissionTicket.CutLosesDigit` | src/common/admission.c:230-231 | Beyond that the last digit of the body hash is not signed |
| `AdmissionTicket.InjectiveExactlyUpTo369` | src/common/admission.c:209-251 | No two tickets share a signed message if and only if job ids are held to 369 characters |
| `AdmissionTicket.SignedInjective` | src/common/admission.c:227-229 | Printed numbers are distinct |
| `AdmissionTicket.SignedPart` | src/common/admission.c:226-232 | What is signed is the printed message up to its 511th character |
| `AdmissionTicket.JobOkIff` | src/common/admission.c:239-251 | A job id is valid if and only if it has 1 to 64 letters, digits, underscores, dashes and colons |
| `AdmissionTicket.HexValueIs` | src/common/admission.c:127-132 | The hex digits of either case, and their values |
| `AdmissionTicket.UnhexIs` | src/common/admission.c:136-150 | Hex strings of one length stand for one number if and only if their digits have equal values |
| `AdmissionText.PrintedReadsBack` | src/common/admission.c:665-672 | A printed ticket parses to the fields it was printed from, and fits the 256-byte buffer |
| `AdmissionText.ParsedIsSpelled` | src/common/admission.c:734-781 | Whatever parses has a valid job, expiry range, nonce, body hash and MAC, and is these fields in order |
| `AdmissionText.TextIsPrintedFormIff` | src/common/admission.c:748-756 | A text that parses is the printed one if and only if it spells the expiry as printed |
| `AdmissionText.MalformedIff` | src/common/admission.c:734-781 | Consuming a text answers "malformed" if and only if it does not parse |
| `AdmissionText.AbsentIff` | src/common/admission.c:726 | Only an empty text counts as no ticket |
| `AdmissionSpelling.ParseLongIff` | src/common/admission.c:748-756 | An expiry reads as v if and only if it is white space, at most one sign and digits that stand for v, held to 64 bits |
| `AdmissionSpelling.ParsesIff` | src/common/admission.c:734-781 | A text parses as those fields if and only if it is the prefix and the five fields between dots, with the expiry so spelled in at most 23 characters |
| `AdmissionText.PrintedIsPresented` | src/common/admission.c:665-672 | A minted ticket, printed and presented, is that ticket again |
| `Admission.Admission.constructor` | src/common/admission.c:84-92 | A process starts unarmed with empty tables |
| `Admission.Admission.Init` | src/common/admission.c:369-430 | Arming clears both tables, installs a fresh key, keeps a local marker that is on disk, and publishes the key unless another coordinator owns the channel |
| `Admission.MarkerSurvives` | src/common/admission.c:387-408 | A marker on disk is kept and not rewritten, a fresh one is written where there is a path; publishing and success by the claim and the writes |
| `Admission.Admission.Mint` | src/common/admission.c:625-673 | A valid job gets a ticket with the TTL, tagged over its own fields; anything else is refused |
| `Admission.Admission.SpendNonce` | src/common/admission.c:679-693 | One walk of the table does what the specification says: seen, recorded in the first free slot, or full |
| `Admission.Admission.InflightTake` | src/common/admission.c:696-708 | The first free or stale mark is taken, stale ones before it are healed |
| `Admission.Admission.Consume` | src/common/admission.c:710-824 | Each outcome has its own code in the source's order, and only a recorded nonce admits |
| `Admission.Admission.RequestEnd` | src/common/admission.c:826-833 | The thread's own mark is cleared, and nothing else |
| `Admission.Admission.PlatformBusy` | src/common/admission.c:835-848 | The number of marks left after healing the stale ones |
| `Admission.SpendSeen` | src/common/admission.c:687 | A live entry with the nonce makes the spend refuse, wherever free slots are |
| `Admission.SpendNew` | src/common/admission.c:689-692 | Without one the nonce is recorded if a slot is free, and refused as full if every entry is live |
| `AdmissionAnswers.ParsedAnswer` | src/common/admission.c:783-823 | Bad MAC, expired, other body, replayed, no room and OK, each if and only if that check on the ticket and the table's entries is the first to fail |
| `AdmissionAnswers.UnparsedAnswer` | src/common/admission.c:726-781 | Absent, not armed and malformed, each exactly |
| `AdmissionAnswers.OneCounterMoves` | src/common/admission.c:806-823 | An admission counts as consumed, every other answer about a ticket as rejected, and nothing else counts |
| `AdmissionAnswers.ForgedIff` | src/common/admission.c:783-791 | In every state a run can reach a well-formed ticket is answered "bad MAC" if and only if it was not issued under this key |
| `AdmissionAnswers.IssuedAnswer` | include/idletoken_admission.h:88-109 | An issued ticket is expired, for another body, replayed, without room or admitted, each if and only if the clock, the body and the table say so |
| `AdmissionAnswers.AdmittedIsReplayed` | include/idletoken_admission.h:207-226 | In every run whose clock does not go back an admitted ticket that comes again is answered "replayed" until it expires, "expired" from then on |
| `AdmissionAnswers.FullTableAnswers` | src/common/admission.c:689 | A table full of live entries answers a new ticket "no room", and admits nothing |
| `AdmissionRuns.SpendKeeps` | src/common/admission.c:683-692 | A spend forgets no entry that has not expired |
| `AdmissionRuns.SpendRecords` | src/common/admission.c:690-692 | A recorded nonce is in the table with its expiry |
| `AdmissionRuns.VerifiedWasIssued` | src/common/admission.c:783-804 | A ticket that passes was minted under this key for this body and has not expired |
| `AdmissionRuns.StepInv` | src/common/admission.c:369-824 | Mint, consume and restart keep: every admitted ticket was issued, and is remembered until it expires |
| `AdmissionRuns.TicketsAreSingleUse` | include/idletoken_admission.h:207-226 | In every run whose clock does not go back and whose expiries are positive each ticket is admitted at most once, only for its body, only before it expires |
| `AdmissionReplay.RecordedIff` | src/common/admission.c:679-693 | A spend records if and only if no entry for the nonce is live and some slot is not |
| `AdmissionReplay.AdmittedAgainIff` | src/common/admission.c:806-812 | An admitted ticket that passes every other check is admitted again if and only if the table has forgotten it and has room |
| `AdmissionReplay.SingleUseIff` | src/common/admission.c:710-824 | In every run, under any clock, single use fails if and only if such a ticket is presented where the table has forgotten it |
| `AdmissionReplay.ZeroExpiryIsNeverRemembered` | src/common/admission.c:81 | A run: a ticket that expires at 0 is minted and admitted twice |
| `AdmissionReplay.ClockGoingBackReplays` | src/common/admission.c:685 | A run: a ticket is admitted, another spend at or after its expiry frees its entry, the clock goes back, it is admitted again |
| `AdmissionBusy.ConsumeIsTake` | src/common/admission.c:814-822 | What consuming a ticket does to the marks is this module's step: it takes one if the ticket is admitted, else nothing changes |
| `AdmissionBusy.RequestEndIsEnd` | src/common/admission.c:826-833 | And what the end of a request does is its step |
| `AdmissionBusy.RightIff` | src/common/admission.c:835-848 | The answer is right at every time if and only if the marks bear exactly the times of the running jobs |
| `AdmissionBusy.StepKeepsIff` | src/common/admission.c:696-848 | A step keeps the answer, at every time, the number of running jobs at most 900 s old if and only if its guard holds |
| `AdmissionBusy.RunRightIff` | src/common/admission.c:696-848 | In every run the answers have been right all along if and only if every step kept its guard |
| `AdmissionBusy.BusyIffRunning` | include/idletoken_admission.h:229-240 | In such a run the machine is busy if and only if a job runs that was admitted at most 900 s ago |
| `AdmissionBusy.DisciplineSuffices` | include/idletoken_admission.h:217-240 | In every run of threads that end each job before the next, in time and with no more jobs than slots, the answer is the number of running jobs |
| `AdmissionParked.CoverStepIff` | src/coord/coord_main.c:11697-11711 | A step leaves every running job a mark of its own if and only if its guard holds, whatever marks are left behind |
| `AdmissionParked.RunCoveredIff` | src/coord/coord_main.c:11697-11711 | In every run each running job has had its mark all along if and only if every step kept that guard |
| `AdmissionParked.CoveredIsCounted` | src/coord/coord_main.c:11700-11706 | Then at least the running jobs that are not late are counted |
| `AdmissionParked.PromptNeverMisses` | src/coord/coord_main.c:11700-11706 | In every run where request_end is called on a marked thread only for its last job, slots are found and jobs end in time, the machine is busy while any job runs |
| `AdmissionParked.EndHidesIff` | src/common/admission.c:826-833 | Ending one request takes another running job's mark if and only if the thread remembers that job's slot |
| `AdmissionParked.ParkedJobIsMissed` | src/coord/coord_main.c:11697-11709 | A run: a job is parked, its thread serves a request that was not admitted, and the machine looks idle while the job runs |
| `AdmissionParked.LateEndMissesAnother` | src/common/admission.c:831 | A run: a request that ends after 900 s clears the mark of a younger job |
| `AdmissionParked.FullTableHidesAJob` | src/common/admission.c:696-708 | A run, disciplined but for the room: one job more than slots, then all others end, and the machine looks idle while it runs |
| `AdmissionParked.SixtyFifthJobIsMissed` | src/common/admission.c:77 | The same with the table's 64 slots |
| `AdmissionChannel.PublishedIff` | src/common/admission.c:408-428 | A step takes a serving coordinator's key out of the file if and only if it is another's start without the lock or another's repair, and writes |
| `AdmissionChannel.RunPublishedIff` | src/common/admission.c:257-300 | In every run the owner's key has stayed published if and only if no step was one |
| `AdmissionChannel.OwnerStaysPublished` | src/common/admission.c:257-300 | In every run whose lock file opens, the key in the file is that of the coordinator that owns the channel |
| `AdmissionChannel.VerifiesIff` | src/common/admission.c:783-791 | A ticket minted under the agent's key fails to verify if and only if that is not the coordinator's key |
| `AdmissionChannel.OneRefusalHeals` | src/common/admission.c:509-563 | One refusal, its repair and a re-read bring the agent to the key of the coordinator that refused |
| `AdmissionChannel.RestIff` | src/common/admission.c:540-563 | Repairs can come to rest if and only if at most one coordinator makes them |
| `AdmissionChannel.UnopenedLockStrandsTheOwner` | src/common/admission.c:295-297 | A run: a start that cannot open the lock overwrites the owner's key, and the two never come to rest |
| `LayerSplit.CapIff` | src/common/plan.c:165-178 | q layers are within a node's cap if and only if they, the shared part and the overhead fit its memory, for q of two or more |
| `LayerSplit.ShareIs` | src/common/plan.c:186-196 | A share is the proportional one rounded down, or one layer where that is less |
| `LayerSplit.SplitProportionally` | src/common/plan.c:186-216 | The first two passes hand out exactly the layers, at least one each, by rounds from the front or back from the rear |
| `LayerSplit.HandOut` | src/common/plan.c:198-204 | Remainders go out one a node from the front until the total is met |
| `LayerSplit.ClawBack` | src/common/plan.c:205-216 | Overshoot comes back one a node from the rear, nobody below one, until the total is met |
| `LayerSplit.Repair` | src/common/plan.c:232-245 | The repair moves excess to the first nodes with room and keeps the total; afterwards nobody is over a cap or nobody is under one |
| `LayerSplit.RepairFitsIff` | src/common/plan.c:218-245 | The caps are kept if and only if together they can hold the layers |
| `LayerSplit.NudgeBoundaries` | src/common/plan.c:253-271 | The nudging loop computes its specification |
| `LayerSplit.NudgedKeeps` | src/common/plan.c:247-271 | Nudging keeps the total, the one-layer floor and the caps |
| `LayerSplit.BoundariesSnap` | src/common/plan.c:247-271 | Each boundary ends aligned or where it was, an aligned one never moves, and none moves by k or more |
| `LayerSplit.StageMovesAtMost` | src/common/plan.c:251-252 | A stage changes by at most k - 1 + k / 2 |
| `LayerBound.NudgedStages` | src/common/plan.c:253-271 | Where every boundary ends can be read off the split, the caps and the remainders before the pass |
| `LayerBound.StageBeyondBoundIff` | src/common/plan.c:247-271 | A stage changes by more than k - 1 if and only if its boundaries move apart, or together, with remainders so ordered that the moves make k or more |
| `LayerBound.PlannedBoundIff` | src/common/plan.c:180-273 | What the planner returns is within the comment's bound of the repaired split if and only if no stage is so placed |
| `LayerBound.PlannedStageBeyondBound` | src/common/plan.c:251-252 | An input of the planner on which a stage changes by 7 where k - 1 is 5 |
| `LayerSplit.PlanLayers` | src/common/plan.c:180-273 | Fails exactly for no nodes or more nodes than layers; else every node gets a layer and the counts sum to the layers; where the caps can hold them every node with more than one layer holds its layers, the shared part and the overhead in its memory; and the split is the three passes one after the other, the first alone beyond 64 nodes |
| `HybridCost.SatMulByDivision` | src/common/plan.c:390-392 | The overflow test by division saturates exactly the products beyond 64 bits |
| `HybridCost.SatAdd` | src/common/plan.c:386-388 | The sum, or the maximum where it would overflow |
| `HybridCost.TargetIs` | src/common/plan.c:853-876 | The strict target is the larger of two routes and a third of the experts rounded up, and no more than all of them |
| `HybridCost.ConsistentBudget` | src/common/plan.c:887-925 | A table that passes the check has a budget for every range of its layers, so the plan is never dropped at the end |
| `HybridCost.SpillMonotone` | src/common/plan.c:1141 | A longer prefix spills no less |
| `HybridCost.GateMonotone` | src/common/plan.c:1392-1395 | More cache slots only tighten a gate |
| `HybridCost.GpuOfEqualSpill` | src/common/plan.c:1167-1169 | Among prefixes of equal spill a longer one needs no less GPU memory |
| `HybridSingle.ScanPrefixes` | src/common/plan.c:1650-1677 | The scan keeps the most slots and then the shortest prefix over all prefixes, and is empty only when none passes both gates |
| `HybridSingle.SlotsAreLargestAdmitted` | src/common/plan.c:1664-1669 | A prefix admits a cache if and only if it passes both gates and the cache is no larger than the slots it is given, or it spills nothing, or the VRAM is the 64-bit maximum |
| `HybridSingle.ChoiceIsDocumented` | include/idletoken_plan.h:397-407 | The chosen cache is the largest any prefix admits, its prefix the shortest that admits it, and with none the shortest that passes both gates |
| `HybridPrefixes.LongerNeedsNoMore` | src/common/plan.c:1650-1660 | For a model that needs at least its experts, a longer prefix never needs more GPU memory once something is spilled |
| `HybridPrefixes.PassingIsOneRun` | src/common/plan.c:1650-1663 | So without a cache nothing between two passing prefixes fails |
| `HybridPrefixes.AdmittedPrefixesHaveGaps` | src/common/plan.c:1664-1669 | With a cache it can: a prefix admits two slots, a longer one does not, a longer one does again |
| `HybridCluster.MulDivCeilExact` | src/common/plan.c:796-803 | The KV share is the exact product divided and rounded up, and never saturates |
| `HybridCluster.PriceIsCheapest` | src/common/plan.c:1123-1174 | An owner's greedy prefix spills least, and needs least GPU memory among equal spills |
| `HybridCluster.PlacesIsTiling` | src/common/plan.c:936-940 | A placement is ranges that start at 0, meet, end at the last layer, and each fit their own owner |
| `HybridCluster.FitsIff` | src/common/plan.c:961-972 | A share is valid if and only if its gate holds and, if anything is spilled, the machine is a discrete CUDA one whose RAM, and pinnable ceiling where measured, hold it beside the draft's workspace |
| `HybridCluster.BestAttained` | src/common/plan.c:1177-1187 | A table cell that is not empty stands for a valid placement of exactly its cost |
| `HybridCluster.BestIsMinimal` | src/common/plan.c:1177-1187 | No valid placement has less RAM, or equal RAM and a lower GPU peak, than its cell |
| `HybridCluster.RamWithinExperts` | src/common/plan.c:1177 | No placement moves more than the model's expert bytes |
| `HybridCluster.FewerSlotsStillFit` | src/common/plan.c:1392-1395 | A placement with room for t slots is valid with fewer, at the same cost |
| `HybridBytes.GeometryIff` | src/common/plan.c:805-851 | A range has a cache geometry if and only if its layers are whole and its sums fit 64 bits, and it is those sums and the largest tensor |
| `HybridBytes.GateInBytes` | src/common/plan.c:1119-1166 | What a GPU holds: the need less the spilled experts, a staging buffer, and for a cache its slots, a second buffer, 512 bytes a weight and 512 MiB |
| `HybridBytes.AdmitsInBytes` | src/common/plan.c:1650-1669 | On one machine a prefix admits a cache if and only if those bytes fit the VRAM and the spilled ones the RAM |
| `HybridBytes.ConsistentIff` | src/common/plan.c:887-925 | A table is accepted if and only if its layers are whole, its totals are the sums and a strict cache over all of them has a size in 64 bits |
| `HybridBytes.DraftIff` | src/common/plan.c:424-440 | The draft's memory is known if and only if its parts are measured and their sum fits; then it is its outside weights and its window |
| `HybridBytes.ReadyIff` | src/common/plan.c:999-1047 | The early refusals, each by its own condition |
| `HybridBytes.NeedInBytes` | src/common/plan.c:1096-1114 | What an owner needs with nothing spilled, term by term |
| `HybridBytes.FitsInBytes` | src/common/plan.c:1096-1174 | A share is valid on its owner if and only if those bytes fit its VRAM and its RAM holds what it spills |
| `HybridBytes.RamInBytes` | src/common/plan.c:1177 | The first cost of a placement is the sum of all expert bytes spilled |
| `HybridBytes.PeakIs` | src/common/plan.c:1178 | The second is its fullest GPU |
| `HybridCharge.BaseIsCharge` | src/common/plan.c:1109-1114 | An owner needs its own layers, its share of the window, the overhead and workspace, and on slot 0 the shared part, or the maximum where that does not fit |
| `HybridCharge.KvCovered` | src/common/plan.c:1113 | The shares of the window cover it, with at most one byte a node to spare |
| `HybridCharge.WholeModelCharged` | src/common/plan.c:1096-1114 | Over every valid placement the charges behind the needs add up to the whole model and its fixed parts once, workspace once a node, window rounded by at most one byte a node |
| `HybridSearch.PriceOwner` | src/common/plan.c:1119-1174 | The inner loop computes the owner's price and its two halves |
| `HybridSearch.FillCell` | src/common/plan.c:1092-1188 | The innermost loop computes its cell of the table |
| `HybridSearch.FillTable` | src/common/plan.c:1068-1189 | The three loops compute every cell a full placement can pass through |
| `HybridSearch.ReadPlan` | src/common/plan.c:1261-1312 | The walk back reads the placement the last cell stands for, with each slot's figures and the sums |
| `HybridSearch.Solve` | src/common/plan.c:999-1338 | A plan is returned if and only if no early refusal applies and some placement is feasible; it is lexicographically optimal over all of them, and every slot's GPU and RAM hold what it is given |
| `HybridSearch.ReportedCost` | src/common/plan.c:1308-1311 | The RAM the plan reports is the cost that was minimised |
| `HybridSearch.FeasibleIsDownward` | src/common/plan.c:1392-1395 | What can be placed with more slots can be placed with fewer |
| `HybridSearch.FeasibleMeansPlaceable` | src/common/plan.c:1060 | Unless the experts fill 64 bits, feasible means that some valid placement exists |
| `HybridSearch.SolveAny` | src/common/plan.c:1396-1447 | The strict target if it fits, else the largest common cache covering a route, else none; refused only when no placement exists at all; every slot's GPU and RAM hold what it is given |
| `ResourceBudget.BudgetIsFormula` | include/idletoken_resource.h:76-87 | No overflow or underflow: the code is the integer formula less its margin, never below zero |
| `ResourceBudget.BudgetInPieces` | include/idletoken_resource.h:53-64 | It is the documented three-piece form split at 32 and 80 GiB |
| `ResourceBudget.BudgetIsMonotone` | include/idletoken_resource.h:76-87 | More RAM never has a smaller budget |
| `ResourceBudget.ExpertWithinBothGates` | include/idletoken_resource.h:93-105 | Expert RAM is within the usable RAM and the pinnable limit, and equals the tighter one |
| `ChatPage.Page.EditConvo` | client/src/Chat.tsx:655-659 | The conversation with the id is rewritten and cut to 50 messages, all others stay |
| `ChatPage.Page.NewChat` | client/src/Chat.tsx:661-673 | An empty conversation is reused; without one a new conversation goes to the front, and the list is capped at 40 |
| `ChatState.Capped` | client/src/Chat.tsx:671 | Exactly the conversations beyond the first 40 go |
| `ChatState.ClipKeepsLast` | client/src/Chat.tsx:655-659 | Exactly the messages before the last 50 go |
| `ChatPage.Page.DeleteChat` | client/src/Chat.tsx:675-681 | Exactly the conversations with that id go |
| `ChatPage.Page.Generate` | client/src/Chat.tsx:761-801 | A generation starts, with its row queued and its transcript replayed, if and only if none is live in the conversation and the cluster is online with an address; else nothing changes |
| `ChatPage.Page.AddListener` | client/src/Chat.tsx:835 | The generation listens from here on |
| `ChatPage.Page.RemoveListener` | client/src/Chat.tsx:864 | That listener goes, all others stay |
| `ChatPage.Page.Handle` | client/src/Chat.tsx:836-885 | A handler ignores events of other requests and acts on its own as the step says |
| `ChatPage.Page.Emit` | client/src/Chat.tsx:835-886 | Broadcasting an event to every listener is one step of the one generation it is tagged for |
| `ChatPage.Page.Fail` | client/src/Chat.tsx:895-898 | A failed import or stream call ends a generation that is under way, once |
| `ChatPage.Page.End` | client/src/Chat.tsx:935-986 | The catch and finally blocks: the error is marked and the row is cleared by request id |
| `ChatPage.Page.Clear` | client/src/Chat.tsx:995-1005 | A keyed clear acts only on its own row, an unkeyed one on any |
| `ChatPage.Page.StopFallback` | client/src/Chat.tsx:1032 | The clear without a request id |
| `ChatPage.Page.RenderQueue` | client/src/Chat.tsx:774-782 | Queued updates are applied in order |
| `ChatLive.MapsAgree` | client/src/Chat.tsx:771-782 | In every run the rendered map, once its queue is applied, has the conversations and request ids of the synchronous one |
| `ChatLive.SettledInParts` | client/src/Chat.tsx:777-782 | Rendering part of the queue now gives the same map in the end |
| `ChatLive.LatePhaseDoesNotResurrect` | client/src/Chat.tsx:775-782 | No event brings a row back for a conversation that has none |
| `ChatLive.KeyedClearKeepsOthers` | client/src/Chat.tsx:988-996 | The clear at a generation's end leaves every row that is not its own, in both maps |
| `ChatLive.OneWriterStep` | client/src/Chat.tsx:1009-1033 | A step breaks the rule of one writer per conversation if and only if it is an unkeyed clear while a generation has not returned |
| `ChatLive.OneWriterAlways` | client/src/Chat.tsx:683-690 | In every run without such a clear each unreturned generation is the one its conversation's row names |
| `ChatLive.WaitsStep` | client/src/Chat.tsx:835-967 | A generation under way stays so, with its row, through a step if and only if that is no rejection of it, no ending event it hears and no unkeyed clear of its conversation |
| `ChatLive.UnreleasedBlocks` | client/src/Chat.tsx:835-898 | Through every run without such a step its row stays and every other generation of the conversation is refused |
| `ChatRows.RowsShowStreams` | client/src/Chat.tsx:771-782 | In every run each row names a generation of its conversation that has not returned, and shows the phase and prefill its own stream has come to |
| `ChatRows.ReturnFrees` | client/src/Chat.tsx:968-996 | When a generation returns its row is gone from both maps and the next one of the conversation starts |
| `ChatRows.IdsStayDistinct` | client/src/Chat.tsx:661-681 | In every run no two listed conversations share an id, and at most 40 are listed |
| `ChatRows.WithoutIs` | client/src/Chat.tsx:675-681 | Deleting takes out exactly the conversations with that id and keeps the order of the others |
| `ChatTranscripts.FindAfter` | client/src/Chat.tsx:655-681 | What each event does to one transcript, and that it does nothing to others |
| `ChatTranscripts.NonInterference` | client/src/Chat.tsx:761-886 | Over every interleaving a listed conversation has the transcript its own events alone produce |
| `ChatReplies.OpenIsListening` | client/src/Chat.tsx:835-886 | A generation listens exactly from its listener's installation to its first ending event |
| `ChatReplies.TranscriptIs` | client/src/Chat.tsx:836-967 | A listed conversation is its last history and one reply, whose text and reasoning are the concatenations of that stream's two channels |
| `ChatReplies.FallbackMixesReplies` | client/src/Chat.tsx:1032 | An unkeyed clear during start-up lets one reply's words into another |
| `ChatStore.BoundedStaleness` | client/src/Chat.tsx:549-556 | While no write with something to save fails, history is written no later than max(d, w + 2000 ms) and no change is unsaved for more than two seconds |
| `ChatStore.OnTimeStep` | client/src/Chat.tsx:531-556 | A step keeps the timer's invariant if and only if it is no failed write with something to save: by the timer, any unsaved change; on leaving, one made before that moment |
| `ChatStore.BoundSurvivesIff` | client/src/Chat.tsx:531-547 | After such a failed write some run of changes and waiting breaks the two seconds, and after no other step does one whose writes succeed |
| `ChatStore.PlainDebounceHasNoBound` | client/src/Chat.tsx:96-102 | Without the ceiling a change can wait as long as the typing goes on |
| `ChatStore.Store.OnChange` | client/src/Chat.tsx:549-556 | A change drops the armed timer and arms the next |
| `ChatStore.Store.Flush` | client/src/Chat.tsx:531-548 | A write covers every change so far, or none if the storage throws, and counts as the last write either way |
| `ChatStore.Store.TimerFires` | client/src/Chat.tsx:554 | A due timer is disarmed and writes, or fails to |
| `ChatStore.SettleTail` | client/src/Chat.tsx:118-126 | The longest prefix that does not end in a reply without text and error |
| `ChatStore.TimerComes` | client/src/Chat.tsx:549-556 | An armed timer fires when its time comes |
| `RebuildQueue.NeverOverlap` | client/src/App.tsx:2064-2070 | At most one rebuild runs, in every run |
| `RebuildQueue.StartsAreNewestAndOrdered` | client/src/App.tsx:2074-2077 | Rebuilds start in increasing order, each the newest submitted when it starts |
| `RebuildQueue.LastSubmittedRuns` | client/src/App.tsx:2075-2081 | When nothing is left to do, however many failed, every link has settled and the last submitted rebuild ran |
| `RebuildQueue.StepsRunOut` | client/src/App.tsx:2075-2081 | Between submissions every step brings the chain nearer to rest |
| `RebuildQueue.UncaughtFailureWedges` | client/src/App.tsx:2079-2081 | Without the catch one failure leaves every later rebuild queued for ever |
| `RebuildQueue.Switches.Queue` | client/src/App.tsx:2073-2082 | A submission takes the next number and adds one link |
| `RebuildQueue.Switches.Callback` | client/src/App.tsx:2075-2078 | A link runs its job if and only if no newer pick exists |
| `RebuildQueue.Switches.JobEnds` | client/src/App.tsx:2077 | A job settles its own link, and nothing else |
| `RebuildQueue.Switches.Caught` | client/src/App.tsx:2081 | A caught link is passed on, and nothing else changes |
| `Downloads.OneTaskPerFile` | client/src/App.tsx:1769-1773 | A file never has two tasks under way |
| `Downloads.StaleExactlyWhenRefused` | client/src/App.tsx:1794-1830 | An entry outlives its task if and only if a default directory could not be found for that file |
| `Downloads.TablesEmptyOut` | client/src/App.tsx:1819-1830 | When every task is over the tables are empty if and only if none was refused |
| `Downloads.RefusedForGood` | client/src/App.tsx:1791-1796 | After a refusal no run ever fetches that file again |
| `Downloads.Fetches.StartDownload` | client/src/App.tsx:1788-1832 | A running task is shared, an empty name is refused, anything else starts one task with its entries |
| `Downloads.Fetches.AfterDir` | client/src/App.tsx:1796 | The await outside the try: found, the fetch starts; not, the task is refused with its entries in place |
| `Downloads.Fetches.AfterFetch` | client/src/App.tsx:1804-1828 | The end of a fetch, good or bad, removes the file's entries |

## Left out

- UTF-8 decoding of GGUF strings, and `str.isdigit` beyond ASCII: names are byte sequences, and a name is compared as such.
- Python's recursion limit: deeply nested GGUF arrays raise RecursionError in the script; the walkers here recurse without a limit.
- GGUF value contents: `read_value` keeps the raw bytes of a fixed-size value; what `struct.unpack` makes of them is not modelled.
- `header_sha256`, the cache files, the revision and Range checks and the required-names test of `mtp_manifest_inventory.py`: I/O and a set difference.
- HTTP, sockets, files, locks, random bytes and the clock: parameters of the steps that use them.
- The strength of the cipher and of HMAC: in the framing and ticket runs a ciphertext opens, and a MAC verifies, only for the key and input it was made from; `Hmac` proves only which function is computed.
- Null arguments, malloc failures and `size_t` overflow in the C interfaces.
- AdmissionChannel.Step: the agent's `attach` is only its key; that it clears the agent's own tables, which no ticket is spent against, is not modelled.
- HybridPrefixes.PassingIsOneRun: for a need of at least the expert bytes, which the whole model's need includes, and expert bytes below 2^64 - 1.
- TensorNames.CExpertLayerOf: the C standard leaves `sscanf` of a number beyond `unsigned` undefined; the model reduces it modulo 2^32.
- ChatLive.OneWriterAlways: assumes that `stop`'s unkeyed clear runs only after that conversation's generation has returned (`StopsAfterEnd`); without it the claim is false.
- ChatReplies.TranscriptIs: under the same assumption; titles, timestamps, images and localized error texts are left out of a message.
- ChatTranscripts.NonInterference: says nothing of a conversation that the cap of 40 has pushed off the list.
- LayerSplit.PlanLayers: does not model overflow of layers times VRAM beyond 64 bits or a count beyond 31, nor a node with memory left when the bytes per layer round down to zero, where the code divides by zero.
- HybridCharge.WholeModelCharged: stated for a total below 2^64 - 1, where the code's prefix sums are exact.
- HybridBytes.FitsInBytes: for the same totals.
- HybridCluster.Base: takes the KV bytes, the workspace, the node overhead, the draft's compute and host memory as inputs; their tables are measurements.
- The planner's refusal texts, the `tensor_split` fractions, the context-tier suggestions and the GPU-only cluster plan.
- React rendering, the simulator branch of `generate`, `send`'s attachments, and the choice of the active conversation.
- Wire packing, base64, JSON envelopes, the model registry and engine supervision: no algorithm of their own here.
