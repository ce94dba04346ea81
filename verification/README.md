# Verified model of the Polaris control and patching logic

This project models, in Dafny, the parts of the repository whose correctness is hardest to see by reading:
code that patches ARM binaries and code that runs beside a motorised camera head. Each part is a small group
of modules.

* **Bulb dispatch** (`Arm`, `BranchCodec`, `Bulb*`). The hand-assembled trampoline is kept as the table of words
  the builder packs. A decoder and small-step interpreter for the ARM instructions it uses give those words their
  meaning; the camera library's functions answer through an arbitrary oracle held only to their contracts. The
  routing theorem says where a run ends for every conditions text, every argument and every library answer, even
  if the text is gone from memory once its widget is freed. The file patcher is proved separately, with the exact
  files it goes ahead with, and one theorem puts the two together: patch a file, map it, call the burst helper, and
  the run ends as specified.
* **Control link** (`LinkSpec`, `LinkCache`, `Link`). Frame parsing with resynchronisation as a function of the
  whole stream, the in-place parser and queue proved against it, the least-recently-used opcode cache.
* **Leased frame store** (`FrameModel`, `FrameStore`). Every lock-held section is one atomic step, so any
  interleaving is a sequence of steps. The class with buffers, counters and caller-owned views refines the machine.
* **Jog dead man** (`JogModel`, `JogWire`, `JogText`, `Jog`). Leases, deadlines, and a monitor that plays the motor head
  on each axis over everything the link ever took for it. The link may refuse any frame.
* **Blob finder and star matcher** (`FloodModel`, `FloodScan`, `FloodStars`, `Flood`, `Match`). Worklist flood fill
  against 8-connectivity defined by paths, stars as centres of light of recorded pixels, translation voting with its
  recovery bound.
* **Preview gate** (`PreviewModel`, `PreviewHistory`, `Preview`). Two latches and three windows over arbitrary runs and
  clocks, and every answer by the history of calls alone.
* **Version registry** (`RegistryText`, `RegistryModel`, `RegistryRun`, `Registry`). A state file edited line by
  line, with a crash allowed after any write.
* **Codecs and patchers** (`ImmediateCodec`, `PollBudget`, `Stage2`, `Buffers`) and the **rate envelope**
  (`RateModel`, `Rate`). `Words`, `Reals` and `Sets` hold the
  arithmetic they share.

Code that changes state in the source is a class or a method with loops here, proved against a function or a
relation; the laws are lemmas about that function or relation. `dafny verify dfyconfig.toml` checks everything.

## Where the code does not do what its description says

Each of these is kept as the code has it, shown by a lemma with a concrete input, and bounded by the exact condition
under which the code does behave.

* A blob larger than `maxpix` is described as dropped. Its unvisited pixels are seeded again, so a remnant can pass
  for a blob of its own (`FloodScan.OversizeRemnant`). A measured blob is a whole component exactly when that
  component has at most `maxpix` pixels (`FloodScan.BlobIsComponent`).
* `decode_mov_immediate` says it returns a value for a MOV. It never looks at the opcode, so an ADD decodes as one
  (`ImmediateCodec.DecoderTakesAdd`), and so does every MOVW, the one this patcher writes among them
  (`ImmediateCodec.MovwTakenForMov`, `ImmediateCodec.DecoderTakesRaised`). Of all words, a MOV is exactly one that
  decodes, has opcode 1101 and zeros below it (`ImmediateCodec.DecodedIsMovIff`).
* Recording a version does not check that the commits are hexadecimal, while reading the file back requires it. The
  file stays readable exactly when both are (`RegistryRun.NextRecorded`); commits named `main` leave it unreadable
  (`RegistryRun.BranchNamesRecorded`).
* A tick with the link down clears the jog records without sending anything, and a stop clears its record even if the
  link refuses the frame. Either way a second press can follow the first (`JogWire.LossForgetsPress`,
  `JogWire.RefusedStopForgetsPress`). Whatever the link refuses, an axis's whole conversation is legal exactly unless
  some call offends the motion the head then holds (`JogWire.WireDiscipline`), and the dead man reaches the head exactly
  when, besides, no motion is left standing (`JogWire.SilenceStops`). If the link takes what starts a motion, that is:
  unless the first renewal after such a loss asks for anything after a press, or for a press after a fast run
  (`JogWire.LossAndRenewal`). With nothing refused all is well (`JogWire.NothingRefused`).
* A clock that reads zero leaves the preview gate without a mark, and the next fetch may follow at any time
  (`PreviewModel.ZeroClockUnpaced`). Only a fetch right after such a reading can come too soon
  (`PreviewModel.FetchesPaced`), and nothing else is let through early (`PreviewModel.AdmittedIff`).
* A branch word whose target wraps round the address space decodes, and `encode_branch` refuses it
  (`BranchCodec.WrappedBranch`). Every other branch word it encodes back (`BranchCodec.EncodedOfTarget`).

## Model

| member | source | states |
|---|---|---|
| BulbRouting.Routing | container/polaris_bulb_dispatch_patch.py:190-402 | From the burst entry, for every text, argument and library answer, the run ends within 200 steps: Bulb is entered with the caller's registers and stack iff status is 0, duration positive, the model matches and the text names mode 9, 12 or 20; another mode 0..31 resumes the stock helper; anything unreadable returns -110. A fetched widget is freed once, by the last call and after the last read of its text, which the free may unmap. The caller's part of the stack is untouched on every exit. |
| BulbRouting.RouteText | container/polaris_bulb_dispatch_patch.py:249-263 | From a borrowed text on: no key, or no `; ` before it, is refused and every other text goes to the field parser, the widget freed last on each path. |
| BulbRouting.RouteField | container/polaris_bulb_dispatch_patch.py:301-344 | From a delimited key on: value, duplicate and range tests together decide as `HasMode` does, and the right exit is taken. |
| BulbRouting.RouteQuery | container/polaris_bulb_dispatch_patch.py:220-248 | The query refuses on any failed, null or wrongly typed answer and otherwise reaches the text with the widget alive. |
| BulbRouting.Stock | container/polaris_bulb_dispatch_patch.py:276-280 | The three overwritten prologue words have their stock effect before the helper resumes at +12: frame pushed, fp set, 172 bytes reserved. |
| BulbRouting.Busy | container/polaris_bulb_dispatch_patch.py:283-286 | The error exit returns -110 to the original caller with stack and callee-saved registers as on entry. |
| BulbRouting.BulbExit | container/polaris_bulb_dispatch_patch.py:268-272 | The Bulb exit frees the widget, then tail-calls Bulb with r0-r2, lr and sp as on entry. |
| BulbRouting.NonBulbExit | container/polaris_bulb_dispatch_patch.py:264-267 | The non-B exit frees the widget last and resumes the stock helper. |
| BulbRouting.RefusedExit | container/polaris_bulb_dispatch_patch.py:287-289 | The refusing exit frees the widget last and returns -110. |
| BulbOracle.OracleExists | container/polaris_bulb_dispatch_patch.py:197-308 | Whatever statuses, pointers and strings the library would answer with, some oracle answers every call within its contract and takes the text away at the free: the routing theorem is about real behaviours. |
| BulbText.ModeIff | container/polaris_bulb_dispatch_patch.py:249-344 | The order in which the code tests a text decides exactly `HasMode`: one key in the text, written `; exposure-mode-raw=<m>;` with canonical m in 0..31. |
| BulbText.FieldIff | container/polaris_bulb_dispatch_patch.py:301-326 | Delimiter checks and digit parser accept m at a key exactly when the bytes there are the printed field of m. |
| BulbText.UniqueIff | container/polaris_bulb_dispatch_patch.py:335-340 | Searching only past the parsed value finds another key exactly when the text has another key anywhere. |
| BulbText.KeysApart | container/polaris_bulb_dispatch_patch.py:91 | Two occurrences of the key never overlap, so a search from past the value misses none. |
| BulbField.Field | container/polaris_bulb_dispatch_patch.py:305-327 | The digit parser ends at the duplicate test with the value in r1, or at the error exit exactly when the bytes are no canonical one- or two-digit number before a semicolon. |
| BulbField.DuplicateTest | container/polaris_bulb_dispatch_patch.py:339-344 | A second key or a value above 31 goes to the error exit; otherwise the mode is back in r1. |
| BulbField.Dispatch | container/polaris_bulb_dispatch_patch.py:328-334 | Modes 9, 12 and 20 reach the Bulb exit, every other value the stock exit. |
| BulbField.Delimiter | container/polaris_bulb_dispatch_patch.py:257-263 | The two bytes before the key must be `;` and a space. |
| BulbQuery.Label | container/polaris_bulb_dispatch_patch.py:204-217 | The model gate passes exactly when the camera name equals the registered label, case aside, whole. |
| BulbQuery.FetchWidget | container/polaris_bulb_dispatch_patch.py:229-233 | A failed status or a null widget goes to the error exit before anything is freed. |
| BulbQuery.Kind | container/polaris_bulb_dispatch_patch.py:236-240 | Only a widget of type text goes on. |
| BulbQuery.Value | container/polaris_bulb_dispatch_patch.py:244-248 | Only a successful, non-null value goes on, with the borrowed pointer in r0. |
| BulbQuery.KeySearch | container/polaris_bulb_dispatch_patch.py:250-252 | The search answers the first key of the text or goes to the error exit. |
| BulbRun.EntryGate | container/polaris_bulb_dispatch_patch.py:191-194 | A non-zero status or a duration that is not positive as a signed number goes to the stock path with nothing pushed. |
| BulbRun.OpenFrame | container/polaris_bulb_dispatch_patch.py:195-196 | Arguments and return address are saved and a 2048-byte buffer opened, the trampoline's own words untouched. |
| BulbRun.Vendor | container/polaris_bulb_dispatch_patch.py:197-203 | The vendor gate passes exactly when the manufacturer is non-null and contains the brand, case aside. |
| BulbKeep.KeepCancel | container/polaris_bulb_dispatch_patch.py:397-402 | A stop result replaces the saved outcome only if it is itself a failure; r3 and everything else are kept. |
| BulbKeep.KeepPublish | container/polaris_bulb_dispatch_patch.py:367-374 | A publication result is recorded only if nothing non-zero was saved. |
| BulbKeep.ReportedOutcome | container/polaris_bulb_dispatch_patch.py:480-511 | Both stubs together report a failed stop first, then a cancellation, then the publication result. |
| BulbPatch.PackTable | container/polaris_bulb_dispatch_patch.py:403-405 | Packing the table refuses exactly when some branch is not encodable and otherwise writes each word at its offset. |
| BulbPatch.BuildTrampoline | container/polaris_bulb_dispatch_patch.py:135-411 | The built blob is the table's words, the match strings and zeros. |
| BulbPatch.PatchData | container/polaris_bulb_dispatch_patch.py:560-636 | Checks and overwrites in place return what `Patch` says, error or image; `BulbGate` and `BulbImage` say what that is. |
| BulbGate.PatchedIff | container/polaris_bulb_dispatch_patch.py:560-636 | A file is patched exactly if both entries hold their stock words, the segment is wholly in the file, every byte the trampoline would cover is zero and in no section, it ends before the next segment with a page boundary between, every branch reaches, and the three Bulb sites are stock or redirected in stock surroundings. |
| BulbGate.PatchedIsReady | container/polaris_bulb_dispatch_patch.py:594-621 | No file is patched without the conditions on entries, cave, sections, branches and room, wherever its parts lie. |
| BulbGate.RefusalsNamed | container/polaris_bulb_dispatch_patch.py:594-621 | Each condition that fails first is refused with its own error, in the order of the tests. |
| BulbGate.PageBetween | container/polaris_bulb_dispatch_patch.py:614-621 | The rounded end of the longer segment is not past the next one's page exactly if a page starts between the two. |
| BulbGate.ChangesReported | container/polaris_bulb_dispatch_patch.py:453-557 | Each of the two small patchers reports a change exactly if it changed a byte. |
| BulbGate.CarriesIff | container/polaris_bulb_dispatch_patch.py:567-592 | A file is reported as patched already exactly if writing the patch over its segment's end would change no byte. |
| BulbImage.PatchFrame | container/polaris_bulb_dispatch_patch.py:623-635 | Outside the burst entry, the cave, the cancel branch, the two result stores and the two header sizes no byte of the image changes. |
| BulbImage.ImageWords | container/polaris_bulb_dispatch_patch.py:453-557 | The words at those sites after patching. |
| BulbImage.PatchTwice | container/polaris_bulb_dispatch_patch.py:567-592 | Patching the result again, with the segment as it now is, returns the same bytes and reports no change. |
| BulbImage.BranchesLead | container/polaris_bulb_dispatch_patch.py:448-477 | Every branch written into the image, at the four sites and throughout the cave, decodes to the place it is meant to lead to. |
| BulbImage.InstalledIsLoaded | container/polaris_bulb_dispatch_patch.py:403-411 | A process that maps the blob at the cave has the trampoline loaded as the interpreter expects it. |
| BulbImage.PatchedFileEnters | container/polaris_bulb_dispatch_patch.py:560-636 | The patched file, mapped, holds the trampoline in its cave and the branch to it at the burst entry. |
| BulbProcess.PatchedFileRoutes | container/polaris_bulb_dispatch_patch.py:560-636 | Patch a file, map it, call the burst helper: whatever the arguments, answers and text, the run ends where the routing specification says. |
| BulbProcess.CloseIsEncodable | container/polaris_bulb_dispatch_patch.py:126-132 | No process whose symbols are aligned and within sixteen megabytes of each other is refused for a branch out of range. |
| BulbProcess.ProcessExists | container/polaris_bulb_dispatch_patch.py:190-411 | A process that meets every assumption of the routing theorem exists, for any status, duration and count. |
| BulbProcess.RunsWithoutText | container/polaris_bulb_dispatch_patch.py:197-308 | In it, with a library that takes all other memory away at the free, the run still ends as specified. |
| BulbStock.StockPatches | container/polaris_bulb_dispatch_patch.py:560-636 | A stock file that meets no objection, with the stock words at the sites of the Bulb helper, is patched and reports the change. |
| BulbStock.StockFilePatches | container/polaris_bulb_dispatch_patch.py:560-636 | A stock file written out here meets every hypothesis of the image theorems and is patched. |
| BulbStock.StockFileRoutes | container/polaris_bulb_dispatch_patch.py:560-636 | Mapped and called, that file's run ends as specified, whatever the library answers. |
| BranchCodec.TargetOfEncoded | tools/polestar_rate_candidate.py:167-174 | The decoder gives back the target of every branch the encoder accepts, whatever the condition and link bit. |
| BranchCodec.EncodedOfTarget | container/polaris_bulb_dispatch_patch.py:126-132 | Every branch word is the encoding of what it decodes to, unless its target wraps; then the encoder refuses. |
| BranchCodec.WrappedBranch | container/polaris_bulb_dispatch_patch.py:126-132 | At address 0 a branch back by four bytes decodes, and encoding it is refused. |
| BranchCodec.DecodeEncoded | container/polaris_bulb_dispatch_patch.py:126-132 | The processor decodes an encoded branch to the same condition, link bit and displacement. |
| LinkSpec.ParseAppend | container/astro/polaris-link.c:221-260 | Parsing a prefix and then its residue with the rest yields the frames of the whole stream. |
| LinkSpec.ChunkIndependence | container/astro/polaris-link.c:262-273 | However a stream is cut into reads, as long as the residue stays below the buffer, the same frames come out as at once. |
| LinkSpec.FeedIs | container/astro/polaris-link.c:229-273 | What a read leaves: a buffer already full goes first, and what fills it afterwards goes too exactly if no `@` in it could end an opcode. |
| LinkSpec.ParseFrame | container/astro/polaris-link.c:233-257 | A printed frame at the head of a stream is the next frame parsed, payload and opcode as printed. |
| LinkSpec.RoundTrip | container/astro/polaris-link.c:210-260 | A stream of printed frames with pulses between them parses to exactly those frames, in order, with nothing left. |
| LinkCache.CacheIsLast | container/astro/polaris-link.c:116-138 | With at most 128 opcodes ever seen each has one slot, holding its last payload cut to 511 bytes and its count. |
| LinkCache.EvictionIsLru | container/astro/polaris-link.c:129-137 | A full cache gives up the slot whose stamp is least, the first such, and no other. |
| LinkCache.MostRecentCached | container/astro/polaris-link.c:116-138 | Over every history on a rising clock, an opcode is cached exactly when fewer than 128 others were received since it last was, once, with its last payload and stamp. |
| LinkCache.StreamToCache | container/astro/polaris-link.c:221-260 | From printed frames, cut anyhow, to the cache: nothing is left unparsed, every slot reflects its opcode's last frame, and beyond 128 opcodes the most recently received are kept. |
| LinkCache.ArgRoundTrip | container/astro/polaris-link.c:86-106 | A printed payload answers each key with its first value, cut to the caller's buffer. |
| LinkCache.FindArg | container/astro/polaris-link.c:86-106 | The entry-by-entry walk returns the value of the first matching key, or none for an empty buffer or no match. |
| Link.Connection.SlotFor | container/astro/polaris-link.c:116-138 | The slot returned is the opcode's own, a fresh one, or the first least recently stamped. |
| Link.Connection.RecordMessage | container/astro/polaris-link.c:239-251 | Recording a frame makes the cache that of the longer history. |
| Link.Connection.Get | container/astro/polaris-link.c:146-152 | The slot returned is a stamped one of that opcode; none means there is no such slot. |
| Link.Connection.EatPulsesInPlace | container/astro/polaris-link.c:210-215 | Leading pulses leave the buffer and nothing else does. |
| Link.Connection.TakeFrame | container/astro/polaris-link.c:225-257 | One turn takes exactly the first frame of the buffer, or leaves it, discarding a full buffer with no frame in it. |
| Link.Connection.RxParse | container/astro/polaris-link.c:221-260 | The in-place parser appends to the history exactly the frames of the buffered stream and keeps its residue. |
| Link.Connection.RxOnce | container/astro/polaris-link.c:262-273 | One read has the effect of `Feed`: a full buffer is discarded first. |
| Link.Connection.TxQueue | container/astro/polaris-link.c:158-169 | A frame is queued whole or refused whole, and the byte account still balances. |
| Link.Connection.TxTaken | container/astro/polaris-link.c:171-185 | After a partial write, bytes sent and bytes queued are together still the accepted frames. |
| Link.Connection.TxDrain | container/astro/polaris-link.c:171-185 | It writes until the queue is empty or a write takes nothing; the peer is given exactly what the writes took; the link stays up unless the last write failed or took zero, and bytes stay queued only if that write would block. |
| Link.Connection.Send | container/astro/polaris-link.c:187-197 | A frame too long, one that does not fit or a link that is not up is refused and changes nothing; otherwise the printed frame is queued whole and the queue drained. |
| Link.Connection.ComeUp | container/astro/polaris-link.c:326-333 | A new connection starts with both buffers empty, as every way down leaves them, and drains its registration as the first frame. |
| Link.DrainDetermined | container/astro/polaris-link.c:171-185 | The socket's answers fix how many writes a drain makes, what it hands over, what it leaves and whether the link is up. |
| Link.DrainConserves | container/astro/polaris-link.c:171-185 | While the link is up a drain loses nothing, and a socket that takes something every time is given the whole queue. |
| Link.AtoiReads | container/astro/polaris-link.c:233-241 | An opcode field is read as C's `atoi` reads it: blanks skipped, one sign heeded, digits up to the first other byte, zero for anything else. |
| Link.FrameFields | container/astro/polaris-link.c:187-193 | The fields of a sent frame, cut at the first three `&`, read back as marker, opcode, type and payload, whatever the payload holds. |
| Link.PeerReadsWholeFrames | container/astro/polaris-link.c:158-185 | Of any prefix the socket took, the complete frames a peer reads are a prefix of those accepted, each whole. |
| Link.PrintedFramesAreWhole | container/astro/polaris-link.c:187-197 | A printed frame has one terminator, its last byte, whenever its payload has none. |
| FrameModel.StepKeepsInv | container/stage2_ipolar_frames.c:49-201 | Every operation keeps: each counter is the number of outstanding views on its slot, and each view's frame is still in its slot. |
| FrameModel.RunKeepsInv | container/stage2_ipolar_frames.c:49-201 | So does every interleaving of operations. |
| FrameModel.LeaseStable | container/stage2_ipolar_frames.c:69-201 | Until it is released, over any interleaving, a view's slot holds the very frame handed out and the store is not torn down. |
| FrameModel.CurrentIff | container/stage2_ipolar_frames.c:151-178 | A view is current later exactly if nothing invalidated the session since it was acquired. |
| FrameModel.NewestShown | container/stage2_ipolar_frames.c:92-97 | The published slot always shows the last frame taken in since the last invalidate. |
| FrameModel.AcquireNewest | container/stage2_ipolar_frames.c:101-132 | An acquire hands out the newest frame published since the last invalidate, or nothing if there is none. |
| FrameModel.DroppedIff | container/stage2_ipolar_frames.c:75-85 | A publish with valid arguments changes nothing exactly when all three slots are leased. |
| FrameModel.AliveIff | container/stage2_ipolar_frames.c:27-201 | Over every interleaving from the start, the store lives until it is first torn down with no view out, and no longer. |
| FrameModel.GrantsIff | container/stage2_ipolar_frames.c:101-120 | An acquire is granted exactly if there is a newest frame, unless its slot has 2^32 - 1 views. |
| FrameModel.FramesNumbered | container/stage2_ipolar_frames.c:75-97 | The frames taken in, those published while the store lives and some slot has no view, are numbered from one. |
| FrameModel.TakenIsHanded | container/stage2_ipolar_frames.c:75-132 | A reader right after a frame was taken in is handed that very frame with its number. |
| FrameStore.TakenIff | container/stage2_ipolar_frames.c:49-67 | A frame is taken exactly if it has pixels, its rows do not overlap, every byte of every row is in the buffer and the packed frame fits; a buffer one byte short is refused as too small. |
| FrameStore.RefusedAs | container/stage2_ipolar_frames.c:49-67 | Of a frame with pixels: EINVAL exactly if rows overlap, EMSGSIZE exactly if a byte is missing, EOVERFLOW exactly if something does not fit. |
| FrameStore.CheckedMulExact | container/stage2_ipolar_frames.c:13-18 | The guard refuses exactly the products above SIZE_MAX, and none it lets through wraps. |
| FrameStore.CompactAt | container/stage2_ipolar_frames.c:87-90 | Destination row r, byte c is source row r, byte c, and every source index lies inside the data. |
| FrameStore.CopyNext | container/stage2_ipolar_frames.c:87-90 | One row copied with wrapped products is the row meant: neither product wraps. |
| FrameStore.CopyRows | container/stage2_ipolar_frames.c:87-90 | The row loop writes exactly the compacted frame. |
| FrameStore.Store.Init | container/stage2_ipolar_frames.c:27-47 | A failed allocation leaves the store uninitialised; success leaves three fresh buffers and the machine's start state. |
| FrameStore.Store.Publish | container/stage2_ipolar_frames.c:49-99 | Every refusal, in order, in unbounded arithmetic; an accepted frame takes the machine's publish step with the compacted bytes. |
| FrameStore.Store.StoreLocked | container/stage2_ipolar_frames.c:69-98 | The locked section takes the machine's publish step. |
| FrameStore.Store.Fill | container/stage2_ipolar_frames.c:87-95 | Filling the free slot leaves the other slots' frames as they were. |
| FrameStore.Store.Acquire | container/stage2_ipolar_frames.c:101-132 | The view filled is one the store counts, and the state takes the acquire step; an overflowing counter is refused. |
| FrameStore.Store.ReaderSees | container/stage2_ipolar_frames.c:118-128 | Through any outstanding view a reader sees exactly the bytes of the frame it was handed. |
| FrameStore.Store.Release | container/stage2_ipolar_frames.c:134-149 | Any view of the store: refused if it names no counted slot, with nothing changed; otherwise its slot is counted down and the view emptied. An outstanding view takes the release step, and the account balances afterwards exactly if the view was refused or outstanding. |
| FrameStore.Store.IsCurrent | container/stage2_ipolar_frames.c:151-164 | For any view of the store, stale ones included, the answer is whether its session is the store's; for an outstanding one, whether nothing invalidated it since. |
| FrameStore.Store.Invalidate | container/stage2_ipolar_frames.c:166-178 | Invalidation takes the invalidate step. |
| FrameStore.Store.Destroy | container/stage2_ipolar_frames.c:180-201 | Refused exactly while a view is outstanding; otherwise the buffers go. |
| JogModel.DeadMan | container/astro/polaris-jog.c:120-147 | After any calls, a tick with the link up leaves an axis moving only if some call renewed it less than 400 ms before and nothing stopped it since. |
| JogWire.SilenceStops | container/astro/polaris-jog.c:133-140 | If no call renewed an axis for 400 ms, a tick leaves its head told to stand still, whatever the link refuses and has refused, exactly unless some call clashed or a motion the head was told is left standing. |
| JogModel.LeasesGranted | container/astro/polaris-jog.c:52-147 | Every moving axis holds a lease granted by one of the calls so far and not revoked since. |
| JogModel.OnlyRenewalExtends | container/astro/polaris-jog.c:52-147 | No other call starts an axis or lengthens its lease. |
| JogModel.DeadlineExact | container/astro/polaris-jog.c:149-165 | A tick acts exactly when it is not before the computed deadline, and then sends; -1 means nothing moves. |
| JogModel.DeadlineIsEarliest | container/astro/polaris-jog.c:149-165 | The deadline is the earliest of the moving axes' due times. |
| JogWire.WireDiscipline | container/astro/polaris-jog.c:33-147 | Over every run and for every link, which may refuse any frame, each head has heard a legal conversation exactly unless some call offends the motion it then holds; until then it was told what the taken starts and ends say. |
| JogWire.StepHeard | container/astro/polaris-jog.c:33-147 | Of every call the head on an axis hears exactly the frames of that axis's own move that the link takes. |
| JogWire.LossKeeps | container/astro/polaris-jog.c:99-131 | From a loss, be it a stop refused or a tick with the link down, to the next renewal the record stands idle and the head keeps the motion the record had. |
| JogWire.MoveFits | container/astro/polaris-jog.c:52-147 | Whatever the head holds and whichever frames of a call the link takes, the head rejects the call exactly if it offends, and otherwise holds what was started and not ended. |
| JogWire.HoldsStanding | container/astro/polaris-jog.c:52-147 | The head holds exactly the motion of the call left standing: its start was taken, and nothing taken since ended it or started another. |
| JogWire.LossAndRenewal | container/astro/polaris-jog.c:52-147 | On a link that may refuse any stop and any repeat and be down at any tick, the conversation is legal exactly unless a first renewal after a loss asks for what the head cannot take; a moving record is what the head holds, and under an idle one the head stands still exactly if no loss is unanswered. |
| JogWire.NothingRefused | container/astro/polaris-jog.c:52-147 | If nothing is refused and no tick finds the link down, the conversation is legal and head and record agree after every run. |
| JogText.WireReads | container/astro/polaris-jog.c:33-48 | Every frame any run of calls hands over is text the link takes whole, whose fields read back as opcode, control type and payload, and whose payload gives each number back under its key. |
| JogText.FrameReads | container/astro/polaris-jog.c:33-48 | The same of one frame's fields. |
| JogText.NumbersRead | container/astro/polaris-jog.c:33-48 | The same of one frame's numbers. |
| JogModel.RecordsSound | container/astro/polaris-jog.c:52-147 | No record is both pressed and fast, and fast records stay within 100 to 2500. |
| JogWire.DrivenFastObeys | container/astro/polaris-jog.c:62-78 | Driving fast releases an outstanding press first and sends only speeds of magnitude 100 to 2500. |
| JogWire.DrivenSlowObeys | container/astro/polaris-jog.c:81-97 | Driving slow stops a fast run first, releases a different press first, and never presses twice. |
| JogWire.StoppedObeys | container/astro/polaris-jog.c:99-113 | Stopping releases with the key and level of the press. |
| JogWire.HeadDoesAsAsked | container/astro/polaris-jog.c:52-97 | Exactly while nothing has clashed and head and record agree, an accepted call leaves the head told the direction asked for, with speed or gear brought into range and otherwise as given; they agree if the link takes the starting frame. |
| JogModel.NextFollowsLast | container/astro/polaris-jog.c:71-75 | On a fast-driven axis the next repeat falls due 50 ms after the last fast frame. |
| JogModel.StreamedEvery50 | container/astro/polaris-jog.c:142-145 | While its lease lasts, a tick streams to a fast-driven axis exactly when 50 ms have passed since the last frame. |
| JogWire.LossForgetsPress | container/astro/polaris-jog.c:128-131 | In one run a press, a tick with the link down and a press: the second is a protocol violation. |
| JogWire.RefusedStopForgetsPress | container/astro/polaris-jog.c:99-118 | In one run a press, a stop the link refuses and a press: after the stop the head still holds the press, and the second press is a violation. |
| Jog.Jogger.SetAxis | container/astro/polaris-jog.c:52-97 | The call takes the machine's step and reports failure exactly for a bad axis or, unless it is a stop, a link that is not up. |
| Jog.Jogger.DriveFast | container/astro/polaris-jog.c:62-78 | Updating the record field by field is the fast move. |
| Jog.Jogger.DriveSlow | container/astro/polaris-jog.c:81-97 | Updating the record field by field is the slow move. |
| Jog.Jogger.StopAxis | container/astro/polaris-jog.c:99-113 | Stopping an axis takes the stop step; a bad axis changes nothing. |
| Jog.Jogger.StopEvery | container/astro/polaris-jog.c:115-118 | The loop stops each axis in turn. |
| Jog.Jogger.TickEvery | container/astro/polaris-jog.c:120-147 | A tick takes the tick step; with the link down it clears every record and sends nothing. |
| Jog.Jogger.NextDeadline | container/astro/polaris-jog.c:149-165 | The loop computes the specified deadline. |
| Jog.Jogger.Active | container/astro/polaris-jog.c:167-172 | True exactly when some axis is moving. |
| FloodScan.EachComponentOnce | container/astro/polaris-extract.c:505-570 | Every 8-connected component of at most maxpix pixels is recorded by exactly one fill, whole, each pixel once; no pixel is pushed twice in the whole scan. |
| FloodScan.BlobIsComponent | container/astro/polaris-extract.c:513-545 | A measured blob is its seed's whole component exactly when that component has at most maxpix pixels. |
| FloodScan.OversizeRemnant | container/astro/polaris-extract.c:525-528 | Three bright pixels in a row with maxpix 1 leave a one-pixel blob. |
| FloodScan.ScanKeeps | container/astro/polaris-extract.c:505-512 | What the scan keeps from pixel to pixel: marked is pushed, bright pixels passed are marked, small components are whole or untouched. |
| FloodScan.CentroidInBox | container/astro/polaris-extract.c:517-524 | With any flux the weighted centroid lies in the bounding box, and the box is the tightest round the pixels. |
| FloodScan.TallyBoxed | container/astro/polaris-extract.c:523-524 | The running box is the tightest round the pixels counted. |
| FloodScan.TallyWeighted | container/astro/polaris-extract.c:517-521 | The running sums are weighted sums of coordinates inside the box, and the count is the number of pixels. |
| FloodScan.StarsAreBlobs | container/astro/polaris-extract.c:545-569 | Every star listed is an accepted blob's, and until the list is full every accepted blob is listed. |
| FloodStars.FoundStars | container/astro/polaris-extract.c:505-570 | The stars listed are the first worthy blobs of the scan in scan order, as many as fit, each measured from its own recorded pixels, which all lie in the picture. |
| FloodStars.StarsListed | container/astro/polaris-extract.c:545-569 | Of any blobs: worthy means enough pixels and not too many, some light, neither side of the pixels' box over three times the other, and the centre clear of the edges; x and y times the flux are the scaled column and row moments. |
| FloodStars.ScanMarksBright | container/astro/polaris-extract.c:510-511 | The pixels pushed by the blobs of a scan are exactly those that stand above their background by more than ksigma times the noise. |
| FloodStars.StarInBox | container/astro/polaris-extract.c:517-556 | Each coordinate of a star lies between two of its pixels' on the same axis. |
| FloodStars.AcceptedIff | container/astro/polaris-extract.c:545-555 | The tests on sums and box pass exactly if the recorded pixels are worthy. |
| FloodModel.FillIsComponent | container/astro/polaris-extract.c:513-544 | One fill from a seed whose component is untouched records exactly that component, if it fits. |
| FloodModel.FloodKeeps | container/astro/polaris-extract.c:515-544 | Every fill keeps: nothing pushed twice, everything of the seed's component, popped pixels closed unless cut short. |
| FloodModel.VisitCloses | container/astro/polaris-extract.c:529-542 | After the nine cells round a pixel are visited, every bright neighbour is marked. |
| FloodModel.AdjacentIsNear | container/astro/polaris-extract.c:529-535 | The nine cells miss no 8-neighbour, at the image's edges included. |
| FloodModel.SameComponent | container/astro/polaris-extract.c:491-492 | Connection by bright paths is an equivalence: pixels of one component have that component. |
| Flood.VisitCells | container/astro/polaris-extract.c:529-542 | The nested offset loops push exactly the fresh neighbours, in order. |
| Flood.FillBlob | container/astro/polaris-extract.c:513-544 | The worklist loop leaves labels, pixel record and sums exactly as the fill says. |
| Flood.CountPixel | container/astro/polaris-extract.c:516-524 | One pixel added to count, sums and box. |
| Flood.FindStars | container/astro/polaris-extract.c:505-570 | The double loop lists exactly the stars of the scan's blobs. |
| Flood.Offer | container/astro/polaris-extract.c:545-569 | A blob becomes a star exactly when it passes every test and the list has room. |
| Match.ShiftRecovered | container/astro/polaris-match.c:89-131 | If the current field is the reference field moved by (tx, ty), in any order, it is matched iff there are four stars and tol >= 0; then all vote, all refine, and the report is within 2 tol on each axis. |
| Match.FilesRecovered | container/astro/polaris-match.c:77-131 | The same from the lists as read, sorted by flux and cut to `--top`, when nothing is cut. |
| Match.MatchedMeans | container/astro/polaris-match.c:89-131 | On any lists: matched iff some pair gets four votes; `refined_from` equals votes, no pair gets more, and the report is within tol of the winner. |
| Match.ReportIsMean | container/astro/polaris-match.c:89-131 | A match is the mean: the winner is the first pair with the most votes, and the shift reported times `refined_from` is the sum, over the reference stars with an agreeing partner, of the offset to the first one. |
| Match.UnmatchedVotes | container/astro/polaris-match.c:106-110 | Otherwise the report is the most votes any pair got, fewer than four. |
| Match.VotesAreStars | container/astro/polaris-match.c:94-103 | The vote is the number of reference stars with an agreeing partner, each counted once. |
| Match.FullVoteIsClose | container/astro/polaris-match.c:96-103 | A translation every star votes for is within tol of the true one: no extreme star could follow it further. |
| Match.RefinedCountsVotes | container/astro/polaris-match.c:112-126 | The refinement averages exactly as many pairs as voted, each within tol of the winner. |
| Match.LeadIsBest | container/astro/polaris-match.c:90-107 | The leader's vote is at least that of every pair considered. |
| Match.CountVotes | container/astro/polaris-match.c:94-103 | The loops count the reference stars with an agreeing partner. |
| Match.Vote | container/astro/polaris-match.c:89-107 | The nested loops end with the first translation to reach the largest vote. |
| Match.Compare | container/astro/polaris-match.c:65-131 | The whole comparison, refinement included, is the specified outcome. |
| PreviewModel.FetchesPaced | container/stage2_loader.c:746-751 | Over every run, re-inits included, on a clock that does not run back, two fetches are closer than the minimum interval only if the clock read zero at the first. |
| PreviewModel.AdmittedIff | container/stage2_loader.c:648-752 | After any run a call reaches the camera exactly if no latch or window stops it and the minimum interval has passed since the last fetch, or that fetch read zero. |
| PreviewModel.CooldownsAddUp | container/stage2_loader.c:810-832 | Under transient failures alone the fetch j after the one that spends the budget is at least j cooldowns later. |
| PreviewModel.NeverBothLatches | container/stage2_loader.c:762-789 | The two latches are never set together, and a kept code is a transport error. |
| PreviewModel.LatchBlocks | container/stage2_loader.c:648-666 | Either latch answers every call with its one code and fetches nothing until an init succeeds. |
| PreviewModel.LatchedIff | container/stage2_loader.c:754-789 | After any run a latch is set exactly if some fetch was answered with a latching code and no init has succeeded since, and it is the one for that code. |
| PreviewModel.WindowsExpire | container/stage2_loader.c:675-752 | Once the longest window has passed since the last reading, an unlatched gate lets a call through and returns its result. |
| PreviewModel.SettleHolds | container/stage2_loader.c:711-722 | An armed settle window holds back every fetch until it ends, whatever happens meanwhile. |
| PreviewModel.ZeroClockUnpaced | container/stage2_loader.c:747-751 | Under any interval, a second fetch may follow at any time a first made when the clock read zero. |
| PreviewHistory.AnsweredBy | container/stage2_loader.c:640-840 | Every call of every run by its history: after a fatal code and until an init succeeds, that code; inside the cooldown, the settle window or the interval, -110 and no fetch; otherwise a fetch and the camera's answer. |
| PreviewHistory.BudgetIs | container/stage2_loader.c:816-838 | Over every run the counter is the number of passing failures since the last good frame or successful init; the cooldown is armed exactly if that reaches the budget, and runs from the latest of them. |
| PreviewHistory.SettleIs | container/stage2_loader.c:711-722 | The settle window is that of the latest successful init that found live view active, or the clock has passed its end. |
| PreviewHistory.FramesRefillBudget | container/stage2_loader.c:833-838 | With the default settings, failures and frames in turn leave every call admitted. |
| Preview.PreviewGate.CapturePreview | container/stage2_loader.c:627-840 | The shim takes the machine's step and returns its answer. |
| Preview.PreviewGate.Admit | container/stage2_loader.c:648-752 | The gates admit a call exactly when no latch or window stops it, and change only what the step says. |
| Preview.PreviewGate.Classify | container/stage2_loader.c:754-832 | A failed fetch sets a latch, moves the failure budget, or is passed on. |
| Preview.PreviewGate.Init | container/stage2_loader.c:902-916 | A successful init clears every failure mark and keeps the pacing; a failed one changes nothing. |
| RegistryText.ParsePrint | scripts/verify_display_fwver_monotonic.py:72-86 | Parsing what was printed gives the version back. |
| RegistryText.PrintParse | scripts/verify_display_fwver_monotonic.py:72-86 | Whatever parses prints as itself, blanks round it aside: the accepted form is canonical. |
| RegistryText.FamilyOrder | scripts/verify_display_fwver_monotonic.py:298-308 | Within a family the order of tuples is that of the last component. |
| RegistryRun.OneToOneKept | scripts/verify_display_fwver_monotonic.py:143-218 | Bindings that are one-to-one stay so over every run of recordings, crashes between writes included. |
| RegistryRun.NeverReissued | scripts/verify_display_fwver_monotonic.py:249-371 | Versions issued over a run rise strictly above the old baseline and each other and were never in the registry, even if each recording crashed after its first write. |
| RegistryRun.BaselineIsLastIssued | scripts/verify_display_fwver_monotonic.py:279-289 | The baseline is always the last version issued. |
| RegistryRun.AppendOnly | scripts/verify_display_fwver_monotonic.py:185-276 | No version issued and no binding is ever lost. |
| RegistryRun.NextAccepted | scripts/verify_display_fwver_monotonic.py:221-246 | What `--next` prints parses, passes validation, exceeds every known version and is one past one of them. |
| RegistryRun.NextRecorded | scripts/verify_display_fwver_monotonic.py:343-371 | Recording it with new commits goes through all three writes; the file is readable afterwards exactly if both commits are hexadecimal. |
| RegistryRun.BranchNamesRecorded | scripts/verify_display_fwver_monotonic.py:343-371 | Recording the next version with commits named `main` goes through and leaves a two-line file unreadable. |
| RegistryRun.RecordedIff | scripts/verify_display_fwver_monotonic.py:143-371 | A recording writes anything exactly if the candidate is of the baseline's family with a higher last component and not issued, both commits are known, neither it nor they are bound otherwise, and every entry of the file reads back. |
| RegistryRun.ClaimGoes | scripts/verify_display_fwver_monotonic.py:264-275 | A claim goes in right behind the registry's first entry, and nothing else moves. |
| RegistryRun.BindingGoes | scripts/verify_display_fwver_monotonic.py:190-217 | A binding goes in right behind the last binding, or the last registry entry if there is none, unless the very line is there. |
| RegistryRun.HexIs | scripts/verify_display_fwver_monotonic.py:60-64 | A commit that reads back is four to forty lower-case hexadecimal digits. |
| RegistryRun.TryEffect | scripts/verify_display_fwver_monotonic.py:185-289 | What each number of writes leaves in the file: baseline, registry and bindings. |
| RegistryRun.ThirdWrite | scripts/verify_display_fwver_monotonic.py:185-218 | Binding after claiming always succeeds and adds the one binding. |
| Registry.StateFile.ReadLast | scripts/verify_display_fwver_monotonic.py:89-94 | The first baseline entry is the one read. |
| Registry.StateFile.ReadConsumed | scripts/verify_display_fwver_monotonic.py:97-108 | The registry is read in full or refused. |
| Registry.StateFile.ReadBindings | scripts/verify_display_fwver_monotonic.py:111-140 | The map read says exactly what the lines bind; a malformed or contradictory line refuses it. |
| Registry.StateFile.ClaimVersion | scripts/verify_display_fwver_monotonic.py:249-276 | The descending loop that never breaks inserts after the first registry entry. |
| Registry.StateFile.BindVersion | scripts/verify_display_fwver_monotonic.py:185-218 | The binding goes after the last binding, else after the last registry entry; an identical one is not written. |
| Registry.StateFile.Permit | scripts/verify_display_fwver_monotonic.py:292-371 | A recording goes ahead exactly if the candidate parses and the file as read permits it. |
| Registry.StateFile.RecordBaseline | scripts/verify_display_fwver_monotonic.py:279-289 | Every baseline entry is rewritten and nothing else. |
| Registry.StateFile.Record | scripts/verify_display_fwver_monotonic.py:343-371 | The file goes through exactly the specified contents and success is the third write. |
| Registry.StateFile.NextVersion | scripts/verify_display_fwver_monotonic.py:346-352 | The answer is the specified next version, or none if the file is not readable. |
| Registry.NextDisplay | scripts/verify_display_fwver_monotonic.py:221-246 | The search stops at one past the highest known version of the family. |
| Registry.AcceptsIff | scripts/verify_display_fwver_monotonic.py:143-175 | Validating a commit set against the map is validating it against the lines. |
| ImmediateCodec.DecodeEncodedMovw | container/polaris_bulb_poll_budget_patch.py:73-95 | Decoding gives back the operands of every MOVW the encoder makes. |
| ImmediateCodec.EncodeDecodedMovw | container/polaris_bulb_poll_budget_patch.py:73-95 | Every word that decodes is the encoding of what it decodes to. |
| ImmediateCodec.MovImmediateRoundTrip | container/hdmi_geometry_patch.py:37-44 | The decoder undoes the encoder, which gives up exactly when no even rotation of a byte is the immediate. |
| ImmediateCodec.EncodeMovImmediate | container/hdmi_geometry_patch.py:37-44 | The search loop returns the encoding with the least rotation, or none. |
| ImmediateCodec.DecoderTakesAdd | container/polaris_bulb_poll_budget_patch.py:98-115 | An ADD decodes as if it were a MOV. |
| ImmediateCodec.MovwTakenForMov | container/polaris_bulb_poll_budget_patch.py:73-115 | Every word the MOVW encoder makes decodes as a MOV of the same register. |
| ImmediateCodec.DecoderTakesRaised | container/polaris_bulb_poll_budget_patch.py:69-115 | The word the patcher writes, `movw r3, #10000`, decodes as `mov r3, #0x400000`. |
| ImmediateCodec.DecodedIsMovIff | container/polaris_bulb_poll_budget_patch.py:98-115 | For every word: it is a MOV (immediate) exactly when it decodes, its opcode field is 1101 and the field below is zero; and every MOV's operands are read right. |
| ImmediateCodec.ProcessorAgrees | container/polaris_bulb_poll_budget_patch.py:98-115 | Where the modelled processor decodes the word too, condition, register and immediate agree. |
| PollBudget.SiteIs | container/polaris_bulb_poll_budget_patch.py:155-166 | A site is the stock or the one raised word between the two literal neighbours, at an aligned position from 4 to size - 8, both included. |
| PollBudget.FindWaitBudget | container/polaris_bulb_poll_budget_patch.py:142-171 | The search answers a position exactly when one aligned position of the function matches, and says whether it is raised. |
| PollBudget.PatchOnce | container/polaris_bulb_poll_budget_patch.py:174-202 | One word changes; the same position is then found alone and raised; patching again changes nothing. |
| PollBudget.RaisedHere | container/polaris_bulb_poll_budget_patch.py:192-202 | The site's word is the raised one, every other byte as it was, and the position is now the only site. |
| PollBudget.KindAfter | container/polaris_bulb_poll_budget_patch.py:156-166 | Raising one site leaves what every other position is. |
| PollBudget.StockWord | container/polaris_bulb_poll_budget_patch.py:185-187 | The stock word is `mov r3, #600` to the decoder and to the processor. |
| PollBudget.PatchData | container/polaris_bulb_poll_budget_patch.py:174-202 | The in-place patch returns the specified image; its own round-trip checks never fail. |
| Stage2.ReliabilityRanges | container/stage2_patch.py:172-193 | The two-index loop returns exactly the maximal runs of differing bytes, ascending; images of different size are refused. |
| Stage2.ProtectedAre | container/stage2_patch.py:172-193 | The runs cover exactly the bytes at which the two images differ. |
| Stage2.SlotsClearIff | container/stage2_patch.py:235-243 | Slots and segments are clear of each other exactly if no slot has an address inside a segment. |
| Stage2.RunsUnique | container/stage2_patch.py:172-193 | There is one such list for two images. |
| Stage2.GuardIff | container/stage2_patch.py:305-314 | The guard refuses exactly when a trampoline would overwrite a byte that differs from stock. |
| Stage2.GuardProtects | container/stage2_patch.py:325-330 | Once the guard has passed every protected run survives all writes. |
| Stage2.OnlyEntriesChange | container/stage2_patch.py:317-322 | Only the twelve bytes at each entry change. |
| Stage2.Patch | container/stage2_patch.py:237-330 | Slot overlap, size mismatch and collision are refused; otherwise the image is the base with every trampoline, and the re-check never fires. |
| Stage2.EntryJumps | container/stage2_patch.py:317-322 | Executing entry i jumps in two loads through slot base + 4i, if no later trampoline overlaps it. |
| Stage2.TrampolineStands | container/stage2_patch.py:317-322 | A trampoline no later one overlaps is intact in the final image. |
| RateModel.RampEnvelope | tools/polaris_rate_protocol.py:107-123 | Over any run with no stop, each axis moves at most max_accel times the time between first and last accepted request, plus the slack per step, though the axes share one clock. |
| RateModel.AlwaysSafe | tools/polaris_rate_protocol.py:93-139 | Over every run no axis exceeds the rate limit and a stopped head stands still. |
| RateModel.RefusalsLeaveNoTrace | tools/polaris_rate_protocol.py:107-123 | Leaving the refused requests out of any run changes no other decision and not the state reached. |
| RateModel.TickStopsIff | tools/polaris_rate_protocol.py:125-136 | After any run a tick stops the head and reports the watchdog exactly unless some accepted request is at most the watchdog time old; then it changes nothing. |
| RateModel.TurningWasCommanded | tools/polaris_rate_protocol.py:107-130 | After a tick an axis turns only if a request was accepted within the watchdog before it. |
| RateModel.JogStoppedIff | tools/polaris_rate_protocol.py:157-175 | Driven by jog frames alone the stop flag says exactly whether every axis stands still. |
| RateModel.RequestSets | tools/polaris_rate_protocol.py:107-123 | A request sets the axis its frame names to the rate its frame carries, and no other, exactly if that is within the limit and in reach since the last accepted request; else nothing changes. |
| RateModel.JogSets | tools/polaris_rate_protocol.py:157-175 | So does a jog request, with its speed zero or between floor and limit; the stop flag then says whether every axis is at rest. |
| RateModel.SinglesAre | tools/polaris_rate_protocol.py:54 | What fixes the value of every finite single: sign, equal steps from one to two, doubling with the exponent, multiples of the least below. |
| RateModel.FrameRoundTrip | tools/polaris_rate_protocol.py:38-57 | A rate frame decodes to its axis and the value of its single. |
| RateModel.FrameIs | tools/polaris_rate_protocol.py:38-57 | Seven bytes are a rate frame exactly with the prefix, an axis and a single that is finite, and each is the encoding of what it says. |
| RateModel.DecodeEncodedJog | tools/polaris_rate_protocol.py:60-79 | A jog frame decodes to what was encoded. |
| RateModel.EncodeDecodedJog | tools/polaris_rate_protocol.py:60-79 | Every jog frame that decodes is the encoding of what it says. |
| Rate.Safety.Command | tools/polaris_rate_protocol.py:107-123 | A rate request takes the machine's step and reports whether it was granted. |
| Rate.Safety.CommandJog | tools/polaris_rate_protocol.py:157-175 | A jog request takes the machine's step and reports whether it was granted. |
| Rate.Safety.Watch | tools/polaris_rate_protocol.py:125-130 | A tick takes the machine's step. |
| Rate.Safety.Disconnect | tools/polaris_rate_protocol.py:132-139 | A lost link takes the machine's stop step with its own reason. |

## Left out

* Sockets, file I/O, ELF parsing, symbol lookup, hashing, disassembly, memory mapping and signal handling. Offsets,
  addresses, byte arrays, clock readings and library answers are parameters.
* Floating-point rounding. Matcher, centroids, jog times and the rate envelope are over the reals; infinities and NaN
  do not occur, and the rounding of a rate to a single on encoding is taken as done.
* The star matcher's file parsing, and the extractor's JPEG decoding, tile statistics, half-flux radius, final sort
  and `maxstars` cut, text output and focus metric. Background and noise come per pixel.
- FloodScan.EachComponentOnce: says nothing of components larger than `maxpix`, because the code cuts them short and finds their rest again; `FloodScan.BlobIsComponent` gives the exact condition.
* The trampoline runs on the registers it names; r5 to r10 and r12 are not modelled. Memory is word-addressed with
  byte reads, and a callee may change r0-r3, lr, flags and memory within its contract.
- BulbOracle.OracleExists: puts the library's strings clear of the stack and of the trampoline, where nothing else decides their bytes.
- BulbPatch.PackTable: walks the offsets upwards rather than in the order the words are written down; the offsets are distinct, so the blob is the same.
- BulbImage.PatchFrame: assumes the patched sites pairwise disjoint, as a resolved image has them.
- BulbGate.PatchedIff: assumes the same; `BulbGate.PatchedIsReady` and `BulbGate.RefusalsNamed` assume nothing of the kind.
- BulbGate.CarriesIff: takes the segment's sizes to be the ones the file's header holds, as they were read from it.
* The page rounding before the cave check is by division instead of bit masks; they agree for the powers of two the
  code insists on.
* Reconnection, heartbeat, registration timing and the poll loop of the control link; `tx_drain` closes the connection on a fault without
  moving the next attempt, so no spacing between attempts is claimed. A NUL byte inside a payload is kept, not taken
  for the end of a string.
- JogWire.WireDiscipline: takes a head to keep what it was last told; a head that stops of itself when its link is lost is not modelled. A frame may be refused or lost at will, but not delivered twice or out of order.
* `jog_set` with the most negative int, whose negation C leaves undefined, and the jog status text.
* The frame store's 64-bit generation wrap and the unlocked readings of `initialized` before each lock. A view belongs
  to the store it was acquired from.
* The preview gate when it is switched off, the camera is of another make or the library function is missing: the
  call then passes straight through. Its logging counters. Init refused during a capture: that test is not atomic with
  the call. Settings are fixed for a run; the source reads them on every call.
* The text of the version registry below the level of lines: which pattern a line matches is given. Blank lines at the
  end of the file, which a rewrite trims, and command-line commits that contain a line break.
* `enc_movw` and `enc_any` of the geometry patcher: the former computes three immediate bits and never uses them, so
  no round trip holds.
* Which boundary symbols resolve, are large enough and executable, in the stage 2 patcher; its manifest and generated header.
- Stage2.EntryJumps: asks that no later trampoline overlaps the entry's, because the last of two overlapping ones wins.
* `JogSafety` as a subclass: both kinds of request are methods of one class, with one set of limits.
* The slow rate planner, fake head, astronomy session, catalogue tools, web interface, log watching, solve-result
  tagging and release scripts other than the registry, whose claims would be easy beside these.
