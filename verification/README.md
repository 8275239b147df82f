# Korri verification models

Dafny models of six parts of this repository, with proofs of what each part is for.

| part | files | form |
|---|---|---|
| Binary-cache publication: several publishers add immutable assets to a GitHub release and immutable metadata to a git branch | `Narinfo`, `Publication`, `PublicationRuns`, `PublicationContest`, `PublicationWitness`, `ReleaseListing`, `ReleaseUpload` | a state machine over interleaved publishers, and classes with the loops of `push_metadata`, `assets` and `upload_files` |
| Stream-cadence measurement: a painted 24-bit frame ID, its search and decoding, clock bridges, window accounting | `FrameCode`, `FrameRows`, `FrameReader`, `FramePainters`, `FrameSearch`, `FrameRoundTrip`, `Clock`, `Windows`, `FrameCounts`, `Presentations`, `Score` | loops over arrays and sequences proved against specification functions |
| Plugin receipt cutover: crash-safe replacement with rollback | `Receipts`, `Cutover` | a class whose writes may stop anywhere, and runs of applies, rollbacks and crashes |
| Portal shell pipe: NUL framing with a bounded buffer, readiness from browser events | `Framing`, `Pipe`, `Readiness` | classes with the source's fields over a byte stream and an event trace |
| Launch settings: a dotted key resolved to one typed path, assignments folded into one record | `Settings`, `Overrides` | loops proved against an order-free definition |
| Title wrapping and polygon clipping | `Wrap`, `Clip`, `ClipMeaning`, `ClipOrder` | loops proved against specification functions over the reals |

`Options`, `Strings` and `Arithmetic` hold what several modules share.

## Reading the models

- *Publication.* `Publication.System` holds the releases, the whole history of the index branch, and every
  publisher's phase. An `Action` is one remote effect or one local decision of one publisher; a landing push or an
  insertion may lose its reply. `Inv` is kept by every step (`StepKeepsInv`), so what `PublicationRuns` concludes
  holds in every interleaving. `Checkout` and `Release` are the local loops over the same data. `Site` stands for the
  functions the model cannot see (SHA-256, Nix's hash conversion, the HTTPS check, Python's `int`); every result
  holds for any choice of them.
- *Frame IDs.* A byte is a `Reg` of eight bits and the CRC is the remainder of a polynomial; `Crc` is the byte-wise
  loop, proved equal to it. `Paint` fills a two-dimensional array, `PaintFrameBar` a flat buffer.
- *Measurement.* `Windows.Mark` says which window an event falls in; a counter array is tied to the tally of a
  sequence of marks, so that windows, totals and conservation are statements about those sequences.
- *Nondeterminism.* Rivals, read sizes, deadlines, stop requests, lost replies and crashes are arbitrary choices
  inside the methods; every `ensures` holds for all of them.

## Findings

- The painters' shared guard `height >= 6 * cell` does not keep the second row inside the image: `GuardTooWeak`
  gives an 80 by 12 image, and `RowsFitExactly` says when the rows fit. `bar.py` then drops lines silently;
  `frame-bar.h` would write past its buffer, so `PaintFrameBar` requires the exact condition.
- A painted image is found again exactly when some scanned line crosses the upper row with its partner line inside
  the image; a scanning step of at most two cells is enough, also where the second row is cut (`PaintSearchRead`,
  `SmallStepScans`).
- Twenty attempts are enough for twenty publishers and not for more: `NobodyFails` against `LosesFromTheStart`, and
  `TwentyOneCanFail` gives a concrete start of twenty-one agreeing publishers.
- `changed_approvals` keys approvals by identity, so one approval can stand for several changed selections that share
  one (`SharedIdentityNeedsOne`). It is one approval each exactly when they do not (`OneApprovalEach`), which
  `prepare` guarantees (`Prepare`).
- Whether the pipe can overrun depends on the stream: no chunking fails exactly when after every message, and at the
  end, one more whole read or what is left of the stream still fits the limit (`ExactlyRoomyPasses`). Messages no
  longer than the limit less one read buffer are always safe (`ShortMessagesPass`); with one byte more, followed by
  enough of the stream, some chunking fails (`OneMoreByteCanFail`).
- `new_frames` counts distinct IDs only because `read` never reports a torn frame with equal IDs; in general it is
  the distinct IDs plus one for each such frame (`NewAreFirstSeen`).
- A family key's value need only conform to one of the family's runner schemas; those that refuse the input are
  ignored. `OneSchemaIsEnough` resolves 50 for two runners, the first of which allows at most 10. The value is every
  schema's own reading, and conforms to all, exactly when every offered schema accepts the input
  (`AllSchemasAgree`).

## Model

| member | source | states |
|---|---|---|
| Narinfo.MetadataExactly | nix/cache/github-cache.py:41-51 | A file is read exactly when every line is a field, none but the signature repeats and the last signature is not empty; each key then has the value of its last line |
| Narinfo.FieldsWithoutUrl | nix/cache/github-cache.py:531-542 | Dropping the URL lines before parsing drops exactly the URL field |
| Narinfo.EquivalentFields | nix/cache/github-cache.py:531-542 | Two files that the equivalence accepts agree on every field but the URL, so a retained first file records the same hash and size |
| Publication.Checkout.AddPath | nix/cache/github-cache.py:586-599 | One path is added, or kept when it is the same or differs only in its URL, or refused; the whole new tree and the bytes answered for |
| Publication.Checkout.AddPaths | nix/cache/github-cache.py:585-599 | The loop makes exactly the staged tree of all paths, or stops with the conflict the batch has |
| Publication.Checkout.AddFiles | nix/cache/github-cache.py:585-608 | The commit's tree and the expected bytes are those of `Stage` on the cloned tree, the marker file included |
| Publication.StageFacts | nix/cache/github-cache.py:585-608 | A staged commit contains the old tree unchanged, and the answered bytes are in it for every name of the batch |
| Publication.ReadyRecordsBacked | nix/cache/github-cache.py:768-805 | Once a publisher's NARs are public in its release, each record of its batch is backed by one of them |
| Publication.StepGrows | nix/cache/github-cache.py:545-873 | Every step of any publisher only adds assets, only makes releases public, and only appends trees that contain the earlier ones |
| Publication.TreesStayBacked | nix/cache/github-cache.py:768-873 | Every step keeps all metadata in every tree of the branch backed by a public asset of the recorded size and hash |
| Publication.StagedOk | nix/cache/github-cache.py:583-608 | Staging leaves a commit above the clone to push, or bytes that are on the branch already |
| Publication.LandedOk | nix/cache/github-cache.py:618-631 | A landing push, with or without its reply, leaves the publisher's bytes on the branch |
| Publication.StepKeepsInv | nix/cache/github-cache.py:545-873 | The protocol invariant is kept by every enabled step |
| PublicationRuns.EveryRecordBacked | nix/cache/github-cache.py:829-873 | In every reachable state each narinfo ever on the branch names a public asset with its recorded size and hash |
| PublicationRuns.BranchOnlyGrows | nix/cache/github-cache.py:545-631 | Through every run each later tree contains each earlier one byte for byte |
| PublicationRuns.PublicationStays | nix/cache/github-cache.py:829-873 | Through every run releases keep their assets and public releases stay public |
| PublicationRuns.ReturnedBytesStay | nix/cache/github-cache.py:606-631 | The bytes `push_metadata` returns cover the batch, are on the branch then and in every later state, even when only the reply was lost |
| PublicationRuns.RetainedUrlServesOwnNar | nix/cache/github-cache.py:531-542 | A first URL kept from another publisher serves an asset that matches this publisher's own NAR |
| PublicationRuns.OthersOnly | nix/cache/github-cache.py:583-631 | A publisher that has not returned leaves at most the others to have landed commits |
| PublicationRuns.FairStepCounted | nix/cache/github-cache.py:583-631 | Each lost attempt stays matched by a different publisher's landed commit, so no fair step exhausts the attempts |
| PublicationRuns.SourcedNeverClashes | nix/cache/github-cache.py:583-608 | A batch that agrees with all writers can be staged on any tree they made |
| PublicationRuns.FairStepHealthy | nix/cache/github-cache.py:583-631 | A fair step of agreeing publishers keeps all of them from failing |
| PublicationRuns.NobodyFails | nix/cache/github-cache.py:583-631 | With at most 20 agreeing publishers and pushes that fail only by losing the race, no run makes anybody fail |
| PublicationRuns.InitialHealthy | nix/cache/github-cache.py:583-631 | Every start of agreeing publishers meets the assumption of `NobodyFails` |
| PublicationContest.AllStillStage | nix/cache/github-cache.py:585-608 | Landing one batch leaves every waiting contestant a commit to push |
| PublicationContest.LosesEveryRace | nix/cache/github-cache.py:583-631 | From a race a fair run exists in which one publisher loses all its attempts |
| PublicationContest.LosesFromTheStart | nix/cache/github-cache.py:545-873 | With more than 20 publishers that did nothing yet, each with its NARs public and files of its own, there is such a fair run |
| PublicationWitness.TextFields | nix/cache/github-cache.py:41-51 | A concrete metadata text reads as its four fields |
| PublicationWitness.TwentyOneCanFail | nix/cache/github-cache.py:545-873 | A concrete start of 21 accepted, agreeing batches meets the assumptions of `NobodyFails` but the count, and one publisher can run out of attempts |
| ReleaseListing.IndexMovesUp | nix/cache/github-cache.py:456-492 | In a name-ordered listing insertions move an asset only towards the end |
| ReleaseListing.GrowthHidesNothing | nix/cache/github-cache.py:456-492 | An asset present at the start of a scan never shifts into pages already read unread |
| ReleaseListing.BetweenIds | nix/cache/github-cache.py:456-492 | A second scan's IDs include all of the first's, which is the acceptance condition |
| ReleaseUpload.Release.ReadBatch | nix/cache/github-cache.py:456-492 | A page adds all its assets, keeps the earlier ones, and never shows one name with two IDs |
| ReleaseUpload.Release.Scan | nix/cache/github-cache.py:456-492 | A scan over shifting pages returns a set between the remote set at its start and at its end |
| ReleaseUpload.Release.Assets | nix/cache/github-cache.py:456-492 | The listing is accepted on the second scan and never refused for its content |
| ReleaseUpload.HeldKept | nix/cache/github-cache.py:495-542 | A stored or equivalently retained file stays so while assets are only inserted |
| ReleaseUpload.HeldNorCollides | nix/cache/github-cache.py:495-542 | A file that is held never collides |
| ReleaseUpload.Release.CheckCollisions | nix/cache/github-cache.py:671-681 | The pass before the first write accepts only names that match or are equivalent, and remembers which first files are retained |
| ReleaseUpload.Release.Reconcile | nix/cache/github-cache.py:704-731 | After a failed POST only a stored asset that matches or is equivalent is accepted |
| ReleaseUpload.Release.Send | nix/cache/github-cache.py:685-735 | At most one POST per missing file; success means the bytes or an equivalent first file are stored |
| ReleaseUpload.Release.Verify | nix/cache/github-cache.py:736-750 | The final listing never contradicts what was settled |
| ReleaseUpload.Release.SendMissing | nix/cache/github-cache.py:682-735 | Requests are at most one for each listed file, never for a name the snapshot had, and every file ends settled |
| ReleaseUpload.OnceEach | nix/cache/github-cache.py:682-735 | For files of different names, each name is requested at most once |
| ReleaseUpload.Release.UploadFiles | nix/cache/github-cache.py:665-750 | No asset is replaced; a conflicting snapshot posts nothing; on success every file is stored or equivalently retained; if all were held nothing is posted |
| ReleaseUpload.UploadTwice | nix/cache/github-cache.py:665-750 | A rerun after success posts nothing, whatever the rivals did between |
| FrameCode.RemLinear | nix/stream-cadence/bar.py:41-47 | The CRC register is linear in the fed cells and the start value |
| FrameCode.Parity | nix/stream-cadence/frame-bar.h:8-15 | The register's parity counts the lit cells, so odd errors always show |
| FrameCode.PowersDiffer | nix/stream-cadence/frame-bar.h:8-15 | No power of x up to 31 is 1 modulo the generator x^8+x^2+x+1 |
| FrameCode.FewCellsShow | nix/stream-cadence/bar.py:41-47 | No error of one to three cells in a 32-cell word leaves the remainder zero |
| FrameRows.ShiftIsTheLoopBody | nix/stream-cadence/bar.py:45-46 | The register step is the integer shift, mask and XOR of both loops |
| FrameRows.AddIsTheByteXor | nix/stream-cadence/bar.py:44 | Adding registers is the exclusive or with which both loops start a byte |
| FrameRows.Crc | nix/stream-cadence/bar.py:41-47 | The byte-wise loops compute the polynomial remainder of the ID times x^8 |
| FrameRows.WordRemainder | nix/stream-cadence/frame-bar.h:8-21 | The ID followed by its CRC has remainder zero |
| FrameRows.DecodeExactly | nix/stream-cadence/bar.py:86-94 | A row reads as an ID exactly when it is the row painted for that non-zero ID |
| FrameRows.MinimumDistance | nix/stream-cadence/bar.py:57-97 | Rows of different IDs differ in at least four cells |
| FrameRows.FlippedRowUnreadable | nix/stream-cadence/bar.py:75-97 | One to three flipped cells never read as any ID |
| FrameRows.FourFlipsConfuse | nix/stream-cadence/bar.py:57-97 | The distance is exactly four: every ID has a neighbour four flips away |
| FrameReader.ReadValues | nix/stream-cadence/bar.py:82-97 | The row loop gives the clean, torn or unreadable frame of the two rows, with the first failing row's reason |
| FrameReader.TornIdsDiffer | nix/stream-cadence/bar.py:92-97 | A torn frame carries two different IDs and no frame carries ID zero |
| FrameReader.FlippedCellsUnreadable | nix/stream-cadence/bar.py:75-97 | One to three flips in either row make the frame unreadable whatever the other row shows |
| FrameReader.NoiseMargin | nix/stream-cadence/bar.py:82-97 | Sample noise up to 62 reads clean and up to 151 never gives another or a torn ID |
| FrameReader.NoiseLimitExact | nix/stream-cadence/bar.py:84-85 | Noise of 63 can hide any frame |
| FrameReader.NoiseMixes | nix/stream-cadence/bar.py:82-97 | Noise of 152 can make an ID with four lit cells that lead to its neighbour read torn with that neighbour |
| FrameReader.NineCanMix | nix/stream-cadence/bar.py:82-97 | ID 9 is such an ID, so 151 is exact |
| FrameReader.SplicedRowsTorn | nix/stream-cadence/bar.py:95-97 | Rows spliced from two IDs read as torn of exactly those two, also under noise up to 62 |
| FramePainters.BarFitsWidth | nix/stream-cadence/bar.py:52-56 | The bar keeps two cells of margin on each side |
| FramePainters.GuardTooWeak | nix/stream-cadence/frame-bar.h:17-20 | The guard admits an image whose second row does not fit |
| FramePainters.RowsFitExactly | nix/stream-cadence/frame-bar.h:17-26 | The rows are inside the image exactly when a quarter of the height plus five cells is |
| FramePainters.FillRect | nix/stream-cadence/bar.py:61-64 | A slice assignment sets exactly the rectangle's pixels inside the image |
| FramePainters.Paint | nix/stream-cadence/bar.py:50-65 | The image is refused exactly by the guard; otherwise every pixel has its cell's value or the background |
| FramePainters.FillBlock | nix/stream-cadence/frame-bar.h:25-26 | The two inner loops set exactly the cell's pixels of the flat buffer |
| FramePainters.PaintFrameBar | nix/stream-cadence/frame-bar.h:16-29 | The C painter refuses alike, replaces exactly the bar's pixels and stays in the buffer when the rows fit |
| FramePainters.PaintersAgree | nix/stream-cadence/frame-bar.h:22-26 | Both painters light and darken the same pixels and leave the same background |
| FrameSearch.Read | nix/stream-cadence/bar.py:75-97 | Sampling at a location gives the frame of its two sampled rows, or unreadable outside the image |
| FrameSearch.Edges | nix/stream-cadence/bar.py:103-104 | The edge list is all brightness changes of the line in order |
| FrameSearch.ScanLine | nix/stream-cadence/bar.py:106-112 | A line gives a readable candidate if it has one |
| FrameSearch.Search | nix/stream-cadence/bar.py:100-115 | A returned location is a readable candidate of a scanned line; none is returned only when no candidate of any scanned line reads |
| FrameRoundTrip.EdgeAligned | nix/stream-cadence/bar.py:50-65 | A painted image changes brightness along a line only at cell boundaries of the bar rows |
| FrameRoundTrip.OnlySyncReads | nix/stream-cadence/bar.py:100-112 | On a painted image no candidate but the sync of the upper row reads |
| FrameRoundTrip.SyncReadsClean | nix/stream-cadence/bar.py:75-97 | The sync's location samples exactly the painted cells |
| FrameRoundTrip.FoundIsClean | nix/stream-cadence/bar.py:100-115 | Whatever the search may return on a painted image reads clean with the painted ID |
| FrameRoundTrip.ScannedLineReads | nix/stream-cadence/bar.py:100-115 | Every scanned line of the upper row with its partner inside finds the bar |
| FrameRoundTrip.PaintSearchRead | nix/stream-cadence/bar.py:50-115 | Paint, search and read give back the ID exactly when such a line exists, and so whenever the sampling step is at most two cells |
| FrameRoundTrip.SmallStepScans | nix/stream-cadence/bar.py:102 | A sampling step of at most two cells always has such a line, on every image the painter accepts |
| Clock.MakeBridge | nix/stream-cadence/score.py:57-63 | A bridge is made exactly when both clocks run forward between the samples |
| Clock.BridgeMonotoneAndExact | nix/stream-cadence/score.py:71-75 | The conversion is monotone and exact at both samples |
| Clock.BridgeError | nix/stream-cadence/score.py:57-76 | Between the samples the conversion errs by at most the reported half-width plus a nanosecond and a half of rounding |
| Clock.ReceiveMonotonic | nix/stream-cadence/receive-clock.h:10-19 | No 64-bit step wraps: the result is that of the integers, and is refused exactly when it would be negative or the clocks reversed |
| Clock.ReceiveError | nix/stream-cadence/receive-clock.h:10-19 | The bridged receive time errs by less than half its bracket plus 1000.5 nanoseconds |
| Clock.LatencyError | nix/stream-cadence/score.py:198-205 | Both bounds and the whole-millisecond stamp together bound every latency sample |
| Windows.BucketInterval | nix/stream-cadence/score.py:141-148 | A scored window is exactly its half-open interval and no index passes the last window |
| Windows.BucketElsewhere | nix/stream-cadence/score.py:141-148 | The warm-up is its own bucket and only times before the recording or past the last window are outside |
| Windows.BucketInRange | nix/stream-cadence/score.py:141-148 | Every bucket is an existing one |
| Windows.Conserved | nix/stream-cadence/score.py:141-148 | Events over all buckets plus those outside total the events |
| Windows.SumIsTotal | nix/stream-cadence/score.py:255-258 | Summed counters are the tally over the buckets |
| FrameCounts.CountNew | nix/stream-cadence/score.py:192-197 | The inner loop adds one per unobserved ID, and one per such ID never presented |
| FrameCounts.AddFrame | nix/stream-cadence/score.py:161-206 | One frame's counters change exactly as its kind and window say |
| FrameCounts.CountFrames | nix/stream-cadence/score.py:153-206 | The frame loop's counters are the tallies of received, torn, unreadable and new IDs of the recording |
| FrameCounts.FramesPartition | nix/stream-cadence/score.py:182-191 | Each frame of a window counts as exactly one of clean, torn or unreadable |
| FrameCounts.FirstIsFirst | nix/stream-cadence/score.py:192-206 | The first frame of an ID shows it and no earlier one does |
| FrameCounts.NewAreFirstSeen | nix/stream-cadence/score.py:192-206 | New frames of a window are the distinct IDs first seen there, plus one for each doubled frame |
| FrameCounts.NewOverAll | nix/stream-cadence/score.py:192-206 | Over all windows they are the distinct IDs first seen in a bucketed frame |
| FrameCounts.ReadNeverDouble | nix/stream-cadence/bar.py:95-97 | Frames that `read` makes are never doubled |
| Presentations.ReadFeedback | nix/stream-cadence/score.py:25-44 | Feedback is accepted exactly when something was presented, no ID twice, none also discarded |
| Presentations.RefusedExactly | nix/stream-cadence/score.py:215-219 | Presentations are refused exactly when two of them clash in sequence and time, in whatever order the lines came |
| Presentations.SequenceSorts | nix/stream-cadence/score.py:215 | The order used is sorted by sequence and loses nothing |
| Presentations.EstimateBetween | nix/stream-cadence/score.py:220-221 | Every estimated miss time lies between its neighbours, in order |
| Presentations.TimelineComplete | nix/stream-cadence/score.py:215-234 | Presentations and misses together are every vblank from first to last once, in order, with times that never go back |
| Presentations.CountGap | nix/stream-cadence/score.py:220-224 | The inner loop counts each missed vblank of one gap in its window |
| Presentations.CountSourceMisses | nix/stream-cadence/score.py:215-224 | The loop raises exactly on non-monotonic feedback and otherwise counts all misses by window |
| Presentations.CountCaptureMisses | nix/stream-cadence/score.py:208-211 | The loop counts each presentation that no readable frame shows in its window |
| Presentations.CapturesSplit | nix/stream-cadence/score.py:208-211 | Each presented ID of a window is shown somewhere or exactly one capture miss of that window |
| Presentations.VblanksSplit | nix/stream-cadence/score.py:215-224 | In each window, and outside, vblanks are presentations plus source misses |
| Presentations.WindowAccounted | nix/stream-cadence/score.py:207-234 | Every vblank of a window was decoded somewhere, is a capture miss or is a source miss |
| Presentations.VblanksConserved | nix/stream-cadence/score.py:207-234 | Over all windows plus outside, presentations and source misses total last sequence minus first plus one |
| Score.CheckForward | nix/stream-cadence/score.py:108-111 | Comparing neighbours decides whether the receive clock ever reverses |
| Score.Measure | nix/stream-cadence/score.py:161-290 | The report's counters are those of the recording and the feedback, the gate and both invalid outcomes exactly as defined |
| Score.Score | nix/stream-cadence/score.py:89-290 | A recording is refused exactly when an input condition fails; otherwise the measurement is made over its windows |
| Score.CoverageEnds | nix/stream-cadence/score.py:266-273 | All windows are covered exactly when the feedback spans the scored time |
| Score.GateMeans | nix/stream-cadence/score.py:262-264 | A passed gate means every scored frame was read and every scored presentation was shown |
| Score.ReportAccounts | nix/stream-cadence/score.py:182-234 | In a report, a window's vblanks are decoded presentations, capture misses and source misses; its frames clean, torn and unreadable |
| Score.NewFramesTotal | nix/stream-cadence/score.py:192-206 | In a report, new frames total the distinct IDs first seen in a window |
| Receipts.ReadReceipts | nix/cache/migrate-plugin-receipts.py:47-67 | The selections are read exactly when every entry is expected and one is a plugin; they are all the plugins' bytes |
| Receipts.MixedSettled | nix/cache/migrate-plugin-receipts.py:81-101 | Every mixture of before and after receipts is settled where the before side was |
| Receipts.KeyedIsLast | nix/cache/migrate-plugin-receipts.py:200-206 | The seeded graph holds the last receipt of each identity |
| Receipts.BuildAfter | nix/cache/migrate-plugin-receipts.py:209-223 | The loop builds each replacement or stops at a selection that cannot migrate |
| Receipts.Prepare | nix/cache/migrate-plugin-receipts.py:130-225 | Preparation succeeds exactly under its conditions; package, previous, identity and enabled state are preserved and identities are distinct |
| Receipts.ReplacedKeeps | nix/cache/migrate-plugin-receipts.py:211-223 | One replacement keeps package, previous, identity and enabled state |
| Cutover.ReadApprovals | nix/cache/migrate-plugin-receipts.py:245-250 | Approvals are read exactly when they are distinct ID=DIGEST values, each under its own name |
| Cutover.ApprovalKeys | nix/cache/migrate-plugin-receipts.py:122-127 | The needed approvals are for the identities of the changed selections |
| Cutover.OneApprovalEach | nix/cache/migrate-plugin-receipts.py:122-127 | One approval per changed selection exactly when these share no identity |
| Cutover.OwnApproval | nix/cache/migrate-plugin-receipts.py:122-127 | When they share none, each approval is that selection's own digest |
| Cutover.SharedIdentityNeedsOne | nix/cache/migrate-plugin-receipts.py:122-127 | Two changed selections under one identity need only one approval |
| Cutover.ReviewedApproves | nix/cache/migrate-plugin-receipts.py:245-252 | After `prepare`, an allowed apply carries one approval with the exact digest for each changed selection |
| Cutover.WriteSide | nix/cache/migrate-plugin-receipts.py:227-232 | One side of the backup is written completely, or a crash leaves it visibly incomplete |
| Cutover.WriteBackup | nix/cache/migrate-plugin-receipts.py:226-232 | However far a crashed preparation got, a backup that `replace` would use is complete |
| Cutover.State.Write | nix/cache/migrate-plugin-receipts.py:272-273 | Each receipt is its old or its target bytes after a crash anywhere, and all are the target's after the loop |
| Cutover.State.Review | nix/cache/migrate-plugin-receipts.py:244-262 | The apply guards hold exactly when every change is approved and the reviewed bindings are active |
| Cutover.State.Replace | nix/cache/migrate-plugin-receipts.py:238-278 | A refused guard writes nothing; otherwise the writes, perhaps interrupted, of the chosen side |
| Cutover.RunsStayMixed | nix/cache/migrate-plugin-receipts.py:263-273 | After any run every live receipt is its before or after bytes over the same keys, and the state is settled |
| Cutover.NeverStuck | nix/cache/migrate-plugin-receipts.py:265-269 | After any run a rollback is allowed, and an apply exactly when it is reviewed |
| Cutover.Completes | nix/cache/migrate-plugin-receipts.py:238-278 | After any run an uninterrupted rollback reaches all-before, a reviewed apply all-after, and an unreviewed one changes nothing |
| Cutover.PreparedIsSound | nix/cache/migrate-plugin-receipts.py:209-225 | A prepared cutover meets the assumptions of the run results |
| Readiness.PortalReadiness.Observe | clients/linux/src/main.rs:264-305 | One message changes the context table and the consumed context as its event says |
| Readiness.TableIsHistory | clients/linux/src/main.rs:271-293 | A context is marked exactly when its latest lifecycle event created it with the configured session, frame, origin and default flag |
| Readiness.ConsumedIsHistory | clients/linux/src/main.rs:282-303 | The consumed context is the one the last accepted binding call named, unless its destruction or a clear followed |
| Readiness.OthersIgnored | clients/linux/src/main.rs:266-268 | Messages of other sessions change nothing |
| Framing.SplitRoundTrip | clients/linux/src/main.rs:352-359 | Splitting a stream at NUL and joining it again loses nothing |
| Framing.JoinRoundTrip | clients/linux/src/main.rs:352-359 | Joining NUL-free messages and splitting gives them back |
| Framing.ReadsAreSplit | clients/linux/src/main.rs:347-387 | Whatever the chunks, the messages taken are the stream split at NUL |
| Framing.RoomEverywhere | clients/linux/src/main.rs:368-376 | Ends of messages are the tightest places of a stream |
| Framing.RoomyPasses | clients/linux/src/main.rs:347-387 | In a stream with room after every message no chunking into reads of at most 8192 fails |
| Framing.CrowdedFails | clients/linux/src/main.rs:347-387 | Where the room is missing, reading byte by byte up to that place and then a whole buffer fails |
| Framing.ExactlyRoomyPasses | clients/linux/src/main.rs:347-387 | All chunkings of a stream pass exactly when it has that room after every message |
| Framing.ShortStreamRoomy | clients/linux/src/main.rs:370-376 | A stream within the limit as a whole never fails |
| Framing.ShortMessagesPass | clients/linux/src/main.rs:368-376 | No chunking into reads of at most 8192 fails when messages are no longer than the limit less 8192 |
| Framing.OneMoreByteCanFail | clients/linux/src/main.rs:368-376 | With one byte more in a message, followed by enough of the stream, some chunking fails |
| Pipe.Protocol.constructor | clients/linux/src/main.rs:338-344 | A new protocol has delivered nothing and owns the whole stream |
| Pipe.Protocol.Deliver | clients/linux/src/main.rs:352-359 | Delivery takes the first pending message and readiness observes it once |
| Pipe.Protocol.Fill | clients/linux/src/main.rs:368-384 | A read keeps the stream and the limit, and fails for length only where the stream has no room for it |
| Pipe.Protocol.Receive | clients/linux/src/main.rs:347-387 | One message is delivered, the stream's next, or none; each failure says why; nothing is lost unless the stream has no room for a read |
| Pipe.Protocol.Command | clients/linux/src/main.rs:389-423 | The reply is the first later message with the new sequence number; all messages before it are delivered and observed in order |
| Pipe.Protocol.Await | clients/linux/src/main.rs:407-414 | Messages with other ids are delivered and passed over; only the last may carry the sequence number |
| Pipe.NextFrame | clients/linux/src/main.rs:352-359 | The first pending message is the stream's next one |
| Pipe.DeliveredIsSplit | clients/linux/src/main.rs:346-424 | In every state the delivered messages are the first of the stream's split and the pending bytes begin the rest |
| Settings.Scalar | clients/cli/src/launch_settings.rs:415-449 | The value is the input's reading under the schema's type and conforms to its type, choices and bounds; it is refused exactly when no reading does |
| Settings.Builtin | clients/cli/src/launch_settings.rs:562-583 | A built-in path prints as the key that named it |
| Settings.BuiltinValue | clients/cli/src/launch_settings.rs:584-624 | Limits are percentages: minimum 0 to 100, maximum 1 to 100 |
| Settings.ParsesPrinted | clients/cli/src/launch_settings.rs:609-611 | A printed number reads back, with or without a plus sign, exactly when it fits eight bits |
| Settings.LimitAccepted | clients/cli/src/launch_settings.rs:608-622 | A printed limit is accepted exactly when it is 0 to 100 for a minimum, 1 to 100 for a maximum |
| Settings.CollectRunners | clients/cli/src/launch_settings.rs:480-486 | The loop offers exactly what the runners in scope can name |
| Settings.CollectModifiers | clients/cli/src/launch_settings.rs:487-513 | The loop offers exactly what the modifiers can name |
| Settings.CollectServices | clients/cli/src/launch_settings.rs:514-532 | The loop offers exactly what the services can name |
| Settings.FromOffers | clients/cli/src/launch_settings.rs:535-561 | The offers are refused exactly when they name two paths or read the input in no way or in two ways |
| Settings.Resolve | clients/cli/src/launch_settings.rs:450-634 | A key resolves exactly when it is editable and names one path with one reading |
| Settings.PrintsBack | clients/cli/src/launch_settings.rs:480-583 | Printing the resolved path gives back the key |
| Settings.OnlyPath | clients/cli/src/launch_settings.rs:535-541 | A resolved path is the only one its key names, so a key that fits two is refused |
| Settings.OneAnswer | clients/cli/src/launch_settings.rs:552-561 | One key has at most one answer |
| Settings.OrderIrrelevant | clients/cli/src/launch_settings.rs:480-561 | The answer is unchanged by reordering runners, modifiers or services |
| Settings.ResolvedValue | clients/cli/src/launch_settings.rs:542-561 | The value conforms to an offered schema and is the same under every offered schema that accepts it |
| Settings.AllSchemasAgree | clients/cli/src/launch_settings.rs:542-561 | The value is every offered schema's own reading of the input, and conforms to all of them, exactly when all of them accept it |
| Settings.OneSchemaIsEnough | clients/cli/src/launch_settings.rs:542-561 | A concrete family in which a key resolves to a value that one of its schemas forbids |
| Overrides.PutLookup | clients/cli/src/launch_settings.rs:649-692 | An assignment changes its own path in the record and no other |
| Overrides.ReadAssignment | clients/cli/src/launch_settings.rs:646-648 | One assignment is read exactly when it resolves to a path one launch can change |
| Overrides.OneLaunchPath | clients/cli/src/launch_settings.rs:575-582 | One launch never resolves to a governor or a runner choice |
| Overrides.Override | clients/cli/src/launch_settings.rs:635-702 | The record holds exactly the last assignment of each path; it is refused exactly for an unresolvable assignment or a minimum above its maximum |
| Overrides.OneResolution | clients/cli/src/launch_settings.rs:645-648 | The assignments determine what they resolve to, so acceptance and refusal exclude each other |
| Overrides.LimitsInRange | clients/cli/src/launch_settings.rs:608-622 | Every limit in the record is a percentage |
| Overrides.KeysAreApart | clients/cli/src/launch_settings.rs:635-702 | Two assignments write one path exactly when their keys are the same |
| Wrap.TitleLines | clients/zone-native-spike/src/plan.rs:675-702 | Lines are returned exactly when every word fits alone, and are the greedy ones |
| Wrap.WrapWords | clients/zone-native-spike/src/plan.rs:680-701 | The loop over the words builds the greedy lines |
| Wrap.GreedyFits | clients/zone-native-spike/src/plan.rs:688-697 | Every line fits the room |
| Wrap.TitleReadsBack | clients/zone-native-spike/src/plan.rs:680-701 | The words of the lines are the words of the title, in order |
| Wrap.GreedyIsOptimal | clients/zone-native-spike/src/plan.rs:673-702 | No other split into lines that fit uses fewer lines |
| Wrap.AnyWrapFitsWords | clients/zone-native-spike/src/plan.rs:681-684 | Where no lines are returned, no split fits at all |
| Clip.ClipPolygon | clients/zone-native-spike/src/plan.rs:813-828 | The loop's output is the pieces of all vertices in order |
| Clip.CrossingOnEdge | clients/zone-native-spike/src/plan.rs:822-825 | A new vertex lies on its edge with side zero; the division is never by zero |
| ClipMeaning.OutputPoint | clients/zone-native-spike/src/plan.rs:813-828 | Every output vertex is a kept vertex or the crossing of an edge with side zero |
| ClipMeaning.ClippedInside | clients/zone-native-spike/src/plan.rs:813-828 | For any polygon the output's hull is inside the input's, on the kept side |
| ClipMeaning.ClipIsIntersection | clients/zone-native-spike/src/plan.rs:812-828 | For a convex polygon the output's hull is exactly the part with side at least zero |
| ClipOrder.ClipKeepsTurns | clients/zone-native-spike/src/plan.rs:813-828 | The output turns the way the input does, in its vertex order |
| ClipOrder.RepeatedStaysConvex | clients/zone-native-spike/src/plan.rs:812-828 | Clipping a convex polygon by any number of sides leaves a convex polygon |
| ClipOrder.RepeatedClips | clients/zone-native-spike/src/plan.rs:812-828 | Its hull is exactly the part of the polygon on the kept side of all of them |

## Left out

- Assumptions of the publication model: every writer follows this code, nobody deletes assets or rewrites the branch, an asset's record never changes, equal digests mean equal bytes, two different commits never share a hash, and a release holds at most 1000 assets.
- Subprocesses, HTTP, git, `gh`, Nix and ffmpeg: only their effect on shared state; signatures, hash conversion and the plugin host are arbitrary functions.
- `prepare`, `export`, `combine`, `wait_visible`, `upstream_paths` and the remote checks of github-cache.py before and around publication: local preparation and waiting.
- Local files of a batch do not change while it is published, and metadata files decode as text.
- Floating point: window lengths, clock errors, widths, weights and sample positions are real numbers; rounding of IEEE floats is not modelled.
- `captured_unpresented_ids` is `unpresented` in `Counters`; latency lists and percentiles, the discarded-submission counter, event lists, `new_fps` and `expected_new_frames` of the report are not modelled.
- CSV and regular-expression parsing of receive stamps and feedback lines; a feedback line with missing fields.
- The order in which capture misses are visited: `CountCaptureMisses` takes the presentations in any order, since only event lists depend on it.
- JSON: receipts, browser messages, schemas and settings start from parsed values; a reader and a writer that agree are assumed for receipts, and an encoded message is assumed to contain no NUL.
- `atomic_write`'s temporary file and its flushes: one replacement is one step. Other processes do not write receipts while the lock is held, and the backup is not edited between preparation and use.
- `prepare` reads the state twice under the lock; both readings are inputs, and the host's two seeded graphs are inputs too. The bindings files of the backup are represented by the reviewed bindings of an apply.
- `Cutover.State.Replace`: a refusal because the lock is held or a file cannot be read; such an invocation changes nothing and ends before the modelled guards.
- `Score.Score`: a negative warm-up and a window that is not positive, which only the command line refuses.
- `Pipe.Protocol.Command`: request ids do not wrap at 64 bits; encoding is represented by its length, and the write either succeeds or fails.
- `Pipe.Protocol.Receive`: a deadline is a number of loop turns, and the stop flag may be set at any turn.
- `Settings.Resolve`: error messages are named by kind; only acceptance and the answer are specified, and the exposed places keep their order. The schema lookup by dotted path (`schema_leaf`) is an arbitrary function.
- `FramePainters.PaintFrameBar`: images that pass the guard while a row leaves the buffer, where the C code's writes are undefined; the null buffer and the overflow of C `int` in pixel indexes.
- `Wrap.TitleLines`: which characters are white space is arbitrary except that the joining space is one.
- `ClipMeaning.ClipIsIntersection`: convex polygons, as the source's comment says; for others only `ClippedInside` holds.
- The CLI's request shaping, the user interfaces, image assets, log classification and credential handling: no algorithm or unbounded state.
