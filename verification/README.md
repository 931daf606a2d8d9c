# Verified models of the EACL demo

This project models five groups of code of the EACL demo and proves what each of them is for:

1. **Native codecs** (`services/jank-memory/native`): the strict base64 decoder, the JSON to EDN printer,
   the invocation envelope, the bounded response sinks and the fixture reader.
   Modules `Base64`, `Edn`, `EdnRoundTrip`, `EdnPrinter`, `Sinks`, `FixtureReader`, `FixtureReading`.
2. **Storage migration** (`scripts/migrate-storage-v8.py`): blobs and table items, batched upload to a
   service that may refuse any part, paged download, and migration and publication as a state machine
   that may stop after any remote call. Modules `Blob`, `Transfer`, `Download`, `Publication`,
   `PublicationCertificate`, `PublicationProgress`, `Migration`.
3. **Fixture generator** (`packages/fixture-generator/typescript-port.ts`): the 64-bit mixer, the account
   bands and the object identifiers. Modules `Bits`, `Sampler`, `AccountBands`, `FixtureIds`.
4. **Explorers** (`apps/explorer-main`, `docs/design-preview`): last request wins, the offset index over a
   cursor service, the cursor stack with its displayed count, tree expansion over cyclic graphs, the
   epoch-guarded pages, and the inverse index of the schema. Modules `LatestRequests`, `SubjectIndex`,
   `ResourceGroup`, `ResourceNavigation`, `Ancestry`, `Preview`, `PreviewAnswers`, `SchemaPaths`.
5. **Archive normalizer** (`scripts/normalize-zip.py`). Modules `Archives`, `Manifest`,
   `ManifestEndings`, `Ordering`, `Utf8`.

`Octets`, `Wrappers`, `Decimal` and `Arithmetic` are shared.

How the models are laid out:

- Code that computes a value is a function. Code that loops or changes state is a method or a class, and
  its contract ties it to a function of its inputs or to one `Step` of a state machine; the lemmas are then
  about that function or about every run of that machine.
- A run is a sequence of operations, and `Exec` (or `Run`) is the state after it. Code between two awaits,
  or one remote call, is one operation, so every interleaving is a sequence. Statements about runs hold for
  every sequence, starting from the initial state.
- What a service, a file system, a digest or a parser decides is a parameter of the operation. A digest is
  the text it has been fed, and a JSON value is an already parsed tree.
- Lemmas switch Dafny's automatic induction off, so that each induction is written out. `hide` keeps the
  bodies that a proof does not need from the solver.

## What does not hold

Six promises are false of the code as it stands. The code is modelled as it is, a lemma with a concrete run or input
shows each failure, and a theorem says exactly when the promise holds.

- The displayed resource count can exceed the true total: after a visit to another scope the fallback for the
  observed range takes the cursor stack of the page of that scope (`ResourceGroup.ShownCountCanExceedTotal`).
  `ResourceGroup.ShownCountIsSound` gives the exact condition; without a plus sign the count is always exact.
- A tree key joins type and id with a colon. If a type holds a colon, two resources can share a key and the ancestry
  cut can hide what is reachable (`Ancestry.SharedKeyHidesResources`). A resource appears exactly when some walk from
  the root leads to it without meeting a key twice (`Ancestry.AppearsIffKeyPath`), which is every reachable resource
  where no type holds a colon (`Ancestry.ReachableAppears`).
- A caller of the fixture reader that goes on after a failed `next` can get evidence that leaves a line out
  (`FixtureReader.RejectedLineIsNotCovered`). The fixture digest is of the whole file exactly when no `next` turned a
  line away before that digest: an invalid line, one over the bounds, or one the digest refused
  (`FixtureReader.EvidenceCoversFile`). A record whose JSON is rejected has been hashed and does no harm.
- In the design preview the start of a seed keeps the reverse page, so a superseded reverse load still writes its rows
  or its error to a page on display, which stays marked as loading (`Preview.SeedLeavesReversePageLive`). An answer to a
  superseded load changes the display exactly when it belongs to a waiting reverse load whose page is still live, and
  only during a seed (`Preview.SupersededLoadsAreDetached`). Rows written so are current (`Preview.HeldDataIsCurrent`).
- The line endings of a manifest can matter (`ManifestEndings.EndingsCanMatter`): a lone carriage return runs together
  with the newline of an empty line after it. A manifest normalizes like the same lines ended by newlines exactly when
  nothing but blank and Build-Jdk-Spec lines follow wherever that happens (`ManifestEndings.EndingsAreForgotten`).
- An invocation whose deadline header has a superfluous leading zero or does not fit 64 bits is wrapped in an envelope
  that the reader of module `Edn` cannot read (`EdnPrinter.UnreadableDeadlines`, exact condition in
  `EdnPrinter.EnvelopeReads`). This is relative to that reader, which takes 64-bit integers only; the reader that jank
  applies to the envelope is not part of this model.

Besides, an interrupted migration can leave a table that no later run can publish: one that dies between the creation
of the table and the call that turns its recovery on (`PublicationProgress.InterruptedCreationIsStuck`).
`PublicationProgress.ReadyIsReachable` says exactly which targets can still be published.

## Model

| member | source | states |
|---|---|---|
| `Base64.AlphabetOfValue` | services/jank-memory/native/runtime_api.hpp:344-352 | a character that has a value is the one that the alphabet of section 4 of RFC 4648 gives to that value |
| `Base64.DecodeGroupSound` | services/jank-memory/native/runtime_api.hpp:362-380 | a group that decodes is the encoding of the one to three bytes it gives, and fewer than three come only from the last group: both padding cases and the zero bits of section 3.5 of RFC 4648 |
| `Base64.DecodeGroupComplete` | services/jank-memory/native/runtime_api.hpp:362-380 | the encoding of one to three bytes decodes to them, short ones in the last group |
| `Base64.DecodeSound` | services/jank-memory/native/runtime_api.hpp:360-382 | whatever decodes is the encoding of the bytes it decodes to |
| `Base64.DecodeComplete` | services/jank-memory/native/runtime_api.hpp:360-382 | every encoding has whole groups and decodes to the bytes that were encoded |
| `Base64.DecodeGroupsIsInverse` | services/jank-memory/native/runtime_api.hpp:360-382 | a text decodes to some bytes if and only if it is their encoding |
| `Base64.DecodeAllGroups` | services/jank-memory/native/runtime_api.hpp:358-382 | the loop over the groups computes the recursive decoding |
| `Base64.DecodeBase64` | services/jank-memory/native/runtime_api.hpp:354-383 | the result is given bytes exactly when the input is their canonical encoding and is at most 7 MiB long |
| `Base64.NoTwoInputsDecodeAlike` | services/jank-memory/native/runtime_api.hpp:354-383 | two inputs that decode to the same bytes are the same input |
| `EdnPrinter.WriteString` | services/jank-memory/native/runtime_api.hpp:229-258 | the escaping loop builds the quoted text of the string |
| `Edn.EscapesAre` | services/jank-memory/native/runtime_api.hpp:237-254 | which characters are printed with a backslash and a letter, which by their code, and which as they are |
| `EdnPrinter.WriteValue` | services/jank-memory/native/runtime_api.hpp:260-304 | the recursive conversion builds the printed text of the tree |
| `EdnPrinter.WriteItems` | services/jank-memory/native/runtime_api.hpp:275-286 | the array loop puts one space between the items and brackets around them |
| `EdnPrinter.WriteEntry` | services/jank-memory/native/runtime_api.hpp:295-297 | one entry is its quoted key, a space and its value |
| `EdnPrinter.WriteEntries` | services/jank-memory/native/runtime_api.hpp:287-301 | the object loop puts one space between the entries and braces around them |
| `EdnRoundTrip.ReadEscaped` | services/jank-memory/native/runtime_api.hpp:235-256 | reading an escaped string up to its closing quote gives the string and what follows it |
| `EdnRoundTrip.EdnStringIsInjective` | services/jank-memory/native/runtime_api.hpp:229-258 | no quoted string is another's or a prefix of another's |
| `EdnRoundTrip.ReadPrintedInt` | services/jank-memory/native/runtime_api.hpp:271-272 | every 64-bit integer, negative ones included, is read back from its text before any delimiter |
| `EdnRoundTrip.ReadPrinted` | services/jank-memory/native/runtime_api.hpp:260-304 | before any delimited text the reader consumes exactly the printed tree and returns it with every string cut at its first NUL, as the C strings of the printer are |
| `EdnRoundTrip.TruncateIsIdentity` | services/jank-memory/native/runtime_api.hpp:273-274 | the cut at NUL changes nothing exactly when no string or key holds a NUL |
| `EdnRoundTrip.RoundTrip` | services/jank-memory/native/runtime_api.hpp:260-304 | the very tree comes back, before any delimited text, if and only if no string or key in it holds a NUL |
| `EdnRoundTrip.PrintIsInjective` | services/jank-memory/native/runtime_api.hpp:260-304 | two trees without NUL that print alike are equal, and printed trees inside longer texts are told apart |
| `EdnPrinter.EnvelopeIsPrinted` | services/jank-memory/native/runtime_api.hpp:461-466 | the hand-made envelope is the printed form of the object with the id, the deadline as an integer and the event |
| `EdnPrinter.SafeRequestIds` | services/jank-memory/native/runtime_api.hpp:135-144 | the ids that are accepted, by length and character codes |
| `EdnPrinter.EnvelopeText` | services/jank-memory/native/runtime_api.hpp:461-466 | the text of the envelope with its three keys spelled out |
| `EdnPrinter.EnvelopeReads` | services/jank-memory/native/runtime_api.hpp:442-466 | for every accepted id and digit header and every event the envelope reads back whole, strings cut at their first NUL, if the deadline is a canonical 64-bit number, and cannot be read at all by the reader of this model otherwise |
| `EdnPrinter.UnreadableDeadlines` | services/jank-memory/native/runtime_api.hpp:448-464 | the deadlines 01 and 9223372036854775808 are accepted and copied, and the envelope cannot be read |
| `Sinks.ProductGuard` | services/jank-memory/native/runtime_api.hpp:78-83 | the division detects exactly the products that would wrap around 64 bits, and past it the wrapped product is the product |
| `Sinks.BodySink.Receive` | services/jank-memory/native/runtime_api.hpp:74-91 | a chunk is appended whole if and only if it fits, otherwise only the overflow mark changes; the answer differs from the chunk's size exactly on refusal |
| `Sinks.CutsDoNotMatter` | services/jank-memory/native/runtime_api.hpp:74-91 | a body cut into any chunks is received whole if it fits, and overflows if and only if it does not; what is kept is always a prefix within the limit |
| `Sinks.ReceiveBody` | services/jank-memory/native/runtime_api.hpp:74-91 | handing any chunks to a new sink until one is refused leaves the whole body if it fits, and the overflow mark exactly if it does not |
| `Sinks.HeaderSink.Receive` | services/jank-memory/native/runtime_api.hpp:93-120 | a line is counted and entered if and only if all header bytes stay within 64 KiB; otherwise only the overflow mark changes |
| `Sinks.TrimIs` | services/jank-memory/native/runtime_api.hpp:51-61 | trimming takes off exactly the space around a text, whatever it is |
| `Sinks.SpacesAre` | services/jank-memory/native/runtime_api.hpp:51-61 | the six characters that count as space |
| `Sinks.LowerAt` | services/jank-memory/native/runtime_api.hpp:63-72 | lower case turns A to Z into a to z and keeps every other character |
| `Sinks.HeaderIsRead` | services/jank-memory/native/runtime_api.hpp:110-118 | a header line with any space around name and value is read as its lower-case name and its value |
| `Sinks.LastLineWins` | services/jank-memory/native/runtime_api.hpp:116-117 | a name is in the headers exactly when a line names it, with the value of the last such line |
| `Sinks.ReceiveHeaders` | services/jank-memory/native/runtime_api.hpp:93-120 | handing header lines to a new sink takes the longest beginning that fits in 64 KiB, marks overflow exactly if that is not all, and holds the headers of the lines taken |
| `FixtureReader.Reader.constructor` | services/jank-memory/native/fixture_reader.hpp:179-186 | a new reader is closed |
| `FixtureReader.Reader.OpenFile` | services/jank-memory/native/fixture_reader.hpp:48-87 | the whole new state and the reply, error paths included |
| `FixtureReader.Reader.NextRecord` | services/jank-memory/native/fixture_reader.hpp:89-115 | the whole new state and the reply; a rejected line is consumed but neither counted nor hashed |
| `FixtureReader.Reader.FinishFile` | services/jank-memory/native/fixture_reader.hpp:117-143 | the evidence and the new state, in which only the finalized mark changes |
| `FixtureReader.Reader.CloseFile` | services/jank-memory/native/fixture_reader.hpp:145-155 | everything is back as it was before any file |
| `FixtureReader.Reader.TakeLine` | services/jank-memory/native/fixture_reader.hpp:165-177 | the line with its newline, the end or a rejection, and what is left of the stream |
| `FixtureReader.ReadLineTakes` | services/jank-memory/native/fixture_reader.hpp:165-177 | a line that is read is exactly the next text of the stream, and the end is reported only at the end of the file |
| `FixtureReader.RunsAreConsistent` | services/jank-memory/native/fixture_reader.hpp:45-187 | every run of open, next, finish and close keeps the invariant of flags, counters, digests and file |
| `FixtureReader.CountersStayBounded` | services/jank-memory/native/fixture_reader.hpp:99-108 | in every run, failures included, the counters stay within their limits, so the unsigned subtraction never wraps |
| `FixtureReader.DigestsFollowFile` | services/jank-memory/native/fixture_reader.hpp:72-108 | in every run the fixture digest was fed the file up to the unread rest exactly when no line was dropped, and the header and then the records digest's input exactly when no record was skipped; the counters always count the records digest's input |
| `FixtureReader.CleanRunsDropNothing` | services/jank-memory/native/fixture_reader.hpp:89-115 | a run in which no call failed drops no line and skips no record |
| `FixtureReader.EvidenceCoversFile` | services/jank-memory/native/fixture_reader.hpp:89-143 | in every run that ends in evidence the fixture digest is of the whole file if and only if no line was dropped, the records digest is of all bytes past the header if and only if besides no record was skipped, and the counts are those of the records digest's input |
| `FixtureReader.FinishSucceedsOnce` | services/jank-memory/native/fixture_reader.hpp:117-130 | in every run finish succeeds at most once for each open |
| `FixtureReader.RejectedLineIsNotCovered` | services/jank-memory/native/fixture_reader.hpp:93-177 | a run in which next fails, is called again and reports the end, and the evidence then misses the rejected text |
| `FixtureReading.RecordIsNextLine` | services/jank-memory/native/fixture_reader.hpp:89-115 | in every run a record that next replies is the EDN of the next line of the stream, and that line is what both digests have been fed |
| `FixtureReading.FixtureIsRead` | services/jank-memory/native/fixture_reader.hpp:48-115 | for a file of a header and good lines within the bounds, open replies the header as EDN, the calls of next the lines in order, and the one after the last the end |
| `FixtureReading.CleanReadingIffFixture` | services/jank-memory/native/fixture_reader.hpp:48-177 | open and n calls of next reach the end without an error if and only if the file is a header and n - 1 records, each nonempty, without a final carriage return, at most 8,192 bytes and JSON, within the bounds |
| `FixtureReading.OpenSucceedsIff` | services/jank-memory/native/fixture_reader.hpp:48-87 | open succeeds exactly for an absolute path of 1 to 4,096 bytes, no failure of the environment, and a file that begins with a good line; otherwise the reader is closed |
| `FixtureReading.NextSucceedsIff` | services/jank-memory/native/fixture_reader.hpp:89-115 | exactly when next replies a record, when the end, and when an error |
| `FixtureReading.OtherCallsFail` | services/jank-memory/native/fixture_reader.hpp:91-155 | next outside its state and finish out of turn fail and change nothing; finish succeeds exactly on an open reader at its end that is not finalized |
| `Blob.BlobItemIsInverseOfJoin` | scripts/migrate-storage-v8.py:219-228 | splitting a file gives an item if and only if the item is well formed (20-byte header, version 1, signed big-endian length, size limit), has the file's name and joins to its contents |
| `Blob.SignedOfBigEndian` | scripts/migrate-storage-v8.py:223 | reading the four big-endian bytes of any signed 32-bit integer gives it back |
| `Blob.BigEndianOfSigned` | scripts/migrate-storage-v8.py:223 | and four bytes are those of the integer read from them |
| `Download.BlobNameIs` | scripts/migrate-storage-v8.py:21-128 | the names that are accepted are a UUID in lower case and the extension |
| `Transfer.BatchesPartition` | scripts/migrate-storage-v8.py:239-240 | the batches are the files cut in order, 25 at a time, only the last one shorter |
| `Transfer.Table.BatchWrite` | scripts/migrate-storage-v8.py:244-245 | the assumed service: any part of a request is stored and the rest handed back; a call that raises may have stored any part |
| `Transfer.StoreAndHandBack` | scripts/migrate-storage-v8.py:243-247 | after each attempt what is stored and what is pending make up the group |
| `Transfer.TakenWholeSucceeds` | scripts/migrate-storage-v8.py:239-250 | if no answer hands anything back, the upload succeeds and the requests are the batches |
| `Transfer.LastAnswerDecides` | scripts/migrate-storage-v8.py:243-250 | an upload succeeds, raises or gives up exactly as its last answer says, and it gives up only after twelve answers in a row that handed something back |
| `Transfer.UploadGroup` | scripts/migrate-storage-v8.py:241-250 | the first call asks for the group and each later one for what the answer before it handed back; success means that the last answer handed nothing back and all is stored, a raised error that the last call raised, and giving up that twelve calls were all answered with something left over |
| `Transfer.Preflight` | scripts/migrate-storage-v8.py:236-238 | true exactly when every file splits into an item |
| `Transfer.UploadBatches` | scripts/migrate-storage-v8.py:239-250 | the calls are those for the batches one after the other, up to the first batch that is not uploaded; if nothing is ever handed back there is one call for each batch and the upload succeeds; normal return means every item is stored |
| `Transfer.Upload` | scripts/migrate-storage-v8.py:174-255 | an empty or oversized directory or any invalid blob means that no data write was issued; otherwise the last answer decides the outcome, an upload to which nothing is handed back succeeds with one call for each batch, and normal return means the table holds every blob and otherwise what it held |
| `Download.DownloadTable` | scripts/migrate-storage-v8.py:118-145 | over any paging, empty pages included, the scan succeeds exactly when there is a row, all rows are blobs and their size is within the limit, and writes the joined rows |
| `Download.DirectoryReads` | scripts/migrate-storage-v8.py:126-135 | each row of a table becomes the file of its name with its joined attributes, and there are no other files |
| `Download.DownloadThenUpload` | scripts/migrate-storage-v8.py:118-255 | the downloaded files, in any order, split into the items of the table if and only if every item of it is well formed |
| `Download.TotalOfListing` | scripts/migrate-storage-v8.py:130-176 | the downloaded files are as many and as large as the rows, so an accepted download passes the size limit of an upload |
| `Download.CopyTable` | scripts/migrate-storage-v8.py:118-255 | the paged scan, the listing and the upload to an empty table together: refused, with no data write, exactly when the scan is refused or a joined row does not split again; on normal return the tables are equal if and only if every item is well formed |
| `Publication.MigrateKeepsOwn` | scripts/migrate-storage-v8.py:64-279 | no remote call of a migration makes its target ready or touches a ready one |
| `Publication.PublishKeepsOwn` | scripts/migrate-storage-v8.py:282-341 | no remote call of a publication leaves its target ready but incomplete |
| `Publication.StepKeepsInvariant` | scripts/migrate-storage-v8.py:64-341 | every remote call, start and death of a run keeps every ready target complete |
| `Publication.ReadyTargetsAreComplete` | scripts/migrate-storage-v8.py:182-341 | over all runs that start with no ready target, a ready target has the planned generation, all planned reader policies, its recovery protections and, for a table, the serving write cap |
| `Publication.ReadyTargetIsFrozen` | scripts/migrate-storage-v8.py:64-278 | over all later runs nothing about a ready target changes, its data least of all |
| `Publication.PublishStepKeepsGoal` | scripts/migrate-storage-v8.py:303-341 | every call of a publication keeps the final state it works towards, and the tag call reaches it |
| `Publication.CompletedState` | scripts/migrate-storage-v8.py:282-341 | however often interrupted and rerun, a publication that completes leaves the state with its policies, cap and tags set and all else unchanged |
| `Publication.RerunReachesSameState` | scripts/migrate-storage-v8.py:282-341 | any two histories of interrupted publications that complete leave the same remote state |
| `Publication.PublicationCompletes` | scripts/migrate-storage-v8.py:282-341 | from an admissible and protected target one certified run whose functions have planned roles completes |
| `PublicationCertificate.ReadyTargetsAreCertified` | scripts/migrate-storage-v8.py:283-341 | over every run that starts with no ready target, behind a ready target stands a publication begun between runs with a certificate, which has not died since and whose second and third call answered planned reader roles |
| `PublicationCertificate.RejectedChangesNothing` | scripts/migrate-storage-v8.py:283-297 | a publication without a certificate, or one of whose functions has another role, leaves the remote state as it was, however far it goes |
| `PublicationCertificate.UnfitTargetsAreLeftAlone` | scripts/migrate-storage-v8.py:300-327 | so does the publication of a target that is not there, has other tags or lacks a protection |
| `PublicationCertificate.CompleteMeans` | scripts/migrate-storage-v8.py:307-341 | what a complete target has, by name: both roles of its profile, the protections, and for a table a write cap of one unit |
| `Migration.MigrationIs` | scripts/migrate-storage-v8.py:71-85 | an uninterrupted migration of a new target or of one under way leaves it tagged, protected and with every object written, by an explicit final state, and changes nothing else |
| `Migration.WrittenIs` | scripts/migrate-storage-v8.py:204-215 | each object has the last value it was written with |
| `Migration.OthersAreLeftAlone` | scripts/migrate-storage-v8.py:64-76 | a migration of a target that exists with other tags changes nothing |
| `Migration.BucketIsProtectedWhenWritten` | scripts/migrate-storage-v8.py:182-200 | in every run the bucket has its public access block, encryption and versioning by the time it is written to |
| `PublicationProgress.StepStaysStuck` | scripts/migrate-storage-v8.py:64-341 | no call of any run gets a target unstuck |
| `PublicationProgress.ReadyIsReachable` | scripts/migrate-storage-v8.py:64-341 | from any reachable state between runs, some sequence of runs makes the target ready if and only if it does not exist yet or has the tags of this migration and, if it is a table, its recovery protections |
| `PublicationProgress.InterruptedCreationIsStuck` | scripts/migrate-storage-v8.py:71-85 | a run that dies after creating the table and before turning its recovery on leaves it stuck |
| `Bits.UnXorShiftOfXorShift` | packages/fixture-generator/typescript-port.ts:8-10 | the shift and exclusive or of each mixing line is undone, for shifts of at least a third of the width |
| `Bits.XorShiftOfUnXorShift` | packages/fixture-generator/typescript-port.ts:8-10 | and the other way round |
| `Bits.ShrIsDivision` | packages/fixture-generator/typescript-port.ts:8-10 | the right shift is division by a power of two |
| `Sampler.TimesInverse` | packages/fixture-generator/typescript-port.ts:8-9 | multiplying modulo 2^64 by an odd constant is undone by its inverse |
| `Sampler.UnmixOfMix` | packages/fixture-generator/typescript-port.ts:6-11 | the mixer loses nothing: its masked input is recovered |
| `Sampler.MixOfUnmix` | packages/fixture-generator/typescript-port.ts:6-11 | every 64-bit word is the mix of another, so the mixer is a bijection |
| `Sampler.SampleInputSteps` | packages/fixture-generator/typescript-port.ts:1-15 | the first mixer input, and what the next account and the next stream add to it |
| `Sampler.SampleInputsDiffer` | packages/fixture-generator/typescript-port.ts:13-15 | no two pairs of a safe-integer ordinal and a stream give inputs congruent modulo 2^64 |
| `Sampler.SamplesAreDistinct` | packages/fixture-generator/typescript-port.ts:13-15 | over all safe-integer ordinals and both streams two samples are equal exactly for the same ordinal and stream |
| `AccountBands.CountTellsBand` | packages/fixture-generator/typescript-port.ts:17-25 | every count is in 1 to 50,000, and from ordinal 8 on the count alone tells the band its tier chose |
| `AccountBands.InputsMatchResidues` | packages/fixture-generator/typescript-port.ts:17-24 | the mixer inputs that select a tier range are as many as the words in that range |
| `AccountBands.BandSizes` | packages/fixture-generator/typescript-port.ts:17-24 | of the 2^64 inputs exactly 5500q+1616, 2900q, 1200q and 400q select the four bands, q being 2^64 div 10,000 |
| `AccountBands.PlaceSizes` | packages/fixture-generator/typescript-port.ts:24 | in a band of any width, each place is chosen by as many of the 2^64 mixer inputs as any other or by one more, by an exact count |
| `AccountBands.CountTellsPlace` | packages/fixture-generator/typescript-port.ts:18-24 | the first eight accounts have 16 servers; of any other the count tells its band, and its place in that band is the second sample modulo the width |
| `FixtureIds.ParseOfName` | packages/fixture-generator/typescript-port.ts:27-35 | kind and numbers of each of the seven kinds of object are recovered from its name |
| `FixtureIds.NameOfParse` | packages/fixture-generator/typescript-port.ts:27-35 | every text that parses is the name of what it parses to |
| `FixtureIds.NamesAreDistinct` | packages/fixture-generator/typescript-port.ts:27-35 | two objects of any kinds have the same name exactly when they are the same |
| `LatestRequests.LatestRequest.BeginRun` | apps/explorer-main/src/api.ts:166-176 | the step of run up to its await |
| `LatestRequests.LatestRequest.SettleRun` | apps/explorer-main/src/api.ts:177-184 | the step after the await, and whether the run succeeds |
| `LatestRequests.LatestRequest.AbortAll` | apps/explorer-main/src/api.ts:186-190 | the step of abort |
| `LatestRequests.SupersededRunsAreAborted` | apps/explorer-main/src/api.ts:160-191 | in every interleaving, of the unsettled controllers exactly those other than the current one are aborted |
| `LatestRequests.SuccessesIncrease` | apps/explorer-main/src/api.ts:160-191 | in every interleaving the sequence numbers of successes strictly increase |
| `LatestRequests.SucceedsIffLatest` | apps/explorer-main/src/api.ts:177-180 | in every interleaving a run succeeds if and only if its request does and nothing but settlements happened since it began |
| `SubjectIndex.ProfileApi.BeginList` | apps/explorer-main/src/profile-api.ts:297-310 | the step up to the request; it goes on exactly when the offset is in the index, with the cursor found there |
| `SubjectIndex.ProfileApi.SettleList` | apps/explorer-main/src/profile-api.ts:311-314 | the step after the answer, which writes to the inner map the call holds |
| `SubjectIndex.ProfileApi.ClearIndex` | apps/explorer-main/src/profile-api.ts:184-260 | the step of a refresh or a finished seed |
| `SubjectIndex.ClearStartsOver` | apps/explorer-main/src/profile-api.ts:184-302 | after a clear the index knows offset 0 of any page size and no other |
| `SubjectIndex.CallGoesOut` | apps/explorer-main/src/profile-api.ts:297-310 | a call goes out exactly for an offset in the index, with the cursor found there, and with none for a first page |
| `SubjectIndex.AnswerIsEntered` | apps/explorer-main/src/profile-api.ts:311-314 | an answer with a next page enters its cursor at the next offset of the inner map that the call holds, and nothing else changes |
| `SubjectIndex.StepKeepsInvariant` | apps/explorer-main/src/profile-api.ts:161-325 | every legal step keeps the invariant of inner maps and waiting requests |
| `SubjectIndex.LiveCursorsAreFresh` | apps/explorer-main/src/profile-api.ts:161-325 | in every interleaving each cursor of the live index came from a request issued since the last clear |
| `SubjectIndex.ServedSliceIsExact` | apps/explorer-main/src/profile-api.ts:297-325 | over a list unchanged since the clear a call issued since then gets exactly the items from its offset, and the next offset is then in the index |
| `SubjectIndex.IndexedUntilClear` | apps/explorer-main/src/profile-api.ts:297-314 | an offset stays in the index until it is cleared |
| `SubjectIndex.NextCallProceeds` | apps/explorer-main/src/profile-api.ts:297-314 | in every run a call for the next offset of a served page is not refused unless the index was cleared in between |
| `SubjectIndex.FollowingCoversOnce` | apps/explorer-main/src/profile-api.ts:297-325 | in every run the pages of calls that follow the returned next offsets from 0, over one version of the list, hold the list once and in order |
| `SchemaPaths.ChildPaths` | apps/explorer-main/src/profile-api.ts:500-507 | the three nested loops give each subject type exactly the links into it, in schema order, and no entry to a type without any |
| `SchemaPaths.PathsMirrorLinks` | apps/explorer-main/src/profile-api.ts:500-525 | each link is found under its target as often as it is among the forward links of the schema |
| `SchemaPaths.LinksAre` | apps/explorer-main/src/profile-api.ts:524-525 | a link is in the list exactly when some relation of its type allows its target |
| `ResourceGroup.ResourceTypeGroup.constructor` | apps/explorer-main/src/components/ResourceTree.tsx:392-398 | a new group loads its first page |
| `ResourceGroup.ResourceTypeGroup.NavigatePage` | apps/explorer-main/src/components/ResourceTree.tsx:572-579 | the new cursor stack, or nothing while a page loads |
| `ResourceGroup.ResourceTypeGroup.NextPage` | apps/explorer-main/src/components/ResourceTree.tsx:745-748 | the step of the next button |
| `ResourceGroup.ResourceTypeGroup.PreviousPage` | apps/explorer-main/src/components/ResourceTree.tsx:742-744 | the step of the previous button |
| `ResourceGroup.ResourceTypeGroup.RecoverPage` | apps/explorer-main/src/components/ResourceTree.tsx:584-594 | the step of the recovery button after either kind of failure |
| `ResourceGroup.ResourceTypeGroup.PageEffect` | apps/explorer-main/src/components/ResourceTree.tsx:504-522 | the step of the effect that displays a page and raises the observed range |
| `ResourceGroup.ResourceTypeGroup.RaiseCountLimit` | apps/explorer-main/src/components/ResourceTree.tsx:610-615 | the step of the button that counts further |
| `ResourceGroup.ResourceTypeGroup.EnterScope` | apps/explorer-main/src/components/ResourceTree.tsx:535-555 | the step of the effects of a new scope |
| `ResourceGroup.StepKeepsInvariant` | apps/explorer-main/src/components/ResourceTree.tsx:391-615 | every legal step keeps the cursor chains, the displayed page and the counts consistent |
| `ResourceGroup.DisplayedRangeIsExact` | apps/explorer-main/src/components/ResourceTree.tsx:504-748 | after any run both cursor stacks are chains of end cursors and the range shown is exactly the position of the items shown; there is a next page exactly when the range ends before the list does |
| `ResourceGroup.ShownCountIsSound` | apps/explorer-main/src/components/ResourceTree.tsx:51-609 | a count without a plus sign is the total, and the number shown is at most the total exactly when the page on display is of this scope or its cursor stack stays within the total |
| `ResourceGroup.ShownCountWithinScope` | apps/explorer-main/src/components/ResourceTree.tsx:51-609 | within one scope the number shown never exceeds the total |
| `ResourceGroup.ShownCountCanExceedTotal` | apps/explorer-main/src/components/ResourceTree.tsx:598-609 | a legal run after which a total of 5 is shown as 20 with a plus sign |
| `ResourceGroup.AtMostFiveIncreases` | apps/explorer-main/src/components/ResourceTree.tsx:45-615 | a scope's limit is raised at most five times, and when it can be raised no more the count is exact or the limit is 30,000 |
| `ResourceGroup.LimitReached` | apps/explorer-main/src/components/ResourceTree.tsx:45-49 | the limit stays between 1,000 and 30,000 and reaches the end with the fifth doubling and no earlier |
| `ResourceNavigation.NavigationIsExact` | apps/explorer-main/src/components/ResourceTree.tsx:572-579 | in every run, from the page at a position: next leads to the page one page size on if there is more, previous to the one before if there is one, first to the first page, and next and then previous back to the same page |
| `ResourceNavigation.RecoveryIsExact` | apps/explorer-main/src/components/ResourceTree.tsx:580-594 | in every run, when the load fails the page stays, a retry leads where the button would have, and each kind of recovery leads to its page |
| `ResourceNavigation.NewScopeStartsOver` | apps/explorer-main/src/components/ResourceTree.tsx:535-555 | a new scope shows its first page and its limit is 1,000 |
| `ResourceNavigation.CountIsShown` | apps/explorer-main/src/components/ResourceTree.tsx:526-533 | in every run a count that arrives is shown: an exact one as the total without a plus sign, one that is cut off with it |
| `ResourceNavigation.UncountedShowsRange` | apps/explorer-main/src/components/ResourceTree.tsx:51-63 | in every run, before a count has arrived the end of the furthest page seen is shown, at most the total, with a plus sign unless the list is empty |
| `ResourceNavigation.FailedCountKeeps` | apps/explorer-main/src/components/ResourceTree.tsx:526-533 | a count that fails leaves the count that was shown, and another can be asked for |
| `ResourceNavigation.IncreaseDoubles` | apps/explorer-main/src/components/ResourceTree.tsx:610-615 | the button doubles the limit of a count that was cut off, up to 30,000, and counts again with it |
| `Ancestry.ExplorersAgree` | docs/design-preview/app.js:172-181 | the ancestor list of the design preview builds the same tree as the ancestor set of the explorer |
| `Ancestry.Smaller` | apps/explorer-main/src/components/ResourceTree.tsx:311-322 | expanding a node leaves fewer keys that can still be expanded, so expansion ends on every finite graph |
| `Ancestry.KeysRepeatOnlyAtEnd` | apps/explorer-main/src/components/ResourceTree.tsx:286-378 | along a path from the root no key repeats but the last, whose node is a cycle exactly when it repeats and then has no children |
| `Ancestry.DepthIsBounded` | apps/explorer-main/src/components/ResourceTree.tsx:304-378 | no path is longer than the number of resources with anything listed under them |
| `Ancestry.KeyTellsResource` | apps/explorer-main/src/components/ResourceTree.tsx:37 | keys of types without a colon tell their resources |
| `Ancestry.AppearsIffKeyPath` | apps/explorer-main/src/components/ResourceTree.tsx:304-378 | a resource appears unmarked in the tree if and only if some walk of the graph from the root leads to it without meeting a key twice; so nothing unreachable appears |
| `Ancestry.ReachableAppears` | apps/explorer-main/src/components/ResourceTree.tsx:304-378 | where no type holds a colon, the end of every walk from the root appears in the tree, unmarked |
| `Ancestry.SharedKeyHidesResources` | apps/explorer-main/src/components/ResourceTree.tsx:37-311 | with a colon in a type a reachable resource can be missing |
| `Preview.Explorer.ResetScope` | docs/design-preview/app.js:148-152 | the step of a reset up to the loads it starts |
| `Preview.Explorer.MakeChoice` | docs/design-preview/app.js:159-166 | the step of a choice that resets the scope |
| `Preview.Explorer.StartSeed` | docs/design-preview/app.js:522-523 | the step of a seed's start, which keeps decisions and reverse page |
| `Preview.Explorer.LoadGroupPage` | docs/design-preview/app.js:182-192 | the step up to the first await, with the page object the load holds |
| `Preview.Explorer.AnswerGroupPage` | docs/design-preview/app.js:193-220 | the step after one await: rows, count and checks, or the error mark, or nothing if the epoch has passed; a count that fails late still marks its page |
| `Preview.Explorer.IncreasePageCount` | docs/design-preview/app.js:221-227 | the step of a further count up to its await: nothing unless the page holds a count that is not exact and not being counted |
| `Preview.Explorer.AnswerPageCount` | docs/design-preview/app.js:227-231 | the step after it: the count goes to the page if it is live, a failure in the same epoch marks the page in any case, and the counting mark is taken off only if the page is live |
| `Preview.Explorer.SelectResource` | docs/design-preview/app.js:300-306 | the step of a selection up to its checks |
| `Preview.Explorer.AnswerCheck` | docs/design-preview/app.js:306-309 | the step after one check, which needs both epochs |
| `Preview.Explorer.LoadReversePage` | docs/design-preview/app.js:312-320 | the step of a reverse load up to its await |
| `Preview.Explorer.AnswerReversePage` | docs/design-preview/app.js:319-323 | the step after it: rows or error are written to the page in any case, the loading mark is taken off only if nothing happened in between |
| `Preview.StepKeepsInvariant` | docs/design-preview/app.js:148-523 | every step keeps live pages, decisions, reverse page and waiting loads in line with the current choices |
| `Preview.HeldDataIsCurrent` | docs/design-preview/app.js:148-523 | in every interleaving what live pages, decisions and the reverse page hold came from requests with the current choices |
| `Preview.SupersededLoadsAreDetached` | docs/design-preview/app.js:196-323 | an answer to a superseded load, be it data or a failure, leaves the display as it was if and only if it does not belong to a waiting reverse load whose page is still live, and that happens only during a seed |
| `Preview.SeedLeavesReversePageLive` | docs/design-preview/app.js:312-523 | a run in which a reverse load superseded by a seed writes its rows, or its error, to the page on display, which stays marked as loading |
| `PreviewAnswers.GroupAnswerIsHeld` | docs/design-preview/app.js:193-219 | in any state runs can reach, a successful answer in time is held by its page: rows, checks or count of the current choices |
| `PreviewAnswers.CountAnswerIsHeld` | docs/design-preview/app.js:227-231 | the same of a further count of a live page |
| `PreviewAnswers.DecisionIsHeld` | docs/design-preview/app.js:306-308 | the same of a check of the inspector |
| `PreviewAnswers.ReverseAnswerIsHeld` | docs/design-preview/app.js:319-323 | the same of a reverse page, which then stops loading |
| `PreviewAnswers.RootPageArrives` | docs/design-preview/app.js:182-205 | a first root page that is asked for and answered holds rows and count of the current choices and stops loading |
| `PreviewAnswers.NextRootPageArrives` | docs/design-preview/app.js:182-199 | another root page keeps the count of the page before it |
| `PreviewAnswers.RootPageWithoutCount` | docs/design-preview/app.js:199-205 | a first root page whose count fails keeps the count from before and shows the failure |
| `PreviewAnswers.NothingStarts` | docs/design-preview/app.js:182-313 | loads, selections, reverse pages and counts that are not offered do nothing |
| `PreviewAnswers.RelationPageArrives` | docs/design-preview/app.js:206-219 | a relation page asks for its rows and checks each, and stops loading after the last check |
| `PreviewAnswers.FailedPageShowsError` | docs/design-preview/app.js:218-219 | a page whose request fails shows an error and stops loading |
| `PreviewAnswers.IncreaseArrives` | docs/design-preview/app.js:221-231 | the button counts further exactly for a count that is not exact and not being counted, and both kinds of answer are shown |
| `PreviewAnswers.SelectionArrives` | docs/design-preview/app.js:300-309 | a selection empties the inspector and asks for each permission of the resource |
| `PreviewAnswers.ReverseArrives` | docs/design-preview/app.js:312-323 | the reverse page of the selection arrives for the permission chosen |
| `PreviewAnswers.ChoiceEmpties` | docs/design-preview/app.js:148-158 | a choice empties pages, decisions and reverse page and keeps the selection only if told to |
| `PreviewAnswers.SeedEmpties` | docs/design-preview/app.js:522-523 | the start of a seed empties pages and selection, and its end everything |
| `Ordering.SortSorts` | scripts/normalize-zip.py:70 | sorting gives the same names in ascending order |
| `Ordering.SizeTellsDistinct` | scripts/normalize-zip.py:71 | comparing the number of names with the size of their set tells exactly whether a name repeats |
| `Utf8.DecodeEncoded` | scripts/normalize-zip.py:53-57 | every text is decoded from its UTF-8 bytes |
| `Utf8.EncodeDecoded` | scripts/normalize-zip.py:53-57 | only the UTF-8 bytes of a text are decoded: no overlong forms, no surrogates |
| `Manifest.NormalizeText` | scripts/normalize-zip.py:53-57 | the loop that pops blank lines gives the canonical text |
| `Manifest.BreaksAre` | scripts/normalize-zip.py:53 | the ten characters at which a text is split into lines |
| `Manifest.RecordsJdkIs` | scripts/normalize-zip.py:54 | the lines that are dropped, by their first fifteen characters |
| `Manifest.EndingsDoNotMatter` | scripts/normalize-zip.py:53 | a text with any mixture of line endings is read as its lines if and only if no lone carriage return runs together with the ending of an empty line |
| `Manifest.EssentialIgnores` | scripts/normalize-zip.py:54-56 | a Build-Jdk-Spec line anywhere and any number of blank lines at the end leave no trace |
| `Manifest.CanonicalReads` | scripts/normalize-zip.py:53-57 | reading a canonical text gives back the lines it was made of |
| `Manifest.NormalizedTellsEssential` | scripts/normalize-zip.py:48-57 | two texts have the same canonical form if and only if the same lines of them are kept |
| `Manifest.NormalizedIsIdempotent` | scripts/normalize-zip.py:48-57 | normalizing a manifest again changes nothing |
| `ManifestEndings.RoundsAreHarmless` | scripts/normalize-zip.py:53 | the newline replacement and the line split together lose no kept line exactly when only blank and Build-Jdk-Spec lines follow wherever endings run together |
| `ManifestEndings.EndingsAreForgotten` | scripts/normalize-zip.py:48-57 | a manifest with any mixture of endings normalizes like the same lines ended by newlines if and only if only blank and Build-Jdk-Spec lines follow wherever endings run together |
| `ManifestEndings.WritingsAgree` | scripts/normalize-zip.py:48-57 | any two ways of writing a manifest normalize alike if and only if the same lines are kept of what is read; that is what is kept of their own lines exactly when no endings run together harmfully |
| `ManifestEndings.EndingsCanMatter` | scripts/normalize-zip.py:53-57 | a carriage return, an empty line and a third line: the canonical text differs from that of the same lines ended by newlines |
| `Archives.OnlyDoubleDotsAreRefused` | scripts/normalize-zip.py:19-27 | as path parts never are empty or a single dot, the only component ever refused is the double dot |
| `Archives.ComponentsAre` | scripts/normalize-zip.py:20 | the components of a name hold no slash and joined with slashes are the name |
| `Archives.RootIs` | scripts/normalize-zip.py:20 | the root of an absolute name is a part of its own |
| `Archives.Archive.Normalize` | scripts/normalize-zip.py:60-88 | the archive is replaced by its canonical form exactly when all names differ and every entry can be rewritten; otherwise it is unchanged and the refusal names the first failing entry in name order |
| `Archives.NormalFormIsUnique` | scripts/normalize-zip.py:70-85 | an archive has one canonical form: its rewritten entries in strictly ascending order of names |
| `Archives.AcceptedArchives` | scripts/normalize-zip.py:19-34 | which archives are accepted, by name, mode and manifest of each entry |
| `Archives.NormalEntries` | scripts/normalize-zip.py:30-85 | what each entry of the canonical form is: directory or regular file by its name, executable exactly for directories and bootstrap, writable by its owner only, stored or deflated, stamped, and with its contents or the canonical manifest |
| `Archives.RewriteIsIdempotent` | scripts/normalize-zip.py:30-85 | a rewritten entry is acceptable and rewriting it again changes nothing |
| `Archives.NormalizingIsIdempotent` | scripts/normalize-zip.py:60-86 | a normalized archive is accepted, and its only canonical form is itself |
| `Archives.NormalFormTellsFiles` | scripts/normalize-zip.py:60-86 | two archives have the same canonical form if and only if they hold the same names with the same kept contents: order, attributes, times and compression do not matter |
| `Archives.ManifestContentsAgree` | scripts/normalize-zip.py:48-57 | the bytes of any two writings of a manifest count as the same contents if and only if the same lines are kept of what is read, with the exact condition for that to be what is kept of their own lines |
| `Archives.ClassesAreLater` | scripts/normalize-zip.py:39-45 | every class entry is stamped strictly later than every other entry |

## Left out

- `Publication.ReadyTargetsAreComplete`: runs are sequential; two runs at once, or someone else changing tags or policies, are not modelled.
- `Publication.PublicationCompletes`: whether the migration evidence certifies completion is a parameter, and the data a certificate speaks of is not modelled. Alarms, waiters, progress output and the local `complete.json` are left out.
- `Sinks.BodySink.Receive`: `size_t` has 64 bits, and the caller's buffer holds as many characters as it says.
- `EdnRoundTrip.ReadPrinted`: a double is the number text that json-c gives; integers are those json-c can hold in 64 bits, so saturation on parsing and NaN and Infinity are not covered. The reader takes string keys only, which is all that is printed.
- `SubjectIndex.ServedSliceIsExact`: a page size is at least 1. Over a list that has changed the service may answer anything.
- `ResourceGroup.DisplayedRangeIsExact`: the page size and the list of each scope stay fixed, and the group stays expanded. Changing the page size before a failed load leaves the old page on display under the new size.
- `ResourceGroup.ResourceTypeGroup.PageEffect`: loads are answered for what they asked; that late answers are dropped is what `LatestRequests` proves. The order in which the framework runs effects is taken to be one step for each event.
- `Ancestry.AppearsIffKeyPath`: paging and permission filters inside a relation are not modelled: what is listed under a resource is given.
- `Preview.HeldDataIsCurrent`: pages hold where their data came from and the marks of waiting and failed requests, so cursors, histories, timings and the rows, values and messages themselves are left out.
- `SchemaPaths.ChildPaths`: the final sort of each list by locale order is not modelled; the lists stand in schema order. The index of the source is a plain object, so a subject type named like a property that every object inherits, such as `constructor`, makes it throw; the map of the model has no such names.
- `Archives.Archive.Normalize`: an archive is its entries; compression, the temporary file, the general-purpose flags and the local headers are the archive library's.
- `Transfer.Upload`: creating the table comes before it and belongs to `Publication`; pauses and throughput are left out, and files that change while they are uploaded.
- S3 transfer by threads, and the native v8 migration process itself.
- json-c parsing and quoting, curl, OpenSSL, boto3 and the shape of IAM policies.
- Lambda shims, environment access, clocks and timestamps, the EACL permission evaluator and the Clojure services.
- Rendering, focus, viewport and layout of both explorers; preferences, formatting and consistency names.
