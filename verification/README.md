# Offprint: capture core, modelled and proved

Offprint captures a rendered page. A collector inside the browser copies the document and
the documents in its frames under one shared allowance, serializes the copy within byte
limits, and hands the result over in checked chunks. A host process drives the browser over
one connection, keeps its targets under policy, and stores resource bodies by digest. This
project models that core and proves what it promises.

Strings are sequences of 16-bit code units (`Text`), so unpaired surrogates are ordinary
values. JavaScript numbers are integers; where the code relies on 32-bit operators, `Words`
gives their signed results. The DOM is an inductive tree (`Dom`). Thrown errors are values.
The browser (`toDataURL`, `cssText`, `DOMParser`, DOM access that may throw) and the file
system appear as arbitrary parameters, so every result holds whatever they answer.

| module | what it covers |
|---|---|
| `Text`, `Utf8`, `Decimal`, `Words` | UTF-16 and UTF-8, decimal numerals, 32-bit arithmetic |
| `Writer`, `Escape`, `Json`, `JsonMachine`, `Received`, `Html`, `HtmlReader`, `HtmlBytes` | the byte-bounded writer, the explicit-stack JSON and HTML serializers, what readers of the JSON and the HTML get, and how HTML bytes are counted |
| `RepairData`, `RepairMachine`, `RepairText`, `Repair`, `RepairDocument`, `RepairHead` | the structural repair record: its serializer, markers, tree comparison, the two-pass document serializer and where the record goes |
| `Preflight`, `Measured`, `Budget`, `Materialize`, `FrameOwners`, `Captures`, `Snapshot` | measuring a document, the shared allowance, speculative allocations, frame owner paths, trees of captured documents, the recursive snapshot |
| `Sha256`, `Crc32`, `HashConstants`, `Observations`, `Transfer`, `Accepted` | digests and checksums, the chunk store, the host's assembler, a whole transfer, and a frame from snapshot to accepted payload |
| `Transport`, `Targets`, `TargetProtocol` | the command multiplexer and the target manager as interleaved steps, and the classes that take the steps |
| `ContentStore` | the deduplicating store |

Machines with an explicit stack are proved by the text their stack still owes: a recursive
function of the pending tasks that every pop and push keeps. Concurrent parts are step
relations with an inductive invariant; the theorems speak about every run.

What the proofs found:

- A stylesheet whose text fits its limit exactly is refused when a rule that would be dropped
  follows (`Materialize.ExactFitWithTrailingRuleRefused`); `LastRuleDecides` gives the exact
  condition.
- The bytes counted for HTML exceed the UTF-8 length of the result by two for every surrogate
  pair that two siblings share (`HtmlBytes.SplitPairIsCountedTwice`); `CountIsExact` gives the
  exact condition.
- An empty `shadowrootmode` is lost from the repair record (`RepairDocument.EmptyModeLost`);
  `RecordDeterminesTree` says exactly which trees a record determines.
- When a session id is reserved again for another frame, detaching it leaves one frame without
  a managed session (`Targets.ReusedSessionStrandsFrame`); `TargetProtocol.FramesStayManaged`
  gives the exact condition for a whole run.
- A frame whose copy fails with an exception that is swallowed keeps its bytes, nodes and frame
  for the rest of the capture (`Snapshot.BrokenFrameStaysPaidFor`); `SnapshotDocument` says exactly
  when an exception leaves something abandoned: when the document could be reserved.
- A stream without chunks is stored although the store is over its total limit, one empty chunk is
  not; this is the only case in which chunking decides
  (`ContentStore.ChunkingDecidesOnlyWithoutChunks`).
- CRC-32 detects every change confined to four consecutive bytes and misses one of five at every
  place of every message (`Crc32.BurstDetected`, `Crc32.FiveByteBurstMissed`).

## Model

| member | source | states |
|---|---|---|
| Text.Utf8LengthWithinLimit | collector/src/protocol.ts:13-42 | The loop returns the UTF-8 length when it is within the limit, over-limit otherwise, and a type error exactly for limits that are not non-negative safe integers |
| Text.WidthAt | collector/src/protocol.ts:13-42 | The width and the unit count the loop uses at a position are those of the scalar value there, unpaired surrogates as U+FFFD |
| Text.EncodeConcat | collector/src/protocol.ts:13-42 | UTF-8 encoding is a homomorphism, except that joining the two halves of a surrogate pair saves two bytes |
| Utf8.DecodeEncode | collector/src/primordials.ts:179-191 | A decoder for section 4 of RFC 3629 gives back every encoded string, unpaired surrogates as U+FFFD |
| Received.ObservationReadsBack | collector/src/index.ts:166-183 | For every observation the stored bytes decode and parse to the observation, with the unpaired surrogates of its strings and keys as U+FFFD and values without a JSON form as null |
| Received.RepairedPrint | collector/src/serialize.ts:200-264 | Replacing unpaired surrogates in the printed text is the same as replacing them in every string and key of the value |
| Writer.CountedBytes | collector/src/serialize.ts:34-83 | The widths summed piece by piece exceed the UTF-8 length of the joined text by exactly two per pair split between pieces |
| Writer.BoundedWriter.Write | collector/src/serialize.ts:44-56 | A write succeeds exactly while everything offered so far fits; overflow is sticky, so the writer's state is a function of all pieces offered, also those after it |
| Writer.BoundedWriter.ResultString | collector/src/serialize.ts:62-71 | The result is the joined text and summed width of everything offered if that width fits the limit, otherwise limit plus one |
| Writer.BoundedWriter.ResultBytes | collector/src/serialize.ts:73-82 | The same for bytes: the encodings of the pieces one after the other |
| Writer.EncodeUtf8Chunks | collector/src/primordials.ts:179-191 | Encoding succeeds exactly when the array has room for all chunks, which then lie end to end in it with zeros after them |
| Decimal.DigitsDenote | collector/src/repair.ts:153-159 | A decimal numeral denotes its number and has no leading zero |
| Decimal.IntTextInjective | collector/src/index.ts:56-58 | Different integers have different decimal text |
| Escape.WriteEscaped | collector/src/serialize.ts:268-287 | The run-by-run loop offers exactly the text escaped unit by unit, as far as widths, text and success are concerned |
| Escape.HtmlRoundTrip | collector/src/serialize.ts:289-300 | Escaped HTML text and attribute values read back as they were and hold no `<`, attribute values no `"` |
| Json.CharsRoundTrip | collector/src/serialize.ts:302-340 | A string parser for section 7 of RFC 8259 reads every escaped string back, in the JSON and in the script mode |
| Json.ValueRoundTrip | collector/src/serialize.ts:200-264 | A parser for RFC 8259 applied to a printed value followed by a delimiter returns the value and stops at the delimiter |
| Json.TextRoundTrip | collector/src/serialize.ts:200-264 | Parsing the whole printed text returns the value, with values without a JSON form as null |
| JsonMachine.WriteJsonString | collector/src/serialize.ts:58-60 | Exactly the quoted escaped string is offered |
| JsonMachine.PushItems | collector/src/serialize.ts:200-264 | Pushing an array, last item first, makes the stack owe the array's printed text and then what it owed before |
| JsonMachine.PushMembers | collector/src/serialize.ts:200-264 | Pushing an object, last member first, makes the stack owe the object's printed text and then what it owed before |
| JsonMachine.WriteJson | collector/src/serialize.ts:200-264 | The stack machine offers exactly the recursive printer's text, also when it stops early |
| JsonMachine.SerializeJsonBytesBounded | collector/src/serialize.ts:191-198 | The result is the UTF-8 encoding of the JSON text if that fits the limit, otherwise limit plus one |
| Html.Emit | collector/src/serialize.ts:115-184 | One task writes exactly its own pieces of the recursive printer, and stops the loop only after an overflow |
| Html.PushElement | collector/src/serialize.ts:115-184 | After an element's opening the stack owes its children or template content and its closing tag, if it has one |
| Html.SerializeHtmlBounded | collector/src/serialize.ts:115-184 | The result is the recursive printer's text if the summed widths of its pieces fit, otherwise limit plus one, although some write results are ignored and inner loops break early |
| HtmlReader.NodeReadsBack | collector/src/serialize.ts:115-184 | A reader of tags, quoted attributes, comments, raw text and void elements gives back every node from its printed text and stops at its end, for trees whose text means them: names of name characters, text that is not empty, comments without their end, raw text without its end tag, no neighbouring texts |
| HtmlReader.ForestReadsBack | collector/src/serialize.ts:175-182 | The same for a list of children in front of an end tag |
| HtmlReader.AttributesReadBack | collector/src/serialize.ts:153-167 | Every attribute list is read back from its text, names and values, whatever the values hold |
| HtmlReader.DocumentReadsBack | collector/src/serialize.ts:115-184 | What the serializer returns for such a tree, if it is within the limit, reads back as the tree without namespaces, shadow roots and the children of void elements |
| HtmlReader.TextDeterminesTree | collector/src/serialize.ts:115-184 | Two ordinary trees with the same text are the same tree |
| HtmlReader.ValuesAreRecovered | collector/src/serialize.ts:131-133 | Whatever they hold, ordinary text and attribute values are recovered by replacing character references and hold no `<`, and raw text stands as it is |
| HtmlReader.OrdinaryNeedsNoRepair | collector/src/repair.ts:78-88 | A tree that its text holds completely is reparsed to an equal tree, so no record is attached |
| HtmlBytes.SplitsAreShared | collector/src/serialize.ts:115-184 | The surrogate pairs that the pieces split are exactly those where, among siblings of the printed tree, text that ends with a high surrogate is followed, after siblings that print nothing, by text that starts with a low one |
| HtmlBytes.CountIsExact | collector/src/serialize.ts:44-71 | The counted bytes exceed the UTF-8 length by two per pair shared by siblings, so they are equal exactly when no pair is shared |
| HtmlBytes.SplitPairIsCountedTwice | collector/src/serialize.ts:115-184 | Two neighbouring text nodes that hold the halves of any pair are counted two bytes above the length of their text |
| Preflight.MeasureElement | collector/src/budget.ts:359-400 | An element's tags and attributes are measured exactly, or over the limit |
| Preflight.MeasureDomNodePayload | collector/src/budget.ts:359-400 | A node's own bytes are measured exactly, or over the limit |
| Preflight.VisitTotals | collector/src/budget.ts:309-357 | The visiting order meets every node of a tree once: its length and byte sum are the recursive totals |
| Preflight.VisitIsComplete | collector/src/budget.ts:309-357 | A node is visited exactly when it lies in the tree, in template content and shadow roots too |
| Measured.PreflightIsExact | collector/src/budget.ts:359-400 | What the preflight counts for a tree is exactly the width of its printed text, when the serializer writes all of the tree and replaces nothing in it |
| Preflight.PreflightDocumentWithinLimits | collector/src/budget.ts:309-357 | The worklist of children, siblings, template content and shadow roots is a scan of the tree's nodes in visiting order, stopped at the first limit |
| Preflight.PreflightDecides | collector/src/budget.ts:309-357 | The answer is ok exactly when the recursive node and byte totals both fit, with exactly those totals; a refusal names a limit that is exceeded and reports limit plus one |
| Budget.SnapshotBudget.constructor | collector/src/budget.ts:91-105 | A new budget has the whole allowance, with nothing open, abandoned or committed |
| Budget.SnapshotBudget.ReserveDocument | collector/src/budget.ts:107-150 | A document is reserved exactly when depth, a frame, its nodes and its bytes are all available, with its recursive totals; otherwise nothing changes and the error names an exceeded limit. As with every operation, what remains + source and allocated bytes of the open and abandoned reservations + own bytes of committed documents is the maximum, and likewise for nodes and frames |
| Budget.SnapshotBudget.RecordNestedSnapshot | collector/src/budget.ts:152-161 | The reservation's nested totals grow by the child's, and conservation holds |
| Budget.SnapshotBudget.ReservePayloadAllocation | collector/src/budget.ts:176-191 | All or nothing: succeeds exactly for amounts that remain, and moves exactly them from what remains to the reservation |
| Budget.SnapshotBudget.SettlePayloadAllocation | collector/src/budget.ts:193-214 | Replaces the reserved part of an allocation by the actual amount, exactly when that is possible, and keeps conservation over all reservations |
| Budget.SnapshotBudget.CommitDocument | collector/src/budget.ts:220-236 | Accepts exactly the payloads up to the maximum for the document; the reservation is no longer open and a document with its own bytes and nodes is committed |
| Budget.SnapshotBudget.Abandon | collector/src/state.ts:242-251 | An exception leaves the reservation, and the documents committed inside it, behind; nothing is given back and conservation holds |
| Materialize.ReserveCanvasDataUrl | collector/src/state.ts:421-429 | Succeeds exactly for a known estimate that remains, and the reservation gains exactly it |
| Materialize.EncodeReservedCanvasDataUrl | collector/src/state.ts:431-443 | The reserved bytes become exactly the UTF-8 bytes of the data URL, or nothing changes and an error is thrown |
| Materialize.CaptureCanvasDataUrl | collector/src/state.ts:411-419 | On success the reservation gains exactly the data URL's bytes, on every exception nothing |
| Materialize.CopyCanvas | collector/src/state.ts:135-157 | On every path the reservation gains exactly the bytes of the image that replaced the canvas, or nothing; exactly when the image is kept, when a limit error is rethrown and when the fallback decides |
| Materialize.CaptureVideoFrame | collector/src/state.ts:359-381 | What the try block leaves reserved and allocated when it ends, on every path, is what the reservation gained |
| Materialize.MaterializeVideo | collector/src/state.ts:348-404 | The same law as for a canvas: both counters are settled on every exception path, and limit errors are rethrown exactly when the estimate or the data URL is too large |
| Materialize.JoinLinesWidth | collector/src/styles.ts:80-100 | The width of newline-joined texts grows by one separator and the text's width |
| Materialize.CopyCssRules | collector/src/styles.ts:59-108 | The copied rules are exactly the kept ones and the byte count is the UTF-8 length of their newline-joined text; a readable sheet is copied exactly when every step of the loop passes, and a sheet whose rule list cannot be read is unreadable whatever the limit |
| Materialize.KeptTextsAreKept | collector/src/styles.ts:59-108 | A text is copied exactly when a rule that is kept has it, once for each such rule |
| Materialize.LastRuleDecides | collector/src/styles.ts:77-100 | Every step passes exactly when the last one does: bytes are left in front of the last rule and, if it is kept, it fits |
| Materialize.ExactFitWithTrailingRuleRefused | collector/src/styles.ts:77-80 | Every sheet whose text fits exactly is refused when one more rule follows that would be dropped |
| Materialize.MaterializeCssRules | collector/src/styles.ts:110-142 | Every unclaimed byte is held during serialization; afterwards the reservation has gained exactly the text's UTF-8 length, or nothing without allocation, on errors and on unreadable sheets |
| FrameOwners.FrameOwnerMappings | collector/src/collection.ts:305-329 | The owner itself and then every nested mapping with both indices in front |
| FrameOwners.CollectFrameOwners | collector/src/collection.ts:271-287 | The loop over the live owners builds the listing of the owner tree |
| FrameOwners.ListingExact | collector/src/collection.ts:271-287 | A mapping is in the list exactly when its owner and all owners around it are retained and its retained path is the rank among retained owners at every level |
| FrameOwners.ListingOrdered | collector/src/collection.ts:271-287 | Original and retained paths both follow document order, with equal depths |
| FrameOwners.ValidateFrameOwnerPaths | offprint-rs/chromium/src/collector.rs:125-146 | The host accepts exactly lists with non-empty paths of equal depth and unique original and unique retained paths |
| FrameOwners.ListingAccepted | offprint-rs/chromium/src/collector.rs:125-146 | The host accepts every list the collector builds, for every tree and every choice of retained owners |
| Snapshot.CopyInlineFrame | collector/src/state.ts:201-252 | Exactly limit errors of the child are rethrown, any other is swallowed without a trace in the parent; the frame is left out only if it has no document to reach or one that throws; a captured child is recorded under its owner, with exactly the nodes and frames committed for it |
| Snapshot.CopyContent | collector/src/state.ts:102-174 | A canvas, video or stylesheet that does not throw adds exactly its image, its frame or its text to the allocation; it throws something that is no limit only if its fallback does, and nothing while the bytes it needs remain |
| Snapshot.CopyWork | collector/src/state.ts:102-174 | Every piece of work keeps conservation and the account of the document, and says what became of it: a frame is entered, unreachable, or left out because its document throws something that is no limit; other work adds exactly the bytes it keeps; nothing is thrown that the work cannot throw |
| Snapshot.CopyAll | collector/src/collection.ts:220-270 | All work of a document keeps that account: the nested captures are exactly those of the frames entered, in their order, a frame is missing only if there is no document to reach or that document throws something that is no limit, the allocation grows by exactly what the work keeps, and an exception that is no limit comes from work that throws one |
| Snapshot.FinishDocument | collector/src/collection.ts:271-302 | A document is captured exactly when the document serializer succeeds under the document's maximum, with its text and bytes, and the commit cannot refuse; frames, nodes and owner list are those of the captured tree, with the page's retained owners; otherwise everything below is abandoned |
| Snapshot.SnapshotDocument | collector/src/collection.ts:220-303 | For every graph of documents, cycles included, the recursion ends; whatever happens conservation holds and the reservations made are committed or abandoned; an exception leaves something abandoned exactly when the document could be reserved, and otherwise changes nothing. What comes out is the capture of a tree of documents that follows the pages' frames and is no deeper than allowed: its frame count, node total and frame owner list (the page's retained owners at every level) are those of the tree, exactly its documents were committed, and its bytes are covered by theirs. If neither the document nor any within the depth throws anything but limits and what remains covers them all, it is captured with every frame of every page |
| Snapshot.CopyReserved | collector/src/collection.ts:233-302 | The same for a document that has been reserved; a copy that throws at once gives nothing of its reservation back |
| Snapshot.BrokenFrameStaysPaidFor | collector/src/state.ts:242-251 | A parent whose only frame fails to copy is captured alone, and the child's nodes, bytes and frame are gone as well as its own |
| Snapshot.TakeSnapshot | collector/src/index.ts:109-142 | A capture that completes reports the frames, nodes and owners of its tree of documents, is within the byte, node and frame limits and at every level within the depth limit, its HTML within its bytes, and the host accepts its frame owner list; its HTML is what the document serializer gives for the copy, and a tree of documents that do not throw and whose cost is within the limits is captured whole |
| Captures.NothingLeftOut | collector/src/state.ts:201-252 | A captured tree over documents that cannot throw has every reachable frame of every page, at every depth, and no other document |
| Captures.SizeSuffices | collector/src/collection.ts:271-302 | A copy that has a text at all has the same text under every limit from some size on |
| RepairData.RecordRoundTrip | collector/src/repair-serialization.ts:24-103 | Parsing the printed record and reading its fields returns the record tree, template content and shadow mode included |
| RepairData.PrintInert | collector/src/serialize.ts:325-340 | Script-mode JSON holds no `<`, `>`, `&`, U+2028 or U+2029 |
| RepairMachine.FollowersFit | collector/src/repair-serialization.ts:33-100 | A task's followers stay within the bound given by the depth below it |
| RepairMachine.SerializeRepairDataBounded | collector/src/repair-serialization.ts:24-103 | The sibling-cursor machine writes the recursive encoding if it fits, reports the limit otherwise, throws exactly at the first unsupported node it reaches within the limit, and never has more than 2 * (depth + 1) tasks pending |
| RepairText.RecordText | collector/src/repair-serialization.ts:24-103 | For supported trees the machine's text is the printed JSON of the record; otherwise the text is never completed |
| RepairText.RecordReadsBack | collector/src/repair-serialization.ts:24-103 | End to end: a supported tree within the limit gives text that is inert in a script element and decodes back to the tree's record |
| Repair.WalkElements | collector/src/repair.ts:167-187 | The stack visits every element once, template content included, in walk order |
| Repair.WalkIsComplete | collector/src/repair.ts:167-187 | An element is walked exactly when it lies in the tree, in template content too |
| Repair.MarkNumbers | collector/src/repair.ts:153-159 | Every element gets its walk index as marker and keeps its namespace, name and other attributes |
| Repair.MarkKeepsShape | collector/src/repair.ts:153-159 | Apart from the attributes of the elements that are walked, marking changes nothing |
| Repair.MarkersAreUnique | collector/src/repair.ts:153-159 | The i-th element of the walk has marker i, and no two elements share a marker |
| Repair.MarkersComeOff | collector/src/repair.ts:153-165 | A tree without markers comes back exactly as it was when its markers are assigned and removed |
| Repair.UnmarkClears | collector/src/repair.ts:161-165 | Removal takes the marker off every element that is walked, template content included, and leaves every other attribute in order, every text and the structure |
| Repair.NoMarkerLeft | collector/src/repair.ts:161-165 | After removal no element has a marker and every other attribute reads as before |
| RepairDocument.RepairNodesEqual | collector/src/repair.ts:90-139 | The worklist comparison returns true exactly for recursively equal trees |
| RepairDocument.SameRecord | collector/src/repair.ts:90-139 | Trees that compare equal have the same repair record |
| RepairDocument.RecordTells | collector/src/repair-serialization.ts:24-103 | Among trees whose elements have markers and whose templates have no empty shadow mode, records are equal exactly when the comparison finds the trees equal |
| RepairDocument.RecordDeterminesTree | collector/src/repair-serialization.ts:63-94 | The record determines a tree among all trees exactly when every element has a non-empty marker and every template a non-empty shadow mode |
| RepairDocument.EmptyModeLost | collector/src/repair-serialization.ts:63-71 | Any template has the same record with an empty shadow mode as with none, although the comparison tells the two apart |
| RepairDocument.RequiresStructuralRepair | collector/src/repair.ts:78-88 | Repair is needed exactly when the reparsed text is refused or differs from the marked tree |
| RepairDocument.SerializeDocumentWithRepair | collector/src/repair.ts:56-76 | What the document serializer returns in every case: limit, record attached exactly when the marked text does not reparse to an equal tree, or the unmarked tree, which is the original if that had no markers; a document that comes out is within the limit |
| RepairDocument.OutcomeStays | collector/src/repair.ts:56-76 | A document that comes out under a limit comes out the same under every larger one |
| RepairHead.AppendsToFirstHead | collector/src/repair.ts:189-200 | The record goes to the end of the head that comes first in document order, and nowhere exactly when there is no head |
| RepairHead.AppendAtAddsOne | collector/src/repair.ts:189-200 | Appending puts one node at its place, moves no other node and changes none |
| RepairHead.RepairedDocumentCarriesRecord | collector/src/repair.ts:66-76 | A repaired document that comes out is the printed marked tree with one more node, the last child of the first head: an inert script of the record's id and media type whose text parses back to the record of the marked tree |
| RepairHead.ThrowsExactlyWithoutHead | collector/src/repair.ts:189-193 | A tree that a record can describe makes the serializer throw exactly when the record fits and the tree has no head |
| RepairDocument.RecordOmittedOnlyWhenRedundant | collector/src/repair.ts:56-88 | The record is omitted only when reparsing the marked text gives a tree with the same record |
| Words.RotateRightIsRotr | collector/src/protocol.ts:144-146 | The signed result of the shift expression denotes the rotated word |
| Sha256.LengthSplits | collector/src/protocol.ts:153-154 | high * 2^32 + low is eight times the byte length |
| Sha256.LengthField | collector/src/protocol.ts:152-162 | The eight stored bytes are the big-endian bit length |
| Sha256.ZeroBytesLeast | collector/src/protocol.ts:151 | The padding is the least that section 5.1.1 of FIPS 180-4 allows |
| Sha256.PaddedLength | collector/src/protocol.ts:151 | The computed padded length is the length of the padded message |
| Sha256.PaddedByteAgrees | collector/src/protocol.ts:177-185 | Every byte the loop reads is the byte of the padded message at that position, which is never built |
| Sha256.ReadWord | collector/src/protocol.ts:174-189 | Four bytes shifted together are the big-endian message word |
| Sha256.FillWords | collector/src/protocol.ts:174-200 | The word array holds the message schedule of section 6.2.2 |
| Sha256.Compress | collector/src/protocol.ts:202-233 | The 64 rounds and the final addition are those of section 6.2.2, for signed intermediate results |
| Sha256.Hexadecimal | collector/src/protocol.ts:261-270 | The digits of the unsigned value, most significant first |
| Sha256.HexOfBigEndian | collector/src/protocol.ts:236-241 | The eight digits of a word are the hexadecimal text of its four bytes |
| Sha256.Sha256Fallback | collector/src/protocol.ts:148-242 | For every message the result is the hexadecimal SHA-256 digest that FIPS 180-4 defines |
| HashConstants.RoundConstantsAreCubeRoots | collector/src/protocol.ts:133-142 | Every round constant is the first 32 bits of the fraction of the cube root of its prime |
| HashConstants.InitialHashIsSquareRoots | collector/src/protocol.ts:164-171 | Every initial word is the first 32 bits of the fraction of the square root of its prime |
| Crc32.Compute | collector/src/protocol.ts:248-259 | The loop, with its signed intermediate values, computes the checksum of the bitwise definition |
| Crc32.FeedLinear | collector/src/protocol.ts:248-259 | The register is linear: the difference of two messages determines the difference of their registers |
| Crc32.StepsInjective | collector/src/protocol.ts:254-256 | Bit steps never map two registers to one |
| Crc32.BurstDetected | collector/src/protocol.ts:248-259 | Messages of equal length that differ only within four consecutive bytes have different checksums |
| HashConstants.PolynomialTerms | collector/src/protocol.ts:255 | The constant of the bit loop is the generator of IEEE 802.3 with its bits reversed |
| Crc32.FiveByteBurstMissed | collector/src/protocol.ts:248-259 | For every message and place there is another message that differs within five consecutive bytes and has the same checksum |
| Observations.KeyInjective | collector/src/index.ts:56-58 | Keys are injective in capture and frame, whatever the capture id holds |
| Observations.ChunksCoverBytes | collector/src/index.ts:175-176 | The chunks in order are the stored bytes |
| Observations.ChunkLengths | collector/src/index.ts:220-221 | Every chunk but the last has exactly the chunk size, the last what is left |
| Observations.FramesAreIsolated | collector/src/index.ts:86-254 | No run of calls for other frames or captures, nor of reads and acknowledgements, changes what is stored for a frame |
| Observations.StoreFollowsCalls | collector/src/index.ts:86-254 | After any calls the store holds for a frame what its last preparation put there, exactly unless another has begun or a release has come since, and of it exactly the chunks acknowledged since are acknowledged |
| Observations.ReadInAnyOrder | collector/src/index.ts:210-235 | Chunks read in any order, interleaved with anything for other frames, are the stored bytes once put in sequence |
| Observations.Collector.BeginPrepare | collector/src/index.ts:86-185 | The old observation is gone whatever happens; an observation is ready exactly when all limits are valid, the snapshot succeeded and its JSON text fits, and it then holds the UTF-8 text, its chunk count and its digest |
| Observations.Collector.FinishPrepare | collector/src/index.ts:186-187 | The observation is stored under its key and described |
| Observations.Collector.Read | collector/src/index.ts:210-235 | Exactly an available chunk of the frame's own observation, with its length and checksum |
| Observations.Collector.Acknowledge | collector/src/index.ts:237-249 | Succeeds exactly for an available chunk and changes only the acknowledgements |
| Observations.Collector.Release | collector/src/index.ts:251-254 | Only the frame's own observation is removed |
| Transfer.NewPlan | offprint-rs/protocol/src/transfer.rs:18-76 | A plan exists exactly for a descriptor of the expected frame within the limit whose chunk count follows from its size and fits 32 bits, and carries the descriptor's size and digest |
| Transfer.PlanOfStored | offprint-rs/chromium/src/collector.rs:61-70 | The descriptor of a stored observation gives a plan that describes it, exactly unless it is too large or has too many chunks |
| Transfer.ChunkAssembler.Push | offprint-rs/protocol/src/transfer.rs:116-189 | A chunk is taken exactly when it is the expected one; nothing is handed out with another length or digest than the plan's; both length errors after the chunk check are unreachable |
| Transfer.DamagedChunkRefused | offprint-rs/protocol/src/transfer.rs:116-189 | A chunk whose payload was changed within four consecutive bytes is refused with the checksum error |
| Transfer.TakeChunk | offprint-rs/chromium/src/collector.rs:76-101 | One round of read, push and acknowledge, with arbitrary calls of others in between: it succeeds only if both calls are delivered, and exactly then if the stored observation is as planned and undisturbed |
| Transfer.ReadChunks | offprint-rs/chromium/src/collector.rs:75-104 | The read loop yields a payload only if every call is delivered and only with the planned length and digest; without interference for the same frame it yields exactly the stored bytes, exactly when every call is delivered |
| Transfer.CollectFrame | offprint-rs/chromium/src/collector.rs:71-122 | A payload is handed on only with the planned length and digest, with acceptable frame owners and if no call fails; without interference for the same frame it is exactly the stored bytes, exactly when those decode so and no call fails. A release is attempted in any case, and the observation is gone exactly when the release took effect |
| Accepted.OwnersReadBack | offprint-rs/browser/src/observation.rs:68-117 | The host reads the frame owners back from the stored bytes of an observation exactly when every path index is an unsigned 32-bit number |
| Accepted.ListingIsAcceptable | offprint-rs/chromium/src/collector.rs:104-109 | The frame owners of every capture are acceptable to the host exactly when every path index is an unsigned 32-bit number |
| Accepted.HandOver | offprint-rs/chromium/src/collector.rs:50-122 | Preparing, planning and collecting an observation without failing or interfering calls hands on exactly its bytes, exactly when its frame owners are acceptable, and removes it |
| Accepted.CaptureFrame | offprint-rs/chromium/src/collector.rs:50-122 | From snapshot to payload: a captured, prepared and planned frame is handed on exactly when its path indices are unsigned 32-bit numbers, and the host then has the stored bytes and the capture's frame owners |
| ContentStore.SizesInsert | offprint-rs/capture/src/content_store.rs:222-231 | Adding an entry adds its size to the sum of stored sizes |
| ContentStore.ContentStore.ReceiveStream | offprint-rs/capture/src/content_store.rs:158-192 | The stream is read exactly when nothing fails and it is within the limits; every chunk that is looked at counts as received |
| ContentStore.ChunkingDecidesOnlyWithoutChunks | offprint-rs/capture/src/content_store.rs:159-184 | The division into chunks decides about the limits exactly when the received bytes are over the total limit and one of the two streams has no chunk |
| ContentStore.ContentStore.InsertStream | offprint-rs/capture/src/content_store.rs:136-236 | Stored exactly when nothing fails and the limits hold, under the digest of the concatenation; unique bytes are the sum of the stored sizes and at most the received bytes, so their overflow error is unreachable; a rejected stream changes no entry |
| ContentStore.InsertTwice | offprint-rs/capture/src/content_store.rs:199-206 | Two stored streams with the same concatenation share one entry, however they are chunked, whatever their limits are and whatever is stored, rejected or fails between them |
| Transport.Step | offprint-rs/chromium/src/transport.rs:439-542 | Every step of callers, guards, actor and wire keeps the invariant |
| Transport.AnsweredOnce | offprint-rs/chromium/src/transport.rs:348-388 | In every run a command is answered at most once, under its own id and method name, and what its caller gets is that answer |
| Transport.AnswerHasCause | offprint-rs/chromium/src/transport.rs:637-648 | Every answer of every run has its event: a remote error comes from the response with that id and error, a result from the response with that id and result, or null from one with neither, an encoding error from the failed encoding of that command, a terminal error from the stop with that error, a send result from the write of that message |
| Transport.StopHasCause | offprint-rs/chromium/src/transport.rs:453-541 | The error the actor stops with is that of the close, the hang-up, the failed write or the broken message that stopped it |
| Transport.ResponseDecides | offprint-rs/chromium/src/transport.rs:637-648 | Once the response to a registered command is routed to a caller that waits, that caller can return with nothing else at any later time: with the remote error under its own method if the response carries one, otherwise with its result, or null |
| Transport.NoLeak | offprint-rs/chromium/src/transport.rs:371-374 | In every run, when both queues are drained, every pending id has a caller that waits or is about to post its cancellation, also when a cancellation overtook its command |
| Transport.NeverForgotten | offprint-rs/chromium/src/transport.rs:439-542 | While the actor runs, the sender of every unanswered waiting caller is queued, held by the actor or pending |
| Transport.StopSettlesEveryCall | offprint-rs/chromium/src/transport.rs:536-542 | Once the actor has stopped, every caller that still waits or sends can return, and nothing is pending |
| Transport.RegisteredGetTerminalError | offprint-rs/chromium/src/transport.rs:536-541 | Unless the task is aborted, a caller registered when the actor begins to stop, who still waits once it has stopped, has the terminal error under its own id and method |
| Transport.OnlyQueuedAreLost | offprint-rs/chromium/src/transport.rs:534-542 | After a stop that was not aborted, only a caller whose command was still queued is left without an answer |
| Transport.Connection.SendOutcome | offprint-rs/chromium/src/transport.rs:637-649 | A sender's use reaches its own caller's slot, if the caller still waits |
| Transport.Connection.HandleCancellation | offprint-rs/chromium/src/transport.rs:455-457 | The cancellation branch takes the step of the model and keeps the invariant |
| Transport.Connection.HandleOutbound | offprint-rs/chromium/src/transport.rs:458-521 | The outbound branch takes the step of the model; a command whose receiver is closed is dropped |
| Transport.Connection.RegisterCommand | offprint-rs/chromium/src/transport.rs:496-502 | Registering takes the step of the model |
| Transport.Connection.RouteMessage | offprint-rs/chromium/src/transport.rs:628-668 | Routing takes the step of the model: only the pending command with the message's id is answered |
| Transport.Connection.FailAllPending | offprint-rs/chromium/src/transport.rs:536-541 | Every pending caller that still waits gets the terminal error under its own id and name, no one else is touched, and nothing stays pending |
| Targets.ReserveKeepsFramesManaged | offprint-rs/chromium/src/targets.rs:482-520 | Reserving keeps every frame's session managed exactly when no other frame has the session |
| Targets.ReusedSessionStrandsFrame | offprint-rs/chromium/src/targets.rs:482-554 | A session reserved for two frames leaves a frame without managed session when it is detached |
| Targets.DetachKeepsFramesManaged | offprint-rs/chromium/src/targets.rs:530-554 | Detaching keeps every frame's session managed |
| Targets.RemoveKeepsFramesManaged | offprint-rs/chromium/src/targets.rs:522-528 | Removing keeps every frame's session managed |
| Targets.TableKeepsLimits | offprint-rs/chromium/src/targets.rs:482-554 | Reserving, removing and detaching stay within the target and frame limits |
| Targets.ConfigureCovers | offprint-rs/chromium/src/targets.rs:556-648 | The commands for a new session include everything the policy promises its kind, and no other interception |
| Targets.TargetState.ReserveTarget | offprint-rs/chromium/src/targets.rs:482-520 | Refused exactly at a limit, without change; otherwise the session and a document's frame are entered |
| Targets.AdmitsExactly | offprint-rs/chromium/src/targets.rs:482-520 | A new target is refused exactly when its entries would exceed a limit |
| Targets.TargetState.RemoveTarget | offprint-rs/chromium/src/targets.rs:522-528 | The session and every frame that has it are gone |
| Targets.TargetState.SetTargetError | offprint-rs/chromium/src/targets.rs:767-772 | The first error stays |
| Targets.TargetState.RecordDetachedTarget | offprint-rs/chromium/src/targets.rs:530-554 | The session and one frame that has it are removed; managed frames stay managed |
| TargetProtocol.Step | offprint-rs/chromium/src/targets.rs:337-480 | Every step of manager, browser and policy changes, changes that are dropped half-way included, keeps the invariant |
| TargetProtocol.ResumedTargetsMeetPolicy | offprint-rs/chromium/src/targets.rs:411-465 | In every run each resumed document and service worker has fetch interception if it is committed, and each resumed document and worker has the network block if it is committed |
| TargetProtocol.PolicyIsWhatWasCommitted | offprint-rs/chromium/src/targets.rs:105-115 | In every run the policy is what the changes committed so far make it, and interception is committed with one value only |
| TargetProtocol.CommitHolds | offprint-rs/chromium/src/targets.rs:105-115 | In every run, after a block is committed every resumed document and worker is blocked from then on, and after interception is committed every resumed document and service worker is intercepted as it was committed, also those that attach later |
| TargetProtocol.DecisionReachesEveryManaged | offprint-rs/chromium/src/targets.rs:250-267 | A change of a sort not committed before, decided on without a recorded error, goes to exactly the managed sessions of a kind it is for: interception to documents and service workers, the block to all |
| TargetProtocol.DecisionTurnsDown | offprint-rs/chromium/src/targets.rs:250-260 | A change is turned down, reaching no target, exactly when an error is recorded or a change of its sort has been committed |
| TargetProtocol.ChangeWasBegun | offprint-rs/chromium/src/targets.rs:239-250 | A change that is decided on or fanned out is one that a caller began |
| TargetProtocol.DetachedFrameIsAnError | offprint-rs/chromium/src/targets.rs:530-554 | A managed document that detaches leaves the table, and the capture has an error from then on: the first one recorded, or the detached frame |
| TargetProtocol.CountsStayWithinLimits | offprint-rs/chromium/src/targets.rs:482-554 | In every run managed and frame counts are within limits, also when session ids are used again |
| TargetProtocol.FramesStayManaged | offprint-rs/chromium/src/targets.rs:482-554 | Every frame has a managed session of its own throughout a run exactly when no admitted attachment shares the session of another frame |
| TargetProtocol.PartialChangeCloses | offprint-rs/chromium/src/targets.rs:250-280 | In every run, after a change has failed on a target although it had reached another, every later state is cancelled and no further target is ever resumed; unless the caller is dropped before it can record the failure, there is an error once it has |
| TargetProtocol.ErrorsStick | offprint-rs/chromium/src/targets.rs:767-772 | An error, a cancellation and a committed policy are never taken back |

## Left out

- Writer.EncodeInto: the bytes `TextEncoder.encodeInto` leaves in a destination that is too small are not described, because the one caller discards the destination.
- Transport.AnsweredOnce: command ids do not wrap around at 64 bits.
- Transport.NoLeak: the check whether a receiver is closed sees every earlier drop; weaker memory orders are not modelled.
- Accepted.ReadOwners: of the observation the host's reader looks at the frame owners only; the types of the other members are not modelled.
- TargetProtocol.Step: an abort of the manager's task while it closes and removes a target that failed is not a step; it happens only when the manager itself is dropped. The browser gives a session id to one live target at a time; it may use it again once that target has detached.
- Snapshot.SnapshotDocument: the copy that is serialized is an arbitrary element tree; how the browser builds it from the live document is not modelled.
- Snapshot.CopyWork: the order of canvases, videos, stylesheets and frames is arbitrary, and any other step may throw at any point.
- HtmlReader.NodeReadsBack: the reader takes the serializer's own syntax; what else an HTML parser accepts or rearranges, such as implied elements, is not modelled.
- Repair.UnmarkClears: attribute names of an element are distinct, as the DOM has it; markers are set on values, so aliasing of DOM nodes is not modelled.
- Json.TextRoundTrip: numbers are integers; fractional numbers, such as the bounds of a visual fallback, are not modelled.
- Sha256.Sha256Fallback: lengths within 72 of 2^53, where double arithmetic rounds, are treated exactly.
- Limits that are not safe integers are refused by the callers of the serializers and are not passed to them.
- Wall-clock timeouts in the transport and the target manager are drops and cancellations that may happen at any step.
- The event bus, subscriptions and oversized message routing in `transport.rs`: they touch no pending command.
- Selecting `head` for the repair script goes by local name; the browser's selector engine is not modelled.
- DOM wrappers, motion capture, selection and selector scopes, used-font detection, visual fallback geometry and warnings: they depend on the browser engine.
- The size estimate for PNG data URLs is an arbitrary number or absent.
- Reading stored content back from disk, path handling and temporary files: file system behaviour.
- The handshake and its capabilities, error texts and details, the JSON envelope of host calls: plumbing.
- Pipeline, artifact writing, command line, configuration and SDKs.
