# Readers of scientific data files: a verified model

The repository reads scientific data formats (VTK, FLASH, EnSight, Eclipse, GRDECL,
OpenFOAM) into USD layers. This project models the parts of it that decide what is
read: decoders, file indices, tokenizers, caches shared by threads, and the store
that serves time samples. The Dafny files state what each part promises and prove it.

`dafny verify dfyconfig.toml` checks everything.

## How the model is built

A file is a sequence of bytes (of characters, for text decks). A stream is a position
in it, with a fail flag where the code can observe one. A C++ exception is the result
`Throws`, or a false `ok`. A parallel loop runs its tasks in an order that a scheduler
parameter chooses, any permutation; it stops starting tasks once one has failed.
`ParallelReads` lets the chunk reads of the tasks interleave in any way instead.

Code that updates state is imperative here too: classes with the source's fields,
methods with its loops, arrays that are filled in place. Each such method is tied to a
specification function, and the theorems are lemmas about those functions. Code that
runs under a lock is a class whose methods are the critical sections; a step relation
runs the same functions from any number of threads, and the theorems hold in every
state of every run.

| file | what it models |
|---|---|
| `Base64.dfy`, `Base64Segment.dfy`, `FileRanges.dfy` | base64 decoding and random access to base64 segments of VTK files |
| `Schedules.dfy`, `ParallelReads.dfy`, `ChunkedReaders.dfy` | how parallel loops divide work and interleave; the EnSight and OpenFOAM array readers |
| `DatasetSpecCaches.dfy` | the VTK metadata cache with one parse at a time per file |
| `EnsightIndexCaches.dfy`, `EnsightIndexTheorems.dfy` | the EnSight geometry and variable index caches |
| `EnsightText.dfy`, `EnsightGeometry.dfy`, `EnsightRoundTrip.dfy`, `EnsightWalk.dfy` | the EnSight geometry index: what it holds, that it locates what was written, and when building it ends |
| `Words.dfy`, `EclipseBinary.dfy`, `EclipseRoundTrip.dfy` | the Eclipse binary index and its integer loaders |
| `GrdeclTokens.dfy`, `GrdeclArrays.dfy`, `GrdeclLayout.dfy`, `GrdeclDecks.dfy` | GRDECL tokens, keyword arrays and decks with includes |
| `Wildcard.dfy`, `NaturalOrder.dfy`, `FlashSnapshots.dfy`, `FlashSeries.dfy` | choosing, ordering and checking the snapshots of a FLASH series |
| `TimeSamples.dfy` | the lazy time-sample store and its cache |
| `ArrayNames.dfy` | unique array names |
| `Wrappers.dfy`, `Bytes.dfy`, `Collections.dfy`, `Orders.dfy`, `Decimal.dfy`, `Runs.dfy` | shared vocabulary: outcomes, bytes, sequences, orders, decimal digits, runs of a transition system |

## Results that are not what one might expect

- `WildcardMatch` tests for an equal character before it tests for `*`. For every name that
  itself holds a `*` there is a pattern it should match and does not; a lemma builds it.
  The matcher is right for every pattern exactly for the names without `*`, and for every
  name exactly for the patterns without `*`.
- EnSight reads of a truncated file do not throw: a short read leaves the stream
  failed, later offsets are -1 cast to an unsigned number, and the part is kept. The model
  keeps this.
- EnSight indexing does not end for every file. Counts may be negative, and then seeks go
  backwards: behind a part, a piece `point` with -21 elements leads back to its own
  header, which is read again and again. `BuildGeoIndex` therefore takes a limit on the
  headers it reads. `EnsightWalk` shows that the limit does not matter once indexing ends,
  and that it never ends exactly if some header is read twice.
- A GRDECL token that is a quoted slash ends a record like a bare one, and the end of the
  file ends a keyword array like a slash does.
- A first request of an array name that is taken already gets suffix 0, a repeated request
  starts at suffix 1.

## Model

| member | source | states |
|---|---|---|
| Base64.Alphabet | source/file_formats/vtk/src/FileHandle.cpp:168-181 | table 1 of RFC 4648: no six-bit value is written as the padding character |
| Base64.Base64ValueInverts | source/file_formats/vtk/src/FileHandle.cpp:168-181 | the character reader is the exact inverse of that table, both ways |
| Base64.TripleOf | source/file_formats/vtk/src/FileHandle.cpp:210-212 | the three bytes spell the same 24 bits as the four six-bit values |
| Base64.ShiftsAreArithmetic | source/file_formats/vtk/src/FileHandle.cpp:210-212 | on six-bit values the shifts, masks and ors equal the products and quotients used in the model |
| Base64.ReadQuartet | source/file_formats/vtk/src/FileHandle.cpp:183-208 | the loop over four characters accepts exactly well-formed quartets; the test behind it, of how much padding there is and where, never throws |
| Base64.DecodeBase64Quartet | source/file_formats/vtk/src/FileHandle.cpp:183-214 | a quartet decodes iff it is well formed, into one to three bytes, and nothing beyond its three places is written |
| Base64.PaddingIrrelevant | source/file_formats/vtk/src/FileHandle.cpp:183-214 | forbidding padding changes nothing exactly for quartets of three bytes |
| Base64.DecodeNext | source/file_formats/vtk/src/FileHandle.cpp:223-247 | one quartet lands in the target iff it is well formed and its bytes fit the room left |
| Base64.DecodeBase64Into | source/file_formats/vtk/src/FileHandle.cpp:216-251 | the loop succeeds iff the text decodes and yields exactly the expected number of bytes, which then fill the target range and nothing else |
| Base64.DecodeByPieces | source/file_formats/vtk/src/FileHandle.cpp:216-251 | a text decodes iff each quartet does on its own, and byte for byte to their pieces at three bytes each |
| Base64.DecodeEncode | source/file_formats/vtk/src/FileHandle.cpp:183-251 | for every byte sequence, decoding its RFC 4648 section 4 encoding gives it back |
| Base64Segment.DecodedBase64ByteCount | source/file_formats/vtk/src/FileHandle.cpp:274-290 | the size comes from the encoded length and the final quartet alone, and throws when that quartet is malformed or missing |
| Base64Segment.Segment.EncodedCount | source/file_formats/vtk/src/FileHandle.cpp:274-290 | for a segment that holds an encoding of b, that size is the length of b |
| Base64Segment.Segment.WholeSegment | source/file_formats/vtk/src/FileHandle.cpp:412-479 | what quartets decode to one by one is exactly what the whole segment decodes to at once: size, bytes, and when it fails |
| Base64Segment.Segment.MiddleUnpadded | source/file_formats/vtk/src/FileHandle.cpp:484-492 | a quartet whose three bytes lie below the decoded size is never padded |
| Base64Segment.Segment.MiddleDecodes | source/file_formats/vtk/src/FileHandle.cpp:482-493 | quartets in a row, decoded in one piece without padding, give the bytes of the segment at their places |
| Base64Segment.AlignedBatch | source/file_formats/vtk/src/FileHandle.cpp:484-489 | every batch of an aligned range starts and ends at whole triples and is not empty |
| Base64Segment.Base64PayloadSegmentReader.ReadDecodedTriple | source/file_formats/vtk/src/FileHandle.cpp:544-558 | a triple is read from one quartet, with padding only if that quartet ends the segment |
| Base64Segment.Base64PayloadSegmentReader.CopyHead | source/file_formats/vtk/src/FileHandle.cpp:444-456 | the head copies up to the next triple boundary or the end of the range, and only there |
| Base64Segment.Base64PayloadSegmentReader.CopyTail | source/file_formats/vtk/src/FileHandle.cpp:466-476 | the tail copies the rest of the last triple, and only there |
| Base64Segment.Base64PayloadSegmentReader.DecodeQuartets | source/file_formats/vtk/src/FileHandle.cpp:486-492 | quartets in a row land in the target at three bytes each, or fail iff one is malformed |
| Base64Segment.Base64PayloadSegmentReader.ReadAlignedBatchInto | source/file_formats/vtk/src/FileHandle.cpp:482-493 | a batch writes exactly its own slice of the middle |
| Base64Segment.Base64PayloadSegmentReader.ReadAlignedMiddleInto | source/file_formats/vtk/src/FileHandle.cpp:495-535 | the batches, in any order, fill the middle, or fail iff one of its quartets is malformed |
| Base64Segment.Base64PayloadSegmentReader.ReadInto | source/file_formats/vtk/src/FileHandle.cpp:423-479 | any range within a segment that decodes to v is read as that slice of v; the read fails exactly when the range is out of bounds or touches a malformed quartet |
| FileRanges.TaskCountForBytes | source/file_formats/vtk/src/FileHandle.cpp:102-110 | at least one task and never more than bytes |
| FileRanges.ReadTask | source/file_formats/vtk/src/FileHandle.cpp:134-146 | a task reads the bytes that are its own in the split and leaves all others |
| FileRanges.ReadFileRangeIntoParallel | source/file_formats/vtk/src/FileHandle.cpp:112-159 | whatever the number and order of tasks, the outcome and the bytes are those of one sequential read |
| Schedules.SplitOwner | source/file_formats/vtk/src/FileHandle.cpp:138-139 | the split floor(n*t/tasks) puts every item into exactly one task |
| Schedules.StridedOwner | source/file_formats/openfoam/src/OmniSciOpenFoamFileFormat.cpp:438-440 | a strided task visits the chunks of its remainder, each once, and no others |
| Schedules.ChunksCover | source/file_formats/ensight/src/OmniSciEnSightFileFormat.cpp:1160-1162 | the rounded-up chunk count covers every element and has no empty chunk |
| ChunkedReaders.ReadContiguousBinary | source/file_formats/ensight/src/OmniSciEnSightFileFormat.cpp:1144-1151 | a read succeeds iff all its elements lie in the file, and then delivers exactly them |
| ChunkedReaders.ByteSwapInPlace | source/file_formats/openfoam/src/OmniSciOpenFoamFileFormat.cpp:398-405 | the bytes of each element in the range are reversed, and no other element changes |
| ChunkedReaders.ReadContiguousSwapping | source/file_formats/openfoam/src/OmniSciOpenFoamFileFormat.cpp:408-419 | a read of the other byte order delivers the reversed elements |
| ChunkedReaders.ReadChunk | source/file_formats/ensight/src/OmniSciEnSightFileFormat.cpp:1167-1174 | a chunk loads exactly the elements whose number divided by the chunk size is its own, as the interleaving theorems need it |
| ChunkedReaders.ReadChunks | source/file_formats/ensight/src/OmniSciEnSightFileFormat.cpp:1165-1176 | a task of the contiguous split loads the elements of its chunks and no others |
| ChunkedReaders.ReadChunkedArrayInto | source/file_formats/ensight/src/OmniSciEnSightFileFormat.cpp:1153-1214 | for any element size, count and task order, the read succeeds iff the array lies in the file, and then every element is loaded |
| ChunkedReaders.ReadStrided | source/file_formats/openfoam/src/OmniSciOpenFoamFileFormat.cpp:438-454 | a strided task loads the elements of its chunks and no others |
| ChunkedReaders.ReadChunkedBinaryArray | source/file_formats/openfoam/src/OmniSciOpenFoamFileFormat.cpp:421-460 | the strided reader returns the whole array, byte-swapped if asked, or throws iff the file is too short |
| ChunkedReaders.ReadPlanarChunk | source/file_formats/ensight/src/OmniSciEnSightFileFormat.cpp:1255-1276 | three reads and an interleaving give the tuples of one chunk, and leave every other tuple alone |
| ChunkedReaders.ReadPlanarVec3ArrayInto | source/file_formats/ensight/src/OmniSciEnSightFileFormat.cpp:1240-1315 | value i is made of component i of each of the three arrays, whatever the order of tasks |
| ParallelReads.ReadsKeepsInv | source/file_formats/ensight/src/OmniSciEnSightFileFormat.cpp:1165-1206 | no chunk read of any task, successful or not, loses an element: while nothing has failed, each is in place or its chunk is still to be read |
| ParallelReads.AnyInterleaving | source/file_formats/ensight/src/OmniSciEnSightFileFormat.cpp:1188-1206 | however the chunk reads of tasks interleave, with tasks failing and others giving up, the loop has failed in the end iff the array is incomplete, and otherwise every element is in place |
| ChunkedReaders.SplitInterleaving | source/file_formats/ensight/src/OmniSciEnSightFileFormat.cpp:1188-1214 | the contiguous tasks of the EnSight reader leave what a sequential read leaves, whatever the interleaving of their chunk reads |
| ChunkedReaders.StridedInterleaving | source/file_formats/openfoam/src/OmniSciOpenFoamFileFormat.cpp:433-460 | the same for the strided tasks of the OpenFOAM reader |
| ChunkedReaders.PlanarInterleaving | source/file_formats/ensight/src/OmniSciEnSightFileFormat.cpp:1240-1315 | the same for the tasks of the planar reader, value by value of three components |
| DatasetSpecCaches.EvictIfNeeded | source/file_formats/vtk/src/DatasetSpecCache.cpp:83-96 | at most sixteen entries remain, the protected one among them, whatever order the table lists victims in; a small table is untouched |
| DatasetSpecCaches.DatasetSpecCache.TakeTurn | source/file_formats/vtk/src/DatasetSpecCache.cpp:110-146 | under the lock a turn is a hit, a wait or a miss that registers a flight; a stale entry is dropped |
| DatasetSpecCaches.DatasetSpecCache.AfterWait | source/file_formats/vtk/src/DatasetSpecCache.cpp:129-138 | a woken thread takes the flight's result only if the signatures match, and retries otherwise |
| DatasetSpecCaches.DatasetSpecCache.Publish | source/file_formats/vtk/src/DatasetSpecCache.cpp:152-160 | publishing stores the entry, evicts others and ends the flight |
| DatasetSpecCaches.DatasetSpecCache.PublishFailure | source/file_formats/vtk/src/DatasetSpecCache.cpp:166-171 | a failure ends the flight and leaves the entries alone |
| DatasetSpecCaches.DatasetSpecCache.Clear | source/file_formats/vtk/src/DatasetSpecCache.cpp:179-185 | clearing forgets the entries but no flight |
| DatasetSpecCaches.InvRun | source/file_formats/vtk/src/DatasetSpecCache.cpp:100-185 | the invariant behind the following theorems holds in every state of every run of any number of threads |
| DatasetSpecCaches.OneParsePerPath | source/file_formats/vtk/src/DatasetSpecCache.cpp:124-145 | no two threads ever parse the same file at the same time |
| DatasetSpecCaches.WaiterIsServed | source/file_formats/vtk/src/DatasetSpecCache.cpp:125-129 | whoever waits, waits for a flight of its own path that is done or has exactly one live parser |
| DatasetSpecCaches.NoLostWakeup | source/file_formats/vtk/src/DatasetSpecCache.cpp:125-174 | whoever sleeps in a condition variable waits for a flight that one live thread is parsing, or that a thread has ended and is about to notify: no sleeper is forgotten |
| DatasetSpecCaches.ResultsAreFresh | source/file_formats/vtk/src/DatasetSpecCache.cpp:107-139 | a returned spec or rethrown error is that of a parse under a signature the returning call itself computed |
| DatasetSpecCaches.CacheIsBounded | source/file_formats/vtk/src/DatasetSpecCache.cpp:28-28 | at every unlock there are at most sixteen entries |
| DatasetSpecCaches.PublishedIsKept | source/file_formats/vtk/src/DatasetSpecCache.cpp:152-160 | a spec just published is a hit for its signature, and the flight's waiters get it |
| DatasetSpecCaches.WaitersAgree | source/file_formats/vtk/src/DatasetSpecCache.cpp:129-138 | how a flight ended never changes, so its waiters all get the same |
| DatasetSpecCaches.SomeoneCanStep | source/file_formats/vtk/src/DatasetSpecCache.cpp:100-177 | while any call is unfinished, some unfinished call can make a step other than a spurious wake-up or falling asleep again |
| EnsightIndexCaches.IndexCaches.FindOrInsert | source/file_formats/ensight/src/OmniSciEnSightFileFormat.cpp:950-963 | under the unique lock a key is found, or a new unfinished future is inserted whose build the caller owns |
| EnsightIndexCaches.IndexCaches.FindShared | source/file_formats/ensight/src/OmniSciEnSightFileFormat.cpp:935-943 | the lookup under the shared lock finds the cached future or reports a miss, and changes nothing |
| EnsightIndexCaches.IndexCaches.SetOutcome | source/file_formats/ensight/src/OmniSciEnSightFileFormat.cpp:971-976 | a promise kept changes that future alone |
| EnsightIndexCaches.IndexCaches.Erase | source/file_formats/ensight/src/OmniSciEnSightFileFormat.cpp:979-980 | erasing drops the key and leaves every future as it is |
| EnsightIndexCaches.InvStep | source/file_formats/ensight/src/OmniSciEnSightFileFormat.cpp:930-983 | no step of any thread breaks the invariant: cached unfinished or failed futures have exactly one owner, others none |
| EnsightIndexTheorems.AlwaysInv | source/file_formats/ensight/src/OmniSciEnSightFileFormat.cpp:930-983 | the invariant behind the following theorems holds in every state of every run, nested calls included |
| EnsightIndexTheorems.OneBuilderPerKey | source/file_formats/ensight/src/OmniSciEnSightFileFormat.cpp:945-966 | of the calls that build a key, or are about to drop it, there is one |
| EnsightIndexTheorems.SameIndexForAll | source/file_formats/ensight/src/OmniSciEnSightFileFormat.cpp:930-973 | all calls of a key that ever succeed get the same index, and every variable index is built from the one index of its geometry file |
| EnsightIndexTheorems.DroppedByItsBuilder | source/file_formats/ensight/src/OmniSciEnSightFileFormat.cpp:974-982 | a cached future goes away only if its build failed, by the step of the call that built it, and the next lookup builds anew |
| EnsightIndexTheorems.FailedIsBeingDropped | source/file_formats/ensight/src/OmniSciEnSightFileFormat.cpp:974-982 | a failed build stays cached only while its own call is about to drop it |
| EnsightIndexTheorems.SomeoneCanStep | source/file_formats/ensight/src/OmniSciEnSightFileFormat.cpp:1082-1142 | while any call is unfinished, some unfinished call can make a step: variable builds wait only for geometry builds, which wait for nothing |
| EnsightText.FieldReads | source/file_formats/ensight/src/OmniSciEnSightFileFormat.cpp:364-375 | an eighty-byte field reads as the text written into it, whether filled up with NULs or spaces |
| EnsightText.NameParses | source/file_formats/ensight/src/OmniSciEnSightFileFormat.cpp:412-427 | each of the seventeen element types is recognised by its name |
| EnsightGeometry.GeometryInput.ReadInt32 | source/file_formats/ensight/src/OmniSciEnSightFileFormat.cpp:841-841 | a short read overwrites only the low bytes of the variable and leaves the stream failed |
| EnsightGeometry.GeometryInput.ReadFixedString | source/file_formats/ensight/src/OmniSciEnSightFileFormat.cpp:364-375 | a field reads up to a NUL, without blanks around, and is empty once nothing is left |
| EnsightGeometry.GeometryInput.SeekBy | source/file_formats/ensight/src/OmniSciEnSightFileFormat.cpp:876-884 | a seek moves by the count, backwards too, fails the stream before the start of the file and does nothing on a failed one |
| EnsightGeometry.GeometryInput.ReadInt32Sum | source/file_formats/ensight/src/OmniSciEnSightFileFormat.cpp:790-812 | buffered summing gives the sum of the counts, cast to 32 bits, and throws for negative counts, short files and sums above 32 bits |
| EnsightGeometry.GeometryInput.ReadCounts | source/file_formats/ensight/src/OmniSciEnSightFileFormat.cpp:845-859 | nsided and nfaced pieces sum one or two count arrays, whose offsets are recorded; fixed pieces multiply, negative counts included |
| EnsightGeometry.GeometryInput.ReadGeometryPiece | source/file_formats/ensight/src/OmniSciEnSightFileFormat.cpp:832-865 | a piece records the offsets of its count and connectivity arrays and leaves the stream where the counts lead, forward or back |
| EnsightGeometry.GeometryInput.ReadPartHead | source/file_formats/ensight/src/OmniSciEnSightFileFormat.cpp:867-884 | a part starts with its identifier, description, coordinate header and count, and three coordinate arrays in a row, also for a negative count |
| EnsightGeometry.GeometryInput.ReadGeometryPart | source/file_formats/ensight/src/OmniSciEnSightFileFormat.cpp:867-894 | a part holds its coordinate offsets, its pieces in order, and the header that ends it, if it is among the headers that may be read |
| EnsightGeometry.ReadFirstGeometryPartHeader | source/file_formats/ensight/src/OmniSciEnSightFileFormat.cpp:814-830 | the first header behind float extents, double extents or none |
| EnsightGeometry.ReadParts | source/file_formats/ensight/src/OmniSciEnSightFileFormat.cpp:917-928 | the loop over the parts collects them in order, with the place of each identifier, and throws for any other header |
| EnsightGeometry.BuildGeoIndex | source/file_formats/ensight/src/OmniSciEnSightFileFormat.cpp:896-928 | indexing with any limit on the headers read yields what the recursive reading of the file yields, for any bytes |
| EnsightGeometry.ById | source/file_formats/ensight/src/OmniSciEnSightFileFormat.cpp:923-924 | a part identifier leads to the last part that has it |
| EnsightWalk.UnfinishedIsWalk | source/file_formats/ensight/src/OmniSciEnSightFileFormat.cpp:867-928 | indexing goes on beyond n headers iff walking from header to header n times finds another one |
| EnsightWalk.OutcomeIsFinal | source/file_formats/ensight/src/OmniSciEnSightFileFormat.cpp:896-928 | once indexing ends, its outcome does not depend on the limit |
| EnsightWalk.NeverEndsExactly | source/file_formats/ensight/src/OmniSciEnSightFileFormat.cpp:888-928 | indexing never ends iff some header is read twice, which shows by the time as many headers have been read as the file has bytes, and one more |
| EnsightWalk.PieceMoves | source/file_formats/ensight/src/OmniSciEnSightFileFormat.cpp:832-865 | a piece moves the stream by 4 + 4n for identifiers + its count arrays + 4 times its total, or fails it if that leads before the file |
| EnsightWalk.HeaderMoves | source/file_formats/ensight/src/OmniSciEnSightFileFormat.cpp:867-894 | from a header to the next the stream moves forward, or fails, iff the span of the counts behind it is positive, or leads before the file, or the count is cut off |
| EnsightWalk.EndsGoingForward | source/file_formats/ensight/src/OmniSciEnSightFileFormat.cpp:888-928 | if the counts behind every header read span a positive number of bytes, indexing ends |
| EnsightWalk.EndsForNaturalCounts | source/file_formats/ensight/src/OmniSciEnSightFileFormat.cpp:888-928 | in particular if no count behind a header is negative |
| EnsightWalk.StandsStill | source/file_formats/ensight/src/OmniSciEnSightFileFormat.cpp:888-892 | a header whose counts span zero bytes is read for ever |
| EnsightWalk.BackwardsReturns | source/file_formats/ensight/src/OmniSciEnSightFileFormat.cpp:860-863 | reading a piece of -21 points leads back to the place where its own header began |
| EnsightWalk.NeverEnds | source/file_formats/ensight/src/OmniSciEnSightFileFormat.cpp:896-928 | indexing any written geometry of one part without pieces or element identifiers never ends if such a piece follows it |
| EnsightWalk.EndlessFile | source/file_formats/ensight/src/OmniSciEnSightFileFormat.cpp:896-928 | a concrete geometry whose indexing never ends, for any limit on the headers read |
| EnsightRoundTrip.PieceOf | source/file_formats/ensight/src/OmniSciEnSightFileFormat.cpp:832-865 | the index entry of a fixed, nsided or nfaced piece locates exactly the arrays that were written, with or without identifiers |
| EnsightRoundTrip.PartOf | source/file_formats/ensight/src/OmniSciEnSightFileFormat.cpp:867-894 | the same for a part, and reading stops at the next part or the end of the file |
| EnsightRoundTrip.RoundTrip | source/file_formats/ensight/src/OmniSciEnSightFileFormat.cpp:790-928 | for any parts and pieces laid out as C Binary, indexing locates every coordinate, count and connectivity array written, finds parts by identifier, and ends within the headers written |
| Words.Int32Bytes | source/file_formats/eclipse/src/EclipseBinaryFile.cpp:25-61 | every 32-bit number written in either byte order reads back as itself |
| Words.ByteOrders | source/file_formats/eclipse/src/EclipseBinaryFile.cpp:25-36 | reading big-endian is reading the reversed bytes little-endian |
| EclipseBinary.TrimRight | source/file_formats/eclipse/src/EclipseBinaryFile.cpp:183-192 | exactly the trailing blanks and NULs are removed |
| EclipseBinary.InputStream.ReadRecordLength | source/file_formats/eclipse/src/EclipseBinaryFile.cpp:87-97 | a marker is four bytes, or the end of the file, or cut off |
| EclipseBinary.InputStream.SeekForward | source/file_formats/eclipse/src/EclipseBinaryFile.cpp:107-114 | a seek past the end of the file succeeds |
| EclipseBinary.InputStream.ReadExact | source/file_formats/eclipse/src/EclipseBinaryFile.cpp:79-85 | a read yields all its bytes or throws |
| EclipseBinary.ReadChunk | source/file_formats/eclipse/src/EclipseBinaryFile.cpp:256-273 | a chunk is accepted iff its length is not negative, fits what is still expected, and stands on both sides |
| EclipseBinary.ReadEclipseRecordChunks | source/file_formats/eclipse/src/EclipseBinaryFile.cpp:250-275 | the loop collects the chunks that the expected size calls for, and ends for any bytes |
| EclipseBinary.ReadIndexedEclipseRecord | source/file_formats/eclipse/src/EclipseBinaryFile.cpp:277-303 | a record is read from its header, with the stream left behind its payload, or every malformed header throws |
| EclipseBinary.CaeIndexEclipseBinaryFile | source/file_formats/eclipse/src/EclipseBinaryFile.cpp:305-340 | indexing ends for any bytes and yields the records that stand in the file, through the stop keyword |
| EclipseBinary.AnyIndexIsSafe | source/file_formats/eclipse/src/EclipseBinaryFile.cpp:250-340 | for any bytes, the chunks of an index lie inside the file, in file order and apart, and add up to count times item size in each record |
| EclipseBinary.StopYieldsPrefix | source/file_formats/eclipse/src/EclipseBinaryFile.cpp:324-335 | for any bytes, a stop keyword yields the records through its first occurrence among those that can be read, malformed bytes behind it or not |
| EclipseBinary.BytesBehindStop | source/file_formats/eclipse/src/EclipseBinaryFile.cpp:324-335 | files with the same bytes through the record with the stop keyword have the same index |
| EclipseBinary.IntValues | source/file_formats/eclipse/src/EclipseBinaryFile.cpp:371-390 | an integer record that loads has exactly as many values as its header says |
| EclipseBinary.CaeLoadEclipseIntValues | source/file_formats/eclipse/src/EclipseBinaryFile.cpp:371-390 | the vector loader returns the integers of the chunks in a row, or throws for a partial chunk, a short file or a wrong count |
| EclipseBinary.FillChunk | source/file_formats/eclipse/src/EclipseBinaryFile.cpp:401-417 | a chunk is appended to what the array holds so far, or rejected when it does not fit |
| EclipseBinary.CaeLoadEclipseIntArray | source/file_formats/eclipse/src/EclipseBinaryFile.cpp:392-422 | the array loader agrees with the vector loader on every record: the same values or both throw |
| EclipseRoundTrip.IndexOfWritten | source/file_formats/eclipse/src/EclipseBinaryFile.cpp:208-223 | indexing a written file detects its byte order and gives back every keyword, type, count and chunk, however payloads were split |
| EclipseRoundTrip.LoadOfWritten | source/file_formats/eclipse/src/EclipseBinaryFile.cpp:371-422 | loading the entry of an integer item gives the integers written |
| EclipseRoundTrip.RoundTrip | source/file_formats/eclipse/src/EclipseBinaryFile.cpp:250-422 | writing items in either byte order, indexing and loading gives back keywords and values |
| GrdeclTokens.SkipBlanks | source/file_formats/eclipse/src/OmniSciGrdeclFileFormat.cpp:139-153 | skipping stops at the end or at a character that is neither blank nor the start of a comment |
| GrdeclTokens.DeckTokenizer.SkipToToken | source/file_formats/eclipse/src/OmniSciGrdeclFileFormat.cpp:139-154 | blanks and comments are passed over |
| GrdeclTokens.DeckTokenizer.ReadQuoted | source/file_formats/eclipse/src/OmniSciGrdeclFileFormat.cpp:169-180 | a quoted word runs to the same quote or the end of the file |
| GrdeclTokens.DeckTokenizer.ReadWord | source/file_formats/eclipse/src/OmniSciGrdeclFileFormat.cpp:182-199 | a word runs to a blank, a comment or a slash, and takes the blank with it |
| GrdeclTokens.DeckTokenizer.Next | source/file_formats/eclipse/src/OmniSciGrdeclFileFormat.cpp:125-200 | each call yields the head of the tokens still to come, and only moves forward |
| GrdeclArrays.ExpandIntToken | source/file_formats/eclipse/src/OmniSciGrdeclFileFormat.cpp:278-302 | a token appends one value or a run, and throws for anything else |
| GrdeclArrays.SpellingExpands | source/file_formats/eclipse/src/OmniSciGrdeclFileFormat.cpp:278-302 | v, n*v and n* expand to their values, with any sign and leading zeros in range |
| GrdeclArrays.OnlySpellings | source/file_formats/eclipse/src/OmniSciGrdeclFileFormat.cpp:207-302 | a token that expands is one of those spellings: nothing else is accepted |
| GrdeclArrays.ReadValues | source/file_formats/eclipse/src/OmniSciGrdeclFileFormat.cpp:746-754 | values are collected up to a slash or the end of the file, and a token that does not expand throws |
| GrdeclArrays.LoadIntKeywordArray | source/file_formats/eclipse/src/OmniSciGrdeclFileFormat.cpp:733-760 | the loader yields the values behind the first token that is the keyword, up to a slash, and checks an expected count |
| GrdeclLayout.TokensOfItems | source/file_formats/eclipse/src/OmniSciGrdeclFileFormat.cpp:125-200 | words and slashes laid out with any blanks and comments between them are read back as those tokens |
| GrdeclLayout.RoundTrip | source/file_formats/eclipse/src/OmniSciGrdeclFileFormat.cpp:733-760 | loading gives back the vector for every spelling, every layout, anything after the slash and any case of the keyword |
| GrdeclDecks.ReadRecordTokens | source/file_formats/eclipse/src/OmniSciGrdeclFileFormat.cpp:304-315 | the tokens up to a slash, and the tokenizer left behind it |
| GrdeclDecks.SkipSingleRecord | source/file_formats/eclipse/src/OmniSciGrdeclFileFormat.cpp:317-325 | skipping leaves the tokenizer where reading the record would |
| GrdeclDecks.SkipSlashTerminatedBlock | source/file_formats/eclipse/src/OmniSciGrdeclFileFormat.cpp:327-342 | a block ends at the first empty record |
| GrdeclDecks.DeckParser.ReadKeyword | source/file_formats/eclipse/src/OmniSciGrdeclFileFormat.cpp:541-631 | a keyword changes the grid as its record says, remembers an array or is skipped, and the tokenizer stands behind it |
| GrdeclDecks.DeckParser.ReadInclude | source/file_formats/eclipse/src/OmniSciGrdeclFileFormat.cpp:557-569 | an include parses the file its record names, one level deeper, or nothing for an empty record |
| GrdeclDecks.IncludedAdvances | source/file_formats/eclipse/src/OmniSciGrdeclFileFormat.cpp:557-569 | an include that returns has visited the file it named, and only what that reaches |
| GrdeclDecks.FileAdvances | source/file_formats/eclipse/src/OmniSciGrdeclFileFormat.cpp:506-522 | parsing a file visits it; a file visited before is left alone |
| GrdeclDecks.DeckParser.ParseDeckFile | source/file_formats/eclipse/src/OmniSciGrdeclFileFormat.cpp:506-632 | parsing ends over any include graph and changes the state as the recursive reading of tokens does |
| GrdeclDecks.TokensAdvance | source/file_formats/eclipse/src/OmniSciGrdeclFileFormat.cpp:525-631 | from any token of a file on, parsing reads no file twice, visits what it includes, and only what is reached so |
| GrdeclDecks.DeckIsComplete | source/file_formats/eclipse/src/OmniSciGrdeclFileFormat.cpp:506-632 | a deck that is read has read each visited file once and visited exactly the files its executed includes reach; each remembered array is in its keyword's place, as integers or not, and belongs to a visited file that has the keyword |
| GrdeclDecks.RememberedIsFound | source/file_formats/eclipse/src/OmniSciGrdeclFileFormat.cpp:739-759 | loading a remembered array starts behind the first token of its keyword and never fails because there is none |
| GrdeclDecks.ParseDeck | source/file_formats/eclipse/src/OmniSciGrdeclFileFormat.cpp:634-651 | a deck without dimensions, COORD or ZCORN throws |
| Wildcard.WildcardMatch | source/file_formats/flash/src/OmniSciFlashFileFormat.cpp:577-606 | the loop ends and returns what the greedy reading of the pattern says |
| Wildcard.GreedySound | source/file_formats/flash/src/OmniSciFlashFileFormat.cpp:577-606 | a match reported is a match, for every pattern and name |
| Wildcard.GreedyComplete | source/file_formats/flash/src/OmniSciFlashFileFormat.cpp:577-606 | every match of a name without stars is reported |
| Wildcard.CorrectExactlyWithoutStars | source/file_formats/flash/src/OmniSciFlashFileFormat.cpp:585-590 | the matcher is right for all patterns iff the name has no star |
| Wildcard.PatternMissed | source/file_formats/flash/src/OmniSciFlashFileFormat.cpp:585-590 | for every name with a star there is a pattern that it matches and the matcher misses |
| Wildcard.CorrectExactlyForPlainPatterns | source/file_formats/flash/src/OmniSciFlashFileFormat.cpp:577-606 | a pattern is matched rightly against all names iff it has no star |
| Wildcard.NameMissed | source/file_formats/flash/src/OmniSciFlashFileFormat.cpp:585-590 | for every pattern with a star there is a name that it matches and the matcher misses |
| NaturalOrder.NaturalLess | source/file_formats/flash/src/OmniSciFlashFileFormat.cpp:608-645 | the comparator is the lexicographic order of digit runs and single characters, runs by value and then by length |
| NaturalOrder.NaturalOrderIsStrictTotal | source/file_formats/flash/src/OmniSciFlashFileFormat.cpp:608-645 | the comparator is a strict total order on names |
| NaturalOrder.ManifestOrderUnique | source/file_formats/flash/src/OmniSciFlashFileFormat.cpp:785-785 | sorting a directory's names has one possible result |
| FlashSnapshots.ScalarSchemaMatches | source/file_formats/flash/src/OmniSciFlashFileFormat.cpp:1143-1155 | walking two maps in step decides whether they have the same names with values of the same types |
| FlashSnapshots.ValidateSnapshotCompatibility | source/file_formats/flash/src/OmniSciFlashFileFormat.cpp:1157-1180 | the check passes iff fields, dimension, version, schemas and arrays agree |
| FlashSnapshots.SelfCompatible | source/file_formats/flash/src/OmniSciFlashFileFormat.cpp:864-867 | a snapshot is compatible with itself iff no array is without dimensions |
| FlashSnapshots.CompatibleSymmetric | source/file_formats/flash/src/OmniSciFlashFileFormat.cpp:1157-1180 | compatibility is symmetric |
| FlashSnapshots.CompatibleTransitive | source/file_formats/flash/src/OmniSciFlashFileFormat.cpp:1157-1180 | compatibility is transitive |
| FlashSeries.ValidateSnapshotArrayCounts | source/file_formats/flash/src/OmniSciFlashFileFormat.cpp:1034-1044 | what passes has the block count as leading dimension of every array, and no contrary declaration |
| FlashSeries.ScanSnapshots | source/file_formats/flash/src/OmniSciFlashFileFormat.cpp:1198-1208 | the scans succeed together iff each file's does, in the order of the manifest |
| FlashSeries.ResolveTimes | source/file_formats/flash/src/OmniSciFlashFileFormat.cpp:1217-1246 | times resolve iff every snapshot has one and no two are equal |
| FlashSeries.ScanSeries | source/file_formats/flash/src/OmniSciFlashFileFormat.cpp:1189-1251 | a series is accepted iff all scans succeed, all are compatible with the first and times resolve; the result is a permutation in strictly ascending time |
| FlashSeries.SeriesCompatible | source/file_formats/flash/src/OmniSciFlashFileFormat.cpp:1209-1251 | after reordering every snapshot is compatible with every other, so with the new front |
| FlashSeries.AscendingOnce | source/file_formats/flash/src/OmniSciFlashFileFormat.cpp:1248-1249 | with distinct times there is one sorted arrangement, so any sort gives the same series |
| FlashSeries.ManifestOrderIrrelevant | source/file_formats/flash/src/OmniSciFlashFileFormat.cpp:1209-1251 | unless times are places in the manifest, the order of its files decides neither acceptance nor the result |
| FlashSeries.AuthorScalarMap | source/file_formats/flash/src/OmniSciFlashFileFormat.cpp:1301-1321 | authoring fails only for names of the front snapshot, never because a later one lacks a name; a property keeps one type |
| FlashSeries.AuthorScalar | source/file_formats/flash/src/OmniSciFlashFileFormat.cpp:1316-1319 | a property gets the value of every snapshot at its time, all of one type |
| FlashSeries.RegisterArrays | source/file_formats/flash/src/OmniSciFlashFileFormat.cpp:1378-1403 | every array of the front gets a strictly sorted sample per snapshot, each of the same name and kind |
| FlashSeries.TrailingShape | source/file_formats/flash/src/OmniSciFlashFileFormat.cpp:1258-1268 | the trailing dimensions are returned iff none exceeds the range of int |
| FlashSeries.AuthorShapes | source/file_formats/flash/src/OmniSciFlashFileFormat.cpp:1340-1358 | the shapes of gid, coordinates, bounding box, block size and the first field are authored iff they all fit |
| FlashSeries.AuthoredAlike | source/file_formats/flash/src/OmniSciFlashFileFormat.cpp:1157-1180 | compatible snapshots have the same metadata names, and shapes that fit or do not fit alike |
| FlashSeries.FrontLikeFirst | source/file_formats/flash/src/OmniSciFlashFileFormat.cpp:1209-1251 | the front of the ordered series is compatible with the first file of the manifest |
| FlashSeries.ReadFlash | source/file_formats/flash/src/OmniSciFlashFileFormat.cpp:1325-1406 | a series is read iff all its files scan, it is accepted, and the first file of the manifest has shapes and metadata names that can be authored; it is then ascending, mutually compatible and fully registered, with every metadata value at its time |
| TimeSamples.ChunksShareOnePath | source/file_formats/shared/CaeFileFormatData.cpp:74-83 | all chunks of an array share the cache path of its value |
| TimeSamples.LowerBound | source/file_formats/shared/CaeFileFormatData.cpp:156-161 | the binary search splits an ascending list at the time |
| TimeSamples.FindTimeSample | source/file_formats/shared/CaeFileFormatData.cpp:156-161 | the binary search finds the first sample with the time, or none if there is none |
| TimeSamples.CaeFileFormatData.AddOverPaths | source/file_formats/shared/CaeFileFormatData.cpp:193-197 | a prim and all its ancestors are added, and each parent lists exactly its children, once each |
| TimeSamples.CaeFileFormatData.RegisterLazyTimeSamples | source/file_formats/shared/CaeFileFormatData.cpp:187-206 | the samples stand sorted under the canonical path, and no other path's do change |
| TimeSamples.CaeFileFormatData.BeginQuery | source/file_formats/shared/CaeFileFormatData.cpp:959-1003 | the search among the samples and the lookup under the shared lock decide as the step relation of the threads does |
| TimeSamples.CaeFileFormatData.EndQuery | source/file_formats/shared/CaeFileFormatData.cpp:1006-1019 | the write under the unique lock, in mode all only, is the one of that step relation |
| TimeSamples.CaeFileFormatData.QueryTimeSample | source/file_formats/shared/CaeFileFormatData.cpp:959-1023 | a query answers as a linear search without cache would, in every cache mode, and only mode all fills the cache |
| TimeSamples.CacheIsInvisible | source/file_formats/shared/CaeFileFormatData.cpp:959-1023 | the same for every interleaving of queries by any number of threads |
| TimeSamples.OneBracket | source/file_formats/shared/CaeFileFormatData.cpp:889-957 | the declarative bracket of a time is unique |
| TimeSamples.ListTimeSamplesForPath | source/file_formats/shared/CaeFileFormatData.cpp:877-887 | the times the base class stores for a path and those of its samples, each once, in order |
| TimeSamples.GetBracketingTimeSamples | source/file_formats/shared/CaeFileFormatData.cpp:889-906 | the search in the set of times finds that bracket |
| TimeSamples.BracketBySearch | source/file_formats/shared/CaeFileFormatData.cpp:913-951 | the search in a path's own list finds it too, duplicates allowed |
| TimeSamples.BracketsAgree | source/file_formats/shared/CaeFileFormatData.cpp:889-957 | both searches return the same for every sorted list |
| ArrayNames.SearchEnds | source/file_formats/vtk/src/ParserUtils.cpp:228-237 | passing over a taken suffix leaves fewer taken names ahead: the search ends |
| ArrayNames.FirstFree | source/file_formats/vtk/src/ParserUtils.cpp:228-237 | the search yields the first suffix from its start that is free |
| ArrayNames.ArrayNameRegistry.MakeUniqueName | source/file_formats/vtk/src/ParserUtils.cpp:216-238 | a name never given before is returned and recorded |
| ArrayNames.AllDistinct | source/file_formats/vtk/src/ParserUtils.cpp:216-238 | over any sequence of requests no name is given twice |
| ArrayNames.UnchangedExactly | source/file_formats/vtk/src/ParserUtils.cpp:222-225 | a base is given unchanged iff it is requested for the first time and not yet in use as a name |
| ArrayNames.OtherwiseSuffixed | source/file_formats/vtk/src/ParserUtils.cpp:228-237 | any other name is the base with the first free suffix, from zero on if the base is new |

## Left out

- USD, Sdf, Pcp, HDF5, CGNS and resolver calls: prim authoring, schemas and temporary files. What HDF5 reports of a snapshot and what the resolver finds are parameters.
- Other formats and loaders: EDEM, CGNS, numpy, nvdb, the INIT and UNRST readers, VTK XML parsing and decompression, OpenFOAM text tokens, Eclipse REAL, DOUB and CHAR loaders, GRDECL double arrays.
- Scanning EnSight variable files for offsets: only the cache around it is modelled.
- Floating-point arithmetic: array elements are bit patterns, FLASH times and time codes are real numbers, so the test for non-finite times has no counterpart.
- Byte-order normalisation at the end of a VTK payload read: `ReadInto` is modelled for uninterpreted bytes.
- Machine limits that real files do not reach: overflow of 64-bit sizes and offsets, and memory exhaustion. Checks against them, and checks that other checks make unreachable, are not repeated.
- Messages of exceptions and debug output.
- EnsightGeometry.GeometryInput.ReadCounts: does not say what follows when the product of an element count and the nodes of a fixed type overflows `int`, because C++ leaves it undefined; the outcome is then `Undefined`, also for the piece, the part and the index.
- EnsightGeometry.BuildGeoIndex: takes a limit on the headers read, because indexing need not end; for every file that is indexed the outcome is the same for all limits that are large enough.
- The host is taken to be little-endian for EnSight, whose numbers are read in the host's byte order.
- The order in which a `std::sort` leaves samples with equal times, when they are registered unsorted: any is allowed.
- Registering samples for an attribute that has been queried: samples are registered first.
- Whether a thread that retries in the VTK cache is ever done, when the file keeps changing: the theorem is that some thread can step.
- How a file signature is computed: it is a value that may be different at every call. Specs, indices and exceptions are identities.
- The sanitizer of names, the text-to-number conversion for doubles and the contents of included decks are parameters.
- Paths relative to a resolved asset, and the difference between an asset's identifier and its local path.
