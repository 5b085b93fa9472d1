# jPSXdec indexing and frame-layout core, in Dafny

This project models the parts of jPSXdec that build the disc index and
lay out decoded frames. jPSXdec is a decoder for PlayStation 1 audio and
video.

- **XA audio tracking** (`XaStream`, `XaAudio`). Each of the 32 channels
  has one tracker, `AudioStreamIndex`. A tracker accepts the XA sectors of
  one channel as long as they are spaced by a constant stride. It turns
  into a disc item when the stream ends. A stream ends when a sector is
  rejected, when a sector of another type lies past the stride window,
  at the end of the disc, or on a request to end every stream before the
  current sector.
- **The disc index** (`DiscOrder`, `DiscTree`, `DiscIndexing`, `SectorListening`):
  - the comparator that sorts disc items by start sector, then type
    hierarchy, then extent;
  - building the parent/child tree from parent ratings;
  - rebuilding the tree from saved index ids;
  - the by-index and by-id lookup map;
  - reading a saved index file line by line: comment, blank, source-CD
    and item lines, and the warnings each can raise;
  - writing an index file;
  - the per-sector checks of the disc scan: header sector-number breaks
    and Mode 1 sectors among Mode 2 sectors.
- **FF7 frame headers** (`Ff7Frame`): reading the optional 40 bytes of
  camera data and the 8-byte header, checking the header, and writing it.
- **Audio/video sync** (`AudioSyncing`): how many audio samples a writer
  must emit to catch up with a presentation sector.
- **PsxYuv frames** (`YuvPlanes`, `BgrLayout`, `Yuv4Mpeg`, `PsxYuvImage`):
  - a luma plane and two half-resolution chroma planes, filled block by
    block;
  - pasting one frame into another;
  - conversion to bottom-up, 4-byte-padded BGR rows;
  - the yuv4mpeg2 file: header text, `FRAME` line and clamped samples.

Stateful Java classes are Dafny classes. Their loops are methods proved
against recursive specification functions of the inputs or of the old
state. The promised properties are lemmas about those functions.
Collaborators whose code is not part of this model are function-valued
parameters. These are the parent rating, `addChild`, `setIndexId`,
`matchesPrevious`, the indexers' line readers, `Math.round` and the item
serializer. `Option`/`Result` (module `Wrappers`) carry the error paths:
`NotThisTypeException`, `IllegalArgumentException`, `DeserializationFail`
and the tree-building `RuntimeException`.

## Model

| member | source | states |
|---|---|---|
| AudioSyncing.Round | jpsxdec/src/jpsxdec/discitems/savers/AudioSync.java:87 | `Math.round`: the unique integer n with n <= x + 1/2 < n + 1 |
| AudioSyncing.RoundUnique | jpsxdec/src/jpsxdec/discitems/savers/AudioSync.java:87 | any integer in that half-open bracket is the rounded value |
| AudioSyncing.RoundMonotone | jpsxdec/src/jpsxdec/discitems/savers/AudioSync.java:87 | rounding preserves order |
| AudioSyncing.RoundShift | jpsxdec/src/jpsxdec/discitems/savers/AudioSync.java:87 | rounding commutes with subtracting an integer |
| AudioSyncing.AudioSync.SamplesPerSector | jpsxdec/src/jpsxdec/discitems/savers/AudioSync.java:61-62 | samples per sector times sectors per second is samples per second |
| AudioSyncing.NewAudioSync | jpsxdec/src/jpsxdec/discitems/savers/AudioSync.java:55-77 | the constructor keeps the first presentation sector and both rates, which the getters return |
| AudioSyncing.AudioSync.CalculateAudioToCatchUp | jpsxdec/src/jpsxdec/discitems/savers/AudioSync.java:79-90 | definition of calculateAudioToCatchUp in exact arithmetic; the CatchUp lemmas state its closed form, its value at the start and its monotonicity |
| AudioSyncing.CatchUpClosedForm | jpsxdec/src/jpsxdec/discitems/savers/AudioSync.java:79-90 | the catch-up count is round((sector - first) * samplesPerSector - written) |
| AudioSyncing.CatchUpAtStart | jpsxdec/src/jpsxdec/discitems/savers/AudioSync.java:82-87 | at the first presentation sector, with nothing written, nothing is owed |
| AudioSyncing.CatchUpWrittenOneMore | jpsxdec/src/jpsxdec/discitems/savers/AudioSync.java:83-87 | each further sample written lowers the count by exactly one |
| AudioSyncing.CatchUpMonotone | jpsxdec/src/jpsxdec/discitems/savers/AudioSync.java:82-87 | with positive rates, a later presentation sector never owes fewer samples |
| Ff7Frame.ReadUInt16LE | src/jpsxdec/plugins/psx/video/decode/DemuxFrameUncompressor_FF7.java:85 | a little-endian unsigned 16-bit word lies in 0..65535 |
| Ff7Frame.ReadSInt16LE | src/jpsxdec/plugins/psx/video/decode/DemuxFrameUncompressor_FF7.java:93-95 | the signed word lies in -32768..32767 and is congruent to the unsigned one mod 2^16 |
| Ff7Frame.Int16LE | src/jpsxdec/plugins/psx/video/decode/DemuxFrameUncompressor_FF7.java:146-149 | writeInt16LE emits exactly two bytes |
| Ff7Frame.Int16LERoundTrip | src/jpsxdec/plugins/psx/video/decode/DemuxFrameUncompressor_FF7.java:146-149 | a signed 16-bit value written little-endian reads back as itself, wherever it sits in the buffer |
| Ff7Frame.HeaderOffset | src/jpsxdec/plugins/psx/video/decode/DemuxFrameUncompressor_FF7.java:84-91 | the header starts at 40 when bytes 2..3 are not 0x3800 (camera data present), else at 0 |
| Ff7Frame.CheckHeader | src/jpsxdec/plugins/psx/video/decode/DemuxFrameUncompressor_FF7.java:104-119 | definition of checkHeader; CheckHeaderAtOffset, HeaderRoundTrip and CameraRoundTrip state what it accepts |
| Ff7Frame.CheckHeaderAtOffset | src/jpsxdec/plugins/psx/video/decode/DemuxFrameUncompressor_FF7.java:104-119 | checkHeader holds iff, at the header offset, the magic is 0x3800, qscale >= 1, version == 1 and the half VLC count >= 0 |
| Ff7Frame.DemuxFrameUncompressorFf7.constructor | src/jpsxdec/plugins/psx/video/decode/DemuxFrameUncompressor_FF7.java:56-58 | a fresh uncompressor has no bit reader and no camera data |
| Ff7Frame.DemuxFrameUncompressorFf7.ReadHeader | src/jpsxdec/plugins/psx/video/decode/DemuxFrameUncompressor_FF7.java:83-102 | stores the camera flag, magic, half VLC count and qscale read at the right offset; succeeds iff checkHeader holds; the reader then starts 8 bytes past the header offset |
| Ff7Frame.DemuxFrameUncompressorFf7.BeginFrame | src/jpsxdec/plugins/psx/video/decode/DemuxFrameUncompressor_FF7.java:59-61 | constructing on frame data installs the reader exactly when the header is valid, and keeps the magic and half VLC count read at the header offset |
| Ff7Frame.DemuxFrameUncompressorFf7.GetCameraData | src/jpsxdec/plugins/psx/video/decode/DemuxFrameUncompressor_FF7.java:65-71 | returns the frame's first 40 bytes iff camera data was detected; null otherwise, also before any frame was given |
| Ff7Frame.HalfVlcCountCeil32Bounds | src/jpsxdec/plugins/psx/video/decode/DemuxFrameUncompressor_FF7.java:146 | the written count is a multiple of 32 and is within 31 above ceil(vlcCount / 2) |
| Ff7Frame.HeaderBytes | src/jpsxdec/plugins/psx/video/decode/DemuxFrameUncompressor_FF7.java:146-149 | the header is 8 bytes long |
| Ff7Frame.RecompressorFf7.CompressToDemuxFf7 | src/jpsxdec/plugins/psx/video/decode/DemuxFrameUncompressor_FF7.java:133-150 | throws (nothing changed) iff qscale < 1 or vlcCount < 0; otherwise stores the parameters and appends the camera bytes, if any, then the four header words, leaving the writer little-endian |
| Ff7Frame.HeaderWordsAt | src/jpsxdec/plugins/psx/video/decode/DemuxFrameUncompressor_FF7.java:93-95 | each of the four written words reads back at its offset after any prefix |
| Ff7Frame.HeaderRoundTrip | src/jpsxdec/plugins/psx/video/decode/DemuxFrameUncompressor_FF7.java:104-119 | a header written without camera data is found at offset 0, passes checkHeader and yields the written qscale and half count |
| Ff7Frame.CameraRoundTrip | src/jpsxdec/plugins/psx/video/decode/DemuxFrameUncompressor_FF7.java:83-101 | with camera data whose bytes 2..3 are not 00 38, the reader detects it, returns it unchanged and reads the same header at offset 40 |
| Ff7Frame.CameraMistakenForHeader | src/jpsxdec/plugins/psx/video/decode/DemuxFrameUncompressor_FF7.java:85-87 | camera data whose bytes 2..3 are 00 38 is taken for a header at offset 0 |
| XaStream.Seed | src/jpsxdec/modules/xa/JPSXModuleXAAudio.java:93-96 | definition of the tracker built on a stream's first sector; SeedTracks states its meaning |
| XaStream.Accepts | src/jpsxdec/modules/xa/JPSXModuleXAAudio.java:101-115 | definition of sectorRead's acceptance test (no EOF on the current sector, the sector matches it, the gap equals the stride when one is set); TracksAfterRead and AudioStreamIndex.SectorRead state its consequences |
| XaStream.AfterRead | src/jpsxdec/modules/xa/JPSXModuleXAAudio.java:111-121 | definition of the fields after an accepted sector; TracksAfterRead states that it extends the tracked members and fixes the stride |
| XaStream.FromCurrent | src/jpsxdec/modules/xa/JPSXModuleXAAudio.java:124-132 | definition of createMediaItemFromCurrent; FromCurrentItem states which item it builds |
| XaStream.FromPrevious | src/jpsxdec/modules/xa/JPSXModuleXAAudio.java:134-142 | definition of createMediaItemFromPrevious; FromPreviousItem states which item it builds |
| XaStream.HasEnded | src/jpsxdec/modules/xa/JPSXModuleXAAudio.java:144-147 | definition of ended; EndedWindow states the window it closes |
| XaStream.SeedTracks | src/jpsxdec/modules/xa/JPSXModuleXAAudio.java:93-96 | a new tracker starts at its first sector, with no previous sector, no stride and no samples |
| XaStream.TracksAfterRead | src/jpsxdec/modules/xa/JPSXModuleXAAudio.java:101-121 | an accepted later sector extends the tracked members; the stride becomes positive and never changes once set; the sample count is the sum over all but the current sector |
| XaStream.FromCurrentItem | src/jpsxdec/modules/xa/JPSXModuleXAAudio.java:124-132 | no item iff the stream is one silent sector; otherwise the item spans start..current with every member's samples |
| XaStream.FromPreviousItem | src/jpsxdec/modules/xa/JPSXModuleXAAudio.java:134-142 | no item iff the stream has one member; otherwise the item holds all samples before the current sector |
| XaStream.EndedWindow | src/jpsxdec/modules/xa/JPSXModuleXAAudio.java:144-147 | a stream has ended only once its stride is set, exactly for sectors past current + stride |
| XaStream.IdentifySector | src/jpsxdec/modules/xa/JPSXModuleXAAudio.java:157-164 | XA if the sector parses as XA, else XA-null if it parses as that, else nothing |
| XaAudio.SectorRead | src/jpsxdec/modules/xa/JPSXModuleXAAudio.java:175-205 | definition of indexing_sectorRead on an identified sector; AudioSectorRead, AudioSectorCases, RefusedSectorItem and SweepRemovesEnded state its effect; the module's method is proved equal to it |
| XaAudio.RunEffect | src/jpsxdec/modules/xa/JPSXModuleXAAudio.java:194-202 | a pass over the first k channels changes exactly those slots, and appends their items in channel order |
| XaAudio.EmittedAtMostOccupied | src/jpsxdec/modules/xa/JPSXModuleXAAudio.java:208-218 | a pass emits at most one item per occupied channel |
| XaAudio.SweepRemovesEnded | src/jpsxdec/modules/xa/JPSXModuleXAAudio.java:191-203 | a non-XA sector clears exactly the channels whose stream has ended at its number, and keeps the others |
| XaAudio.FlushEmptiesAll | src/jpsxdec/modules/xa/JPSXModuleXAAudio.java:208-218 | the end of the disc empties every channel, emitting at most one item each |
| XaAudio.EndBeforeReseeds | src/jpsxdec/modules/xa/JPSXModuleXAAudio.java:231-243 | ending before the current sector re-seeds each stream of several sectors from its current sector, and leaves single-sector streams alone |
| XaAudio.EndBeforeItem | src/jpsxdec/modules/xa/JPSXModuleXAAudio.java:134-141 | the item emitted for a stream of several sectors covers every member except the current one |
| XaAudio.AudioSectorRead | src/jpsxdec/modules/xa/JPSXModuleXAAudio.java:176-190 | an XA sector touches only its own channel, which then holds a stream whose current sector is this one; an item is emitted only when the old stream rejected it |
| XaAudio.AudioSectorCases | src/jpsxdec/modules/xa/JPSXModuleXAAudio.java:176-190 | an empty channel is seeded with the sector and no item added; an accepting stream is extended by it and no item added; a refusing stream is replaced by a seed of the sector and its item from the current sector, if any, appended |
| XaAudio.RefusedSectorItem | src/jpsxdec/modules/xa/JPSXModuleXAAudio.java:176-190 | when a tracked stream refuses the sector, no item is added iff the stream was one silent sector; otherwise exactly one item is appended, starting at the stream's first sector, with its stride and every member's samples |
| XaAudio.AudioStreamIndex.constructor | src/jpsxdec/modules/xa/JPSXModuleXAAudio.java:93-96 | the tracker's state is the seed stream of the first sector |
| XaAudio.AudioStreamIndex.SectorRead | src/jpsxdec/modules/xa/JPSXModuleXAAudio.java:101-122 | accepts iff the current sector has no EOF, the sector matches and the gap equals the stride (or sets it); state advances on accept and is unchanged on reject |
| XaAudio.AudioStreamIndex.CreateMediaItemFromCurrent | src/jpsxdec/modules/xa/JPSXModuleXAAudio.java:124-132 | the item and new sample count are those of the specification function FromCurrent |
| XaAudio.AudioStreamIndex.CreateMediaItemFromPrevious | src/jpsxdec/modules/xa/JPSXModuleXAAudio.java:134-142 | null iff there is no previous sector, otherwise the item of the stream so far |
| XaAudio.XaAudioModule.constructor | src/jpsxdec/modules/xa/JPSXModuleXAAudio.java:151-155 | all 32 channels empty, no items |
| XaAudio.XaAudioModule.ChannelPass | src/jpsxdec/modules/xa/JPSXModuleXAAudio.java:194-202 | one loop iteration over channel i is the specification step on that channel, and no other channel changes |
| XaAudio.XaAudioModule.EachChannel | src/jpsxdec/modules/xa/JPSXModuleXAAudio.java:194-202 | the loop over all 32 channels is the specification pass over all of them |
| XaAudio.XaAudioModule.IndexingSectorRead | src/jpsxdec/modules/xa/JPSXModuleXAAudio.java:175-205 | the module's channels and items after a sector are SectorRead of those before |
| XaAudio.XaAudioModule.IndexingEndOfDisc | src/jpsxdec/modules/xa/JPSXModuleXAAudio.java:208-218 | the state becomes the flush pass over all channels |
| XaAudio.XaAudioModule.IndexingEndAllCurrent | src/jpsxdec/modules/xa/JPSXModuleXAAudio.java:227-229 | the same as the end of the disc |
| XaAudio.XaAudioModule.IndexingEndAllBeforeCurrent | src/jpsxdec/modules/xa/JPSXModuleXAAudio.java:231-243 | the state becomes the end-before-current pass over all channels |
| DiscOrder.TypeHierarchyLevel | jpsxdec/src/jpsxdec/indexing/DiscIndex.java:229-238 | 1 for ISO files, 2 for STR video, 3 for audio, 4 for the rest, each iff its category |
| DiscOrder.IntCompare | jpsxdec/src/jpsxdec/indexing/DiscIndex.java:254 | -1, 0, 1 exactly when a <, =, > b |
| DiscOrder.Compare | jpsxdec/src/jpsxdec/indexing/DiscIndex.java:240-256 | definition of SORT_BY_SECTOR_HIERARHCY; CompareAntisymmetric, CompareLexicographic and CompareTransitiveAcrossClasses state the order it is |
| DiscOrder.CompareAntisymmetric | jpsxdec/src/jpsxdec/indexing/DiscIndex.java:240-256 | for items of different classes, swapping the arguments negates the sign |
| DiscOrder.CompareLexicographic | jpsxdec/src/jpsxdec/indexing/DiscIndex.java:244-254 | different classes compare as (start sector, hierarchy level, larger end sector first), both < and = as iffs |
| DiscOrder.CompareTransitiveAcrossClasses | jpsxdec/src/jpsxdec/indexing/DiscIndex.java:244-254 | on three items of pairwise different classes the order is transitive |
| DiscTree.BestSoFar | jpsxdec/src/jpsxdec/indexing/DiscIndex.java:199-205 | the candidate found so far lies among the parents scanned |
| DiscTree.BestParent | jpsxdec/src/jpsxdec/indexing/DiscIndex.java:196-205 | the chosen parent is an item of the list |
| DiscTree.BestSoFarMeaning | jpsxdec/src/jpsxdec/indexing/DiscIndex.java:199-205 | after scanning k parents: the best rating is the maximum (at least 0), and the chosen parent is the first to reach it |
| DiscTree.BestParentChoice | jpsxdec/src/jpsxdec/indexing/DiscIndex.java:196-211 | no parent iff no rating is positive; otherwise the first item with the highest positive rating |
| DiscTree.FindBestParent | jpsxdec/src/jpsxdec/indexing/DiscIndex.java:197-205 | the inner loop returns that best parent |
| DiscTree.Placed | jpsxdec/src/jpsxdec/indexing/DiscIndex.java:196-211 | definition of the parent-finding pass of buildTree; the Placed lemmas state its roots, adoptions and failure |
| DiscTree.PlacedFails | jpsxdec/src/jpsxdec/indexing/DiscIndex.java:206-210 | building succeeds iff every child with a best parent is accepted by it; the failure names the first refusing pair |
| DiscTree.PlacedStep | jpsxdec/src/jpsxdec/indexing/DiscIndex.java:206-210 | one more child becomes a root when it has no best parent, otherwise a child of its best parent |
| DiscTree.PlacedAscending | jpsxdec/src/jpsxdec/indexing/DiscIndex.java:196-211 | roots and adopted children are listed once each, in list order |
| DiscTree.PlacedFresh | jpsxdec/src/jpsxdec/indexing/DiscIndex.java:196-211 | an item not yet visited is neither a root nor adopted |
| DiscTree.PlacedRoots | jpsxdec/src/jpsxdec/indexing/DiscIndex.java:206-207 | an item is a root iff no item rates it above 0 |
| DiscTree.PlacedAdopted | jpsxdec/src/jpsxdec/indexing/DiscIndex.java:208-209 | an item is adopted by p iff p is its best parent |
| DiscTree.PlacedErrStays | jpsxdec/src/jpsxdec/indexing/DiscIndex.java:209-210 | the exception ends the build: later items change nothing |
| DiscTree.RootIdsStep | jpsxdec/src/jpsxdec/indexing/DiscIndex.java:213-217 | each root gets the current id, which advances exactly when setIndexId accepts it |
| DiscTree.RootIdsDistinct | jpsxdec/src/jpsxdec/indexing/DiscIndex.java:213-217 | the ids never decrease, and a root that accepts its id gets one below every later root's, so accepted ids are distinct |
| DiscTree.AssignRootIds | jpsxdec/src/jpsxdec/indexing/DiscIndex.java:213-217 | the id loop hands out RootIds from 0 |
| DiscTree.ItemsAt | jpsxdec/src/jpsxdec/indexing/DiscIndex.java:219 | the root list holds the items at the root positions, in order |
| DiscTree.BuildTree | jpsxdec/src/jpsxdec/indexing/DiscIndex.java:192-220 | fails iff the specification fails, with its error; otherwise returns its roots, adoptions and root ids |
| DiscTree.FirstParentFrom | jpsxdec/src/jpsxdec/indexing/DiscIndex.java:414-423 | a saved parent found is another item, at or after the scan position |
| DiscTree.FirstParentFromMeaning | jpsxdec/src/jpsxdec/indexing/DiscIndex.java:414-423 | none iff no other item is the saved parent; otherwise the first one that is |
| DiscTree.FindSavedParent | jpsxdec/src/jpsxdec/indexing/DiscIndex.java:414-423 | the inner loop finds that first saved parent |
| DiscTree.SavedPlace | jpsxdec/src/jpsxdec/indexing/DiscIndex.java:407-424 | a child is offered to another item of the list, never to itself |
| DiscTree.SavedPlaceMeaning | jpsxdec/src/jpsxdec/indexing/DiscIndex.java:407-424 | root ids and orphans go to the root list; the others go to their first saved parent |
| DiscTree.Rebuild | jpsxdec/src/jpsxdec/indexing/DiscIndex.java:403-428 | definition of recreateTree; the Rebuild lemmas state its roots, adoptions and rejections |
| DiscTree.RebuildStep | jpsxdec/src/jpsxdec/indexing/DiscIndex.java:407-425 | one more child is a root, an adopted child, or a rejected child (a warning), as its saved place and addChild decide |
| DiscTree.RebuildAscending | jpsxdec/src/jpsxdec/indexing/DiscIndex.java:403-428 | roots, adoptions and rejections list each child at most once, in list order |
| DiscTree.RebuildFresh | jpsxdec/src/jpsxdec/indexing/DiscIndex.java:403-428 | an item not yet visited appears nowhere |
| DiscTree.RebuildRoots | jpsxdec/src/jpsxdec/indexing/DiscIndex.java:409-411 | an item is a root iff its id is a root id or no other item is its saved parent |
| DiscTree.RebuildOffers | jpsxdec/src/jpsxdec/indexing/DiscIndex.java:417-421 | a non-root child is adopted or rejected by p iff p is its first saved parent |
| DiscTree.RebuildRejects | jpsxdec/src/jpsxdec/indexing/DiscIndex.java:418-420 | a rejection is recorded exactly when that parent's addChild refuses |
| DiscTree.RecreateTree | jpsxdec/src/jpsxdec/indexing/DiscIndex.java:403-428 | the nested loops compute Rebuild |
| DiscIndexing.LookupOfKeys | jpsxdec/src/jpsxdec/indexing/DiscIndex.java:432-435 | after filing the first n items, each one's index and id are keys of the map |
| DiscIndexing.LookupOfLast | jpsxdec/src/jpsxdec/indexing/DiscIndex.java:432-435 | every key maps to the last filed item named by it (later puts overwrite) |
| DiscIndexing.SequentialLookup | jpsxdec/src/jpsxdec/indexing/DiscIndex.java:170-175 | with items numbered 0..n-1, ByIndex(i) is a key iff 0 <= i < n and maps to item i |
| DiscIndexing.UniqueIdLookup | jpsxdec/src/jpsxdec/indexing/DiscIndex.java:432-435 | with distinct ids, each id maps to its own item |
| DiscIndexing.Classify | jpsxdec/src/jpsxdec/indexing/DiscIndex.java:310-331 | comment iff the line starts with the comment prefix; blank iff otherwise all whitespace; an item line is neither a source line nor blank |
| DiscIndexing.ScanItems | jpsxdec/src/jpsxdec/indexing/DiscIndex.java:308-332 | the saved item lines are exactly the lines classified as items |
| DiscIndexing.ScanOpens | jpsxdec/src/jpsxdec/indexing/DiscIndex.java:318-327 | with a supplied CD no source line opens a CD; without one nothing is warned, and a CD is opened iff some source line exists |
| DiscIndexing.ScanOpensLast | jpsxdec/src/jpsxdec/indexing/DiscIndex.java:319-327 | the CD opened is the one of the last source line |
| DiscIndexing.ScanWarns | jpsxdec/src/jpsxdec/indexing/DiscIndex.java:320-324 | every warning is a supplied CD's mismatch with a source line of the file |
| DiscIndexing.ScanLines | jpsxdec/src/jpsxdec/indexing/DiscIndex.java:308-332 | the read loop computes Scan |
| DiscIndexing.OfferedHandled | jpsxdec/src/jpsxdec/indexing/DiscIndex.java:352-365 | a line is handled iff some indexer makes an item from it or fails on it |
| DiscIndexing.OfferedEntries | jpsxdec/src/jpsxdec/indexing/DiscIndex.java:353-360 | the items made are exactly those the indexers return, at most one per indexer |
| DiscIndexing.OfferedWarnings | jpsxdec/src/jpsxdec/indexing/DiscIndex.java:361-364 | each failing indexer adds one parse-failure warning for the line, and only those |
| DiscIndexing.UnhandledOnlyWarns | jpsxdec/src/jpsxdec/indexing/DiscIndex.java:366-367 | a line no indexer claims gives no item and a single unhandled-line warning |
| DiscIndexing.DeserializeLine | jpsxdec/src/jpsxdec/indexing/DiscIndex.java:352-367 | the indexer loop for one line computes Deserialize |
| DiscIndexing.DeserializeAllStep | jpsxdec/src/jpsxdec/indexing/DiscIndex.java:350-368 | items and warnings of the lines are concatenated line after line |
| DiscIndexing.DeserializeLines | jpsxdec/src/jpsxdec/indexing/DiscIndex.java:350-368 | the loop over all saved lines computes DeserializeAll |
| DiscIndexing.RejectionWarnings | jpsxdec/src/jpsxdec/indexing/DiscIndex.java:418-420 | one rejected-child warning per rejection, in order |
| DiscIndexing.LoadSpec | jpsxdec/src/jpsxdec/indexing/DiscIndex.java:299-370 | definition of loading an index text; LoadFailsOnlyOn and LoadFailsExactlyWhen state when it fails, LoadIndex that the loader computes it |
| DiscIndexing.LoadFailsOnlyOn | jpsxdec/src/jpsxdec/indexing/DiscIndex.java:299-340 | a missing or wrong header line fails with the header error before anything else; whether loading fails, and how, does not depend on the indexers; the no-CD error iff the header is right, no reader is supplied and no line names a source CD |
| DiscIndexing.LoadFailsExactlyWhen | jpsxdec/src/jpsxdec/indexing/DiscIndex.java:299-340 | loading fails iff the header line is missing or wrong, or no reader is supplied and no line names a source CD |
| DiscIndexing.IndexText | jpsxdec/src/jpsxdec/indexing/DiscIndex.java:457-465 | the file is the header, the comment, the source line, then the item lines |
| DiscIndexing.SerializedItems | jpsxdec/src/jpsxdec/indexing/DiscIndex.java:462-464 | one serialized line per item, in index order |
| DiscIndexing.IndexTextReadsBack | jpsxdec/src/jpsxdec/indexing/DiscIndex.java:457-465 | a written index reads back with the same header, the written source line opening the CD, every item line saved and no warning |
| DiscIndexing.ScanHeaderLines | jpsxdec/src/jpsxdec/indexing/DiscIndex.java:308-327 | the comment line is skipped and the source line names the CD |
| DiscIndexing.ScanLineItem | jpsxdec/src/jpsxdec/indexing/DiscIndex.java:328-331 | an item line is appended to the saved lines and changes nothing else |
| DiscIndexing.ScanItemsAfter | jpsxdec/src/jpsxdec/indexing/DiscIndex.java:328-331 | item lines after any prefix are appended, in order, to what the prefix left |
| DiscIndexing.DiscIndex.AddLookupItem | jpsxdec/src/jpsxdec/indexing/DiscIndex.java:432-435 | puts the item under its index and then under its id, changing nothing else |
| DiscIndexing.DiscIndex.FillLookup | jpsxdec/src/jpsxdec/indexing/DiscIndex.java:373-375 | the loop over the loaded items leaves the lookup equal to LookupOf all of them |
| DiscIndexing.DiscIndex.NumberItems | jpsxdec/src/jpsxdec/indexing/DiscIndex.java:170-175 | numbers the items 0..n-1 in list order and files each one, nothing else changed |
| DiscIndexing.DiscIndex.GetByIndex | jpsxdec/src/jpsxdec/indexing/DiscIndex.java:475-477 | an item is returned iff the integer key is in the lookup |
| DiscIndexing.DiscIndex.GetById | jpsxdec/src/jpsxdec/indexing/DiscIndex.java:479-481 | an item is returned iff the id key is in the lookup |
| DiscIndexing.DiscIndex.ByIndexAfterNumbering | jpsxdec/src/jpsxdec/indexing/DiscIndex.java:475-477 | once numbered and filed, getByIndex(i) finds something iff 0 <= i < size(), and finds item i |
| DiscIndexing.DiscIndex.ByIdAfterFiling | jpsxdec/src/jpsxdec/indexing/DiscIndex.java:479-481 | with distinct ids, getById of an item's id is that item |
| DiscIndexing.DiscIndex.Size | jpsxdec/src/jpsxdec/indexing/DiscIndex.java:491-493 | the number of listed items |
| DiscIndexing.DiscIndex.SerializeIndex | jpsxdec/src/jpsxdec/indexing/DiscIndex.java:457-465 | the printed lines are IndexText of the items' serializations |
| DiscIndexing.IndexDisc | jpsxdec/src/jpsxdec/indexing/DiscIndex.java:165-175 | after sorting, fails iff building the tree fails; otherwise items numbered in order, roots from the tree, lookup filled |
| DiscIndexing.LoadIndex | jpsxdec/src/jpsxdec/indexing/DiscIndex.java:279-401 | the loader returns LoadSpec: the same verdict, items, roots, CD source and warnings, with the lookup filled |
| SectorListening.Step | jpsxdec/src/jpsxdec/indexing/DiscIndex.java:527-550 | definition of one sector's effect on the counters and warnings; HeaderBreakIff, Mode1WarningIff and CdAudioNotCounted state it |
| SectorListening.HeaderBreakIff | jpsxdec/src/jpsxdec/indexing/DiscIndex.java:530-543 | the break warning fires iff a number was tracked and the new readable one is not its successor; tracking restarts at the new number or at -1 |
| SectorListening.Mode1WarningIff | jpsxdec/src/jpsxdec/indexing/DiscIndex.java:527-547 | the Mode 1 warning iff a Mode 1 sector comes while Mode 1 count < Mode 2 count; the corrupted warning iff header errors |
| SectorListening.RunCounts | jpsxdec/src/jpsxdec/indexing/DiscIndex.java:545-550 | from the start, the counters are the numbers of Mode 1 and of non-audio Mode 2 sectors, and the header number is the last sector's |
| SectorListening.CdAudioNotCounted | jpsxdec/src/jpsxdec/indexing/DiscIndex.java:549-550 | CD audio sectors count in neither total |
| SectorListening.NoBreakWhenConsecutive | jpsxdec/src/jpsxdec/indexing/DiscIndex.java:533-535 | consecutive or untracked numbers raise no break warning |
| SectorListening.Listener.constructor | jpsxdec/src/jpsxdec/indexing/DiscIndex.java:511-513 | header number -1, both counts 0 |
| SectorListening.Listener.SectorRead | jpsxdec/src/jpsxdec/indexing/DiscIndex.java:524-551 | new counters and logged warnings are the specification Step of the old counters |
| YuvPlanes.Clamp | src/jpsxdec/mdec/PsxYuv.java:352-354 | identity on 0..255, 0 below, 255 above |
| YuvPlanes.PastedInside | src/jpsxdec/mdec/PsxYuv.java:167-177 | after a paste, the plane cell at (dx + c, dy + l) holds source cell l * w + c |
| YuvPlanes.PastedOutside | src/jpsxdec/mdec/PsxYuv.java:167-177 | cells outside the block keep their value |
| YuvPlanes.PastedReadBack | src/jpsxdec/mdec/PsxYuv.java:167-177 | the block read back from the pasted plane is the source |
| YuvPlanes.CopiedSoFarIsPartly | src/jpsxdec/mdec/PsxYuv.java:170-177 | the loops' cell-by-cell progress is the paste of the rows and columns done so far |
| YuvPlanes.CopiedSoFarDone | src/jpsxdec/mdec/PsxYuv.java:170-177 | after all rows the loops have pasted the whole block |
| YuvPlanes.ChromaPlaneSize | src/jpsxdec/mdec/PsxYuv.java:97-100 | for even sizes, W*H/4 chroma samples are (W/2)*(H/2) |
| YuvPlanes.HalfStride | src/jpsxdec/mdec/PsxYuv.java:218 | for an even width, iDestY * W / 2 is the row start iDestY * (W/2) |
| YuvPlanes.AsReals | src/jpsxdec/mdec/PsxYuv.java:196 | the int overloads widen each sample to its real value |
| BgrLayout.ToInt32 | src/jpsxdec/mdec/PsxYuv.java:348-350 | the (int) cast of the long from Math.round: within 32 bits, identity in range, congruent mod 2^32 |
| BgrLayout.PaddedRowWidthBounds | src/jpsxdec/mdec/PsxYuv.java:326 | (3W + 3) & ~3 is the least multiple of 4 that is at least 3W |
| BgrLayout.PixelIndices | src/jpsxdec/mdec/PsxYuv.java:339-346 | the luma and chroma positions read for (row, col) lie inside their planes |
| BgrLayout.PixelBgr | src/jpsxdec/mdec/PsxYuv.java:344-358 | a pixel is three bytes |
| BgrLayout.PixelBgrOf | src/jpsxdec/mdec/PsxYuv.java:344-358 | the bytes are B, G, R: the clamped rounded sums of luma + 128 and the chroma terms |
| BgrLayout.RowReverseBgr | src/jpsxdec/mdec/PsxYuv.java:326-329 | the array is the padded row width times the height |
| BgrLayout.BgrByteOf | src/jpsxdec/mdec/PsxYuv.java:333-361 | byte j of output row d is channel j mod 3 of pixel j/3 of frame row H-1-d when j < 3W, and padding 0 after that |
| BgrLayout.BgrChannelAt | src/jpsxdec/mdec/PsxYuv.java:333-358 | byte c of pixel x in output row d is channel c of frame row H-1-d |
| BgrLayout.BgrPixelAt | src/jpsxdec/mdec/PsxYuv.java:333-358 | the three bytes at a pixel's position are its B, G, R of the flipped row |
| BgrLayout.BgrSoFarDone | src/jpsxdec/mdec/PsxYuv.java:333-361 | once every row has been written, the buffer is the full row-reversed image |
| Yuv4Mpeg.Digits | src/jpsxdec/mdec/PsxYuv.java:268 | a nonempty run of digits without a leading zero |
| Yuv4Mpeg.Decimal | src/jpsxdec/mdec/PsxYuv.java:268-272 | Java's int-to-string: digits, with a leading '-' iff negative |
| Yuv4Mpeg.DigitsRoundTrip | src/jpsxdec/mdec/PsxYuv.java:268 | the digits parse back to the number |
| Yuv4Mpeg.DecimalRoundTrip | src/jpsxdec/mdec/PsxYuv.java:268-272 | the decimal text parses back to the number |
| Yuv4Mpeg.DecimalInjective | src/jpsxdec/mdec/PsxYuv.java:268-272 | different numbers have different texts |
| Yuv4Mpeg.DecimalThenDelimiter | src/jpsxdec/mdec/PsxYuv.java:268-272 | a number followed by a non-digit delimiter splits back uniquely |
| Yuv4Mpeg.YuvHeaderInjective | src/jpsxdec/mdec/PsxYuv.java:265-275 | the header determines width, height and frame rate |
| Yuv4Mpeg.YuvHeaderOneLine | src/jpsxdec/mdec/PsxYuv.java:265-275 | the header is one line ending in its only newline |
| Yuv4Mpeg.Ascii | src/jpsxdec/mdec/PsxYuv.java:279 | the US-ASCII encoding keeps the length |
| Yuv4Mpeg.AsciiExact | src/jpsxdec/mdec/PsxYuv.java:279 | on ASCII text each byte is the character's code |
| Yuv4Mpeg.YuvHeaderAscii | src/jpsxdec/mdec/PsxYuv.java:265-275 | the header is pure ASCII, so it is encoded exactly |
| Yuv4Mpeg.SampleByteRange | src/jpsxdec/mdec/PsxYuv.java:292-293 | a sample rounding into -128..127 is written plus 128; below gives 0, above 255 |
| Yuv4Mpeg.Samples | src/jpsxdec/mdec/PsxYuv.java:291-302 | one byte per sample, in plane order |
| Yuv4Mpeg.SamplesSnoc | src/jpsxdec/mdec/PsxYuv.java:291-293 | writing one more sample appends its byte |
| Yuv4Mpeg.YuvFileText | src/jpsxdec/mdec/PsxYuv.java:281-283 | the file starts with the header and FRAME line character codes |
| Yuv4Mpeg.YuvFileLayout | src/jpsxdec/mdec/PsxYuv.java:290-302 | after the text come the Y, Cb and Cr sample bytes, each plane as a contiguous run |
| Yuv4Mpeg.YuvFileLength | src/jpsxdec/mdec/PsxYuv.java:290-302 | the length is header + 6 + W*H + 2 * (W*H/4) |
| PsxYuvImage.SetYAssertsRejectCorners | src/jpsxdec/mdec/PsxYuv.java:162-164 | the assertions refuse in-frame blocks at (0,0) and at the right edge (see Findings) |
| PsxYuvImage.SetYAssertsStronger | src/jpsxdec/mdec/PsxYuv.java:162-165 | everything the assertions accept is in bounds |
| PsxYuvImage.CopyLine | src/jpsxdec/mdec/PsxYuv.java:174-176 | the inner loop copies one source row into its plane row |
| PsxYuvImage.CopyIntLine | src/jpsxdec/mdec/PsxYuv.java:195-197 | the same for int samples |
| PsxYuvImage.CopyChromaLine | src/jpsxdec/mdec/PsxYuv.java:223-226 | one row of both chroma blocks |
| PsxYuvImage.CopyIntChromaLine | src/jpsxdec/mdec/PsxYuv.java:245-248 | the same for int samples |
| PsxYuvImage.WriteSamples | src/jpsxdec/mdec/PsxYuv.java:291-294 | the for-each writes exactly Samples of the plane |
| PsxYuvImage.StoreBgr | src/jpsxdec/mdec/PsxYuv.java:356-358 | stores b, g, r at the position and leaves the other bytes |
| PsxYuvImage.PsxYuv.constructor | src/jpsxdec/mdec/PsxYuv.java:91-101 | a W*H luma plane and two W*H/4 chroma planes, all zero |
| PsxYuvImage.PsxYuv.SetY | src/jpsxdec/mdec/PsxYuv.java:159-178 | the luma plane becomes the paste of src at (destX, destY) |
| PsxYuvImage.PsxYuv.SetYFromInts | src/jpsxdec/mdec/PsxYuv.java:180-199 | the same with int samples widened |
| PsxYuvImage.PsxYuv.SetCbCr | src/jpsxdec/mdec/PsxYuv.java:208-228 | both chroma planes become pastes of their sources, with stride W/2 |
| PsxYuvImage.PsxYuv.SetCbCrFromInts | src/jpsxdec/mdec/PsxYuv.java:230-250 | the same with int samples widened |
| PsxYuvImage.PsxYuv.PutYuvImage | src/jpsxdec/mdec/PsxYuv.java:306-314 | the other frame's luma is pasted at (x, y) and its chroma at (x/2, y/2) |
| PsxYuvImage.PsxYuv.ConvertPixel | src/jpsxdec/mdec/PsxYuv.java:344-354 | the computed b, g, r are PixelBgr of the frame at (row, col) |
| PsxYuvImage.PsxYuv.BgrPixelInto | src/jpsxdec/mdec/PsxYuv.java:341-359 | one inner iteration advances the buffer by one pixel |
| PsxYuvImage.PsxYuv.BgrRowInto | src/jpsxdec/mdec/PsxYuv.java:341-359 | the inner loop writes one whole output row |
| PsxYuvImage.PsxYuv.ToRowReverseBgrArray | src/jpsxdec/mdec/PsxYuv.java:324-364 | returns a fresh array equal to RowReverseBgr of the planes |
| PsxYuvImage.PsxYuv.Write | src/jpsxdec/mdec/PsxYuv.java:278-303 | the bytes written are YuvFile of the frame |

## Left out

- `VideoSaverBuilderStrGui.java` is a Swing form with no indexing or decoding logic. It is not part of this model.
- File, stream and `PrintStream` I/O, character encodings other than US-ASCII, logging, progress reporting and timing are not modelled. The file contents are sequences of lines or bytes, and the logged warnings are returned as values.
- Floating point is not modelled: `double` samples and `Fraction` arithmetic are exact reals. Java's `Math.round` is exact in `AudioSyncing.Round`. In the frame code, `jpsxdec.util.Math.round` is a parameter `round`, because its code is not part of this model. The colour coefficients are exact decimals.
- `toBufferedImage` (PsxYuv.java:105-151) builds a Java AWT image and is not modelled.
- `AudioSyncing.AudioSync.CalculateAudioToCatchUp`: it requires both rates to be nonzero, because `Fraction` with a zero denominator is not part of this model.
- `AudioSyncing.CatchUpMonotone`: it is stated for positive rates only.
- The indexing scan's handling of static regions, and its mark/reset demuxing streams, are not modelled.
- The module singleton, `indexing_static`, `deserialize_lineRead` and `identifyVideoFrame` of the XA module are not modelled. They create no tracker state.
- `SectorXA`, `SectorXANull` and `DiscItemXAAudioStream` are not part of this model. A sector is a record of its number, channel, sample count, EOF flag and silence flag. `matchesPrevious` is a parameter, and `createMedia` is an item record.
- `XaStream.TracksAfterRead`: it requires the new sector to come after the current one. This is how the disc scan feeds sectors, but `sectorRead` itself does not check it.
- `XaAudio.XaAudioModule.IndexingSectorRead`: it requires the channel to be in 0..31. The 32-slot array would throw `ArrayIndexOutOfBoundsException` for any other channel; that exception is not modelled.
- The long sample count is unbounded.
- `Ff7Frame.DemuxFrameUncompressorFf7.ReadHeader` and `Ff7Frame.CheckHeaderAtOffset`: both require the frame to hold the header they read. The `ArrayIndexOutOfBoundsException` on a short frame is not modelled.
- The STRv2 bit-stream decoding that follows the FF7 header is not part of this model.
- `Ff7Frame.HalfVlcCountCeil32Bounds`: it excludes `Integer.MAX_VALUE`. `HalfVlcCountCeil32` models that case's overflow, but the bound lemma does not cover it.
- `Ff7Frame.HeaderRoundTrip` and `Ff7Frame.CameraRoundTrip`: both require every written word to fit in 16 bits. Larger values are truncated by `writeInt16LE`, and the round trip does not hold for them.
- Java's signed `byte` is modelled as 0..255, and a frame buffer is a `seq` of those bytes.
- `PsxYuvImage.PsxYuv.SetY`, `SetYFromInts`, `SetCbCr`, `SetCbCrFromInts` and `PutYuvImage`: each requires the block to lie inside the plane. This replaces the source's stricter Java `assert`s (see Findings).
- `PsxYuvImage.PsxYuv.SetY` and `SetCbCr`: the source must not alias the target plane.
- `PsxYuvImage.PsxYuv.PutYuvImage`: it requires two distinct frames. Pasting a frame into itself is not modelled.
- The stray `System.out.println()` in `Write` (PsxYuv.java:294) is not modelled.
- `Collections.sort` is not modelled: `DiscIndexing.IndexDisc` takes the list already sorted, and `DiscOrder.SortedBy` states the order.
- `DiscOrder.CompareTransitiveAcrossClasses`: it covers only items of pairwise different classes. Same-class items defer to `compareTo`, which is not part of this model.
- `DiscIndexing.IndexDisc`: the ids the tree assigns are a parameter. `IndexId` itself is not modelled, and `recreateTree` sees it only through the `isRoot` and `isParent` parameters.
- `addChild`'s effect on the parent is not fed back into later parent ratings. The rating and `addChild` are pure parameters.
- The `finally` block that closes the CD or stream on failure (DiscIndex.java:389-399) is not modelled.
- The indexer notifications `indexInit`, `listPostProcessing`, `indexGenerated` and `indexingEndOfDisc` are not modelled.
- The listener's forwarding of each sector to the indexers, and its progress events (DiscIndex.java:552-560), are not modelled.
- The 32-bit overflow of `iCurrentHeaderSectorNumber + 1` and of the Mode 1 and Mode 2 counters is not modelled.
- The version header, `SERIALIZATION_START` and the localised comment text are parameters.
- A `DeserializationFail` from the `SerializedDiscItem` constructor is folded into the indexer's verdict for that line.
- `DiscIndexing.DiscIndex.GetByIndex` and `DiscIndexing.DiscIndex.GetById`: their own contracts state only presence. The items they return are stated by `ByIndexAfterNumbering` and `ByIdAfterFiling`.

## Findings

| source | as written | input that shows it | evidently intended | confidence | as-written member | corrected member |
|---|---|---|---|---|---|---|
| src/jpsxdec/mdec/PsxYuv.java:162-165 | `setY` asserts `iDestX > 0`, `iDestY > 0`, `iDestX + iWidth < m_iWidth` and `iDestY + iHeight < m_iHeight` (the chroma setters and `putYuvImage` assert the same) | the first 16x16 macroblock of a 320x240 frame at (0, 0), and the last block of a row at (304, 16): both lie inside the frame, yet the assertions refuse them | `>= 0` and `<=`: any block inside the frame | not executed | PsxYuvImage.SetYAssertsRejectCorners | PsxYuvImage.PsxYuv.SetY |
