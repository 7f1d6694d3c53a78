# Verified core of a live-streaming server

This project models the parts of the Amadeus streaming server in which data is kept, cut up, converted and handed on,
and proves what they promise. Every model has two layers: a specification on values, with the theorems about it, and,
where the program changes objects and buffers step by step, classes and loops proved to do what the specification says.

## Modules

| part | values and theorems | objects and loops |
|---|---|---|
| frame queues | `Frames`, `FrameQueue`, `AsyncQueue`, `QueueRules` | the classes in `FrameQueue` and `AsyncQueue` |
| GOP cache | `GopCache`, `GopHistory`, `GopRules` | `GopQueue` |
| fan-out to subscribers | `FanOut`, `FanOutRules` | `PublishSession` |
| H.264 parameter sets | `Arena`, `AvcSets`, `AvcWrap`, `AvcFull`, `AvcIds`, `ExpGolomb` | `AvcStore` |
| H.264 framing | `AnnexB`, `AnnexMixed`, `Mp4Framing`, `Mp4Inputs`, `Mp4Room` | `Mp4Converter` |
| configuration records | `AvcRecord`, `AvcRecordInputs`, `HevcRecord`, `HevcRecordInputs` | `AvcRecordCodec`, `HevcRecordCodec`, `HevcRecordLoad` |
| H.265 parameter sets | `HevcIds`, `HevcMaps`, `HevcRules` | the methods in `HevcIds`, `HevcStore` |
| FLV | `FlvParser`, `FlvMux`, `FlvAnswers`, `FlvBackward`, `FlvLayout`, `FlvPlain` | `FlvInput`, `FlvWrite` |
| AMF0 | `Amf0`, `Amf0Cut` | `Amf0Reader`, `Amf0Writer` |
| bit fields | `Bits`, `BitsWrite`, `BitsUnclean` | `BitCursor` |
| emulation prevention | `Emulation` | `BitStream` |
| URL queries | `UrlQuery`, `UrlRules` | `UrlText` |
| HLS playlists | `Hls` | `HlsTracers` |
| fragmented MP4 | `Fmp4`, `Fmp4Layout`, `Fmp4Buffer`, `Fmp4Media`, `Fmp4Times`, `Fmp4Repairs` | `Fmp4Writer` |

`Bytes`, `Options` and `WireOrder` hold what they share. What a receiver makes of a sequence of frames is its `Frames.Entries`: each
media frame with the metadata and the keyframe that govern it; two sequences with the same entries mean the same.

## What the proofs turned up

The models follow the code. Each of these properties fails for some input. The members named say exactly when, for all
inputs, and the last of them shows one, or what happens then:

- The pointer to the latest metadata is taken from the *first* metadata while no group is closed
  (src/frame/gop_queue.hh:287), so it can lag behind, and a media frame can move it back: `GopHistory.LatestMetaExact`,
  `GopHistory.LatestMetaStale` and `GopHistory.LatestMetaReturns`.
- A queue that starts with media can keep a replaced frame as its first metadata: `FrameQueue.PushBackFirstMeta`,
  `FrameQueue.FirstMetaStale`.
- The 256th picture parameter set empties the H.264 list: `AvcSets.WrapBreaksStore`, `AvcWrap.WrapReached`.
- `mpeg4_avc_to_nalu` asks for two bytes less than a PPS with its start code needs (mpeg4-avc.c:199), and can write up to
  two bytes past its room: `Mp4Framing.SetsOverrun` (for sets as they arrive, `Mp4Framing.PlainOverrun`),
  `Mp4Framing.TwoBytesOverrun`. The loops take the room as given and ask for memory only where such bytes go.
- A configuration record with 32 SPS, or one that ends with an empty PPS, is not loaded back: `AvcRecord.RoundTrip`,
  `AvcFull.FullNotLoadedBack`, `AvcRecord.NotLoadedBack`.
- Telling the framings of H.264 input apart can go on for ever (mpeg4-annexbtomp4.c:63-71): `AnnexB.UndecidedIff`,
  `AnnexB.NeverDecided`.
- Single-bit reads and `mpeg4_bits_read_n` part ways on a field that straddles the end: `Bits.FieldIsBits`,
  `Bits.FieldAcrossEnd`. The header announces -1 for an error of the latter; the code returns 0 and sets the error field.
- A field written over bits that are not zero may not read back (mpeg4-bits.h, `|=`): `BitsUnclean.ReadsBackIff`,
  `BitsUnclean.StaleBit`.
- The eager H.265 decoder can write one byte past the length it was given: `Emulation.RbspDecode` and
  `Emulation.NoOverrun`, `Emulation.OverrunsOneByte`.
- Playlist cleanup can drop a fragment once the list starts with one: `Hls.CleanedDropsFragment`, `Hls.FirstFragmentLost`.
- After audio samples were dropped, growing the sample buffer moves later samples away from their bytes, and the save
  writes others: `Fmp4Media.SavedIsGiven`, `Fmp4Media.SavedIsNotGiven`.
- Input that begins with a three-byte start code can be taken for units behind lengths: `AnnexMixed.MixedUnits`,
  `AnnexMixed.StartCodeMisread`. Units behind lengths are not recognised when the first or the last has one byte only:
  `AnnexMixed.FourRecognised`.
- Stored sets that bring their own start code are inserted with a gap, and the end of the output is lost
  (mpeg4-mp4toannexb.c:27-35): `Mp4Room.ShiftIff`, `Mp4Room.InsertGap`.
- Audio without a packet type, such as MP3 and G.711, is judged by the packet type of the last AAC or Opus tag
  (flv-parser.c:20), and by 0 before there was one: `FlvPlain.PlainStreamParses`, `FlvPlain.Mp3ToldAsOpus`.
- Truncated AMF0 objects and arrays can be accepted: `Amf0Cut.CutItem`, `Amf0Cut.ObjectEnds`.
- The times of inserted silence are converted to ticks twice (fmp4-writer.c:736-738): `Fmp4Repairs.InsertedInPlace`,
  `Fmp4Repairs.InsertTimes`.
- A last FLV tag without payload is not handed on before another byte arrives: `FlvMux.StandardStreamParsesBack`,
  `FlvMux.EmptyTagUntold`.

The H.265 store tells sets apart by ids that it decodes into what is left of its arena. With 257 bytes left it refines a
map from ids to sets (`HevcMaps.UpdateRefinesMap`); with less than 17 left it takes one video parameter set for another
(`HevcMaps.FirstVps`, `HevcMaps.OtherVpsLost`).

## Model

| member | source | states |
|---|---|---|
| FrameQueue.RunConsistent | src/frame/frame_queue.hh:192-269 | in every run of pushes at both ends, clears and pops, byte count, start and end time, and the first and latest media pointers equal their recomputation from the frames, and no two metadata frames are adjacent (non-negative times) |
| FrameQueue.PushBackFirstMeta | src/frame/frame_queue.hh:230-236 | the first-metadata pointer stays right across a push at the back, except exactly when the push replaces the only metadata frame of a queue that starts with media |
| FrameQueue.FirstMetaStale | src/frame/frame_queue.hh:230-236 | a concrete run: a video frame and two metadata frames leave the replaced one as first metadata |
| FrameQueue.PushFrontMeta | src/frame/frame_queue.hh:260-267 | the latest-metadata pointer stays right across metadata put in front, except exactly when that replaces the only metadata frame |
| FrameQueue.RunLatestMetaExact | src/frame/frame_queue.hh:216-268 | the latest-metadata pointer is exact in every run that does not replace the only metadata frame from the front |
| FrameQueue.BackRunSquashes | src/frame/frame_queue.hh:216-238 | pushing at the back alone keeps exactly the frames that were not superseded: of adjacent metadata, the last, so that none are left adjacent |
| FrameQueue.FrameQueue.PushBack | src/frame/frame_queue.hh:216-238 | the object after a push at the back is the specified queue value |
| FrameQueue.FrameQueue.PushFront | src/frame/frame_queue.hh:240-268 | the object after a push in front is the specified queue value |
| FrameQueue.FrameQueue.Move | src/frame/frame_queue.hh:34-47 | the new queue holds all the moved queue held, and the moved one is empty |
| FrameQueue.FrameQueue.TakeAll | src/frame/frame_queue.hh:192-202 | all frames are handed over in order and the queue is as new |
| FrameQueue.FrameQueue.Clear | src/frame/frame_queue.hh:204-214 | the queue is as new |
| AsyncQueue.BatchesAreSquashedParts | src/frame/frame_queue.hh:282-304 | each batch handed out, and the pending queue, is a consecutive stretch of the pushed frames less metadata superseded within it |
| AsyncQueue.NothingLost | src/frame/frame_queue.hh:282-304 | to a receiver, the batches followed by what is pending are the pushed frames: same media frames, each under the same metadata and keyframe |
| AsyncQueue.PendingConsistent | src/frame/frame_queue.hh:192-238 | the pending queue keeps all its aggregates, and no batch is empty unless the queue was closed |
| AsyncQueue.AsyncFrameQueue.NotifyNotEmpty | src/frame/frame_queue.hh:283-290 | a waiting consumer gets everything pending and stops waiting; nothing happens when nothing is pending or nobody waits |
| AsyncQueue.AsyncFrameQueue.Shut | src/frame/frame_queue.hh:292-297 | a waiting consumer gets an empty batch |
| AsyncQueue.AsyncFrameQueue.NotEmpty | src/frame/frame_queue.hh:300-305 | the consumer waits |
| QueueRules.PushFrontPlaces | src/frame/frame_queue.hh:240-268 | media pushed in front comes before all other media but behind metadata in front, metadata takes the place of such metadata, and nothing else moves |
| QueueRules.AnsweredOnce | src/frame/frame_queue.hh:282-305 | no wait of the consumer is answered twice; as long as it does not wait again before an answer, each wait is answered once or still open |
| QueueRules.Answers | src/frame/frame_queue.hh:282-305 | after a notification no consumer waits while frames are pending, and after a close none waits at all; without a waiting consumer nothing is handed over |
| GopHistory.RunFaithful | src/frame/gop_queue.hh:123-160 | in every run the cached frames are, to a receiver, the last part of the accepted history: a contiguous suffix of its media frames, each under the same metadata and, if an inter frame, behind the same keyframe |
| GopHistory.RunMediaSuffix | src/frame/gop_queue.hh:150-160 | the cached media frames are a contiguous suffix of the accepted ones, a non-empty cache starts with metadata, and no two metadata frames are adjacent |
| GopHistory.AddedFaithful | src/frame/gop_queue.hh:123-148 | one accepted or refused frame keeps the cache faithful to the accepted history |
| GopHistory.PoppedFaithful | src/frame/gop_queue.hh:261-269 | dropping the oldest group keeps it faithful: the metadata carried over is the one that governed the frames behind it |
| GopHistory.TracksUpdated | src/frame/gop_queue.hh:244-272 | evictions disturb no sequence of frames that keeps up with the cache |
| GopHistory.UpdatedSpan | src/frame/gop_queue.hh:244-272 | groups are dropped exactly as long as the rest spans the required duration: afterwards the span behind the oldest group is below it, and a cache that dropped groups still spans it |
| GopHistory.AddedSpan | src/frame/gop_queue.hh:123-148 | after every accepted media frame with a positive minimum duration, no closed group is left to spare, and what was evicted left at least the required span |
| GopHistory.LatestMetaPointer | src/frame/gop_queue.hh:284-299 | where the pointer that decides which frames are accepted stands after any accepted frame: at the first cached metadata as long as no group is closed, then at metadata just added, and media leaves it alone |
| GopHistory.LatestMetaExact | src/frame/gop_queue.hh:284-299 | after an accepted frame it is the last cached metadata exactly when, with no group closed, the last metadata is the first, and otherwise when the frame is metadata or it was before |
| GopHistory.LatestMetaStale | src/frame/gop_queue.hh:285-289 | a concrete run: after audio-only metadata inside the first group, a video frame is still accepted |
| GopHistory.RunBytes | src/frame/gop_queue.hh:67-75 | in every run the byte count is the bytes of the last so many accepted media frames, those that are cached |
| GopHistory.LatestMetaReturns | src/frame/gop_queue.hh:285-289 | a concrete run: metadata without audio moves the pointer, an eviction follows, and the next video frame moves it back, so that audio is accepted again |
| GopHistory.CacheNoAdjacentMetas | src/frame/gop_queue.hh:150-160 | no reachable cache has two metadata frames next to each other |
| GopCache.UpdateGop | src/frame/gop_queue.hh:244-272 | evictions keep the shape of the cache: every queue holding an inter frame starts its media with a keyframe, and only the oldest may start with metadata carried over |
| GopCache.AddFrame | src/frame/gop_queue.hh:123-148 | and so does an added frame, accepted or refused |
| GopCache.PopGopGood | src/frame/gop_queue.hh:261-269 | the metadata that an eviction carries over always exists |
| GopCache.AcceptedInter | src/frame/gop_queue.hh:227-242 | an accepted inter frame finds a keyframe at the head of the current group |
| GopCache.BytesExact | src/frame/gop_queue.hh:67-75 | the counts kept queue by queue add up to the bytes of all cached media frames |
| GopQueue.GopQueue.AddFrame | src/frame/gop_queue.hh:123-148 | the object after an added frame is the specified cache; a refused frame changes nothing |
| GopQueue.GopQueue.UpdateGop | src/frame/gop_queue.hh:244-272 | the recursive eviction, in place, gives the specified cache; it ends because groups run out |
| GopQueue.GopQueue.PopFront | src/frame/gop_queue.hh:261-269 | one eviction: the oldest queue goes, and its last metadata is put in front of the next one unless that starts with metadata |
| GopQueue.GopQueue.OnPopGop | src/frame/gop_queue.hh:301-316 | the first-frame pointers are found again among the queues that are left |
| GopQueue.GopQueue.ValidateFrame | src/frame/gop_queue.hh:227-242 | a frame is accepted exactly when the governing metadata enables its type and an inter frame has a keyframe to follow |
| GopQueue.GopQueue.AllFrames | src/frame/gop_queue.hh:150-160 | all groups and the current one, in order |
| GopQueue.GopQueue.Bytes | src/frame/gop_queue.hh:67-75 | the sum over the groups equals the bytes of all cached media frames |
| GopQueue.GopQueue.Duration | src/frame/gop_queue.hh:52-60 | last end minus first start, or 0 without media |
| GopQueue.GopQueue.Clear | src/frame/gop_queue.hh:162-173 | the cache is as new but for the minimum duration |
| GopQueue.GopQueue.SetMinCacheDuration | src/frame/gop_queue.hh:99-105 | only the minimum duration changes |
| GopQueue.GopQueue.PushOrOpen | src/frame/gop_queue.hh:130-143 | media that opens a group closes the current one if that holds media, and the frame goes into the current queue |
| GopQueue.GopQueue.PushFrame | src/frame/gop_queue.hh:178-181 | the frame goes into the current queue and the four frame pointers follow |
| GopQueue.GopQueue.AllowMediaType | src/frame/gop_queue.hh:274-280 | whether the governing metadata enables a media type |
| PublishSession.PublishSession.ValidateCache | src/session/session.hh:226-240 | whether bytes and duration of the cache are within their limits |
| GopRules.AcceptedIff | src/frame/gop_queue.hh:227-242 | a media frame is accepted exactly when the metadata pointed to enables its type and, for an inter frame, the media of the current group start with a keyframe |
| GopRules.RunGrouped | src/frame/gop_queue.hh:130-143 | in every run under audio-only metadata each closed group holds one media frame; with video enabled, every group but the oldest starts its media with a keyframe |
| GopRules.AddedKeeps | src/frame/gop_queue.hh:123-148 | without a positive minimum duration, and for metadata, an accepted frame goes behind all others and nothing is evicted |
| GopRules.DurationExact | src/frame/gop_queue.hh:52-60 | the duration is the time from the first cached media frame to the last |
| FanOut.StreamShape | src/session/publish_session.cc:238-282 | at any point of any interleaving, each delivered stream is the cache as of its first delivery followed by every frame accepted later, each once and in order |
| FanOut.StreamsDecodable | src/session/publish_session.cc:238-282 | every delivered stream starts with metadata, its media frames are a gapless last part of a prefix of the accepted history, each under its own metadata, and every inter frame has its own keyframe before it in the stream |
| FanOut.RunKeeps | src/session/publish_session.cc:104-124 | the session invariant holds in every state of every run of subscribe, unsubscribe, publish, deliver, finish and settings steps |
| FanOut.TracksAdded | src/session/publish_session.cc:211-219 | a stream that keeps up with the cache still does after the next accepted frame and the evictions it causes |
| PublishSession.PublishSession.AddSubscriber | src/session/publish_session.cc:104-114 | a new subscriber gets an item that receives nothing yet; one that is there already changes nothing |
| PublishSession.PublishSession.RemoveSubscriber | src/session/publish_session.cc:116-124 | the first item of the subscriber leaves the list |
| PublishSession.PublishSession.RemoveAllSubscribers | src/session/publish_session.cc:221-226 | the list is empty; deliveries under way go on |
| PublishSession.PublishSession.PublishFrame | src/session/publish_session.cc:270-282 | a frame is ignored when complete or refused, delivered to all subscribed now when the cache is within its limits, and otherwise cancels the session |
| PublishSession.PublishSession.AddFrame | src/session/publish_session.cc:211-219 | an accepted frame enters the cache and the accepted history, a refused one neither |
| PublishSession.PublishSession.DeliverNext | src/session/publish_session.cc:251-268 | the next pending item gets the whole cache the first time and the new frame after that |
| FanOutRules.UnsubscribeMeaning | src/session/publish_session.cc:116-124 | leaving takes the items of that subscriber off the list, keeps all others in order and changes nothing else |
| FanOutRules.SubscribeMeaning | src/session/publish_session.cc:104-114 | joining adds one item behind the others, without frames so far; whoever is on the list gets no second one |
| FanOutRules.RunOneEach | src/session/publish_session.cc:104-124 | in every run no subscriber has two items, and right after leaving none |
| FanOutRules.PublishMeaning | src/session/publish_session.cc:211-282 | a frame that is refused or comes after the end changes nothing; any other enters cache and history and is to be delivered to all subscribed now, unless the cached frames are more bytes or longer than the limits: that ends the session |
| FanOutRules.EndingSteps | src/session/publish_session.cc:221-226 | removing all subscribers and finishing leave cache, history, streams and pending deliveries alone |
| FanOutRules.SilentAfterEnd | src/session/publish_session.cc:270-282 | once a session has ended nothing is accepted any more, and without a pending delivery no stream grows |
| AvcSets.UpdateRefinesMaps | 3rd/libflv/source/mpeg4-annexbtomp4.c:204-346 | the store refines two maps keyed by the ids in the sets: an update returns 1 exactly when a map changes, and then at that id only; 0 or a negative answer changes nothing |
| AvcSets.PutMeaning | 3rd/libflv/source/mpeg4-annexbtomp4.c:204-318 | 1 means the map now holds the set under its id and did not before, 0 that it did, -1 exactly that the arena or the table is full |
| AvcSets.WrapBreaksStore | 3rd/libflv/source/mpeg4-annexbtomp4.c:303-317 | adding a picture parameter set to 255 held ones, and only that, loses the store: the eight-bit counter returns to zero |
| AvcWrap.WrapReached | 3rd/libflv/source/mpeg4-annexbtomp4.c:303-317 | a run from the empty store that holds 255 picture parameter sets, and loses them with one more |
| AvcSets.RunExact | 3rd/libflv/source/mpeg4-annexbtomp4.c:320-346 | from the empty store every run that never does that keeps the ids distinct and the bytes within the arena |
| AvcStore.AvcStore.Replace | 3rd/libflv/source/mpeg4-annexbtomp4.c:227-241 | replacing one set compacts the arena: the slices stay apart and, if they did before, tile the used part exactly; that set reads the new bytes, every other set what it read before |
| AvcStore.AvcStore.Remove | 3rd/libflv/source/mpeg4-annexbtomp4.c:185-202 | the bytes are squeezed out and the slices behind them move down |
| AvcStore.AvcStore.SpsCopy | 3rd/libflv/source/mpeg4-annexbtomp4.c:204-259 | copying a sequence parameter set is the specified update, and the slices stay apart or tile the arena as before |
| AvcStore.AvcStore.PpsCopy | 3rd/libflv/source/mpeg4-annexbtomp4.c:261-318 | copying a picture parameter set is the specified update; the slices stay apart, and tile the arena as before unless the counter wraps |
| AvcStore.AvcStore.Update | 3rd/libflv/source/mpeg4-annexbtomp4.c:320-346 | any NAL unit, at any time: the arena refines the specified store, and is tiled exactly until the counter wraps |
| Arena.ReplaceTiles | 3rd/libflv/source/mpeg4-annexbtomp4.c:233-239 | after the move and the copy the slices tile the new prefix, without a byte lost or shared |
| Arena.AppendTiles | 3rd/libflv/source/mpeg4-annexbtomp4.c:253-257 | a set added behind the others extends the tiling |
| Arena.TilesTotal | 3rd/libflv/source/mpeg4-annexbtomp4.c:233-239 | a tiling leaves no byte out and counts none twice: the slices add up to the part in use |
| Arena.RemoveKeepsContent | 3rd/libflv/source/mpeg4-annexbtomp4.c:188-201 | moving bytes and pointers down leaves every other set its bytes |
| ExpGolomb.ReadUeBits | 3rd/libflv/source/mpeg4-annexbtomp4.c:163-183 | the code read, and where the reader stands then, also for codes cut off by the end of the data |
| ExpGolomb.SkipZeros | 3rd/libflv/source/mpeg4-annexbtomp4.c:168-172 | counts the zero bits up to the next one bit or the end |
| ExpGolomb.ReadUpTo | 3rd/libflv/source/mpeg4-annexbtomp4.c:174-180 | reads as many of the bits as there are |
| AvcIds.CodeRead | 3rd/libflv/source/mpeg4-annexbtomp4.c:163-183 | the bits of a whole code, read as one number, are its number plus one, and the reader stops behind them |
| AvcIds.CodeCutOff | 3rd/libflv/source/mpeg4-annexbtomp4.c:163-183 | a code that the end of the data cuts off takes all that is left; its value is that of the bits that are there |
| AvcIds.SpsIdMeaning | 3rd/libflv/source/mpeg4-annexbtomp4.c:216-217 | a sequence parameter set is stored under the number of the code behind its first four bytes |
| AvcIds.PpsIdMeaning | 3rd/libflv/source/mpeg4-annexbtomp4.c:274-276 | a picture parameter set under those of the two codes behind its first byte |
| AvcIds.PutPlaces | 3rd/libflv/source/mpeg4-annexbtomp4.c:219-258 | a set that is stored takes the place of the first one with its id, or follows all others |
| AvcIds.OtherUnits | 3rd/libflv/source/mpeg4-annexbtomp4.c:320-346 | other units than parameter sets answer 0, too short sets -1 |
| AvcIds.RefusedIff | 3rd/libflv/source/mpeg4-annexbtomp4.c:227-252 | any other set is refused exactly when there is no room for what it adds, or the table of sequence parameter sets is full |
| AvcIds.ExampleRun | 3rd/libflv/source/mpeg4-annexbtomp4.c:453-483 | the run of the repository's own example: a second set is added, longer and shorter ones take the place of the first |
| AnnexB.UnitsFramed | 3rd/libflv/source/mpeg4-annexbtomp4.c:121-161 | units framed with four-byte start codes are recognised as such and split back into the same units (annex B of ITU-T H.264) |
| AnnexB.UndecidedIff | 3rd/libflv/source/mpeg4-annexbtomp4.c:45-98 | telling the framings apart never ends exactly when the trial with four-byte lengths, made unless the input begins like a start code, reaches a length of 2^32 - 4 with more than five bytes left |
| AnnexB.NeverDecided | 3rd/libflv/source/mpeg4-annexbtomp4.c:63-71 | FF FF FF FC 00 00 is such input |
| Mp4Framing.StuckSizes | 3rd/libflv/source/mpeg4-mp4toannexb.c:114-135 | the conversion back runs into such input only with the length sizes 0 and 3 |
| Mp4Framing.RoundTrip | 3rd/libflv/source/mpeg4-mp4toannexb.c:37-139 | start codes to length prefixes and back is the identity on the bytes; only when an IDR unit comes before every parameter set are the stored sets put in front once, or the conversion fails if there are none |
| Mp4Framing.Prefixes | 3rd/libflv/source/mpeg4-annexbtomp4.c:392-407 | one way: framed units come out behind their lengths, and the store holds what they carried |
| Mp4Framing.Reframes | 3rd/libflv/source/mpeg4-mp4toannexb.c:102-139 | the way back: the framed units, behind the stored sets where an IDR unit asks for them |
| Mp4Framing.SetsWritten | 3rd/libflv/source/mpeg4-avc.c:179-219 | with room, the sets written take exactly the size by which the output was shifted |
| Mp4Framing.SetsOverrun | 3rd/libflv/source/mpeg4-avc.c:179-219 | writing the stored sets ends behind the given room, by two bytes at most, exactly when all SPS fit and some PPS passes its check without room for itself and its start code |
| Mp4Framing.PlainOverrun | 3rd/libflv/source/mpeg4-avc.c:199-212 | for sets without start codes of their own: exactly when the room ends one or two bytes in front of the end of some PPS |
| Mp4Framing.TwoBytesOverrun | 3rd/libflv/source/mpeg4-avc.c:199-212 | one PPS of two bytes passes the check of a room of four bytes and takes six |
| Mp4Framing.NothingToInsert | 3rd/libflv/source/mpeg4-mp4toannexb.c:60-83 | with nothing stored, an IDR unit ahead of all parameter sets makes the conversion fail |
| Mp4Framing.KindReported | 3rd/libflv/source/mpeg4-annexbtomp4.c:373-375 | the last coded slice decides the picture kind reported |
| Mp4Framing.OnUnitsPrefixes | 3rd/libflv/source/mpeg4-annexbtomp4.c:348-407 | every unit is written behind its length and the store is updated with it |
| Mp4Framing.WalkPrefixed | 3rd/libflv/source/mpeg4-mp4toannexb.c:113-135 | the length-prefixed walk visits exactly the units that were written |
| Mp4Framing.UnitsOrdinary | 3rd/libflv/source/mpeg4-annexbtomp4.c:76-161 | the units handed on are non-empty and shorter than 2^32, whatever the input on which telling the framings apart ends |
| Mp4Converter.FindStartCode | 3rd/libflv/source/mpeg4-annexbtomp4.c:33-43 | the position behind the first start code |
| Mp4Converter.DetectFraming | 3rd/libflv/source/mpeg4-annexbtomp4.c:45-98 | start codes, three- or four-byte lengths, or neither |
| Mp4Converter.SplitAtStartCodes | 3rd/libflv/source/mpeg4-annexbtomp4.c:134-160 | the units between start codes, without trailing zeros |
| Mp4Converter.SplitPrefixed | 3rd/libflv/source/mpeg4-annexbtomp4.c:100-119 | the units behind their lengths |
| Mp4Converter.AnnexBToMp4 | 3rd/libflv/source/mpeg4-annexbtomp4.c:392-407 | the conversion into a buffer of any size: output, result, picture kind, update flag and store as specified, with its arena tiled until the counter wraps |
| Mp4Converter.TakeUnit | 3rd/libflv/source/mpeg4-annexbtomp4.c:348-390 | one unit: store updated, flags set, written if it fits |
| Mp4Converter.Mp4ToAnnexB | 3rd/libflv/source/mpeg4-mp4toannexb.c:102-139 | the conversion back into a buffer, for any room given: bytes and result as specified, also where the sets overrun the room |
| Mp4Converter.Handle.Take | 3rd/libflv/source/mpeg4-mp4toannexb.c:37-100 | one unit, with the stored sets inserted before the first IDR unit |
| Mp4Converter.Handle.Insert | 3rd/libflv/source/mpeg4-mp4toannexb.c:60-83 | what was written moves up by the size of the sets, and the sets go in front |
| Mp4Converter.WriteStoredSets | 3rd/libflv/source/mpeg4-avc.c:179-219 | all stored sets behind start codes, or -1 when one is held back |
| Mp4Converter.SizeOfSets | 3rd/libflv/source/mpeg4-mp4toannexb.c:27-35 | the size of all stored sets with their start codes |
| AnnexMixed.MixedSplit | 3rd/libflv/source/mpeg4-annexbtomp4.c:121-161 | units framed with any mix of three- and four-byte start codes, with any zeros in front of them and behind the last, are split into the same units |
| AnnexMixed.MixedFraming | 3rd/libflv/source/mpeg4-annexbtomp4.c:76-98 | such input is recognised at once when it begins with a zero more than a start code needs, and otherwise by the trial with four-byte lengths |
| AnnexMixed.MixedUnits | 3rd/libflv/source/mpeg4-annexbtomp4.c:45-161 | so it yields its units exactly unless it begins with a three-byte start code and that trial succeeds |
| AnnexMixed.StartCodeMisread | 3rd/libflv/source/mpeg4-annexbtomp4.c:76-98 | a unit of 360 bytes behind a three-byte start code is taken for one behind a length |
| AnnexMixed.PrefixedSplit | 3rd/libflv/source/mpeg4-annexbtomp4.c:100-119 | units behind lengths of three or four bytes are split into the same units |
| AnnexMixed.FourRecognised | 3rd/libflv/source/mpeg4-annexbtomp4.c:45-98 | units behind four-byte lengths are recognised as such exactly when neither the first nor the last has one byte only |
| AnnexMixed.ThreeRecognised | 3rd/libflv/source/mpeg4-annexbtomp4.c:45-98 | and those behind three-byte lengths, when the trial with four fails besides |
| Mp4Inputs.ConvertsExactly | 3rd/libflv/source/mpeg4-annexbtomp4.c:348-407 | for any input and any room: the lengths and units, and their size, exactly when every parameter set can be stored and all fit; otherwise 0 |
| Mp4Inputs.MixedConverts | 3rd/libflv/source/mpeg4-annexbtomp4.c:392-407 | input with any mix of start codes is converted to its units behind their lengths |
| Mp4Inputs.UpdateReported | 3rd/libflv/source/mpeg4-annexbtomp4.c:320-390 | an update is reported exactly when some unit changed the store |
| Mp4Inputs.WalkBehind | 3rd/libflv/source/mpeg4-mp4toannexb.c:113-135 | units behind lengths of one to four bytes are visited one by one |
| Mp4Inputs.WalkEnds | 3rd/libflv/source/mpeg4-mp4toannexb.c:119-135 | the walk ends well when no more than a length is left, and fails at an empty unit and at one that is cut off |
| Mp4Inputs.WalkFramed | 3rd/libflv/source/mpeg4-mp4toannexb.c:119-126 | input behind start codes is accepted where lengths of four bytes are expected |
| Mp4Room.BothFramings | 3rd/libflv/source/mpeg4-mp4toannexb.c:113-135 | and so are units behind start codes that follow units behind lengths |
| Mp4Room.RoomIff | 3rd/libflv/source/mpeg4-mp4toannexb.c:60-139 | the conversion back succeeds exactly when there is room for the units and, if an IDR unit comes before all sets, for the stored sets |
| Mp4Room.LastSlice | 3rd/libflv/source/mpeg4-annexbtomp4.c:373-375 | the last unit of type 1 to 5 decides the kind reported: 1 for type 5, otherwise 2 |
| Mp4Room.IdrFirstMeaning | 3rd/libflv/source/mpeg4-mp4toannexb.c:52-83 | the stored sets are put in for a unit of type 5 with none of type 7 or 8 ahead of it |
| Mp4Room.SetCode | 3rd/libflv/source/mpeg4-avc.c:187-196 | a set is written behind its own start code or else one of four bytes |
| Mp4Room.ShiftIff | 3rd/libflv/source/mpeg4-mp4toannexb.c:27-35 | what was written before is shifted by the size of the sets exactly when none brings a start code of its own |
| Mp4Room.InsertGap | 3rd/libflv/source/mpeg4-mp4toannexb.c:60-83 | otherwise old bytes of the buffer show between the sets and the units, whose end is cut off |
| AvcRecord.RoundTrip | 3rd/libflv/source/mpeg4-avc.c:47-175 | a saved AVC configuration record is loaded back, all fields and sets, exactly when it has fewer than 32 SPS, its sets fit the arena, and it does not end with an empty PPS (section 5.2.4.1.1 of ISO/IEC 14496-15) |
| AvcRecord.NotLoadedBack | 3rd/libflv/source/mpeg4-avc.c:47-175 | a record whose one PPS is empty and has a byte behind it is loaded; saved from there, it does not come back |
| AvcFull.FullNotLoadedBack | 3rd/libflv/source/mpeg4-avc.c:114-175 | a run of updates that leaves 32 SPS in the store, whose saved record does not come back |
| AvcRecord.UnitsLoad | 3rd/libflv/source/mpeg4-avc.c:69-109 | the sets read are those written, or the load fails exactly when they do not fit the arena |
| AvcRecord.TrailingEmpty | 3rd/libflv/source/mpeg4-avc.c:95-109 | an empty set at the very end is announced but not read |
| AvcRecordCodec.Save | 3rd/libflv/source/mpeg4-avc.c:114-175 | the record at the front of the buffer and its length, or -1 when it does not fit; nothing behind the record, or behind the room given, changes |
| AvcRecordCodec.SaveUnits | 3rd/libflv/source/mpeg4-avc.c:135-158 | one list of sets behind their lengths, as long as there is room |
| AvcRecordCodec.LoadRecord | 3rd/libflv/source/mpeg4-avc.c:47-112 | the length read, or -1; the sets are slices that follow each other from the front of the arena to its new end |
| AvcRecordCodec.LoadSets | 3rd/libflv/source/mpeg4-avc.c:69-109 | the sets read are copied one behind the other, and what was in the arena before them stays |
| HevcRecord.SaveLoads | 3rd/libflv/source/mpeg4-hevc.c:67-225 | whatever the store can hold is loaded back after a save: all fields, and the units of the five known types grouped (section 8.3.3.1.2 of ISO/IEC 14496-15) |
| HevcRecord.SecondSave | 3rd/libflv/source/mpeg4-hevc.c:147-225 | saving what was loaded gives identical bytes |
| HevcRecord.GroupedStable | 3rd/libflv/source/mpeg4-hevc.c:187-219 | grouping keeps the units of each known type, in order, and the completeness of its array |
| HevcRecord.GroupedSmaller | 3rd/libflv/source/mpeg4-hevc.c:187-219 | grouping adds no unit and no byte |
| HevcRecord.ArraysLoad | 3rd/libflv/source/mpeg4-hevc.c:102-141 | all arrays written are read back as long as 64 units and the arena suffice, and otherwise the load fails |
| HevcRecord.FieldsReadBack | 3rd/libflv/source/mpeg4-hevc.c:79-99 | the fixed fields survive their packing into bits |
| HevcRecordCodec.SaveRecord | 3rd/libflv/source/mpeg4-hevc.c:147-225 | the record at the front of the buffer and its length, or 0 when it does not fit; nothing behind the record, or behind the room given, changes |
| HevcRecordCodec.SaveKind | 3rd/libflv/source/mpeg4-hevc.c:187-219 | one turn of the outer loop: the array of one type, if it has units, behind what is written already |
| HevcRecordCodec.SaveArray | 3rd/libflv/source/mpeg4-hevc.c:189-210 | one pass over the units writes those of one type behind the place kept for the array head |
| HevcRecordLoad.LoadRecord | 3rd/libflv/source/mpeg4-hevc.c:67-145 | the length read, or -1; the units are consecutive slices of the arena |
| HevcRecordLoad.LoadOneArray | 3rd/libflv/source/mpeg4-hevc.c:111-140 | the units of one array, or a failure at the same input as specified |
| HevcStore.Store.Update | 3rd/libflv/source/hevc-annexbtomp4.c:192-211 | replacing a unit: same answer and units as specified, tiling kept |
| HevcStore.Store.Add | 3rd/libflv/source/hevc-annexbtomp4.c:213-232 | adding a unit: refused exactly when 64 are held or the arena is full |
| HevcStore.Store.Remove | 3rd/libflv/source/hevc-annexbtomp4.c:179-190 | the bytes are squeezed out and the units behind them move down |
| HevcStore.Store.ClearSei | 3rd/libflv/source/hevc-annexbtomp4.c:299-315 | all SEI units go, the others stay in order, and the rest tiles the arena |
| HevcIds.ProfileTierLevel | 3rd/libflv/source/hevc-annexbtomp4.c:51-102 | the size of the part in front of the id, by the flags of the sub-layers, or -1 when it is cut off |
| HevcIds.ReadSpsKey | 3rd/libflv/source/hevc-annexbtomp4.c:125-166 | the ids read from a decoded sequence parameter set; after a cut-off part, the -1 taken modulo 2^64 leads to bit 16 |
| HevcIds.ReadPpsKey | 3rd/libflv/source/hevc-annexbtomp4.c:168-177 | the two ids read from a decoded picture parameter set |
| HevcIds.KeyEnough | 3rd/libflv/source/hevc-annexbtomp4.c:31-49 | with 257 bytes of room or more, a set has one and the same key |
| HevcStore.Store.DecodeKey | 3rd/libflv/source/hevc-annexbtomp4.c:104-177 | a set is decoded into the part of the arena not in use and its key is read there; no unit changes |
| HevcStore.Store.Find | 3rd/libflv/source/hevc-annexbtomp4.c:245-250 | the first unit of that type whose ids are those wanted, each unit decoded in turn |
| HevcStore.Store.CopySet | 3rd/libflv/source/hevc-annexbtomp4.c:234-297 | a parameter set replaces the first of its type and ids, or is added; one that is too short is refused |
| HevcStore.UpdateStore | 3rd/libflv/source/hevc-annexbtomp4.c:317-352 | the specified update, with the room that the units leave: a video parameter set first clears the SEI units; other units than parameter sets change nothing |
| HevcStore.ReplacedMeaning | 3rd/libflv/source/hevc-annexbtomp4.c:192-211 | no other unit changes, whatever the answer, and only an answer of 1 changes anything |
| HevcMaps.UpdateRefinesMap | 3rd/libflv/source/hevc-annexbtomp4.c:234-352 | with 257 bytes free and ids that can be read, the store refines a map from type and ids to sets: an update answers 1 exactly when the map changes, and then only at the ids in the unit, and 0 when the set is there already |
| HevcMaps.CopyMeaning | 3rd/libflv/source/hevc-annexbtomp4.c:192-297 | the three answers are tied to the map before and after, and -1 to a full arena or table |
| HevcMaps.RunKeyed | 3rd/libflv/source/hevc-annexbtomp4.c:317-352 | in every run from the empty store in which ids can be read, no two sets of a type have the same ids |
| HevcMaps.CopiedTwice | 3rd/libflv/source/hevc-annexbtomp4.c:234-297 | a set that is stored is found again under its ids: copying it once more answers 0 |
| HevcMaps.NamedIff | 3rd/libflv/source/hevc-annexbtomp4.c:104-177 | ids can be read exactly from sets that are long enough once decoded |
| HevcMaps.FirstVps | 3rd/libflv/source/hevc-annexbtomp4.c:104-123 | with less than 17 bytes free, every video parameter set counts as the first one held |
| HevcMaps.OtherVpsLost | 3rd/libflv/source/hevc-annexbtomp4.c:234-253 | a run after which a video parameter set takes the place of one with another id |
| Arena.DropTiles | 3rd/libflv/source/hevc-annexbtomp4.c:306-311 | a unit cut out of the arena and the list leaves a tiling |
| AvcRecordInputs.HeadBits | 3rd/libflv/source/mpeg4-avc.c:123-134 | version 1 and reserved bits of the fixed part |
| AvcRecordInputs.ExtensionBits | 3rd/libflv/source/mpeg4-avc.c:168-171 | chroma format and bit depths read back from the extension, behind reserved ones |
| AvcRecordInputs.HighProfiles | 3rd/libflv/source/mpeg4-avc.c:162-167 | the twelve profiles that have it |
| AvcRecordInputs.SavedForms | 3rd/libflv/source/mpeg4-avc.c:119-174 | the record is saved with the extension when the profile has one and it fits, without it when only that fits, and otherwise not at all |
| AvcRecordInputs.LoadedIsThere | 3rd/libflv/source/mpeg4-avc.c:47-112 | for any input: what is loaded is there, byte for byte, and sets are missing only where the input ends |
| AvcRecordInputs.UnitsFail | 3rd/libflv/source/mpeg4-avc.c:69-109 | loading fails only at a set that is cut off, or does not fit the arena |
| AvcRecordInputs.OneOfEach | 3rd/libflv/source/mpeg4-avc.c:233-249 | a record of one set of each kind, byte by byte |
| HevcRecordInputs.SavedIff | 3rd/libflv/source/mpeg4-hevc.c:147-225 | a record is saved exactly when 23 bytes, three for each array, two for each unit and the units fit |
| HevcRecordInputs.SavedOrder | 3rd/libflv/source/mpeg4-hevc.c:149-155 | the order of the arrays |
| HevcRecordInputs.LoadedIsThere | 3rd/libflv/source/mpeg4-hevc.c:67-145 | for any input: the arrays that are loaded are there, byte for byte, as many as announced |
| HevcRecordInputs.ArrayFails | 3rd/libflv/source/mpeg4-hevc.c:111-140 | an array fails only at a unit that is cut off, or for which table or arena is full |
| HevcRecordInputs.ArraysFail | 3rd/libflv/source/mpeg4-hevc.c:102-141 | and the arrays where fewer than three bytes are left or one of them fails |
| HevcRecordInputs.ExampleFields | 3rd/libflv/source/mpeg4-hevc.c:275-284 | the fixed part of the repository's own example |
| HevcRecordInputs.ExampleAllFields | 3rd/libflv/source/mpeg4-hevc.c:157-185 | and one in which every field is set |
| HevcRules.TierMeaning | 3rd/libflv/source/hevc-annexbtomp4.c:51-102 | the size of profile, tier and level: 96 bits and, with sub-layers, 16 and 88 and 8 for each flag set (section 7.3.3 of ITU-T H.265) |
| HevcRules.VpsKeyMeaning | 3rd/libflv/source/hevc-annexbtomp4.c:104-123 | the id of a video parameter set is the first four bits behind the unit header |
| HevcRules.SpsKeyMeaning | 3rd/libflv/source/hevc-annexbtomp4.c:125-166 | that of a sequence parameter set is the code behind profile, tier and level |
| HevcRules.SpsKeyCutOff | 3rd/libflv/source/hevc-annexbtomp4.c:138-166 | and the code at bit 16 when that part is cut off |
| HevcRules.PpsKeyMeaning | 3rd/libflv/source/hevc-annexbtomp4.c:168-177 | those of a picture parameter set are the two codes behind the unit header |
| HevcRules.UpdatePlaces | 3rd/libflv/source/hevc-annexbtomp4.c:192-352 | an update changes the bytes of one unit of the type, or adds a complete unit at the end; a video parameter set clears the SEI units first in any case |
| HevcRules.ClearedUnits | 3rd/libflv/source/hevc-annexbtomp4.c:299-315 | clearing leaves the units of every type but 39 and 40, in order |
| FlvParser.FeedConcat | 3rd/libflv/source/flv-parser.c:113-261 | feeding two chunks one after the other gives the callbacks, answer and parser of feeding them joined; after an error the rest is not looked at |
| FlvParser.Feed | 3rd/libflv/source/flv-parser.c:113-261 | the loop ends, by the bytes left and then by the phase, and a parser that answered no error is ready for more |
| FlvParser.StepSane | 3rd/libflv/source/flv-parser.c:117-258 | a step that takes no byte moves to a later phase |
| FlvInput.ParserObject.Input | 3rd/libflv/source/flv-parser.c:113-261 | the object fed with data has the callbacks, answer and state that the specification gives |
| FlvInput.ParserObject.Append | 3rd/libflv/source/flv-parser.c:93-111 | copies into the small buffer until the size is reached; an inconsistent state consumes all |
| FlvInput.ParserObject.OpenBody | 3rd/libflv/source/flv-parser.c:188-204 | the header read, and a body of the rest of the tag, its size taken modulo 2^64, allocated |
| FlvInput.ParserObject.InputBody | 3rd/libflv/source/flv-parser.c:208-246 | a complete body is dispatched by type and the parser waits for the tag size |
| FlvInput.ParserObject.InputHead | 3rd/libflv/source/flv-parser.c:121-133 | the file header, refused with an offset below 9 or above 32 |
| FlvInput.ParserObject.InputCodec | 3rd/libflv/source/flv-parser.c:161-190 | the first byte of the body decides how long its header is |
| FlvMux.StreamParsesBack | src/flv/tag.cc:46-87 | a written stream parses back to its tags: one callback each, with payload, codec, 32-bit times, keyframe flag and composition time (annex E.4 of the Adobe FLV specification) |
| FlvMux.ChunkedStreamParsesBack | src/flv/tag.cc:46-87 | and so does it however the bytes are cut up on the way |
| FlvMux.StandardStreamParsesBack | src/flv/tag.cc:11-44 | the other muxer, with any tag sizes in front of the tags, parses back the same exactly unless nothing follows a last tag that has no payload and has a callback; then only that callback is missing |
| FlvMux.FeedLast | 3rd/libflv/source/flv-parser.c:208-246 | a last tag is told of exactly when it has a payload |
| FlvMux.EmptyTagUntold | src/flv/tag.cc:11-44 | a stream of one audio tag without payload calls back for nothing |
| FlvMux.ChunksDoNotMatter | 3rd/libflv/source/flv-parser.c:113-261 | feeding any chunks equals feeding them joined |
| FlvMux.TagRead | 3rd/libflv/source/flv-header.c:44-70 | a written tag header reads back, every field |
| FlvMux.AudioHeadRead | 3rd/libflv/source/flv-header.c:72-102 | a written audio header reads back; formats with a packet type come back as 44 kHz 16-bit stereo |
| FlvMux.VideoHeadRead | 3rd/libflv/source/flv-header.c:104-133 | a written video header reads back, with composition times of 24 signed bits |
| FlvMux.HeaderRead | 3rd/libflv/source/flv-header.c:23-42 | a written file header reads back |
| FlvWrite.MakeTagData | src/flv/tag.cc:46-69 | tag header, body and size of both in one buffer, or an empty one for an unknown type |
| FlvWrite.MakeHeaderData | src/flv/tag.cc:71-87 | file header and a zero tag size in one buffer |
| FlvWrite.MakeStandardTagData | src/flv/tag.cc:11-35 | the size of the tag before, tag header and body in one buffer |
| FlvWrite.HeaderWrite | 3rd/libflv/source/flv-header.c:141-156 | the file header over the front of the buffer, or -1 |
| FlvWrite.TagHeaderWrite | 3rd/libflv/source/flv-header.c:158-189 | the tag header over the front of the buffer, or -1 and nothing written |
| FlvWrite.AudioHeaderWrite | 3rd/libflv/source/flv-header.c:191-210 | the audio header, or -1 and nothing written |
| FlvWrite.VideoHeaderWrite | 3rd/libflv/source/flv-header.c:212-235 | the video header, composition time reduced to 24 bits, or -1 with the first byte written |
| FlvWrite.TagSizeWrite | 3rd/libflv/source/flv-header.c:252-258 | the tag size, or -1 |
| FlvLayout.FileHeader | 3rd/libflv/source/flv-header.c:141-156 | the file header, byte by byte |
| FlvLayout.TagHeaderFields | 3rd/libflv/source/flv-header.c:158-189 | the fields of a tag header: type and filter, size, low 24 and high 8 bits of the time, stream |
| FlvLayout.TagFields | src/flv/tag.cc:46-69 | a whole tag: header, body, and the size of both behind it |
| FlvLayout.AudioHeads | 3rd/libflv/source/flv-header.c:191-210 | audio headers of AAC, Opus, MP3 and G.711 |
| FlvLayout.VideoHeads | 3rd/libflv/source/flv-header.c:212-235 | video headers of H.264, H.265 and AV1, with negative composition times |
| FlvLayout.Codes | 3rd/libflv/source/flv-parser.c:18-62 | what a callback is told for each kind of tag |
| FlvBackward.SizeBehind | src/flv/tag.cc:57-59 | the four bytes behind a tag give its length |
| FlvBackward.WalkedBackwards | src/flv/tag.cc:46-87 | so a stream can be read from its end, tag by tag, back to the file header |
| FlvBackward.SameStream | src/flv/tag.cc:11-44 | the other muxer, given each time the length of the tag before, writes the same stream but for the last size |
| FlvAnswers.AnswersCount | 3rd/libflv/source/flv-parser.c:113-261 | the first answer of a callback other than 0 ends the parsing, and is the answer of the parser |
| FlvAnswers.UnknownTypeRefused | 3rd/libflv/source/flv-parser.c:183-186 | a tag of unknown type is refused as soon as anything follows its header |
| FlvAnswers.HeaderRefused | 3rd/libflv/source/flv-parser.c:121-128 | as is a file header with a wrong signature or offset |
| FlvAnswers.OffsetSkipped | 3rd/libflv/source/flv-parser.c:129-146 | what a larger offset announces is skipped |
| FlvAnswers.PacketRefused | 3rd/libflv/source/flv-parser.c:42-46 | a video tag of unknown packet type is refused |
| FlvAnswers.BodyRefused | 3rd/libflv/source/flv-parser.c:200-203 | and one for which no body can be allocated |
| FlvPlain.PlainStreamParses | 3rd/libflv/source/flv-parser.c:18-62 | a stream of tags of all formats is parsed; each is told of in the codec it names if and only if no audio format without packet type comes before the first AAC or Opus frame, or behind the header of one |
| FlvPlain.Mp3ToldAsOpus | 3rd/libflv/source/flv-parser.c:18-24 | a stream of one MP3 frame is told of as the header of an Opus stream |
| Amf0.ItemReadsBack | 3rd/libflv/source/amf0.c:297-335 | for every well-formed value of any depth the reader consumes exactly its bytes and fills the places asked for (sections 2.2 to 2.14 of the AMF0 specification) |
| Amf0.PropsReadBack | 3rd/libflv/source/amf0.c:368-398 | all properties of an object up to its end mark |
| Amf0.ElemsReadBack | 3rd/libflv/source/amf0.c:343-358 | all elements of a strict array, each into the slot of its number |
| Amf0.ObjectFillsSlots | 3rd/libflv/source/amf0.c:368-398 | reading an object leaves in each number, boolean and text slot the last property meant for it |
| Amf0.SlotHoldsLast | 3rd/libflv/source/amf0.c:378-390 | of the properties that select a slot, the last one, or the last text that fits, is what it holds |
| Amf0.CommandReadsBack | 3rd/libflv/source/amf0.c:400-414 | values read one after the other succeed exactly when each has the type asked for |
| Amf0.Find | 3rd/libflv/source/amf0.c:380-385 | the first slot of that name that takes the type |
| Amf0Reader.Item | 3rd/libflv/source/amf0.c:297-335 | the recursive reader, by position, stops where the specification does and stores the same |
| Amf0Reader.ObjectItems | 3rd/libflv/source/amf0.c:368-398 | the object loop |
| Amf0Reader.Elements | 3rd/libflv/source/amf0.c:343-358 | the strict array loop; running out of data ends it without complaint |
| Amf0Reader.ArrayAt | 3rd/libflv/source/amf0.c:343-366 | ECMA arrays skip their count, strict arrays use it |
| Amf0Reader.ReadString | 3rd/libflv/source/amf0.c:261-278 | a text of 16- or 32-bit length, stored when it fits with its terminating zero |
| Amf0Reader.ReadCommand | 3rd/libflv/source/amf0.c:400-414 | the loop over the items asked for |
| Amf0Writer.WriteDouble | 3rd/libflv/source/amf0.c:103-127 | the nine bytes of a number, or no room and nothing written |
| Amf0Writer.WriteBoolean | 3rd/libflv/source/amf0.c:94-101 | the two bytes of a boolean |
| Amf0Writer.WriteString | 3rd/libflv/source/amf0.c:129-147 | a short or long string by its length |
| Amf0Writer.WriteMark | 3rd/libflv/source/amf0.c:43-65 | the single byte of null, undefined and the start of an object |
| Amf0Writer.WriteObjectEnd | 3rd/libflv/source/amf0.c:67-76 | the three bytes that end an object |
| Amf0Writer.WriteEcmaArray | 3rd/libflv/source/amf0.c:86-92 | type and a count of zero; the type byte is written even when the count does not fit |
| Amf0Writer.WriteNamedDouble | 3rd/libflv/source/amf0.c:168-175 | name and number |
| Amf0Writer.WriteNamedBoolean | 3rd/libflv/source/amf0.c:159-166 | name and boolean |
| Amf0Writer.WriteNamedString | 3rd/libflv/source/amf0.c:177-184 | name and string; for a long string without room the name is left behind |
| Amf0Writer.NamedProp | 3rd/libflv/source/amf0.c:159-184 | what the named writers write is one property more |
| Amf0Writer.ObjectPieces | 3rd/libflv/source/amf0.c:59-76 | start, named properties and end, written one behind the other, are the bytes of the object |
| Amf0Writer.ObjectWritten | 3rd/libflv/source/amf0.c:368-398 | and the reader reads that object back |
| Amf0Cut.CutItem | 3rd/libflv/source/amf0.c:261-396 | a value that the end of the data cuts off is accepted exactly where a strict array ends behind an element, or an object in front of a name whose length begins with the byte 9 |
| Amf0Cut.CutRefused | 3rd/libflv/source/amf0.c:261-396 | so without strict arrays and such names no value is accepted before its last byte |
| Amf0Cut.DateReads | 3rd/libflv/source/amf0.c:280-291 | a date has ten bytes, and the place asked for gets all |
| Amf0Cut.UnknownRefused | 3rd/libflv/source/amf0.c:297-335 | values of other types are refused |
| Amf0Cut.ObjectEnds | 3rd/libflv/source/amf0.c:368-396 | an object ends with an empty name and a 9, or with a last byte 9 alone |
| Amf0Cut.TextPlaced | 3rd/libflv/source/amf0.c:261-278 | a text and its zero go to the front of a buffer that has room for both |
| Amf0Cut.ElementPlaced | 3rd/libflv/source/amf0.c:343-358 | elements fill the places of the same number that take their type |
| Amf0Cut.Types | 3rd/libflv/source/amf0.c:297-335 | the type bytes (sections 2.2 to 2.14 of the AMF0 specification) |
| Amf0Cut.ExampleBytes | 3rd/libflv/source/amf0.c:368-396 | an object of a boolean and a text, byte by byte |
| Amf0Cut.ExampleArray | 3rd/libflv/source/amf0.c:343-358 | a strict array, byte by byte |
| Bits.FieldIsBits | 3rd/libflv/include/mpeg4-bits.h:62-120 | a field read at once is its bits read one by one, value, position and error, exactly when all of them are there or none is |
| Bits.FieldAcrossEnd | 3rd/libflv/include/mpeg4-bits.h:62-120 | two bits from the last bit of a byte on: one by one the last bit is read, at once nothing |
| BitsWrite.FieldsReadBack | 3rd/libflv/include/mpeg4-bits.h:80-192 | on a zeroed buffer any fields written one after the other read back, each modulo 2 to its width, at every alignment |
| BitsWrite.PutValue | 3rd/libflv/include/mpeg4-bits.h:162-192 | the field written reads back, and the rest of its last byte is zero |
| BitsWrite.PutKeepsFields | 3rd/libflv/include/mpeg4-bits.h:162-192 | no field in front of it changes |
| BitsWrite.PutStaysClean | 3rd/libflv/include/mpeg4-bits.h:162-192 | everything behind it stays zero |
| BitCursor.Cursors.ReadN | 3rd/libflv/include/mpeg4-bits.h:80-120 | the shifting reader gives the specified value, position and error |
| BitCursor.Cursors.Read | 3rd/libflv/include/mpeg4-bits.h:62-75 | one bit |
| BitCursor.Cursors.WriteN | 3rd/libflv/include/mpeg4-bits.h:162-192 | the shifting writer leaves the specified buffer, whatever it held, or an error and nothing written |
| BitCursor.Cursors.Write | 3rd/libflv/include/mpeg4-bits.h:147-160 | writing one bit is writing a field of width one |
| BitCursor.Cursors.Align | 3rd/libflv/include/mpeg4-bits.h:44-47 | on to the next multiple |
| BitCursor.Cursors.Remain | 3rd/libflv/include/mpeg4-bits.h:49-52 | the bits left; past the end the difference wraps |
| WireOrder.ReadInOrder | 3rd/libflv/source/amf0.c:186-210 | words are read with the most significant byte first |
| WireOrder.WrittenInOrder | 3rd/libflv/source/amf0.c:9-25 | and written so |
| BitsUnclean.ReadsBackIff | 3rd/libflv/include/mpeg4-bits.h:162-192 | on any buffer, a field written reads back exactly when the one bits left in the rest of its first byte are among those that it sets |
| BitsUnclean.FirstByte | 3rd/libflv/include/mpeg4-bits.h:162-192 | in the first byte of a field nothing is cleared: a bit is set when it was, or when the field sets it |
| BitsUnclean.FieldBit | 3rd/libflv/include/mpeg4-bits.h:162-192 | behind that byte a field is the same whatever the buffer held |
| Emulation.LazyReadsStripped | 3rd/libfmp4/source/bitstream.c:18-86 | for every byte string, the bits the cursor reads are those of the string without each 03 behind 00 00, in order, and then an error (section 7.3.1 of ITU-T H.264) |
| Emulation.ReadSteps | 3rd/libfmp4/source/bitstream.c:75-86 | one read is one read of the stripped string |
| Emulation.UeMeaning | 3rd/libfmp4/source/bitstream.c:103-120 | the bits of a complete code, read as one number, are the code number plus one (section 9.1 of ITU-T H.264) |
| Emulation.ReadersAgree | 3rd/libflv/source/mpeg4-annexbtomp4.c:163-183 | on complete codes with fewer than 32 zeros both readers agree modulo 256 and stop at the same bit |
| Emulation.SignedRoundTrip | 3rd/libfmp4/source/bitstream.c:122-126 | signed codes: the mapping to code numbers is inverted in both directions |
| Emulation.RbspDecode | 3rd/libflv/source/hevc-annexbtomp4.c:31-49 | the eager decoder gives a prefix of the stripped string, and all of it for up to 256 bytes; it writes one byte past the given length exactly when a pair of zeros in front of a 03 begins where one byte of room is left; nothing in front of its room changes |
| Emulation.NoOverrun | 3rd/libflv/source/hevc-annexbtomp4.c:31-49 | a length of 257 or more is never exceeded |
| Emulation.OverrunsOneByte | 3rd/libflv/source/hevc-annexbtomp4.c:31-49 | 00 00 03 07 exceeds a length of one |
| BitStream.Stream.ReadBit | 3rd/libfmp4/source/bitstream.c:75-86 | the next bit of the stripped string, or -1 past its end |
| BitStream.Stream.MoveNextBit | 3rd/libfmp4/source/bitstream.c:18-38 | the step over an emulation prevention byte |
| BitStream.Stream.NextBit | 3rd/libfmp4/source/bitstream.c:57-64 | the same bit without moving |
| BitStream.Stream.ReadBits | 3rd/libfmp4/source/bitstream.c:88-101 | a field of the stripped string as a 32-bit value, or -1 when it is cut off |
| BitStream.Stream.ReadUe | 3rd/libfmp4/source/bitstream.c:103-120 | the code at that place of the stripped string |
| BitStream.Stream.ReadSe | 3rd/libfmp4/source/bitstream.c:122-126 | the signed value of that code |
| WireOrder.DroppedIff | 3rd/libfmp4/source/bitstream.c:18-38 | a 03 behind two zero bytes is dropped, any other byte kept (section 7.3.1 of ITU-T H.264) |
| WireOrder.FieldRead | 3rd/libfmp4/source/bitstream.c:88-101 | a field is its value as a signed 32-bit word, or -1 when it is cut off |
| WireOrder.CodeCut | 3rd/libfmp4/source/bitstream.c:103-120 | a code that is cut off has the value that its zeros and that -1 give |
| WireOrder.SignedOrder | 3rd/libfmp4/source/bitstream.c:122-126 | code numbers stand for 0, 1, -1, 2, -2 and so on (section 9.1.1 of ITU-T H.264) |
| UrlQuery.QueryReadsBack | src/util/CxxUrl.cc:812-831 | the text printed for a query is parsed as the same query; only queries with an empty key have no text (section 3.4 of RFC 3986) |
| UrlQuery.InvertsIffPercentFree | src/util/CxxUrl.cc:423-472 | decoding inverts encoding for all texts exactly for the masks that do not let the percent sign through (section 2.1 of RFC 3986) |
| UrlQuery.DecodeInverts | src/util/CxxUrl.cc:423-523 | decoding inverts each of the three encodings |
| UrlQuery.NoHash | src/util/CxxUrl.cc:882-897 | no printed query holds a hash sign, so the fragment cannot begin inside it |
| UrlQuery.Stable | src/util/CxxUrl.cc:812-831 | printing a parsed query and parsing it again gives the same query |
| UrlQuery.EntryReads | src/util/CxxUrl.cc:814-831 | the loop takes one printed entry and goes on behind the separator |
| UrlText.Decode | src/util/CxxUrl.cc:423-454 | the decoding loops, with and without plus signs, and their errors |
| UrlText.Encode | src/util/CxxUrl.cc:457-523 | the three encoding loops |
| UrlText.PrintQuery | src/util/CxxUrl.cc:882-897 | the printing loop, or an error when a key is empty |
| UrlText.ParseQuery | src/util/CxxUrl.cc:812-831 | the parsing loop; it goes round once more behind a separator at the end |
| UrlText.TakeEntry | src/util/CxxUrl.cc:814-830 | one turn of that loop |
| UrlRules.AllowedIff | src/util/CxxUrl.cc:12-38 | which characters each bit of a mask lets through |
| UrlRules.QueryMasks | src/util/CxxUrl.cc:12-38 | printing a query leaves exactly the characters of section 3.4 of RFC 3986 as they are |
| UrlRules.ShownExactly | src/util/CxxUrl.cc:474-523 | what is printed for one byte: a space as a plus sign, a query character that separates nothing as itself, any other in two upper-case digits |
| UrlRules.HexMeaning | src/util/CxxUrl.cc:423-454 | hexadecimal digits of both cases have their values, nothing else does |
| UrlRules.DecodedIff | src/util/CxxUrl.cc:423-454 | a text decodes exactly when two hexadecimal digits stand behind every percent sign |
| UrlRules.QueryIff | src/util/CxxUrl.cc:812-831 | a text is a query exactly when it holds query characters and whole percent-encoded bytes only |
| UrlRules.EntryShape | src/util/CxxUrl.cc:883-897 | a printed entry holds no separator; an equals sign stands in front of its value, if that is not empty |
| UrlRules.TextShape | src/util/CxxUrl.cc:883-897 | a printed query has one ampersand between any two entries, and no semicolon |
| UrlRules.SemicolonSeparates | src/util/CxxUrl.cc:812-831 | a semicolon separates entries like an ampersand |
| Hls.FragmentsKeepHeaders | src/hls/m3u8.cc:26-66 | in every run that starts with a header and removes fragments only: the listed fragments are those added and not removed, in order, each governed by the header last sent before it; nothing scheduled for deletion is listed; nothing sent is neither |
| Hls.RunKeeps | src/hls/file_clean.cc:39-87 | the invariant behind it, kept by every event |
| Hls.CleanedKeeps | src/hls/m3u8.cc:56-66 | header cleanup changes neither fragments nor the header of any |
| Hls.CleanedDropsFragment | src/hls/m3u8.cc:56-66 | for any list, cleanup drops a fragment exactly when the list starts with one, a header follows and another fragment comes later |
| Hls.FirstFragmentLost | src/hls/m3u8.cc:56-66 | a run: a playlist started with a fragment loses it at the second header |
| Hls.CleanedIsClean | src/hls/m3u8.cc:56-66 | after cleanup at most one header stands in front of the first fragment, and cleaning again changes nothing |
| HlsTracers.PlaylistWriter.OnRemovePlayitem | src/hls/m3u8.cc:35-44 | the item leaves the list, which is cleaned |
| HlsTracers.PlaylistWriter.OnUpdateHeader | src/hls/m3u8.cc:46-54 | the header is added and the list cleaned |
| HlsTracers.PlaylistWriter.OnAddPlayitem | src/hls/m3u8.cc:26-33 | the item is added at the end |
| HlsTracers.PlaylistWriter.RemoveUselessHeaders | src/hls/m3u8.cc:56-66 | the scan erases exactly the useless headers |
| HlsTracers.FileCleaner.OnRemovePlayitem | src/hls/file_clean.cc:47-57 | the same list, and the item and the dropped headers scheduled for deletion |
| HlsTracers.FileCleaner.OnUpdateHeader | src/hls/file_clean.cc:60-67 | the same list, and the dropped headers scheduled |
| HlsTracers.FileCleaner.OnAddPlayitem | src/hls/file_clean.cc:39-44 | the same list |
| HlsTracers.FileCleaner.RemoveUselessHeaders | src/hls/file_clean.cc:70-87 | what is erased is what is scheduled |
| HlsTracers.Tracers.Agreed | src/hls/file_clean.cc:39-87 | after any such events both lists are equal and hold nothing scheduled for deletion |
| HlsTracers.Tracers.Tell | src/session/hls/play_session.cc:291-310 | one event told to both keeps them in step |
| Fmp4.WriteBalanced | 3rd/libmov/source/fmp4-writer.c:548-780 | whatever is inserted or dropped and whatever error is answered, a write keeps the mdat size equal to the bytes of all held samples exactly when its data is shorter than 2^32 |
| Fmp4.InsertSane | 3rd/libmov/source/fmp4-writer.c:729-749 | inserted silence counts like any other sample |
| Fmp4.DropBound | 3rd/libmov/source/fmp4-writer.c:756-768 | dropped samples are taken off again |
| Fmp4Layout.Run | 3rd/libmov/source/fmp4-writer.c:682-780 | every run of writes, repairs and saves stays balanced |
| Fmp4Layout.SampleAtOffset | 3rd/libmov/source/fmp4-writer.c:195-226 | every sample of every track is in the media data as its buffer holds it, at the offset it was given |
| Fmp4Layout.OffsetsFollow | 3rd/libmov/source/fmp4-writer.c:210-218 | offsets follow each other without gap or overlap, within a track and from track to track |
| Fmp4Layout.SaveBalanced | 3rd/libmov/source/fmp4-writer.c:312-444 | a save writes as many bytes as announced and leaves a balanced writer with nothing held |
| Fmp4Media.SavedIsGiven | 3rd/libmov/source/fmp4-writer.c:548-780 | after every run of writes, repairs and saves, the next save writes exactly the bytes given for the samples it holds, unless a sample stored after a drop was moved by a later growth of the buffer and found other bytes |
| Fmp4Media.DropFreeSaved | 3rd/libmov/source/fmp4-writer.c:548-780 | as long as no repair drops samples, what is saved is what was given |
| Fmp4Media.FrontSaved | 3rd/libmov/source/fmp4-writer.c:548-780 | four AAC frames on a fresh track, of which the second is two frames early and the fourth makes the buffer grow: whatever their bytes, the third is saved as the first bytes of the buffer |
| Fmp4Media.SavedIsNotGiven | 3rd/libmov/source/fmp4-writer.c:592-617 | a concrete run from the 256 KiB buffer that a track is added with: a frame of one byte, 3, is saved as 1, the byte of a dropped frame |
| Fmp4Media.WriteFollows | 3rd/libmov/source/fmp4-writer.c:682-780 | a write keeps the record of what was given, where it was stored and where it is read |
| Fmp4Media.WriteDropless | 3rd/libmov/source/fmp4-writer.c:708-769 | a write leaves nothing dropped behind exactly when nothing was given, or its time does not call for a drop: no AAC, less than two frames early, or 4096 frames and more |
| Fmp4Buffer.RelocatedIffPacked | 3rd/libmov/source/fmp4-writer.c:592-606 | growing a buffer leaves its samples where they are exactly when they lie back to back |
| Fmp4Buffer.PutAppends | 3rd/libmov/source/fmp4-writer.c:592-617 | a new sample leaves the bytes of the others alone unless the buffer grows while they do not |
| Fmp4Buffer.PutWhole | 3rd/libmov/source/fmp4-writer.c:592-617 | without drops they always do |
| Fmp4Buffer.PutAfterDrop | 3rd/libmov/source/fmp4-writer.c:592-617 | after a new sample all lie back to back exactly when nothing was dropped before it and the others did or were just found again; only then does the next growth leave them alone |
| Fmp4Buffer.GapFilled | 3rd/libmov/source/fmp4-writer.c:714-749 | a gap of two audio frames or more is filled to less than one; 4096 frames or more are refused |
| Fmp4Writer.PutSample | 3rd/libmov/source/fmp4-writer.c:548-621 | one sample: refused when empty, otherwise stored, the buffer grown if needed |
| Fmp4Writer.Relocate | 3rd/libmov/source/fmp4-writer.c:601-604 | the loop that finds samples again in a grown buffer |
| Fmp4Writer.InsertSilence | 3rd/libmov/source/fmp4-writer.c:736-746 | the insertion loop |
| Fmp4Writer.DropSamples | 3rd/libmov/source/fmp4-writer.c:762-767 | the drop loop |
| Fmp4Writer.Repair | 3rd/libmov/source/fmp4-writer.c:708-769 | the repair of an audio track after a sample |
| Fmp4Writer.WriterObject.Write | 3rd/libmov/source/fmp4-writer.c:682-780 | a write, in place, and the balance it keeps |
| Fmp4Writer.PlaceAll | 3rd/libmov/source/fmp4-writer.c:207-222 | the offset loops |
| Fmp4Writer.CopyMatching | 3rd/libmov/source/fmp4-writer.c:413-428 | the loop over one track stops where the offset does not match; on laid-out tracks it writes all samples |
| Fmp4Writer.Interleave | 3rd/libmov/source/fmp4-writer.c:409-431 | the interleave loop ends, and writes each sample once, in the order of the offsets |
| Fmp4Writer.WriterObject.SaveSegment | 3rd/libmov/source/fmp4-writer.c:312-444 | a save, in place |
| Fmp4Times.VideoWrite | 3rd/libmov/source/fmp4-writer.c:771-777 | a video write gives the sample before the new one the time between them as duration, or 0 if it is negative, and adds it to the total |
| Fmp4Times.RunTimeline | 3rd/libmov/source/fmp4-writer.c:682-780 | in every run of video writes and saves in time, the durations of all held samples but the last tile the decode times, and start and total lead to the last |
| Fmp4Times.ClosedTimes | 3rd/libmov/source/fmp4-writer.c:329-344 | a save gives the last video sample the time up to the next one, or the mean of the others, or a thirtieth of a second |
| Fmp4Times.SavedTimeline | 3rd/libmov/source/fmp4-writer.c:329-344 | so with the time of the next sample the saved durations tile up to it |
| Fmp4Times.AudioWrite | 3rd/libmov/source/fmp4-writer.c:704-769 | every held audio sample is one frame long, and the total stays as far ahead of the frames held as it was |
| Fmp4Times.PutTimes | 3rd/libmov/source/fmp4-writer.c:580-600 | times are converted to ticks, and no other sample changes |
| Fmp4Repairs.SavedTrack | 3rd/libmov/source/fmp4-writer.c:312-444 | a save leaves every track without samples, and audio goes on from the time where it was |
| Fmp4Repairs.WriteRefused | 3rd/libmov/source/fmp4-writer.c:685-691 | a track that does not exist and a sample without bytes are refused and change nothing |
| Fmp4Repairs.OneTrack | 3rd/libmov/source/fmp4-writer.c:682-780 | only the track written to changes; video is always taken |
| Fmp4Repairs.OnTimeKept | 3rd/libmov/source/fmp4-writer.c:715-754 | a frame less than two frames off is kept, as is one of another format than AAC |
| Fmp4Repairs.OverlapDropped | 3rd/libmov/source/fmp4-writer.c:752-768 | a frame two frames or more too early drops as many whole frames as it is early, itself first; 4096 or more are refused |
| Fmp4Repairs.InsertTimes | 3rd/libmov/source/fmp4-writer.c:736-746 | inserted samples are one frame long; their times are those of a gapless continuation, taken for milliseconds and converted once more |
| Fmp4Repairs.InsertedInPlace | 3rd/libmov/source/fmp4-writer.c:736-746 | so from tick 1000 on an inserted sample is where the gap is exactly when a tick is a millisecond |

## Left out

- Futures, sockets, cross-shard calls, timers, locks, logging and settings: every step of the session is atomic, and a delivery always succeeds.
- Frames are values: two frames with equal contents are the same frame, where the program compares pointers.
- The cache is cleared when a session begins (publish_session.cc, `on_begin`): a run begins with an empty one.
- Script frames: no code builds one, so a frame is audio, video or metadata.
- Durations are whole milliseconds where the program computes in floating point; byte counters do not wrap at 2^64.
- The getters of queues and cache that only return a field.
- AvcStore: does not model the profile, compatibility and level bytes that the first SPS sets (mpeg4-annexbtomp4.c:328-334).
- ExpGolomb.ReadUeBits: shifts by 32 and more or by -1, undefined in C, count as giving a low byte of zero.
- Mp4Converter.DetectFraming: does not cover input on which the four-byte trial never ends, because a length of 0 - 4 modulo 2^32 leaves its position unchanged; the specification calls such input undecided, and `AnnexB.UndecidedIff` says which it is.
- Mp4Framing.UnitsOrdinary: the same input, for which there are no units.
- Mp4Converter.AnnexBToMp4: the same input.
- Mp4Converter.Mp4ToAnnexB: the same input as the rest of the data, with the length sizes 0 and 3.
- AvcRecordCodec.Save: does not say how far the record was written when it answers -1, only that nothing behind the room given changes.
- HevcRecordCodec.SaveRecord: does not say how far the record was written when it answers 0, only that nothing behind the room given changes.
- HevcStore.Store.CopySet: the fields that decoding an id updates are not modelled; the byte that decoding can write behind the arena is padding in the program's structure, and two locals that are compared before they are set, when decoding gives up, are parameters.
- HevcMaps.UpdateRefinesMap: between 17 and 256 free bytes, whether an id is read in full depends on the sets themselves, and nothing is claimed; nor for sets that are too short to hold their ids, which are compared by what those locals hold.
- HevcMaps.CopiedTwice: the same.
- h265_annexbtomp4 and h265_mp4toannexb: the same splitting and prefixing as for H.264.
- FlvMux.StreamParsesBack: audio is AAC or Opus, and video of the three formats with packet types; `FlvPlain.PlainStreamParses` adds the others.
- flv_parser_tag: a one-shot form of the dispatch that the parser object has.
- Callbacks are a list of events and an answer that may depend on all of them; the handler cannot change the parser.
- Assertions that vanish outside debug builds.
- AMF dates are read but not written: writer and reader place the time zone at different offsets (amf0.c:149-157 and 280-291).
- Amf0Reader: items are values given back rather than written through pointers, and a place fits the type of its item; eight-byte numbers are opaque.
- mpeg4_bits_read_uvlc and mpeg4_bits_read_latm: the first does not end without a one bit ahead.
- BitStream.Stream.ReadUe: codes with 32 zeros or more, for which the program shifts too far, which C leaves undefined.
- BitStream.Stream.ReadSe: the same codes, since it reads one.
- bitstream_set_offset, read_me and read_te: the first can leave the cursor on a byte it would have stepped over.
- URLs outside the query: scheme, authority, path, fragment, and the length limit.
- HLS: the text of the playlist, writing and deleting files, and the choice of the fragments to remove; items are known by identity.
- Fmp4Writer.WriterObject.SaveSegment: boxes around the media data; `mov-internal.h` is not part of this model. Encryption, user data, changes of tracks, and failed allocations.
- Fmp4: the duration of a new sample starts at zero, where the program leaves what the slot held before it is set.
