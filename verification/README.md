# wired: verified models

Dafny models of the parts of the wired MoQT relay whose correctness is hardest
to see from the code: the FETCH object cache, the reliable relay ring, the fetch
and subgroup stream codecs, control-stream reassembly, the Request ID window,
Message Parameters, %f printing, DATAGRAM sizing and the shard packer of the
unity build. Operations that work in place are methods over arrays and fields,
each proved against a function on values; the laws are lemmas about those
functions, most of them over every input or every run.

`dafny verify dfyconfig.toml` checks everything.

## Parts

- Cache. `CacheRecord` lays records out in bytes, `CacheSpec` and `CacheLookup`
  say what each operation does to the sequence of records, `CacheArena` is the
  byte arena with its resume hint and expiry bound. `CacheRuns` proves the
  whole-group invariant over runs, `CacheAdmit` exactly which Objects are held,
  which group makes way for one and which expire, `CacheWalk` and `CacheOrder`
  that a FETCH walk agrees with the history of appends, `CacheDescend` the same of
  a FETCH in Descending group order, `CacheFetch` the relay's gap search and the two
  runs on which expiry breaks that agreement.
- Ring. `RelayRing` holds the ring, its cursors and marks, and what every
  interleaving accepts and delivers; `RelayAges` says in which runs its eight marks
  tell ages exactly.
- Streams. `Varint` is the MoQT integer. `FetchCodec`, `FetchProofs`,
  `FetchStream` and `FetchServe` are the fetch stream, up to the stream a cache
  walk is served as. `Subgroup`, `SubgroupStream` and `SubgroupBlob` are the
  subgroup stream and the blob builder. `FetchWire` and `SubgroupWire` say where
  each field lies on the wire and what it stands for.
- Control. `ControlFraming` is framing, `ControlEnvelope` how a message is written
  and that it is read back from a stream of them, `ControlEvents` says what a
  control stream comes to when some messages are too long to hold, `ControlAsm` is
  one stream's reassembly and `ControlHub` the hub whose streams share two pool buffers, up to
  deliveries to many streams in any order. `RequestIds` is the window of used IDs;
  `ParamWire`, `Params`, `ParamProofs`, `ParamRoundTrip` and `ParamBuffer` are the
  Message Parameters. `ParamBytes` says which lists are legal and what their bytes
  are, `ParamScopes` what holds of the messages they may come with.
- Arithmetic. `Decimal` is %f, `QuicVarint` and `Datagram` the DATAGRAM frame,
  `ShardPack`, `ShardGroups` and `Shards` the packer.

## What the code does not promise

- A group that expires is tombstoned at the end of the arena, behind newer
  groups of its track (`src/app/moqt/cache/moqcache.c:104-108`). A walk can then
  pass a group that was appended as if it did not exist. `ExpiryHidesGroup` and
  `ExpiryLeavesHole` are two such runs; `SkipsOnlyAbsentIff` and `EveryRunReads`
  say exactly when a walk is sound, and `CalmRunAnswers` that it always is while
  nothing expires.
- Before draft-23 a fetch stream may repeat a Location (`Draft22CanRepeat`);
  from draft-23 on only an end marker can be repeated (`Draft23Order`,
  `EndCanRepeat`).
- `src/app/moqt/run/moqtrun_types.h:632-635` says a pool buffer is given back once
  the unread bytes fit inline. The code keeps it while more than 18 bytes are
  unread (`Unlease`), so a stream can hold one for a short message.
- `src/common/fmt/fmt.h:26` promises half to even. With `#` and precision 0 the last
  character is the point, which the test takes for an even digit, so a tie above
  an odd integer goes down (`EmitDec`, `HashRoundsDown`).
- A subgroup header's type is documented as one byte, but types above 0xFF pass
  by their low byte (`TypeLowByte`).
- A location filter of one client's own type is re-encoded as the type it was
  taken to mean, so its bytes differ while its meaning does not (`QuirkPut`).

## Model

| member | source | states |
|---|---|---|
| `CacheLayout.HeaderRoundTrip` | src/app/moqt/cache/moqcache.c:19-23 | the 40 header bytes of a record, five little-endian 64-bit fields, read back as the header that was written |
| `CacheLayout.TilesAppend` | src/app/moqt/cache/moqcache.c:55-59 | bytes that parse as one more record behind a tiled arena leave the arena tiled by the records and that one |
| `CacheArena.Cache.constructor` | src/app/moqt/cache/moqcache.c:8-17 | an arena starts with no records and nothing to expire |
| `CacheArena.Cache.RecAt` | src/app/moqt/cache/moqcache.c:19-29 | the header read at the offset of record i is record i's, and its size leads to the offset of the next |
| `ByteBuffer.MoveDown` | src/app/moqt/cache/moqcache.c:37-50 | bytes slid towards the front arrive as they were although source and target may overlap, and nothing outside changes |
| `CacheArena.Cache.Compact` | src/app/moqt/cache/moqcache.c:37-50 | in-place compaction leaves the arena tiled by exactly the records that do not match, in order |
| `CacheArena.Cache.DropRecs` | src/app/moqt/cache/moqcache.c:37-50 | the arena holds the old records filtered; the resume hint and the earliest-expiry bound stay true |
| `CacheArena.Cache.Release` | src/app/moqt/cache/moqcache.c:52-52 | every record of the track is gone and every other is where it was in order |
| `CacheArena.Cache.CopyHeader` | src/app/moqt/cache/moqcache.c:55-59 | the bytes written for a header decode to it and earlier bytes are untouched |
| `CacheArena.Cache.Write` | src/app/moqt/cache/moqcache.c:55-59 | the arena holds the old records and the new one behind them |
| `CacheArena.Cache.StaysOpen` | src/app/moqt/cache/moqcache.c:61-82 | a scan of the arena answers whether the group is its track's newest and no later group is arriving |
| `CacheArena.Cache.FirstVictim` | src/app/moqt/cache/moqcache.c:87-100 | the offset of the first record that may be evicted, or the end when there is none |
| `CacheArena.Cache.EntombGroup` | src/app/moqt/cache/moqcache.c:104-108 | the group's records are replaced by one tombstone at the end of the arena, which always fits |
| `CacheArena.Cache.EvictOne` | src/app/moqt/cache/moqcache_evict.c:16-28 | one whole group leaves, the one EvictOneTakes names; false exactly when no record may be evicted |
| `CacheArena.Cache.MakeRoom` | src/app/moqt/cache/moqcache_evict.c:31-34 | the eviction loop ends with the records the specification's eviction gives |
| `CacheArena.Cache.Put` | src/app/moqt/cache/moqcache_evict.c:38-49 | a record that can fit is stored behind what eviction left; otherwise it is not stored and the verdict says so |
| `CacheArena.Cache.GroupBytes` | src/app/moqt/cache/moqcache_evict.c:52-65 | the bytes the group's own records take and whether it is tombstoned |
| `CacheArena.Cache.Kill` | src/app/moqt/cache/moqcache_evict.c:70-74 | the group is dropped and, if room can be made, a tombstone stands for it |
| `CacheArena.Cache.Store` | src/app/moqt/cache/moqcache_evict.c:76-85 | an Object too large alone or with its group is refused before anything is evicted; any other is put behind what making room leaves, or refused if that is not enough |
| `CacheArena.Cache.Append` | src/app/moqt/cache/moqcache_evict.c:87-100 | the arena holds what the specification of appending gives, which is pinned by AppendFits, HeldIff and EvictOneTakes; every representation invariant holds |
| `CacheArena.Cache.ExpiredAt` | src/app/moqt/cache/moqcache_expire.c:7-18 | the first record whose time has come, or the end |
| `CacheArena.Cache.MinExp` | src/app/moqt/cache/moqcache_expire.c:20-27 | the greatest bound that no record expires before |
| `CacheArena.Cache.Expire` | src/app/moqt/cache/moqcache_expire.c:32-43 | the early exit on the kept bound changes nothing: the result is always that of tombstoning every group with an expired record |
| `CacheArena.Cache.Scan` | src/app/moqt/cache/moqcache_rec.c:24-35 | the first record of the track at or after the Location, from a given record on |
| `CacheArena.Cache.Resume` | src/app/moqt/cache/moqcache_rec.c:39-53 | moving the hint to where a scan ended keeps it a place every later scan may start from |
| `CacheArena.Cache.Find` | src/app/moqt/cache/moqcache_rec.c:45-53 | with the hint and the expiry shortcut the answer is that of a scan from offset 0 on the arena after every expired group was tombstoned |
| `CacheArena.Cache.Covered` | src/app/moqt/cache/moqcache_rec.c:58-61 | whether the track's first record is at or before the Location's group |
| `CacheArena.Cache.Skip` | src/app/moqt/cache/moqcache_rec.c:63-82 | the Location a walk continues from, on the expired arena |
| `CacheArena.Cache.UnknownStop` | src/app/moqt/cache/moqcache_rec.c:92-104 | where an unknown range ends: the specification's stop, which UnknownIsWide shows to be as far as the records allow |
| `CacheArena.Cache.ItemAt` | src/app/moqt/cache/moqcache_item.c:3-17 | one answer item on the expired arena: the Object with its payload bytes, or an unknown range as wide as UnknownIsWide says |
| `CacheSpec.EvictOneLowers` | src/app/moqt/cache/moqcache_evict.c:16-36 | each eviction lowers the count of records (live ones counting double) and never raises the bytes used, so the loop ends |
| `CacheSpec.EntombLowers` | src/app/moqt/cache/moqcache_expire.c:32-43 | each tombstoned expired group lowers the same measure, so expiry ends, and a tombstone never needs more room than it frees |
| `CacheSpec.NothingExpires` | src/app/moqt/cache/moqcache_expire.c:32-36 | before the kept bound, expiry is the identity |
| `CacheSpec.ScanResumes` | src/app/moqt/cache/moqcache_rec.c:39-53 | a scan started at any place before which nothing matched gives the scan from offset 0 |
| `CacheRuns.EvictsFewest` | src/app/moqt/cache/moqcache_evict.c:31-34 | making room is some number of single evictions, and with any fewer the Object would not have fit |
| `CacheRuns.MakeRoomKeeps` | src/app/moqt/cache/moqcache_evict.c:16-36 | eviction never splits a group, never touches the arriving group, keeps other tracks' newest groups present, and ends with room or with nothing left to evict |
| `CacheRuns.TombstoneFits` | src/app/moqt/cache/moqcache.h:16-33 | when nothing more can be evicted only the other tracks' tombstones are left, one header each |
| `CacheRuns.KillWrites` | src/app/moqt/cache/moqcache_evict.c:70-74 | in an arena of (open tracks + 1) headers the tombstone of a killed group always finds room |
| `CacheRuns.AppendKeeps` | src/app/moqt/cache/moqcache_evict.c:87-100 | an append keeps: every group whole or absent or tombstoned, every track's newest group present, bytes within the arena |
| `CacheRuns.ExpireKeeps` | src/app/moqt/cache/moqcache_expire.c:32-43 | expiry keeps the same invariant |
| `CacheRuns.ExpireLeavesNone` | src/app/moqt/cache/moqcache_expire.c:12-43 | after expiry no record is expired |
| `CacheRuns.ReleaseKeeps` | src/app/moqt/cache/moqcache.c:52-52 | releasing a track keeps the same invariant for the others |
| `CacheRuns.EveryRun` | src/app/moqt/cache/moqcache_evict.c:16-100 | after every run of arrivals, releases and lookups over any tracks: bytes fit, every group is held whole, tombstoned or not at all, and the newest group of a track is never just absent |
| `CacheFetch.ExpireIdempotent` | src/app/moqt/cache/moqcache_expire.c:32-43 | a second expiry at the same time changes nothing, so a walk sees one arena |
| `CacheAdmit.AppendFits` | src/app/moqt/cache/moqcache_evict.c:38-100 | an Object of a group without a tombstone, of at most 65472 bytes, that fits the free bytes is written behind all records, whatever its group already holds |
| `CacheAdmit.EvictOneTakes` | src/app/moqt/cache/moqcache_evict.c:13-28 | the first record that is neither of the arriving group nor a tombstone of a group that may still grow gives up its whole group: to a tombstone if that group may grow, entirely if not; every other group keeps its records; nothing goes exactly when there is no such record |
| `CacheAdmit.RoomIff` | src/app/moqt/cache/moqcache_evict.c:31-49 | making room succeeds if and only if the group with the Object fits beside one header for each other track |
| `CacheAdmit.HeldIff` | src/app/moqt/cache/moqcache_evict.c:76-100 | after every append in a reachable state the Object is held if and only if its group had no tombstone, its payload is at most 65472 bytes, and the group with it fits beside 40 bytes for each other track |
| `CacheAdmit.ExpireTakes` | src/app/moqt/cache/moqcache_expire.c:7-43 | expiry takes exactly the groups holding an Object whose time is at or before now, whole, and leaves a tombstone of each |
| `CacheAdmit.ReleaseTakes` | src/app/moqt/cache/moqcache.c:52-52 | a release takes exactly the track's records; every other group keeps its own in order |
| `CacheAdmit.RoomyHoldsAll` | src/app/moqt/cache/moqcache_evict.c:87-100 | over every run in which what was appended and not released fits the arena and nothing expires, the cache holds exactly all of it |
| `CacheWalk.SkipsOnlyAbsentIff` | src/app/moqt/cache/moqcache_rec.c:58-82 | skipping passes only Locations that were never appended if and only if every appended group that is not older than the track's first record still has a record with only older groups of the track before it |
| `CacheWalk.ItemAdvancesIff` | src/app/moqt/cache/moqcache_rec.c:84-104 | an item moves the walk forward and never past the end, except exactly at Object ID 2^64-1 on a held Object or a tombstone of the last group |
| `CacheWalk.SkipAdvances` | src/app/moqt/cache/moqcache_rec.c:69-82 | skipping neither goes back nor passes the end |
| `CacheWalk.WalkFollows` | src/app/moqt/cache/moqcache_item.c:3-17 | the items of a walk are disjoint, in order and inside the request, so the walk ends |
| `CacheWalk.WalkTells` | src/app/moqt/cache/moqcache_item.c:3-17 | an Object item is a held record at its own Location with its payload; an unknown item holds no Object, names the Location just before its end, and reaches as far as the arena allows |
| `CacheWalk.UnknownIsWide` | src/app/moqt/cache/moqcache_rec.c:84-104 | an unknown item ends at the request's end when no record of the track is at or after it, else at the first such record's Group (the next one for a tombstone), cut to the request; it names the Location just before its end |
| `CacheWalk.WalkAnswers` | src/app/moqt/cache/moqcache_item.c:3-17 | every appended Location in the request lies in exactly one item: the Object itself while held, an unknown range once not |
| `CacheWalk.FindableIff` | src/app/moqt/cache/moqcache_rec.c:43-53 | a lookup of a group's start finds the group exactly where a record of it is held with only older groups of the track before it |
| `CacheOrder.VictimIsOldest` | src/app/moqt/cache/moqcache.c:87-100 | with per-track order in the arena the first victim is its track's oldest group |
| `CacheOrder.RunOrder` | src/app/moqt/cache/moqcache_evict.c:16-100 | Locations that arrive ascending stay ascending in the arena through every run; without expiry no gap opens between the oldest held group and the newest |
| `CacheOrder.EveryRunReads` | src/app/moqt/cache/moqcache_rec.c:58-104 | after every run with ascending Locations, expiry included, skipping is sound exactly under the condition above |
| `CacheOrder.EveryRunTells` | src/app/moqt/cache/moqcache_item.c:3-17 | after every run with ascending Locations, expiry included, each item of every walk is a held Object or an unknown range as wide as the arena allows |
| `CacheOrder.CalmRunAnswers` | src/app/moqt/cache/moqcache_rec.c:58-104 | after every run in which nothing expires, walking from any start to any end answers every appended Location exactly once and correctly, and with unknown ranges as wide as the arena allows |
| `CacheDescend.Settle` | src/app/moqt/run/moqtrun_fwin.c:57-95 | the next cursor of a Descending FETCH, in its window or in the next lower Group with something to serve, skips nothing that is to be served |
| `CacheDescend.ServeDown` | src/app/moqt/run/moqtrun_fetch_start.c:120-145 | the window loop sends exactly the walks of the range's Groups, top Group first |
| `CacheDescend.DownFollows` | src/app/moqt/run/moqtrun_fwin.c:66-80 | the items of a Descending FETCH lie inside the range, each inside one Group, Groups falling and disjoint in order inside a Group |
| `CacheDescend.DownAnswers` | src/app/moqt/run/moqtrun_fwin.c:66-95 | every appended Location in the range lies in exactly one item of a Descending FETCH: the Object itself while held, an unknown range once not |
| `CacheDescend.DownTells` | src/app/moqt/run/moqtrun_fwin.c:66-95 | each item of a Descending FETCH is a held Object or an unknown range as wide as the arena and its Group's window allow |
| `CacheDescend.CalmRunAnswersDown` | src/app/moqt/run/moqtrun_fwin.c:66-95 | after every run in which nothing expires, a Descending FETCH over any range answers every appended Location exactly once and correctly |
| `CacheFetch.LastGap` | src/app/moqt/run/moqtrun_upf_io.c:22-38 | the relay's loop over skip and item ends and returns the last unknown range of the walk, none exactly when it has none |
| `CacheFetch.ExpiryHidesGroup` | src/app/moqt/cache/moqcache.c:104-108 | three appended groups of which the middle one expires: skipping passes the expired group as if it had never existed |
| `CacheFetch.ExpiryLeavesHole` | src/app/moqt/cache/moqcache.c:104-108 | an older group expires, a newer one is evicted in its place: skipping passes the evicted group |
| `RelayBuffer.Buffer.constructor` | src/app/moqt/run/moqtrel.c:38-38 | a reset ring is empty with no cursor active |
| `RelayBuffer.Buffer.CopyIn` | src/app/moqt/run/moqtrel.c:30-36 | the two copies around the wrap put byte k at (tail + k) mod the capacity and touch nothing else |
| `RelayBuffer.Buffer.Append` | src/app/moqt/run/moqtrel.c:40-46 | all of the bytes are stored if and only if they and those held are at most 147456, else none |
| `RelayBuffer.Buffer.NextRound` | src/app/moqt/run/moqtrel.c:48-54 | the stretch handed to a cursor: at most a round, up to the tail or the wrap |
| `RelayBuffer.Buffer.NoteSent` | src/app/moqt/run/moqtrel.c:56-59 | this cursor moves on by n and notes the time; no other cursor changes |
| `RelayBuffer.Buffer.NoteMark` | src/app/moqt/run/moqtrel.c:62-74 | a new mark, or the newest extended when it is of the same time or the marks are full |
| `RelayBuffer.Buffer.AgeMs` | src/app/moqt/run/moqtrel.c:76-84 | the age by the first mark ending past the cursor |
| `RelayBuffer.Buffer.TrimMarks` | src/app/moqt/run/moqtrel.c:87-102 | exactly the marks that end at or before the head go, the rest slide down in order |
| `RelayBuffer.Buffer.Reclaim` | src/app/moqt/run/moqtrel.c:104-113 | the head moves to the slowest pinning cursor, or the tail when there is none |
| `RelayRuns.AppendStores` | src/app/moqt/run/moqtrel.c:30-46 | after an append every offset between head and tail still finds its stream byte at its place in the ring |
| `RelayRuns.RoundIsStream` | src/app/moqt/run/moqtrel.c:48-54 | a round is the stream from the cursor on, and is empty only at the tail |
| `RelayRuns.HeadAdvances` | src/app/moqt/run/moqtrel.c:104-113 | reclaiming never moves the head back |
| `RelayRuns.StepKeeps` | src/app/moqt/run/moqtrel.c:30-113 | every arrival, accepted round, activation, shedding and reclaim keeps: ring contents, every pinning cursor's delivered stretch, and the marks' account of arrival times |
| `RelayRuns.EveryRunDelivers` | src/app/moqt/run/moqtrel.c:30-113 | in every interleaving the bytes handed to an unshed cursor are exactly the contiguous stretch of the publisher's stream from its starting offset, and the next round continues it |
| `RelayRuns.RoundIsLong` | src/app/moqt/run/moqtrel.c:48-54 | a round ends only at 16384 bytes, at the tail or at a multiple of 147456 |
| `RelayRuns.ArriveTakes` | src/app/moqt/run/moqtrel.c:40-46 | in every reachable state what arrives joins the stream whole if and only if it and the bytes held are at most 147456, else the ring is unchanged |
| `RelayRuns.ReclaimFrees` | src/app/moqt/run/moqtrel.c:104-113 | after a reclaim the head is at the slowest live cursor or at the tail; with every live cursor caught up any arrival of at most 147456 bytes is then accepted |
| `RelayRuns.AgeTells` | src/app/moqt/run/moqtrel.c:76-102 | the reported age of the next unsent byte is never less than its true age, is exact while no mark was merged by overflow, and is 0 with nothing unsent |
| `RelayAges.MarksAreTimes` | src/app/moqt/run/moqtrel.c:62-102 | while ages are exact the marks tell the arrival times of the bytes held, each once and no other |
| `RelayAges.UnsharedIff` | src/app/moqt/run/moqtrun_rel.c:50-61 | over every run, empty arrivals passed over as the caller does, no mark is shared for want of room if and only if whenever bytes are taken those held came at fewer than eight other times |
| `RelayAges.AiryRunTells` | src/app/moqt/run/moqtrel.h:151-164 | in every such run the age reported for a live cursor's next byte is its true age |
| `Varint.RoundTrip` | src/app/moqt/vi/moqvi.c:11-88 | taking where a value was put gives the value and the end of its bytes, for every 64-bit value |
| `Varint.TakeStable` | src/app/moqt/vi/moqvi.c:37-79 | bytes after a complete value do not change it |
| `Varint.HdrLenRange` | src/app/moqt/vi/moqvi.c:37-44 | the leading 1 bits of the first byte give a length of 1 to 9 |
| `Varint.LenIff` | src/app/moqt/vi/moqvi.c:11-35 | a value takes at most n bytes if and only if it is below 2^(7n), n up to 8 |
| `Varint.EncodeIs` | src/app/moqt/vi/moqvi.c:11-35 | the bytes themselves: one below 128, two with a leading 128, three with 192, nine with 255 from 2^56 on, most significant first |
| `FetchProofs.ItemRoundTrip` | src/app/moqt/fetch/moqfetch_put.c:132-166 | an Object or marker whose flags agree with the running state is encoded and decodes to itself, both group orders, draft-22 and draft-23 arithmetic |
| `FetchProofs.TakeAgrees` | src/app/moqt/fetch/moqfetch_obj.c:124-179 | whatever decodes agrees with the running state, so can be encoded again |
| `FetchProofs.ItemStable` | src/app/moqt/fetch/moqfetch_obj.c:140-174 | a success or a violation on a prefix is the same on every extension |
| `FetchStream.RoundTripIff` | src/app/moqt/fetch/moqfetch_put.c:132-166 | one item survives encoding and decoding if and only if its flags and fields agree with the running state |
| `FetchStream.StreamRoundTrip` | src/app/moqt/fetch/moqfetch_put.c:132-166 | any agreeing list of Objects and markers decodes to the same list and leaves encoder and decoder state equal |
| `FetchStream.DecodedAgrees` | src/app/moqt/fetch/moqfetch_obj.c:124-179 | everything decoded from any bytes is an agreeing list |
| `FetchStream.ChunksAgree` | src/app/moqt/fetch/moqfetch_obj.c:159-174 | resuming where a prefix ran out is as if it had never stopped |
| `FetchStream.AnyChunksAgree` | src/app/moqt/fetch/moqfetch_obj.c:159-174 | however a stream is cut into deliveries the items, the state and the verdict are those of the whole |
| `FetchStream.Draft23Order` | src/app/moqt/fetch/moqfetch_take.c:85-116 | on a draft-23 stream, for every byte string, the accepted Objects and ranges never repeat a Location: they ascend, or the Group falls under Descending, and after an end marker nothing of its Group decodes but further end markers |
| `FetchStream.EndCanRepeat` | src/app/moqt/fetch/moqfetch_obj.c:50-67 | a second end marker of the same Group is sent and decoded, in every draft-23 state with a Location |
| `FetchStream.Draft22CanRepeat` | src/app/moqt/fetch/moqfetch_take.c:93-116 | before draft-23 an Object with a zero delta repeats its Location and is accepted |
| `FetchBuffer.RunSteps` | src/app/moqt/fetch/moqfetch_obj.c:124-138 | the step loop decodes what the specification's steps decode |
| `FetchBuffer.TakeOne` | src/app/moqt/fetch/moqfetch_obj.c:140-179 | anything but success leaves the cursor and the state as they were |
| `FetchBuffer.PutFields` | src/app/moqt/fetch/moqfetch_put.c:132-144 | the put loop writes exactly the fields' bytes, or reports that they do not fit |
| `FetchBuffer.PutRest` | src/app/moqt/fetch/moqfetch_put_eor.c:30-45 | the bytes of an item after its flags, for Objects, ranges and marks |
| `FetchBuffer.PutOne` | src/app/moqt/fetch/moqfetch_put.c:146-166 | an item is written whole and the state advanced, or the state is unchanged; succeeds exactly when it is encodable and fits |
| `FetchProofs.RangeRoundTrip` | src/app/moqt/fetch/moqfetch_eor.c:15-59 | an End of Range resolves to the Location it was encoded from, absolute or relative |
| `FetchProofs.ObjectResolves` | src/app/moqt/fetch/moqfetch_put_eor.c:61-78 | the Object ID Delta written resolves to the Object ID |
| `FetchProofs.GroupResolves` | src/app/moqt/fetch/moqfetch_ok.c:114-145 | the Group ID Delta written resolves to the Group, up or down |
| `FetchWire.SaysIff` | src/app/moqt/fetch/moqfetch_take.c:30-146 | which Objects agree with the running state, flag bit by flag bit and field by field |
| `FetchWire.PutIsBytes` | src/app/moqt/fetch/moqfetch_put.c:32-144 | an Object's bytes are its flags and, in this order, Group delta, Subgroup, Object delta, priority, properties and payload, each only where its flag says so |
| `FetchWire.ObjectReads` | src/app/moqt/fetch/moqfetch_obj.c:124-179 | an Object is read from exactly those bytes, in both orders and drafts |
| `FetchWire.RangeReads` | src/app/moqt/fetch/moqfetch_eor.c:15-59 | an End of Range of 0x8C, 0x10C, 0x20C or 0x40C, where its draft has it, is read from its two fields, absolute or counted from the prior Location |
| `FetchWire.MarkerReads` | src/app/moqt/fetch/moqfetch_obj.c:56-104 | a bare 0x80 or 0x81 ends the prior Group from draft-23 on, and no other flags from 0x80 on are accepted |
| `FetchWire.LeavesState` | src/app/moqt/fetch/moqfetch_obj.c:35-54 | what each kind of item leaves for the next to be counted from |
| `FetchWire.FirstRefused` | src/app/moqt/fetch/moqfetch_ok.c:146-156 | a first Object without Group and Object is refused |
| `FetchWire.GroupRefused` | src/app/moqt/fetch/moqfetch_ok.c:113-144 | a Group delta that leads past 2^64-1, or below 0, is refused as an overflow |
| `FetchWire.NeverStuck` | src/app/moqt/fetch/moqfetch_obj.c:140-174 | whatever the bytes, once there are enough of them an item is read or refused: a decoder never waits for ever |
| `FetchServe.ItemOfAgrees` | src/app/moqt/run/moqtrun_fwin.c:40-55 | a cache item turned into a fetch Object agrees with the running state of a stream in either group order, so is encodable |
| `FetchServe.WalkDescends` | src/app/moqt/run/moqtrun_fetch_start.c:120-145 | the items of a Descending FETCH come with Groups falling and Objects rising inside a Group |
| `FetchServe.ServedStreamDecodes` | src/app/moqt/run/moqtrun_fwin.c:40-117 | the stream written for a whole cache walk, ascending or Descending, decodes to the same Locations, payloads (in Subgroup 0 at priority 128) and unknown ranges in the same order |
| `ControlFraming.HeaderBound` | src/app/moqt/ctl/moqctl_type.c:89-106 | a header is complete within 18 bytes |
| `ControlFraming.FirstStable` | src/app/moqt/ctl/moqctl_type.c:89-127 | bytes after a complete message do not change it |
| `ControlFraming.FramesSplit` | src/app/moqt/run/moqtrun_asm.c:19-28 | framing a stream in two parts gives the framing of the whole |
| `ControlFraming.AnySplitFrames` | src/app/moqt/run/moqtrun_asm.c:130-164 | however a stream is split, framing each part behind the tail of the one before gives the framing of the whole |
| `ControlEnvelope.EnvelopeReads` | src/app/moqt/ctl/moqctl_type.c:88-127 | for every type, body and rest, Type, Length (two bytes, high one first, or a varint from draft-23) and body are read as that message, whatever follows |
| `ControlEnvelope.SentFrames` | src/app/moqt/ctl/moqctl_type.c:88-127 | any list of messages so written and joined is framed into that list with nothing left |
| `ControlEnvelope.SentThrough` | src/app/moqt/run/moqtrun_asm.c:19-61 | each message of such a stream is handed on, or passed over if its body is over 65535 bytes or it does not fit the room, and takes no byte of the next with it |
| `ControlEnvelope.PutLen` | src/app/moqt/run/moqtrun_ctl.c:24-36 | the Length is written into the room kept for it and the body moved down to meet it, byte for byte |
| `ControlEnvelope.PutEnvelope` | src/app/moqt/run/moqtrun_ctl.c:18-71 | a message is written if and only if its body is at most 65535 bytes and it fits with the room kept for its Length, as exactly the envelope EnvelopeReads reads |
| `ControlEvents.ReassembleSplit` | src/app/moqt/run/moqtrun_asm.c:77-87 | stopping a stream after any byte and resuming with the bytes held and owed comes to what the whole comes to, messages handed on and passed over alike |
| `ControlEvents.ResumeJoin` | src/app/moqt/run/moqtrun_asm.c:156-164 | two deliveries one after the other come to what they come to joined, from any state |
| `ControlEvents.NoneSkippedIff` | src/app/moqt/run/moqtrun_asm.c:108-127 | a stream loses no message if and only if the Length of each is within the protocol's limit and the message within the room there is; its messages are then its framing and nothing is owed |
| `ControlEvents.SixteenBitsFit` | src/app/moqt/run/moqtrun_asm.c:63-72 | with 16-bit Lengths and a pool buffer to be had no stream ever loses a message |
| `ControlEvents.RestIsQuiet` | src/app/moqt/run/moqtrun_asm.c:97-127 | what a stream leaves held is no complete message, and nothing is held while bytes are owed |
| `ControlEvents.SizedSame` | src/app/moqt/run/moqtrun_asm.c:31-37 | a stream whose messages fit the inline buffer comes to the same with and without a pool buffer |
| `ControlSteps.RefusedOwes` | src/app/moqt/run/moqtrun_asm.c:41-45 | a message passed over always has bytes still to come, so none after it is held back |
| `ControlAsm.Asm.Compact` | src/app/moqt/run/moqtrun_asm_pool.c:30-35 | the unread bytes move to the front of the given buffer, which may be their own |
| `ControlAsm.Asm.Unlease` | src/app/moqt/run/moqtrun_asm_pool.c:43-49 | the pool buffer is given back if and only if no more than 18 bytes are unread, and the unread bytes stay |
| `ControlAsm.Asm.Push` | src/app/moqt/run/moqtrun_asm.c:77-87 | exactly the bytes owed by a skipped message are dropped and as many of the others as fit follow the unread ones; at least one byte goes unless the buffer is full |
| `ControlHub.Hub.constructor` | src/app/moqt/run/moqtrun_asm_pool.c:51-54 | a hub starts valid, with two pool buffers apart, both free, and no streams |
| `ControlHub.Hub.Open` | src/app/moqt/run/moqtrun_asm_pool.c:10-16 | a new stream holds nothing and shares no memory; the hub stays valid and the others are untouched |
| `ControlHub.Hub.Reset` | src/app/moqt/run/moqtrun_asm_pool.c:10-16 | a stream emptied while it holds a pool buffer leaves that buffer free, the hub valid and the others untouched |
| `ControlHub.Hub.NoSharing` | src/app/moqt/run/moqtrun_asm_pool.c:51-67 | no two reassemblies ever hold the same memory, pooled or inline |
| `ControlHub.Hub.FreeIff` | src/app/moqt/run/moqtrun_asm_pool.c:51-54 | a pool buffer is free to a stream without one if and only if fewer than two other streams hold one; a stream that holds one is never shut out |
| `ControlHub.Hub.RoomForEach` | src/app/moqt/run/moqtrun_types.h:632-641 | while only two streams use the pool each of them can be given a buffer |
| `ControlHub.Hub.Lease` | src/app/moqt/run/moqtrun_asm_pool.c:56-67 | a buffer is leased if and only if one was free, and the unread bytes go with it; other reassemblies keep theirs |
| `ControlHub.Hub.Push` | src/app/moqt/run/moqtrun_asm.c:77-94 | a push into one reassembly leaves every other one's bytes |
| `ControlHub.Hub.SkipHead` | src/app/moqt/run/moqtrun_asm.c:41-45 | the message at the head is passed over: its held bytes are gone and exactly the rest of it is owed |
| `ControlHub.Hub.Fit` | src/app/moqt/run/moqtrun_asm.c:19-61 | the message at the head is passed over, with its reason, if and only if its Length is over 65535 or it does not fit and no pool buffer was free; else it has room and no byte changed |
| `ControlHub.Hub.Pop` | src/app/moqt/run/moqtrun_asm.c:97-127 | a refused message is passed over whole with its reason, else a complete one is handed on, else nothing changes: each exactly then |
| `ControlHub.Hub.Drain` | src/app/moqt/run/moqtrun_asm.c:130-139 | a drain yields exactly the events, the rest and the debt the unread bytes come to |
| `ControlHub.Hub.Round` | src/app/moqt/run/moqtrun_asm.c:156-164 | one round consumes at least one byte and yields exactly what the bytes it consumed come to |
| `ControlHub.Hub.Dispatch` | src/app/moqt/run/moqtrun_asm.c:156-164 | a delivery comes to exactly what the kept bytes, the debt and the delivery come to as one stream, given the room the other streams leave; the loop ends; other reassemblies are untouched |
| `ControlHub.Hub.DispatchEach` | src/app/moqt/run/moqtrun_asm.c:156-164 | however a control stream is split into deliveries the same holds of the whole: nothing is passed over if and only if every Length is at most 65535 and, while two other streams hold pool buffers, every message fits inline; the messages are then the stream's framing |
| `ControlHub.Hub.DispatchMessages` | src/app/moqt/run/moqtrun_asm.c:156-164 | a stream of written messages, split into deliveries anyhow, comes to exactly its messages in order: each handed on, but for those over 65535 bytes and, with both pool buffers in other hands, those past the inline buffer |
| `ControlHub.Hub.Serve` | src/app/moqt/run/moqtrun_types.h:632-641 | deliveries to any number of streams in any order: while at most two of them carry messages past the inline buffer, each stream comes to what it comes to alone, so only a Length over 65535 loses a message |
| `RequestIds.CheckTracks` | src/app/moqt/run/moqtrun_rid_win.c:15-58 | an ID is refused exactly when it is odd, was used, or is 128 or more below the largest used |
| `RequestIds.NeverTwice` | src/app/moqt/run/moqtrun_rid_win.c:41-58 | over every sequence of IDs none is accepted twice |
| `RequestIds.AnswersLikeSetIff` | src/app/moqt/run/moqtrun_rid_win.c:15-58 | the window answers a whole sequence like an unbounded set of used IDs if and only if no new ID lags the largest by 64 even IDs or more |
| `RequestIds.Peer.Slot` | src/app/moqt/run/moqtrun_rid_win.c:15-25 | the window slid up just far enough to hold the ID |
| `RequestIds.Peer.Settle` | src/app/moqt/run/moqtrun_rid_win.c:28-33 | the run of used IDs at the bottom leaves the window |
| `RequestIds.Peer.Bad` | src/app/moqt/run/moqtrun_rid_win.c:41-58 | the bit loops answer and change the window as the specification of a check says |
| `Decimal.ExactIff` | src/common/fmt/fmt_split.c:27-51 | the split parts are the number itself if and only if it is below 2^64 and has no bits below 2^-60 |
| `Decimal.PartsFit` | src/common/fmt/fmt_split.c:27-51 | the parts fit their 64-bit fields, ten times the fraction included |
| `Decimal.PartsTruncate` | src/common/fmt/fmt_split.c:27-51 | for every finite double below 2^64 the parts are its value cut off at a multiple of 2^-s, and s is 60 wherever anything is lost: the error is below 2^-60 |
| `Decimal.BinaryValue` | src/common/fmt/fmt_split.c:27-51 | the magnitude the parts are cut from is the double's: (2^52 + fraction) * 2^(exponent - 1075), and fraction * 2^-1074 below the normals |
| `Decimal.RoundsIff` | src/common/fmt/fmt_split.c:53-57 | the test before the carry rounds half to even if and only if the last character is a digit or the number is no tie above an odd integer |
| `Decimal.CarryAddsOne` | src/common/fmt/fmt_split.c:59-68 | the carry adds one to the number the digits spell, through nines and the point |
| `Decimal.CarryIn` | src/common/fmt/fmt_split.c:59-68 | the in-place loop does that carry |
| `Decimal.DecimalReads` | src/common/fmt/fmt_split.c:70-83 | the digits of an integer spell it |
| `Decimal.IpDigits` | src/common/fmt/fmt_split.c:70-83 | the digits, taken last first and turned round, are the integer in decimal, in at most twenty places |
| `Decimal.FractionDigits` | src/common/fmt/fmt_emit.c:10-20 | the digits so far and the fraction left over always make up the number scaled by a power of ten |
| `Decimal.DecBody` | src/common/fmt/fmt_emit.c:10-20 | the body has the asked number of digits after the point, a point only when asked, and no leading zero but its own |
| `Decimal.EmitParts` | src/common/fmt/fmt_emit.c:27-44 | for every parts and precision the printed digits are the exact value scaled and rounded half to even, except exactly for a bare point on a tie above an odd integer, where the odd integer is printed |
| `Decimal.EmitDec` | src/common/fmt/fmt_emit.c:22-44 | for every finite double and precision the text is the value kept by the split rounded half to even, if and only if it is not '#' with precision 0 on a tie above an odd integer; for a double below 2^64 without bits below 2^-60 that is the double itself, and the exception prints the odd integer; larger magnitudes print 2^64-1 |
| `Decimal.HashRoundsDown` | src/common/fmt/fmt_emit.c:27-44 | a double half way above the odd integer 2251799813685249, which '#' with precision 0 therefore prints |
| `Loads.LoadsAreAll` | scripts/shard_groups.py:210-217 | whatever the assignment the shards together carry the whole weight |
| `LongestFirst.BigJobFits` | scripts/shard_groups.py:210-217 | if every job so far weighs more than a third of some assignment's peak, the lightest shard still has room for the next under that peak |
| `LongestFirst.LongestFirstBound` | scripts/shard_groups.py:210-217 | heaviest first into the lightest shard: no shard exceeds 4/3 - 1/(3k) times the peak of any assignment to k shards |
| `ShardPlan.SortedDescends` | scripts/shard_groups.py:213-213 | the order of packing falls in weight |
| `ShardPlan.SortedHolds` | scripts/shard_groups.py:213-213 | the order of packing is a permutation of the groups |
| `ShardPlan.SortedStable` | scripts/shard_groups.py:213-213 | groups of equal weight stay in their order |
| `ShardPlan.CarriedSorted` | scripts/shard_groups.py:213-213 | an assignment's loads do not depend on the order |
| `ShardPlan.LightestShard` | scripts/shard_groups.py:214-214 | the first of the lightest shards |
| `ShardPlan.Pack` | scripts/shard_groups.py:210-217 | every merged group is in exactly one of 8 shards, each weight is that of the groups inside, and the bound holds against every assignment |
| `UnionFind.Groups.Add` | scripts/shard_groups.py:110-115 | a directory seen first is a group of its own; one seen before changes nothing |
| `UnionFind.Groups.Find` | scripts/shard_groups.py:117-120 | the chain of parents ends, at the representative of the class |
| `UnionFind.HangForest` | scripts/shard_groups.py:122-126 | hanging one root under another, or itself, leaves the parent map acyclic |
| `UnionFind.Groups.Union` | scripts/shard_groups.py:122-126 | the classes of all named keys become one, under the first one's root, and no other class changes |
| `UnionFind.Groups.Merge` | scripts/shard_groups.py:188-193 | every key is listed under the representative of its class, in order, and under no other |
| `Partition.TogetherIff` | scripts/shard_groups.py:122-126 | two keys end up together if and only if every labelling that gives each request one label gives them the same: exactly the closure of the requests |
| `Shards.Gather` | scripts/shard_groups.py:103-108 | every directory once, each a group of its own |
| `Shards.Colocate` | scripts/shard_groups.py:182-185 | after all requests the classes are the joint closure of them |
| `Shards.Plan` | scripts/shard_groups.py:220-233 | the merged groups are exactly the classes the requests force together, each directory once; every group is in exactly one of 8 shards; a shard weighs what all the directories of its groups weigh, and none more than 4/3 - 1/(3K) of the best peak |
| `QuicVarint.RoundTrip` | src/common/bytes/varint/varint.c:5-66 | a value up to 2^62-1 is taken back as it was put, with its length |
| `QuicVarint.EncodeIs` | src/common/bytes/varint/varint.c:5-66 | the bytes themselves: 1, 2, 4 or 8, the least that hold the value, told by the two high bits, the others the value most significant first |
| `QuicVarint.PutBe` | src/common/bytes/varint/varint.c:24-32 | filled in from the last byte back, the bytes are the value most significant first with the prefix in the first |
| `QuicVarint.Put` | src/common/bytes/varint/varint.c:80-87 | a value is put exactly when it can be sent and fits |
| `Datagram.RoundTrips` | src/app/datagram/datagram/datagram.c:24-65 | a frame starts with 0x30, or 0x31 before a length, decodes to its data, whatever follows it when it carries a length, and fits a limit exactly when its bytes do |
| `Datagram.BestPayload` | src/app/datagram/datagram/dgsize.c:13-29 | the search over four widths finds the largest payload whose own length still fits beside it |
| `Datagram.MaxPayload` | src/app/datagram/datagram/dgsize.c:31-38 | a non-empty payload fits the limit if and only if it is no longer than this |
| `Datagram.EncodeIn` | src/app/datagram/datagram/datagram.c:12-35 | a frame is written exactly when it fits, as its type, length and data |
| `Datagram.Deliver` | src/app/datagram/dgdeliver/dg_send.c:5-17 | a payload is accepted exactly when its frame fits the buffer and the peer's limit |
| `Datagram.AcceptsUpToMax` | src/app/datagram/dgdeliver/dg_send.c:5-17 | the largest payload is the largest one the datagram limit has room for, and a non-empty payload is accepted if and only if the buffer and the limit have room for it, which is when it is no longer than that |
| `SubgroupStable.ObjStable` | src/app/moqt/data/moqdata_obj_head.c:38-144 | a decoded or refused Object is the same on every extension |
| `SubgroupStable.HeaderStable` | src/app/moqt/data/moqdata.c:87-148 | a decoded or refused header is the same on every extension |
| `SubgroupStream.AnyChunksAgree` | src/app/moqt/data/moqdata_obj.c:25-40 | however a subgroup stream is cut into deliveries the Objects, the place and the verdict are those of the whole |
| `SubgroupStream.DecodedAscends` | src/app/moqt/data/moqdata_obj_head.c:24-49 | for every byte string the Object IDs of a subgroup rise strictly |
| `SubgroupStream.ObjRoundTrip` | src/app/moqt/data/moqdata_blob.c:23-64 | an Object put after another decodes to itself, with its chained ID |
| `SubgroupStream.StreamRoundTrip` | src/app/moqt/data/moqdata_blob.c:33-64 | any list of Objects with rising IDs comes back as it was sent |
| `SubgroupHeader.HeaderRoundTrip` | src/app/moqt/data/moqdata_subhdr.c:14-73 | a header comes back as it was sent, in every type that is valid |
| `SubgroupHeader.TypeLowByte` | src/app/moqt/data/moqdata.c:59-73 | only the low byte of a type decides whether it is a subgroup header |
| `SubgroupWire.ObjReads` | src/app/moqt/data/moqdata_obj_head.c:24-144 | an Object is read from its ID delta, its properties where the stream has them, its length and its payload, or its status where that is empty |
| `SubgroupWire.ObjRefused` | src/app/moqt/data/moqdata_obj_head.c:24-144 | an ID past 2^64-1 is refused, and a status other than 0, 3 and 4 or one beside properties |
| `SubgroupWire.HeaderReads` | src/app/moqt/data/moqdata.c:59-148 | a header is read from its type, alias, Group, Subgroup ID (mode 2) and priority (bit 0x20 clear); what its type leaves out is 0 |
| `SubgroupWire.TypeRefused` | src/app/moqt/data/moqdata.c:59-73 | every other type is refused |
| `SubgroupWire.ObjComes` | src/app/moqt/data/moqdata_obj.c:25-40 | whatever the bytes, once there are enough of them an Object is read or refused |
| `SubgroupLoop.DecodeLoop` | src/app/moqt/run/moqtrun_decode.c:128-147 | the receiver's loop yields every whole Object, the state after the last, and whether one was refused |
| `SubgroupBlob.CutIsWhole` | src/app/moqt/data/moqdata_blob.c:86-102 | the payloads a blob is cut into join to the blob |
| `SubgroupBlob.CutSizes` | src/app/moqt/data/moqdata_blob.c:86-102 | every payload but the last is 16384 bytes and none is empty |
| `SubgroupBlob.BlobFits` | src/app/moqt/data/moqdata.h:219-220 | the advertised size, 37 bytes, the blob and 8 for each 16384 bytes begun, is always enough |
| `SubgroupBlob.PutObjects` | src/app/moqt/data/moqdata_blob.c:92-102 | the chunk loop writes all Objects, or fails exactly when they do not fit |
| `SubgroupBlob.BlobBuild` | src/app/moqt/data/moqdata_blob.c:104-126 | succeeds for every non-empty blob that fits, in particular in a buffer of the advertised size, and writes exactly its stream |
| `SubgroupBlob.BlobRoundTrip` | src/app/moqt/data/moqdata_blob.c:86-126 | decoding what was built gives a header of type 0x70 with Group 0 and Subgroup 0, and Objects 0, 1, 2, ... whose payloads join to the blob |
| `Params.FillIsDeep` | src/app/moqt/ctl/moqctl_param_take.c:103-107 | only a draft-23 scope that allows FILL_PARAMETERS reaches the nested list |
| `ParamLocal.FetchIsFlat` | src/app/moqt/ctl/moqctl_param.c:74-74 | the FETCH scope of a nested list admits no further nested list, so decoding ends |
| `ParamLocal.ParamsLocal` | src/app/moqt/ctl/moqctl_pp.c:24-74 | decoding a list looks only at the bytes it takes, nested list included |
| `ParamValues.ParsersAgree` | src/app/moqt/ctl/moqctl_rangeloc19.c:34-112 | where the draft-19 filter parser succeeds, so does the version-neutral one, on the same bytes and with the same meaning |
| `ParamValues.LocFilterPut` | src/app/moqt/ctl/moqctl_token.c:92-129 | a location filter comes back from its encoding |
| `ParamValues.QuirkPut` | src/app/moqt/ctl/moqctl_token.c:101-129 | one client's own filter type is read as the filter for the largest Object; re-encoded its bytes differ, and are read as the same filter |
| `ParamValues.Range22Put` | src/app/moqt/ctl/moqctl_rngf.c:21-138 | a draft-22 filter, absent or present, comes back from its encoding |
| `ParamValues.SwitchPut` | src/app/moqt/ctl/moqctl_ssa.c:47-69 | a SWITCH_FROM value fits its scratch buffer and comes back |
| `ParamValues.AssignmentPut` | src/app/moqt/ctl/moqctl_ssa.c:71-106 | a SWITCHING_SET_ASSIGNMENT value fits its scratch buffer and comes back |
| `ParamValues.ValueProper` | src/app/moqt/ctl/moqctl_pv.c:14-122 | everything a value decoder accepts is a value its encoder can write |
| `ParamValues.ValuePut` | src/app/moqt/ctl/moqctl_ssa.c:17-114 | an accepted value of any encoding is accepted again from its own encoding, whatever follows |
| `ParamLists.LoopFits` | src/app/moqt/ctl/moqctl_pp.c:10-34 | what the decode loop accepts ascends in type, belongs to the draft and message, and repeats only where allowed |
| `ParamLists.LoopPut` | src/app/moqt/ctl/moqctl_params.c:15-36 | such a list is always encodable and decodes to itself |
| `ParamLists.OutUndoes` | src/app/moqt/ctl/moqctl_pp.c:36-55 | sending undoes what reading did to PAUSED, in every draft; what that is say ListKept and OutSends |
| `ParamLists.ListKept` | src/app/moqt/ctl/moqctl_pp.c:36-74 | in every accepted list a parameter that came as type 0x11 with byte v is kept at its index as type 0x10 with byte 1 - v, and every other as it came |
| `ParamLists.OutSends` | src/app/moqt/ctl/moqctl_pp.c:36-55 | to draft-23 a kept 0x10 with byte v goes out as 0x11 with byte 1 - v, everything else and every other draft as kept |
| `ParamLists.ListSurvives` | src/app/moqt/ctl/moqctl_pp.c:24-74 | for every draft and message any list that is accepted survives being turned round, encoded and decoded, with the same values |
| `ParamBytes.ValueIs` | src/app/moqt/ctl/moqctl_ssa.c:17-114 | the bytes of every kind of value: what fields, in what order, counted or not |
| `ParamBytes.FilterReads` | src/app/moqt/ctl/moqctl_token.c:92-129 | a draft-19 filter of type 1 to 4 is read from its bytes with its meaning, and no other but one client's own, nor an end past 2^64-1 |
| `ParamBytes.SwitchReads` | src/app/moqt/ctl/moqctl_ssa.c:47-69 | a SWITCH_FROM value is read from its bytes if and only if its mode is 0 or 1 |
| `ParamBytes.AssignmentReads` | src/app/moqt/ctl/moqctl_ssa.c:71-106 | a SWITCHING_SET_ASSIGNMENT value is read from its bytes if and only if its weight is 1 to 10 |
| `ParamBytes.TokenReads` | src/app/moqt/ctl/moqctl_token.c:20-76 | a token of each of the four kinds is read from the fields that kind has |
| `ParamBytes.TokenRefused` | src/app/moqt/ctl/moqctl_token.c:37-76 | every other kind is refused, and anything behind a bare alias |
| `ParamBytes.NamespaceReads` | src/app/moqt/ctl/moqctl_ns.c:25-81 | a namespace of at most 32 fields, none empty, is accepted if and only if its fields are at most 4096 bytes together |
| `ParamBytes.NamespaceRefused` | src/app/moqt/ctl/moqctl_ns.c:25-56 | more than 32 fields are refused, and an empty field wherever it is |
| `ParamBytes.AcceptedIsLegal` | src/app/moqt/ctl/moqctl_pp.c:10-34 | every accepted list has at most 64 parameters, each allowed in the message by the draft, with types in order and none twice but 0x25 to 0x29 |
| `ParamBytes.LegalIsAccepted` | src/app/moqt/ctl/moqctl_pp.c:10-34 | every such list is accepted from its bytes, whatever follows, and kept as it was but for PAUSED |
| `ParamBytes.ListIs` | src/app/moqt/ctl/moqctl_params.c:10-48 | a list's bytes are its count, then for each parameter its type less the one before it and its value |
| `ParamScopes.TracksTakeAll` | src/app/moqt/ctl/moqctl_param.c:45-62 | in draft-19 SUBSCRIBE_TRACKS takes every parameter SUBSCRIBE takes |
| `ParamScopes.TimeoutsUpdate` | src/app/moqt/ctl/moqctl_param.c:45-62 | before draft-23 the delivery timeouts may come with every kind of REQUEST_UPDATE, from then on with a subscription's only |
| `ParamScopes.SwitchesSubscriptions` | src/app/moqt/ctl/moqctl_param.c:58-60 | the switching parameters belong to SUBSCRIBE and the update of a subscription, from draft-22 on, and nowhere else |
| `ParamScopes.FillIsFetchList` | src/app/moqt/ctl/moqctl_pv.c:116-124 | FILL_PARAMETERS is taken exactly as the list a FETCH may hold |
| `ParamBuffer.FlipIn` | src/app/moqt/ctl/moqctl_pp.c:38-49 | the in-place loop turns exactly the parameters of one type into the other, as ListKept and OutSends spell out |
| `ParamBuffer.ReadLoop` | src/app/moqt/ctl/moqctl_pp.c:10-34 | the loop fills the 64 slots with what the specification decodes, or reports the same refusal |
| `ParamBuffer.ReadList` | src/app/moqt/ctl/moqctl_pp.c:58-74 | the whole list as kept, or the same refusal |
| `ParamBuffer.WriteOne` | src/app/moqt/ctl/moqctl_params.c:10-24 | one parameter written whole, or nothing when its type falls, it is never sent or it does not fit |
| `ParamBuffer.WriteLoop` | src/app/moqt/ctl/moqctl_params.c:26-36 | the loop writes the list's bytes, or fails exactly when they do not exist or do not fit |
| `ParamBuffer.WriteList` | src/app/moqt/ctl/moqctl_params.c:38-48 | count and list written behind what was there, which stays |

## Left out

- RelayRuns.EveryRunDelivers: offsets are unbounded, so a stream of 2^64 bytes is not modelled.
- RequestIds.AnswersLikeSetIff: IDs are unbounded, so the wrap at 2^64 is not modelled.
- CacheWalk.WalkAnswers: Group IDs below 2^64-1 and Object IDs up to the wire's largest are assumed, as the walk can stand still at the very last ones (`ItemAdvancesIff`).
- FetchServe.ServedStreamDecodes: the arena stays as it is during a walk, and the skips are the cache's own; a FETCH's Range Filter, draft-23's cutting back of skips and its closing end marker, and the choice of the range are left out.
- ControlHub.Hub.Serve: the draft of each stream is an input, and what the handler of a message does to the hub, closing the session of a stream that lost a message included, is left out.
- Shards.Plan: the rule that matches a test file to directories, the file sizes and the weights of tests are inputs.
- ParamLists.ListSurvives: the raw view of a length-prefixed value that is also decoded is not part of the value, except for tokens, whose bytes are re-sent as they came.
- Range Filter values inside Message Parameters stay opaque bytes; their own codec is left out.
- The ring's hold, release and stall decisions and the hub that calls them: one comparison each.
- Padding, flags and the other conversions of the formatter, and how the body is put into its field.
- Fixed-layout control messages, stream and message type tables, close codes: field-by-field members.
- QUIC, TLS, HTTP/3, sockets, clocks, the system-call layer and the clients: I/O and wiring; clocks enter as parameters.
- The table of parameter types and the messages each draft allows them in is data taken over as it stands (`src/app/moqt/ctl/moqctl_param.c:64-90`), but for the laws in `ParamScopes`.
- The draft-18 to draft-23 capability table: the drafts' differences enter as parameters or through the parameter rules.
