# Verification of the key-value store

A Dafny model of the LSM-tree engine, with proofs of what it promises its clients. It has
four layers, each proved against a simple specification the next one uses.

**Logs, MANIFEST, MemTable** (`Wal`, `Manifest`, `MemTable`). Byte and text codecs with their
loops, the torn-tail parser, exact byte accounting.

**Bloom filter** (`Bits`, `Bloom`). 64-bit arithmetic with every wrap-around written out,
power-of-two masking, bit smearing, bit packing.

**Sorted table file** (`SSTable`, `SSTableReader`). Writer, loader, indexed lookup and full
scan over real byte offsets, shown to agree with the source map.

**Engine** (`Layers`, `Machine`, `Safety`, `Durability`, `Runs`, `Witness`, `Db`). `Machine`
breaks recovery, put, delete, flush and compaction into single disk effects and allows a crash
between any two, any byte prefix of a log record and any partial table file. `Db` is the engine
object; each of its disk effects is matched, by a ghost call, with the machine step it performs,
so a sequence of calls is a run of the machine and the theorems about runs apply to it.

## How to read the engine

A machine state holds the disk, the process (down, or its RAM and where it stands), the map of
operations acknowledged to the client, the one operation in flight, and the segments written to
so far in time order. `LiveView` is what a client reads; `RecView` is what recovery would rebuild
from the disk as it is. `RecOk` says that `RecView` is right: while serving, exactly what has been
logged; with the process down, the acknowledged map with or without the operation in flight. When
a restart completes, the acknowledged map becomes the view then served; that this is one of those
two maps is the theorem.

Durability over many crashes is conditional, because the code makes it so. Two things break it,
and each has a reachable witness:

- a flush seals only its own segment, so an older segment that survived a crash is replayed over
  newer tables at a later restart (`Witness.StaleSegment`, and with crashes only at rest
  `Witness.StaleAfterCompaction`), and no later step removes it (`Runs.NeverHeals`);
- a torn tail is dropped by replay but not truncated, so records appended behind it are lost
  (`Witness.TornTail`).

The conditions are exact. Runs that never append behind a torn tail are durable if and only if
every seal was safe (`Runs.DurableIffSealsSafe`), recovery stays right for every operation that may
come next if and only if the open segment ends on a record boundary (`Durability.AppendExact`), and
`Runs.HandoverExact` says which crash points leave the next session with neither problem. From an
empty directory, through any number of such crashes and clean stops, the next crash loses nothing
acknowledged (`Runs.CrashRefinement`). Whatever happened before, an interrupted recovery gives what
an undisturbed one would (`Runs.RecoveryRestartable`).

A complete table file appears in the machine as its source map. `SSTableReader.LookupIsMapLookup`
and `SSTableReader.ScanAllIsSource` justify that on the bytes, and `Manifest.ListRoundTrip` does
the same for the id list in MANIFEST.

## Where code and documentation disagree

The model follows the code.

- The comment at `src/db.cpp:197` makes the log rename the commit point of a flush. The code, and
  `include/db.h:27`, commit at the MANIFEST rename.
- `README.md:9` says no acknowledged write is ever lost, and `ARCHITECTURE.md:210` calls the
  duplicates left by a crash before the seal harmless. They are until the next flush.
- `src/bloom.cpp:18` speaks of two hash variants with different primes. The constants are the same
  numbers in two notations, so the second hash is the first with bit 0 set.

## Model

| member | source | states |
|---|---|---|
| Runs.DurableIffSealsSafe | src/db.cpp:98-233 | From an empty directory, through any operations, crashes and restarts that never append behind a torn tail: at every moment recovery would rebuild the right map if and only if, at every seal, each key still held by an older segment was last logged there as it then reads |
| Runs.CrashRefinement | src/db.cpp:38-299 | On well-ended logs: any number of sessions that each end where they hand good logs on, as a clean stop does, then one cut down after any disk effect, then a recovery interrupted any number of times, leaves the client reading exactly the acknowledged map, or that map with the one operation in flight |
| Runs.SessionRecovers | src/db.cpp:38-299 | Through any number of sessions handed on, recovery is right after each disk effect, and the log hypothesis holds up to the last crash |
| Runs.HandoverExact | src/db.cpp:119-121 | Exactly which crash points leave the next session good logs: during recovery; behind a sealed segment; with the open segment still the one recovery reopens and no record half written; or with an empty MemTable and no record written for it |
| Runs.LostBeforeSeal | src/db.cpp:218-226 | A crash between a flush's MANIFEST rename and its seal never hands good logs on |
| Runs.LostAfterCompaction | src/db.cpp:278 | At rest a crash hands good logs on if and only if the open segment is still numbered next_sst_id_ or the MemTable is empty: not with writes since a compaction |
| Runs.RecoveryRestartable | src/db.cpp:38-122 | From any reachable disk, damaged logs included, recovery crashed and restarted at any step, any number of times, ends with the view and the table list an undisturbed one gives; the client's operations wait meanwhile, and a right view stays right |
| Runs.SafeRunRefines | include/db.h:20-23 | Every step of a safe run is a step of a plain map with at most one operation in flight; without its acknowledgement that operation ends only when a restart completes, which drops it or keeps it |
| Runs.StepRefines | include/db.h:20-23 | The same of one step: a step of the map specification or invisible to it |
| Runs.ReadsAreAcknowledged | src/db.cpp:173-190 | In every run, whatever crashes came before, first-hit search over MemTable and tables reads the map acknowledged since the last restart completed, on top of what that restart served |
| Runs.NoStaleRecordsSealSafe | src/db.cpp:222-226 | A seal is safe when no segment but the open one holds a record |
| Runs.BelowStaysForever | src/db.cpp:98-121 | Through any steps, crashes and restarts a segment numbered below the one in use is never written or removed again, so every later restart replays each of its keys once more |
| Runs.NeverHeals | src/db.cpp:222-226 | Once an older segment holds a record, no continuation of any kind brings good logs back |
| Runs.SessionKeepsLogs | src/db.cpp:153-299 | Older segments stay free of records and the open one stays on a record boundary through every step of a session |
| Durability.SealExact | src/db.cpp:222-226 | Sealing only the open segment keeps the recovered view equal to the live one if and only if every key in the surviving segments was last logged as it now reads |
| Durability.AppendExact | src/wal.cpp:37-41 | At rest with recovery right: it stays right after logging any client operation if and only if the open segment ends on a record boundary |
| Durability.AppendSafeIffBoundary | src/wal.cpp:37-41 | On the newest segment of any disk every client operation shows in the recovered view if and only if the segment ends on a record boundary; behind any torn tail, over any tables, some put is lost |
| Durability.RecThroughCommit | src/db.cpp:214-218 | The MANIFEST rename of a first start or compaction changes no recovered answer; that of a flush changes none while the recovered and the live views agree, the log still replayed on top |
| Durability.CommitExact | src/db.cpp:214-218 | A flush's rename leaves the recovered view alone if and only if every MemTable key that the logs do not replay already reads that way; behind a torn tail it may not |
| Durability.RecUntouched | src/db.cpp:38-299 | In every reachable state a step that is neither a log write nor a seal leaves what recovery would rebuild unchanged, a flush's rename provided that view is the live one; first MANIFEST, orphan deletion and table deletion included |
| Durability.RecAfterWrite | src/wal.cpp:60-72 | A record partly on disk changes nothing recovery rebuilds; the last byte applies it, once |
| Durability.StepKeepsRec | src/db.cpp:38-299 | Safe steps keep the recovered view right |
| Durability.StepKeepsLive | src/db.cpp:153-299 | Every step keeps the served view equal to the acknowledged map plus the applied operation: flush, compaction, rotation and deletions are invisible |
| Safety.DiskSafety | src/db.cpp:52-134 | In every run, after any crashes: MANIFEST names only complete tables, next_sst_id_ exceeds every live id from the moment recovery has loaded the list, no segment id exceeds what recovery will open, and log writes went to segments in ascending id order |
| Safety.RestIsTidy | src/db.cpp:38-122 | In every run, at rest or while a record is written: MANIFEST is what RAM says and names exactly the table files there are, all complete; no MANIFEST.tmp and no sealed segment is left; the open segment is the newest |
| Safety.CrashTakesRam | include/db.h:20-23 | A crash can come in every state; it loses the RAM and leaves every byte on disk |
| Safety.NextIsLeast | src/db.cpp:59-61 | Where recovery puts next_sst_id_: one above a listed id, and 0 when none is listed |
| Safety.StepIsSafe | src/db.cpp:128-134 | No step truncates, rewrites or deletes a live table, and a newly committed MANIFEST has the next generation |
| Safety.StepKeepsInv | src/db.cpp:38-299 | The invariant relating MANIFEST, table files, segments and RAM survives every step, crashes included |
| Safety.FinishRecoveryKeeps | src/db.cpp:119-121 | Recovery always opens the segment numbered next_sst_id_ |
| Safety.OpenKeeps | src/db.cpp:229-236 | A flush opens a segment strictly above every existing one |
| Safety.CommitJobKeeps | src/db.cpp:209-218 | After the rename the new list is complete and distinct and next_sst_id_ is again one above it |
| Safety.AfterCommitKeeps | src/db.cpp:294-298 | Deleting replaced tables and sealing keep the disk invariant; no victim is live |
| Witness.StaleSegment | src/db.cpp:218-226 | For every key and two distinct values there is a run, never appending behind a torn tail, after which an acknowledged overwrite is lost to an older segment replayed over newer tables |
| Witness.StaleAfterCompaction | src/db.cpp:278 | The same loss with every crash at rest and nothing in flight: compact, put, crash, restart, overwrite, flush, crash; the segment the compaction left open comes back with the old value |
| Witness.TornTail | src/wal.cpp:37-41 | For every one-byte key there is a run in which a write acknowledged behind a reopened torn tail is not replayed |
| Witness.FirstStart | src/db.cpp:65-82 | The first start on an empty directory commits generation 1 with no tables and opens segment 0 |
| Layers.SearchIsMerge | src/db.cpp:173-190 | First-hit search, newest first, reads the oldest-first overwrite merge |
| Layers.CompactionKeepsAnswers | src/db.cpp:263-276 | Merging all tables and dropping tombstones gives every key the same answer |
| Layers.DropIsLive | src/db.cpp:272-276 | What compaction keeps is exactly the client's map, every row live |
| Layers.OverlayInvisible | src/db.cpp:109-117 | Replaying records over tables is invisible if and only if each replayed key already reads that way |
| Layers.OverlayAfterFlush | src/db.cpp:214-221 | Replaying a log over a table that already holds it is harmless while the two views agree |
| Layers.ReplayWrite | src/db.cpp:153-167 | One more record at the end of the newest segment is one more write to the replayed table |
| Layers.ReplayedIsLast | src/memtable.cpp:3-33 | Put, delete and lookup together: after any sequence of writes a key's slot is what the last write to it says, a value for operation 0 and a tombstone for any other, and keys never written have none |
| Layers.LiveWrite | src/db.cpp:112-116 | A replayed slot means to the client what the operation meant |
| Db.DB.Put | src/db.cpp:153-159 | The client's map is the old one with the key set, and acknowledged. While the bytes stay below the flush threshold only one record is added to the open segment and one slot to the MemTable; at it there is one table more and an empty segment, or all tables are one where the compaction threshold is reached |
| Db.DB.Del | src/db.cpp:161-167 | The key is absent and nothing else changed for the client; the same on disk and in RAM as for a put |
| Db.DB.SyncRecord | src/wal.cpp:55-58 | The record's bytes reach the open segment one after the other: the run passes through a state for each of them |
| Db.DB.Get | src/db.cpp:173-190 | Returns what the client's map holds, which is the acknowledged map when no operation is in flight |
| Db.DB.FlushMemtable | src/db.cpp:204-237 | No answer changes; with an empty MemTable nothing does; else the whole disk, the list and the counters afterwards are stated |
| Db.DB.RotateSegment | src/db.cpp:220-236 | The open segment is gone from the logs and from the sealed ones; an empty segment numbered next_sst_id_, new to the directory, is open; the MemTable is empty; nothing else on disk changed |
| Db.DB.Compact | src/db.cpp:257-299 | No answer changes; below two tables nothing does; else one table holding exactly the client's map, all rows live, is the only one on disk and in MANIFEST, after a flush if there was something to flush |
| Db.DB.MergeAll | src/db.cpp:263-268 | The oldest-first loop computes the flattened stack |
| Db.DropDeleted | src/db.cpp:272-276 | The copied rows are exactly the live ones |
| Db.DB.MaybeFlush | src/db.cpp:244-250 | Below the byte threshold nothing happens; at it a flush, and with it a compaction exactly when the tables reach both the threshold and two; no answer changes |
| Db.DB.UpdateManifest | src/db.cpp:128-134 | Generation up by one, list committed through MANIFEST.tmp and rename |
| Db.DB.Recover | src/db.cpp:38-122 | Serves exactly the view of the disk as found, with the MANIFEST's list in its order, as a run of the machine; leaves no MANIFEST.tmp, sealed segment or unlisted table, the listed tables and the logs as they were, the active segment open |
| Db.DB.ReadList | src/db.cpp:56-64 | The list is taken over in order and next_sst_id_ ends one above its largest id |
| Db.DB.ReplaySegments | src/db.cpp:98-117 | Replaying segments oldest first fills the MemTable with the last logged slot of every key |
| Db.DB.ApplyRecords | src/db.cpp:112-116 | Records are applied in order; anything that is not Put deletes |
| Db.DB.OpenActive | src/db.cpp:119-121 | Opens the active segment and serves the recovered view |
| Db.DB.Close | src/db.cpp:144-148 | Every answer is then in the MANIFEST's tables alone; with an empty MemTable the disk is untouched, else it is that of a flush |
| Db.Shadow.CrashAnywhere | src/db.cpp:153-299 | After every disk effect any sequence of calls has had, the last included, down to single log bytes: recovery would rebuild the acknowledged map with or without the operation in flight, the state left is one a next process may start from, and where logs are handed over that process has the same guarantee |
| Db.Shadow.StopPassesOn | src/db.cpp:144-148 | After a clean stop the next process starts with all this one started with, and would recover exactly the acknowledged map: sessions chain |
| Wal.ParseOfPrefix | src/wal.cpp:60-72 | Cut a log at any byte: replay delivers exactly the records wholly before the cut, in order |
| Wal.WholeMeaning | src/wal.cpp:66-70 | The number of records wholly before a cut is the largest whose encodings fit |
| Wal.DeliveredIffBoundary | src/wal.cpp:37-41 | Replay delivers every record that may be appended next, after those before it, if and only if the log ends on a record boundary |
| Wal.TornTailSwallows | src/wal.cpp:66-70 | Behind every torn tail there are puts that replay never delivers, whatever it reads there instead |
| Wal.AppendToBoundary | src/wal.cpp:47-53 | On a boundary a partial record is invisible, a whole one is delivered last and keeps the boundary |
| Wal.RoundTripIffFits | src/wal.cpp:17-20 | A record survives its own encoding if and only if both lengths fit the 32-bit fields |
| Wal.RecordBytes | src/wal.cpp:33-53 | The bytes of a small put and of a small delete: operation byte 0 or 1, key length and key, value length and value |
| Wal.LogShape | src/wal.cpp:60-72 | Any byte string is the encoding of what it parses to, then a tail that reads as no record |
| Wal.ReadOfTorn | src/wal.cpp:66-68 | A proper prefix of a record reads as none |
| Wal.Replay | src/wal.cpp:60-72 | The loop delivers the parse of any bytes and terminates on the bytes remaining |
| Wal.Log.Append | src/wal.cpp:47-53 | The record's encoding is added to the buffer, nothing else |
| Wal.Log.Sync | src/wal.cpp:55-58 | Everything buffered reaches the file, in order |
| SSTableReader.LookupIsMapLookup | src/sstable.cpp:53-178 | Build, load, look up: filter, upper_bound, offset seek and early stop together answer Found, Tombstone or NotFound as the source map does, decoding at most 16 rows for a present key and 17 for an absent one |
| SSTableReader.LookupCost | src/sstable.cpp:145-178 | Exactly how many rows a lookup decodes: none for a key the filter denies or before the first row; else those of its stride of 16 up to the key, or up to the first row behind it |
| SSTableReader.OneEntryFits | src/sstable.cpp:53-100 | The field limits under which a built table reads back are met: every map of one entry with key and value below 2^31 bytes meets them with a filter of 64 bits |
| SSTableReader.ScanAllIsSource | src/sstable.cpp:182-197 | A full scan of a built file returns the source entries in key order with their flags, and they rebuild the source map |
| SSTableReader.LoadBack | src/sstable.cpp:104-133 | Loading a built file recovers both offsets, the filter's size and bits, and the sparse index |
| SSTableReader.FileSections | src/sstable.cpp:76-91 | The footer offsets delimit data, filter and index sections exactly |
| SSTableReader.OneRowFile | src/sstable.cpp:53-100 | The whole file of a one-row table, byte for byte around its filter bits |
| SSTableReader.RowParts | src/sstable.cpp:69-72 | A data entry is the key behind its length, a byte that is 1 for a tombstone and 0 otherwise, the value behind its length |
| SSTableReader.PointParts | src/sstable.cpp:85-88 | An index point is the key behind its length, then the offset in eight bytes |
| SSTableReader.FlagsBit | src/sstable.cpp:169-171 | Of the flags byte only bit 0 matters to the reader |
| SSTableReader.ShortFileIsEmpty | src/sstable.cpp:108-112 | A file too short for its footer opens as a table that holds no key |
| SSTableReader.UnreadFilterDenies | src/sstable.cpp:114-122 | A filter section that cannot be read whole leaves the default filter, which denies every key |
| SSTableReader.FileLaid | src/sstable.cpp:66-74 | Row i is read back at its offset and ends where row i + 1 starts, the last at the filter section |
| SSTableReader.WindowBound | src/sstable.cpp:152-156 | The index point chosen starts the stride that holds the key |
| SSTableReader.ScanFinds | src/sstable.cpp:165-173 | Scanning towards a present key stops at it, one decode per row passed |
| SSTableReader.ScanMisses | src/sstable.cpp:174 | Scanning for an absent key answers NotFound and decodes at most the overshoot row beyond its stride |
| SSTableReader.FilterClaims | src/sstable.cpp:147 | The stored filter never denies a stored key |
| SSTableReader.FilterExactly | src/sstable.cpp:58-61 | A built table's filter lets a key through exactly when each of its positions belongs to some stored key |
| SSTableReader.Table.Open | src/sstable.cpp:104-137 | Computes the loader's function, early returns, a partly read index key and the truncated-filter exception included, on bytes whose footer offsets are below 2^63 and whose 64-bit fields are not cut short |
| SSTableReader.Table.FindPoint | src/sstable.cpp:152-154 | The binary search finds the first index point above the key |
| SSTableReader.Table.Lookup | src/sstable.cpp:145-178 | The method computes the lookup function on any file with an ascending index |
| SSTableReader.Table.ScanAll | src/sstable.cpp:182-197 | The loop computes the scan function |
| SSTableReader.BuildAndLookup | src/sstable.cpp:53-178 | Through the objects: the answer is the map's, within the cost bound |
| SSTable.Build | src/sstable.cpp:53-100 | The bytes written are data, filter, index and footer of the map's rows in key order |
| SSTable.WriteData | src/sstable.cpp:63-74 | Rows in order, and one index point for every 16th of them, with its key and the offset it starts at |
| SSTable.FillFilter | src/sstable.cpp:58-61 | The filter holds exactly the bits of all keys |
| SSTable.Iterate | src/sstable.cpp:66 | Iteration visits the keys in ascending unsigned-byte order |
| Bloom.ProbesDistinct | src/bloom.cpp:32-38 | The K probe positions of a key are pairwise distinct for every filter size from 64 to 2^64 |
| Bloom.ProbesAre | src/bloom.cpp:26-38 | The positions are seven: the hash plus i strides, i from 0 to 6, the stride being the hash with bit 0 set, modulo the size |
| Bloom.ProbeBijective | src/bloom.cpp:26-38 | For an odd stride every slot of [0, m) is hit by exactly one index below m, 64-bit wrap-around included |
| Bloom.ProbeIsResidue | src/bloom.cpp:33-37 | Wrap-around is invisible behind the mask |
| Bloom.NoFalseNegatives | src/bloom.cpp:67-79 | Every added key is claimed, whatever was added before or after |
| Bloom.EmptyDenies | src/bloom.cpp:73-79 | A filter without bits denies every key |
| Bloom.ClaimsExactly | src/bloom.cpp:67-79 | A filter claims a key if and only if each of its positions is a position of some added key |
| Bloom.BitsAdded | src/bloom.cpp:67-71 | After any adds the bits set are those set before and the positions of the keys added |
| Bloom.ReloadKeepsSize | src/bloom.cpp:58-63 | The size survives its 32-bit field and next_pow2 if and only if it is at most 2^31 |
| Bloom.SaveAndReload | src/sstable.cpp:76-122 | A saved filter comes back if and only if its size is at most 2^31, then with every bit, denying no added key |
| Bloom.GetAfterSetBits | src/bloom.cpp:8-14 | Setting bits sets those and clears none |
| Bloom.SlotLayout | src/bloom.cpp:8-14 | Slot 8 b + j is bit j of byte b; setting it adds 2^j to that byte if the bit was clear and touches no other byte |
| Bloom.NextPow2 | src/bloom.cpp:42-47 | The smearing loop computes the ceiling power of two up to 2^63 and wraps to 0 above |
| Bloom.CeilPow2IsLeast | src/bloom.cpp:42-47 | That ceiling is a power of two, at least v, and no power of two between is smaller |
| Bloom.SmearStep | src/bloom.cpp:45 | Each smearing step doubles the run of ones below the top bit |
| Bloom.Fnv1aVector | src/bloom.cpp:20-24 | The empty string hashes to the offset basis and "a" to its published FNV-1a value |
| Bloom.Fnv1aSnoc | src/bloom.cpp:20-24 | One more byte is one exclusive or and one multiplication modulo 2^64: hashing goes from left to right |
| Bloom.HashA | src/bloom.cpp:20-24 | The loop computes 64-bit FNV-1a |
| Bloom.HashB | src/bloom.cpp:26-30 | The second hash is the first with bit 0 set |
| Bloom.SizeForIsPow2 | src/bloom.cpp:53-54 | A fresh filter's size is a power of two from 64 to 2^63 |
| Bloom.SizeForIsLeast | src/bloom.cpp:53-54 | A fresh filter's size is the least power of two that is at least the estimate and 64; above 2^63 the wrapped size leaves 64 |
| Bloom.BloomFilter.constructor | src/bloom.cpp:49-56 | Size as computed, all bits clear |
| Bloom.BloomFilter.FromBytes | src/bloom.cpp:58-63 | Succeeds exactly when the bytes suffice for the rounded size, keeping them |
| Bloom.BloomFilter.SetBitAt | src/bloom.cpp:8-10 | The byte array changes in that bit only |
| Bloom.BloomFilter.Add | src/bloom.cpp:67-71 | Sets the K probe bits of the key |
| Bloom.BloomFilter.MayContain | src/bloom.cpp:73-79 | True exactly when the bits at all seven positions of the key are set |
| Bits.AndMask | src/bloom.cpp:35-37 | Masking with 2^k - 1 is reduction modulo 2^k |
| Bits.ShrIsDivision | src/bloom.cpp:13 | x >> j is division by 2^j |
| Bits.BitOfAnd | src/bloom.cpp:13 | Bit j of x & y is set when it is in both |
| Bits.BitOfOr | src/bloom.cpp:9 | Bit j of x | y is set when it is in either |
| Bits.BitOfXor | src/bloom.cpp:22 | Bit j of x ^ y is the sum of the bits modulo 2 |
| Bits.BitOfShift | src/bloom.cpp:45 | x >> i renumbers the bits by i |
| Base.LEDigit | src/wal.cpp:15 | Byte i of a field is digit i of the value in base 256 |
| Base.U32RoundTrip | src/sstable.cpp:31-39 | A 32-bit field reads back as the value modulo 2^32 |
| Base.StrAtTorn | src/wal.cpp:26-31 | A string cut anywhere inside its encoding cannot be read |
| Base.LessTotal | src/sstable.cpp:54 | Keys are totally ordered |
| Base.LessIsLexicographic | src/sstable.cpp:54 | Keys are ordered by their first difference as unsigned bytes, a proper prefix first |
| MemTable.MemTable.Put | src/memtable.cpp:3-12 | The slot is written and the byte count stays the sum of key and value lengths, without underflow |
| MemTable.MemTable.Del | src/memtable.cpp:14-22 | A tombstone is written and the count stays exact, without underflow |
| MemTable.MemTable.Clear | src/memtable.cpp:35 | Empty, with count 0 |
| MemTable.FootprintUpdate | src/memtable.cpp:3-22 | Writing one slot moves the total by that slot's difference alone |
| Manifest.ReadOfWrite | src/manifest.cpp:32-60 | Reading the written text returns the same generation and names in order, for every 64-bit generation and newline-free names |
| Manifest.NameRoundTrip | src/db.cpp:10-14 | The id parsed out of a table's file name is the id it was made from, for every 64-bit id |
| Manifest.NameShape | src/db.cpp:10-15 | A table's file name is sst_, at least six digits and .sst; exactly six below a million, unpadded from there on |
| Manifest.NameOfThree | src/db.cpp:10-15 | Table 3 is sst_000003.sst |
| Manifest.NamesOrder | src/db.cpp:76-79 | Below a million table names order as their ids do |
| Manifest.SegmentNames | src/db.cpp:45-107 | A segment's file name gives its number back; renamed to .done it is recognised as sealed and no longer replayed; table names are neither |
| Manifest.ListRoundTrip | src/db.cpp:53-64 | Ids, names, text and back: the list recovery loads is the list committed |
| Manifest.TextOfOne | src/manifest.cpp:53-60 | The text of a MANIFEST of generation 7 with one table |
| Manifest.UnknownLineIgnored | src/manifest.cpp:38-44 | A line with neither word in front changes nothing |
| Manifest.LastLine | src/manifest.cpp:38 | A last line without its newline is read too |
| Manifest.StoullSigns | src/manifest.cpp:40 | A number is read with or without a sign and whatever follows it; a negated one wraps modulo 2^64; one that does not fit 64 bits is an exception |
| Manifest.StoullSpace | src/manifest.cpp:40 | Leading white space does not count; without a digit there is no number |
| Manifest.WriteText | src/manifest.cpp:53-60 | The loop writes the rendered text |
| Manifest.ReadText | src/manifest.cpp:32-46 | The line loop computes the parse of any text: unknown lines ignored, numbers with stoull's white space, sign and wrap-around |

## Left out

- Operating system: failing or short file operations, ignored error codes, and what fsync does to
  directory entries. Create, rename and delete are atomic and durable, as the code's comments assume.
- The Windows remove-then-rename fallback and the platform seek and commit wrappers.
- Floating-point filter sizing and the false-positive rate: the estimate is an arbitrary 64-bit
  parameter of the filter's constructor and of the table writer.
- The directory scan for data older than MANIFEST: without a MANIFEST the model starts only on a
  directory without tables, which every run from an empty directory satisfies.
- Threads: every mutator holds one exclusive lock, so methods are sequential and interleaving is
  only at crash points.
- Corrupted or hostile table and MANIFEST contents beyond the loader's own branches.
- Table bytes inside the engine: the machine's disk holds a complete table as its source map and a
  cut-short one without its bytes.
- Table ids, generations and byte counts are unbounded in the engine; reaching 2^64 is not modelled.
- Pointers and iterators: the table list holds ids, so sharing of open table objects is not captured.
- The REPL, the benchmarks, the crash driver and the statistics getters.
- Db.DB.Put: keys and values must fit 32-bit lengths. Of a longer one neither the log record
  (Wal.RoundTripIffFits) nor the table row reads back as itself, so no view could be promised.
- Db.DB.Del: keys must fit 32-bit lengths, for the same reason.
- SSTableReader.Table.Open: footer offsets below 2^63, because a seek to a larger one fails and the
  loader reads on where it stands; and 64-bit fields that are not cut short by the end of the file,
  because a partial read of one leaves it indeterminate (the model keeps its old value, or 0). No
  file the writer completes has either.
- Db.DB.Recover: directories that hold tables but no MANIFEST, which the directory scan would adopt.
- SSTable.Build: fewer than 2^31 entries, because the row counter is a signed 32-bit integer.
- SSTableReader.LookupIsMapLookup: lengths, counts and the filter size within their fixed-width
  fields and the file within the signed 64-bit offsets of a seek; a filter of 2^32 bits or more is refused at load (Bloom.SaveAndReload).
- Runs.DurableIffSealsSafe: runs that append behind a torn tail are outside it; for those
  Durability.AppendExact gives the exact condition on the log.
- Witness.TornTail: one-byte keys with an empty value, enough to show the loss.
