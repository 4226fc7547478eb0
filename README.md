# Spelunky Classic stats tracker: a Dafny model of the memory reader

The tracker attaches to a running `Spelunky.exe` (Spelunky Classic). It reads
the game's statistics record out of the process's memory and broadcasts it to
web clients. It polls about every 100 ms. A record is broadcast when it differs
from `stats_state` (the last record broadcast on this connection, and
`Stats::default()` when the connection starts), or, while decoding keeps
succeeding, once more than a second has passed since the last broadcast or
since the connection was made.

This project models the two core files of the tracker:

- `src/mem_reader.rs`: finding the process, resolving its base address,
  reading pointers and byte blocks, and the `run_forever` loop.
- `src/stats.rs`: the statistics record and its decoder.

The files:

- `win32.dfy` (module `Win32`): the operating system, as an oracle. It holds
  the process list, each process's modules, its readable memory, its exit code
  and the tracker's handle table. In this model `ReadProcessMemory` copies the
  longest readable prefix of the requested range. It fails only when the first
  byte is unreadable, so short reads can happen (see "## Left out").
- `bytes.dfy` (module `Bytes`): little-endian words.
- `io_cursor.dfy` (module `IoCursor`): the `std::io::Cursor` the decoder reads
  from, as a class with a mutable position.
- `mem_reader.dfy` (module `MemReader`): `EXE_NAME` and the name test (a
  predicate and a lemma), and the following as methods proved against
  specification functions:
  - `get_spelunky_process`;
  - `get_base_addr`;
  - `read_uptr32_t`;
  - `read_n_bytes`.
- `stats.dfy` (module `SpelunkyStats`): the records and their derived
  `Default` and `PartialEq`. It also covers the memory layout of the
  statistics, and the decoder `update_from_memory`/`from_memory` as methods.
  - Each of the 89 counters is kept as the raw bits of its `f64`.
  - The derived `PartialEq` is IEEE 754 equality on those bits: a NaN equals
    nothing, and `0.0 == -0.0`.
  - The decoder is proved to yield exactly the record the layout designates
    when every read succeeds. It fails exactly when some read fails. When it
    fails, the counters assigned before the failing read keep their new
    values.
- `tracker.dfy` (module `Tracker`): `TrackerMessage` and `run_forever`.
  - The never-ending loop is a class `TrackerTask`. Each method is one pass of
    the outer (connect) or inner (poll) loop.
  - Each method is proved against a step function on `TrackerState`.
  - A panic in `get_base_addr` ends the thread: the model's `Halted` phase
    keeps the process handle open and does nothing more.
  - The messages sent so far are a sequence.

The source's 89 straight-line read/seek pairs are modelled as loops over each
category's list of counters. `SlotOf` and `StepOf` give each counter's storage
slot and its position in the assignment order. The monkey kills counter is read
from the block's last word and assigned last.

Behaviour of the code worth knowing:

- `get_base_addr` does not check that the module byte count divides evenly.
  It does not check that the count fits the 1024-entry array either. With more
  than 1024 modules and no match among the first 1024, it indexes past the
  array, which is a panic. The model returns `IndexOutOfBounds` there, and
  the tracker thread halts with the process handle still open.
- The code reads fixed-length buffers without checking the number of bytes
  read. A short block or list read is therefore not rejected up front. It fails
  later, when a cursor read runs past the buffer's end.
  - A short pointer read still succeeds. The missing high bytes read as zero
    (`PointerAt`, `PointerAtBytes`).
  - Because every list length ends exactly at its last counter (`ListLength`),
    a short block or list read always ends in a decode failure.
- When the game exits, the inner loop is left without closing the process
  handle (`PollExitAndFailure`).

## Model

| member | source | states |
|---|---|---|
| Bytes.LeU32Bytes | src/mem_reader.rs:159 | a 4-byte little-endian read is the sum of its bytes weighted by powers of 256 |
| Bytes.LeU64RoundTrip | src/stats.rs:300 | an 8-byte little-endian read yields `v` exactly when the bytes are the little-endian encoding of `v` |
| Win32.ReadProcessMemory | src/mem_reader.rs:170-180 | fails exactly when bytes are requested and the first is unreadable; otherwise it copies the longest readable prefix into the buffer, reports its length and leaves the rest of the buffer unchanged |
| Win32.FetchComplete | src/mem_reader.rs:170-180 | the copied prefix has the requested length exactly when the whole range is readable |
| Win32.EnumProcessModules | src/mem_reader.rs:103-116 | on success reports 8 bytes per module and stores the first 1024 module handles in order, leaving the rest of the array alone; on failure changes nothing |
| Win32.ObservedExitCode | src/mem_reader.rs:233-235 | the process counts as still active only when `GetExitCodeProcess` succeeds and reports `STILL_ACTIVE`; a failed call reads as exited |
| Win32.FilledPathInjective | src/mem_reader.rs:120-133 | two names shorter than MAX_PATH and without NUL fill equal buffers exactly when they are equal, so the buffer comparison is a name comparison |
| IoCursor.Cursor.constructor | src/mem_reader.rs:183 | a new cursor is at position 0 over the bytes read |
| IoCursor.Cursor.ReadU64Le | src/stats.rs:300 | with 8 bytes left, returns their little-endian value and advances by 8; otherwise fails with end of file and moves to the end |
| IoCursor.Cursor.Seek | src/stats.rs:301 | moves forward by `delta`, past the end if need be, and fails only when the `u64` position would overflow |
| MemReader.ExeNameMatchesExactly | src/mem_reader.rs:57 | the 13-byte prefix test matches a NUL-terminated entry name exactly when that name is "Spelunky.exe" |
| MemReader.FirstExeEntry | src/mem_reader.rs:52-75 | the first process entry that matches, and none exactly when no entry matches |
| MemReader.ProcessSearchOpensFirstMatch | src/mem_reader.rs:29-78 | the search succeeds exactly when the snapshot works, some entry matches and the first match can be opened; it then returns a new handle on that process; a failed search opens no process handle |
| MemReader.GetSpelunkyProcess | src/mem_reader.rs:29-78 | the snapshot walk returns what `ProcessSearch` describes: same result, same handle table, including the snapshot handle left open when nothing matches |
| MemReader.FirstImageModule | src/mem_reader.rs:119-139 | the first module whose name lookup succeeds and whose name buffer equals the image's; none exactly when no module qualifies |
| MemReader.GetBaseAddr | src/mem_reader.rs:80-142 | the enumeration loop returns `BaseAddress`: the image-name and enumeration failures, the first matching module handle, not-found, or the out-of-bounds index past 1024 modules |
| MemReader.PrefixValueFetch | src/mem_reader.rs:144-159 | the pointer value equals the little-endian value of the bytes the read copied |
| MemReader.ReadUPtr32 | src/mem_reader.rs:144-160 | succeeds exactly when the first byte is readable, and then yields the little-endian value of the zero-padded copied prefix |
| MemReader.PointerAtBytes | src/mem_reader.rs:144-160 | a full read gives the four bytes' little-endian value; any read gives a value below 256 to the number of bytes copied, at most 2^32 |
| MemReader.ReadNBytes | src/mem_reader.rs:162-184 | succeeds exactly when nothing is requested or the first byte is readable, and then yields a fresh cursor at 0 over exactly the copied prefix |
| SpelunkyStats.Stats.Counters | src/stats.rs:102-122 | the 89 counters in declaration order: the 14 scalars, then each category's values in its own order |
| SpelunkyStats.CountersRoundTrip | src/stats.rs:11-122 | building a record from 89 counters and listing its counters gives them back |
| SpelunkyStats.RecordRoundTrip | src/stats.rs:11-122 | listing a record's counters and rebuilding gives the same record |
| SpelunkyStats.DefaultIsZero | src/stats.rs:101-122 | every counter of the derived `Stats::default()` is `0.0` |
| SpelunkyStats.IsNaNFields | src/stats.rs:101 | the NaN test is the IEEE 754 one: all exponent bits set and a non-zero fraction |
| SpelunkyStats.F64EqReflexive | src/stats.rs:101 | an `f64` equals itself exactly when it is not NaN; `0.0 == -0.0` |
| SpelunkyStats.F64EqEquivalence | src/stats.rs:101 | `f64` equality is symmetric and transitive |
| SpelunkyStats.F64Eq | src/stats.rs:101 | `f64 ==` on bit patterns: a NaN equals nothing, the two zeros are equal, and other equal values have the same bits |
| SpelunkyStats.StatsEq | src/stats.rs:101 | the derived `PartialEq` on `Stats` holds exactly when every pair of counters is `f64`-equal |
| SpelunkyStats.CountersEqEvery | src/stats.rs:101 | the field-by-field derived equality holds exactly when every pair of counters is `f64`-equal |
| SpelunkyStats.StatsEqNaN | src/mem_reader.rs:253 | a record holding a NaN is unequal to every record, itself included; a record without one equals itself |
| SpelunkyStats.ListLength | src/stats.rs:345-349 | each list read's length (0x158 here, likewise at lines 404, 482 and 524) ends exactly at the category's last value word |
| SpelunkyStats.SlotOf | src/stats.rs:300-591 | every counter is stored either inside the 0x2d8-byte block or at an index within its category's list |
| SpelunkyStats.WriteOrderInverse | src/stats.rs:300-591 | the assignment order is a permutation of the counters, so each is assigned exactly once |
| SpelunkyStats.HeadField | src/stats.rs:340-343 | a category's first counter is read from the block, at its place in both orders (likewise at lines 399, 478 and 520) |
| SpelunkyStats.CategoryOrder | src/stats.rs:340-589 | the category head words lie 0x28 apart after the scalars, each category's counters follow the previous one's, and the last ends where the monkey kills come |
| SpelunkyStats.ListField | src/stats.rs:351-394 | the `k`-th list value of a category is assigned right after its head and earlier list values |
| SpelunkyStats.ScalarLayout | src/stats.rs:300-340 | scalar `i` is the word at offset `0x28 * i` of the block |
| SpelunkyStats.CategoryLayout | src/stats.rs:342-587 | a category's head is the word after the previous head, and its list values lie every 0x18 bytes from 0x20 past the list's address |
| SpelunkyStats.MonkeyLayout | src/stats.rs:589-591 | the monkey kills counter is the block's last word |
| SpelunkyStats.FieldWord | src/stats.rs:293-591 | when every read succeeds, each designated counter is the 8-byte word at its address in process memory |
| SpelunkyStats.MergeStep | src/stats.rs:300-591 | assigning the next counter in order moves the partial record one step toward the read one |
| SpelunkyStats.ReadListValues | src/stats.rs:351-394 | reads one word every 0x18 bytes of a list into its counters; succeeds exactly when the whole list was read, else stops partway with the earlier values assigned |
| SpelunkyStats.ReadList | src/stats.rs:345-349 | follows the two pointers of a category's list and reads it; succeeds exactly when every read of the list succeeds |
| SpelunkyStats.ReadCategory | src/stats.rs:342-396 | reads a category's head word, its list and the trailing seek; on success the list was readable and the cursor is at the next head |
| SpelunkyStats.ReadScalars | src/stats.rs:300-340 | reads the 14 scalars with their seeks; fails only when the block was not read in full |
| SpelunkyStats.ReadCategories | src/stats.rs:342-589 | reads the four categories in order; succeeds exactly when the block and all four lists were readable, leaving the cursor at the monkey word |
| SpelunkyStats.LocateBlock | src/stats.rs:293-298 | follows the pointer chain from the base address and reads the block, failing exactly when one of the three reads fails |
| SpelunkyStats.ReadCounters | src/stats.rs:293-593 | yields every designated counter exactly when every read succeeds; otherwise a proper prefix of the assignment order is done |
| SpelunkyStats.UpdateFromMemory | src/stats.rs:292-594 | success exactly when every read succeeds, then the designated record whatever the starting one; on failure the record is partly updated in assignment order |
| SpelunkyStats.FromMemory | src/stats.rs:286-290 | a record exactly when every read succeeds, and then the designated one |
| Tracker.ConnectAttemptResult | src/mem_reader.rs:205-226 | a connection is made exactly when the first matching process opens and its base address resolves; it is on a new handle to that process; the attempt panics exactly when the lookup indexes past the 1024 module handles, leaving that handle open; any other failed attempt leaves no extra process handle open |
| Tracker.ConnectSendsConnecting | src/mem_reader.rs:195-231 | every outer pass sends `Connecting` and nothing else; a new connection starts from the default record at the current time; the thread halts exactly on the module-array panic, holding one more process handle |
| Tracker.HaltedStaysHalted | src/mem_reader.rs:124 | after the module-array panic the thread never sends anything or changes a handle again |
| Tracker.ShouldPublish | src/mem_reader.rs:253-254 | a record holding a NaN always passes the publish test; an unchanged record without one passes exactly when more than a second has passed |
| Tracker.PollPublishes | src/mem_reader.rs:232-266 | a payload is sent exactly when the process is alive, the decode succeeds and the record differs or more than a second has passed; it carries the designated record |
| Tracker.PollExitAndFailure | src/mem_reader.rs:233-251 | an exited process sends the tracker back to searching with the handle still open; a failed decode changes nothing |
| Tracker.NaNAlwaysPublishes | src/mem_reader.rs:253-263 | a record holding a NaN is sent at every poll |
| Tracker.NoRepeatWithinASecond | src/mem_reader.rs:253-263 | the same NaN-free record polled again within a second sends nothing and changes nothing |
| Tracker.AbsentTrace | src/mem_reader.rs:195-226 | while no process matches, every pass sends one `Connecting` and opens no process handle |
| Tracker.TrackerTask.constructor | src/mem_reader.rs:193-194 | the tracker starts searching, with nothing sent |
| Tracker.TrackerTask.Connect | src/mem_reader.rs:195-231 | one outer pass performs `AfterConnect` (retry, connect, or halt on the module-array panic) and keeps the handle invariant |
| Tracker.TrackerTask.Poll | src/mem_reader.rs:232-266 | one inner pass performs `AfterPoll` and keeps the handle invariant |
| Tracker.TrackerTask.Publish | src/mem_reader.rs:253-263 | the publish step performs `Published` |
| Tracker.TrackerTask.Step | src/mem_reader.rs:195-267 | one pass of whichever loop the tracker is in performs `Next`; a halted thread does nothing |

## Left out

- SpelunkyStats.FromMemory: each pass of the tracker takes one snapshot of the system (memory and exit code), so the liveness check and every read of one decode see the same memory. The game keeps running between those reads, so the source can return a record that mixes values written at different moments, and the process can exit between the liveness check and the decode. Neither is modelled; `r.value == Layout(mem, base)` holds for the frozen snapshot only.

- Win32.ReadProcessMemory: Windows documents that the call fails unless the whole requested range is accessible. The model does not capture that all-or-nothing failure: a read whose first byte is readable succeeds with the readable prefix. `MemReader.ReadUPtr32`'s "succeeds exactly when the first byte is readable", the short-read case of `MemReader.PointerAtBytes` and the first-byte-only conditions on the pointer reads in `SpelunkyStats.LayoutReadable` hold for this behaviour; under all-or-nothing failure those reads would fail instead.

- The sleeps (1 s after a failure or an exit, 100 ms between polls) are left out. The clock is a parameter `now` of each pass, read once per pass. The source reads `Instant::now()` twice per publish; the model uses one reading.
- Subtracting a clock reading taken before `last_update` counts as no time passed. `Instant` subtraction saturates this way.
- `println!`/`eprintln!` and the `connecting` flag are left out. The flag only controls console output.
- Serialisation of `TrackerMessage` and `Stats` (serde) is left out. The client front end and the web server are not part of this model.
- Errors from sending on the broadcast channel are ignored by the source. The model appends every message to `sent`.
- The anyhow error messages are left out. Errors are small enums that keep only which call failed.
- Floating point is only modelled where the source compares records: counters are raw `f64` bit patterns, and `PartialEq` is IEEE 754 equality on them.
- Addresses are unbounded naturals. The source's `usize` additions on the base and list addresses, and the `u64` cursor position in the list-pointer address, could wrap on a 32-bit build; the model does not wrap them.
- GetModuleFileNameExA is modelled as copying at most MAX_PATH - 1 bytes and a NUL into a zeroed buffer. Its exact truncation rules are not modelled.
- The byte size of HMODULE is fixed at 8.
- When `Process32First` fails or no entry matches, `get_spelunky_process` leaves the snapshot handle open, as the source does. The model records this in the handle table but proves nothing about handles leaking over many passes.
- The Tokio runtime, the thread that runs `run_forever` and `main.rs` are not part of this model.
