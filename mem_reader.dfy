/** The remote-memory primitives of `mem_reader.rs`: finding the game's process,
    resolving the load address of its executable module, and reading a pointer
    or a block of bytes from its memory. */
module MemReader {
  import opened Bytes
  import opened Wrappers
  import opened Win32
  import opened IoCursor

  /** `EXE_NAME`: the 13 bytes "Spelunky.exe" followed by its NUL terminator. */
  const EXE_NAME: seq<u8> := [0x53, 0x70, 0x65, 0x6c, 0x75, 0x6e, 0x6b, 0x79, 0x2e, 0x65, 0x78, 0x65, 0x00]

  /** "Spelunky.exe" without the terminator. */
  const SPELUNKY_EXE: seq<u8> := EXE_NAME[..12]

  /** `&process.szExeFile[..EXE_NAME.len()] == EXE_NAME`. */
  predicate ExeNameMatches(exeFile: PathBuffer) {
    exeFile[..|EXE_NAME|] == EXE_NAME
  }

  /** The prefix test is an exact, case-sensitive name comparison: a buffer that
      holds a NUL-terminated name matches exactly when the name is "Spelunky.exe",
      whatever follows the terminator. */
  lemma ExeNameMatchesExactly(exeFile: PathBuffer, name: seq<u8>)
    requires PlainName(name)
    requires exeFile[..|name|] == name && exeFile[|name|] == 0
    ensures ExeNameMatches(exeFile) <==> name == SPELUNKY_EXE
  {
    if name == SPELUNKY_EXE {
      assert exeFile[..13] == exeFile[..12] + [exeFile[12]];
    } else if |name| < 12 {
      assert exeFile[..13][|name|] != EXE_NAME[|name|];
    } else if |name| > 12 {
      assert exeFile[..13][12] != EXE_NAME[12];
    } else {
      var i :| 0 <= i < 12 && name[i] != SPELUNKY_EXE[i];
      assert exeFile[..13][i] != EXE_NAME[i];
    }
  }

  datatype ProcessError =
    | SnapshotFailed   // CreateToolhelp32Snapshot returned INVALID_HANDLE_VALUE
    | NoFirstProcess   // Process32First failed
    | NoProcessFound   // Process32Next ran out of entries
    | OpenFailed       // OpenProcess returned NULL

  /** The index of the first process entry whose name matches. */
  function FirstExeEntry(entries: seq<ProcessEntry>): (r: Option<nat>)
    ensures r.Some? ==> r.value < |entries| && ExeNameMatches(entries[r.value].exeFile)
    ensures r.Some? ==> forall j :: 0 <= j < r.value ==> !ExeNameMatches(entries[j].exeFile)
    ensures r.None? <==> forall j :: 0 <= j < |entries| ==> !ExeNameMatches(entries[j].exeFile)
  {
    if entries == [] then None
    else if ExeNameMatches(entries[0].exeFile) then Some(0)
    else match FirstExeEntry(entries[1..])
      case None => None
      case Some(i) => Some(i + 1)
  }

  /** Whether `OpenProcess` on this process id returns a handle. */
  predicate Openable(w: World, pid: nat) {
    pid in w.targets && w.targets[pid].openable
  }

  datatype Search = Search(result: Result<nat, ProcessError>, kernel: Kernel)

  /** What `get_spelunky_process` does to the handle table and returns: the
      snapshot handle is closed only when a matching entry is found, and the
      first matching entry is the one opened. */
  function ProcessSearch(w: World, k: Kernel): Search {
    if !w.snapshotOk then Search(Err(SnapshotFailed), k)
    else
      var (k1, snapshot) := Allocate(k, None);
      if w.entries == [] then Search(Err(NoFirstProcess), k1)
      else match FirstExeEntry(w.entries)
        case None => Search(Err(NoProcessFound), k1)
        case Some(i) =>
          var k2 := Close(k1, snapshot);
          var pid := w.entries[i].pid;
          if !Openable(w, pid) then Search(Err(OpenFailed), k2)
          else
            var (k3, process) := Allocate(k2, Some(pid));
            Search(Ok(process), k3)
  }

  /** A successful search opens the first entry named "Spelunky.exe", on a handle
      that was not open before; a failed one leaves no new process handle. */
  lemma ProcessSearchOpensFirstMatch(w: World, k: Kernel)
    requires k.Valid()
    ensures var s := ProcessSearch(w, k);
      s.kernel.Valid() &&
      (s.result.Ok? <==> (w.snapshotOk && FirstExeEntry(w.entries).Some? &&
                           Openable(w, w.entries[FirstExeEntry(w.entries).value].pid))) &&
      (s.result.Ok? ==> s.result.value !in k.open && s.result.value in s.kernel.open &&
                        s.kernel.processOf[s.result.value] == w.entries[FirstExeEntry(w.entries).value].pid) &&
      (s.result.Err? ==> s.kernel.processOf == k.processOf)
  {
  }

  /** `get_spelunky_process`: walks the snapshot with Process32First/Process32Next. */
  method GetSpelunkyProcess(w: World, k: Kernel) returns (r: Result<nat, ProcessError>, k': Kernel)
    ensures Search(r, k') == ProcessSearch(w, k)
  {
    if !w.snapshotOk {
      return Err(SnapshotFailed), k;
    }
    var (k1, snapshot) := Allocate(k, None);
    if |w.entries| == 0 {
      return Err(NoFirstProcess), k1;
    }
    var i := 0;
    while true
      invariant 0 <= i < |w.entries|
      invariant forall j :: 0 <= j < i ==> !ExeNameMatches(w.entries[j].exeFile)
      decreases |w.entries| - i
    {
      if ExeNameMatches(w.entries[i].exeFile) {
        var k2 := Close(k1, snapshot);
        var pid := w.entries[i].pid;
        if !Openable(w, pid) {
          return Err(OpenFailed), k2;
        }
        var (k3, process) := Allocate(k2, Some(pid));
        return Ok(process), k3;
      }
      if i + 1 == |w.entries| {
        return Err(NoProcessFound), k1;
      }
      i := i + 1;
    }
  }

  datatype BaseAddrError =
    | ImageNameFailed    // GetModuleFileNameExA for the image returned 0
    | EnumFailed         // EnumProcessModules failed
    | ModuleNotFound     // no enumerated module carries the image's name
    | IndexOutOfBounds   // `module_handles[idx]` with idx >= 1024: a panic in the source

  /** A module handle whose name lookup succeeds and fills the same MAX_PATH
      buffer as the image-name lookup. */
  predicate ModuleMatches(t: Target, h: nat, image: PathBuffer) {
    ModuleNameLength(t, h) != 0 && ModuleNameBuffer(t, h) == image
  }

  /** The index of the first stored handle that matches the image. */
  function FirstImageModule(t: Target, handles: seq<nat>, image: PathBuffer): (r: Option<nat>)
    ensures r.Some? ==> r.value < |handles| && ModuleMatches(t, handles[r.value], image)
    ensures r.Some? ==> forall j :: 0 <= j < r.value ==> !ModuleMatches(t, handles[j], image)
    ensures r.None? <==> forall j :: 0 <= j < |handles| ==> !ModuleMatches(t, handles[j], image)
  {
    if handles == [] then None
    else if ModuleMatches(t, handles[0], image) then Some(0)
    else match FirstImageModule(t, handles[1..], image)
      case None => None
      case Some(i) => Some(i + 1)
  }

  /** What `get_base_addr` returns. The module count `bytes_written / 8` is not
      checked against the array's 1024 entries: with more modules than that and
      no match among the first 1024, the source indexes past the array. */
  function BaseAddress(t: Target): Result<nat, BaseAddrError> {
    if ModuleNameLength(t, 0) == 0 then Err(ImageNameFailed)
    else if !t.modulesOk then Err(EnumFailed)
    else match FirstImageModule(t, StoredHandles(t), ModuleNameBuffer(t, 0))
      case Some(i) => Ok(StoredHandles(t)[i])
      case None => if |t.modules| > MODULE_CAPACITY then Err(IndexOutOfBounds) else Err(ModuleNotFound)
  }

  /** `get_base_addr`: looks up the image name, enumerates the modules into a
      1024-entry array and returns the first module whose name buffer equals it. */
  method GetBaseAddr(t: Target) returns (r: Result<nat, BaseAddrError>)
    ensures r == BaseAddress(t)
  {
    var image := ModuleNameBuffer(t, 0);
    if ModuleNameLength(t, 0) == 0 {
      return Err(ImageNameFailed);
    }
    var moduleHandles := new nat[MODULE_CAPACITY](_ => 0);
    var ok, bytesWritten := EnumProcessModules(t, moduleHandles);
    if !ok {
      return Err(EnumFailed);
    }
    var numModules := bytesWritten / HMODULE_SIZE;
    assert numModules == |t.modules|;
    ghost var stored := StoredHandles(t);
    for idx := 0 to numModules
      invariant idx <= |stored| || idx == MODULE_CAPACITY
      invariant forall j :: 0 <= j < idx ==> !ModuleMatches(t, stored[j], image)
    {
      if idx >= moduleHandles.Length {
        return Err(IndexOutOfBounds);
      }
      assert moduleHandles[idx] == moduleHandles[..|stored|][idx] == stored[idx];
      if ModuleNameLength(t, moduleHandles[idx]) == 0 {
        continue;
      }
      if ModuleNameBuffer(t, moduleHandles[idx]) != image {
        continue;
      }
      return Ok(moduleHandles[idx]);
    }
    return Err(ModuleNotFound);
  }

  datatype ReadError = ReadFailed   // ReadProcessMemory returned 0

  /** The little-endian value of the readable prefix of the n bytes at addr; the
      bytes past the first unreadable address count as zero. */
  function PrefixValue(mem: Memory, addr: nat, n: nat): nat
    decreases n
  {
    if n == 0 || addr !in mem then 0 else mem[addr] as nat + 0x100 * PrefixValue(mem, addr + 1, n - 1)
  }

  /** The pointer `read_uptr32_t` yields: the little-endian value of the 4-byte
      buffer after the bytes that could be copied were written into it. */
  function PointerAt(mem: Memory, addr: nat): nat {
    PrefixValue(mem, addr, 4)
  }

  lemma {:induction false} PrefixValueFetch(mem: Memory, addr: nat, n: nat)
    ensures PrefixValue(mem, addr, n) == LeValue(Fetch(mem, addr, n))
    decreases n
  {
    if n > 0 && addr in mem {
      PrefixValueFetch(mem, addr + 1, n - 1);
      assert Fetch(mem, addr, n)[1..] == Fetch(mem, addr + 1, n - 1);
    }
  }

  /** `read_uptr32_t`: a zeroed 4-byte buffer, one ReadProcessMemory into it; the
      number of bytes read is not checked. */
  method ReadUPtr32(mem: Memory, addr: nat) returns (r: Result<u32, ReadError>)
    ensures r.Ok? <==> addr in mem
    ensures r.Ok? ==> r.value == PointerAt(mem, addr)
  {
    var buf := new u8[4](_ => 0);
    var ok, bytesRead := ReadProcessMemory(mem, addr, buf, 4);
    if !ok {
      return Err(ReadFailed);
    }
    assert buf[..] == buf[..bytesRead] + buf[bytesRead..];
    assert buf[bytesRead..] == seq(4 - bytesRead, _ => 0);
    LeValueZeroPadded(buf[..bytesRead], 4 - bytesRead);
    PrefixValueFetch(mem, addr, 4);
    return Ok(LeU32(buf[..]));
  }

  /** A pointer read that copied all four bytes is their little-endian value;
      one that copied fewer is below 256 to the number copied, the missing high
      bytes reading as zero; either way it fits in 32 bits. */
  lemma PointerAtBytes(mem: Memory, addr: nat)
    ensures Readable(mem, addr, 4) ==>
      PointerAt(mem, addr) == (mem[addr] as int) + 0x100 * (mem[addr + 1] as int) + 0x1_0000 * (mem[addr + 2] as int) + 0x100_0000 * (mem[addr + 3] as int)
    ensures PointerAt(mem, addr) < Pow256(|Fetch(mem, addr, 4)|) <= 0x1_0000_0000
  {
    FetchComplete(mem, addr, 4);
    var f := Fetch(mem, addr, 4);
    PrefixValueFetch(mem, addr, 4);
    LeValueBound(f);
    Pow256Monotone(|f|, 4);
    Pow256Widths();
    if |f| == 4 {
      LeU32Bytes(f);
    }
  }

  /** `read_n_bytes`: a buffer of capacity n, one ReadProcessMemory into it, then
      `set_len(bytes_read)`; the cursor starts at position 0. */
  method ReadNBytes(mem: Memory, addr: nat, n: nat) returns (r: Result<Cursor, ReadError>)
    requires n < POSITION_LIMIT
    ensures r.Ok? <==> n == 0 || addr in mem
    ensures r.Ok? ==> fresh(r.value) && r.value.Valid() && r.value.pos == 0
    ensures r.Ok? ==> r.value.data == Fetch(mem, addr, n)
  {
    var buf := new u8[n](_ => 0);
    var ok, bytesRead := ReadProcessMemory(mem, addr, buf, n);
    if !ok {
      return Err(ReadFailed);
    }
    var cursor := new Cursor(buf[..bytesRead]);
    return Ok(cursor);
  }
}
