/** The operating-system interface the tracker calls through FFI, reduced to an
    oracle: a process table, each process's module list, readable memory and exit
    code, and the handle table of the tracker's own process. Every Win32 call of
    the source is a function or a small method over these values. */
module Win32 {
  import opened Bytes
  import opened Wrappers

  const MAX_PATH: nat := 260
  /** `STILL_ACTIVE`, the exit code of a process that has not exited. */
  const STILL_ACTIVE: nat := 259

  /** A fixed `[CHAR; MAX_PATH]` buffer such as `PROCESSENTRY32::szExeFile`. */
  type PathBuffer = s: seq<u8> | |s| == MAX_PATH witness seq(MAX_PATH, _ => 0)

  /** The readable part of a process's address space. */
  type Memory = map<nat, u8>

  /** Every address of `[addr, addr + n)` is readable. */
  ghost predicate Readable(mem: Memory, addr: nat, n: nat)
    decreases n
  {
    n == 0 || (addr in mem && Readable(mem, addr + 1, n - 1))
  }

  /** `Readable` is the statement that each address of the range is in the map. */
  lemma {:induction false} ReadableEvery(mem: Memory, addr: nat, n: nat)
    ensures Readable(mem, addr, n) <==> forall a :: addr <= a < addr + n ==> a in mem
    decreases n
  {
    if n > 0 {
      ReadableEvery(mem, addr + 1, n - 1);
    }
  }

  /** The bytes `ReadProcessMemory` copies from `addr` when asked for `n`: the
      longest readable prefix of the range (`FetchBytes` states which bytes). */
  function Fetch(mem: Memory, addr: nat, n: nat): (r: seq<u8>)
    ensures |r| <= n
    ensures |r| < n ==> addr + |r| !in mem
    decreases n
  {
    if n == 0 || addr !in mem then [] else [mem[addr]] + Fetch(mem, addr + 1, n - 1)
  }

  /** Every fetched byte is the byte stored at its address. */
  lemma {:induction false} FetchBytes(mem: Memory, addr: nat, n: nat)
    ensures forall a :: addr <= a < addr + |Fetch(mem, addr, n)| ==>
              a in mem && Fetch(mem, addr, n)[a - addr] == mem[a]
    decreases n
  {
    if n > 0 && addr in mem {
      var r, rest := Fetch(mem, addr, n), Fetch(mem, addr + 1, n - 1);
      FetchBytes(mem, addr + 1, n - 1);
      forall a | addr < a < addr + |r|
        ensures a in mem && r[a - addr] == mem[a]
      {
        assert r[a - addr] == rest[a - (addr + 1)];
      }
    }
  }

  /** The whole range comes back exactly when all of it is readable. */
  lemma {:induction false} FetchComplete(mem: Memory, addr: nat, n: nat)
    ensures |Fetch(mem, addr, n)| == n <==> Readable(mem, addr, n)
    decreases n
  {
    if n > 0 && addr in mem {
      FetchComplete(mem, addr + 1, n - 1);
    }
  }

  /** `ReadProcessMemory(process, addr, buf, n, &bytes_read)`: fails when nothing at
      `addr` is readable; otherwise fills `buf[..bytes_read]` with the readable
      prefix of the range and leaves the rest of `buf` as it was. */
  method ReadProcessMemory(mem: Memory, addr: nat, buf: array<u8>, n: nat) returns (ok: bool, bytesRead: nat)
    requires n <= buf.Length
    modifies buf
    ensures ok <==> n == 0 || addr in mem
    ensures ok ==> bytesRead == |Fetch(mem, addr, n)| && buf[..bytesRead] == Fetch(mem, addr, n)
    ensures ok ==> buf[bytesRead..] == old(buf[bytesRead..])
    ensures !ok ==> bytesRead == 0 && buf[..] == old(buf[..])
  {
    ok := n == 0 || addr in mem;
    bytesRead := 0;
    if !ok {
      return;
    }
    ghost var fetched := Fetch(mem, addr, n);
    FetchBytes(mem, addr, n);
    while bytesRead < n && addr + bytesRead in mem
      invariant bytesRead <= |fetched|
      invariant buf[..bytesRead] == fetched[..bytesRead]
      invariant buf[bytesRead..] == old(buf[bytesRead..])
    {
      buf[bytesRead] := mem[addr + bytesRead];
      bytesRead := bytesRead + 1;
    }
  }

  /** A loaded module: its handle (its load address) and the name
      `GetModuleFileNameExA` reports for it, `None` when that call fails. */
  datatype Module = Module(handle: nat, fileName: Option<seq<u8>>)

  /** One running process, as far as the tracker can observe it. */
  datatype Target = Target(
    openable: bool,              // OpenProcess(PROCESS_QUERY_INFORMATION | PROCESS_VM_READ) succeeds
    exitCode: Option<nat>,       // what GetExitCodeProcess reports; None when the call fails
    imageName: Option<seq<u8>>,  // GetModuleFileNameExA(process, NULL)
    modulesOk: bool,             // EnumProcessModules succeeds
    modules: seq<Module>,        // the modules it enumerates, in order
    memory: Memory)

  /** What every call on a handle that names no live process observes: all of them fail. */
  const GONE: Target := Target(false, None, None, false, [], map[])

  /** One entry of the `CreateToolhelp32Snapshot` process list. */
  datatype ProcessEntry = ProcessEntry(pid: nat, exeFile: PathBuffer)

  /** The system at one moment: whether a snapshot can be taken, the process list
      it enumerates in order, and the processes by id. */
  datatype World = World(snapshotOk: bool, entries: seq<ProcessEntry>, targets: map<nat, Target>)

  /** The tracker's handle table: open handles, the next handle value, and for
      process handles the process they were opened on. */
  datatype Kernel = Kernel(open: set<nat>, next: nat, processOf: map<nat, nat>) {
    /** Every handle given out so far is below `next`. */
    ghost predicate Valid() {
      && (forall h :: h in open ==> h < next)
      && (forall h :: h in processOf ==> h < next)
    }
  }

  /** A new handle, owned by `pid` when it is a process handle. */
  function Allocate(k: Kernel, pid: Option<nat>): (r: (Kernel, nat))
    ensures r.1 == k.next && r.0.next == k.next + 1
    ensures r.0.open == k.open + {r.1}
    ensures k.Valid() ==> r.0.Valid() && r.1 !in k.open
    ensures pid.Some? ==> r.0.processOf == k.processOf[r.1 := pid.value]
    ensures pid.None? ==> r.0.processOf == k.processOf
  {
    var h := k.next;
    (Kernel(k.open + {h}, h + 1, if pid.Some? then k.processOf[h := pid.value] else k.processOf), h)
  }

  /** `CloseHandle(h)`. */
  function Close(k: Kernel, h: nat): (r: Kernel)
    ensures r.open == k.open - {h} && r.next == k.next && r.processOf == k.processOf
    ensures k.Valid() ==> r.Valid()
  {
    k.(open := k.open - {h})
  }

  /** The process an open process handle refers to; `GONE` when there is none. */
  function TargetOf(w: World, k: Kernel, h: nat): Target {
    if h in k.open && h in k.processOf && k.processOf[h] in w.targets then w.targets[k.processOf[h]] else GONE
  }

  /** The name `GetModuleFileNameExA(process, module, ..)` reports: the image's
      own path for the NULL module, otherwise the first module with that handle. */
  function ModuleName(t: Target, hModule: nat): Option<seq<u8>> {
    if hModule == 0 then t.imageName else FindModuleName(t.modules, hModule)
  }

  function FindModuleName(mods: seq<Module>, hModule: nat): Option<seq<u8>> {
    if mods == [] then None
    else if mods[0].handle == hModule then mods[0].fileName
    else FindModuleName(mods[1..], hModule)
  }

  /** How many bytes of a name fit in a MAX_PATH buffer with its terminating NUL. */
  function CopiedLength(name: seq<u8>): (r: nat)
    ensures r <= |name| && r < MAX_PATH
    ensures |name| < MAX_PATH ==> r == |name|
  {
    if |name| < MAX_PATH then |name| else MAX_PATH - 1
  }

  /** A zero-initialised MAX_PATH buffer after a name was copied into it. */
  function FilledPath(name: seq<u8>): (b: PathBuffer)
    ensures forall i :: 0 <= i < CopiedLength(name) ==> b[i] == name[i]
    ensures forall i :: CopiedLength(name) <= i < MAX_PATH ==> b[i] == 0
  {
    var k := CopiedLength(name);
    var b := seq(MAX_PATH, i requires 0 <= i < MAX_PATH => if i < k then name[i] else 0);
    assert |b| == MAX_PATH;
    b
  }

  /** The value `GetModuleFileNameExA` returns: the number of bytes copied, 0 on failure. */
  function ModuleNameLength(t: Target, hModule: nat): nat {
    match ModuleName(t, hModule)
    case None => 0
    case Some(name) => CopiedLength(name)
  }

  /** The buffer `GetModuleFileNameExA` leaves behind in a zeroed MAX_PATH array. */
  function ModuleNameBuffer(t: Target, hModule: nat): PathBuffer {
    match ModuleName(t, hModule)
    case None => seq(MAX_PATH, _ => 0)
    case Some(name) => FilledPath(name)
  }

  /** Path names as the system stores them: no NUL byte, shorter than MAX_PATH. */
  predicate PlainName(name: seq<u8>) {
    |name| < MAX_PATH && forall i :: 0 <= i < |name| ==> name[i] != 0
  }

  /** Comparing whole MAX_PATH buffers compares the names they hold. */
  lemma FilledPathInjective(a: seq<u8>, b: seq<u8>)
    requires PlainName(a) && PlainName(b)
    ensures FilledPath(a) == FilledPath(b) <==> a == b
  {
    if a != b {
      if |a| < |b| {
        assert FilledPath(a)[|a|] != FilledPath(b)[|a|];
      } else if |b| < |a| {
        assert FilledPath(b)[|b|] != FilledPath(a)[|b|];
      } else {
        var i :| 0 <= i < |a| && a[i] != b[i];
        assert FilledPath(a)[i] != FilledPath(b)[i];
      }
    }
  }

  /** The exit code the tracker observes: `exit_code` starts at 0 and
      `GetExitCodeProcess` overwrites it only when the call succeeds, so a
      failed call reads as an exited process. */
  function ObservedExitCode(t: Target): (code: nat)
    ensures code == STILL_ACTIVE <==> t.exitCode == Some(STILL_ACTIVE)
  {
    match t.exitCode
    case None => 0
    case Some(code) => code
  }

  /** Capacity of the tracker's `[HMODULE; 1024]` array. */
  const MODULE_CAPACITY: nat := 1024
  /** `size_of::<HMODULE>()` in a 64-bit build. */
  const HMODULE_SIZE: nat := 8

  /** The handles `EnumProcessModules` stores: as many of the module list as fit. */
  function StoredHandles(t: Target): (r: seq<nat>)
    ensures |r| == if |t.modules| < MODULE_CAPACITY then |t.modules| else MODULE_CAPACITY
    ensures forall i :: 0 <= i < |r| ==> r[i] == t.modules[i].handle
  {
    var n := if |t.modules| < MODULE_CAPACITY then |t.modules| else MODULE_CAPACITY;
    seq(n, i requires 0 <= i < n => t.modules[i].handle)
  }

  /** `EnumProcessModules(process, handles, size_of::<[HMODULE; 1024]>(), &bytes_written)`:
      stores the handles that fit and reports the bytes needed for all of them. */
  method EnumProcessModules(t: Target, handles: array<nat>) returns (ok: bool, bytesNeeded: nat)
    requires handles.Length == MODULE_CAPACITY
    modifies handles
    ensures ok == t.modulesOk
    ensures ok ==> bytesNeeded == |t.modules| * HMODULE_SIZE
    ensures ok ==> handles[..|StoredHandles(t)|] == StoredHandles(t)
    ensures ok ==> handles[|StoredHandles(t)|..] == old(handles[|StoredHandles(t)|..])
    ensures !ok ==> handles[..] == old(handles[..]) && bytesNeeded == 0
  {
    ok := t.modulesOk;
    bytesNeeded := 0;
    if !ok {
      return;
    }
    var stored := StoredHandles(t);
    for i := 0 to |stored|
      invariant forall j :: 0 <= j < i ==> handles[j] == stored[j]
      invariant forall j :: i <= j < handles.Length ==> handles[j] == old(handles[j])
    {
      handles[i] := stored[i];
    }
    assert handles[..|stored|] == stored;
    bytesNeeded := |t.modules| * HMODULE_SIZE;
  }
}
