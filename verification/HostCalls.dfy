/**
 The host functions a WASM process can call, on values: each call maps the calling process and the
 shared kernel state to their new values and an outcome. The host's `i64` arguments are given by
 their 64 bits.
 */
module HostCalls {
  import opened Common
  import opened Paths
  import opened Capabilities
  import opened RamFs
  import Semaphore
  import Utf8

  // ---- State ----

  /** `HostState`, with the linear memory of the instance (`None`: no "memory" export). */
  datatype Process = Process(caps: map<CapId, Capability>, fuel: u64, memory: Option<seq<byte>>)

  datatype Permits = Permits(now: nat, max: nat)

  /** What all processes share: the file system, the sync registry and the static counters. */
  datatype Kernel = Kernel(
    fs: Fs,
    mutexes: map<u64, bool>,
    semaphores: map<u64, Permits>,
    nextCap: u32,
    nextMutex: u64,
    nextSemaphore: u64)

  datatype TrapKind = Yield | MutexWait(handle: u64) | SemWait(handle: u64)

  /** `Panic` is a kernel panic: the capacity overflow of `vec![0u8; n]` for a negative `n`. */
  datatype Outcome = Done(code: int) | Trap(kind: TrapKind) | Panic

  datatype Reply = Reply(p: Process, k: Kernel, outcome: Outcome)

  datatype HostCall =
    | Print
    | SchedYield
    | GetCapabilities(ptr: i32, len: i32)
    | FsOpen(cap: u64, ptr: i32, len: i32)
    | FsRead(cap: u64, ptr: i32, len: i32, offset: i32)
    | FsSize(cap: u64)
    | FsClose(cap: u64)
    | FsMkdir(cap: u64, ptr: i32, len: i32)
    | MutexCreate
    | MutexLock(cap: u64)
    | MutexTryLock(cap: u64)
    | MutexUnlock(cap: u64)
    | SemCreate(permits: i32)
    | SemAcquire(cap: u64)
    | SemTryAcquire(cap: u64)
    | SemRelease(cap: u64)

  const CAP_NOT_FOUND := -1
  const NO_MEMORY_EXPORT := -2
  const MEMORY_READ_FAILED := -3
  const INVALID_UTF8 := -4
  const PERMISSION_DENIED := -5
  const NOT_A_DIRECTORY := -6
  const FS_ERROR := -7
  const BUFFER_TOO_SMALL := -8
  const MEMORY_WRITE_FAILED := -9
  const NOT_A_FILE := -10
  const MUTEX_LOCKED := -11
  const SEM_NO_PERMITS := -12
  const INVALID_HANDLE := -13

  const CAP_LOOKUP: nat := 10
  const FS_OPERATION: nat := 100
  const MEMORY_IO: nat := 50
  const YIELD_THRESHOLD: nat := 500
  const SYNC_CREATE: nat := 50
  const SYNC_OPERATION: nat := 20
  const FUEL_PER_SLICE: u64 := 10000

  // ---- Fuel and lookups ----

  /** `consume_fuel`: a saturating subtraction. */
  function Burn(p: Process, cost: nat): Process {
    p.(fuel := if cost <= p.fuel then p.fuel - cost else 0)
  }

  predicate Exhausted(p: Process) {
    p.fuel < YIELD_THRESHOLD
  }

  /** The first charge of a call; `Print` and `SchedYield` are not charged. */
  function Cost(c: HostCall): nat {
    match c
    case Print => 0
    case SchedYield => 0
    case GetCapabilities(_, _) => CAP_LOOKUP
    case FsSize(_) => CAP_LOOKUP
    case FsClose(_) => CAP_LOOKUP
    case FsOpen(_, _, _) => FS_OPERATION
    case FsRead(_, _, _, _) => FS_OPERATION
    case FsMkdir(_, _, _) => FS_OPERATION
    case MutexCreate => SYNC_CREATE
    case SemCreate(_) => SYNC_CREATE
    case _ => SYNC_OPERATION
  }

  predicate Charged(c: HostCall) {
    !c.Print? && !c.SchedYield?
  }

  /** `get_capability`: the entry under this id, if its generation still matches. */
  function Lookup(p: Process, cap: u64): Option<Capability> {
    var id := FromU64(cap);
    if id in p.caps && p.caps[id].generation % 0x1_0000_0000 == id.generation then Some(p.caps[id]) else None
  }

  function Handle32(val: u64): Handle {
    val % 0x1_0000_0000
  }

  function AddCapability(p: Process, cap: Capability): Process {
    p.(caps := p.caps[cap.id := cap])
  }

  function NewCapability(k: Kernel, resource: CapObject, rights: Rights): Capability {
    Capability(CapId(k.nextCap, 0), rights, resource, 0)
  }

  // ---- Linear memory ----

  predicate InBounds(mem: seq<byte>, offset: nat, len: nat) {
    offset + len <= |mem|
  }

  function Store(mem: seq<byte>, offset: nat, bytes: seq<byte>): (mem': seq<byte>)
    requires InBounds(mem, offset, |bytes|)
    ensures |mem'| == |mem|
    ensures forall i | 0 <= i < |mem| :: mem'[i] == if offset <= i < offset + |bytes| then bytes[i - offset] else mem[i]
  {
    mem[..offset] + bytes + mem[offset + |bytes|..]
  }

  /** Writes the pieces one after the other and stops at the first that does not fit. */
  function StoreAll(mem: seq<byte>, offset: nat, pieces: seq<seq<byte>>): (seq<byte>, bool)
    decreases |pieces|
  {
    if pieces == [] then (mem, true)
    else if !InBounds(mem, offset, |pieces[0]|) then (mem, false)
    else StoreAll(Store(mem, offset, pieces[0]), offset + |pieces[0]|, pieces[1..])
  }

  /** The path argument of `sp_fs_open` and `sp_fs_mkdir`, or the outcome that ends the call. */
  function PathArgument(p: Process, ptr: i32, len: i32): Result<seq<byte>, Outcome> {
    if p.memory.None? then Err(Done(NO_MEMORY_EXPORT))
    else if len < 0 then Err(Panic)
    else if !InBounds(p.memory.value, AsUsize(ptr), len) then Err(Done(MEMORY_READ_FAILED))
    else
      var path := p.memory.value[AsUsize(ptr)..AsUsize(ptr) + len];
      if Utf8.WellFormed(path) then Ok(path) else Err(Done(INVALID_UTF8))
  }

  /** `n as i32`. */
  function AsI32(n: nat): (r: i32)
    ensures (r - n) % 0x1_0000_0000 == 0
  {
    var low := n % 0x1_0000_0000;
    if low < 0x8000_0000 then low else low - 0x1_0000_0000
  }

  // ---- The calls, after their first charge ----

  /** The capabilities in the order of their identifiers. */
  ghost function Listing(caps: map<CapId, Capability>): seq<Capability> {
    Values(caps, Ascending(caps.Keys))
  }

  ghost function Values(caps: map<CapId, Capability>, ids: seq<CapId>): seq<Capability>
  {
    if ids == [] || ids[0] !in caps then [] else [caps[ids[0]]] + Values(caps, ids[1..])
  }

  ghost function DoGetCapabilities(p: Process, k: Kernel, ptr: i32, len: i32): Reply {
    if p.memory.None? then Reply(p, k, Done(NO_MEMORY_EXPORT))
    else if AsUsize(len) < 16 * |p.caps| then Reply(p, k, Done(BUFFER_TOO_SMALL))
    else
      var p1 := Burn(p, MEMORY_IO * |p.caps|);
      if Exhausted(p1) then Reply(p1, k, Trap(Yield))
      else
        var (mem, ok) := StoreAll(p1.memory.value, AsUsize(ptr), AllPieces(Listing(p1.caps)));
        Reply(p1.(memory := Some(mem)), k, Done(if ok then AsI32(|p.caps|) else MEMORY_WRITE_FAILED))
  }

  const DIRECTORY_RIGHTS: Rights := {READ, WRITE, EXECUTE, GRANT}
  const FILE_RIGHTS: Rights := {READ, WRITE}

  function DoFsOpen(p: Process, k: Kernel, cap: u64, ptr: i32, len: i32): Reply
    requires Valid(k.fs)
  {
    match PathArgument(p, ptr, len)
    case Err(outcome) => Reply(p, k, outcome)
    case Ok(path) =>
      match Lookup(p, cap)
      case None => Reply(p, k, Done(CAP_NOT_FOUND))
      case Some(parent) =>
        if !parent.resource.DirectoryCap? then Reply(p, k, Done(NOT_A_DIRECTORY))
        else if READ !in parent.rights then Reply(p, k, Done(PERMISSION_DENIED))
        else
          match OpenAt(k.fs, Handle32(parent.resource.handle), path)
          case (_, Err(_)) => Reply(p, k, Done(FS_ERROR))
          case (fs, Ok(h)) =>
            var child := Derive(k, parent, h, IsDir(fs, h));
            Reply(AddCapability(p, child), k.(fs := fs, nextCap := Next32(k.nextCap)), Done(AsU64(child.id)))
  }

  /** The capability `sp_fs_open` derives for a new handle: no right its parent does not have. */
  function Derive(k: Kernel, parent: Capability, h: Handle, isDir: bool): Capability {
    NewCapability(k, if isDir then DirectoryCap(h) else FileCap(h),
                  parent.rights * if isDir then DIRECTORY_RIGHTS else FILE_RIGHTS)
  }

  function DoFsRead(p: Process, k: Kernel, cap: u64, ptr: i32, len: i32, offset: i32): Reply
    requires Valid(k.fs)
  {
    if p.memory.None? then Reply(p, k, Done(NO_MEMORY_EXPORT))
    else
      match Lookup(p, cap)
      case None => Reply(p, k, Done(CAP_NOT_FOUND))
      case Some(c) =>
        if !c.resource.FileCap? then Reply(p, k, Done(NOT_A_FILE))
        else if READ !in c.rights then Reply(p, k, Done(PERMISSION_DENIED))
        else if len < 0 then Reply(p, k, Panic)
        else
          match Read(k.fs, Handle32(c.resource.handle), len, AsUsize(offset))
          case Err(_) => Reply(p, k, Done(FS_ERROR))
          case Ok(bytes) =>
            var p1 := Burn(p, MEMORY_IO);
            if Exhausted(p1) then Reply(p1, k, Trap(Yield))
            else if !InBounds(p1.memory.value, AsUsize(ptr), |bytes|) then Reply(p1, k, Done(MEMORY_WRITE_FAILED))
            else Reply(p1.(memory := Some(Store(p1.memory.value, AsUsize(ptr), bytes))), k, Done(AsI32(|bytes|)))
  }

  function DoFsSize(p: Process, k: Kernel, cap: u64): Reply
    requires Valid(k.fs)
  {
    match Lookup(p, cap)
    case None => Reply(p, k, Done(CAP_NOT_FOUND))
    case Some(c) =>
      if !c.resource.FileCap? && !c.resource.DirectoryCap? then Reply(p, k, Done(NOT_A_FILE))
      else
        match Size(k.fs, Handle32(c.resource.handle))
        case Err(_) => Reply(p, k, Done(FS_ERROR))
        case Ok(n) => Reply(p, k, Done(AsI32(n)))
  }

  function DoFsClose(p: Process, k: Kernel, cap: u64): Reply {
    var id := FromU64(cap);
    if id !in p.caps then Reply(p, k, Done(0))
    else
      var resource := p.caps[id].resource;
      var p1 := p.(caps := p.caps - {id});
      if resource.FileCap? || resource.DirectoryCap? then
        Reply(p1, k.(fs := Close(k.fs, Handle32(resource.handle))), Done(0))
      else
        Reply(p1, k, Done(0))
  }

  function DoFsMkdir(p: Process, k: Kernel, cap: u64, ptr: i32, len: i32): Reply
    requires Valid(k.fs)
  {
    match PathArgument(p, ptr, len)
    case Err(outcome) => Reply(p, k, outcome)
    case Ok(path) =>
      match Lookup(p, cap)
      case None => Reply(p, k, Done(CAP_NOT_FOUND))
      case Some(c) =>
        if !c.resource.DirectoryCap? then Reply(p, k, Done(NOT_A_DIRECTORY))
        else if WRITE !in c.rights then Reply(p, k, Done(PERMISSION_DENIED))
        else
          match MkdirAt(k.fs, Handle32(c.resource.handle), path)
          case (_, Err(_)) => Reply(p, k, Done(FS_ERROR))
          case (fs, Ok(_)) => Reply(p, k.(fs := fs), Done(0))
  }

  function DoCreate(p: Process, k: Kernel, k1: Kernel, resource: CapObject): Reply {
    var cap := NewCapability(k, resource, {CALL});
    Reply(AddCapability(p, cap), k1.(nextCap := Next32(k.nextCap)), Done(AsU64(cap.id)))
  }

  /** The handle behind a mutex or semaphore capability, or the error code. */
  function SyncHandle(p: Process, cap: u64, mutex: bool): Result<u64, int> {
    match Lookup(p, cap)
    case None => Err(CAP_NOT_FOUND)
    case Some(c) =>
      if (mutex && !c.resource.MutexCap?) || (!mutex && !c.resource.SemaphoreCap?) then Err(INVALID_HANDLE)
      else if CALL !in c.rights then Err(PERMISSION_DENIED)
      else Ok(c.resource.handle)
  }

  /** The guard taken by a successful `try_lock` is dropped at once, so the lock state never changes. */
  function DoMutex(p: Process, k: Kernel, c: HostCall): Reply
    requires c.MutexLock? || c.MutexTryLock? || c.MutexUnlock?
  {
    match SyncHandle(p, c.cap, true)
    case Err(code) => Reply(p, k, Done(code))
    case Ok(h) =>
      if h !in k.mutexes then Reply(p, k, Done(INVALID_HANDLE))
      else if !k.mutexes[h] || c.MutexUnlock? then Reply(p, k, Done(0))
      else if c.MutexLock? then Reply(p, k, Trap(MutexWait(h)))
      else Reply(p, k, Done(MUTEX_LOCKED))
  }

  function DoSemaphore(p: Process, k: Kernel, c: HostCall): Reply
    requires c.SemAcquire? || c.SemTryAcquire? || c.SemRelease?
  {
    match SyncHandle(p, c.cap, false)
    case Err(code) => Reply(p, k, Done(code))
    case Ok(h) =>
      if h !in k.semaphores then Reply(p, k, Done(INVALID_HANDLE))
      else
        var s := k.semaphores[h];
        var (now, ok) := Semaphore.Atomic(s.now, s.max, if c.SemRelease? then Semaphore.Release else Semaphore.TryAcquire);
        var k1 := k.(semaphores := k.semaphores[h := s.(now := now)]);
        if ok then Reply(p, k1, Done(0))
        else if c.SemAcquire? then Reply(p, k1, Trap(SemWait(h)))
        else Reply(p, k1, Done(SEM_NO_PERMITS))
  }

  ghost function Body(p: Process, k: Kernel, c: HostCall): Reply
    requires Valid(k.fs) && Charged(c)
  {
    match c
    case GetCapabilities(ptr, len) => DoGetCapabilities(p, k, ptr, len)
    case FsOpen(cap, ptr, len) => DoFsOpen(p, k, cap, ptr, len)
    case FsRead(cap, ptr, len, offset) => DoFsRead(p, k, cap, ptr, len, offset)
    case FsSize(cap) => DoFsSize(p, k, cap)
    case FsClose(cap) => DoFsClose(p, k, cap)
    case FsMkdir(cap, ptr, len) => DoFsMkdir(p, k, cap, ptr, len)
    case MutexCreate =>
      DoCreate(p, k, k.(mutexes := k.mutexes[k.nextMutex := false], nextMutex := Next64(k.nextMutex)),
               MutexCap(k.nextMutex))
    case SemCreate(permits) =>
      if permits < 0 then Reply(p, k, Done(PERMISSION_DENIED))
      else
        DoCreate(p, k, k.(semaphores := k.semaphores[k.nextSemaphore := Permits(permits, permits)],
                          nextSemaphore := Next64(k.nextSemaphore)),
                 SemaphoreCap(k.nextSemaphore))
    case MutexLock(_) => DoMutex(p, k, c)
    case MutexTryLock(_) => DoMutex(p, k, c)
    case MutexUnlock(_) => DoMutex(p, k, c)
    case SemAcquire(_) => DoSemaphore(p, k, c)
    case SemTryAcquire(_) => DoSemaphore(p, k, c)
    case SemRelease(_) => DoSemaphore(p, k, c)
  }

  /** One host call. */
  ghost function Call(p: Process, k: Kernel, c: HostCall): Reply
    requires Valid(k.fs)
  {
    match c
    case Print => Reply(p, k, Done(0))
    case SchedYield => Reply(p, k, Trap(Yield))
    case _ =>
      var p1 := Burn(p, Cost(c));
      if Exhausted(p1) then Reply(p1, k, Trap(Yield)) else Body(p1, k, c)
  }
}
