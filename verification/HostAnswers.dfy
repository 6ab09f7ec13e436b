/**
 What a process gets from its host calls: exactly when each succeeds, what it answers, and what it
 leaves in the capability table, in memory, in the file system and in the sync registry. Prices, error
 codes and kinds are given as the numbers and names a process sees.
 */
module HostAnswers {
  import opened Common
  import opened Paths
  import opened Capabilities
  import opened RamFs
  import opened RamFsTree
  import opened RamFsAnswers
  import opened HostCalls
  import Semaphore
  import Utf8

  // ---- Arguments ----

  /** The bytes of the path argument are readable text. */
  predicate TextAt(p: Process, ptr: i32, len: i32) {
    && p.memory.Some? && len >= 0 && AsUsize(ptr) + len <= |p.memory.value|
    && Utf8.WellFormed(p.memory.value[AsUsize(ptr)..AsUsize(ptr) + len])
  }

  function Text(p: Process, ptr: i32, len: i32): seq<byte>
    requires TextAt(p, ptr, len)
  {
    p.memory.value[AsUsize(ptr)..AsUsize(ptr) + len]
  }

  /** The number stands for an identifier in the table whose generation is that of its capability. */
  predicate Names(p: Process, cap: u64) {
    var id := CapId(cap % 0x1_0000_0000, cap / 0x1_0000_0000);
    id in p.caps && p.caps[id].generation % 0x1_0000_0000 == id.generation
  }

  function Named(p: Process, cap: u64): Capability
    requires Names(p, cap)
  {
    p.caps[CapId(cap % 0x1_0000_0000, cap / 0x1_0000_0000)]
  }

  lemma {:induction false} LookupExact(p: Process, cap: u64)
    ensures Lookup(p, cap) == if Names(p, cap) then Some(Named(p, cap)) else None
  {
  }

  /** The open directory node a capability stands for, if it is a directory capability with the right. */
  predicate OpenDirectory(k: Kernel, c: Capability, right: Right) {
    c.resource.DirectoryCap? && right in c.rights && c.resource.handle % 0x1_0000_0000 in k.fs.handles
  }

  function NodeOf(k: Kernel, c: Capability): NodeId
    requires Valid(k.fs) && (c.resource.DirectoryCap? || c.resource.FileCap?)
    requires c.resource.handle % 0x1_0000_0000 in k.fs.handles
  {
    k.fs.handles[c.resource.handle % 0x1_0000_0000]
  }

  // ---- sp_fs_open ----

  /** Exactly when `sp_fs_open` succeeds. */
  ghost predicate CanOpen(p: Process, k: Kernel, cap: u64, ptr: i32, len: i32)
    requires Valid(k.fs)
  {
    && p.fuel >= 600 && TextAt(p, ptr, len)
    && Names(p, cap) && OpenDirectory(k, Named(p, cap), READ)
    && Walk(k.fs.tree, NodeOf(k, Named(p, cap)), Components(Text(p, ptr, len))).Some?
  }

  /** What `sp_fs_open` of node `n` adds: a capability of the kind of the node, and a handle bound to it. */
  ghost predicate Opened(p: Process, k: Kernel, parent: Capability, n: NodeId, r: Reply)
    requires Valid(k.fs) && n < |k.fs.tree.nodes| && p.fuel >= 100
  {
    var id, dir := CapId(k.nextCap, 0), k.fs.tree.nodes[n].Directory?;
    && r.outcome == Done(k.nextCap)
    && id in r.p.caps
    && var child := r.p.caps[id];
    && child.id == id && child.generation == 0
    && child.resource == (if dir then DirectoryCap(k.fs.nextHandleAt) else FileCap(k.fs.nextHandleAt))
    && (forall x: Right :: x in child.rights <==>
          x in parent.rights && (x == READ || x == WRITE || (dir && (x == EXECUTE || x == GRANT))))
    && r.p == Process(p.caps[id := child], p.fuel - 100, p.memory)
    && Bound(k.fs, r.k.fs, k.fs.nextHandleAt, n)
    && r.k == k.(fs := r.k.fs, nextCap := r.k.nextCap)
    && (r.k.nextCap - k.nextCap - 1) % 0x1_0000_0000 == 0
  }

  /** The answer of a call on a path that does not succeed, in the order of the tests. */
  ghost predicate PathRefused(p: Process, k: Kernel, cap: u64, ptr: i32, len: i32, right: Right, outcome: Outcome) {
    if p.fuel < 600 then outcome == Trap(Yield)
    else if p.memory.None? then outcome == Done(-2)
    else if len < 0 then outcome == Panic
    else if AsUsize(ptr) + len > |p.memory.value| then outcome == Done(-3)
    else if !TextAt(p, ptr, len) then outcome == Done(-4)
    else if !Names(p, cap) then outcome == Done(-1)
    else if !Named(p, cap).resource.DirectoryCap? then outcome == Done(-6)
    else if right !in Named(p, cap).rights then outcome == Done(-5)
    else outcome == Done(-7)
  }

  lemma {:induction false} PathArgumentExact(p: Process, ptr: i32, len: i32)
    ensures TextAt(p, ptr, len) ==> PathArgument(p, ptr, len) == Ok(Text(p, ptr, len))
    ensures !TextAt(p, ptr, len) ==>
              PathArgument(p, ptr, len) ==
              Err(if p.memory.None? then Done(-2) else if len < 0 then Panic
                  else if AsUsize(ptr) + len > |p.memory.value| then Done(-3) else Done(-4))
  {
  }

  lemma {:induction false} DoOpenExact(p: Process, p1: Process, k: Kernel, cap: u64, ptr: i32, len: i32)
    requires Valid(k.fs) && p.fuel >= 600 && p1 == p.(fuel := p.fuel - 100)
    ensures var r := DoFsOpen(p1, k, cap, ptr, len);
            if CanOpen(p, k, cap, ptr, len) then
              var parent := Named(p, cap);
              Opened(p, k, parent, Walk(k.fs.tree, NodeOf(k, parent), Components(Text(p, ptr, len))).value, r)
            else r == Reply(p1, k, r.outcome) && PathRefused(p, k, cap, ptr, len, READ, r.outcome)
  {
    PathArgumentExact(p1, ptr, len);
    LookupExact(p1, cap);
    if TextAt(p, ptr, len) && Names(p, cap) && Named(p, cap).resource.DirectoryCap? && READ in Named(p, cap).rights {
      OpenAtExact(k.fs, Named(p, cap).resource.handle % 0x1_0000_0000, Text(p, ptr, len));
    }
  }

  /**
   `sp_fs_open` succeeds exactly when it can. Then the answer is the number of a new capability, for a
   directory if the path leads to one and for a file otherwise, with the parent's rights that apply to
   that kind. If it cannot, it costs fuel and changes nothing.
   */
  lemma {:induction false} FsOpenExact(p: Process, k: Kernel, cap: u64, ptr: i32, len: i32)
    requires Valid(k.fs)
    ensures var r := Call(p, k, FsOpen(cap, ptr, len));
            if CanOpen(p, k, cap, ptr, len) then
              var parent := Named(p, cap);
              Opened(p, k, parent, Walk(k.fs.tree, NodeOf(k, parent), Components(Text(p, ptr, len))).value, r)
            else r.k == k && r.p == p.(fuel := r.p.fuel) && PathRefused(p, k, cap, ptr, len, READ, r.outcome)
  {
    if p.fuel >= 600 {
      DoOpenExact(p, p.(fuel := p.fuel - 100), k, cap, ptr, len);
    }
  }

  // ---- sp_fs_read, sp_fs_size, sp_fs_close ----

  /** How many bytes there are to deliver from `offset` on into a buffer of the given length. */
  function Available(size: nat, len: nat, offset: nat): nat {
    if offset >= size then 0 else if len <= size - offset then len else size - offset
  }

  /** A readable file capability for an open file. */
  predicate OpenFile(k: Kernel, c: Capability)
    requires Valid(k.fs)
  {
    c.resource.FileCap? && READ in c.rights && FileAt(k.fs, c.resource.handle % 0x1_0000_0000).Some?
  }

  function ContentOf(k: Kernel, c: Capability): seq<byte>
    requires Valid(k.fs) && OpenFile(k, c)
  {
    FileAt(k.fs, c.resource.handle % 0x1_0000_0000).value
  }

  ghost predicate CanRead(p: Process, k: Kernel, cap: u64, ptr: i32, len: i32, offset: i32)
    requires Valid(k.fs)
  {
    && p.fuel >= 650 && p.memory.Some? && Names(p, cap) && OpenFile(k, Named(p, cap)) && len >= 0
    && AsUsize(ptr) + Available(|ContentOf(k, Named(p, cap))|, len, AsUsize(offset)) <= |p.memory.value|
  }

  /** Memory is as before, except that `n` bytes from `start` on are those of `content` from `offset` on. */
  ghost predicate CopiedIn(mem: seq<byte>, mem': seq<byte>, start: nat, content: seq<byte>, offset: nat, n: nat) {
    && |mem'| == |mem| && (n > 0 ==> offset + n <= |content|)
    && forall i | 0 <= i < |mem| :: mem'[i] == if start <= i < start + n then content[offset + (i - start)] else mem[i]
  }

  ghost predicate ReadRefused(p: Process, k: Kernel, cap: u64, len: i32, outcome: Outcome)
    requires Valid(k.fs)
  {
    if p.fuel < 600 then outcome == Trap(Yield)
    else if p.memory.None? then outcome == Done(-2)
    else if !Names(p, cap) then outcome == Done(-1)
    else if !Named(p, cap).resource.FileCap? then outcome == Done(-10)
    else if READ !in Named(p, cap).rights then outcome == Done(-5)
    else if len < 0 then outcome == Panic
    else if !OpenFile(k, Named(p, cap)) then outcome == Done(-7)
    else if p.fuel < 650 then outcome == Trap(Yield)
    else outcome == Done(-9)
  }

  lemma {:induction false} DoReadExact(p: Process, p1: Process, k: Kernel, cap: u64, ptr: i32, len: i32, offset: i32)
    requires Valid(k.fs) && p.fuel >= 600 && p1 == p.(fuel := p.fuel - 100)
    ensures var r := DoFsRead(p1, k, cap, ptr, len, offset);
            && r.k == k && r.p.caps == p.caps
            && if CanRead(p, k, cap, ptr, len, offset) then
                 var content := ContentOf(k, Named(p, cap));
                 var n := Available(|content|, len, AsUsize(offset));
                 && r.outcome == Done(n) && r.p.fuel == p.fuel - 150 && r.p.memory.Some?
                 && CopiedIn(p.memory.value, r.p.memory.value, AsUsize(ptr), content, AsUsize(offset), n)
               else r.p.memory == p.memory && ReadRefused(p, k, cap, len, r.outcome)
  {
    LookupExact(p1, cap);
    if Names(p, cap) && Named(p, cap).resource.FileCap? && len >= 0 {
      ReadExact(k.fs, Named(p, cap).resource.handle % 0x1_0000_0000, len, AsUsize(offset));
    }
  }

  /**
   `sp_fs_read` succeeds exactly when it can. Then it answers how many bytes there were, puts exactly
   those bytes of the file into memory and touches no other byte. Otherwise it changes nothing but fuel.
   */
  lemma {:induction false} FsReadExact(p: Process, k: Kernel, cap: u64, ptr: i32, len: i32, offset: i32)
    requires Valid(k.fs)
    ensures var r := Call(p, k, FsRead(cap, ptr, len, offset));
            && r.k == k && r.p.caps == p.caps
            && if CanRead(p, k, cap, ptr, len, offset) then
                 var content := ContentOf(k, Named(p, cap));
                 var n := Available(|content|, len, AsUsize(offset));
                 && r.outcome == Done(n) && r.p.fuel == p.fuel - 150 && r.p.memory.Some?
                 && CopiedIn(p.memory.value, r.p.memory.value, AsUsize(ptr), content, AsUsize(offset), n)
               else r.p.memory == p.memory && ReadRefused(p, k, cap, len, r.outcome)
  {
    if p.fuel >= 600 {
      DoReadExact(p, p.(fuel := p.fuel - 100), k, cap, ptr, len, offset);
    }
  }

  /** `sp_fs_size` answers the length of the file, 0 for a directory, and an error code otherwise. */
  lemma {:induction false} FsSizeExact(p: Process, k: Kernel, cap: u64)
    requires Valid(k.fs)
    ensures var r := Call(p, k, FsSize(cap));
            && r.k == k && r.p == p.(fuel := r.p.fuel)
            && if p.fuel < 510 then r.outcome == Trap(Yield)
               else if !Names(p, cap) then r.outcome == Done(-1)
               else
                 var resource := Named(p, cap).resource;
                 if !resource.FileCap? && !resource.DirectoryCap? then r.outcome == Done(-10)
                 else
                   var h := resource.handle % 0x1_0000_0000;
                   if h !in k.fs.handles then r.outcome == Done(-7)
                   else if FileAt(k.fs, h).None? then r.outcome == Done(0)
                   else
                     && r.outcome.Done? && -0x8000_0000 <= r.outcome.code < 0x8000_0000
                     && (r.outcome.code - |FileAt(k.fs, h).value|) % 0x1_0000_0000 == 0
  {
    if p.fuel >= 510 {
      LookupExact(p.(fuel := p.fuel - 10), cap);
      if Names(p, cap) && (Named(p, cap).resource.FileCap? || Named(p, cap).resource.DirectoryCap?) {
        SizeExact(k.fs, Named(p, cap).resource.handle % 0x1_0000_0000);
      }
    }
  }

  /** `sp_fs_close` takes the capability out of the table, whatever its generation, and closes its handle. */
  lemma {:induction false} FsCloseExact(p: Process, k: Kernel, cap: u64)
    requires Valid(k.fs) && p.fuel >= 510
    ensures var r, id := Call(p, k, FsClose(cap)), CapId(cap % 0x1_0000_0000, cap / 0x1_0000_0000);
            && r.outcome == Done(0)
            && id !in r.p.caps
            && (forall other: CapId | other != id ::
                  (other in r.p.caps <==> other in p.caps) && (other in p.caps ==> r.p.caps[other] == p.caps[other]))
            && r.p.memory == p.memory && r.p.fuel == p.fuel - 10
            && r.k == k.(fs := r.k.fs)
            && (if id in p.caps && (p.caps[id].resource.FileCap? || p.caps[id].resource.DirectoryCap?)
                then r.k.fs == Close(k.fs, p.caps[id].resource.handle % 0x1_0000_0000)
                else r.k.fs == k.fs)
  {
  }

  // ---- sp_fs_mkdir ----

  /** Where `mkdir_at` starts for a directory capability: handle 0 is the root. */
  function StartOf(k: Kernel, c: Capability): Option<NodeId>
    requires c.resource.DirectoryCap?
  {
    var h := c.resource.handle % 0x1_0000_0000;
    if h == 0 then Some(0) else if h in k.fs.handles then Some(k.fs.handles[h]) else None
  }

  ghost predicate CanMkdir(p: Process, k: Kernel, cap: u64, ptr: i32, len: i32)
    requires Valid(k.fs)
  {
    && p.fuel >= 600 && TextAt(p, ptr, len) && Names(p, cap)
    && var c, parts := Named(p, cap), Components(Text(p, ptr, len));
    && c.resource.DirectoryCap? && WRITE in c.rights && StartOf(k, c).Some? && parts != []
    && var parent := Walk(k.fs.tree, StartOf(k, c).value, parts[..|parts| - 1]);
    && parent.Some? && k.fs.tree.nodes[parent.value].Directory?
    && Walk(k.fs.tree, StartOf(k, c).value, parts).None?
  }

  /** What a successful `sp_fs_mkdir` does to the file system, seen from where it started, for any path `q`. */
  ghost predicate Made(k: Kernel, k': Kernel, start: NodeId, parts: seq<Name>, q: seq<Name>)
    requires Valid(k.fs) && start < |k.fs.tree.nodes|
  {
    var t, t' := k.fs.tree, k'.fs.tree;
    && k' == k.(fs := k.fs.(tree := t')) && Forest(t')
    && |t.nodes| < |t'.nodes| && t'.nodes[|t.nodes|] == Directory(map[])
    && Walk(t', start, q) == if q == parts then Some(|t.nodes|) else Walk(t, start, q)
  }

  lemma {:induction false} MakesDirectory(k: Kernel, c: Capability, path: seq<byte>, q: seq<Name>)
    requires Valid(k.fs) && c.resource.DirectoryCap?
    ensures var (fs, r), parts := MkdirAt(k.fs, c.resource.handle % 0x1_0000_0000, path), Components(path);
            && (r.Err? ==> fs == k.fs)
            && (r.Ok? <==>
                  && StartOf(k, c).Some? && parts != []
                  && var parent := Walk(k.fs.tree, StartOf(k, c).value, parts[..|parts| - 1]);
                  && parent.Some? && k.fs.tree.nodes[parent.value].Directory?
                  && Walk(k.fs.tree, StartOf(k, c).value, parts).None?)
            && (r.Ok? ==> Made(k, k.(fs := fs), StartOf(k, c).value, parts, q))
  {
    var h := c.resource.handle % 0x1_0000_0000;
    MkdirAtErrors(k.fs, h, path);
    MkdirAtSucceeds(k.fs, h, path);
    if MkdirAt(k.fs, h, path).1.Ok? {
      MkdirAtExact(k.fs, h, path, q);
    }
  }

  /**
   `sp_fs_mkdir` answers 0 exactly when the process may write, the parent is a directory and the name is
   free. Then the path leads to a new, empty directory, and every other path below the capability's
   directory leads where it led before. Otherwise nothing but fuel changes.
   */
  lemma {:induction false} FsMkdirExact(p: Process, k: Kernel, cap: u64, ptr: i32, len: i32, q: seq<Name>)
    requires Valid(k.fs)
    ensures var r := Call(p, k, FsMkdir(cap, ptr, len));
            if CanMkdir(p, k, cap, ptr, len) then
              && r.outcome == Done(0) && r.p == p.(fuel := p.fuel - 100)
              && Made(k, r.k, StartOf(k, Named(p, cap)).value, Components(Text(p, ptr, len)), q)
            else r.k == k && r.p == p.(fuel := r.p.fuel) && PathRefused(p, k, cap, ptr, len, WRITE, r.outcome)
  {
    if p.fuel >= 600 {
      var p1 := p.(fuel := p.fuel - 100);
      PathArgumentExact(p1, ptr, len);
      LookupExact(p1, cap);
      if TextAt(p, ptr, len) && Names(p, cap) && Named(p, cap).resource.DirectoryCap? {
        MakesDirectory(k, Named(p, cap), Text(p, ptr, len), q);
      }
    }
  }

  // ---- Mutexes and semaphores ----

  /** A call on a sync object is refused before it reaches the object. */
  ghost predicate SyncRefused(p: Process, cap: u64, ofKind: bool, outcome: Outcome) {
    if p.fuel < 520 then outcome == Trap(Yield)
    else if !Names(p, cap) then outcome == Done(-1)
    else if !ofKind then outcome == Done(-13)
    else if CALL !in Named(p, cap).rights then outcome == Done(-5)
    else outcome == Done(-13)
  }

  predicate NamesMutex(p: Process, cap: u64) {
    Names(p, cap) && Named(p, cap).resource.MutexCap?
  }

  predicate NamesSemaphore(p: Process, cap: u64) {
    Names(p, cap) && Named(p, cap).resource.SemaphoreCap?
  }

  /**
   Mutex calls never change the registry. A known mutex answers 0 when it is free; when it is not, lock
   waits, try_lock answers -11, and unlock answers 0 all the same.
   */
  lemma {:induction false} MutexExact(p: Process, k: Kernel, c: HostCall)
    requires Valid(k.fs) && (c.MutexLock? || c.MutexTryLock? || c.MutexUnlock?)
    ensures var r := Call(p, k, c);
            && r.k == k && r.p == p.(fuel := r.p.fuel)
            && if p.fuel >= 520 && NamesMutex(p, c.cap) && CALL in Named(p, c.cap).rights
                  && Named(p, c.cap).resource.handle in k.mutexes
               then
                 var h := Named(p, c.cap).resource.handle;
                 && r.p.fuel == p.fuel - 20
                 && (c.MutexUnlock? || !k.mutexes[h] ==> r.outcome == Done(0))
                 && (c.MutexLock? && k.mutexes[h] ==> r.outcome == Trap(MutexWait(h)))
                 && (c.MutexTryLock? && k.mutexes[h] ==> r.outcome == Done(-11))
               else SyncRefused(p, c.cap, NamesMutex(p, c.cap), r.outcome)
  {
    if p.fuel >= 520 {
      LookupExact(p.(fuel := p.fuel - 20), c.cap);
    }
  }

  /**
   Semaphore calls on a known semaphore take one of its permits if there is one, or give one back up to
   its maximum; without a permit acquire waits and try_acquire answers -12. Nothing else changes.
   */
  lemma {:induction false} SemaphoreExact(p: Process, k: Kernel, c: HostCall)
    requires Valid(k.fs) && (c.SemAcquire? || c.SemTryAcquire? || c.SemRelease?)
    ensures var r := Call(p, k, c);
            && r.p == p.(fuel := r.p.fuel)
            && if p.fuel >= 520 && NamesSemaphore(p, c.cap) && CALL in Named(p, c.cap).rights
                  && Named(p, c.cap).resource.handle in k.semaphores
               then
                 var h := Named(p, c.cap).resource.handle;
                 var s := k.semaphores[h];
                 && r.p.fuel == p.fuel - 20
                 && h in r.k.semaphores && r.k == k.(semaphores := k.semaphores[h := r.k.semaphores[h]])
                 && r.k.semaphores[h].max == s.max
                 && (c.SemRelease? ==>
                       r.outcome == Done(0)
                       && (s.now < s.max && s.now < Semaphore.USIZE_MAX ==> r.k.semaphores[h].now == s.now + 1)
                       && (s.now == s.max < Semaphore.USIZE_MAX ==> r.k.semaphores[h].now == s.max))
                 && (!c.SemRelease? && s.now > 0 ==> r.outcome == Done(0) && r.k.semaphores[h].now == s.now - 1)
                 && (!c.SemRelease? && s.now == 0 ==>
                       r.k == k && r.outcome == if c.SemAcquire? then Trap(SemWait(h)) else Done(-12))
               else r.k == k && SyncRefused(p, c.cap, NamesSemaphore(p, c.cap), r.outcome)
  {
    if p.fuel >= 520 {
      LookupExact(p.(fuel := p.fuel - 20), c.cap);
    }
  }

  /** A new sync object: a capability that can only be called, for a new handle. */
  ghost predicate Created(p: Process, k: Kernel, resource: CapObject, r: Reply)
    requires p.fuel >= 50
  {
    var id := CapId(k.nextCap, 0);
    && r.outcome == Done(k.nextCap)
    && r.p == Process(p.caps[id := Capability(id, {CALL}, resource, 0)], p.fuel - 50, p.memory)
    && (r.k.nextCap - k.nextCap - 1) % 0x1_0000_0000 == 0
  }

  lemma {:induction false} MutexCreateExact(p: Process, k: Kernel)
    requires Valid(k.fs) && p.fuel >= 550
    ensures var r, h := Call(p, k, MutexCreate), k.nextMutex;
            && Created(p, k, MutexCap(h), r)
            && r.k == k.(nextCap := r.k.nextCap, nextMutex := r.k.nextMutex, mutexes := k.mutexes[h := false])
            && (r.k.nextMutex - h - 1) % 0x1_0000_0000_0000_0000 == 0
  {
  }

  lemma {:induction false} SemCreateExact(p: Process, k: Kernel, permits: i32)
    requires Valid(k.fs) && p.fuel >= 550
    ensures var r, h := Call(p, k, SemCreate(permits)), k.nextSemaphore;
            && (permits < 0 ==> r == Reply(p.(fuel := p.fuel - 50), k, Done(-5)))
            && (permits >= 0 ==>
                  && Created(p, k, SemaphoreCap(h), r)
                  && r.k == k.(nextCap := r.k.nextCap, nextSemaphore := r.k.nextSemaphore,
                               semaphores := k.semaphores[h := Permits(permits, permits)])
                  && (r.k.nextSemaphore - h - 1) % 0x1_0000_0000_0000_0000 == 0)
  {
  }

  /** The calls that are not charged. */
  lemma {:induction false} FreeCalls(p: Process, k: Kernel)
    requires Valid(k.fs)
    ensures Call(p, k, Print) == Reply(p, k, Done(0)) && Call(p, k, SchedYield) == Reply(p, k, Trap(Yield))
  {
  }

  // ---- Calls one after the other ----

  /** A later moment: the capability is still in the table, and its handle is still bound to the same node. */
  ghost predicate Still(p: Process, k: Kernel, c: Capability, n: NodeId, node: Node) {
    && c.id in p.caps && p.caps[c.id] == c
    && (c.resource.FileCap? || c.resource.DirectoryCap?)
    && Valid(k.fs) && c.resource.handle % 0x1_0000_0000 in k.fs.handles
    && k.fs.handles[c.resource.handle % 0x1_0000_0000] == n && k.fs.tree.nodes[n] == node
  }

  /**
   A file opened through a directory capability can be read through the capability that was answered,
   at any later time: the read delivers the bytes of the file the path led to.
   */
  lemma {:induction false} OpenThenRead(p: Process, k: Kernel, cap: u64, ptr: i32, len: i32,
                                        p2: Process, k2: Kernel, to: i32, room: i32, offset: i32)
    requires Valid(k.fs) && CanOpen(p, k, cap, ptr, len)
    requires var r := Call(p, k, FsOpen(cap, ptr, len));
             var n := Walk(k.fs.tree, NodeOf(k, Named(p, cap)), Components(Text(p, ptr, len))).value;
             && k.fs.tree.nodes[n].File? && CapId(k.nextCap, 0) in r.p.caps
             && Still(p2, k2, r.p.caps[CapId(k.nextCap, 0)], n, k.fs.tree.nodes[n])
    requires p2.fuel >= 650 && p2.memory.Some? && room >= 0 && AsUsize(to) + room <= |p2.memory.value|
    ensures var n := Walk(k.fs.tree, NodeOf(k, Named(p, cap)), Components(Text(p, ptr, len))).value;
            var content, r2 := k.fs.tree.nodes[n].content, Call(p2, k2, FsRead(k.nextCap, to, room, offset));
            && r2.outcome == Done(Available(|content|, room, AsUsize(offset))) && r2.p.memory.Some?
            && CopiedIn(p2.memory.value, r2.p.memory.value, AsUsize(to), content, AsUsize(offset),
                        Available(|content|, room, AsUsize(offset)))
  {
    FsOpenExact(p, k, cap, ptr, len);
    FsReadExact(p2, k2, k.nextCap, to, room, offset);
  }

  /** What opening `path` through a readable directory capability for node `n` answers. */
  lemma {:induction false} OpenBelow(p: Process, k: Kernel, cap: u64, n: NodeId, ptr: i32, len: i32)
    requires Valid(k.fs) && p.fuel >= 600 && TextAt(p, ptr, len) && Names(p, cap)
    requires OpenDirectory(k, Named(p, cap), READ) && NodeOf(k, Named(p, cap)) == n
    ensures var r, target := Call(p, k, FsOpen(cap, ptr, len)), Walk(k.fs.tree, n, Components(Text(p, ptr, len)));
            if target.None? then r.outcome == Done(-7) && r.k == k
            else r.outcome == Done(k.nextCap) && Bound(k.fs, r.k.fs, k.fs.nextHandleAt, target.value)
  {
    FsOpenExact(p, k, cap, ptr, len);
  }

  /** The capability that `sp_fs_open` answers for a directory can be used to open what is below it. */
  lemma {:induction false} AnswerIsUsable(p: Process, k: Kernel, parent: Capability, n: NodeId, r: Reply,
                                          p2: Process, k2: Kernel)
    requires Valid(k.fs) && n < |k.fs.tree.nodes| && k.fs.tree.nodes[n].Directory? && p.fuel >= 100
    requires READ in parent.rights && Opened(p, k, parent, n, r)
    requires Still(p2, k2, r.p.caps[CapId(k.nextCap, 0)], n, k.fs.tree.nodes[n])
    ensures Names(p2, k.nextCap) && OpenDirectory(k2, Named(p2, k.nextCap), READ)
    ensures NodeOf(k2, Named(p2, k.nextCap)) == n
  {
  }

  /** Opening p and then q through the capability for the directory p binds the node that p/q leads to. */
  lemma {:induction false} OpenThenOpen(p: Process, k: Kernel, cap: u64, ptr: i32, len: i32, n: NodeId,
                                        p2: Process, k2: Kernel, ptr2: i32, len2: i32)
    requires Valid(k.fs) && CanOpen(p, k, cap, ptr, len)
    requires Walk(k.fs.tree, NodeOf(k, Named(p, cap)), Components(Text(p, ptr, len))) == Some(n)
    requires k.fs.tree.nodes[n].Directory? && k2.fs.tree == k.fs.tree
    requires var r := Call(p, k, FsOpen(cap, ptr, len));
             CapId(k.nextCap, 0) in r.p.caps && Still(p2, k2, r.p.caps[CapId(k.nextCap, 0)], n, k.fs.tree.nodes[n])
    requires p2.fuel >= 600 && TextAt(p2, ptr2, len2)
    ensures var whole := Text(p, ptr, len) + [SLASH] + Text(p2, ptr2, len2);
            var r2, target := Call(p2, k2, FsOpen(k.nextCap, ptr2, len2)),
                              Walk(k.fs.tree, NodeOf(k, Named(p, cap)), Components(whole));
            if target.None? then r2.outcome == Done(-7) && r2.k == k2
            else r2.outcome == Done(k2.nextCap) && Bound(k2.fs, r2.k.fs, k2.fs.nextHandleAt, target.value)
  {
    FsOpenExact(p, k, cap, ptr, len);
    AnswerIsUsable(p, k, Named(p, cap), n, Call(p, k, FsOpen(cap, ptr, len)), p2, k2);
    OpenBelow(p2, k2, k.nextCap, n, ptr2, len2);
    ComponentsOfJoin(Text(p, ptr, len), Text(p2, ptr2, len2));
    WalkConcat(k.fs.tree, NodeOf(k, Named(p, cap)), Components(Text(p, ptr, len)), Components(Text(p2, ptr2, len2)));
  }

  /** After `sp_fs_close` the number is refused and the handle is closed for everybody. */
  lemma {:induction false} CloseThenUse(p: Process, k: Kernel, cap: u64, fuel: u64, memory: seq<byte>, ptr: i32, len: i32)
    requires Valid(k.fs) && p.fuel >= 510 && fuel >= 600 && Names(p, cap) && Named(p, cap).resource.FileCap?
    ensures var r := Call(p, k, FsClose(cap));
            var later := r.p.(fuel := fuel, memory := Some(memory));
            && Valid(r.k.fs)
            && Call(later, r.k, FsRead(cap, ptr, len, 0)).outcome == Done(-1)
            && Call(later, r.k, FsSize(cap)).outcome == Done(-1)
            && Named(p, cap).resource.handle % 0x1_0000_0000 !in r.k.fs.handles
  {
    FsCloseExact(p, k, cap);
    var r := Call(p, k, FsClose(cap));
    CloseExact(k.fs, Named(p, cap).resource.handle % 0x1_0000_0000);
    var later := r.p.(fuel := fuel, memory := Some(memory));
    FsReadExact(later, r.k, cap, ptr, len, 0);
    FsSizeExact(later, r.k, cap);
  }
}
