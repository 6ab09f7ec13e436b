/**
 Confinement over whole runs: whatever mix of host calls and kernel file operations happens, a file
 or directory capability of a process is one of the grants it was spawned with, or was derived from one by a
 chain of `sp_fs_open`, each link losing rights or keeping them and going down in the tree.
 */
module Confinement {
  import opened Common
  import opened Paths
  import opened Capabilities
  import opened RamFs
  import opened RamFsTree
  import opened RamFsHandles
  import opened HostCalls

  type Pid = nat

  /** Where a capability comes from. A history variable: no operation reads it. */
  datatype Lineage =
    | Granted(cap: Capability, node: NodeId)
    | Derived(parent: Lineage, cap: Capability, node: NodeId)

  /** A capability given to a process when it was spawned, with the node it stood for. */
  type Grant = (Capability, NodeId)

  /** `lineage` and `grants` are history: no operation reads them. */
  datatype System = System(
    procs: map<Pid, Process>,
    kernel: Kernel,
    lineage: map<(Pid, CapId), Lineage>,
    grants: map<Pid, set<Grant>>)

  datatype Action =
    | Spawn(pid: Pid, initial: seq<Capability>)
    | Host(pid: Pid, call: HostCall)
    | KernelOp(op: Op)
    | Local(pid: Pid, fuel: u64, memory: Option<seq<byte>>)

  predicate FsCap(cap: Capability) {
    cap.resource.FileCap? || cap.resource.DirectoryCap?
  }

  // ---- Runs ----

  /** The identifiers of a table under which there is a file or directory capability for an open handle. */
  function FsIds(fs: Fs, table: map<CapId, Capability>): set<CapId> {
    set id | id in table && FsCap(table[id]) && table[id].resource.handle in fs.handles
  }

  function GrantsOf(fs: Fs, table: map<CapId, Capability>): set<Grant> {
    set id | id in FsIds(fs, table) :: (table[id], fs.handles[table[id].resource.handle])
  }

  function GrantedLineage(fs: Fs, pid: Pid, table: map<CapId, Capability>): map<(Pid, CapId), Lineage> {
    map id | id in FsIds(fs, table) :: (pid, id) := Granted(table[id], fs.handles[table[id].resource.handle])
  }

  ghost function Step(s: System, a: Action): System
    requires Valid(s.kernel.fs)
  {
    match a
    case Spawn(pid, initial) => AfterSpawn(s, pid, TableOf(initial))
    case KernelOp(op) => s.(kernel := s.kernel.(fs := Apply(s.kernel.fs, op)))
    case Local(pid, fuel, memory) =>
      if pid !in s.procs then s
      else s.(procs := s.procs[pid := s.procs[pid].(fuel := fuel, memory := memory)])
    case Host(pid, c) =>
      if pid !in s.procs then s else AfterCall(s, pid, c, Call(s.procs[pid], s.kernel, c))
  }

  ghost function AfterSpawn(s: System, pid: Pid, table: map<CapId, Capability>): System {
    s.(procs := s.procs[pid := Process(table, 0, None)],
       lineage := s.lineage + GrantedLineage(s.kernel.fs, pid, table),
       grants := s.grants[pid := GrantsOf(s.kernel.fs, table)])
  }

  ghost function AfterCall(s: System, pid: Pid, c: HostCall, r: Reply): System {
    s.(procs := s.procs[pid := r.p], kernel := r.k, lineage := NextLineage(s, pid, c, r))
  }

  /** Records the parent of a capability derived by `sp_fs_open`. */
  ghost function NextLineage(s: System, pid: Pid, c: HostCall, r: Reply): map<(Pid, CapId), Lineage> {
    var id := CapId(s.kernel.nextCap, 0);
    if c.FsOpen? && r.k.fs != s.kernel.fs && (pid, FromU64(c.cap)) in s.lineage
       && id in r.p.caps && FsCap(r.p.caps[id]) && Handle32(r.p.caps[id].resource.handle) in r.k.fs.handles
    then
      s.lineage[(pid, id) := Derived(s.lineage[(pid, FromU64(c.cap))], r.p.caps[id],
                                     r.k.fs.handles[Handle32(r.p.caps[id].resource.handle)])]
    else s.lineage
  }

  /**
   The handle counters stay apart and do not wrap. A process is spawned under a new identifier, and its
   file and directory capabilities name open handles.
   */
  ghost predicate Admissible(s: System, a: Action)
    requires Valid(s.kernel.fs)
  {
    match a
    case Spawn(pid, initial) =>
      && pid !in s.procs
      && forall id | id in TableOf(initial) && FsCap(TableOf(initial)[id]) :: id in FsIds(s.kernel.fs, TableOf(initial))
    case KernelOp(op) => Roomy(s.kernel.fs, op)
    case Host(_, c) => c.FsOpen? ==> s.kernel.fs.nextHandleAt < 0xFFFF_FFFF
    case Local(_, _, _) => true
  }

  ghost predicate IsRun(ss: seq<System>, actions: seq<Action>) {
    && |ss| == |actions| + 1
    && (forall i | 0 <= i < |actions| ::
          && Valid(ss[i].kernel.fs)
          && Admissible(ss[i], actions[i])
          && ss[i + 1] == Step(ss[i], actions[i]))
  }

  // ---- The invariant ----

  ghost predicate Sound(t: Tree, grants: set<Grant>, l: Lineage)
    requires Forest(t)
  {
    && l.node < |t.nodes|
    && match l
       case Granted(cap, node) => (cap, node) in grants
       case Derived(parent, cap, node) =>
         && Sound(t, grants, parent)
         && parent.cap.resource.DirectoryCap? && READ in parent.cap.rights
         && cap.rights <= parent.cap.rights
         && Below(t, node, parent.node)
  }

  /** A capability with this lineage stands for the lineage's node for as long as its handle is open. */
  ghost predicate Stands(fs: Fs, cap: Capability, l: Lineage)
    requires FsCap(cap)
  {
    && l.cap == cap
    && cap.resource.handle < 0x1_0000_0000
    && WasIssued(fs, cap.resource.handle)
    && (cap.resource.handle in fs.handles ==> fs.handles[cap.resource.handle] == l.node)
  }

  ghost predicate Accounted(s: System, pid: Pid, id: CapId)
    requires Valid(s.kernel.fs) && pid in s.procs && id in s.procs[pid].caps
  {
    var cap := s.procs[pid].caps[id];
    FsCap(cap) ==>
      && pid in s.grants
      && (pid, id) in s.lineage
      && Stands(s.kernel.fs, cap, s.lineage[(pid, id)])
      && Sound(s.kernel.fs.tree, s.grants[pid], s.lineage[(pid, id)])
  }

  ghost predicate Inv(s: System) {
    && Valid(s.kernel.fs)
    && Apart(s.kernel.fs)
    && (forall pid, id | pid in s.procs && id in s.procs[pid].caps :: Accounted(s, pid, id))
  }

  /** Initial states: no process yet, and any file system with any handles open. */
  ghost predicate Init(s: System) {
    Valid(s.kernel.fs) && Apart(s.kernel.fs) && s.procs == map[] && s.lineage == map[] && s.grants == map[]
  }

  // ---- How the file system may evolve ----

  ghost predicate Evolves(fs: Fs, fs': Fs) {
    && Valid(fs')
    && Apart(fs')
    && Extends(fs.tree, fs'.tree)
    && (forall h | WasIssued(fs, h) ::
          && WasIssued(fs', h)
          && (h in fs'.handles ==> h in fs.handles && fs'.handles[h] == fs.handles[h]))
  }

  lemma ApplyEvolves(fs: Fs, op: Op)
    requires Valid(fs) && Apart(fs) && Roomy(fs, op)
    ensures Evolves(fs, Apply(fs, op))
  {
    ApplyExtends(fs, op);
    forall h | WasIssued(fs, h)
      ensures var fs' := Apply(fs, op);
              && WasIssued(fs', h)
              && (h in fs'.handles ==> h in fs.handles && fs'.handles[h] == fs.handles[h])
    {
      ApplyKeepsHandle(fs, op, h);
    }
    ApplyKeepsApart(fs, op);
  }

  lemma ApplyKeepsApart(fs: Fs, op: Op)
    requires Valid(fs) && Apart(fs) && Roomy(fs, op)
    ensures Apart(Apply(fs, op))
  {
    if op.OpMkdirAt? {
      MkdirAtSucceeds(fs, op.base, op.path);
    }
  }

  lemma SameEvolves(fs: Fs)
    requires Valid(fs) && Apart(fs)
    ensures Evolves(fs, fs)
  {
  }

  /** The file system operation a host call performs, if any. */
  function FsOp(p: Process, c: HostCall): Option<Op> {
    var p1 := Burn(p, Cost(c));
    match c
    case FsOpen(cap, ptr, len) =>
      if Exhausted(p1) then None else OnDirectory(p1, cap, READ, PathArgument(p1, ptr, len), true)
    case FsMkdir(cap, ptr, len) =>
      if Exhausted(p1) then None else OnDirectory(p1, cap, WRITE, PathArgument(p1, ptr, len), false)
    case FsClose(cap) =>
      if !Exhausted(p1) && FromU64(cap) in p.caps && FsCap(p.caps[FromU64(cap)])
      then Some(OpClose(Handle32(p.caps[FromU64(cap)].resource.handle))) else None
    case _ => None
  }

  function OnDirectory(p: Process, cap: u64, right: Right, path: Result<seq<byte>, Outcome>, open: bool): Option<Op> {
    var found := Lookup(p, cap);
    if path.Err? || found.None? || !found.value.resource.DirectoryCap? || right !in found.value.rights then None
    else
      var h := Handle32(found.value.resource.handle);
      Some(if open then OpOpenAt(h, path.value) else OpMkdirAt(h, path.value))
  }

  ghost predicate DoesFsOp(p: Process, k: Kernel, c: HostCall)
    requires Valid(k.fs)
  {
    Call(p, k, c).k.fs == match FsOp(p, c) { case None => k.fs case Some(op) => Apply(k.fs, op) }
  }

  lemma {:induction false} DirectoryFsOp(p: Process, k: Kernel, c: HostCall)
    requires Valid(k.fs) && (c.FsOpen? || c.FsMkdir?)
    ensures DoesFsOp(p, k, c)
  {
    if c.FsMkdir? && FsOp(p, c).Some? {
      MkdirAtSucceeds(k.fs, FsOp(p, c).value.base, FsOp(p, c).value.path);
    }
  }

  lemma {:induction false} CloseFsOp(p: Process, k: Kernel, c: HostCall)
    requires Valid(k.fs) && c.FsClose?
    ensures DoesFsOp(p, k, c)
  {
  }

  lemma {:induction false} OtherFsOp(p: Process, k: Kernel, c: HostCall)
    requires Valid(k.fs) && !c.FsOpen? && !c.FsMkdir? && !c.FsClose?
    ensures Call(p, k, c).k.fs == k.fs
  {
  }

  /** A host call changes the file system by at most one file system operation. */
  lemma {:induction false} HostFsOp(p: Process, k: Kernel, c: HostCall)
    requires Valid(k.fs)
    ensures Call(p, k, c).k.fs == match FsOp(p, c) { case None => k.fs case Some(op) => Apply(k.fs, op) }
  {
    assert DoesFsOp(p, k, c) by {
      if c.FsOpen? || c.FsMkdir? {
        DirectoryFsOp(p, k, c);
      } else if c.FsClose? {
        CloseFsOp(p, k, c);
      } else {
        OtherFsOp(p, k, c);
      }
    }
  }

  lemma HostEvolves(p: Process, k: Kernel, c: HostCall)
    requires Valid(k.fs) && Apart(k.fs) && (c.FsOpen? ==> k.fs.nextHandleAt < 0xFFFF_FFFF)
    ensures Evolves(k.fs, Call(p, k, c).k.fs)
  {
    HostFsOp(p, k, c);
    match FsOp(p, c)
    case None => SameEvolves(k.fs);
    case Some(op) => ApplyEvolves(k.fs, op);
  }

  lemma {:induction false} SoundEvolves(t: Tree, t': Tree, grants: set<Grant>, l: Lineage)
    requires Forest(t) && Forest(t') && Extends(t, t') && Sound(t, grants, l)
    ensures Sound(t', grants, l)
    decreases l
  {
    if l.Derived? {
      SoundEvolves(t, t', grants, l.parent);
      ExtendsKeepsBelow(t, t', l.node, l.parent.node);
    }
  }

  lemma AccountedEvolves(s: System, s': System, pid: Pid, id: CapId)
    requires Inv(s) && Evolves(s.kernel.fs, s'.kernel.fs)
    requires pid in s.procs && id in s.procs[pid].caps
    requires pid in s'.procs && id in s'.procs[pid].caps && s'.procs[pid].caps[id] == s.procs[pid].caps[id]
    requires (pid, id) in s.lineage ==> (pid, id) in s'.lineage && s'.lineage[(pid, id)] == s.lineage[(pid, id)]
    requires pid in s.grants ==> pid in s'.grants && s'.grants[pid] == s.grants[pid]
    ensures Accounted(s', pid, id)
  {
    assert Accounted(s, pid, id);
    if FsCap(s.procs[pid].caps[id]) {
      SoundEvolves(s.kernel.fs.tree, s'.kernel.fs.tree, s.grants[pid], s.lineage[(pid, id)]);
    }
  }

  // ---- What a host call does to the capability table ----

  /** No call but a successful `sp_fs_open` adds a file or directory capability. */
  lemma TableAfter(p: Process, k: Kernel, c: HostCall, id: CapId)
    requires Valid(k.fs)
    ensures var r := Call(p, k, c);
            id in r.p.caps ==>
              || (id in p.caps && r.p.caps[id] == p.caps[id]
                  && (c.FsOpen? && r.k.fs != k.fs ==> id != CapId(k.nextCap, 0)))
              || (id == CapId(k.nextCap, 0) && !FsCap(r.p.caps[id]))
              || (id == CapId(k.nextCap, 0) && c.FsOpen? && r.k.fs != k.fs)
  {
  }

  /** What a successful `sp_fs_open` adds, and to which node its new handle is bound. */
  ghost predicate OpenedFrom(p: Process, k: Kernel, cap: u64, r: Reply)
    requires Valid(k.fs)
  {
    var id, found := CapId(k.nextCap, 0), FromU64(cap);
    && found in p.caps
    && var parent := p.caps[found];
    && parent.resource.DirectoryCap? && READ in parent.rights
    && r.outcome == Done(k.nextCap) && id in r.p.caps
    && var child := r.p.caps[id];
    && FsCap(child) && child.rights <= parent.rights
    && child.resource.handle == k.fs.nextHandleAt
    && r.k.fs.tree == k.fs.tree
    && Handle32(parent.resource.handle) in k.fs.handles
    && child.resource.handle in r.k.fs.handles
    && var node := r.k.fs.handles[child.resource.handle];
    && node < |k.fs.tree.nodes|
    && (child.resource.DirectoryCap? <==> k.fs.tree.nodes[node].Directory?)
    && Below(k.fs.tree, node, k.fs.handles[Handle32(parent.resource.handle)])
  }

  lemma OpenedCapability(p: Process, k: Kernel, c: HostCall)
    requires Valid(k.fs) && Apart(k.fs) && c.FsOpen? && Call(p, k, c).k.fs != k.fs
    ensures OpenedFrom(p, k, c.cap, Call(p, k, c))
  {
    var p1 := Burn(p, Cost(c));
    var path := PathArgument(p1, c.ptr, c.len).value;
    var parent := Lookup(p1, c.cap).value;
    WalkBirth(k.fs.tree, k.fs.handles[Handle32(parent.resource.handle)], Components(path));
  }

  // ---- Every step keeps the invariant ----

  lemma {:induction false} OpenedIsAccounted(s: System, pid: Pid, c: HostCall, r: Reply)
    requires Inv(s) && pid in s.procs && c.FsOpen? && r.k.fs != s.kernel.fs
    requires OpenedFrom(s.procs[pid], s.kernel, c.cap, r) && Evolves(s.kernel.fs, r.k.fs)
    requires s.kernel.fs.nextHandleAt < r.k.fs.nextHandleAt
    ensures Accounted(AfterCall(s, pid, c, r), pid, CapId(s.kernel.nextCap, 0))
  {
    var p, k, id, found := s.procs[pid], s.kernel, CapId(s.kernel.nextCap, 0), FromU64(c.cap);
    assert Accounted(s, pid, found);
    var l := NextLineage(s, pid, c, r)[(pid, id)];
    assert l == Derived(s.lineage[(pid, found)], r.p.caps[id], r.k.fs.handles[r.p.caps[id].resource.handle]);
    assert Sound(k.fs.tree, s.grants[pid], l);
  }

  lemma OpenAccounted(s: System, pid: Pid, c: HostCall)
    requires Inv(s) && pid in s.procs && c.FsOpen? && s.kernel.fs.nextHandleAt < 0xFFFF_FFFF
    requires Call(s.procs[pid], s.kernel, c).k.fs != s.kernel.fs
    ensures var s', id := Step(s, Host(pid, c)), CapId(s.kernel.nextCap, 0);
            Valid(s'.kernel.fs) && id in s'.procs[pid].caps && Accounted(s', pid, id)
  {
    OpenedCapability(s.procs[pid], s.kernel, c);
    HostEvolves(s.procs[pid], s.kernel, c);
    OpenedIsAccounted(s, pid, c, Call(s.procs[pid], s.kernel, c));
  }

  lemma HostAccounted(s: System, a: Action, pid: Pid, id: CapId)
    requires Inv(s) && Admissible(s, a) && a.Host? && a.pid in s.procs
    requires pid in s.procs && id in Step(s, a).procs[pid].caps
    ensures Valid(Step(s, a).kernel.fs) && Accounted(Step(s, a), pid, id)
  {
    var s' := Step(s, a);
    var p, k, r := s.procs[a.pid], s.kernel, Call(s.procs[a.pid], s.kernel, a.call);
    HostEvolves(p, k, a.call);
    var newId := CapId(k.nextCap, 0);
    if pid != a.pid {
      AccountedEvolves(s, s', pid, id);
    } else {
      TableAfter(p, k, a.call, id);
      if a.call.FsOpen? && r.k.fs != k.fs && id == newId {
        OpenAccounted(s, pid, a.call);
      } else if FsCap(r.p.caps[id]) {
        AccountedEvolves(s, s', pid, id);
      }
    }
  }

  /** The new process holds its grants; nobody else is affected. */
  lemma {:induction false} SpawnAccounted(s: System, a: Action, pid: Pid, id: CapId)
    requires Inv(s) && a.Spawn? && Admissible(s, a)
    requires pid in Step(s, a).procs && id in Step(s, a).procs[pid].caps
    ensures Accounted(Step(s, a), pid, id)
  {
    var s', fs, table := Step(s, a), s.kernel.fs, TableOf(a.initial);
    if pid != a.pid {
      SameEvolves(fs);
      AccountedEvolves(s, s', pid, id);
    } else if FsCap(table[id]) {
      assert id in FsIds(fs, table);
      assert (table[id], fs.handles[table[id].resource.handle]) in GrantsOf(fs, table);
    }
  }

  lemma {:induction false} StepKeepsInv(s: System, a: Action)
    requires Inv(s) && Admissible(s, a)
    ensures Inv(Step(s, a))
  {
    var s' := Step(s, a);
    match a
    case Spawn(_, _) =>
      forall pid, id | pid in s'.procs && id in s'.procs[pid].caps
        ensures Accounted(s', pid, id)
      {
        SpawnAccounted(s, a, pid, id);
      }
    case KernelOp(op) =>
      ApplyEvolves(s.kernel.fs, op);
      forall pid, id | pid in s'.procs && id in s'.procs[pid].caps
        ensures Accounted(s', pid, id)
      {
        AccountedEvolves(s, s', pid, id);
      }
    case Local(_, _, _) =>
      SameEvolves(s.kernel.fs);
      forall pid, id | pid in s'.procs && id in s'.procs[pid].caps
        ensures Accounted(s', pid, id)
      {
        AccountedEvolves(s, s', pid, id);
      }
    case Host(caller, c) =>
      if caller in s.procs {
        HostEvolves(s.procs[caller], s.kernel, c);
        forall pid, id | pid in s'.procs && id in s'.procs[pid].caps
          ensures Accounted(s', pid, id)
        {
          HostAccounted(s, a, pid, id);
        }
      }
  }

  lemma {:induction false} RunKeepsInv(ss: seq<System>, actions: seq<Action>, i: nat)
    requires IsRun(ss, actions) && Init(ss[0]) && i < |ss|
    ensures Inv(ss[i])
  {
    if i > 0 {
      RunKeepsInv(ss, actions, i - 1);
      StepKeepsInv(ss[i - 1], actions[i - 1]);
      assert ss[i - 1 + 1] == Step(ss[i - 1], actions[i - 1]);
    }
  }

  /** Nothing but spawning touches the grants and which processes there are. */
  lemma {:induction false} StepKeepsGrants(s: System, a: Action)
    requires Valid(s.kernel.fs) && !a.Spawn?
    ensures Step(s, a).grants == s.grants && Step(s, a).procs.Keys == s.procs.Keys
  {
    if a.Host? && a.pid in s.procs {
      AfterCallKeepsGrants(s, a.pid, a.call, Call(s.procs[a.pid], s.kernel, a.call));
    }
  }

  lemma {:induction false} AfterCallKeepsGrants(s: System, pid: Pid, c: HostCall, r: Reply)
    requires pid in s.procs
    ensures AfterCall(s, pid, c, r).grants == s.grants && AfterCall(s, pid, c, r).procs.Keys == s.procs.Keys
  {
  }

  ghost predicate SpawnedWith(s: System, a: Action, pid: Pid, grants: set<Grant>) {
    a.Spawn? && a.pid == pid && grants == GrantsOf(s.kernel.fs, TableOf(a.initial))
  }

  /** The grants of a process are what it was spawned with, once and for all. */
  lemma {:induction false} GrantsAreSpawned(ss: seq<System>, actions: seq<Action>, i: nat, pid: Pid)
    requires IsRun(ss, actions) && Init(ss[0]) && i < |ss|
    ensures pid in ss[i].grants <==> pid in ss[i].procs
    ensures pid in ss[i].grants ==> exists j | 0 <= j < i :: SpawnedWith(ss[j], actions[j], pid, ss[i].grants[pid])
    decreases i
  {
    if i > 0 {
      GrantsAreSpawned(ss, actions, i - 1, pid);
      assert ss[i - 1 + 1] == Step(ss[i - 1], actions[i - 1]);
      StepGrants(ss[i - 1], actions[i - 1], ss[i], pid);
    }
  }

  /** What a step does to the existence and the grants of one process. */
  ghost predicate GrantsMove(s: System, a: Action, s': System, pid: Pid) {
    if a.Spawn? && a.pid == pid then
      pid in s'.procs && pid in s'.grants && SpawnedWith(s, a, pid, s'.grants[pid])
    else
      && (pid in s'.procs <==> pid in s.procs)
      && (pid in s'.grants <==> pid in s.grants)
      && (pid in s.grants ==> s'.grants[pid] == s.grants[pid])
  }

  lemma {:induction false} SpawnGrants(s: System, pid: Pid, table: map<CapId, Capability>, s': System, other: Pid)
    requires s' == AfterSpawn(s, pid, table)
    ensures pid in s'.procs && pid in s'.grants && s'.grants[pid] == GrantsOf(s.kernel.fs, table)
    ensures other != pid ==>
              && (other in s'.procs <==> other in s.procs)
              && (other in s'.grants <==> other in s.grants)
              && (other in s.grants ==> s'.grants[other] == s.grants[other])
  {
  }

  lemma {:induction false} StepGrants(s: System, a: Action, s': System, pid: Pid)
    requires Valid(s.kernel.fs) && s' == Step(s, a)
    ensures GrantsMove(s, a, s', pid)
  {
    if a.Spawn? {
      SpawnGrants(s, a.pid, TableOf(a.initial), s', pid);
    } else {
      StepKeepsGrants(s, a);
      assert pid in s'.procs.Keys <==> pid in s.procs.Keys;
    }
  }

  // ---- Confinement ----

  ghost predicate Ancestor(a: Lineage, l: Lineage) {
    a == l || (l.Derived? && Ancestor(a, l.parent))
  }

  /** Along a sound lineage rights only shrink and nodes only go down. */
  lemma {:induction false} AncestorsBound(t: Tree, grants: set<Grant>, l: Lineage, a: Lineage)
    requires Forest(t) && Sound(t, grants, l) && Ancestor(a, l)
    ensures Sound(t, grants, a)
    ensures l.cap.rights <= a.cap.rights && Below(t, l.node, a.node)
    ensures l != a ==> a.cap.resource.DirectoryCap? && READ in a.cap.rights
    decreases l
  {
    if l != a {
      AncestorsBound(t, grants, l.parent, a);
      BelowTransitive(t, l.node, l.parent.node, a.node);
    }
  }

  function Origin(l: Lineage): (g: Lineage)
    ensures g.Granted?
  {
    if l.Granted? then l else Origin(l.parent)
  }

  lemma {:induction false} OriginIsAncestor(l: Lineage)
    ensures Ancestor(Origin(l), l)
    decreases l
  {
    if l.Derived? {
      OriginIsAncestor(l.parent);
    }
  }

  /** What confinement says of one capability: its lineage and where its handle leads. */
  ghost predicate ConfinedBy(fs: Fs, grants: set<Grant>, cap: Capability, l: Lineage)
    requires Valid(fs) && FsCap(cap)
  {
    var g := Origin(l);
    && l.cap == cap
    && (g.cap, g.node) in grants
    && (cap == g.cap || (g.cap.resource.DirectoryCap? && READ in g.cap.rights))
    && (forall a | Ancestor(a, l) ::
          && cap.rights <= a.cap.rights
          && (cap.resource.handle in fs.handles ==> Below(fs.tree, fs.handles[cap.resource.handle], a.node)))
    && (cap.resource.handle in fs.handles && g.node < |fs.tree.nodes| ==>
          Birth(fs.tree, g.node) <= Birth(fs.tree, fs.handles[cap.resource.handle]))
  }

  /**
   In every state of every run, with processes spawned at any time, each file or directory capability a
   process holds goes back to one of the grants the process was spawned with: it is that grant, or the
   grant is a readable directory; it has no right that any ancestor lacks; and while its handle is open,
   the handle denotes a node at or below the node of every ancestor, so one whose path extends the path
   of the grant.
   */
  lemma {:induction false} Confined(ss: seq<System>, actions: seq<Action>, i: nat, pid: Pid, id: CapId)
    requires IsRun(ss, actions) && Init(ss[0]) && i < |ss|
    requires pid in ss[i].procs && id in ss[i].procs[pid].caps && FsCap(ss[i].procs[pid].caps[id])
    ensures Valid(ss[i].kernel.fs) && pid in ss[i].grants && (pid, id) in ss[i].lineage
    ensures ConfinedBy(ss[i].kernel.fs, ss[i].grants[pid], ss[i].procs[pid].caps[id], ss[i].lineage[(pid, id)])
  {
    RunKeepsInv(ss, actions, i);
    assert Accounted(ss[i], pid, id);
    SoundIsConfined(ss[i].kernel.fs, ss[i].grants[pid], ss[i].procs[pid].caps[id], ss[i].lineage[(pid, id)]);
  }

  lemma {:induction false} SoundIsConfined(fs: Fs, grants: set<Grant>, cap: Capability, l: Lineage)
    requires Valid(fs) && FsCap(cap) && Stands(fs, cap, l) && Sound(fs.tree, grants, l)
    ensures ConfinedBy(fs, grants, cap, l)
  {
    forall a | Ancestor(a, l)
      ensures cap.rights <= a.cap.rights && Below(fs.tree, l.node, a.node)
    {
      AncestorsBound(fs.tree, grants, l, a);
    }
    OriginIsAncestor(l);
    AncestorsBound(fs.tree, grants, l, Origin(l));
    BelowExtendsBirth(fs.tree, l.node, Origin(l).node);
  }
}
