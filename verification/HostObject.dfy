/**
 The per-process host state as an object, and the host functions that update it, the shared file
 system and the linear memory in place. Each is proved to do what its function in `HostCalls` does.
 */
module HostObject {
  import opened Common
  import opened Capabilities
  import opened RamFs
  import opened RamFsObject
  import opened HostCalls
  import Utf8

  /** The static counter of `Capability::new`. */
  class CapabilityCounter {
    var next: u32
  }

  class HostState {
    var capabilities: map<CapId, Capability>
    var fuelRemaining: u64

    /** The process as a value, with the given linear memory. */
    ghost function Value(memory: Option<seq<byte>>): Process
      reads this
    {
      Process(capabilities, fuelRemaining, memory)
    }

    /** `with_capabilities`: later grants replace earlier ones with the same identifier. */
    constructor (initial: seq<Capability>)
      ensures fuelRemaining == 0
      ensures capabilities == TableOf(initial)
    {
      fuelRemaining := 0;
      capabilities := map[];
      new;
      for n := 0 to |initial|
        invariant fuelRemaining == 0 && capabilities == TableOf(initial[..n])
      {
        assert initial[..n + 1][..n] == initial[..n];
        capabilities := capabilities[initial[n].id := initial[n]];
      }
      assert initial[..|initial|] == initial;
    }

    method AddCapability(cap: Capability) returns (id: CapId)
      modifies this`capabilities
      ensures id == cap.id && capabilities == old(capabilities)[cap.id := cap]
    {
      id := cap.id;
      capabilities := capabilities[id := cap];
    }

    method GetCapability(raw: u64) returns (found: Option<Capability>)
      ensures forall memory :: found == Lookup(Value(memory), raw)
    {
      var id := FromU64(raw);
      if id in capabilities && capabilities[id].generation % 0x1_0000_0000 == id.generation {
        return Some(capabilities[id]);
      }
      return None;
    }

    /** `check_fuel`: `false` is the yield trap. */
    method CheckFuel(cost: nat) returns (enough: bool)
      modifies this`fuelRemaining
      ensures forall memory :: Value(memory) == Burn(old(Value(memory)), cost) && enough == !Exhausted(Value(memory))
      ensures fuelRemaining == (if cost <= old(fuelRemaining) then old(fuelRemaining) - cost else 0)
      ensures enough <==> fuelRemaining >= 500
    {
      fuelRemaining := if cost <= fuelRemaining then fuelRemaining - cost else 0;
      enough := fuelRemaining >= YIELD_THRESHOLD;
    }

    /** `memory.write`: fails without an effect when the bytes do not fit. */
    method WriteBytes(memory: array<byte>, offset: nat, bytes: seq<byte>) returns (ok: bool)
      modifies memory
      ensures ok == InBounds(old(memory[..]), offset, |bytes|)
      ensures memory[..] == if ok then Store(old(memory[..]), offset, bytes) else old(memory[..])
    {
      ok := offset + |bytes| <= memory.Length;
      if ok {
        forall j | 0 <= j < |bytes| {
          memory[offset + j] := bytes[j];
        }
      }
    }

    /** Writes one record in three pieces; `ok` is false when a piece does not fit. */
    method WriteRecord(memory: array<byte>, offset: nat, cap: Capability, ghost rest: seq<seq<byte>>) returns (ok: bool)
      modifies memory
      ensures StoreAll(old(memory[..]), offset, Pieces(cap) + rest) ==
              if ok then StoreAll(memory[..], offset + 16, rest) else (memory[..], false)
    {
      ghost var all, start := Pieces(cap) + rest, memory[..];
      assert all[1..] == Pieces(cap)[1..] + rest;
      assert all[1..][1..] == [Pieces(cap)[2]] + rest;
      assert all[1..][1..][1..] == rest;
      ok := WriteBytes(memory, offset, Le(AsU64(cap.id), 8));
      if !ok {
        return;
      }
      assert StoreAll(start, offset, all) == StoreAll(memory[..], offset + 8, all[1..]);
      ghost var second := memory[..];
      ok := WriteBytes(memory, offset + 8, Le(Tag(cap.resource), 4));
      if !ok {
        return;
      }
      assert StoreAll(second, offset + 8, all[1..]) == StoreAll(memory[..], offset + 12, all[1..][1..]);
      ghost var third := memory[..];
      ok := WriteBytes(memory, offset + 12, Le(Bits(cap.rights), 4));
      assert ok ==> StoreAll(third, offset + 12, all[1..][1..]) == StoreAll(memory[..], offset + 16, rest);
    }

    method SpGetCapabilities(memory: array?<byte>, ptr: i32, len: i32, ghost k: Kernel) returns (outcome: Outcome)
      requires RamFs.Valid(k.fs)
      modifies this`fuelRemaining, memory
      ensures var mem := if memory == null then None else Some(memory[..]);
              Reply(Value(mem), k, outcome) == Call(old(Value(if memory == null then None else Some(memory[..]))), k,
                                                    GetCapabilities(ptr, len))
    {
      var enough := CheckFuel(CAP_LOOKUP);
      if !enough {
        return Trap(Yield);
      }
      if memory == null {
        return Done(NO_MEMORY_EXPORT);
      }
      var count := |capabilities|;
      if AsUsize(len) < count * 16 {
        return Done(BUFFER_TOO_SMALL);
      }
      enough := CheckFuel(MEMORY_IO * count);
      if !enough {
        return Trap(Yield);
      }
      var ok := WriteTable(memory, AsUsize(ptr));
      return Done(if ok then AsI32(count) else MEMORY_WRITE_FAILED);
    }

    /** The loop of `sp_get_capabilities`: one record per capability, in the order of the identifiers. */
    method WriteTable(memory: array<byte>, start: nat) returns (ok: bool)
      modifies memory
      ensures (memory[..], ok) == StoreAll(old(memory[..]), start, AllPieces(Listing(capabilities)))
    {
      var offset, remaining := start, capabilities.Keys;
      while remaining != {}
        invariant remaining <= capabilities.Keys
        invariant StoreAll(memory[..], offset, AllPieces(Values(capabilities, Ascending(remaining)))) ==
                  StoreAll(old(memory[..]), start, AllPieces(Listing(capabilities)))
      {
        ghost var least := Smallest(remaining);
        var id :| id in remaining && forall other | other in remaining :: other == id || Less(id, other);
        assert least in remaining && (least == id || (Less(id, least) && Less(least, id)));
        ghost var listed := Values(capabilities, Ascending(remaining));
        assert Ascending(remaining)[1..] == Ascending(remaining - {id});
        assert listed[0] == capabilities[id] && listed[1..] == Values(capabilities, Ascending(remaining - {id}));
        var written := WriteRecord(memory, offset, capabilities[id], AllPieces(listed[1..]));
        if !written {
          return false;
        }
        offset := offset + 16;
        remaining := remaining - {id};
      }
      return true;
    }

    method SpFsOpen(fs: RamFileSystem, counter: CapabilityCounter, memory: array?<byte>, dirCap: u64, ptr: i32, len: i32,
                    ghost k: Kernel)
      returns (outcome: Outcome)
      requires fs.Valid() && k.fs == fs.Value() && k.nextCap == counter.next
      modifies this, fs, counter
      ensures fs.Valid()
      ensures var mem := if memory == null then None else Some(memory[..]);
              Reply(Value(mem), k.(fs := fs.Value(), nextCap := counter.next), outcome) ==
              Call(old(Value(mem)), k, FsOpen(dirCap, ptr, len))
    {
      var enough := CheckFuel(FS_OPERATION);
      if !enough {
        return Trap(Yield);
      }
      var path := ReadPath(memory, ptr, len);
      if path.Err? {
        return path.error;
      }
      var found := GetCapability(dirCap);
      ghost var p := Value(if memory == null then None else Some(memory[..]));
      assert found == Lookup(p, dirCap);
      if found.None? {
        return Done(CAP_NOT_FOUND);
      }
      var parent := found.value;
      if !parent.resource.DirectoryCap? {
        return Done(NOT_A_DIRECTORY);
      }
      if READ !in parent.rights {
        return Done(PERMISSION_DENIED);
      }
      outcome := OpenBelow(fs, counter, parent, path.value, k);
    }

    /** The second half of `sp_fs_open`: opens the path and derives the capability. */
    method OpenBelow(fs: RamFileSystem, counter: CapabilityCounter, parent: Capability, path: seq<byte>, ghost k: Kernel)
      returns (outcome: Outcome)
      requires fs.Valid() && k.fs == fs.Value() && k.nextCap == counter.next && parent.resource.DirectoryCap?
      modifies this`capabilities, fs, counter
      ensures fs.Valid()
      ensures match RamFs.OpenAt(k.fs, Handle32(parent.resource.handle), path)
              case (_, Err(_)) =>
                outcome == Done(FS_ERROR) && capabilities == old(capabilities) && fs.Value() == k.fs
                && counter.next == k.nextCap
              case (fs', Ok(h)) =>
                var child := Derive(k, parent, h, RamFs.IsDir(fs', h));
                && outcome == Done(AsU64(child.id)) && capabilities == old(capabilities)[child.id := child]
                && fs.Value() == fs' && counter.next == Next32(k.nextCap)
    {
      var handle := fs.OpenAt(Handle32(parent.resource.handle), path);
      if handle.Err? {
        return Done(FS_ERROR);
      }
      var isDir := fs.IsDir(handle.value);
      var rights := parent.rights * if isDir then DIRECTORY_RIGHTS else FILE_RIGHTS;
      var child := Capability(CapId(counter.next, 0), rights,
                              if isDir then DirectoryCap(handle.value) else FileCap(handle.value), 0);
      counter.next := Next32(counter.next);
      var id := AddCapability(child);
      return Done(AsU64(id));
    }

    /** Reads the path argument from linear memory, or gives the outcome that ends the call. */
    method ReadPath(memory: array?<byte>, ptr: i32, len: i32) returns (r: Result<seq<byte>, Outcome>)
      ensures r == PathArgument(Value(if memory == null then None else Some(memory[..])), ptr, len)
    {
      if memory == null {
        return Err(Done(NO_MEMORY_EXPORT));
      }
      if len < 0 {
        return Err(Panic);
      }
      if AsUsize(ptr) + len > memory.Length {
        return Err(Done(MEMORY_READ_FAILED));
      }
      var path := memory[AsUsize(ptr)..AsUsize(ptr) + len];
      assert path == memory[..][AsUsize(ptr)..AsUsize(ptr) + len];
      if !Utf8.WellFormed(path) {
        return Err(Done(INVALID_UTF8));
      }
      return Ok(path);
    }

    method SpFsMkdir(fs: RamFileSystem, memory: array?<byte>, dirCap: u64, ptr: i32, len: i32, ghost k: Kernel)
      returns (outcome: Outcome)
      requires fs.Valid() && k.fs == fs.Value()
      modifies this`fuelRemaining, fs
      ensures fs.Valid()
      ensures var mem := if memory == null then None else Some(memory[..]);
              Reply(Value(mem), k.(fs := fs.Value()), outcome) == Call(old(Value(mem)), k, FsMkdir(dirCap, ptr, len))
    {
      var enough := CheckFuel(FS_OPERATION);
      if !enough {
        return Trap(Yield);
      }
      var path := ReadPath(memory, ptr, len);
      if path.Err? {
        return path.error;
      }
      var found := GetCapability(dirCap);
      ghost var p := Value(if memory == null then None else Some(memory[..]));
      assert found == Lookup(p, dirCap);
      if found.None? {
        return Done(CAP_NOT_FOUND);
      }
      if !found.value.resource.DirectoryCap? {
        return Done(NOT_A_DIRECTORY);
      }
      if WRITE !in found.value.rights {
        return Done(PERMISSION_DENIED);
      }
      var r := fs.MkdirAt(Handle32(found.value.resource.handle), path.value);
      return Done(if r.Ok? then 0 else FS_ERROR);
    }

    method SpFsRead(fs: RamFileSystem, memory: array?<byte>, fileCap: u64, ptr: i32, len: i32, offset: i32, ghost k: Kernel)
      returns (outcome: Outcome)
      requires fs.Valid() && k.fs == fs.Value()
      modifies this`fuelRemaining, memory
      ensures var mem := if memory == null then None else Some(memory[..]);
              Reply(Value(mem), k, outcome) == Call(old(Value(if memory == null then None else Some(memory[..]))), k,
                                                    FsRead(fileCap, ptr, len, offset))
    {
      var enough := CheckFuel(FS_OPERATION);
      if !enough {
        return Trap(Yield);
      }
      if memory == null {
        return Done(NO_MEMORY_EXPORT);
      }
      var found := GetCapability(fileCap);
      assert found == Lookup(Value(Some(memory[..])), fileCap);
      if found.None? {
        return Done(CAP_NOT_FOUND);
      }
      if !found.value.resource.FileCap? {
        return Done(NOT_A_FILE);
      }
      if READ !in found.value.rights {
        return Done(PERMISSION_DENIED);
      }
      if len < 0 {
        return Panic;
      }
      var buffer := new byte[len](_ => 0);
      var n := fs.Read(Handle32(found.value.resource.handle), buffer, AsUsize(offset));
      if n.Err? {
        return Done(FS_ERROR);
      }
      ghost var bytes := RamFs.Read(k.fs, Handle32(found.value.resource.handle), len, AsUsize(offset)).value;
      assert buffer[..n.value] == bytes;
      enough := CheckFuel(MEMORY_IO);
      if !enough {
        return Trap(Yield);
      }
      var ok := WriteBytes(memory, AsUsize(ptr), buffer[..n.value]);
      return Done(if ok then AsI32(n.value) else MEMORY_WRITE_FAILED);
    }

    method SpFsClose(fs: RamFileSystem, fileCap: u64, ghost k: Kernel, ghost memory: Option<seq<byte>>)
      returns (outcome: Outcome)
      requires fs.Valid() && k.fs == fs.Value()
      modifies this, fs
      ensures fs.Valid()
      ensures Reply(Value(memory), k.(fs := fs.Value()), outcome) == Call(old(Value(memory)), k, FsClose(fileCap))
    {
      var enough := CheckFuel(CAP_LOOKUP);
      if !enough {
        return Trap(Yield);
      }
      var id := FromU64(fileCap);
      if id in capabilities {
        var resource := capabilities[id].resource;
        capabilities := capabilities - {id};
        if resource.FileCap? || resource.DirectoryCap? {
          fs.Close(Handle32(resource.handle));
        }
      }
      return Done(0);
    }
  }
}
