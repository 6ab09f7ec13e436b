/**
 The RAM file system as the object the kernel holds: nodes, handle table and counters are fields
 that the methods update. Every method is proved to do what the function of the same name does to
 the value of the object.
 */
module RamFsObject {
  import opened Common
  import opened Paths
  import opened RamFs

  class RamFileSystem {
    var nodes: seq<Node>
    ghost var made: seq<Edge>
    var openHandles: map<Handle, NodeId>
    var nextHandle: u32
    var nextHandleAt: u32

    ghost function Value(): Fs
      reads this
    {
      Fs(Tree(nodes, made), openHandles, nextHandle, nextHandleAt)
    }

    ghost predicate Valid()
      reads this
    {
      RamFs.Valid(Value())
    }

    constructor ()
      ensures Valid() && Value() == RamFs.Empty()
    {
      nodes := [EMPTY_DIR];
      made := [Edge(ROOT, [])];
      openHandles := map[];
      nextHandle := FIRST_HANDLE;
      nextHandleAt := FIRST_HANDLE_AT;
    }

    /** `map.insert(name, Arc::new(RwLock::new(body)))` in the directory node `d`. */
    method InsertNode(d: NodeId, name: Name, body: Node) returns (id: NodeId)
      requires Valid() && d < |nodes| && nodes[d].Directory? && RamFs.FreshBody(body)
      modifies this`nodes, this`made
      ensures Valid() && id == old(|nodes|)
      ensures Value() == old(Value()).(tree := RamFs.Insert(old(Value()).tree, d, name, body))
    {
      ghost var t := Tree(nodes, made);
      id := |nodes|;
      nodes := nodes[d := Directory(nodes[d].entries[name := id])] + [body];
      made := made + [Edge(d, name)];
      assert Tree(nodes, made) == RamFs.Insert(t, d, name, body);
    }

    /** `map.entry(parts[0]).or_insert_with(an empty directory)` in the directory node `d`. */
    method EntryOrInsert(d: NodeId, parts: seq<Name>, ghost content: seq<byte>) returns (id: NodeId)
      requires Valid() && d < |nodes| && nodes[d].Directory? && |parts| > 1
      modifies this`nodes, this`made
      ensures Valid() && id < |nodes|
      ensures RamFs.AddAt(Value().tree, id, parts[1..], content) == RamFs.AddAt(old(Value()).tree, d, parts, content)
    {
      if parts[0] in nodes[d].entries {
        id := nodes[d].entries[parts[0]];
      } else {
        id := InsertNode(d, parts[0], EMPTY_DIR);
      }
    }

    /** Traverses or creates the directories of all parts but the last; stops early at a file. */
    method EnterDirectories(parts: seq<Name>, ghost content: seq<byte>) returns (current: NodeId, last: seq<Name>)
      requires Valid() && parts != []
      modifies this`nodes, this`made
      ensures Valid() && current < |nodes| && last != []
      ensures nodes[current].Directory? ==> last == [parts[|parts| - 1]]
      ensures RamFs.AddAt(Value().tree, current, last, content) == RamFs.AddAt(old(Value()).tree, ROOT, parts, content)
    {
      current, last := ROOT, parts;
      while |last| > 1
        invariant Valid() && current < |nodes| && last != [] && last[|last| - 1] == parts[|parts| - 1]
        invariant RamFs.AddAt(Value().tree, current, last, content)
               == RamFs.AddAt(old(Value()).tree, ROOT, parts, content)
      {
        if nodes[current].File? {
          return;
        }
        current := EntryOrInsert(current, last, content);
        last := last[1..];
      }
    }

    method AddFile(path: seq<byte>, content: seq<byte>)
      requires Valid()
      modifies this`nodes, this`made
      ensures Valid() && Value() == RamFs.AddFile(old(Value()), path, content)
    {
      var parts := Components(path);
      if parts == [] {
        return;
      }
      var current, _ := EnterDirectories(parts, content);
      if nodes[current].Directory? {
        var _ := InsertNode(current, parts[|parts| - 1], File(content));
      }
    }

    /** The traversal shared by `resolve_path`, `open_at` and `mkdir_at`. */
    method Resolve(start: NodeId, parts: seq<Name>) returns (r: Result<NodeId, FsError>)
      requires Valid() && start < |nodes|
      ensures match RamFs.Walk(Value().tree, start, parts)
              case None => r == Err(NotFound)
              case Some(n) => r == Ok(n)
    {
      var current: NodeId, i: nat := start, 0;
      while i < |parts|
        invariant 0 <= i <= |parts| && current < |nodes|
        invariant RamFs.Walk(Value().tree, current, parts[i..]) == RamFs.Walk(Value().tree, start, parts)
      {
        assert parts[i..][1..] == parts[i + 1..];
        match nodes[current] {
          case File(_) =>
            return Err(NotFound);
          case Directory(map_) =>
            if parts[i] !in map_ {
              return Err(NotFound);
            }
            current := map_[parts[i]];
        }
        i := i + 1;
      }
      return Ok(current);
    }

    method Open(path: seq<byte>) returns (r: Result<Handle, FsError>)
      requires Valid()
      modifies this`openHandles, this`nextHandle
      ensures Valid() && (Value(), r) == RamFs.Open(old(Value()), path)
    {
      var node := Resolve(ROOT, Components(path));
      if node.Err? {
        return Err(node.error);
      }
      var handle := nextHandle;
      nextHandle := Next32(nextHandle);
      openHandles := openHandles[handle := node.value];
      return Ok(handle);
    }

    method OpenAt(base: Handle, path: seq<byte>) returns (r: Result<Handle, FsError>)
      requires Valid()
      modifies this`openHandles, this`nextHandleAt
      ensures Valid() && (Value(), r) == RamFs.OpenAt(old(Value()), base, path)
    {
      if base !in openHandles {
        return Err(InvalidHandle);
      }
      var node := Resolve(openHandles[base], Components(path));
      if node.Err? {
        return Err(node.error);
      }
      var handle := nextHandleAt;
      nextHandleAt := Next32(nextHandleAt);
      openHandles := openHandles[handle := node.value];
      return Ok(handle);
    }

    method MkdirAt(base: Handle, path: seq<byte>) returns (r: Result<(), FsError>)
      requires Valid()
      modifies this`nodes, this`made
      ensures Valid() && (Value(), r) == RamFs.MkdirAt(old(Value()), base, path)
    {
      var parts := Components(path);
      if parts == [] {
        return Err(PermissionDenied);
      }
      var start := ROOT;
      if base != 0 {
        if base !in openHandles {
          return Err(InvalidHandle);
        }
        start := openHandles[base];
      }
      var parent := Resolve(start, parts[..|parts| - 1]);
      if parent.Err? {
        return Err(parent.error);
      }
      match nodes[parent.value] {
        case File(_) =>
          return Err(InvalidHandle);
        case Directory(map_) =>
          if parts[|parts| - 1] in map_ {
            return Err(PermissionDenied);
          }
          var _ := InsertNode(parent.value, parts[|parts| - 1], EMPTY_DIR);
          return Ok(());
      }
    }

    /** Copies into `buffer` and returns the number of bytes; the rest of the buffer is untouched. */
    method Read(handle: Handle, buffer: array<byte>, offset: nat) returns (r: Result<nat, FsError>)
      requires Valid()
      modifies buffer
      ensures match RamFs.Read(Value(), handle, buffer.Length, offset)
              case Err(e) => r == Err(e) && buffer[..] == old(buffer[..])
              case Ok(bytes) =>
                && r == Ok(|bytes|)
                && |bytes| <= buffer.Length
                && buffer[..] == bytes + old(buffer[..])[|bytes|..]
    {
      if handle !in openHandles || nodes[openHandles[handle]].Directory? {
        return Err(InvalidHandle);
      }
      var content := nodes[openHandles[handle]].content;
      if offset >= |content| {
        return Ok(0);
      }
      var end := Min(offset + buffer.Length, |content|);
      var bytesRead := end - offset;
      forall i | 0 <= i < bytesRead {
        buffer[i] := content[offset + i];
      }
      return Ok(bytesRead);
    }

    method Size(handle: Handle) returns (r: Result<nat, FsError>)
      requires Valid()
      ensures r == RamFs.Size(Value(), handle)
    {
      if handle !in openHandles {
        return Err(InvalidHandle);
      }
      match nodes[openHandles[handle]] {
        case File(content) => return Ok(|content|);
        case Directory(_) => return Ok(0);
      }
    }

    method IsDir(handle: Handle) returns (r: bool)
      requires Valid()
      ensures r == RamFs.IsDir(Value(), handle)
    {
      r := handle in openHandles && nodes[openHandles[handle]].Directory?;
    }

    method Close(handle: Handle)
      requires Valid()
      modifies this`openHandles
      ensures Valid() && Value() == RamFs.Close(old(Value()), handle)
    {
      openHandles := openHandles - {handle};
    }
  }
}
