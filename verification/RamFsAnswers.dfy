/** What the file system answers, call by call and over sequences of calls, in terms of paths and contents. */
module RamFsAnswers {
  import opened Common
  import opened Paths
  import opened RamFs
  import opened RamFsTree
  import opened RamFsHandles

  /** The content of the file an open handle denotes. */
  function FileAt(fs: Fs, h: Handle): Option<seq<byte>>
    requires Valid(fs)
  {
    if h in fs.handles && fs.tree.nodes[fs.handles[h]].File? then Some(fs.tree.nodes[fs.handles[h]].content) else None
  }

  // ---- Reading ----

  /**
   A read succeeds exactly on open files. It delivers as many bytes as fit and are there, no more and no
   fewer, and byte `i` of the buffer is byte `offset + i` of the file.
   */
  lemma {:induction false} ReadExact(fs: Fs, h: Handle, len: nat, offset: nat)
    requires Valid(fs)
    ensures var r, file := Read(fs, h, len, offset), FileAt(fs, h);
            && (file.None? ==> r == Err(InvalidHandle))
            && (file.Some? ==>
                  && r.Ok?
                  && (offset >= |file.value| ==> r.value == [])
                  && (offset < |file.value| && len <= |file.value| - offset ==> |r.value| == len)
                  && (offset < |file.value| && len > |file.value| - offset ==> |r.value| == |file.value| - offset)
                  && forall i | 0 <= i < |r.value| :: r.value[i] == file.value[offset + i])
  {
  }

  lemma {:induction false} SizeExact(fs: Fs, h: Handle)
    requires Valid(fs)
    ensures FileAt(fs, h).Some? ==> Size(fs, h) == Ok(|FileAt(fs, h).value|)
    ensures FileAt(fs, h).None? && h in fs.handles ==> Size(fs, h) == Ok(0) && IsDir(fs, h)
    ensures h !in fs.handles ==> Size(fs, h) == Err(InvalidHandle)
    ensures IsDir(fs, h) ==> h in fs.handles && FileAt(fs, h).None?
  {
  }

  /** One read at offset 0 with a buffer of the file's size, or a larger one, gives the whole file. */
  lemma {:induction false} ReadWhole(fs: Fs, h: Handle, len: nat)
    requires Valid(fs) && FileAt(fs, h).Some? && Size(fs, h).Ok? && len >= Size(fs, h).value
    ensures Read(fs, h, len, 0) == Ok(FileAt(fs, h).value)
  {
    ReadExact(fs, h, len, 0);
    SizeExact(fs, h);
    assert Read(fs, h, len, 0).value == FileAt(fs, h).value;
  }

  // ---- Handles ----

  /** One handle more, bound to `n`; nothing else has changed but the counters. */
  ghost predicate Bound(fs: Fs, fs': Fs, h: Handle, n: NodeId) {
    && fs'.tree == fs.tree
    && h in fs'.handles && fs'.handles[h] == n
    && (forall other: Handle | other != h ::
          (other in fs'.handles <==> other in fs.handles)
          && (other in fs.handles ==> fs'.handles[other] == fs.handles[other]))
  }

  /** `open` leads where the path leads; its handle is the counter's value, and the counter goes up by one. */
  lemma {:induction false} OpenExact(fs: Fs, path: seq<byte>)
    requires Valid(fs)
    ensures var (fs', r) := Open(fs, path);
            match Walk(fs.tree, 0, Components(path))
            case None => fs' == fs && r == Err(NotFound)
            case Some(n) =>
              && r == Ok(fs.nextHandle) && Bound(fs, fs', fs.nextHandle, n)
              && (fs'.nextHandle - fs.nextHandle - 1) % 0x1_0000_0000 == 0 && fs'.nextHandleAt == fs.nextHandleAt
  {
  }

  lemma {:induction false} OpenAtExact(fs: Fs, base: Handle, path: seq<byte>)
    requires Valid(fs)
    ensures var (fs', r) := OpenAt(fs, base, path);
            if base !in fs.handles then fs' == fs && r == Err(InvalidHandle)
            else
              match Walk(fs.tree, fs.handles[base], Components(path))
              case None => fs' == fs && r == Err(NotFound)
              case Some(n) =>
                && r == Ok(fs.nextHandleAt) && Bound(fs, fs', fs.nextHandleAt, n)
                && (fs'.nextHandleAt - fs.nextHandleAt - 1) % 0x1_0000_0000 == 0 && fs'.nextHandle == fs.nextHandle
  {
  }

  lemma {:induction false} CloseExact(fs: Fs, h: Handle)
    ensures var fs' := Close(fs, h);
            && fs'.tree == fs.tree && fs'.nextHandle == fs.nextHandle && fs'.nextHandleAt == fs.nextHandleAt
            && h !in fs'.handles
            && forall other: Handle | other != h ::
                 (other in fs'.handles <==> other in fs.handles)
                 && (other in fs.handles ==> fs'.handles[other] == fs.handles[other])
  {
  }

  /** Which error `mkdir_at` gives, in the order of its tests; handle 0 is the root. */
  lemma {:induction false} MkdirAtErrors(fs: Fs, base: Handle, path: seq<byte>)
    requires Valid(fs)
    ensures var r, p := MkdirAt(fs, base, path).1, Components(path);
            && (p == [] ==> r == Err(PermissionDenied))
            && (p != [] && base != 0 && base !in fs.handles ==> r == Err(InvalidHandle))
            && (p != [] && (base == 0 || base in fs.handles) ==>
                  var start := if base == 0 then 0 else fs.handles[base];
                  var parent := Walk(fs.tree, start, p[..|p| - 1]);
                  && (parent.None? ==> r == Err(NotFound))
                  && (parent.Some? && fs.tree.nodes[parent.value].File? ==> r == Err(InvalidHandle))
                  && (Walk(fs.tree, start, p).Some? ==> r == Err(PermissionDenied))
                  && (parent.Some? && fs.tree.nodes[parent.value].Directory? && Walk(fs.tree, start, p).None? ==> r.Ok?))
  {
    var p := Components(path);
    if p != [] && (base == 0 || base in fs.handles) {
      var start := if base == 0 then 0 else fs.handles[base];
      var last := p[|p| - 1];
      var rest: seq<Name> := [];
      assert p == p[..|p| - 1] + [last] && [last][1..] == rest;
      WalkConcat(fs.tree, start, p[..|p| - 1], [last]);
    }
  }

  // ---- A file's life ----

  /**
   A file that could be added can be opened under its path, has the size of its content, and one read
   gives the content back; when its handle is closed it can be read no more.
   */
  lemma {:induction false} AddOpenReadClose(fs: Fs, path: seq<byte>, content: seq<byte>)
    requires Valid(fs) && Components(path) != [] && !Blocked(fs.tree, ROOT, Components(path))
    ensures var added := AddFile(fs, path, content);
            Valid(added)
            && var (after, r) := Open(added, path);
            && r.Ok? && Size(after, r.value) == Ok(|content|) && !IsDir(after, r.value)
            && Read(after, r.value, |content|, 0) == Ok(content)
            && var closed := Close(after, r.value);
            && Read(closed, r.value, |content|, 0) == Err(InvalidHandle)
            && Size(closed, r.value) == Err(InvalidHandle)
  {
    var added := AddFile(fs, path, content);
    AddFileExact(fs, path, content, Components(path));
    OpenExact(added, path);
    var (after, r) := Open(added, path);
    SizeExact(after, r.value);
    ReadWhole(after, r.value, |content|);
    CloseExact(after, r.value);
    ReadExact(Close(after, r.value), r.value, |content|, 0);
    SizeExact(Close(after, r.value), r.value);
  }
}
