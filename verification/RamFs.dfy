/**
 The RAM file system on values: the node graph, the table of open handles, and every operation as a
 function from the old state to the new one.

 A shared node (`Arc<RwLock<Node>>`) is an index into `nodes`; two handles or directory entries share
 a node when they hold the same index. `made` is a history variable that no operation reads: it
 records, for each node, the directory and the name it was first inserted under.
 */
module RamFs {
  import opened Common
  import opened Paths

  datatype FsError = NotFound | PermissionDenied | InvalidHandle

  type NodeId = nat
  type Handle = u32

  datatype Node = File(content: seq<byte>) | Directory(entries: map<Name, NodeId>)
  datatype Edge = Edge(dir: NodeId, name: Name)
  datatype Tree = Tree(nodes: seq<Node>, made: seq<Edge>)
  datatype Fs = Fs(tree: Tree, handles: map<Handle, NodeId>, nextHandle: u32, nextHandleAt: u32)

  const ROOT: NodeId := 0
  const FIRST_HANDLE: u32 := 1
  const FIRST_HANDLE_AT: u32 := 10000
  const EMPTY_DIR := Directory(map[])

  /**
   The node graph is a forest: every entry leads to the node that was made under exactly that
   directory and name, and a node is younger than the directory it was made in. So no node has two
   parents or two names, and there are no cycles, also below directories that were detached.
   */
  ghost predicate Forest(t: Tree) {
    && 0 < |t.nodes| == |t.made|
    && t.nodes[ROOT].Directory?
    && (forall c | 0 < c < |t.made| :: t.made[c].dir < c)
    && (forall d, name | 0 <= d < |t.nodes| && t.nodes[d].Directory? && name in t.nodes[d].entries ::
          var c := t.nodes[d].entries[name];
          0 < c < |t.nodes| && t.made[c] == Edge(d, name))
  }

  ghost predicate Valid(fs: Fs) {
    Forest(fs.tree) && forall h | h in fs.handles :: fs.handles[h] < |fs.tree.nodes|
  }

  // ---- Walking ----

  /** Follows `parts` from node `at`; `None` is `FsError::NotFound`. */
  function Walk(t: Tree, at: NodeId, parts: seq<Name>): (r: Option<NodeId>)
    requires Forest(t) && at < |t.nodes|
    ensures r.Some? ==> r.value < |t.nodes|
    decreases |parts|
  {
    if parts == [] then Some(at)
    else
      match t.nodes[at]
      case File(_) => None
      case Directory(m) => if parts[0] in m then Walk(t, m[parts[0]], parts[1..]) else None
  }

  predicate FreshBody(body: Node) {
    body.File? || body == EMPTY_DIR
  }

  /** Links a fresh node with the given body under `name` in directory `d`. */
  function Insert(t: Tree, d: NodeId, name: Name, body: Node): (t': Tree)
    requires Forest(t) && d < |t.nodes| && t.nodes[d].Directory? && FreshBody(body)
    ensures Forest(t') && |t'.nodes| == |t.nodes| + 1
  {
    var t' := Tree(t.nodes[d := Directory(t.nodes[d].entries[name := |t.nodes|])] + [body], t.made + [Edge(d, name)]);
    InsertKeepsForest(t, d, name, body, t');
    t'
  }

  lemma InsertKeepsForest(t: Tree, d: NodeId, name: Name, body: Node, t': Tree)
    requires Forest(t) && d < |t.nodes| && t.nodes[d].Directory? && FreshBody(body)
    requires t' == Tree(t.nodes[d := Directory(t.nodes[d].entries[name := |t.nodes|])] + [body],
                        t.made + [Edge(d, name)])
    ensures Forest(t')
  {
    forall e, other | 0 <= e < |t'.nodes| && t'.nodes[e].Directory? && other in t'.nodes[e].entries
      ensures var c := t'.nodes[e].entries[other];
              0 < c < |t'.nodes| && t'.made[c] == Edge(e, other)
    {
      if (e, other) == (d, name) {
        assert t'.nodes[e].entries[other] == |t.nodes|;
      } else {
        assert e < |t.nodes| && other in t.nodes[e].entries;
      }
    }
  }

  // ---- Operations ----

  /** `add_file` below node `at`: creates missing directories, then inserts the file. */
  function AddAt(t: Tree, at: NodeId, parts: seq<Name>, content: seq<byte>): (t': Tree)
    requires Forest(t) && at < |t.nodes| && parts != []
    ensures Forest(t') && |t.nodes| <= |t'.nodes|
    decreases |parts|
  {
    match t.nodes[at]
    case File(_) => t
    case Directory(m) =>
      if |parts| == 1 then Insert(t, at, parts[0], File(content))
      else if parts[0] in m then AddAt(t, m[parts[0]], parts[1..], content)
      else AddAt(Insert(t, at, parts[0], EMPTY_DIR), |t.nodes|, parts[1..], content)
  }

  function AddFile(fs: Fs, path: seq<byte>, content: seq<byte>): Fs
    requires Valid(fs)
  {
    var parts := Components(path);
    if parts == [] then fs else fs.(tree := AddAt(fs.tree, ROOT, parts, content))
  }

  function Open(fs: Fs, path: seq<byte>): (Fs, Result<Handle, FsError>)
    requires Valid(fs)
  {
    match Walk(fs.tree, ROOT, Components(path))
    case None => (fs, Err(NotFound))
    case Some(n) =>
      (fs.(handles := fs.handles[fs.nextHandle := n], nextHandle := Next32(fs.nextHandle)), Ok(fs.nextHandle))
  }

  function OpenAt(fs: Fs, base: Handle, path: seq<byte>): (Fs, Result<Handle, FsError>)
    requires Valid(fs)
  {
    if base !in fs.handles then (fs, Err(InvalidHandle))
    else
      match Walk(fs.tree, fs.handles[base], Components(path))
      case None => (fs, Err(NotFound))
      case Some(n) =>
        (fs.(handles := fs.handles[fs.nextHandleAt := n], nextHandleAt := Next32(fs.nextHandleAt)),
         Ok(fs.nextHandleAt))
  }

  /** The node `mkdir_at` starts from: handle 0 stands for the root. */
  function Base(fs: Fs, base: Handle): Option<NodeId> {
    if base == 0 then Some(ROOT) else if base in fs.handles then Some(fs.handles[base]) else None
  }

  function MkdirAt(fs: Fs, base: Handle, path: seq<byte>): (Fs, Result<(), FsError>)
    requires Valid(fs)
  {
    var parts := Components(path);
    if parts == [] then (fs, Err(PermissionDenied))
    else if Base(fs, base).None? then (fs, Err(InvalidHandle))
    else
      var dirname := parts[|parts| - 1];
      match Walk(fs.tree, Base(fs, base).value, parts[..|parts| - 1])
      case None => (fs, Err(NotFound))
      case Some(d) =>
        match fs.tree.nodes[d]
        case File(_) => (fs, Err(InvalidHandle))
        case Directory(m) =>
          if dirname in m then (fs, Err(PermissionDenied))
          else (fs.(tree := Insert(fs.tree, d, dirname, EMPTY_DIR)), Ok(()))
  }

  function Close(fs: Fs, h: Handle): Fs {
    fs.(handles := fs.handles - {h})
  }

  function Slice(content: seq<byte>, len: nat, offset: nat): seq<byte> {
    if offset >= |content| then [] else content[offset..Min(offset + len, |content|)]
  }

  /** The bytes `read` copies into a buffer of the given length. */
  function Read(fs: Fs, h: Handle, len: nat, offset: nat): Result<seq<byte>, FsError>
    requires Valid(fs)
  {
    if h !in fs.handles then Err(InvalidHandle)
    else
      match fs.tree.nodes[fs.handles[h]]
      case Directory(_) => Err(InvalidHandle)
      case File(content) => Ok(Slice(content, len, offset))
  }

  function Size(fs: Fs, h: Handle): Result<nat, FsError>
    requires Valid(fs)
  {
    if h !in fs.handles then Err(InvalidHandle)
    else
      match fs.tree.nodes[fs.handles[h]]
      case File(content) => Ok(|content|)
      case Directory(_) => Ok(0)
  }

  predicate IsDir(fs: Fs, h: Handle)
    requires Valid(fs)
  {
    h in fs.handles && fs.tree.nodes[fs.handles[h]].Directory?
  }

  function Empty(): (fs: Fs)
    ensures Valid(fs)
  {
    Fs(Tree([EMPTY_DIR], [Edge(ROOT, [])]), map[], FIRST_HANDLE, FIRST_HANDLE_AT)
  }

  // ---- Runs ----

  datatype Op =
    | OpAddFile(path: seq<byte>, content: seq<byte>)
    | OpOpen(path: seq<byte>)
    | OpOpenAt(base: Handle, path: seq<byte>)
    | OpMkdirAt(base: Handle, path: seq<byte>)
    | OpClose(h: Handle)

  function Apply(fs: Fs, op: Op): (fs': Fs)
    requires Valid(fs)
    ensures Valid(fs') && |fs.tree.nodes| <= |fs'.tree.nodes|
  {
    match op
    case OpAddFile(path, content) => AddFile(fs, path, content)
    case OpOpen(path) => Open(fs, path).0
    case OpOpenAt(base, path) => OpenAt(fs, base, path).0
    case OpMkdirAt(base, path) => MkdirAt(fs, base, path).0
    case OpClose(h) => Close(fs, h)
  }

  function Run(fs: Fs, ops: seq<Op>): (fs': Fs)
    requires Valid(fs)
    ensures Valid(fs') && |fs.tree.nodes| <= |fs'.tree.nodes|
    decreases |ops|
  {
    if ops == [] then fs else Run(Apply(fs, ops[0]), ops[1..])
  }
}
