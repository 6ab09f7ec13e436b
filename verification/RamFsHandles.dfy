/** The table of open handles over whole runs: which handles are issued, and what they denote. */
module RamFsHandles {
  import opened Common
  import opened Paths
  import opened RamFs
  import opened RamFsTree

  // ---- Handles are not reused while the counters stay apart ----

  /** `open` counts up from 1 and `open_at` from 10000; both are still below their limits. */
  ghost predicate Apart(fs: Fs) {
    && FIRST_HANDLE <= fs.nextHandle <= FIRST_HANDLE_AT <= fs.nextHandleAt
    && forall h | h in fs.handles :: WasIssued(fs, h)
  }

  predicate WasIssued(fs: Fs, h: Handle) {
    FIRST_HANDLE <= h < fs.nextHandle || FIRST_HANDLE_AT <= h < fs.nextHandleAt
  }

  /** The next call leaves the counters apart: the guard under which handles are not reused. */
  predicate Roomy(fs: Fs, op: Op)
    requires Valid(fs)
  {
    && (op.OpOpen? && Open(fs, op.path).1.Ok? ==> fs.nextHandle < FIRST_HANDLE_AT)
    && (op.OpOpenAt? && OpenAt(fs, op.base, op.path).1.Ok? ==> fs.nextHandleAt < 0xFFFF_FFFF)
  }

  predicate RoomyRun(fs: Fs, ops: seq<Op>)
    requires Valid(fs)
    decreases |ops|
  {
    ops != [] ==> Roomy(fs, ops[0]) && RoomyRun(Apply(fs, ops[0]), ops[1..])
  }

  lemma ApplyKeepsHandle(fs: Fs, op: Op, h: Handle)
    requires Valid(fs) && Apart(fs) && Roomy(fs, op) && WasIssued(fs, h)
    ensures var fs' := Apply(fs, op);
            && Apart(fs') && WasIssued(fs', h)
            && (h in fs'.handles ==> h in fs.handles && fs'.handles[h] == fs.handles[h])
            && (h in fs.handles && op != OpClose(h) ==> h in fs'.handles)
  {
    if op.OpMkdirAt? {
      MkdirAtSucceeds(fs, op.base, op.path);
    }
  }

  /**
   Once issued, a handle denotes the same node for as long as it is open, it stays open until it is
   closed, and a closed handle never comes back.
   */
  lemma {:induction false} RunKeepsHandle(fs: Fs, ops: seq<Op>, h: Handle)
    requires Valid(fs) && Apart(fs) && RoomyRun(fs, ops) && WasIssued(fs, h)
    ensures var fs' := Run(fs, ops);
            && Apart(fs') && WasIssued(fs', h)
            && (h in fs'.handles ==> h in fs.handles && fs'.handles[h] == fs.handles[h])
            && (h in fs.handles && OpClose(h) !in ops ==> h in fs'.handles)
    decreases |ops|
  {
    if ops != [] {
      ApplyKeepsHandle(fs, ops[0], h);
      RunKeepsHandle(Apply(fs, ops[0]), ops[1..], h);
      assert OpClose(h) !in ops ==> ops[0] != OpClose(h) && OpClose(h) !in ops[1..];
    }
  }

  // ---- Exactly when issued handles are distinct ----

  function Issued(fs: Fs, op: Op): seq<Handle>
    requires Valid(fs)
  {
    match op
    case OpOpen(path) => if Open(fs, path).1.Ok? then [fs.nextHandle] else []
    case OpOpenAt(base, path) => if OpenAt(fs, base, path).1.Ok? then [fs.nextHandleAt] else []
    case _ => []
  }

  /** All handles a run hands out, in order. */
  function IssuedBy(fs: Fs, ops: seq<Op>): seq<Handle>
    requires Valid(fs)
    decreases |ops|
  {
    if ops == [] then [] else Issued(fs, ops[0]) + IssuedBy(Apply(fs, ops[0]), ops[1..])
  }

  /** The number of 32-bit handles. */
  const ROUND: nat := 0x1_0000_0000

  ghost function Times(s: seq<Handle>, h: Handle): nat {
    multiset(s)[h]
  }

  function Opens(fs: Fs, ops: seq<Op>): nat
    requires Valid(fs)
    decreases |ops|
  {
    if ops == [] then 0
    else (if ops[0].OpOpen? then |Issued(fs, ops[0])| else 0) + Opens(Apply(fs, ops[0]), ops[1..])
  }

  function OpenAts(fs: Fs, ops: seq<Op>): nat
    requires Valid(fs)
    decreases |ops|
  {
    if ops == [] then 0
    else (if ops[0].OpOpenAt? then |Issued(fs, ops[0])| else 0) + OpenAts(Apply(fs, ops[0]), ops[1..])
  }

  /** How often a 32-bit counter that starts at `from` and takes `n` values passes `h`. */
  function Hits(from: u32, n: nat, h: Handle): nat
    decreases n
  {
    if n == 0 then 0 else (if from == h then 1 else 0) + Hits(Next32(from), n - 1, h)
  }

  /** In its first round a counter passes `h` at most once: before it wraps or after. */
  lemma {:induction false} HitsInRound(from: u32, n: nat, h: Handle)
    requires n <= ROUND
    ensures Hits(from, n, h) == if from <= h < from + n || h + ROUND < from + n then 1 else 0
    decreases n
  {
    if n > 0 {
      HitsInRound(Next32(from), n - 1, h);
    }
  }

  lemma {:induction false} HitsGrow(from: u32, m: nat, n: nat, h: Handle)
    requires m <= n
    ensures Hits(from, m, h) <= Hits(from, n, h)
    decreases m
  {
    if m > 0 {
      HitsGrow(Next32(from), m - 1, n - 1, h);
    }
  }

  lemma {:induction false} HitsBeyondRound(from: u32, n: nat)
    requires n > ROUND
    ensures Hits(from, n, from) >= 2
  {
    HitsGrow(Next32(from), ROUND, n - 1, from);
    HitsInRound(Next32(from), ROUND, from);
  }

  lemma HitsMove(from: u32, moved: bool, n: nat, h: Handle)
    ensures Hits(from, (if moved then 1 else 0) + n, h) ==
            (if moved && from == h then 1 else 0) + Hits(if moved then Next32(from) else from, n, h)
  {
  }

  ghost predicate Counted(issued: seq<Handle>, from: u32, opens: nat, fromAt: u32, openAts: nat, h: Handle) {
    Times(issued, h) == Hits(from, opens, h) + Hits(fromAt, openAts, h)
  }

  /** How often `h` was handed out: as often as the two counters passed it. */
  lemma {:induction false} IssuedCount(fs: Fs, ops: seq<Op>, issued: seq<Handle>, opens: nat, openAts: nat, h: Handle)
    requires Valid(fs) && issued == IssuedBy(fs, ops) && opens == Opens(fs, ops) && openAts == OpenAts(fs, ops)
    ensures Counted(issued, fs.nextHandle, opens, fs.nextHandleAt, openAts, h)
    decreases |ops|
  {
    if ops == [] {
      assert Times([], h) == 0;
    } else {
      var fs1 := Apply(fs, ops[0]);
      var later, opens1, openAts1 := IssuedBy(fs1, ops[1..]), Opens(fs1, ops[1..]), OpenAts(fs1, ops[1..]);
      IssuedCount(fs1, ops[1..], later, opens1, openAts1, h);
      CountedMove(fs, ops[0], issued, opens, openAts, later, opens1, openAts1, h);
    }
  }

  lemma {:induction false} CountedShift(now: seq<Handle>, later: seq<Handle>, from: u32, moved: bool, opens: nat,
                                        fromAt: u32, movedAt: bool, openAts: nat, h: Handle)
    requires Counted(later, if moved then Next32(from) else from, opens,
                     if movedAt then Next32(fromAt) else fromAt, openAts, h)
    requires Times(now, h) == (if moved && from == h then 1 else 0) + (if movedAt && fromAt == h then 1 else 0)
    ensures Counted(now + later, from, (if moved then 1 else 0) + opens, fromAt, (if movedAt then 1 else 0) + openAts, h)
  {
    HitsMove(from, moved, opens, h);
    HitsMove(fromAt, movedAt, openAts, h);
    assert Times(now + later, h) == Times(now, h) + Times(later, h);
  }

  lemma {:induction false} CountedMove(fs: Fs, op: Op, issued: seq<Handle>, opens: nat, openAts: nat,
                                       later: seq<Handle>, opens1: nat, openAts1: nat, h: Handle)
    requires Valid(fs)
    requires issued == Issued(fs, op) + later
    requires opens == (if op.OpOpen? then |Issued(fs, op)| else 0) + opens1
    requires openAts == (if op.OpOpenAt? then |Issued(fs, op)| else 0) + openAts1
    requires Counted(later, Apply(fs, op).nextHandle, opens1, Apply(fs, op).nextHandleAt, openAts1, h)
    ensures Counted(issued, fs.nextHandle, opens, fs.nextHandleAt, openAts, h)
  {
    var now := Issued(fs, op);
    CountersMove(fs, op, h);
    CountedShift(now, later, fs.nextHandle, op.OpOpen? && now != [], opens1,
                 fs.nextHandleAt, op.OpOpenAt? && now != [], openAts1, h);
  }

  lemma CountersMove(fs: Fs, op: Op, h: Handle)
    requires Valid(fs)
    ensures var fs1, now := Apply(fs, op), Issued(fs, op);
            && |now| <= 1
            && fs1.nextHandle == (if op.OpOpen? && now != [] then Next32(fs.nextHandle) else fs.nextHandle)
            && fs1.nextHandleAt == (if op.OpOpenAt? && now != [] then Next32(fs.nextHandleAt) else fs.nextHandleAt)
            && Times(now, h) ==
               (if op.OpOpen? && now != [] && fs.nextHandle == h then 1 else 0)
               + (if op.OpOpenAt? && now != [] && fs.nextHandleAt == h then 1 else 0)
  {
    if op.OpMkdirAt? {
      MkdirAtSucceeds(fs, op.base, op.path);
    }
  }

  /**
   The premise of `RunKeepsHandle` in numbers: the counters stay apart exactly as long as `open` has
   not reached 10000 and `open_at` has not wrapped.
   */
  lemma {:induction false} RoomyByCount(fs: Fs, ops: seq<Op>)
    requires Valid(fs) && fs.nextHandle <= FIRST_HANDLE_AT
    ensures RoomyRun(fs, ops) <==>
            fs.nextHandle + Opens(fs, ops) <= FIRST_HANDLE_AT && fs.nextHandleAt + OpenAts(fs, ops) <= 0xFFFF_FFFF
    decreases |ops|
  {
    if ops != [] {
      CountersMove(fs, ops[0], 0);
      if Roomy(fs, ops[0]) {
        RoomyByCount(Apply(fs, ops[0]), ops[1..]);
      }
    }
  }

  /** What keeps the handles of a run apart, in numbers of successful `open` and `open_at` calls. */
  predicate FewEnough(opens: nat, openAts: nat) {
    && opens <= ROUND && openAts <= ROUND
    && (opens == 0 || openAts == 0 || (opens < 10000 && openAts <= ROUND - 9999))
  }

  /** A handle is handed out twice when there are too many calls: 1 or 10000 is. */
  lemma {:induction false} HandedOutTwice(ops: seq<Op>)
    requires !FewEnough(Opens(Empty(), ops), OpenAts(Empty(), ops))
    ensures exists h: Handle :: Times(IssuedBy(Empty(), ops), h) > 1
  {
    var opens, openAts := Opens(Empty(), ops), OpenAts(Empty(), ops);
    var h: Handle := if opens > ROUND || (openAts <= ROUND && opens < FIRST_HANDLE_AT) then FIRST_HANDLE
                     else FIRST_HANDLE_AT;
    IssuedCount(Empty(), ops, IssuedBy(Empty(), ops), opens, openAts, h);
    if opens > ROUND {
      HitsBeyondRound(FIRST_HANDLE, opens);
    } else if openAts > ROUND {
      HitsBeyondRound(FIRST_HANDLE_AT, openAts);
    } else {
      HitsInRound(FIRST_HANDLE, opens, h);
      HitsInRound(FIRST_HANDLE_AT, openAts, h);
    }
    assert Times(IssuedBy(Empty(), ops), h) > 1;
  }

  /**
   Handles handed out by a run of a new file system are pairwise distinct if and only if `open` stays
   below 10000 and `open_at` does not wrap round to 1, or only one of them is used and not for more
   than 2^32 handles.
   */
  lemma {:induction false} HandlesDistinctIff(ops: seq<Op>)
    ensures (forall h: Handle :: Times(IssuedBy(Empty(), ops), h) <= 1) <==>
            FewEnough(Opens(Empty(), ops), OpenAts(Empty(), ops))
  {
    var opens, openAts := Opens(Empty(), ops), OpenAts(Empty(), ops);
    if FewEnough(opens, openAts) {
      forall h: Handle
        ensures Times(IssuedBy(Empty(), ops), h) <= 1
      {
        IssuedCount(Empty(), ops, IssuedBy(Empty(), ops), opens, openAts, h);
        HitsInRound(FIRST_HANDLE, opens, h);
        HitsInRound(FIRST_HANDLE_AT, openAts, h);
      }
    } else {
      HandedOutTwice(ops);
    }
  }

  /** `n` opens of the root, one after the other. */
  function RootOpens(n: nat): seq<Op> {
    if n == 0 then [] else [OpOpen([])] + RootOpens(n - 1)
  }

  lemma {:induction false} RootOpensRun(fs: Fs, n: nat)
    requires Valid(fs) && fs.nextHandle + n <= FIRST_HANDLE_AT
    ensures var fs' := Run(fs, RootOpens(n));
            && fs'.nextHandle == fs.nextHandle + n
            && fs'.tree == fs.tree
            && (FIRST_HANDLE_AT in fs.handles ==>
                  FIRST_HANDLE_AT in fs'.handles && fs'.handles[FIRST_HANDLE_AT] == fs.handles[FIRST_HANDLE_AT])
    decreases n
  {
    if n > 0 {
      var fs1 := Apply(fs, OpOpen([]));
      assert RootOpens(n)[1..] == RootOpens(n - 1);
      assert Walk(fs.tree, ROOT, Components([])) == Some(ROOT);
      RootOpensRun(fs1, n - 1);
    }
  }

  /**
   The collision is real: with the `open` counter at 10000, opening a file rebinds handle 10000,
   whatever `open_at` had opened under it.
   */
  lemma HandleReuse(fs: Fs, name: Name, n: NodeId)
    requires Valid(fs) && Legal(name) && Walk(fs.tree, ROOT, [name]) == Some(n)
    requires fs.nextHandle == FIRST_HANDLE_AT && FIRST_HANDLE_AT in fs.handles && fs.handles[FIRST_HANDLE_AT] != n
    ensures var (fs', r) := Open(fs, name);
            r == Ok(FIRST_HANDLE_AT) && fs'.handles[FIRST_HANDLE_AT] == n != fs.handles[FIRST_HANDLE_AT]
  {
    ComponentsRoundTrip([name]);
  }

  /** Adds a file, opens the root, and opens the root once more relative to that handle. */
  function Setup(name: Name, content: seq<byte>): seq<Op> {
    [OpAddFile(name, content), OpOpen([]), OpOpenAt(1, [])]
  }

  lemma AfterSetup(name: Name, content: seq<byte>)
    requires Legal(name)
    ensures Run(Empty(), Setup(name, content)) ==
            Fs(Tree([Directory(map[name := 1]), File(content)], [Edge(ROOT, []), Edge(ROOT, name)]),
               map[1 := ROOT, FIRST_HANDLE_AT := ROOT], 2, FIRST_HANDLE_AT + 1)
  {
    ComponentsRoundTrip([name]);
    var ops := Setup(name, content);
    var fs1 := Apply(Empty(), ops[0]);
    assert fs1.tree == Tree([Directory(map[name := 1]), File(content)], [Edge(ROOT, []), Edge(ROOT, name)]);
    var fs2 := Apply(fs1, ops[1]);
    assert fs2 == fs1.(handles := map[1 := ROOT], nextHandle := 2);
    var fs3 := Apply(fs2, ops[2]);
    assert fs3 == fs2.(handles := map[1 := ROOT, FIRST_HANDLE_AT := ROOT], nextHandleAt := FIRST_HANDLE_AT + 1);
    assert ops[1..][0] == ops[1] && ops[1..][1..] == [ops[2]];
    assert Run(fs2, [ops[2]]) == Run(fs3, []);
    assert Run(fs1, ops[1..]) == fs3;
  }

  /**
   The collision happens from the empty file system: after `Setup` and 9998 more opens handle 10000
   is open on the root directory, and the next open makes it denote the file instead.
   */
  lemma {:induction false} HandleReuseReachable(name: Name, content: seq<byte>, more: nat)
    requires Legal(name) && more == FIRST_HANDLE_AT - 2
    ensures var before := Run(Run(Empty(), Setup(name, content)), RootOpens(more));
            var (after, r) := Open(before, name);
            && r == Ok(FIRST_HANDLE_AT)
            && FIRST_HANDLE_AT in before.handles && before.handles[FIRST_HANDLE_AT] == ROOT
            && after.handles[FIRST_HANDLE_AT] == 1 && after.tree.nodes[1] == File(content)
  {
    AfterSetup(name, content);
    var fs := Run(Empty(), Setup(name, content));
    RootOpensRun(fs, more);
    var before := Run(fs, RootOpens(more));
    assert before.tree.nodes[ROOT].entries == map[name := 1];
    assert [name][1..] == [];
    assert Walk(before.tree, ROOT, [name]) == Some(1);
    HandleReuse(before, name, 1);
  }

  // ---- Reads ----

  /** A read gives the same bytes before and after any run, as long as the handle stays open. */
  lemma {:induction false} ReadStable(fs: Fs, ops: seq<Op>, h: Handle, len: nat, offset: nat)
    requires Valid(fs) && Apart(fs) && RoomyRun(fs, ops) && h in fs.handles && OpClose(h) !in ops
    ensures Read(Run(fs, ops), h, len, offset) == Read(fs, h, len, offset)
  {
    RunKeepsHandle(fs, ops, h);
    RunExtends(fs, ops);
  }

  /** One step of a reader: the kernel runs `before`, then the reader asks for `len` bytes. */
  datatype ReadStep = ReadStep(before: seq<Op>, len: nat)

  /** What a reader has collected, and whether it has seen an empty read (end of file) or an error. */
  datatype Reader = Reader(got: seq<byte>, eof: bool, failed: bool)

  function Take(r: Reader, chunk: Result<seq<byte>, FsError>): Reader {
    match chunk
    case Err(_) => r.(failed := true)
    case Ok(bytes) => r.(got := r.got + bytes, eof := bytes == [])
  }

  /** The reader asks for the next chunk after what it has, until the end of the file. */
  function ReadOn(fs: Fs, h: Handle, steps: seq<ReadStep>, r: Reader): Reader
    requires Valid(fs)
    decreases |steps|
  {
    if steps == [] || r.eof || r.failed then r
    else
      var fs1 := Run(fs, steps[0].before);
      ReadOn(fs1, h, steps[1..], Take(r, Read(fs1, h, steps[0].len, |r.got|)))
  }

  ghost predicate QuietSteps(fs: Fs, h: Handle, steps: seq<ReadStep>)
    requires Valid(fs)
    decreases |steps|
  {
    steps != [] ==>
      && steps[0].len > 0
      && OpClose(h) !in steps[0].before
      && RoomyRun(fs, steps[0].before)
      && QuietSteps(Run(fs, steps[0].before), h, steps[1..])
  }

  lemma TakeSlice(content: seq<byte>, r: Reader, len: nat)
    requires r.got <= content && !r.eof && len > 0
    ensures var r' := Take(r, Ok(Slice(content, len, |r.got|)));
            && r'.got <= content && r'.failed == r.failed
            && (r'.eof ==> r'.got == content)
            && (!r'.eof ==> |r'.got| > |r.got|)
  {
  }

  lemma {:induction false} ReadOnCollects(fs: Fs, h: Handle, content: seq<byte>, steps: seq<ReadStep>, r: Reader)
    requires Valid(fs) && Apart(fs) && QuietSteps(fs, h, steps)
    requires h in fs.handles && fs.tree.nodes[fs.handles[h]] == File(content)
    requires r.got <= content && !r.failed && (r.eof ==> r.got == content)
    ensures var r' := ReadOn(fs, h, steps, r);
            && r'.got <= content && !r'.failed
            && (r'.eof ==> r'.got == content)
            && (|steps| > |content| - |r.got| ==> r'.eof)
    decreases |steps|
  {
    if steps != [] && !r.eof {
      var fs1 := Run(fs, steps[0].before);
      assert Apart(fs1) && h in fs1.handles && fs1.tree.nodes[fs1.handles[h]] == File(content) by {
        RunKeepsHandle(fs, steps[0].before, h);
        RunExtends(fs, steps[0].before);
      }
      TakeSlice(content, r, steps[0].len);
      ReadOnCollects(fs1, h, content, steps[1..], Take(r, Ok(Slice(content, steps[0].len, |r.got|))));
    }
  }

  /**
   Reading in chunks of any positive sizes, with anything but a close of the handle going on between
   the reads, collects exactly the bytes the file held when it was opened, and gets to the end.
   */
  lemma {:induction false} ChunksReassemble(fs: Fs, h: Handle, steps: seq<ReadStep>)
    requires Valid(fs) && Apart(fs) && QuietSteps(fs, h, steps)
    requires h in fs.handles && fs.tree.nodes[fs.handles[h]].File?
    ensures var content := fs.tree.nodes[fs.handles[h]].content;
            var r := ReadOn(fs, h, steps, Reader([], false, false));
            && !r.failed && r.got <= content
            && (r.eof ==> r.got == content)
            && (|steps| > |content| ==> r.eof)
  {
    ReadOnCollects(fs, h, fs.tree.nodes[fs.handles[h]].content, steps, Reader([], false, false));
  }
}
