/** The boot frame allocator and the page-mapping loop of the heap. */
module Frames {
  import opened Common

  const PAGE_SIZE: nat := 4096

  datatype RegionType = Usable | Reserved

  datatype Region = Region(start: nat, end: nat, kind: RegionType)

  /** `PhysFrame::containing_address`. */
  function Containing(addr: nat): nat {
    addr - addr % PAGE_SIZE
  }

  /** `(start..end).step_by(4096)`, each address rounded down to the frame that contains it. */
  function FramesOf(start: nat, end: nat): (frames: seq<nat>)
    decreases if start < end then end - start else 0
  {
    if start >= end then [] else [Containing(start)] + FramesOf(start + PAGE_SIZE, end)
  }

  /** `usable_frames`: filter the usable regions and flatten their frames. */
  function UsableFrames(regions: seq<Region>): seq<nat> {
    if regions == [] then []
    else
      (if regions[0].kind.Usable? then FramesOf(regions[0].start, regions[0].end) else []) + UsableFrames(regions[1..])
  }

  /** What the bootloader promises: aligned regions that do not overlap. */
  ghost predicate GoodMap(regions: seq<Region>) {
    && (forall r | r in regions :: r.start % PAGE_SIZE == 0 && r.end % PAGE_SIZE == 0 && r.start <= r.end)
    && (forall i, j | 0 <= i < j < |regions| :: Apart(regions[i], regions[j]))
  }

  predicate Apart(a: Region, b: Region) {
    a.end <= b.start || b.end <= a.start || a.start == a.end || b.start == b.end
  }

  /** The frame at this address lies, with all its bytes, in the region. */
  predicate Inside(frame: nat, r: Region) {
    frame % PAGE_SIZE == 0 && r.start <= frame && frame + PAGE_SIZE <= r.end
  }

  predicate IsUsable(frame: nat, regions: seq<Region>) {
    exists r | r in regions :: r.kind.Usable? && Inside(frame, r)
  }

  lemma FirstFrame(start: nat, end: nat, frame: nat)
    requires start % PAGE_SIZE == 0 && start < end
    ensures multiset(FramesOf(start, end))[frame] ==
            multiset(FramesOf(start + PAGE_SIZE, end))[frame] + if frame == start then 1 else 0
  {
    assert FramesOf(start, end) == [start] + FramesOf(start + PAGE_SIZE, end);
  }

  /** An aligned region lists each of its pages once. */
  lemma {:induction false} FramesOfPages(a: nat, b: nat, page: nat)
    ensures multiset(FramesOf(PAGE_SIZE * a, PAGE_SIZE * b))[PAGE_SIZE * page] == if a <= page < b then 1 else 0
    decreases b - a
  {
    if a < b {
      FirstFrame(PAGE_SIZE * a, PAGE_SIZE * b, PAGE_SIZE * page);
      FramesOfPages(a + 1, b, page);
      assert PAGE_SIZE * a + PAGE_SIZE == PAGE_SIZE * (a + 1);
    }
  }

  /** The frames of an aligned region, in the order of their addresses. */
  lemma {:induction false} FramesInOrder(start: nat, end: nat, i: nat)
    requires start % 4096 == 0 && start <= end
    ensures |FramesOf(start, end)| == (end - start + 4095) / 4096
    ensures i < |FramesOf(start, end)| ==> FramesOf(start, end)[i] == start + 4096 * i
    decreases end - start
  {
    if start < end {
      if start + 4096 <= end {
        FramesInOrder(start + 4096, end, if i > 0 then i - 1 else 0);
      }
      assert FramesOf(start, end) == [start] + FramesOf(start + 4096, end);
    }
  }

  /** Regions are used up one after the other. */
  lemma {:induction false} RegionsInOrder(a: seq<Region>, b: seq<Region>)
    ensures UsableFrames(a + b) == UsableFrames(a) + UsableFrames(b)
    decreases |a|
  {
    if a == [] {
      assert a + b == b;
    } else {
      assert (a + b)[1..] == a[1..] + b;
      RegionsInOrder(a[1..], b);
    }
  }

  lemma {:induction false} FramesAligned(start: nat, end: nat, frame: nat)
    requires frame in FramesOf(start, end)
    ensures frame % PAGE_SIZE == 0
    decreases if start < end then end - start else 0
  {
    if frame != Containing(start) {
      FramesAligned(start + PAGE_SIZE, end, frame);
    }
  }

  lemma PagesInside(a: nat, b: nat, page: nat)
    ensures PAGE_SIZE * a <= PAGE_SIZE * page && PAGE_SIZE * page + PAGE_SIZE <= PAGE_SIZE * b <==> a <= page < b
  {
  }

  lemma FramesOfRegion(r: Region, frame: nat)
    requires r.start % PAGE_SIZE == 0 && r.end % PAGE_SIZE == 0
    ensures multiset(FramesOf(r.start, r.end))[frame] == if Inside(frame, r) then 1 else 0
  {
    if frame % PAGE_SIZE == 0 {
      var a, b, page := r.start / PAGE_SIZE, r.end / PAGE_SIZE, frame / PAGE_SIZE;
      assert r.start == PAGE_SIZE * a && r.end == PAGE_SIZE * b && frame == PAGE_SIZE * page;
      FramesOfPages(a, b, page);
      PagesInside(a, b, page);
    } else if frame in FramesOf(r.start, r.end) {
      FramesAligned(r.start, r.end, frame);
    }
  }

  lemma TailIsGood(regions: seq<Region>)
    requires GoodMap(regions) && regions != []
    ensures GoodMap(regions[1..])
  {
    forall i, j | 0 <= i < j < |regions[1..]|
      ensures Apart(regions[1..][i], regions[1..][j])
    {
      assert Apart(regions[i + 1], regions[j + 1]);
    }
  }

  lemma OneRegion(regions: seq<Region>, frame: nat)
    requires GoodMap(regions) && regions != [] && Inside(frame, regions[0])
    ensures !IsUsable(frame, regions[1..])
  {
    forall r | r in regions[1..]
      ensures !Inside(frame, r)
    {
      var j :| 0 <= j < |regions[1..]| && regions[1..][j] == r;
      assert Apart(regions[0], regions[j + 1]);
    }
  }

  /** The flattened list has exactly the usable frames, each once. */
  lemma {:induction false} UsableFramesExact(regions: seq<Region>, frame: nat)
    requires GoodMap(regions)
    ensures multiset(UsableFrames(regions))[frame] == if IsUsable(frame, regions) then 1 else 0
    decreases |regions|
  {
    if regions != [] {
      var r, rest := regions[0], regions[1..];
      assert r in regions && regions == [r] + rest;
      TailIsGood(regions);
      UsableFramesExact(rest, frame);
      FramesOfRegion(r, frame);
      if Inside(frame, r) {
        OneRegion(regions, frame);
      }
      var first := if r.kind.Usable? then FramesOf(r.start, r.end) else [];
      assert UsableFrames(regions) == first + UsableFrames(rest);
      assert multiset(first + UsableFrames(rest))[frame] == multiset(first)[frame] + multiset(UsableFrames(rest))[frame];
      assert IsUsable(frame, regions) <==> (r.kind.Usable? && Inside(frame, r)) || IsUsable(frame, rest);
    }
  }

  lemma CountAtLeastTwo(s: seq<nat>, i: nat, j: nat)
    requires i < j < |s| && s[i] == s[j]
    ensures multiset(s)[s[i]] >= 2
  {
    assert s == s[..i] + [s[i]] + s[i + 1..];
    assert s[j] == s[i + 1..][j - i - 1];
    assert multiset(s)[s[i]] == multiset(s[..i])[s[i]] + 1 + multiset(s[i + 1..])[s[i]];
  }

  /** Different calls return different frames, and all of them lie in usable memory. */
  lemma {:induction false} AllocationsDiffer(regions: seq<Region>, i: nat, j: nat)
    requires GoodMap(regions) && i < j < |UsableFrames(regions)|
    ensures UsableFrames(regions)[i] != UsableFrames(regions)[j]
    ensures IsUsable(UsableFrames(regions)[i], regions) && IsUsable(UsableFrames(regions)[j], regions)
  {
    var frames := UsableFrames(regions);
    UsableFramesExact(regions, frames[i]);
    UsableFramesExact(regions, frames[j]);
    if frames[i] == frames[j] {
      CountAtLeastTwo(frames, i, j);
      assert false;
    }
  }

  /** `usable_frames().nth(n)`. */
  function Nth(regions: seq<Region>, n: nat): Option<nat> {
    At(UsableFrames(regions), n)
  }

  function At(frames: seq<nat>, n: nat): Option<nat> {
    if n < |frames| then Some(frames[n]) else None
  }

  class BootInfoFrameAllocator {
    const memoryMap: seq<Region>
    var next: nat

    constructor (memoryMap: seq<Region>)
      ensures this.memoryMap == memoryMap && next == 0
    {
      this.memoryMap := memoryMap;
      next := 0;
    }

    /** The n-th call returns the n-th usable frame; once they are used up every call fails. */
    method AllocateFrame() returns (frame: Option<nat>)
      modifies this
      ensures next == old(next) + 1 && frame == Nth(memoryMap, old(next))
    {
      frame := FindNth();
      next := next + 1;
    }

    /** Walks the regions, skipping frames until `next` of them are behind. */
    method FindNth() returns (frame: Option<nat>)
      ensures frame == Nth(memoryMap, next)
    {
      var i, skip := 0, next;
      while i < |memoryMap|
        invariant 0 <= i <= |memoryMap|
        invariant Nth(memoryMap, next) == Nth(memoryMap[i..], skip)
      {
        ghost var left := memoryMap[i..];
        assert left[0] == memoryMap[i] && left[1..] == memoryMap[i + 1..];
        if memoryMap[i].kind.Usable? {
          frame, skip := SkipIn(memoryMap[i], skip, UsableFrames(left[1..]));
          if frame.Some? {
            return;
          }
        }
        i := i + 1;
      }
      return None;
    }

    /** Steps through one region: finds the frame there, or counts down by the frames it passes. */
    method SkipIn(r: Region, skip: nat, ghost rest: seq<nat>) returns (frame: Option<nat>, left: nat)
      ensures if frame.Some? then At(FramesOf(r.start, r.end) + rest, skip) == frame
              else At(FramesOf(r.start, r.end) + rest, skip) == At(rest, left)
    {
      var addr := r.start;
      left := skip;
      while addr < r.end
        invariant At(FramesOf(addr, r.end) + rest, left) == At(FramesOf(r.start, r.end) + rest, skip)
        decreases r.end - addr
      {
        var here := addr;
        assert FramesOf(here, r.end) + rest == [Containing(here)] + (FramesOf(here + PAGE_SIZE, r.end) + rest);
        if left == 0 {
          return Some(Containing(addr)), 0;
        }
        addr, left := addr + PAGE_SIZE, left - 1;
      }
      assert FramesOf(addr, r.end) + rest == rest;
      return None, left;
    }
  }

  // ---- Mapping the heap ----

  const HEAP_START: nat := 0x4444_4444_0000
  const HEAP_SIZE: nat := 1024 * 1024
  const HEAP_PAGES: nat := 256

  /** What `map_to` may answer for one page: how many table frames it drew, and whether it succeeded. */
  datatype MapAnswer = MapAnswer(tables: nat, ok: bool)

  datatype MapToError = FrameAllocationFailed | OtherError

  /** The frames `map_to` draws for page tables while it maps the page whose frame was drawn by call `at`. */
  method DrawTables(allocator: BootInfoFrameAllocator, count: nat, tables: seq<nat>, ghost tablesAt: seq<nat>,
                    ghost at: nat)
    returns (ok: bool, tables': seq<nat>, ghost tablesAt': seq<nat>)
    requires Drawn(UsableFrames(allocator.memoryMap), tables, tablesAt, at) && allocator.next == at + 1
    modifies allocator
    ensures allocator.next > at
    ensures Drawn(UsableFrames(allocator.memoryMap), tables', tablesAt', allocator.next)
    ensures forall i | 0 <= i < |tablesAt'| :: tablesAt'[i] > at || (i < |tablesAt| && tablesAt'[i] == tablesAt[i])
    ensures ok ==> |tables'| == |tables| + count && allocator.next == old(allocator.next) + count
    ensures !ok ==> allocator.next > |UsableFrames(allocator.memoryMap)|
  {
    tables', tablesAt' := tables, tablesAt;
    for drawn := 0 to count
      invariant allocator.next == old(allocator.next) + drawn && |tables'| == |tables| + drawn
      invariant Drawn(UsableFrames(allocator.memoryMap), tables', tablesAt', allocator.next)
      invariant forall i | 0 <= i < |tablesAt'| :: tablesAt'[i] > at || (i < |tablesAt| && tablesAt'[i] == tablesAt[i])
    {
      var table := allocator.AllocateFrame();
      if table.None? {
        return false, tables', tablesAt';
      }
      tables', tablesAt' := tables' + [table.value], tablesAt' + [allocator.next - 1];
    }
    ok := true;
  }

  /** One page of the loop of `init_heap`: a frame for the page, and then what `map_to` draws. */
  method MapPage(allocator: BootInfoFrameAllocator, answer: MapAnswer, mapped: seq<nat>, ghost mappedAt: seq<nat>,
                 tables: seq<nat>, ghost tablesAt: seq<nat>)
    returns (error: Option<MapToError>, mapped': seq<nat>, tables': seq<nat>,
             ghost mappedAt': seq<nat>, ghost tablesAt': seq<nat>)
    requires DrawnApart(allocator.memoryMap, mapped, mappedAt, tables, tablesAt, allocator.next)
    modifies allocator
    ensures DrawnApart(allocator.memoryMap, mapped', mappedAt', tables', tablesAt', allocator.next)
    ensures error.None? ==>
              answer.ok && |mapped'| == |mapped| + 1 && allocator.next == old(allocator.next) + 1 + |tables'| - |tables|
    ensures error.Some? ==> mapped' == mapped
    ensures error == Some(OtherError) ==> !answer.ok
    ensures error == Some(FrameAllocationFailed) ==> allocator.next > |UsableFrames(allocator.memoryMap)|
  {
    mapped', tables', mappedAt', tablesAt' := mapped, tables, mappedAt, tablesAt;
    var frame := allocator.AllocateFrame();
    if frame.None? {
      return Some(FrameAllocationFailed), mapped', tables', mappedAt', tablesAt';
    }
    ghost var at := allocator.next - 1;
    var ok: bool;
    ok, tables', tablesAt' := DrawTables(allocator, answer.tables, tables, tablesAt, at);
    if !ok {
      return Some(FrameAllocationFailed), mapped', tables', mappedAt', tablesAt';
    }
    if !answer.ok {
      return Some(OtherError), mapped', tables', mappedAt', tablesAt';
    }
    mapped', mappedAt' := mapped + [frame.value], mappedAt + [at];
    return None, mapped', tables', mappedAt', tablesAt';
  }

  /**
   The loop of `init_heap`. `map_to` is foreign code: `answers` says, page by page, how many frames it
   draws from the same allocator for page tables and whether it succeeds. `mapped` lists the frames of
   the heap pages mapped so far, `tables` those drawn for page tables.
   */
  method MapHeap(allocator: BootInfoFrameAllocator, answers: seq<MapAnswer>)
    returns (result: Result<(), MapToError>, mapped: seq<nat>, tables: seq<nat>)
    requires |answers| == HEAP_PAGES
    modifies allocator
    ensures |mapped| <= HEAP_PAGES && (result.Ok? ==> |mapped| == HEAP_PAGES)
    ensures forall i | 0 <= i < |mapped| :: answers[i].ok
    ensures result == Err(OtherError) ==> |mapped| < HEAP_PAGES && !answers[|mapped|].ok
    ensures result == Err(FrameAllocationFailed) ==> allocator.next > |UsableFrames(allocator.memoryMap)|
    ensures result.Ok? ==> allocator.next == old(allocator.next) + |mapped| + |tables|
    ensures Separate(allocator.memoryMap, mapped, tables)
  {
    mapped, tables := [], [];
    ghost var mappedAt: seq<nat>, tablesAt: seq<nat> := [], [];
    result := Ok(());
    var page := 0;
    while page < HEAP_PAGES
      invariant 0 <= page == |mapped| <= HEAP_PAGES && allocator.next == old(allocator.next) + |mapped| + |tables|
      invariant DrawnApart(allocator.memoryMap, mapped, mappedAt, tables, tablesAt, allocator.next)
      invariant result.Ok? && forall i | 0 <= i < page :: answers[i].ok
    {
      var error: Option<MapToError>;
      error, mapped, tables, mappedAt, tablesAt := MapPage(allocator, answers[page], mapped, mappedAt, tables, tablesAt);
      if error.Some? {
        result := Err(error.value);
        break;
      }
      page := page + 1;
    }
    DrawnDiffer(allocator.memoryMap, mapped, mappedAt, tables, tablesAt, allocator.next);
  }

  /** All frames are usable; on a good map no page has the frame of another one or of a page table. */
  ghost predicate Separate(regions: seq<Region>, mapped: seq<nat>, tables: seq<nat>) {
    && (forall f | f in mapped || f in tables :: f in UsableFrames(regions))
    && (GoodMap(regions) ==>
          (forall i, j | 0 <= i < j < |mapped| :: mapped[i] != mapped[j])
          && (forall f | f in mapped :: f !in tables))
  }

  /** `frames` were drawn by the calls numbered in `at`, in increasing order, all before call `next`. */
  ghost predicate Drawn(usable: seq<nat>, frames: seq<nat>, at: seq<nat>, next: nat) {
    && |frames| == |at|
    && (forall i | 0 <= i < |at| :: at[i] < next && at[i] < |usable| && frames[i] == usable[at[i]])
    && (forall i, j | 0 <= i < j < |at| :: at[i] < at[j])
  }

  /** The frames of pages and those of page tables were drawn by different calls. */
  ghost predicate DrawnApart(regions: seq<Region>, mapped: seq<nat>, mappedAt: seq<nat>,
                             tables: seq<nat>, tablesAt: seq<nat>, next: nat)
  {
    && Drawn(UsableFrames(regions), mapped, mappedAt, next) && Drawn(UsableFrames(regions), tables, tablesAt, next)
    && forall i, j | 0 <= i < |mappedAt| && 0 <= j < |tablesAt| :: mappedAt[i] != tablesAt[j]
  }

  lemma {:induction false} DrawnDiffer(regions: seq<Region>, mapped: seq<nat>, mappedAt: seq<nat>,
                                       tables: seq<nat>, tablesAt: seq<nat>, next: nat)
    requires DrawnApart(regions, mapped, mappedAt, tables, tablesAt, next)
    ensures Separate(regions, mapped, tables)
  {
    if GoodMap(regions) {
      forall i, j | 0 <= i < j < |mapped|
        ensures mapped[i] != mapped[j]
      {
        AllocationsDiffer(regions, mappedAt[i], mappedAt[j]);
      }
      forall i, j | 0 <= i < |mapped| && 0 <= j < |tables|
        ensures mapped[i] != tables[j]
      {
        if mappedAt[i] < tablesAt[j] {
          AllocationsDiffer(regions, mappedAt[i], tablesAt[j]);
        } else {
          AllocationsDiffer(regions, tablesAt[j], mappedAt[i]);
        }
      }
    }
  }

  /** The heap spans 256 pages, and every heap address lies in one of them. */
  lemma HeapPagesCover(addr: nat)
    requires 0x4444_4444_0000 <= addr < 0x4444_4444_0000 + 0x10_0000
    ensures HEAP_START % PAGE_SIZE == 0 && (HEAP_START + HEAP_SIZE - 1) / PAGE_SIZE - HEAP_START / PAGE_SIZE + 1 == HEAP_PAGES
    ensures 0 <= addr / PAGE_SIZE - HEAP_START / PAGE_SIZE < HEAP_PAGES
  {
  }
}
