/** `sp_get_capabilities` writes a table a process can decode. */
module CapabilityListing {
  import opened Common
  import opened Capabilities
  import opened RamFs
  import opened HostCalls

  /** Every capability is stored under its own identifier. */
  ghost predicate Keyed(caps: map<CapId, Capability>) {
    forall id | id in caps :: caps[id].id == id
  }

  lemma {:induction false} ValuesAt(caps: map<CapId, Capability>, ids: seq<CapId>)
    requires forall id | id in ids :: id in caps
    ensures |Values(caps, ids)| == |ids|
    ensures forall i | 0 <= i < |ids| :: Values(caps, ids)[i] == caps[ids[i]]
  {
    if ids != [] {
      assert ids[0] in ids;
      ValuesAt(caps, ids[1..]);
    }
  }

  lemma ListingAt(caps: map<CapId, Capability>)
    ensures |Listing(caps)| == |Ascending(caps.Keys)| == |caps|
    ensures forall i | 0 <= i < |caps| ::
              Ascending(caps.Keys)[i] in caps && Listing(caps)[i] == caps[Ascending(caps.Keys)[i]]
  {
    var ids := Ascending(caps.Keys);
    forall id
      ensures id in ids <==> id in caps
    {
      AscendingMembers(caps.Keys, id);
    }
    AscendingMembers(caps.Keys, CapId(0, 0));
    ValuesAt(caps, ids);
    assert |caps| == |caps.Keys|;
  }

  /** Writing pieces that fit is one store of their concatenation; otherwise the write fails. */
  lemma {:induction false} StoreAllStores(mem: seq<byte>, offset: nat, pieces: seq<seq<byte>>)
    requires offset <= |mem|
    ensures var (mem', ok) := StoreAll(mem, offset, pieces);
            && |mem'| == |mem|
            && mem'[..offset] == mem[..offset]
            && (ok <==> InBounds(mem, offset, |Concat(pieces)|))
            && (ok ==> mem' == Store(mem, offset, Concat(pieces)))
    decreases |pieces|
  {
    if pieces == [] {
      assert Store(mem, offset, []) == mem;
    } else if InBounds(mem, offset, |pieces[0]|) {
      var first, rest := pieces[0], Concat(pieces[1..]);
      var mem1 := Store(mem, offset, first);
      StoreAllStores(mem1, offset + |first|, pieces[1..]);
      var mem' := StoreAll(mem, offset, pieces).0;
      assert mem1[..offset + |first|] == mem[..offset] + first;
      assert mem'[..offset] == mem'[..offset + |first|][..offset];
      if InBounds(mem, offset, |first + rest|) {
        StoreTwice(mem, offset, first, rest);
      }
    }
  }

  lemma StoreTwice(mem: seq<byte>, offset: nat, a: seq<byte>, b: seq<byte>)
    requires InBounds(mem, offset, |a + b|)
    ensures Store(Store(mem, offset, a), offset + |a|, b) == Store(mem, offset, a + b)
  {
    var mem1 := Store(mem, offset, a);
    assert mem1[..offset + |a|] == mem[..offset] + a;
    assert mem1[offset + |a| + |b|..] == mem[offset + |a + b|..];
  }

  /** The exact condition for success. */
  ghost predicate Fits(p: Process, ptr: i32, len: i32) {
    && p.memory.Some?
    && AsUsize(len) >= 16 * |p.caps|
    && p.fuel >= 510 + 50 * |p.caps|
    && (p.caps != map[] ==> InBounds(p.memory.value, AsUsize(ptr), 16 * |p.caps|))
  }

  /** The memory after the records were written: unchanged for an empty table. */
  ghost function WithRecords(mem: seq<byte>, offset: nat, caps: map<CapId, Capability>): seq<byte> {
    var records := Records(Listing(caps));
    if records != [] && InBounds(mem, offset, |records|) then Store(mem, offset, records) else mem
  }

  lemma {:induction false} WriteListing(caps: map<CapId, Capability>, mem: seq<byte>, offset: nat)
    ensures var (mem', ok) := StoreAll(mem, offset, AllPieces(Listing(caps)));
            && (ok <==> caps == map[] || InBounds(mem, offset, 16 * |caps|))
            && (ok ==> mem' == WithRecords(mem, offset, caps))
  {
    var pieces := AllPieces(Listing(caps));
    ListingAt(caps);
    if caps == map[] {
      assert |caps| == 0;
    } else {
      assert caps.Keys != {} && |caps| == |caps.Keys| > 0;
      if offset <= |mem| {
        RecordsLength(Listing(caps));
        StoreAllStores(mem, offset, pieces);
      } else {
        assert |pieces[0]| == 8;
      }
    }
  }

  /** The call has written the table to `start` and answers its size. */
  ghost predicate Listed(p: Process, k: Kernel, start: nat, r: Reply)
    requires p.memory.Some? && p.fuel >= 510 + 50 * |p.caps|
  {
    r == Reply(Process(p.caps, p.fuel - 10 - 50 * |p.caps|, Some(WithRecords(p.memory.value, start, p.caps))), k,
               Done(AsI32(|p.caps|)))
  }

  /** What the call answers when it does not write the whole table. */
  predicate Refuses(outcome: Outcome) {
    || outcome == Trap(Yield)
    || outcome == Done(-2) || outcome == Done(-8) || outcome == Done(-9)
  }

  /**
   The call succeeds exactly when memory, buffer and fuel suffice. Then it returns the size of the
   table as an `i32` and changes nothing but fuel and memory, and memory by one store of the records
   (none for an empty table). Otherwise it yields or returns an error code. The two cases can be told
   apart by the sign as long as the size fits in an `i32`.
   */
  lemma {:induction false} ListingSucceeds(p: Process, k: Kernel, ptr: i32, len: i32)
    requires Valid(k.fs)
    ensures var r := Call(p, k, GetCapabilities(ptr, len));
            && (if Fits(p, ptr, len) then Listed(p, k, AsUsize(ptr), r) else Refuses(r.outcome))
            && (|p.caps| < 0x8000_0000 ==> (r.outcome.Done? && r.outcome.code >= 0 <==> Fits(p, ptr, len)))
  {
    if p.fuel >= 510 {
      FirstCharge(p, k, ptr, len);
      DoListing(p.(fuel := p.fuel - 10), k, ptr, len);
    } else {
      FirstYield(p, k, ptr, len);
    }
  }

  lemma {:induction false} FirstCharge(p: Process, k: Kernel, ptr: i32, len: i32)
    requires Valid(k.fs) && p.fuel >= 510
    ensures Call(p, k, GetCapabilities(ptr, len)) == DoGetCapabilities(p.(fuel := p.fuel - 10), k, ptr, len)
  {
  }

  lemma {:induction false} FirstYield(p: Process, k: Kernel, ptr: i32, len: i32)
    requires Valid(k.fs) && p.fuel < 510
    ensures Call(p, k, GetCapabilities(ptr, len)).outcome == Trap(Yield)
  {
  }

  /** What is tested before anything is written. */
  ghost predicate FitsBuffer(p: Process, len: i32) {
    && p.memory.Some?
    && AsUsize(len) >= 16 * |p.caps|
    && p.fuel >= 500 + 50 * |p.caps|
  }

  lemma {:induction false} DoListing(p: Process, k: Kernel, ptr: i32, len: i32)
    requires p.fuel >= 500
    ensures var r := DoGetCapabilities(p, k, ptr, len);
            if FitsBuffer(p, len) && (p.caps == map[] || InBounds(p.memory.value, AsUsize(ptr), 16 * |p.caps|)) then
              r == Reply(p.(fuel := p.fuel - 50 * |p.caps|,
                            memory := Some(WithRecords(p.memory.value, AsUsize(ptr), p.caps))), k, Done(AsI32(|p.caps|)))
            else Refuses(r.outcome)
  {
    if p.memory.Some? {
      WriteListing(p.caps, p.memory.value, AsUsize(ptr));
    }
  }

  /** One entry per capability, and entry `i` is that of the i-th smallest identifier. */
  ghost predicate Describes(entries: seq<Entry>, caps: map<CapId, Capability>, i: nat) {
    var ids := Ascending(caps.Keys);
    && |entries| == |ids| == |caps| && i < |ids|
    && ids[i] in caps
    && entries[i].id == ids[i] && entries[i].rights == caps[ids[i]].rights
    && KindCode(caps[ids[i]].resource, entries[i].tag)
  }

  /**
   Decoding the written records gives one entry per capability: the i-th describes the capability
   with the i-th smallest identifier, by identifier, type tag and rights.
   */
  lemma ListingRoundTrip(caps: map<CapId, Capability>, i: nat)
    requires Keyed(caps) && i < |caps|
    ensures var entries := Decode(Records(Listing(caps)));
            Describes(entries, caps, i)
            && (i > 0 ==> var a, b := entries[i - 1].id, entries[i].id;
                          a.index < b.index || (a.index == b.index && a.generation < b.generation))
  {
    ListingAt(caps);
    TableRoundTrip(Listing(caps));
    EntriesAt(Listing(caps), i);
    if i > 0 {
      EntriesAt(Listing(caps), i - 1);
      AscendingOrder(caps.Keys, i - 1, i);
    }
  }

  /** Reading back what was stored. */
  lemma {:induction false} StoreReadsBack(mem: seq<byte>, offset: nat, bytes: seq<byte>)
    requires InBounds(mem, offset, |bytes|)
    ensures offset + |bytes| <= |Store(mem, offset, bytes)|
    ensures Store(mem, offset, bytes)[offset..offset + |bytes|] == bytes
  {
  }

  /** After a call that succeeded on a table that is not empty, the records are in memory from `ptr` on. */
  lemma {:induction false} RecordsStored(p: Process, k: Kernel, ptr: i32, len: i32, mem: seq<byte>)
    requires Valid(k.fs) && Fits(p, ptr, len) && |p.caps| > 0
    requires Call(p, k, GetCapabilities(ptr, len)).p.memory == Some(mem)
    ensures AsUsize(ptr) + 16 * |p.caps| <= |mem|
    ensures mem[AsUsize(ptr)..AsUsize(ptr) + 16 * |p.caps|] == Records(Listing(p.caps))
  {
    ListingSucceeds(p, k, ptr, len);
    ListingAt(p.caps);
    StoreReadsBack(p.memory.value, AsUsize(ptr), Records(Listing(p.caps)));
  }

  /** Decoding the records from `start` on gives the entries of the table. */
  ghost predicate Lists(mem: seq<byte>, start: nat, caps: map<CapId, Capability>, i: nat) {
    start + 16 * |caps| <= |mem| && Describes(Decode(mem[start..start + 16 * |caps|]), caps, i)
  }

  /**
   What a process finds in its memory after a call that succeeded: decoding the bytes from `ptr` on
   gives its own capabilities, one entry each, in the order of their identifiers.
   */
  lemma {:induction false} ListingDecodes(p: Process, k: Kernel, ptr: i32, len: i32, mem: seq<byte>, i: nat)
    requires Valid(k.fs) && Fits(p, ptr, len) && Keyed(p.caps) && i < |p.caps|
    requires Call(p, k, GetCapabilities(ptr, len)).p.memory == Some(mem)
    ensures Lists(mem, AsUsize(ptr), p.caps, i)
  {
    RecordsStored(p, k, ptr, len, mem);
    ListingRoundTrip(p.caps, i);
  }

  /** The same as bytes: record `i` from `ptr` on is that of the capability with the i-th smallest identifier. */
  lemma {:induction false} ListingBytes(p: Process, k: Kernel, ptr: i32, len: i32, mem: seq<byte>, i: nat)
    requires Valid(k.fs) && Fits(p, ptr, len) && Keyed(p.caps) && i < |p.caps|
    requires Call(p, k, GetCapabilities(ptr, len)).p.memory == Some(mem)
    ensures HasRecord(mem, AsUsize(ptr) + 16 * i, p.caps, i)
  {
    RecordsStored(p, k, ptr, len, mem);
    RecordInside(mem, AsUsize(ptr), p.caps, i);
  }

  lemma {:induction false} RecordInside(mem: seq<byte>, start: nat, caps: map<CapId, Capability>, i: nat)
    requires start + 16 * |caps| <= |mem| && i < |caps| && Keyed(caps)
    requires mem[start..start + 16 * |caps|] == Records(Listing(caps))
    ensures HasRecord(mem, start + 16 * i, caps, i)
  {
    ListingAt(caps);
    RecordSlice(mem, start, Listing(caps), i);
    RecordLayout(Listing(caps)[i]);
  }

  lemma {:induction false} RecordSlice(mem: seq<byte>, start: nat, listing: seq<Capability>, i: nat)
    requires start + 16 * |listing| <= |mem| && i < |listing|
    requires mem[start..start + 16 * |listing|] == Records(listing)
    ensures mem[start + 16 * i..start + 16 * i + 16] == Concat(Pieces(listing[i]))
  {
    RecordsAt(listing, i);
    SliceOfSlice(mem, start, 16 * |listing|, 16 * i);
  }

  lemma {:induction false} SliceOfSlice(mem: seq<byte>, start: nat, size: nat, at: nat)
    requires start + size <= |mem| && at + 16 <= size
    ensures mem[start..start + size][at..at + 16] == mem[start + at..start + at + 16]
  {
    var inner, outer := mem[start..start + size][at..at + 16], mem[start + at..start + at + 16];
    assert |inner| == |outer| && forall j | 0 <= j < 16 :: inner[j] == outer[j];
  }

  ghost predicate HasRecord(mem: seq<byte>, at: nat, caps: map<CapId, Capability>, i: nat) {
    var ids := Ascending(caps.Keys);
    && i < |ids| && ids[i] in caps && caps[ids[i]].id == ids[i]
    && at + 16 <= |mem| && Layout(caps[ids[i]], mem[at..at + 16])
  }

  // ---- Tables stay keyed by identifier ----

  lemma {:induction false} NewTableIsKeyed(initial: seq<Capability>)
    ensures Keyed(TableOf(initial))
  {
    forall id | id in TableOf(initial)
      ensures TableOf(initial)[id].id == id
    {
      TableOfLast(initial, id);
    }
  }

  lemma {:induction false} CallKeepsKeyed(p: Process, k: Kernel, c: HostCall)
    requires Valid(k.fs) && Keyed(p.caps)
    ensures Keyed(Call(p, k, c).p.caps)
  {
  }
}
