/** Capability identifiers, rights and objects, and the records `sp_get_capabilities` writes. */
module Capabilities {
  import opened Common

  // ---- Identifiers ----

  datatype CapId = CapId(index: u32, generation: u32)

  function FromU64(val: u64): CapId {
    CapId(val % 0x1_0000_0000, val / 0x1_0000_0000)
  }

  function AsU64(id: CapId): u64 {
    id.generation * 0x1_0000_0000 + id.index
  }

  /**
   Packing and unpacking are inverse to each other on all 64-bit values and all identifiers; the index is
   in the lower half of the value and the generation in the upper half.
   */
  lemma PackingRoundTrip(val: u64, id: CapId)
    ensures AsU64(FromU64(val)) == val && FromU64(AsU64(id)) == id
    ensures AsU64(id) % 0x1_0000_0000 == id.index && AsU64(id) / 0x1_0000_0000 == id.generation
  {
    assert AsU64(id) / 0x1_0000_0000 == id.generation;
  }

  /** The derived order of `CapId`: by index, then by generation. */
  predicate Less(a: CapId, b: CapId) {
    a.index < b.index || (a.index == b.index && a.generation < b.generation)
  }

  // ---- Rights ----

  datatype Right = READ | WRITE | EXECUTE | GRANT | CALL
  type Rights = set<Right>

  function Bit(right: Right): nat {
    match right
    case READ => 1
    case WRITE => 2
    case EXECUTE => 4
    case GRANT => 8
    case CALL => 16
  }

  function One(rights: Rights, right: Right): nat {
    if right in rights then 1 else 0
  }

  /** `rights.bits()`. */
  function Bits(rights: Rights): (b: nat)
    ensures b < 32
  {
    One(rights, READ) + 2 * One(rights, WRITE) + 4 * One(rights, EXECUTE) + 8 * One(rights, GRANT)
    + 16 * One(rights, CALL)
  }

  function RightsOf(bits: nat): Rights {
    set right | right in {READ, WRITE, EXECUTE, GRANT, CALL} && bits / Bit(right) % 2 == 1
  }

  lemma FiveBits(r: nat, w: nat, x: nat, g: nat, c: nat)
    requires r <= 1 && w <= 1 && x <= 1 && g <= 1 && c <= 1
    ensures var b := r + 2 * w + 4 * x + 8 * g + 16 * c;
            b / 1 % 2 == r && b / 2 % 2 == w && b / 4 % 2 == x && b / 8 % 2 == g && b / 16 % 2 == c
  {
    var b := r + 2 * w + 4 * x + 8 * g + 16 * c;
    assert b / 2 == w + 2 * x + 4 * g + 8 * c;
    assert b / 4 == x + 2 * g + 4 * c;
    assert b / 8 == g + 2 * c;
    assert b / 16 == c;
  }

  lemma BitsRoundTrip(rights: Rights)
    ensures RightsOf(Bits(rights)) == rights
  {
    forall right: Right
      ensures Bits(rights) / Bit(right) % 2 == One(rights, right)
    {
      FiveBits(One(rights, READ), One(rights, WRITE), One(rights, EXECUTE), One(rights, GRANT), One(rights, CALL));
    }
  }

  // ---- Capabilities ----

  datatype CapObject =
    | MemoryCap(start: u64, size: u64)
    | SerialCap(port: u16)
    | TimerCap
    | InterruptCap(irq: byte)
    | NetworkCap(socket: u32)
    | DirectoryCap(handle: u64)
    | FileCap(handle: u64)
    | MutexCap(handle: u64)
    | SemaphoreCap(handle: u64)

  datatype Capability = Capability(id: CapId, rights: Rights, resource: CapObject, generation: u64)

  function Tag(resource: CapObject): nat {
    match resource
    case FileCap(_) => 0
    case DirectoryCap(_) => 1
    case MutexCap(_) => 2
    case SemaphoreCap(_) => 3
    case _ => 255
  }

  // ---- The table of a new process ----

  /** The table after these capabilities were inserted one after the other. */
  function TableOf(caps: seq<Capability>): map<CapId, Capability> {
    if caps == [] then map[]
    else
      var last := caps[|caps| - 1];
      TableOf(caps[..|caps| - 1])[last.id := last]
  }

  /** The table holds exactly the identifiers of the list, each with the last capability of that identifier. */
  lemma {:induction false} TableOfLast(caps: seq<Capability>, id: CapId)
    ensures id in TableOf(caps) <==> exists i :: 0 <= i < |caps| && caps[i].id == id
    ensures id in TableOf(caps) ==> exists i :: 0 <= i < |caps| && caps[i].id == id && TableOf(caps)[id] == caps[i]
                                                && forall j | i < j < |caps| :: caps[j].id != id
    decreases |caps|
  {
    if caps != [] {
      var n := |caps| - 1;
      TableOfLast(caps[..n], id);
      if caps[n].id != id && id in TableOf(caps) {
        var i :| 0 <= i < n && caps[..n][i].id == id && TableOf(caps[..n])[id] == caps[..n][i]
                 && forall j | i < j < n :: caps[..n][j].id != id;
        assert caps[i].id == id && TableOf(caps)[id] == caps[i];
        forall j | i < j < |caps|
          ensures caps[j].id != id
        {
          assert j < n ==> caps[..n][j] == caps[j];
        }
      }
    }
  }

  // ---- The order of the table ----

  ghost function Smallest(ids: set<CapId>): (id: CapId)
    requires ids != {}
    ensures id in ids && forall other | other in ids :: other == id || Less(id, other)
  {
    var some :| some in ids;
    if ids == {some} then some
    else
      assert ids == ids - {some} + {some};
      var best := Smallest(ids - {some});
      if Less(best, some) then best else some
  }

  /** The keys of a `BTreeMap<CapId, _>` in iteration order. */
  ghost function Ascending(ids: set<CapId>): seq<CapId> {
    if ids == {} then [] else [Smallest(ids)] + Ascending(ids - {Smallest(ids)})
  }

  lemma {:induction false} AscendingMembers(ids: set<CapId>, id: CapId)
    ensures |Ascending(ids)| == |ids|
    ensures id in Ascending(ids) <==> id in ids
  {
    if ids != {} {
      var first := Smallest(ids);
      AscendingMembers(ids - {first}, id);
    }
  }

  /** `Ascending` lists the keys in strictly increasing order. */
  lemma {:induction false} AscendingOrder(ids: set<CapId>, i: nat, j: nat)
    requires i < j < |Ascending(ids)|
    ensures var a, b := Ascending(ids)[i], Ascending(ids)[j];
            a.index < b.index || (a.index == b.index && a.generation < b.generation)
  {
    var first := Smallest(ids);
    var rest := Ascending(ids - {first});
    if i > 0 {
      AscendingOrder(ids - {first}, i - 1, j - 1);
    } else {
      AscendingMembers(ids - {first}, rest[j - 1]);
    }
  }

  // ---- Records ----

  /** `to_le_bytes` of a value of the given width in bytes. */
  function Le(val: nat, width: nat): (bytes: seq<byte>)
    ensures |bytes| == width
  {
    if width == 0 then [] else [val % 256] + Le(val / 256, width - 1)
  }

  function FromLe(bytes: seq<byte>): (val: nat)
    ensures val < Pow256(|bytes|)
  {
    if bytes == [] then 0 else bytes[0] + 256 * FromLe(bytes[1..])
  }

  function Pow256(width: nat): nat {
    if width == 0 then 1 else 256 * Pow256(width - 1)
  }

  lemma {:induction false} LeRoundTrip(val: nat, width: nat)
    requires val < Pow256(width)
    ensures FromLe(Le(val, width)) == val
  {
    if width > 0 {
      assert val / 256 < Pow256(width - 1);
      LeRoundTrip(val / 256, width - 1);
    }
  }

  /** The three byte strings written for one capability: id, type tag, rights. */
  function Pieces(cap: Capability): seq<seq<byte>> {
    [Le(AsU64(cap.id), 8), Le(Tag(cap.resource), 4), Le(Bits(cap.rights), 4)]
  }

  function AllPieces(caps: seq<Capability>): seq<seq<byte>> {
    if caps == [] then [] else Pieces(caps[0]) + AllPieces(caps[1..])
  }

  function Concat(pieces: seq<seq<byte>>): seq<byte> {
    if pieces == [] then [] else pieces[0] + Concat(pieces[1..])
  }

  function U64FromLe(bytes: seq<byte>): u64
    requires |bytes| == 8
  {
    assert Pow256(8) == 0x1_0000_0000_0000_0000;
    FromLe(bytes)
  }

  /** What a process learns about one capability. */
  datatype Entry = Entry(id: CapId, tag: nat, rights: Rights)

  function EntryOf(cap: Capability): Entry {
    Entry(cap.id, Tag(cap.resource), cap.rights)
  }

  function EntriesOf(caps: seq<Capability>): seq<Entry> {
    if caps == [] then [] else [EntryOf(caps[0])] + EntriesOf(caps[1..])
  }

  function DecodeRecord(b: seq<byte>): Entry
    requires |b| == 16
  {
    Entry(FromU64(U64FromLe(b[..8])), FromLe(b[8..12]), RightsOf(FromLe(b[12..])))
  }

  /** Reads consecutive 16-byte records. */
  function Decode(bytes: seq<byte>): seq<Entry>
    requires |bytes| % 16 == 0
  {
    if bytes == [] then [] else [DecodeRecord(bytes[..16])] + Decode(bytes[16..])
  }

  lemma {:induction false} DecodePieces(id: seq<byte>, tag: seq<byte>, rights: seq<byte>, cap: Capability)
    requires |id| == 8 && |tag| == 4 && |rights| == 4
    requires FromLe(id) == AsU64(cap.id) && FromLe(tag) == Tag(cap.resource) && FromLe(rights) == Bits(cap.rights)
    ensures |Concat([id, tag, rights])| == 16 && DecodeRecord(Concat([id, tag, rights])) == EntryOf(cap)
  {
    ConcatThree(id, tag, rights);
    PackingRoundTrip(AsU64(cap.id), cap.id);
    BitsRoundTrip(cap.rights);
  }

  lemma RecordRoundTrip(cap: Capability)
    ensures |Concat(Pieces(cap))| == 16 && DecodeRecord(Concat(Pieces(cap))) == EntryOf(cap)
  {
    var w4, w8 := 4, 8;
    assert Pow256(w4) == 0x1_0000_0000 && Pow256(w8) == 0x1_0000_0000_0000_0000;
    LeRoundTrip(AsU64(cap.id), w8);
    LeRoundTrip(Tag(cap.resource), w4);
    LeRoundTrip(Bits(cap.rights), w4);
    DecodePieces(Le(AsU64(cap.id), w8), Le(Tag(cap.resource), w4), Le(Bits(cap.rights), w4), cap);
  }

  lemma ConcatThree(a: seq<byte>, b: seq<byte>, c: seq<byte>)
    ensures var all := Concat([a, b, c]);
            && |all| == |a| + |b| + |c|
            && all[..|a|] == a && all[|a|..|a| + |b|] == b && all[|a| + |b|..] == c
  {
    assert [a, b, c][1..] == [b, c] && [b, c][1..] == [c] && [c][1..] == [];
    assert Concat([c]) == c;
  }

  lemma {:induction false} ConcatDistributes(a: seq<seq<byte>>, b: seq<seq<byte>>)
    ensures Concat(a + b) == Concat(a) + Concat(b)
  {
    if a == [] {
      assert a + b == b;
    } else {
      assert (a + b)[1..] == a[1..] + b;
      ConcatDistributes(a[1..], b);
    }
  }

  lemma {:induction false} RecordsLength(caps: seq<Capability>)
    ensures |Concat(AllPieces(caps))| == 16 * |caps|
  {
    if caps != [] {
      RecordsLength(caps[1..]);
      RecordRoundTrip(caps[0]);
      ConcatDistributes(Pieces(caps[0]), AllPieces(caps[1..]));
    }
  }

  /** The records of a list of capabilities, 16 bytes each. */
  function Records(caps: seq<Capability>): (bytes: seq<byte>)
    ensures |bytes| == 16 * |caps|
  {
    RecordsLength(caps);
    Concat(AllPieces(caps))
  }

  /** Decoding the records of a list of capabilities gives back every id, tag and rights, in order. */
  lemma {:induction false} TableRoundTrip(caps: seq<Capability>)
    ensures Decode(Records(caps)) == EntriesOf(caps)
  {
    if caps != [] {
      TableRoundTrip(caps[1..]);
      RecordRoundTrip(caps[0]);
      ConcatDistributes(Pieces(caps[0]), AllPieces(caps[1..]));
      var bytes := Records(caps);
      assert bytes[..16] == Concat(Pieces(caps[0])) && bytes[16..] == Records(caps[1..]);
    }
  }

  lemma {:induction false} EntriesAt(caps: seq<Capability>, i: nat)
    requires i < |caps|
    ensures |EntriesOf(caps)| == |caps| && EntriesOf(caps)[i] == EntryOf(caps[i])
  {
    if |caps| > 1 {
      EntriesAt(caps[1..], if i > 0 then i - 1 else 0);
    }
  }

  // ---- The bytes of a record ----

  /** Four bytes as a number, the lowest first. */
  function Word(b: seq<byte>, at: nat): nat
    requires at + 4 <= |b|
  {
    var b0: int, b1: int, b2: int, b3: int := b[at], b[at + 1], b[at + 2], b[at + 3];
    b0 + 0x100 * b1 + 0x1_0000 * b2 + 0x100_0000 * b3
  }

  /** The type codes of the listing: 0 file, 1 directory, 2 mutex, 3 semaphore, 255 anything else. */
  predicate KindCode(resource: CapObject, code: nat) {
    && (code == 0 <==> resource.FileCap?)
    && (code == 1 <==> resource.DirectoryCap?)
    && (code == 2 <==> resource.MutexCap?)
    && (code == 3 <==> resource.SemaphoreCap?)
    && (code <= 3 || code == 255)
  }

  /** 16 bytes: index, generation, type code and rights, each a word; READ is worth 1 and CALL 16. */
  predicate Layout(cap: Capability, b: seq<byte>) {
    && |b| == 16
    && Word(b, 0) == cap.id.index && Word(b, 4) == cap.id.generation
    && KindCode(cap.resource, Word(b, 8))
    && Word(b, 12) == (if READ in cap.rights then 1 else 0) + (if WRITE in cap.rights then 2 else 0)
                      + (if EXECUTE in cap.rights then 4 else 0) + (if GRANT in cap.rights then 8 else 0)
                      + (if CALL in cap.rights then 16 else 0)
  }

  /** The first four bytes are the value modulo 2^32, and the rest is what is left of it. */
  lemma {:induction false} LeWord(val: nat, more: nat)
    ensures var b := Le(val, 4 + more);
            Word(b, 0) == val % 0x1_0000_0000 && b[4..] == Le(val / 0x1_0000_0000, more)
  {
    var v1, v2, v3 := val / 0x100, val / 0x1_0000, val / 0x100_0000;
    assert v2 == v1 / 256 && v3 == v2 / 256 && val / 0x1_0000_0000 == v3 / 256;
    var b3, b2, b1 := Le(v3, 1 + more), Le(v2, 2 + more), Le(v1, 3 + more);
    assert b3 == [v3 % 256] + Le(v3 / 256, more);
    assert b2 == [v2 % 256] + b3;
    assert b1 == [v1 % 256] + b2;
    assert Le(val, 4 + more) == [val % 256] + b1;
  }

  lemma {:induction false} IdWords(id: CapId, b: seq<byte>)
    requires b == Le(AsU64(id), 4 + 4)
    ensures |b| == 8 && Word(b, 0) == id.index && Word(b, 4) == id.generation
  {
    PackingRoundTrip(AsU64(id), id);
    LeWord(AsU64(id), 4);
    LeWord(id.generation, 0);
    assert Word(b, 4) == Word(b[4..], 0);
  }

  lemma {:induction false} SmallWord(val: nat, b: seq<byte>)
    requires b == Le(val, 4 + 0) && val < 0x1_0000_0000
    ensures |b| == 4 && Word(b, 0) == val
  {
    LeWord(val, 0);
  }

  lemma {:induction false} FieldsAreLayout(cap: Capability, id: seq<byte>, tag: seq<byte>, rights: seq<byte>)
    requires |id| == 8 && Word(id, 0) == cap.id.index && Word(id, 4) == cap.id.generation
    requires |tag| == 4 && Word(tag, 0) == Tag(cap.resource)
    requires |rights| == 4 && Word(rights, 0) == Bits(cap.rights)
    ensures Layout(cap, id + tag + rights)
  {
    var b := id + tag + rights;
    assert Word(b, 0) == Word(id, 0) && Word(b, 4) == Word(id, 4);
    assert Word(b, 8) == Word(tag, 0) && Word(b, 12) == Word(rights, 0);
  }

  /** The bytes written for a capability, field by field. */
  lemma {:induction false} RecordLayout(cap: Capability)
    ensures Layout(cap, Concat(Pieces(cap)))
  {
    var id, tag, rights := Pieces(cap)[0], Pieces(cap)[1], Pieces(cap)[2];
    IdWords(cap.id, id);
    SmallWord(Tag(cap.resource), tag);
    SmallWord(Bits(cap.rights), rights);
    FieldsAreLayout(cap, id, tag, rights);
    ConcatThree(id, tag, rights);
    assert Concat(Pieces(cap)) == id + tag + rights;
  }

  /** A slice of 16 bytes from the second of two parts. */
  lemma {:induction false} SliceBehind(first: seq<byte>, rest: seq<byte>, at: nat)
    requires at + 16 <= |rest|
    ensures (first + rest)[|first| + at..|first| + at + 16] == rest[at..at + 16]
  {
    var inner, outer := (first + rest)[|first| + at..|first| + at + 16], rest[at..at + 16];
    assert |inner| == |outer| && forall j | 0 <= j < 16 :: inner[j] == outer[j];
  }

  lemma {:induction false} RecordsSplit(caps: seq<Capability>)
    requires caps != []
    ensures Records(caps) == Concat(Pieces(caps[0])) + Records(caps[1..]) && |Concat(Pieces(caps[0]))| == 16
  {
    RecordRoundTrip(caps[0]);
    ConcatDistributes(Pieces(caps[0]), AllPieces(caps[1..]));
  }

  lemma {:induction false} RecordsAt(caps: seq<Capability>, i: nat)
    requires i < |caps|
    ensures Records(caps)[16 * i..16 * i + 16] == Concat(Pieces(caps[i]))
  {
    RecordsSplit(caps);
    var first, rest := Concat(Pieces(caps[0])), Records(caps[1..]);
    if i == 0 {
      assert (first + rest)[0..16] == first;
    } else {
      RecordsAt(caps[1..], i - 1);
      SliceBehind(first, rest, 16 * (i - 1));
      assert 16 + 16 * (i - 1) == 16 * i;
    }
  }
}
