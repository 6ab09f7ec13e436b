/**
 `core::str::from_utf8`: which byte strings are text. The test goes byte by byte, as in table 3-7 of the
 Unicode Standard; it is proved to accept exactly the encodings of sequences of scalar values.
 */
module Utf8 {
  import opened Common
  import opened Paths

  predicate Trail(b: byte) {
    0x80 <= b <= 0xBF
  }

  predicate WellFormed(b: seq<byte>) {
    if b == [] then true
    else if b[0] < 0x80 then WellFormed(b[1..])
    else if 0xC2 <= b[0] <= 0xDF then |b| >= 2 && Trail(b[1]) && WellFormed(b[2..])
    else if 0xE0 <= b[0] <= 0xEF then
      |b| >= 3 && Trail(b[1]) && Trail(b[2])
      && (b[0] == 0xE0 ==> b[1] >= 0xA0) && (b[0] == 0xED ==> b[1] <= 0x9F) && WellFormed(b[3..])
    else if 0xF0 <= b[0] <= 0xF4 then
      |b| >= 4 && Trail(b[1]) && Trail(b[2]) && Trail(b[3])
      && (b[0] == 0xF0 ==> b[1] >= 0x90) && (b[0] == 0xF4 ==> b[1] <= 0x8F) && WellFormed(b[4..])
    else false
  }

  // ---- The encoding ----

  /** Unicode scalar values: code points without the surrogates. */
  type Scalar = c: nat | c < 0xD800 || 0xE000 <= c < 0x11_0000

  function EncodeOne(c: Scalar): (b: seq<byte>)
    ensures 1 <= |b| <= 4
  {
    if c < 0x80 then [c]
    else if c < 0x800 then [0xC0 + c / 64, 0x80 + c % 64]
    else if c < 0x1_0000 then [0xE0 + c / 4096, 0x80 + c / 64 % 64, 0x80 + c % 64]
    else [0xF0 + c / 0x4_0000, 0x80 + c / 4096 % 64, 0x80 + c / 64 % 64, 0x80 + c % 64]
  }

  function Encode(cs: seq<Scalar>): seq<byte> {
    if cs == [] then [] else EncodeOne(cs[0]) + Encode(cs[1..])
  }

  lemma {:induction false} OneThenRest(c: Scalar, rest: seq<byte>)
    requires WellFormed(rest)
    ensures WellFormed(EncodeOne(c) + rest)
  {
    var one := EncodeOne(c);
    var b := one + rest;
    assert b[|one|..] == rest && b[..|one|] == one;
    assert forall i | 0 <= i < |one| :: b[i] == one[i];
    if c < 0x80 {
    } else if c < 0x800 {
      assert 2 <= c / 64 <= 31;
    } else if c < 0x1_0000 {
      ThreeByteRange(c);
    } else {
      FourByteRange(c);
    }
  }

  lemma {:induction false} ThreeByteRange(c: Scalar)
    requires 0x800 <= c < 0x1_0000
    ensures c / 4096 <= 15 && c / 64 % 64 < 64
    ensures (c / 4096 == 0 ==> c / 64 % 64 >= 0x20) && (c / 4096 == 13 ==> c / 64 % 64 <= 0x1F)
  {
    assert c / 64 / 64 == c / 4096;
  }

  lemma {:induction false} FourByteRange(c: Scalar)
    requires 0x1_0000 <= c
    ensures c / 0x4_0000 <= 4
    ensures (c / 0x4_0000 == 0 ==> c / 4096 % 64 >= 0x10) && (c / 0x4_0000 == 4 ==> c / 4096 % 64 <= 0x0F)
  {
    assert c / 4096 / 64 == c / 0x4_0000;
  }

  lemma {:induction false} EncodingIsWellFormed(cs: seq<Scalar>)
    ensures WellFormed(Encode(cs))
  {
    if cs != [] {
      EncodingIsWellFormed(cs[1..]);
      OneThenRest(cs[0], Encode(cs[1..]));
    }
  }

  lemma {:induction false} TwoBytes(x: int, y: int) returns (c: Scalar)
    requires 0xC2 <= x <= 0xDF && 0x80 <= y <= 0xBF
    ensures EncodeOne(c) == [x, y]
  {
    c := (x - 0xC0) * 64 + (y - 0x80);
    assert c / 64 == x - 0xC0;
  }

  lemma {:induction false} ThreeBytes(x: int, y: int, z: int) returns (c: Scalar)
    requires 0xE0 <= x <= 0xEF && 0x80 <= y <= 0xBF && 0x80 <= z <= 0xBF
    requires (x == 0xE0 ==> y >= 0xA0) && (x == 0xED ==> y <= 0x9F)
    ensures EncodeOne(c) == [x, y, z]
  {
    var high := (x - 0xE0) * 64 + (y - 0x80);
    c := high * 64 + (z - 0x80);
    assert high / 64 == x - 0xE0 && c / 64 == high;
    assert c / 4096 == high / 64;
  }

  lemma {:induction false} FourBytes(x: int, y: int, z: int, w: int) returns (c: Scalar)
    requires 0xF0 <= x <= 0xF4 && 0x80 <= y <= 0xBF && 0x80 <= z <= 0xBF && 0x80 <= w <= 0xBF
    requires (x == 0xF0 ==> y >= 0x90) && (x == 0xF4 ==> y <= 0x8F)
    ensures EncodeOne(c) == [x, y, z, w]
  {
    var high := (x - 0xF0) * 64 + (y - 0x80);
    var middle := high * 64 + (z - 0x80);
    c := middle * 64 + (w - 0x80);
    assert high / 64 == x - 0xF0 && middle / 64 == high && c / 64 == middle;
    assert c / 4096 == middle / 64 && c / 0x4_0000 == high / 64;
  }

  /** The first character of a well-formed, non-empty string. */
  lemma {:induction false} FirstScalar(b: seq<byte>) returns (c: Scalar)
    requires WellFormed(b) && b != []
    ensures var n := |EncodeOne(c)|;
            n <= |b| && b[..n] == EncodeOne(c) && WellFormed(b[n..])
  {
    if b[0] < 0x80 {
      c := b[0];
    } else if b[0] <= 0xDF {
      c := TwoBytes(b[0], b[1]);
    } else if b[0] <= 0xEF {
      c := ThreeBytes(b[0], b[1], b[2]);
    } else {
      c := FourBytes(b[0], b[1], b[2], b[3]);
    }
  }

  lemma {:induction false} EncodeCons(c: Scalar, cs: seq<Scalar>)
    ensures Encode([c] + cs) == EncodeOne(c) + Encode(cs)
  {
    assert ([c] + cs)[1..] == cs;
  }

  lemma {:induction false} WellFormedDecodes(b: seq<byte>) returns (cs: seq<Scalar>)
    requires WellFormed(b)
    ensures Encode(cs) == b
    decreases |b|
  {
    if b == [] {
      cs := [];
    } else {
      var c := FirstScalar(b);
      var n := |EncodeOne(c)|;
      var rest := WellFormedDecodes(b[n..]);
      EncodeCons(c, rest);
      assert b == b[..n] + b[n..];
      cs := [c] + rest;
    }
  }

  /** The test accepts exactly the encodings of text. */
  lemma {:induction false} WellFormedIff(b: seq<byte>)
    ensures WellFormed(b) <==> exists cs: seq<Scalar> :: Encode(cs) == b
  {
    if WellFormed(b) {
      var cs := WellFormedDecodes(b);
    } else if cs: seq<Scalar> :| Encode(cs) == b {
      EncodingIsWellFormed(cs);
    }
  }

  // ---- Splitting text at '/' is splitting its bytes ----

  /** `split('/')` on characters. */
  function SplitText(cs: seq<Scalar>): (parts: seq<seq<Scalar>>)
    ensures |parts| >= 1
  {
    if cs == [] then [[]]
    else
      var rest := SplitText(cs[1..]);
      if cs[0] == 0x2F then [[]] + rest else [[cs[0]] + rest[0]] + rest[1..]
  }

  function EncodeEach(parts: seq<seq<Scalar>>): (bs: seq<seq<byte>>)
    ensures |bs| == |parts| && forall i | 0 <= i < |parts| :: bs[i] == Encode(parts[i])
  {
    if parts == [] then [] else [Encode(parts[0])] + EncodeEach(parts[1..])
  }

  /** Bytes other than '/' in front go to the first part. */
  lemma {:induction false} SplitBehind(a: seq<byte>, b: seq<byte>)
    requires SLASH !in a
    ensures Split(a + b) == [a + Split(b)[0]] + Split(b)[1..]
  {
    if a == [] {
      assert a + b == b && a + Split(b)[0] == Split(b)[0];
      assert Split(b) == [Split(b)[0]] + Split(b)[1..];
    } else {
      assert (a + b)[1..] == a[1..] + b;
      SplitBehind(a[1..], b);
      assert a == [a[0]] + a[1..];
      assert [a[0]] + (a[1..] + Split(b)[0]) == a + Split(b)[0];
      assert Split(a + b) == [[a[0]] + (a[1..] + Split(b)[0])] + Split(b)[1..];
    }
  }

  /** In UTF-8 the byte 0x2F is always the character '/', so the parts are the same. */
  lemma {:induction false} SplitOfText(cs: seq<Scalar>)
    ensures Split(Encode(cs)) == EncodeEach(SplitText(cs))
  {
    if cs != [] {
      SplitOfText(cs[1..]);
      var c, rest := cs[0], Encode(cs[1..]);
      var parts := SplitText(cs[1..]);
      if c == 0x2F {
        assert Encode(cs)[1..] == rest;
      } else {
        assert SLASH !in EncodeOne(c);
        SplitBehind(EncodeOne(c), rest);
        var first := [c] + parts[0];
        assert first[1..] == parts[0];
        assert EncodeEach(SplitText(cs)) == [Encode(first)] + EncodeEach(parts)[1..];
      }
    }
  }
}
