/**
 Path strings: `path.split('/').filter(|s| !s.is_empty())`.

 A path is the byte string of its UTF-8 encoding. The byte 0x2F occurs in well-formed UTF-8 only
 as the character '/', so splitting bytes is splitting characters.
 */
module Paths {
  import opened Common

  const SLASH: byte := 0x2F

  type Name = seq<byte>

  /** `split('/')`: always at least one part, empty parts included. */
  function Split(s: seq<byte>): (parts: seq<Name>)
    ensures |parts| >= 1
  {
    if s == [] then [[]]
    else
      var rest := Split(s[1..]);
      if s[0] == SLASH then [[]] + rest else [[s[0]] + rest[0]] + rest[1..]
  }

  /** `filter(|s| !s.is_empty())`. */
  function NonEmpty(parts: seq<Name>): seq<Name> {
    if parts == [] then []
    else if parts[0] == [] then NonEmpty(parts[1..])
    else [parts[0]] + NonEmpty(parts[1..])
  }

  function Components(path: seq<byte>): seq<Name> {
    NonEmpty(Split(path))
  }

  /** The parts joined with '/' between them: the inverse of `Split`. */
  function Join(parts: seq<Name>): seq<byte>
    requires parts != []
  {
    if |parts| == 1 then parts[0] else parts[0] + [SLASH] + Join(parts[1..])
  }

  /** A name a directory entry can have. */
  predicate Legal(name: Name) {
    name != [] && SLASH !in name
  }

  lemma {:induction false} SplitJoins(p: seq<byte>, q: seq<byte>)
    ensures Split(p + [SLASH] + q) == Split(p) + Split(q)
  {
    var s := p + [SLASH] + q;
    if p == [] {
      assert s[1..] == q;
    } else {
      assert s[1..] == p[1..] + [SLASH] + q;
      SplitJoins(p[1..], q);
    }
  }

  lemma {:induction false} NonEmptyConcat(a: seq<Name>, b: seq<Name>)
    ensures NonEmpty(a + b) == NonEmpty(a) + NonEmpty(b)
  {
    if a == [] {
      assert a + b == b;
    } else {
      assert (a + b)[1..] == a[1..] + b;
      NonEmptyConcat(a[1..], b);
    }
  }

  /** The components of `p/q` are those of `p` followed by those of `q`, for all strings. */
  lemma ComponentsOfJoin(p: seq<byte>, q: seq<byte>)
    ensures Components(p + [SLASH] + q) == Components(p) + Components(q)
  {
    SplitJoins(p, q);
    NonEmptyConcat(Split(p), Split(q));
  }

  /** `Split` loses nothing: joining its parts gives the string back, and no part holds a '/'. */
  lemma {:induction false} JoinOfSplit(s: seq<byte>)
    ensures Join(Split(s)) == s
    ensures forall part | part in Split(s) :: SLASH !in part
  {
    if s != [] {
      JoinOfSplit(s[1..]);
      var rest := Split(s[1..]);
      assert s == [s[0]] + s[1..];
      if s[0] == SLASH {
        assert ([[]] + rest)[1..] == rest;
      } else {
        JoinPrepend(s[0], rest);
        assert forall part | part in rest[1..] :: part in rest;
      }
    }
  }

  lemma {:induction false} JoinPrepend(b: byte, rest: seq<Name>)
    requires rest != []
    ensures Join([[b] + rest[0]] + rest[1..]) == [b] + Join(rest)
  {
    var parts := [[b] + rest[0]] + rest[1..];
    assert parts[1..] == rest[1..];
  }

  lemma {:induction false} NonEmptyKeeps(parts: seq<Name>)
    ensures forall name :: name in NonEmpty(parts) <==> name in parts && name != []
  {
    if parts != [] {
      NonEmptyKeeps(parts[1..]);
      assert parts == [parts[0]] + parts[1..];
    }
  }

  /** Every component is a legal name. */
  lemma ComponentsLegal(path: seq<byte>)
    ensures forall name | name in Components(path) :: Legal(name)
  {
    JoinOfSplit(path);
    NonEmptyKeeps(Split(path));
  }

  lemma {:induction false} SplitOne(name: Name)
    requires SLASH !in name
    ensures Split(name) == [name]
  {
    if name != [] {
      SplitOne(name[1..]);
      assert name == [name[0]] + name[1..];
    }
  }

  /** Every list of legal names is the component list of the path that joins them. */
  lemma {:induction false} ComponentsRoundTrip(parts: seq<Name>)
    requires parts != [] && forall name | name in parts :: Legal(name)
    ensures Components(Join(parts)) == parts
  {
    assert parts[0] in parts && Legal(parts[0]);
    SplitOne(parts[0]);
    assert NonEmpty([parts[0]]) == [parts[0]];
    if |parts| == 1 {
      assert parts == [parts[0]];
    } else {
      ComponentsOfJoin(parts[0], Join(parts[1..]));
      ComponentsRoundTrip(parts[1..]);
    }
  }
}
