/**
 The shape of the node graph over every run, and what each path resolves to after `add_file` and
 `mkdir_at`.
 */
module RamFsTree {
  import opened Common
  import opened Paths
  import opened RamFs

  // ---- Birth paths ----

  /** The path a node was made at: fixed once and for all, also for nodes detached later. */
  ghost function Birth(t: Tree, n: NodeId): seq<Name>
    requires Forest(t) && n < |t.nodes|
  {
    if n == ROOT then [] else Birth(t, t.made[n].dir) + [t.made[n].name]
  }

  /** `n` is `top` or was made somewhere below it. */
  ghost predicate Below(t: Tree, n: NodeId, top: NodeId)
    requires Forest(t) && n < |t.nodes|
  {
    n == top || (n != ROOT && Below(t, t.made[n].dir, top))
  }

  lemma {:induction false} BelowTransitive(t: Tree, n: NodeId, mid: NodeId, top: NodeId)
    requires Forest(t) && n < |t.nodes| && mid < |t.nodes|
    requires Below(t, n, mid) && Below(t, mid, top)
    ensures Below(t, n, top)
  {
    if n != mid {
      BelowTransitive(t, t.made[n].dir, mid, top);
    }
  }

  /** A node below `top` was made at an extension of `top`'s path, and is not older than it. */
  lemma {:induction false} BelowExtendsBirth(t: Tree, n: NodeId, top: NodeId)
    requires Forest(t) && n < |t.nodes| && top < |t.nodes| && Below(t, n, top)
    ensures top <= n && Birth(t, top) <= Birth(t, n)
  {
    if n != top {
      BelowExtendsBirth(t, t.made[n].dir, top);
    }
  }

  /** Walking only goes down, and spells out birth paths. */
  lemma {:induction false} WalkBirth(t: Tree, at: NodeId, parts: seq<Name>)
    requires Forest(t) && at < |t.nodes|
    ensures var r := Walk(t, at, parts);
            r.Some? ==> Below(t, r.value, at) && Birth(t, r.value) == Birth(t, at) + parts
    decreases |parts|
  {
    if parts != [] && t.nodes[at].Directory? && parts[0] in t.nodes[at].entries {
      var c := t.nodes[at].entries[parts[0]];
      assert t.made[c] == Edge(at, parts[0]);
      WalkBirth(t, c, parts[1..]);
      var r := Walk(t, c, parts[1..]);
      if r.Some? {
        assert Below(t, c, at);
        BelowTransitive(t, r.value, c, at);
        assert Birth(t, at) + [parts[0]] + parts[1..] == Birth(t, at) + parts;
      }
    }
  }

  /** A walk of at least one step never returns to where it started: there are no cycles. */
  lemma {:induction false} NoCycles(t: Tree, at: NodeId, parts: seq<Name>)
    requires Forest(t) && at < |t.nodes| && parts != []
    ensures Walk(t, at, parts) != Some(at)
  {
    WalkBirth(t, at, parts);
  }

  /** A node is an entry of at most one directory, under one name. */
  lemma OneParent(t: Tree, d1: NodeId, name1: Name, d2: NodeId, name2: Name)
    requires Forest(t) && d1 < |t.nodes| && d2 < |t.nodes|
    requires t.nodes[d1].Directory? && name1 in t.nodes[d1].entries
    requires t.nodes[d2].Directory? && name2 in t.nodes[d2].entries
    requires t.nodes[d1].entries[name1] == t.nodes[d2].entries[name2]
    ensures d1 == d2 && name1 == name2
  {
    assert t.made[t.nodes[d1].entries[name1]] == Edge(d1, name1);
  }

  // ---- What every operation keeps ----

  /**
   Later states extend earlier ones: file nodes keep their bytes, directories stay directories and
   lose no name, and no node is ever re-made elsewhere.
   */
  ghost predicate Extends(t: Tree, t': Tree) {
    && t.made <= t'.made
    && |t.nodes| <= |t'.nodes|
    && (forall n | 0 <= n < |t.nodes| ::
          match t.nodes[n]
          case File(_) => t'.nodes[n] == t.nodes[n]
          case Directory(m) => t'.nodes[n].Directory? && m.Keys <= t'.nodes[n].entries.Keys)
  }

  lemma ExtendsTransitive(t: Tree, t': Tree, t'': Tree)
    requires Extends(t, t') && Extends(t', t'')
    ensures Extends(t, t'')
  {
  }

  lemma InsertExtends(t: Tree, d: NodeId, name: Name, body: Node)
    requires Forest(t) && d < |t.nodes| && t.nodes[d].Directory? && FreshBody(body)
    ensures Extends(t, Insert(t, d, name, body))
  {
  }

  lemma {:induction false} AddExtends(t: Tree, at: NodeId, parts: seq<Name>, content: seq<byte>)
    requires Forest(t) && at < |t.nodes| && parts != []
    ensures Extends(t, AddAt(t, at, parts, content))
    decreases |parts|
  {
    if t.nodes[at].Directory? && |parts| > 1 {
      var m := t.nodes[at].entries;
      if parts[0] in m {
        AddExtends(t, m[parts[0]], parts[1..], content);
      } else {
        var t1 := Insert(t, at, parts[0], EMPTY_DIR);
        InsertExtends(t, at, parts[0], EMPTY_DIR);
        AddExtends(t1, |t.nodes|, parts[1..], content);
        ExtendsTransitive(t, t1, AddAt(t, at, parts, content));
      }
    }
  }

  lemma MkdirExtends(fs: Fs, base: Handle, path: seq<byte>)
    requires Valid(fs)
    ensures Extends(fs.tree, MkdirAt(fs, base, path).0.tree)
  {
    var (fs', r) := MkdirAt(fs, base, path);
    if r.Ok? {
      var parts := Components(path);
      var d := Walk(fs.tree, Base(fs, base).value, parts[..|parts| - 1]).value;
      InsertExtends(fs.tree, d, parts[|parts| - 1], EMPTY_DIR);
    } else {
      assert fs' == fs;
    }
  }

  lemma ApplyExtends(fs: Fs, op: Op)
    requires Valid(fs)
    ensures Extends(fs.tree, Apply(fs, op).tree)
  {
    match op
    case OpAddFile(path, content) =>
      if Components(path) != [] {
        AddExtends(fs.tree, ROOT, Components(path), content);
      }
    case OpMkdirAt(base, path) =>
      MkdirExtends(fs, base, path);
    case OpOpen(_) =>
    case OpOpenAt(_, _) =>
    case OpClose(_) =>
  }

  lemma {:induction false} RunExtends(fs: Fs, ops: seq<Op>)
    requires Valid(fs)
    ensures Extends(fs.tree, Run(fs, ops).tree)
    decreases |ops|
  {
    if ops != [] {
      ApplyExtends(fs, ops[0]);
      RunExtends(Apply(fs, ops[0]), ops[1..]);
      ExtendsTransitive(fs.tree, Apply(fs, ops[0]).tree, Run(fs, ops).tree);
    }
  }

  lemma {:induction false} ExtendsKeepsBirth(t: Tree, t': Tree, n: NodeId)
    requires Forest(t) && Forest(t') && Extends(t, t') && n < |t.nodes|
    ensures Birth(t', n) == Birth(t, n)
  {
    assert t'.made[n] == t.made[n];
    if n != ROOT {
      ExtendsKeepsBirth(t, t', t.made[n].dir);
    }
  }

  lemma {:induction false} ExtendsKeepsBelow(t: Tree, t': Tree, n: NodeId, top: NodeId)
    requires Forest(t) && Forest(t') && Extends(t, t') && n < |t.nodes|
    ensures Below(t', n, top) == Below(t, n, top)
  {
    assert t'.made[n] == t.made[n];
    if n != ROOT {
      ExtendsKeepsBelow(t, t', t.made[n].dir, top);
    }
  }

  /**
   Every run keeps the graph a forest in which each node keeps its birth path: whatever a path leads
   to, from any node and after any run, was made at exactly that path.
   */
  lemma {:induction false} RunKeepsForest(fs: Fs, ops: seq<Op>, at: NodeId, parts: seq<Name>)
    requires Valid(fs) && at < |fs.tree.nodes|
    ensures var t' := Run(fs, ops).tree;
            && Forest(t')
            && Birth(t', at) == Birth(fs.tree, at)
            && (parts != [] ==> Walk(t', at, parts) != Some(at))
            && (Walk(t', at, parts).Some? ==> Birth(t', Walk(t', at, parts).value) == Birth(fs.tree, at) + parts)
  {
    var t' := Run(fs, ops).tree;
    RunExtends(fs, ops);
    ExtendsKeepsBirth(fs.tree, t', at);
    WalkBirth(t', at, parts);
    if parts != [] {
      NoCycles(t', at, parts);
    }
  }

  // ---- Composition ----

  /** Walking `p + q` is walking `p` and then `q`. */
  lemma {:induction false} WalkConcat(t: Tree, at: NodeId, p: seq<Name>, q: seq<Name>)
    requires Forest(t) && at < |t.nodes|
    ensures Walk(t, at, p + q) ==
            match Walk(t, at, p) { case None => None case Some(n) => Walk(t, n, q) }
    decreases |p|
  {
    if p == [] {
      assert p + q == q;
    } else {
      assert (p + q)[1..] == p[1..] + q;
      if t.nodes[at].Directory? && p[0] in t.nodes[at].entries {
        WalkConcat(t, t.nodes[at].entries[p[0]], p[1..], q);
      }
    }
  }

  /**
   `open(p)` and then `open_at(h, q)` binds the node that `open` of the joined path binds, and fails
   with the same error when that fails.
   */
  lemma OpenComposes(fs: Fs, p: seq<byte>, q: seq<byte>)
    requires Valid(fs)
    ensures var (fs1, r1) := Open(fs, p);
            var (fs2, joined) := Open(fs, p + [SLASH] + q);
            match r1
            case Err(e) => joined == Err(e)
            case Ok(h) =>
              var (fs3, r3) := OpenAt(fs1, h, q);
              match r3
              case Err(e) => joined == Err(e)
              case Ok(h3) => joined.Ok? && fs3.handles[h3] == fs2.handles[joined.value]
  {
    ComponentsOfJoin(p, q);
    WalkConcat(fs.tree, ROOT, Components(p), Components(q));
  }

  // ---- What an insertion changes ----

  /** A walk that takes the new edge ends at the fresh node, or nowhere. */
  lemma {:induction false} InsertTaken(t: Tree, d: NodeId, name: Name, body: Node, at: NodeId, q: seq<Name>, k: nat)
    requires Forest(t) && d < |t.nodes| && t.nodes[d].Directory? && FreshBody(body) && at < |t.nodes|
    requires k < |q| && Walk(t, at, q[..k]) == Some(d) && q[k] == name
    ensures Walk(Insert(t, d, name, body), at, q) == if k + 1 == |q| then Some(|t.nodes|) else None
    decreases |q|
  {
    var t' := Insert(t, d, name, body);
    if k == 0 {
      assert q[..0] == [] && Walk(t', at, q) == Walk(t', |t.nodes|, q[1..]);
    } else {
      assert q[..k][1..] == q[1..][..k - 1];
      var c := t.nodes[at].entries[q[0]];
      WalkBirth(t, c, q[1..][..k - 1]);
      BelowExtendsBirth(t, d, c);
      assert t.made[c] == Edge(at, q[0]) && at < c;
      InsertTaken(t, d, name, body, c, q[1..], k - 1);
    }
  }

  /** A walk that does not take the new edge is unchanged. */
  lemma {:induction false} InsertAvoided(t: Tree, d: NodeId, name: Name, body: Node, at: NodeId, q: seq<Name>)
    requires Forest(t) && d < |t.nodes| && t.nodes[d].Directory? && FreshBody(body) && at < |t.nodes|
    requires forall k | 0 <= k < |q| :: Walk(t, at, q[..k]) != Some(d) || q[k] != name
    ensures Walk(Insert(t, d, name, body), at, q) == Walk(t, at, q)
    decreases |q|
  {
    if q != [] {
      assert q[..0] == [];
      if t.nodes[at].Directory? && q[0] in t.nodes[at].entries {
        var c := t.nodes[at].entries[q[0]];
        forall k | 0 <= k < |q[1..]|
          ensures Walk(t, c, q[1..][..k]) != Some(d) || q[1..][k] != name
        {
          assert q[..k + 1][1..] == q[1..][..k];
          assert Walk(t, at, q[..k + 1]) == Walk(t, c, q[1..][..k]);
        }
        InsertAvoided(t, d, name, body, c, q[1..]);
        assert (at, q[0]) != (d, name);
      }
    }
  }

  lemma ConcatCancels<T>(a: seq<T>, b: seq<T>, c: seq<T>)
    requires a + b == a + c
    ensures b == c
  {
    assert b == (a + b)[|a|..];
  }

  /** The exact effect of one insertion at path `p + [name]` below `at`, for every path `q`. */
  lemma {:induction false} InsertResolves(t: Tree, at: NodeId, p: seq<Name>, d: NodeId, name: Name, body: Node,
                                          q: seq<Name>)
    requires Forest(t) && at < |t.nodes| && d < |t.nodes| && t.nodes[d].Directory? && FreshBody(body)
    requires Walk(t, at, p) == Some(d)
    ensures Walk(Insert(t, d, name, body), at, q) ==
            if q == p + [name] then Some(|t.nodes|)
            else if p + [name] <= q then None
            else Walk(t, at, q)
  {
    if p + [name] <= q {
      assert q[..|p|] == p && q[|p|] == (p + [name])[|p|];
      InsertTaken(t, d, name, body, at, q, |p|);
      assert |q| == |p| + 1 ==> q == p + [name];
    } else {
      forall k | 0 <= k < |q|
        ensures Walk(t, at, q[..k]) != Some(d) || q[k] != name
      {
        if Walk(t, at, q[..k]) == Some(d) && q[k] == name {
          WalkBirth(t, at, q[..k]);
          WalkBirth(t, at, p);
          ConcatCancels(Birth(t, at), q[..k], p);
        }
      }
      InsertAvoided(t, d, name, body, at, q);
    }
  }

  // ---- add_file ----

  /** A proper prefix of `parts` leads to a file. */
  predicate Blocked(t: Tree, at: NodeId, parts: seq<Name>)
    requires Forest(t) && at < |t.nodes|
    decreases |parts|
  {
    parts != [] &&
    match t.nodes[at]
    case File(_) => true
    case Directory(m) => parts[0] in m && Blocked(t, m[parts[0]], parts[1..])
  }

  lemma {:induction false} BlockedByPrefix(t: Tree, at: NodeId, parts: seq<Name>)
    requires Forest(t) && at < |t.nodes|
    ensures Blocked(t, at, parts) <==>
            exists k | 0 <= k < |parts| :: Walk(t, at, parts[..k]).Some? && t.nodes[Walk(t, at, parts[..k]).value].File?
    decreases |parts|
  {
    if parts != [] {
      assert parts[..0] == [];
      if t.nodes[at].File? {
        assert Walk(t, at, parts[..0]) == Some(at);
      } else {
        var m := t.nodes[at].entries;
        forall k | 0 < k < |parts|
          ensures Walk(t, at, parts[..k]) ==
                  if parts[0] in m then Walk(t, m[parts[0]], parts[1..][..k - 1]) else None
        {
          assert parts[..k][1..] == parts[1..][..k - 1];
        }
        if parts[0] in m {
          BlockedByPrefix(t, m[parts[0]], parts[1..]);
          if Blocked(t, at, parts) {
            var k :| 0 <= k < |parts[1..]| && Walk(t, m[parts[0]], parts[1..][..k]).Some?
                     && t.nodes[Walk(t, m[parts[0]], parts[1..][..k]).value].File?;
            assert Walk(t, at, parts[..k + 1]) == Walk(t, m[parts[0]], parts[1..][..k]);
          }
        }
      }
    }
  }

  /** What path `q` resolves to in `t'`, after a file was added at `p` in `t` below node `at`. */
  ghost predicate Added(t: Tree, t': Tree, at: NodeId, p: seq<Name>, content: seq<byte>, q: seq<Name>)
    requires Forest(t) && Forest(t') && at < |t.nodes| <= |t'.nodes|
  {
    var before, after := Walk(t, at, q), Walk(t', at, q);
    if q == p then
      after.Some? && after.value >= |t.nodes| && t'.nodes[after.value] == File(content)
    else if p <= q then
      after.None?
    else if q <= p then
      && after.Some?
      && t'.nodes[after.value].Directory?
      && (if before.Some? then after == before else after.value >= |t.nodes|)
    else
      after == before
  }

  lemma {:induction false} PrefixWalk(t: Tree, at: NodeId, p: seq<Name>, q: seq<Name>)
    requires Forest(t) && at < |t.nodes| && Walk(t, at, p).Some? && q <= p
    ensures Walk(t, at, q).Some?
    ensures q < p ==> t.nodes[Walk(t, at, q).value].Directory?
  {
    assert p == q + p[|q|..];
    WalkConcat(t, at, q, p[|q|..]);
  }

  lemma {:induction false} AddLast(t: Tree, at: NodeId, p: seq<Name>, d: NodeId, name: Name, content: seq<byte>,
                                   q: seq<Name>)
    requires Forest(t) && at < |t.nodes| && d < |t.nodes| && t.nodes[d].Directory? && Walk(t, at, p) == Some(d)
    ensures Added(t, Insert(t, d, name, File(content)), at, p + [name], content, q)
  {
    InsertResolves(t, at, p, d, name, File(content), q);
    if q <= p + [name] && q != p + [name] {
      assert q <= p;
      PrefixWalk(t, at, p, q);
      assert q == p ==> Walk(t, at, q) == Some(d);
    }
  }

  lemma {:induction false} AddFrom(t: Tree, at: NodeId, p: seq<Name>, d: NodeId, parts: seq<Name>,
                                   content: seq<byte>, q: seq<Name>)
    requires Forest(t) && at < |t.nodes| && d < |t.nodes| && parts != []
    requires Walk(t, at, p) == Some(d) && !Blocked(t, d, parts)
    ensures Added(t, AddAt(t, d, parts, content), at, p + parts, content, q)
    decreases |parts|
  {
    var name, rest := parts[0], parts[1..];
    var m := t.nodes[d].entries;
    if |parts| == 1 {
      assert parts == [name];
      AddLast(t, at, p, d, name, content, q);
    } else if name in m {
      WalkConcat(t, at, p, [name]);
      assert p + parts == p + [name] + rest;
      AddFrom(t, at, p + [name], m[name], rest, content, q);
    } else {
      AddThroughNew(t, at, p, d, parts, content, q);
    }
  }

  /** The case of `AddFrom` in which the next directory has to be created. */
  lemma {:induction false} AddThroughNew(t: Tree, at: NodeId, p: seq<Name>, d: NodeId, parts: seq<Name>,
                                         content: seq<byte>, q: seq<Name>)
    requires Forest(t) && at < |t.nodes| && d < |t.nodes| && |parts| > 1
    requires Walk(t, at, p) == Some(d) && t.nodes[d].Directory? && parts[0] !in t.nodes[d].entries
    ensures Added(t, AddAt(t, d, parts, content), at, p + parts, content, q)
    decreases |parts|, 1
  {
    var name, rest := parts[0], parts[1..];
    assert p + parts == p + [name] + rest;
    assert Walk(t, at, p + [name]).None? by {
      WalkConcat(t, at, p, [name]);
    }
    InsertResolves(t, at, p, d, name, EMPTY_DIR, q);
    NewDirectory(t, at, p, d, name, rest);
    AddVia(t, Insert(t, d, name, EMPTY_DIR), at, p, name, rest, content, q);
  }

  lemma {:induction false} AddVia(t: Tree, t1: Tree, at: NodeId, p: seq<Name>, name: Name, rest: seq<Name>,
                                  content: seq<byte>, q: seq<Name>)
    requires Forest(t) && Forest(t1) && at < |t.nodes| && |t1.nodes| == |t.nodes| + 1 && rest != []
    requires Walk(t, at, p).Some? && Walk(t, at, p + [name]).None?
    requires Walk(t1, at, p + [name]) == Some(|t.nodes|) && !Blocked(t1, |t.nodes|, rest)
    requires Walk(t1, at, q) == if q == p + [name] then Some(|t.nodes|)
                                else if p + [name] <= q then None else Walk(t, at, q)
    ensures Added(t, AddAt(t1, |t.nodes|, rest, content), at, p + [name] + rest, content, q)
    decreases |rest| + 1, 0
  {
    AddFrom(t1, at, p + [name], |t.nodes|, rest, content, q);
    AddedCompose(t, t1, AddAt(t1, |t.nodes|, rest, content), at, p, name, rest, content, q);
  }

  lemma {:induction false} NewDirectory(t: Tree, at: NodeId, p: seq<Name>, d: NodeId, name: Name, rest: seq<Name>)
    requires Forest(t) && at < |t.nodes| && d < |t.nodes| && t.nodes[d].Directory?
    requires Walk(t, at, p) == Some(d) && rest != []
    ensures var t1 := Insert(t, d, name, EMPTY_DIR);
            Walk(t1, at, p + [name]) == Some(|t.nodes|) && !Blocked(t1, |t.nodes|, rest)
  {
    InsertResolves(t, at, p, d, name, EMPTY_DIR, p + [name]);
    assert Insert(t, d, name, EMPTY_DIR).nodes[|t.nodes|] == EMPTY_DIR;
  }

  lemma {:induction false} AddedCompose(t: Tree, t1: Tree, t': Tree, at: NodeId, p: seq<Name>, name: Name, rest: seq<Name>,
                     content: seq<byte>, q: seq<Name>)
    requires Forest(t) && Forest(t1) && Forest(t') && at < |t.nodes| < |t1.nodes| <= |t'.nodes|
    requires rest != [] && Walk(t, at, p).Some? && Walk(t, at, p + [name]).None?
    requires Walk(t1, at, q) == if q == p + [name] then Some(|t.nodes|)
                                else if p + [name] <= q then None else Walk(t, at, q)
    requires Added(t1, t', at, p + [name] + rest, content, q)
    ensures Added(t, t', at, p + [name] + rest, content, q)
  {
    if p + [name] <= q && Walk(t, at, q).Some? {
      PrefixWalk(t, at, q, p + [name]);
    } else if q <= p + [name] + rest && !(p + [name] <= q) {
      assert q <= p;
      PrefixWalk(t, at, p, q);
    }
  }

  /**
   `add_file` is all or nothing, and its effect is exact. When a proper prefix of the path is a file
   nothing changes. Otherwise the path resolves to the new content, its proper prefixes to
   directories (the old ones where they existed), its strict extensions to nothing, and every other
   path to what it resolved to before.
   */
  lemma AddFileExact(fs: Fs, path: seq<byte>, content: seq<byte>, q: seq<Name>)
    requires Valid(fs)
    ensures var p, fs' := Components(path), AddFile(fs, path, content);
            && fs' == fs.(tree := fs'.tree)
            && (if p == [] || Blocked(fs.tree, ROOT, p) then fs' == fs
                else Added(fs.tree, fs'.tree, ROOT, p, content, q))
  {
    var p := Components(path);
    if p == [] {
    } else if Blocked(fs.tree, ROOT, p) {
      BlockedAddsNothing(fs.tree, ROOT, p, content);
    } else {
      assert [] + p == p;
      AddFrom(fs.tree, ROOT, [], ROOT, p, content, q);
    }
  }

  lemma {:induction false} BlockedAddsNothing(t: Tree, at: NodeId, parts: seq<Name>, content: seq<byte>)
    requires Forest(t) && at < |t.nodes| && Blocked(t, at, parts)
    ensures AddAt(t, at, parts, content) == t
    decreases |parts|
  {
    if t.nodes[at].Directory? {
      BlockedAddsNothing(t, t.nodes[at].entries[parts[0]], parts[1..], content);
    }
  }

  // ---- mkdir_at ----

  /**
   `mkdir_at` succeeds exactly when the base is open, the parent is a directory and the name is
   free; on an error nothing changes, and on success only the tree does.
   */
  lemma MkdirAtSucceeds(fs: Fs, base: Handle, path: seq<byte>)
    requires Valid(fs)
    ensures var (fs', r) := MkdirAt(fs, base, path);
            var p, b := Components(path), Base(fs, base);
            && (r.Ok? <==>
                && p != [] && b.Some?
                && Walk(fs.tree, b.value, p[..|p| - 1]).Some?
                && fs.tree.nodes[Walk(fs.tree, b.value, p[..|p| - 1]).value].Directory?
                && Walk(fs.tree, b.value, p).None?)
            && fs' == fs.(tree := fs'.tree)
            && (r.Err? ==> fs' == fs)
  {
    var p, b := Components(path), Base(fs, base);
    if p != [] && b.Some? {
      var parent, dirname := p[..|p| - 1], p[|p| - 1];
      assert p == parent + [dirname];
      WalkConcat(fs.tree, b.value, parent, [dirname]);
      var d := Walk(fs.tree, b.value, parent);
      if d.Some? && fs.tree.nodes[d.value].Directory? {
        var m := fs.tree.nodes[d.value].entries;
        assert Walk(fs.tree, d.value, [dirname]) == if dirname in m then Some(m[dirname]) else None;
      }
    }
  }

  /**
   After a successful `mkdir_at` the path leads to a fresh empty directory, and every other path
   below the base leads where it led before.
   */
  lemma {:induction false} MkdirAtExact(fs: Fs, base: Handle, path: seq<byte>, q: seq<Name>)
    requires Valid(fs) && MkdirAt(fs, base, path).1.Ok?
    ensures var fs' := MkdirAt(fs, base, path).0;
            var p, b := Components(path), Base(fs, base).value;
            && Forest(fs'.tree)
            && fs'.tree.nodes[|fs.tree.nodes|..] == [EMPTY_DIR]
            && Walk(fs'.tree, b, q) == if q == p then Some(|fs.tree.nodes|) else Walk(fs.tree, b, q)
  {
    var p, b := Components(path), Base(fs, base).value;
    var parent, dirname := p[..|p| - 1], p[|p| - 1];
    assert p == parent + [dirname];
    InsertResolves(fs.tree, b, parent, Walk(fs.tree, b, parent).value, dirname, EMPTY_DIR, q);
    MkdirAtSucceeds(fs, base, path);
    if p <= q && Walk(fs.tree, b, q).Some? {
      PrefixWalk(fs.tree, b, q, p);
    }
  }
}
