/** The file tree the export step works on: a directory maps names to files
    and subdirectories; a path is the sequence of names from the root. */
module FsTree {
  import opened Outcomes

  datatype Node = File(content: seq<int>) | Dir(entries: map<string, Node>)

  type Path = seq<string>

  /** `p` is `q` or an ancestor of `q`. */
  predicate IsPrefix(p: Path, q: Path)
  {
    |p| <= |q| && q[..|p|] == p
  }

  /** Neither path lies inside the other. */
  predicate Disjoint(p: Path, q: Path)
  {
    !IsPrefix(p, q) && !IsPrefix(q, p)
  }

  /** The node at `p`, if every step of `p` exists. */
  function Get(n: Node, p: Path): Option<Node>
    decreases |p|
  {
    if p == [] then Some(n)
    else if n.Dir? && p[0] in n.entries then Get(n.entries[p[0]], p[1..])
    else None
  }

  predicate IsDirAt(n: Node, p: Path)
  {
    Get(n, p).Some? && Get(n, p).value.Dir?
  }

  predicate IsFileAt(n: Node, p: Path)
  {
    Get(n, p).Some? && Get(n, p).value.File?
  }

  /** The entries of the directory at `p`. */
  function EntriesAt(n: Node, p: Path): map<string, Node>
    requires IsDirAt(n, p)
  {
    Get(n, p).value.entries
  }

  /** The tree with the node at the existing path `p` replaced by `m`. */
  function Put(n: Node, p: Path, m: Node): (r: Node)
    requires Get(n, p).Some?
    ensures Get(r, p) == Some(m)
    ensures p != [] ==> r.Dir?
    decreases |p|
  {
    if p == [] then m
    else
      assert p == [p[0]] + p[1..];
      Dir(n.entries[p[0] := Put(n.entries[p[0]], p[1..], m)])
  }

  /** Replacing a child of the directory at `p` is replacing that
      directory by one whose entry for the child changed. */
  lemma {:induction false} PutChild(n: Node, p: Path, x: string, m: Node)
    requires IsDirAt(n, p) && x in EntriesAt(n, p)
    ensures Get(n, p + [x]).Some?
    ensures Put(n, p + [x], m) == Put(n, p, Dir(EntriesAt(n, p)[x := m]))
    decreases |p|
  {
    if p == [] {
      assert [] + [x] == [x];
    } else {
      assert (p + [x])[1..] == p[1..] + [x];
      PutChild(n.entries[p[0]], p[1..], x, m);
    }
  }

  /** A later replacement at the same path wins. */
  lemma {:induction false} PutPut(n: Node, p: Path, a: Node, b: Node)
    requires Get(n, p).Some?
    ensures Put(Put(n, p, a), p, b) == Put(n, p, b)
    decreases |p|
  {
    if p != [] {
      PutPut(n.entries[p[0]], p[1..], a, b);
    }
  }

  /** Putting back what is there changes nothing. */
  lemma {:induction false} PutGet(n: Node, p: Path)
    requires Get(n, p).Some?
    ensures Put(n, p, Get(n, p).value) == n
    decreases |p|
  {
    if p != [] {
      PutGet(n.entries[p[0]], p[1..]);
      assert n.entries[p[0] := n.entries[p[0]]] == n.entries;
    }
  }

  /** A replacement at `p` leaves every path outside `p`'s subtree and
      ancestry as it was. */
  lemma {:induction false} GetPutDisjoint(n: Node, p: Path, m: Node, q: Path)
    requires Get(n, p).Some? && Disjoint(p, q)
    ensures Get(Put(n, p, m), q) == Get(n, q)
    decreases |p|
  {
    assert p != [] && q != [];
    if p[0] == q[0] {
      GetPutDisjoint(n.entries[p[0]], p[1..], m, q[1..]);
    }
  }

  /** The node named `name` in the directory at `dir`. */
  lemma {:induction false} ChildOfDir(n: Node, dir: Path, name: string)
    requires IsDirAt(n, dir)
    ensures Get(n, dir + [name]) == if name in EntriesAt(n, dir) then Some(EntriesAt(n, dir)[name]) else None
    decreases |dir|
  {
    if dir != [] {
      assert (dir + [name])[1..] == dir[1..] + [name];
      ChildOfDir(n.entries[dir[0]], dir[1..], name);
    }
  }

  /** Nothing lies below a path that is not a directory. */
  lemma {:induction false} GetBelowFile(n: Node, dir: Path, name: string)
    requires !IsDirAt(n, dir)
    ensures Get(n, dir + [name]).None?
    decreases |dir|
  {
    if dir != [] && n.Dir? && dir[0] in n.entries {
      assert (dir + [name])[1..] == dir[1..] + [name];
      GetBelowFile(n.entries[dir[0]], dir[1..], name);
    }
  }

  /** Replacing the directory at `dir` and then one of its entries is one
      replacement of the directory. */
  lemma {:induction false} PutBelow(n: Node, dir: Path, cur: map<string, Node>, x: string, m: Node)
    requires Get(n, dir).Some? && x in cur
    ensures Get(Put(n, dir, Dir(cur)), dir + [x]) == Some(cur[x])
    ensures Put(Put(n, dir, Dir(cur)), dir + [x], m) == Put(n, dir, Dir(cur[x := m]))
  {
    var r := Put(n, dir, Dir(cur));
    ChildOfDir(r, dir, x);
    PutChild(r, dir, x, m);
    PutPut(n, dir, Dir(cur), Dir(cur[x := m]));
  }

  /** Every proper ancestor of an existing path is a directory; in
      particular its parent. */
  lemma {:induction false} ParentIsDir(n: Node, p: Path)
    requires p != [] && Get(n, p).Some?
    ensures IsDirAt(n, p[..|p| - 1])
    decreases |p|
  {
    if |p| > 1 {
      ParentIsDir(n.entries[p[0]], p[1..]);
      assert p[1..][..|p| - 2] == p[..|p| - 1][1..];
    }
  }

  /** Removing the entry `name` of the directory at `dir` leaves every path
      through a sibling entry as it was. */
  lemma {:induction false} GetPutWithout(n: Node, dir: Path, name: string, q: Path)
    requires IsDirAt(n, dir) && IsPrefix(dir, q) && |q| > |dir| && q[|dir|] != name
    ensures Get(Put(n, dir, Dir(EntriesAt(n, dir) - {name})), q) == Get(n, q)
    decreases |dir|
  {
    if dir != [] {
      GetPutWithout(n.entries[dir[0]], dir[1..], name, q[1..]);
    }
  }

  /** Replacing the entry `name` of the directory at `dir` and then removing
      it is removing it. */
  lemma {:induction false} RemoveAfterPut(n: Node, dir: Path, name: string, m: Node)
    requires IsDirAt(n, dir) && name in EntriesAt(n, dir)
    ensures Get(n, dir + [name]).Some?
    ensures IsDirAt(Put(n, dir + [name], m), dir)
    ensures var r := Put(n, dir + [name], m);
      Put(r, dir, Dir(EntriesAt(r, dir) - {name})) == Put(n, dir, Dir(EntriesAt(n, dir) - {name}))
  {
    var e := EntriesAt(n, dir);
    PutChild(n, dir, name, m);
    assert e[name := m] - {name} == e - {name};
    PutPut(n, dir, Dir(e[name := m]), Dir(e - {name}));
  }

  /** Every proper ancestor of a replaced path is still a directory. */
  lemma {:induction false} PutKeepsAncestors(n: Node, p: Path, m: Node, q: Path)
    requires Get(n, p).Some? && IsPrefix(q, p) && |q| < |p|
    ensures IsDirAt(Put(n, p, m), q)
    decreases |q|
  {
    if q != [] {
      PutKeepsAncestors(n.entries[p[0]], p[1..], m, q[1..]);
    }
  }
}
