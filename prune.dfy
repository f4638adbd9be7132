/** The first phase of `process_files_after_export`: the nested
    `preprocess(directory)`, which deletes every file whose name does not end
    in `.tflite` and removes every subdirectory, recursively. */
module Prune {
  import opened Outcomes
  import opened FsTree
  import opened Text
  import opened FileSystem

  /** `name.endswith(".tflite")`. */
  predicate IsTflite(name: string)
  {
    EndsWith(name, ".tflite")
  }

  /** A `.tflite` name is some base followed by `.tflite`, and every such
      name is one. */
  lemma {:induction false} TfliteName(name: string, base: string)
    ensures IsTflite(name) <==> |name| >= 7 && name == name[..|name| - 7] + ".tflite"
    ensures IsTflite(base + ".tflite")
  {
    assert (base + ".tflite")[|base|..] == ".tflite";
  }

  /** Some file at some depth inside `n` has a `.tflite` name. */
  predicate HoldsTflite(n: Node)
    decreases n
  {
    n.Dir? && exists x :: x in n.entries && ((n.entries[x].File? && IsTflite(x)) || HoldsTflite(n.entries[x]))
  }

  /** A directory with entries `e` has a `.tflite` file at its top level. */
  predicate TopTflite(e: map<string, Node>)
  {
    exists x :: x in e && e[x].File? && IsTflite(x)
  }

  /** Some subdirectory of a directory with entries `e` holds a `.tflite`
      file at some depth. */
  predicate NestedTflite(e: map<string, Node>)
  {
    exists x :: x in e && e[x].Dir? && HoldsTflite(e[x])
  }

  /** What a successful prune leaves of a directory with entries `e`. */
  function Pruned(e: map<string, Node>): (r: map<string, Node>)
    ensures forall x :: x in r ==> x in e && r[x] == e[x] && r[x].File? && IsTflite(x)
    ensures forall x :: x in e && e[x].File? && IsTflite(x) ==> x in r
    ensures r == map[] <==> !TopTflite(e)
  {
    var r := map x | x in e && e[x].File? && IsTflite(x) :: e[x];
    assert TopTflite(e) ==> r != map[] by {
      if TopTflite(e) {
        var x :| x in e && e[x].File? && IsTflite(x);
        assert x in r;
      }
    }
    r
  }

  /** The entries of the directory while the loop has still to visit `todo`. */
  function Kept(e: map<string, Node>, todo: set<string>): map<string, Node>
  {
    map x | x in e && (x in todo || (e[x].File? && IsTflite(x))) :: e[x]
  }

  /** What the loop of `preprocess` keeps, from the tree `root0` it started
      on, while `todo` is left: the directory holds its unvisited entries
      and its `.tflite` files, and no visited subdirectory held a `.tflite`
      file. */
  ghost predicate PruneLoop(root: Node, root0: Node, dir: Path, todo: set<string>)
  {
    IsDirAt(root0, dir)
    && var e0 := EntriesAt(root0, dir);
    && todo <= e0.Keys
    && root == Put(root0, dir, Dir(Kept(e0, todo)))
    && forall x :: x in e0 && x !in todo && e0[x].Dir? ==> !HoldsTflite(e0[x])
  }

  /** The loop starts with every name of `dir` to visit. */
  lemma {:induction false} PruneLoopStart(root0: Node, dir: Path)
    requires IsDirAt(root0, dir)
    ensures PruneLoop(root0, root0, dir, EntriesAt(root0, dir).Keys)
  {
    assert Kept(EntriesAt(root0, dir), EntriesAt(root0, dir).Keys) == EntriesAt(root0, dir);
    PutGet(root0, dir);
  }

  /** The next name to visit is still there, unchanged. */
  lemma {:induction false} PruneLoopChild(cur: Node, root0: Node, dir: Path, todo: set<string>, x: string)
    requires PruneLoop(cur, root0, dir, todo) && x in todo
    ensures x in EntriesAt(root0, dir) && Get(cur, dir + [x]) == Some(EntriesAt(root0, dir)[x])
    ensures IsDirAt(cur, dir) && cur == Put(root0, dir, Get(cur, dir).value)
  {
    var k := Kept(EntriesAt(root0, dir), todo);
    PutBelow(root0, dir, k, x, k[x]);
  }

  /** A subdirectory of a directory with entries `e` that holds a `.tflite`
      file at any depth makes `e` hold one below its top level. */
  lemma {:induction false} NestedBelow(e: map<string, Node>, x: string)
    requires x in e && e[x].Dir? && (TopTflite(e[x].entries) || NestedTflite(e[x].entries))
    ensures NestedTflite(e)
  {
    if TopTflite(e[x].entries) {
      var y :| y in e[x].entries && e[x].entries[y].File? && IsTflite(y);
      assert HoldsTflite(e[x]);
    } else {
      var y :| y in e[x].entries && e[x].entries[y].Dir? && HoldsTflite(e[x].entries[y]);
      assert HoldsTflite(e[x]);
    }
  }

  /** A directory with no `.tflite` file at its top level and none in a
      subdirectory holds none at any depth. */
  lemma {:induction false} NothingBelow(n: Node)
    requires n.Dir? && !TopTflite(n.entries) && !NestedTflite(n.entries)
    ensures !HoldsTflite(n)
  {
    forall y | y in n.entries
      ensures !(n.entries[y].File? && IsTflite(y)) && !HoldsTflite(n.entries[y])
    {
      assert n.entries[y].Dir? ==> !HoldsTflite(n.entries[y]);
    }
  }

  /** The recursive call raised: the directory is as the loop left it but
      for the subtree at `x`, and it held a nested `.tflite` file. */
  lemma {:induction false} PruneSubFailed(cur: Node, next: Node, root0: Node, dir: Path, todo: set<string>, x: string)
    requires PruneLoop(cur, root0, dir, todo) && x in todo && IsDirAt(cur, dir + [x])
    requires Get(next, dir + [x]).Some? && next == Put(cur, dir + [x], Get(next, dir + [x]).value)
    requires NestedTflite(EntriesAt(cur, dir + [x]))
    ensures IsDirAt(next, dir) && next == Put(root0, dir, Get(next, dir).value)
    ensures NestedTflite(EntriesAt(root0, dir))
  {
    var k := Kept(EntriesAt(root0, dir), todo);
    PutBelow(root0, dir, k, x, Get(next, dir + [x]).value);
    NestedBelow(EntriesAt(root0, dir), x);
  }

  /** The recursive call returned: the subdirectory at `x` now holds its own
      `.tflite` files. `os.rmdir` then fails exactly when there are some,
      and otherwise removing `x` keeps the loop's invariant. */
  lemma {:induction false} PruneSubDone(cur: Node, mid: Node, root0: Node, dir: Path, todo: set<string>, x: string)
    requires PruneLoop(cur, root0, dir, todo) && x in todo && IsDirAt(cur, dir + [x])
    requires !NestedTflite(EntriesAt(cur, dir + [x]))
    requires mid == Put(cur, dir + [x], Dir(Pruned(EntriesAt(cur, dir + [x]))))
    ensures IsDirAt(mid, dir + [x]) && IsDirAt(mid, dir) && mid == Put(root0, dir, Get(mid, dir).value)
    ensures EntriesAt(mid, dir + [x]) != map[] ==> NestedTflite(EntriesAt(root0, dir))
    ensures EntriesAt(mid, dir + [x]) == map[] ==>
      PruneLoop(Put(mid, dir, Dir(EntriesAt(mid, dir) - {x})), root0, dir, todo - {x})
  {
    PruneLoopChild(cur, root0, dir, todo, x);
    var e0 := EntriesAt(root0, dir);
    var k := Kept(e0, todo);
    var p := Pruned(e0[x].entries);
    PutBelow(root0, dir, k, x, Dir(p));
    assert EntriesAt(mid, dir) == k[x := Dir(p)];
    if p != map[] {
      NestedBelow(e0, x);
    } else {
      NothingBelow(e0[x]);
      assert k[x := Dir(p)] - {x} == Kept(e0, todo - {x});
      PutPut(root0, dir, Dir(k[x := Dir(p)]), Dir(Kept(e0, todo - {x})));
    }
  }

  /** Deleting a file without a `.tflite` name keeps the loop's invariant. */
  lemma {:induction false} PruneRemoveStep(cur: Node, root0: Node, dir: Path, todo: set<string>, x: string)
    requires PruneLoop(cur, root0, dir, todo) && x in todo && !IsDirAt(cur, dir + [x]) && !IsTflite(x)
    ensures IsFileAt(cur, dir + [x]) && IsDirAt(cur, dir)
    ensures PruneLoop(Put(cur, dir, Dir(EntriesAt(cur, dir) - {x})), root0, dir, todo - {x})
  {
    var k := Kept(EntriesAt(root0, dir), todo);
    PutBelow(root0, dir, k, x, k[x]);
    PutPut(root0, dir, Dir(k), Dir(k - {x}));
    assert k - {x} == Kept(EntriesAt(root0, dir), todo - {x});
  }

  /** Passing over a `.tflite` file keeps the loop's invariant. */
  lemma {:induction false} PruneKeepStep(cur: Node, root0: Node, dir: Path, todo: set<string>, x: string)
    requires PruneLoop(cur, root0, dir, todo) && x in todo && !IsDirAt(cur, dir + [x]) && IsTflite(x)
    ensures PruneLoop(cur, root0, dir, todo - {x})
  {
    var k := Kept(EntriesAt(root0, dir), todo);
    PutBelow(root0, dir, k, x, k[x]);
    assert k == Kept(EntriesAt(root0, dir), todo - {x});
  }

  /** Once every name is visited, the directory holds its `.tflite` files
      and no subdirectory held one. */
  lemma {:induction false} PruneLoopEnd(root: Node, root0: Node, dir: Path)
    requires PruneLoop(root, root0, dir, {})
    ensures root == Put(root0, dir, Dir(Pruned(EntriesAt(root0, dir))))
    ensures !NestedTflite(EntriesAt(root0, dir))
    ensures IsDirAt(root, dir) && root == Put(root0, dir, Get(root, dir).value)
  {
    assert Kept(EntriesAt(root0, dir), {}) == Pruned(EntriesAt(root0, dir));
  }

  /** `preprocess(directory)`. On return the directory holds exactly its
      former top-level `.tflite` files; it raises exactly when some
      subdirectory holds a `.tflite` file, because that subdirectory is then
      not empty when it is removed. Nothing outside `dir` changes, even when
      it raises. */
  method Preprocess(fs: FileSystem, dir: Path) returns (st: Status)
    requires fs.Valid()
    modifies fs
    ensures fs.Valid()
    ensures !IsDirAt(old(fs.root), dir) ==> st == Failed(MissingDirError(old(fs.root), dir)) && fs.root == old(fs.root)
    ensures IsDirAt(old(fs.root), dir) ==> (st == Done <==> !NestedTflite(EntriesAt(old(fs.root), dir)))
    ensures IsDirAt(old(fs.root), dir) && st == Done ==>
      fs.root == Put(old(fs.root), dir, Dir(Pruned(EntriesAt(old(fs.root), dir))))
    ensures IsDirAt(old(fs.root), dir) ==>
      IsDirAt(fs.root, dir) && fs.root == Put(old(fs.root), dir, Get(fs.root, dir).value)
    decreases if IsDirAt(fs.root, dir) then Get(fs.root, dir).value else File([])
  {
    var listing := fs.ListDir(dir);
    if listing.Raised? {
      return Failed(listing.error);
    }
    ghost var root0 := fs.root;
    var todo := listing.value;
    PruneLoopStart(root0, dir);
    while todo != {}
      invariant fs.Valid()
      invariant PruneLoop(fs.root, root0, dir, todo)
      decreases |todo|
    {
      var x :| x in todo;
      ghost var cur := fs.root;
      PruneLoopChild(cur, root0, dir, todo, x);
      if IsDirAt(fs.root, dir + [x]) {
        var sub := Preprocess(fs, dir + [x]);
        if sub.Failed? {
          PruneSubFailed(cur, fs.root, root0, dir, todo, x);
          return sub;
        }
        PruneSubDone(cur, fs.root, root0, dir, todo, x);
        var rm := fs.Rmdir(dir, x);
        if rm.Failed? {
          return rm;
        }
      } else if !IsTflite(x) {
        PruneRemoveStep(cur, root0, dir, todo, x);
        var rm := fs.Remove(dir, x);
      } else {
        PruneKeepStep(cur, root0, dir, todo, x);
      }
      todo := todo - {x};
    }
    PruneLoopEnd(fs.root, root0, dir);
    st := Done;
  }
}
