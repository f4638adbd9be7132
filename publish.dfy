/** The last phase of `process_files_after_export`: the nested
    `postprocess(src_dir, dest_dir)`, which copies every file of the staging
    directory into the models directory (creating it when it does not
    exist), then empties the staging directory and removes it. */
module Publish {
  import opened Outcomes
  import opened FsTree
  import opened FileSystem
  import opened Prune

  function Parent(p: Path): Path
    requires p != []
  {
    p[..|p| - 1]
  }

  function Last(p: Path): string
    requires p != []
  {
    p[|p| - 1]
  }

  /** Every entry of a directory with entries `e` is a plain file. */
  predicate AllFiles(e: map<string, Node>)
  {
    forall x :: x in e ==> e[x].File?
  }

  /** `dest` is a directory already, or nothing is there and
      `os.makedirs(dest)` can create it. */
  predicate DestReady(n: Node, dest: Path)
  {
    n.Dir? && (IsDirAt(n, dest) || (Get(n, dest).None? && MakeDirs(n, dest).Returned?))
  }

  /** The tree once the models directory exists: `os.makedirs` runs only
      when nothing is at `dest`. */
  function Staged(n: Node, dest: Path): (r: Node)
    requires DestReady(n, dest)
    ensures r.Dir? && IsDirAt(r, dest)
    ensures IsDirAt(n, dest) ==> r == n
    ensures !IsDirAt(n, dest) ==> EntriesAt(r, dest) == map[]
  {
    if Get(n, dest).Some? then n else MakeDirs(n, dest).value
  }

  /** Creating the models directory touches no existing node outside its
      ancestry. */
  lemma {:induction false} StagedKeeps(n: Node, dest: Path, q: Path)
    requires DestReady(n, dest) && Get(n, q).Some? && !IsPrefix(q, dest)
    ensures Get(Staged(n, dest), q) == Get(n, q)
  {
    if Get(n, dest).None? {
      MakeDirsKeeps(n, dest, q);
    }
  }

  /** The conditions under which `postprocess(src, dest)` completes: the
      two directories lie apart, the staging directory holds only files, the
      models directory exists or can be made, and none of the staged names
      is a directory there. */
  ghost predicate Publishable(n: Node, src: Path, dest: Path)
  {
    src != [] && Disjoint(src, dest) && IsDirAt(n, src) && AllFiles(EntriesAt(n, src))
    && DestReady(n, dest)
    && forall x :: x in EntriesAt(n, src) && x in EntriesAt(Staged(n, dest), dest) ==>
      EntriesAt(Staged(n, dest), dest)[x].File?
  }

  /** The tree after the copy loop: every staged file also sits, under its
      own name, in the models directory, replacing a file of that name. */
  function CopiedTree(n: Node, src: Path, dest: Path): (r: Node)
    requires Publishable(n, src, dest)
    ensures Get(r, src) == Get(n, src) && IsDirAt(r, Parent(src))
  {
    var staged := Staged(n, dest);
    StagedKeeps(n, dest, src);
    var r := Put(staged, dest, Dir(EntriesAt(staged, dest) + EntriesAt(n, src)));
    GetPutDisjoint(staged, dest, Dir(EntriesAt(staged, dest) + EntriesAt(n, src)), src);
    ParentIsDir(r, src);
    r
  }

  /** The tree `postprocess(src, dest)` leaves. */
  function Published(n: Node, src: Path, dest: Path): Node
    requires Publishable(n, src, dest)
  {
    var c := CopiedTree(n, src, dest);
    Put(c, Parent(src), Dir(EntriesAt(c, Parent(src)) - {Last(src)}))
  }

  /** After publishing, the staging directory is gone and the models
      directory holds what it held before plus every staged file, a staged
      file winning over an older one of the same name. */
  lemma {:induction false} PublishedLayout(n: Node, src: Path, dest: Path)
    requires Publishable(n, src, dest)
    ensures Get(Published(n, src, dest), src).None?
    ensures IsDirAt(Published(n, src, dest), dest)
    ensures EntriesAt(Published(n, src, dest), dest) == EntriesAt(Staged(n, dest), dest) + EntriesAt(n, src)
  {
    var c := CopiedTree(n, src, dest);
    var p := Published(n, src, dest);
    assert src == Parent(src) + [Last(src)];
    ChildOfDir(p, Parent(src), Last(src));
    if Disjoint(Parent(src), dest) {
      GetPutDisjoint(c, Parent(src), Dir(EntriesAt(c, Parent(src)) - {Last(src)}), dest);
    } else {
      assert IsPrefix(Parent(src), dest) && |dest| > |Parent(src)|;
      GetPutWithout(c, Parent(src), Last(src), dest);
    }
  }

  /** Publishing leaves every other existing node as it was. */
  lemma {:induction false} PublishedKeepsOthers(n: Node, src: Path, dest: Path, q: Path)
    requires Publishable(n, src, dest)
    requires Get(n, q).Some? && Disjoint(q, src) && Disjoint(q, dest)
    ensures Get(Published(n, src, dest), q) == Get(n, q)
  {
    var staged := Staged(n, dest);
    StagedKeeps(n, dest, q);
    var c := CopiedTree(n, src, dest);
    GetPutDisjoint(staged, dest, Dir(EntriesAt(staged, dest) + EntriesAt(n, src)), q);
    if Disjoint(Parent(src), q) {
      GetPutDisjoint(c, Parent(src), Dir(EntriesAt(c, Parent(src)) - {Last(src)}), q);
    } else {
      assert IsPrefix(Parent(src), q) && |q| > |Parent(src)|;
      GetPutWithout(c, Parent(src), Last(src), q);
    }
  }

  /** The entries of `e` the copy loop has already visited. */
  function Visited(e: map<string, Node>, todo: set<string>): map<string, Node>
  {
    map x | x in e && x !in todo :: e[x]
  }

  /** The entries of `e` the removal loop has still to visit. */
  function Remaining(e: map<string, Node>, todo: set<string>): map<string, Node>
  {
    map x | x in e && x in todo :: e[x]
  }

  /** The copy loop can copy every entry of `src` into the existing
      directory `dest`: the two lie apart, `src` holds only files, and none
      of their names is a directory in `dest`. */
  ghost predicate CopyFits(n: Node, src: Path, dest: Path)
  {
    Disjoint(src, dest) && IsDirAt(n, src) && AllFiles(EntriesAt(n, src)) && IsDirAt(n, dest)
    && forall x :: x in EntriesAt(n, src) && x in EntriesAt(n, dest) ==> EntriesAt(n, dest)[x].File?
  }

  /** Copying one more staged file `x` over a directory that holds
      `d0` plus the files copied so far. */
  lemma {:induction false} CopyStep(d0: map<string, Node>, s: map<string, Node>, todo: set<string>, x: string)
    requires x in todo && x in s && s[x].File? && (x in d0 ==> d0[x].File?)
    ensures CopyInto(d0 + Visited(s, todo), x, x, s[x].content) == Returned(d0 + Visited(s, todo - {x}))
  {
    assert (d0 + Visited(s, todo))[x := s[x]] == d0 + Visited(s, todo - {x});
  }

  /** While the copy loop runs, `src` still holds `s`, and every entry it
      has visited is a file. */
  ghost predicate SourceKept(root: Node, src: Path, s: map<string, Node>, todo: set<string>)
  {
    todo <= s.Keys && Get(root, src) == Some(Dir(s)) && forall x :: x in s && x !in todo ==> s[x].File?
  }

  /** What the copy loop keeps, from the tree `root1` it started on, while
      `todo` is left: `src` is untouched when the two directories lie
      apart, and, when the copies fit, `dest` holds what it held plus the
      files copied so far. */
  ghost predicate CopyLoop(root: Node, root1: Node, src: Path, dest: Path, todo: set<string>)
  {
    (Disjoint(src, dest) && IsDirAt(root1, src) ==> SourceKept(root, src, EntriesAt(root1, src), todo))
    && (CopyFits(root1, src, dest) ==>
          root == Put(root1, dest, Dir(EntriesAt(root1, dest) + Visited(EntriesAt(root1, src), todo))))
  }

  /** The loop starts with every name of `src` to visit. */
  lemma {:induction false} CopyLoopStart(root1: Node, src: Path, dest: Path)
    requires IsDirAt(root1, src)
    ensures CopyLoop(root1, root1, src, dest, EntriesAt(root1, src).Keys)
  {
    if CopyFits(root1, src, dest) {
      var d0 := EntriesAt(root1, dest);
      assert d0 + Visited(EntriesAt(root1, src), EntriesAt(root1, src).Keys) == d0;
      PutGet(root1, dest);
    }
  }

  /** When the copies fit, the next copy finds a staged file and a
      destination it can write. */
  lemma {:induction false} CopyLoopCan(cur: Node, root1: Node, src: Path, dest: Path, todo: set<string>, x: string)
    requires CopyFits(root1, src, dest) && CopyLoop(cur, root1, src, dest, todo) && x in todo
    ensures CanCopy(cur, src, x, dest, x)
  {
    var s := EntriesAt(root1, src);
    var d0 := EntriesAt(root1, dest);
    ChildOfDir(cur, src, x);
    assert EntriesAt(cur, dest) == d0 + Visited(s, todo);
    ApartTargets(src, dest, x, x);
  }

  /** A copy into a directory apart from `src` keeps `src`, and shows the
      copied entry was a file. */
  lemma {:induction false} CopyKeepsSource(cur: Node, next: Node, src: Path, dest: Path, s: map<string, Node>,
                                           todo: set<string>, x: string)
    requires Disjoint(src, dest) && SourceKept(cur, src, s, todo) && x in todo && Copied(cur, next, src, x, dest, x)
    ensures SourceKept(next, src, s, todo - {x})
  {
    ChildOfDir(cur, src, x);
    GetPutDisjoint(cur, dest, Get(next, dest).value, src);
  }

  /** A copy of the staged file `x` adds it to the files copied so far. */
  lemma {:induction false} CopyAddsFile(root1: Node, cur: Node, next: Node, src: Path, dest: Path, todo: set<string>, x: string)
    requires CopyFits(root1, src, dest) && CopyLoop(cur, root1, src, dest, todo) && x in todo
    requires Copied(cur, next, src, x, dest, x)
    ensures next == Put(root1, dest, Dir(EntriesAt(root1, dest) + Visited(EntriesAt(root1, src), todo - {x})))
  {
    var s := EntriesAt(root1, src);
    var d0 := EntriesAt(root1, dest);
    ChildOfDir(cur, src, x);
    assert EntriesAt(cur, dest) == d0 + Visited(s, todo);
    CopyStep(d0, s, todo, x);
    PutPut(root1, dest, Dir(d0 + Visited(s, todo)), Dir(d0 + Visited(s, todo - {x})));
  }

  /** One copy keeps the loop's invariant. */
  lemma {:induction false} CopyLoopStep(cur: Node, next: Node, root1: Node, src: Path, dest: Path, todo: set<string>, x: string)
    requires CopyLoop(cur, root1, src, dest, todo) && x in todo && Copied(cur, next, src, x, dest, x)
    ensures CopyLoop(next, root1, src, dest, todo - {x})
  {
    if CopyFits(root1, src, dest) {
      CopyAddsFile(root1, cur, next, src, dest, todo, x);
    }
    if Disjoint(src, dest) && IsDirAt(root1, src) {
      CopyKeepsSource(cur, next, src, dest, EntriesAt(root1, src), todo, x);
    }
  }

  /** What the loop's invariant says once every name is visited. */
  lemma {:induction false} CopyLoopEnd(root: Node, root1: Node, src: Path, dest: Path)
    requires CopyLoop(root, root1, src, dest, {})
    ensures Disjoint(src, dest) && IsDirAt(root1, src) ==>
      Get(root, src) == Get(root1, src) && AllFiles(EntriesAt(root1, src))
    ensures CopyFits(root1, src, dest) ==>
      root == Put(root1, dest, Dir(EntriesAt(root1, dest) + EntriesAt(root1, src)))
  {
    if IsDirAt(root1, src) {
      assert Visited(EntriesAt(root1, src), {}) == EntriesAt(root1, src);
    }
  }

  /** The first loop of `postprocess`: `shutil.copy2` of every entry of
      `src` to the same name in `dest`. It never touches `src` when the two
      lie apart, it raises on a subdirectory of `src`, and when the copies
      fit, `dest` ends with every file of `src` added or overwritten. */
  method CopyAll(fs: FileSystem, src: Path, dest: Path) returns (st: Status)
    requires fs.Valid()
    modifies fs
    ensures fs.Valid()
    ensures Disjoint(src, dest) && IsDirAt(old(fs.root), src) ==> Get(fs.root, src) == Get(old(fs.root), src)
    ensures st == Done && Disjoint(src, dest) && IsDirAt(old(fs.root), src) ==> AllFiles(EntriesAt(old(fs.root), src))
    ensures CopyFits(old(fs.root), src, dest) ==>
      st == Done && fs.root == Put(old(fs.root), dest, Dir(EntriesAt(old(fs.root), dest) + EntriesAt(old(fs.root), src)))
  {
    ghost var root1 := fs.root;
    var listing := fs.ListDir(src);
    if listing.Raised? {
      return Failed(listing.error);
    }
    var todo := listing.value;
    CopyLoopStart(root1, src, dest);
    while todo != {}
      invariant fs.Valid()
      invariant CopyLoop(fs.root, root1, src, dest, todo)
      decreases |todo|
    {
      var x :| x in todo;
      ghost var cur := fs.root;
      if CopyFits(root1, src, dest) {
        CopyLoopCan(cur, root1, src, dest, todo, x);
      }
      var copied := fs.Copy2(src, x, dest, x);
      if copied.Failed? {
        return copied;
      }
      CopyLoopStep(cur, fs.root, root1, src, dest, todo, x);
      todo := todo - {x};
    }
    CopyLoopEnd(fs.root, root1, src, dest);
    st := Done;
  }

  /** What the removal loop keeps, from the tree `root2` it started on,
      while `todo` is left: when `src` held only files, it now holds those
      still to visit and nothing else changed. */
  ghost predicate RemoveLoop(root: Node, root2: Node, src: Path, todo: set<string>)
  {
    IsDirAt(root2, src) && AllFiles(EntriesAt(root2, src)) ==>
      todo <= EntriesAt(root2, src).Keys && root == Put(root2, src, Dir(Remaining(EntriesAt(root2, src), todo)))
  }

  /** The loop starts with every name of `src` to visit. */
  lemma {:induction false} RemoveLoopStart(root2: Node, src: Path)
    requires IsDirAt(root2, src)
    ensures RemoveLoop(root2, root2, src, EntriesAt(root2, src).Keys)
  {
    assert Remaining(EntriesAt(root2, src), EntriesAt(root2, src).Keys) == EntriesAt(root2, src);
    PutGet(root2, src);
  }

  /** When `src` held only files, the next name is a file still there, and
      removing it keeps the invariant. */
  lemma {:induction false} RemoveLoopStep(cur: Node, root2: Node, src: Path, todo: set<string>, x: string)
    requires IsDirAt(root2, src) && AllFiles(EntriesAt(root2, src))
    requires RemoveLoop(cur, root2, src, todo) && x in todo
    ensures IsFileAt(cur, src + [x]) && IsDirAt(cur, src)
    ensures RemoveLoop(Put(cur, src, Dir(EntriesAt(cur, src) - {x})), root2, src, todo - {x})
  {
    var s := EntriesAt(root2, src);
    var rest := Remaining(s, todo);
    PutBelow(root2, src, rest, x, rest[x]);
    ChildOfDir(cur, src, x);
    assert EntriesAt(cur, src) == rest;
    PutPut(root2, src, Dir(rest), Dir(rest - {x}));
    assert rest - {x} == Remaining(s, todo - {x});
  }

  /** The second loop of `postprocess`: every entry of `src` is removed, a
      subdirectory after pruning it. A directory of plain files ends empty. */
  method RemoveAll(fs: FileSystem, src: Path) returns (st: Status)
    requires fs.Valid()
    modifies fs
    ensures fs.Valid()
    ensures IsDirAt(old(fs.root), src) && AllFiles(EntriesAt(old(fs.root), src)) ==>
      st == Done && fs.root == Put(old(fs.root), src, Dir(map[]))
  {
    ghost var root2 := fs.root;
    ghost var good := IsDirAt(root2, src) && AllFiles(EntriesAt(root2, src));
    var listing := fs.ListDir(src);
    if listing.Raised? {
      return Failed(listing.error);
    }
    var todo := listing.value;
    RemoveLoopStart(root2, src);
    while todo != {}
      invariant fs.Valid()
      invariant RemoveLoop(fs.root, root2, src, todo)
      decreases |todo|
    {
      var x :| x in todo;
      if good {
        RemoveLoopStep(fs.root, root2, src, todo, x);
      }
      if IsDirAt(fs.root, src + [x]) {
        var sub := Preprocess(fs, src + [x]);
        if sub.Failed? {
          return sub;
        }
        var removed := fs.Rmdir(src, x);
        if removed.Failed? {
          return removed;
        }
      } else if IsFileAt(fs.root, src + [x]) {
        var removed := fs.Remove(src, x);
        if removed.Failed? {
          return removed;
        }
      }
      todo := todo - {x};
    }
    assert good ==> Remaining(EntriesAt(root2, src), {}) == map[];
    st := Done;
  }

  /** `postprocess(src, dest)`. Under `Publishable` it returns normally and
      leaves the `Published` tree. Whenever it returns normally, the staging
      directory is gone, and when it lies apart from the models directory it
      held only files: `shutil.copy2` raises on a subdirectory. */
  method Postprocess(fs: FileSystem, src: Path, dest: Path) returns (st: Status)
    requires fs.Valid()
    modifies fs
    ensures fs.Valid()
    ensures Publishable(old(fs.root), src, dest) ==> st == Done && fs.root == Published(old(fs.root), src, dest)
    ensures st == Done && Disjoint(src, dest) && IsDirAt(old(fs.root), src) ==> AllFiles(EntriesAt(old(fs.root), src))
    ensures st == Done ==> src != [] && Get(fs.root, src).None?
  {
    ghost var root0 := fs.root;
    ghost var good := Publishable(root0, src, dest);
    ghost var apart := Disjoint(src, dest) && IsDirAt(root0, src);
    if Get(fs.root, dest).None? {
      var made := fs.Makedirs(dest);
      if made.Failed? {
        return made;
      }
      if apart {
        MakeDirsKeeps(root0, dest, src);
      }
    }
    ghost var root1 := fs.root;
    assert good ==> root1 == Staged(root0, dest) && CopyFits(root1, src, dest);
    var copied := CopyAll(fs, src, dest);
    if copied.Failed? {
      return copied;
    }
    ghost var root2 := fs.root;
    assert good ==> root2 == CopiedTree(root0, src, dest);
    var emptied := RemoveAll(fs, src);
    if emptied.Failed? {
      return emptied;
    }
    if good {
      assert src == Parent(src) + [Last(src)];
      ChildOfDir(root2, Parent(src), Last(src));
      RemoveAfterPut(root2, Parent(src), Last(src), Dir(map[]));
    }
    if src == [] {
      return Failed(ResourceBusy);
    }
    st := fs.Rmdir(Parent(src), Last(src));
    if st == Done {
      assert src == Parent(src) + [Last(src)];
      ChildOfDir(fs.root, Parent(src), Last(src));
    }
  }
}
