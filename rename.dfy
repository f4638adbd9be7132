/** The second phase of `process_files_after_export`: the nested
    `process(directory, old_pattern, new_pattern)`, which renames every
    top-level entry whose name contains a rule's old pattern. */
module Rename {
  import opened Outcomes
  import opened FsTree
  import opened Text
  import opened FileSystem

  /** A rule: the pattern a name must contain, and what replaces it. */
  type Rule = (string, string)

  /** Python's `zip(a, b)`: the pairs of equal index, as many as the
      shorter list has. */
  function Zip<A, B>(a: seq<A>, b: seq<B>): (r: seq<(A, B)>)
    ensures |r| == if |a| < |b| then |a| else |b|
    ensures forall i :: 0 <= i < |r| ==> r[i] == (a[i], b[i])
    decreases |a|
  {
    if a == [] || b == [] then [] else [(a[0], b[0])] + Zip(a[1..], b[1..])
  }

  /** Rule `j` exists and its pattern occurs in `name`. */
  predicate MatchesAt(name: string, rules: seq<Rule>, j: int)
  {
    0 <= j < |rules| && Contains(name, rules[j].0)
  }

  /** Some rule before index `i` matches `name`. */
  ghost predicate MatchesBefore(name: string, rules: seq<Rule>, i: int)
  {
    exists j :: 0 <= j < i && MatchesAt(name, rules, j)
  }

  /** The index of the first rule that matches `name`, if any. */
  function FirstMatch(name: string, rules: seq<Rule>): (r: Option<nat>)
    ensures r.Some? ==> MatchesAt(name, rules, r.value) && !MatchesBefore(name, rules, r.value)
    ensures r.None? <==> !MatchesBefore(name, rules, |rules|)
    decreases |rules|
  {
    if rules == [] then None
    else if MatchesAt(name, rules, 0) then Some(0)
    else
      var r := FirstMatch(name, rules[1..]);
      assert forall j :: 1 <= j < |rules| ==> (MatchesAt(name, rules, j) <==> MatchesAt(name, rules[1..], j - 1));
      if r.None? then None else Some(r.value + 1)
  }

  /** The name the first matching rule gives `name`; `name` itself when no
      rule matches. */
  function Target(name: string, rules: seq<Rule>): (r: string)
    ensures !MatchesBefore(name, rules, |rules|) ==> r == name
  {
    match FirstMatch(name, rules)
    case None => name
    case Some(j) => Replace(name, rules[j].0, rules[j].1)
  }

  /** The first rule that matches `name` gives it its target. */
  lemma {:induction false} TargetByRule(name: string, rules: seq<Rule>, j: int)
    requires MatchesAt(name, rules, j) && !MatchesBefore(name, rules, j)
    ensures Target(name, rules) == Replace(name, rules[j].0, rules[j].1)
  {
    var k := FirstMatch(name, rules).value;
  }

  /** `os.path.join(directory, t)` names an entry of `directory` itself:
      `t` is not empty and holds no '/'. */
  predicate PlainName(t: string)
  {
    t != [] && '/' !in t
  }

  /** Every rule that matches `name` gives it a plain new name. */
  ghost predicate PlainTargets(name: string, rules: seq<Rule>)
  {
    forall j :: MatchesAt(name, rules, j) ==> PlainName(Replace(name, rules[j].0, rules[j].1))
  }

  /** The directory entries `e` are renamed by `rules` without a clash: every
      new name is plain, no name matches two rules, no two names get the
      same target, and no name is renamed onto another existing name. */
  ghost predicate Disciplined(e: map<string, Node>, rules: seq<Rule>)
  {
    (forall x :: x in e ==> PlainTargets(x, rules)) &&
    (forall x, j, k {:trigger MatchesAt(x, rules, j), MatchesAt(x, rules, k)} ::
          x in e && j < k && MatchesAt(x, rules, j) ==> !MatchesAt(x, rules, k))
    && (forall x, y {:trigger Target(x, rules), Target(y, rules)} ::
          x in e && y in e && Target(x, rules) == Target(y, rules) ==> x == y)
    && (forall x, y {:trigger Target(x, rules), y in e} :: x in e && y in e && Target(x, rules) == y ==> x == y)
  }

  /** Where entry `x` sits while the entries in `todo` are still to be
      visited: under its own name if unvisited, under its target if not. */
  function Place(x: string, rules: seq<Rule>, todo: set<string>): string
  {
    if x in todo then x else Target(x, rules)
  }

  /** Every entry of `e` is in the directory `d`, at its place. */
  ghost predicate PlacedAll(d: map<string, Node>, e: map<string, Node>, rules: seq<Rule>, todo: set<string>)
  {
    forall x {:trigger Place(x, rules, todo)} :: x in e ==> Place(x, rules, todo) in d && d[Place(x, rules, todo)] == e[x]
  }

  /** Every entry of the directory `d` is the place of an entry of `e`. */
  ghost predicate PlacedOnly(d: map<string, Node>, e: map<string, Node>, rules: seq<Rule>, todo: set<string>)
  {
    forall k {:trigger k in d} :: k in d ==> exists x {:trigger Place(x, rules, todo)} :: x in e && Place(x, rules, todo) == k
  }

  /** The directory `d` holds exactly the entries of `e`, each at its place. */
  ghost predicate Placed(d: map<string, Node>, e: map<string, Node>, rules: seq<Rule>, todo: set<string>)
  {
    PlacedAll(d, e, rules, todo) && PlacedOnly(d, e, rules, todo)
  }

  /** The directory `d` is `e` with every entry renamed to its target. */
  ghost predicate Renamed(d: map<string, Node>, e: map<string, Node>, rules: seq<Rule>)
  {
    Placed(d, e, rules, {})
  }

  /** Whatever order `os.listdir` lists the entries in, there is one
      renamed directory: `Renamed` determines it. */
  lemma {:induction false} RenamedUnique(d1: map<string, Node>, d2: map<string, Node>, e: map<string, Node>, rules: seq<Rule>)
    requires Renamed(d1, e, rules) && Renamed(d2, e, rules)
    ensures d1 == d2
  {
    forall k | k in d1
      ensures k in d2 && d1[k] == d2[k]
    {
      var x :| x in e && Place(x, rules, {}) == k;
    }
    forall k | k in d2
      ensures k in d1
    {
      var x :| x in e && Place(x, rules, {}) == k;
    }
  }

  /** The directory `d` once its entry `x` is renamed to `t`. */
  function Moved(d: map<string, Node>, x: string, t: string): map<string, Node>
    requires x in d
  {
    if t == x then d else (d - {x})[t := d[x]]
  }

  /** Before any entry is visited, every entry is in its place. */
  lemma {:induction false} PlacedAtStart(e: map<string, Node>, rules: seq<Rule>)
    ensures Placed(e, e, rules, e.Keys)
  {
    forall k | k in e
      ensures exists x :: x in e && Place(x, rules, e.Keys) == k
    {
      assert Place(k, rules, e.Keys) == k;
    }
  }

  /** Under a disciplined rule set each unvisited entry is renamed cleanly,
      and renaming it puts it in its place. */
  lemma {:induction false} CleanStep(d: map<string, Node>, e: map<string, Node>, rules: seq<Rule>, todo: set<string>, x: string)
    requires Disciplined(e, rules) && todo <= e.Keys && x in todo && Placed(d, e, rules, todo)
    ensures RenamesCleanly(d, x, rules)
    ensures Placed(Moved(d, x, Target(x, rules)), e, rules, todo - {x})
  {
    RenameStep(d, e, rules, todo, x);
    if Target(x, rules) != x {
      TargetFree(d, e, rules, todo, x);
    }
  }

  /** Renaming the unvisited entry `x` to its target clashes with nothing
      and puts it in its place. */
  lemma {:induction false} RenameStep(d: map<string, Node>, e: map<string, Node>, rules: seq<Rule>, todo: set<string>, x: string)
    requires Disciplined(e, rules) && todo <= e.Keys && x in todo && Placed(d, e, rules, todo)
    ensures x in d
    ensures Placed(Moved(d, x, Target(x, rules)), e, rules, todo - {x})
  {
    assert x in d by {
      assert Place(x, rules, todo) == x && e[x] == e[x];
    }
    if Target(x, rules) != x {
      MoveStep(d, e, rules, todo, x);
    } else {
      UnmatchedStep(d, e, rules, todo, x);
    }
  }

  /** The target of an unvisited entry is not taken by another entry. */
  lemma {:induction false} TargetFree(d: map<string, Node>, e: map<string, Node>, rules: seq<Rule>, todo: set<string>, x: string)
    requires Disciplined(e, rules) && x in todo && x in e && PlacedOnly(d, e, rules, todo)
    requires Target(x, rules) != x
    ensures Target(x, rules) !in d
  {
    var t := Target(x, rules);
    if t in d {
      var y :| y in e && Place(y, rules, todo) == t;
    }
  }

  /** Moving the unvisited entry `x` to its target, which differs from its
      name, clashes with nothing and puts it in its place. */
  lemma {:induction false} MoveStep(d: map<string, Node>, e: map<string, Node>, rules: seq<Rule>, todo: set<string>, x: string)
    requires Disciplined(e, rules) && todo <= e.Keys && x in todo && Placed(d, e, rules, todo)
    requires x in d && Target(x, rules) != x
    ensures Placed(Moved(d, x, Target(x, rules)), e, rules, todo - {x})
  {
    TargetFree(d, e, rules, todo, x);
    MoveAll(d, e, rules, todo, x);
    MoveOnly(d, e, rules, todo, x);
  }

  /** Moving `x` to its free target keeps every entry at its place. */
  lemma {:induction false} MoveAll(d: map<string, Node>, e: map<string, Node>, rules: seq<Rule>, todo: set<string>, x: string)
    requires Disciplined(e, rules) && todo <= e.Keys && x in todo && PlacedAll(d, e, rules, todo)
    requires x in d && Target(x, rules) !in d
    ensures PlacedAll((d - {x})[Target(x, rules) := d[x]], e, rules, todo - {x})
  {
    var t := Target(x, rules);
    assert Place(x, rules, todo) == x && d[x] == e[x];
    var moved := (d - {x})[t := d[x]];
    forall y | y in e
      ensures Place(y, rules, todo - {x}) in moved && moved[Place(y, rules, todo - {x})] == e[y]
    {
      if y != x {
        assert Place(y, rules, todo - {x}) == Place(y, rules, todo);
      }
    }
  }

  /** Moving `x` to its target puts nothing where no entry belongs. */
  lemma {:induction false} MoveOnly(d: map<string, Node>, e: map<string, Node>, rules: seq<Rule>, todo: set<string>, x: string)
    requires x in todo && x in e && x in d && PlacedOnly(d, e, rules, todo)
    ensures PlacedOnly((d - {x})[Target(x, rules) := d[x]], e, rules, todo - {x})
  {
    var t := Target(x, rules);
    var moved := (d - {x})[t := d[x]];
    forall k | k in moved
      ensures exists y :: y in e && Place(y, rules, todo - {x}) == k
    {
      if k == t {
        assert Place(x, rules, todo - {x}) == k;
      } else {
        var y :| y in e && Place(y, rules, todo) == k;
        assert Place(y, rules, todo - {x}) == k;
      }
    }
  }

  /** When the entry `x` is its own target, visiting it moves nothing. */
  lemma {:induction false} UnmatchedStep(d: map<string, Node>, e: map<string, Node>, rules: seq<Rule>, todo: set<string>, x: string)
    requires Placed(d, e, rules, todo) && x in d && Target(x, rules) == x
    ensures Placed(d, e, rules, todo - {x})
  {
    forall y | y in e
      ensures Place(y, rules, todo - {x}) == Place(y, rules, todo)
    {
    }
  }

  /** Two rules match `name`, both before index `i`. */
  ghost predicate MatchesTwiceBefore(name: string, rules: seq<Rule>, i: int)
  {
    exists j, k :: 0 <= j < k < i && MatchesAt(name, rules, j) && MatchesAt(name, rules, k)
  }

  /** The rules rename entry `x` of the directory `d` cleanly: `x` is
      there, its new names are plain, at most one rule matches it, and its
      target is itself or free. */
  ghost predicate RenamesCleanly(d: map<string, Node>, x: string, rules: seq<Rule>)
  {
    x in d
    && PlainTargets(x, rules)
    && !MatchesTwiceBefore(x, rules, |rules|)
    && (Target(x, rules) == x || Target(x, rules) !in d)
  }

  /** The first matching rule moves entry `x` of the directory `d` to a
      different, free name, and every new name of `x` is plain. */
  ghost predicate MovesAway(d: map<string, Node>, x: string, rules: seq<Rule>)
  {
    x in d && PlainTargets(x, rules) && Target(x, rules) != x && Target(x, rules) !in d
  }

  /** One pass of the inner loop of `process`: the entry `x` of `dir` is
      renamed by every rule whose pattern it contains, in order, always
      under its original name. When the rules rename it cleanly, it ends
      under its target and nothing else in `dir` changes. When a first rule
      moves it away and a second rule matches too, the second rename finds
      no file and raises `FileNotFoundError`, after the first rename. */
  method ApplyRules(fs: FileSystem, dir: Path, x: string, rules: seq<Rule>) returns (st: Status)
    requires fs.Valid() && IsDirAt(fs.root, dir)
    modifies fs
    ensures fs.Valid() && IsDirAt(fs.root, dir) && fs.root == Put(old(fs.root), dir, Get(fs.root, dir).value)
    ensures RenamesCleanly(EntriesAt(old(fs.root), dir), x, rules) ==>
      st == Done && EntriesAt(fs.root, dir) == Moved(EntriesAt(old(fs.root), dir), x, Target(x, rules))
    ensures MovesAway(EntriesAt(old(fs.root), dir), x, rules) ==>
      EntriesAt(fs.root, dir) == Moved(EntriesAt(old(fs.root), dir), x, Target(x, rules))
      && (st == Failed(FileNotFound) <==> MatchesTwiceBefore(x, rules, |rules|))
      && (st == Done <==> !MatchesTwiceBefore(x, rules, |rules|))
  {
    ghost var root0 := fs.root;
    ghost var d0 := EntriesAt(root0, dir);
    PutGet(root0, dir);
    var i := 0;
    while i < |rules|
      invariant 0 <= i <= |rules|
      invariant fs.Valid() && IsDirAt(fs.root, dir) && fs.root == Put(root0, dir, Get(fs.root, dir).value)
      invariant RenamesCleanly(d0, x, rules) || MovesAway(d0, x, rules) ==>
        EntriesAt(fs.root, dir) == if MatchesBefore(x, rules, i) then Moved(d0, x, Target(x, rules)) else d0
      invariant MovesAway(d0, x, rules) ==> !MatchesTwiceBefore(x, rules, i)
    {
      var (pattern, replacement) := rules[i];
      if Contains(x, pattern) {
        ghost var root1 := fs.root;
        assert MatchesAt(x, rules, i);
        if !MatchesBefore(x, rules, i) {
          TargetByRule(x, rules, i);
        } else if MovesAway(d0, x, rules) {
          assert MatchesTwiceBefore(x, rules, |rules|);
        }
        var renamed := fs.Rename(dir, x, Replace(x, pattern, replacement));
        if renamed.Failed? {
          return renamed;
        }
        PutPut(root0, dir, Get(root1, dir).value, Get(fs.root, dir).value);
        assert MatchesBefore(x, rules, i + 1);
      } else {
        assert MatchesBefore(x, rules, i + 1) == MatchesBefore(x, rules, i);
      }
      assert MatchesTwiceBefore(x, rules, i + 1) ==> MatchesTwiceBefore(x, rules, i) || (MatchesBefore(x, rules, i) && MatchesAt(x, rules, i));
      i := i + 1;
    }
    st := Done;
  }

  /** `process(directory, old_pattern, new_pattern)`. Each new name is
      taken as an entry of `dir`, so nothing outside `dir` changes; when the
      rules rename the entries without a clash, it returns normally and
      every entry sits under its target. */
  method Process(fs: FileSystem, dir: Path, oldPattern: seq<string>, newPattern: seq<string>) returns (st: Status)
    requires fs.Valid()
    modifies fs
    ensures fs.Valid()
    ensures !IsDirAt(old(fs.root), dir) ==> st == Failed(MissingDirError(old(fs.root), dir)) && fs.root == old(fs.root)
    ensures IsDirAt(old(fs.root), dir) ==>
      IsDirAt(fs.root, dir) && fs.root == Put(old(fs.root), dir, Get(fs.root, dir).value)
    ensures IsDirAt(old(fs.root), dir) && Disciplined(EntriesAt(old(fs.root), dir), Zip(oldPattern, newPattern)) ==>
      st == Done && Renamed(EntriesAt(fs.root, dir), EntriesAt(old(fs.root), dir), Zip(oldPattern, newPattern))
  {
    var listing := fs.ListDir(dir);
    if listing.Raised? {
      return Failed(listing.error);
    }
    var rules := Zip(oldPattern, newPattern);
    ghost var root0 := fs.root;
    ghost var e0 := EntriesAt(root0, dir);
    var todo := listing.value;
    PutGet(root0, dir);
    PlacedAtStart(e0, rules);
    while todo != {}
      invariant fs.Valid() && todo <= e0.Keys
      invariant IsDirAt(fs.root, dir) && fs.root == Put(root0, dir, Get(fs.root, dir).value)
      invariant Disciplined(e0, rules) ==> Placed(EntriesAt(fs.root, dir), e0, rules, todo)
      decreases |todo|
    {
      var x :| x in todo;
      ghost var root1 := fs.root;
      if Disciplined(e0, rules) {
        CleanStep(EntriesAt(root1, dir), e0, rules, todo, x);
      }
      var applied := ApplyRules(fs, dir, x, rules);
      PutPut(root0, dir, Get(root1, dir).value, Get(fs.root, dir).value);
      if applied.Failed? {
        return applied;
      }
      todo := todo - {x};
    }
    st := Done;
  }
}
