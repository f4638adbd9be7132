/** POSIX path strings as Python's `os.path` handles them: `basename`,
    `splitext`, `join`, and how a path string names a node of the file tree
    (its components between `/` separators). */
module PathNames {

  /** The index of the last `c` in `s`, or -1 (Python's `str.rfind`). */
  function LastIndexOf(s: string, c: char): (r: int)
    ensures -1 <= r < |s|
    ensures r >= 0 ==> s[r] == c
    ensures forall i :: r < i < |s| ==> s[i] != c
  {
    if s == [] then -1
    else if s[|s| - 1] == c then |s| - 1
    else LastIndexOf(s[..|s| - 1], c)
  }

  /** `os.path.basename`: everything after the last separator. */
  function Basename(p: string): (r: string)
    ensures '/' !in r
    ensures |r| <= |p| && r == p[|p| - |r|..]
    ensures |r| < |p| ==> p[|p| - |r| - 1] == '/'
  {
    p[LastIndexOf(p, '/') + 1..]
  }

  /** Whether some character of `s` is not a dot. */
  predicate HasNonDot(s: string)
  {
    exists i :: 0 <= i < |s| && s[i] != '.'
  }

  /** The root part of `os.path.splitext` for a name without separators:
      the name up to its last dot, unless every character before that dot is
      a dot too (a leading-dot name such as `.bashrc` has no extension). */
  function StripExtension(name: string): (r: string)
    ensures |r| <= |name| && r == name[..|r|]
    ensures r == name || (name[|r|] == '.' && '.' !in name[|r| + 1..] && HasNonDot(r))
    ensures r != name <==> exists i, j :: 0 <= i < j < |name| && name[i] != '.' && name[j] == '.'
  {
    var dot := LastIndexOf(name, '.');
    if dot > 0 && HasNonDot(name[..dot]) then
      assert exists i, j :: 0 <= i < j < |name| && name[i] != '.' && name[j] == '.' by {
        var i :| 0 <= i < dot && name[..dot][i] != '.';
        assert name[i] != '.' && name[dot] == '.';
      }
      name[..dot]
    else
      assert !exists i, j :: 0 <= i < j < |name| && name[i] != '.' && name[j] == '.' by {
        forall i, j | 0 <= i < j < |name| && name[j] == '.'
          ensures name[i] == '.'
        {
          assert name[..dot][i] == '.';
        }
      }
      name
  }

  /** `get_filename_without_extension`: the base name with its last
      extension removed. */
  function FilenameWithoutExtension(filepath: string): (r: string)
    ensures '/' !in r
    ensures |r| <= |Basename(filepath)| && r == Basename(filepath)[..|r|]
    ensures r == Basename(filepath)
      || (Basename(filepath)[|r|] == '.' && '.' !in Basename(filepath)[|r| + 1..] && HasNonDot(r))
    ensures r != Basename(filepath) <==>
      exists i, j :: 0 <= i < j < |Basename(filepath)| && Basename(filepath)[i] != '.' && Basename(filepath)[j] == '.'
  {
    StripExtension(Basename(filepath))
  }

  /** Any path whose last component is `stem` followed by one extension
      gives back `stem`, whatever directory it lies in. */
  lemma {:induction false} StemOfFileInDirectory(dir: string, stem: string, ext: string)
    requires '/' !in stem && '.' !in stem && stem != []
    requires '/' !in ext && '.' !in ext
    ensures FilenameWithoutExtension(dir + "/" + stem + "." + ext) == stem
  {
    var p := dir + "/" + stem + "." + ext;
    var name := stem + "." + ext;
    assert Basename(p) == name by {
      assert p == (dir + "/") + name;
      LastIndexOfAfter(dir + "/", name, '/');
      assert LastIndexOf(dir + "/", '/') == |dir|;
    }
    assert LastIndexOf(name, '.') == |stem| by {
      assert name == stem + ("." + ext);
      LastIndexOfAfter(stem, "." + ext, '.');
      LastIndexOfAfter(".", ext, '.');
      assert LastIndexOf("." + ext, '.') == 0;
    }
    assert name[..|stem|] == stem;
    assert HasNonDot(stem) by {
      assert stem[0] != '.';
    }
  }

  /** The last `c` of `a + b` is found in `b` when `b` holds one. */
  lemma {:induction false} LastIndexOfAfter(a: string, b: string, c: char)
    ensures LastIndexOf(a + b, c) == if LastIndexOf(b, c) >= 0 then |a| + LastIndexOf(b, c) else LastIndexOf(a, c)
    decreases |b|
  {
    if b != [] {
      assert (a + b)[..|a + b| - 1] == a + b[..|b| - 1];
      if b[|b| - 1] != c {
        LastIndexOfAfter(a, b[..|b| - 1], c);
      }
    } else {
      assert a + b == a;
    }
  }

  /** `os.path.join(a, b)` for two path strings. */
  function Join(a: string, b: string): (r: string)
    ensures |b| <= |r| && r[|r| - |b|..] == b
    ensures b != [] && b[0] == '/' ==> r == b
    ensures (b == [] || b[0] != '/') ==> |a| <= |r| && r[..|a|] == a
  {
    if |b| > 0 && b[0] == '/' then b
    else if a == [] || a[|a| - 1] == '/' then a + b
    else a + "/" + b
  }

  /** The components of a path string: the pieces between separators, with
      empty pieces (from a leading, doubled or trailing `/`) dropped. */
  function Components(p: string): seq<string>
    decreases |p|
  {
    var i := FirstIndexOf(p, '/');
    if i < 0 then (if p == [] then [] else [p])
    else (if i == 0 then [] else [p[..i]]) + Components(p[i + 1..])
  }

  /** The index of the first `c` in `s`, or -1. */
  function FirstIndexOf(s: string, c: char): (r: int)
    ensures -1 <= r < |s|
  {
    if s == [] then -1
    else if s[0] == c then 0
    else var k := FirstIndexOf(s[1..], c); if k < 0 then -1 else k + 1
  }

  /** Splitting a path at a separator splits its components. */
  lemma {:induction false} ComponentsOfJoined(a: string, b: string)
    ensures Components(a + "/" + b) == Components(a) + Components(b)
    decreases |a|
  {
    var i := FirstIndexOf(a, '/');
    if i < 0 {
      ComponentsOfJoinedName(a, b);
    } else {
      ComponentsOfJoined(a[i + 1..], b);
      ComponentsOfJoinedStep(a, b, i);
    }
  }

  lemma {:induction false} ComponentsOfJoinedName(a: string, b: string)
    requires FirstIndexOf(a, '/') < 0
    ensures Components(a + "/" + b) == Components(a) + Components(b)
  {
    var p := a + "/" + b;
    FirstIndexOfConcat(a, "/" + b, '/');
    assert p == a + ("/" + b);
    assert p[..|a|] == a && p[|a| + 1..] == b;
    ComponentsAtSeparator(p, |a|);
  }

  lemma {:induction false} ComponentsOfJoinedStep(a: string, b: string, i: nat)
    requires FirstIndexOf(a, '/') == i
    requires Components(a[i + 1..] + "/" + b) == Components(a[i + 1..]) + Components(b)
    ensures Components(a + "/" + b) == Components(a) + Components(b)
  {
    var head := if i == 0 then [] else [a[..i]];
    var rest := Components(a[i + 1..]);
    ComponentsAtSeparator(a, i);
    ComponentsOfJoinedAtSeparator(a, b, i);
    assert head + (rest + Components(b)) == (head + rest) + Components(b);
  }

  lemma {:induction false} ComponentsOfJoinedAtSeparator(a: string, b: string, i: nat)
    requires FirstIndexOf(a, '/') == i
    ensures Components(a + "/" + b) == (if i == 0 then [] else [a[..i]]) + Components(a[i + 1..] + "/" + b)
  {
    var p := a + "/" + b;
    FirstIndexOfConcat(a, "/" + b, '/');
    assert p == a + ("/" + b);
    ComponentsAtSeparator(p, i);
    assert p[..i] == a[..i];
    assert p[i + 1..] == a[i + 1..] + "/" + b;
  }

  /** Where the first `c` of `a + t` lies. */
  lemma {:induction false} FirstIndexOfConcat(a: string, t: string, c: char)
    ensures FirstIndexOf(a + t, c) ==
      if FirstIndexOf(a, c) >= 0 then FirstIndexOf(a, c)
      else if FirstIndexOf(t, c) >= 0 then |a| + FirstIndexOf(t, c)
      else -1
  {
    if a == [] {
      assert a + t == t;
    } else if a[0] != c {
      assert (a + t)[1..] == a[1..] + t;
      FirstIndexOfConcat(a[1..], t, c);
    }
  }

  /** One step of `Components` at the first separator. */
  lemma {:induction false} ComponentsAtSeparator(p: string, i: nat)
    requires FirstIndexOf(p, '/') == i
    ensures Components(p) == (if i == 0 then [] else [p[..i]]) + Components(p[i + 1..])
  {
  }

  /** `FirstIndexOf` is the first position holding `c`. */
  lemma {:induction false} FirstIndexOfIs(s: string, c: char, k: nat)
    requires k < |s| && s[k] == c && forall i :: 0 <= i < k ==> s[i] != c
    ensures FirstIndexOf(s, c) == k
  {
    if k > 0 {
      FirstIndexOfIs(s[1..], c, k - 1);
    }
  }

  /** What `FirstIndexOf` finds: a position holding `c` with none before it,
      or -1 when `c` does not occur. */
  lemma {:induction false} FirstIndexOfFinds(s: string, c: char)
    ensures FirstIndexOf(s, c) >= 0 ==> s[FirstIndexOf(s, c)] == c
    ensures forall i :: 0 <= i < |s| && (FirstIndexOf(s, c) < 0 || i < FirstIndexOf(s, c)) ==> s[i] != c
  {
    if s != [] && s[0] != c {
      FirstIndexOfFinds(s[1..], c);
      assert forall i :: 1 <= i < |s| ==> s[i] == s[1..][i - 1];
    }
  }

  /** Joining a relative name onto a directory appends its components. */
  lemma {:induction false} JoinAppendsComponents(dir: string, name: string)
    requires name == [] || name[0] != '/'
    ensures Components(Join(dir, name)) == Components(dir) + Components(name)
  {
    if dir == [] {
      assert Join(dir, name) == name;
      assert Components(dir) == [];
    } else if dir[|dir| - 1] == '/' {
      var d := dir[..|dir| - 1];
      assert dir == d + "/";
      assert Join(dir, name) == d + "/" + name;
      JoinAfterSeparator(d, name);
    } else {
      ComponentsOfJoined(dir, name);
    }
  }

  /** A trailing separator adds no component. */
  lemma {:induction false} JoinAfterSeparator(d: string, name: string)
    ensures Components(d + "/" + name) == Components(d + "/") + Components(name)
  {
    assert Components(d + "/") == Components(d) by {
      ComponentsOfJoined(d, []);
      assert d + "/" + [] == d + "/";
      assert Components([]) == [];
    }
    ComponentsOfJoined(d, name);
  }
}
