/** The two rename tables `process_files_after_export` passes to `process`:
    the names the TFLite exporter gives the five variants of a model, and
    the short names they are published under. */
module PatternTable {
  import opened FsTree
  import opened Text
  import opened Rename

  /** `model_pattern` for the model whose path without its last three
      characters is `stem`. */
  function ModelPatterns(stem: string): (r: seq<string>)
    ensures |r| == 5
  {
    [stem + "_float16.tflite", stem + "_float32.tflite", stem + "_full_integer_quant.tflite",
     stem + "_int8.tflite", stem + "_integer_quant.tflite"]
  }

  /** `new_pattern`. */
  const NewPatterns: seq<string> := ["f16.tflite", "f32.tflite", "fiq.tflite", "i8.tflite", "iq.tflite"]

  /** The rules `process` walks: `zip(model_pattern, new_pattern)`. */
  function Rules(stem: string): (r: seq<Rule>)
    ensures |r| == 5
    ensures forall j :: 0 <= j < 5 ==> r[j] == (ModelPatterns(stem)[j], NewPatterns[j])
  {
    Zip(ModelPatterns(stem), NewPatterns)
  }

  /** The part of each exported name between the stem and `.tflite`. */
  const Variants: seq<string> := ["_float16", "_float32", "_full_integer_quant", "_int8", "_integer_quant"]

  lemma {:induction false} PatternShape(stem: string, i: int)
    requires 0 <= i < 5
    ensures ModelPatterns(stem)[i] == (stem + Variants[i]) + ".tflite"
  {
  }

  /** Each exported name starts with the stem and is a `.tflite` name. */
  lemma {:induction false} ExportNameShape(stem: string, i: int)
    requires 0 <= i < 5
    ensures |stem| <= |ModelPatterns(stem)[i]| && ModelPatterns(stem)[i][..|stem|] == stem
    ensures EndsWith(ModelPatterns(stem)[i], ".tflite")
  {
    var n := ModelPatterns(stem)[i];
    PatternShape(stem, i);
    assert n == stem + (Variants[i] + ".tflite");
    assert n[|n| - 7..] == ".tflite";
  }

  /** A stem for which the table is unambiguous: it holds no dot, and the
      quantised name `<stem>_full_integer_quant.tflite` does not contain
      `<stem>_integer_quant.tflite`. */
  predicate PlainStem(stem: string)
  {
    '.' !in stem && (stem + "_full")[5..] != stem
  }

  /** Where `t` occurs in `s`, each character of `t` is the character of
      `s` it covers. */
  lemma {:induction false} OccursAtChar(s: string, t: string, p: int, k: int)
    requires OccursAt(s, t, p) && 0 <= k < |t|
    ensures s[p + k] == t[k]
  {
    assert s[p..p + |t|][k] == t[k];
  }

  /** In two names that end in their only dot followed by `tflite`, the
      one can occur in the other only with the dots aligned. */
  lemma {:induction false} DotsAlign(u: string, v: string, p: int)
    requires '.' !in u && '.' !in v && OccursAt(u + ".tflite", v + ".tflite", p)
    ensures p + |v| == |u|
  {
    var s := u + ".tflite";
    OccursAtChar(s, v + ".tflite", p, |v|);
  }

  /** A variant occurs in another only when it is no longer and ends in the
      same character. */
  lemma {:induction false} NoCrossMatch(stem: string, vi: string, vj: string)
    requires '.' !in stem + vi && '.' !in stem + vj && vi != [] && vj != []
    requires |vj| > |vi| || vi[|vi| - 1] != vj[|vj| - 1]
    ensures !Contains((stem + vi) + ".tflite", (stem + vj) + ".tflite")
  {
    var s := (stem + vi) + ".tflite";
    var t := (stem + vj) + ".tflite";
    if Contains(s, t) {
      var p :| 0 <= p <= |s| - |t| && OccursAt(s, t, p);
      OccursAtChar(s, t, p, |stem + vj| - 1);
      DotsAlign(stem + vi, stem + vj, p);
    }
  }

  /** The two integer names share the tail `_integer_quant.tflite`. */
  lemma {:induction false} IntegerNames(stem: string)
    ensures ModelPatterns(stem)[2] == (stem + "_full") + "_integer_quant.tflite"
    ensures ModelPatterns(stem)[4] == stem + "_integer_quant.tflite"
    ensures |stem + "_full"| == |stem| + 5
  {
  }

  /** With `u` five characters longer than `stem`, `stem + tail` occurs
      in `u + tail` at index 5 exactly when `u` ends in `stem`. */
  lemma {:induction false} OccursAfterFive(u: string, stem: string, tail: string)
    requires |u| == |stem| + 5
    ensures OccursAt(u + tail, stem + tail, 5) <==> u[5..] == stem
  {
    assert (u + tail)[5..5 + |stem + tail|] == u[5..] + tail;
    if u[5..] + tail == stem + tail {
      assert u[5..] == (u[5..] + tail)[..|stem|];
    }
  }

  /** The one overlap the table allows: the full-integer name contains the
      integer pattern exactly when the stem repeats itself around `_full`. */
  lemma {:induction false} FullContainsInteger(stem: string)
    requires '.' !in stem
    ensures Contains(ModelPatterns(stem)[2], ModelPatterns(stem)[4]) <==> (stem + "_full")[5..] == stem
  {
    var u := stem + "_full";
    var tail := "_integer_quant.tflite";
    var s := ModelPatterns(stem)[2];
    var t := ModelPatterns(stem)[4];
    IntegerNames(stem);
    OccursAfterFive(u, stem, tail);
    if Contains(s, t) {
      var p :| 0 <= p <= |s| - |t| && OccursAt(s, t, p);
      PatternShape(stem, 2);
      PatternShape(stem, 4);
      DotsAlign(stem + Variants[2], stem + Variants[4], p);
    }
  }

  /** Under a plain stem, each exported name matches its own rule and no
      other. */
  lemma {:induction false} MatchesOwnRule(stem: string, i: int, j: int)
    requires PlainStem(stem) && 0 <= i < 5 && 0 <= j < 5
    ensures MatchesAt(ModelPatterns(stem)[i], Rules(stem), j) <==> i == j
  {
    var n := ModelPatterns(stem)[i];
    PatternShape(stem, i);
    PatternShape(stem, j);
    if i == j {
      assert OccursAt(n, n, 0);
    } else if i == 2 && j == 4 {
      FullContainsInteger(stem);
    } else {
      assert i == 0 || i == 1 || i == 2 || i == 3 || i == 4;
      assert j == 0 || j == 1 || j == 2 || j == 3 || j == 4;
      NoCrossMatch(stem, Variants[i], Variants[j]);
    }
  }

  /** Under a plain stem, each exported name is renamed to its short name. */
  lemma {:induction false} TargetOfExport(stem: string, i: int)
    requires PlainStem(stem) && 0 <= i < 5
    ensures Target(ModelPatterns(stem)[i], Rules(stem)) == NewPatterns[i]
  {
    var n := ModelPatterns(stem)[i];
    MatchesOwnRule(stem, i, i);
    forall j | 0 <= j < i
      ensures !MatchesAt(n, Rules(stem), j)
    {
      MatchesOwnRule(stem, i, j);
    }
    TargetByRule(n, Rules(stem), i);
    ReplaceWhole(n, NewPatterns[i]);
  }

  /** The index of an exported name in the table. */
  lemma {:induction false} IndexOfExport(stem: string, x: string) returns (i: int)
    requires x in ModelPatterns(stem)
    ensures 0 <= i < 5 && ModelPatterns(stem)[i] == x
  {
    i :| 0 <= i < |ModelPatterns(stem)| && ModelPatterns(stem)[i] == x;
  }

  /** A directory whose entries all carry exported names of a plain stem is
      renamed without a clash: each name matches one rule, the short names
      differ, and none of them is an exported name. */
  lemma {:induction false} TableDisciplined(stem: string, e: map<string, Node>)
    requires PlainStem(stem) && forall x :: x in e ==> x in ModelPatterns(stem)
    ensures Disciplined(e, Rules(stem))
  {
    ExportsPlainTargets(stem, e);
    OneRulePerExport(stem, e);
    ShortNamesDiffer(stem, e);
  }

  /** Every new name an exported file of a plain stem can get is plain. */
  lemma {:induction false} ExportsPlainTargets(stem: string, e: map<string, Node>)
    requires PlainStem(stem) && forall x :: x in e ==> x in ModelPatterns(stem)
    ensures forall x :: x in e ==> PlainTargets(x, Rules(stem))
  {
    forall x | x in e
      ensures PlainTargets(x, Rules(stem))
    {
      var i := IndexOfExport(stem, x);
      forall j | MatchesAt(x, Rules(stem), j)
        ensures PlainName(Replace(x, Rules(stem)[j].0, Rules(stem)[j].1))
      {
        MatchesOwnRule(stem, i, j);
        ReplaceWhole(x, NewPatterns[i]);
        ShortNamesDistinct();
      }
    }
  }

  lemma {:induction false} OneRulePerExport(stem: string, e: map<string, Node>)
    requires PlainStem(stem) && forall x :: x in e ==> x in ModelPatterns(stem)
    ensures forall x, j, k {:trigger MatchesAt(x, Rules(stem), j), MatchesAt(x, Rules(stem), k)} ::
      x in e && j < k && MatchesAt(x, Rules(stem), j) ==> !MatchesAt(x, Rules(stem), k)
  {
    forall x, j, k | x in e && j < k && MatchesAt(x, Rules(stem), j)
      ensures !MatchesAt(x, Rules(stem), k)
    {
      var i := IndexOfExport(stem, x);
      MatchesOwnRule(stem, i, j);
      if 0 <= k < 5 {
        MatchesOwnRule(stem, i, k);
      }
    }
  }

  lemma {:induction false} ShortNamesDiffer(stem: string, e: map<string, Node>)
    requires PlainStem(stem) && forall x :: x in e ==> x in ModelPatterns(stem)
    ensures forall x, y {:trigger Target(x, Rules(stem)), Target(y, Rules(stem))} ::
      x in e && y in e && Target(x, Rules(stem)) == Target(y, Rules(stem)) ==> x == y
    ensures forall x, y {:trigger Target(x, Rules(stem)), y in e} ::
      x in e && y in e && Target(x, Rules(stem)) == y ==> x == y
  {
    forall x, y | x in e && y in e
      ensures Target(x, Rules(stem)) == Target(y, Rules(stem)) ==> x == y
    {
      ShortNamesApart(stem, x, y);
    }
    forall x, y | x in e && y in e
      ensures Target(x, Rules(stem)) == y ==> x == y
    {
      ShortNamesApart(stem, x, y);
    }
  }

  lemma {:induction false} ShortNamesApart(stem: string, x: string, y: string)
    requires PlainStem(stem) && x in ModelPatterns(stem) && y in ModelPatterns(stem)
    ensures Target(x, Rules(stem)) == Target(y, Rules(stem)) ==> x == y
    ensures Target(x, Rules(stem)) != y
  {
    var i := IndexOfExport(stem, x);
    var i' := IndexOfExport(stem, y);
    assert Target(x, Rules(stem)) == NewPatterns[i] by { TargetOfExport(stem, i); }
    assert Target(y, Rules(stem)) == NewPatterns[i'] by { TargetOfExport(stem, i'); }
    assert NewPatterns[i] == NewPatterns[i'] ==> i == i' by { ShortNamesDistinct(); }
    assert NewPatterns[i] != y by {
      ShortNamesDistinct();
      PatternLength(stem, i');
    }
  }

  /** Every exported name is longer than any short name. */
  lemma {:induction false} PatternLength(stem: string, i: int)
    requires 0 <= i < 5
    ensures |ModelPatterns(stem)[i]| > 10
  {
    var m := ModelPatterns(stem);
    assert |m[0]| == |stem| + 15 && |m[1]| == |stem| + 15 && |m[2]| == |stem| + 26;
    assert |m[3]| == |stem| + 12 && |m[4]| == |stem| + 21;
  }

  /** The published names of the exported files in `e`: each file keeps its
      content under the short name of its variant. */
  function ShortNames(e: map<string, Node>, stem: string): (r: map<string, Node>)
    ensures forall i :: 0 <= i < 5 ==> (NewPatterns[i] in r <==> ModelPatterns(stem)[i] in e)
    ensures forall i :: 0 <= i < 5 && ModelPatterns(stem)[i] in e ==> r[NewPatterns[i]] == e[ModelPatterns(stem)[i]]
    ensures forall k :: k in r ==> exists i :: 0 <= i < 5 && k == NewPatterns[i] && ModelPatterns(stem)[i] in e
  {
    ShortNamesDistinct();
    map i | 0 <= i < 5 && ModelPatterns(stem)[i] in e :: NewPatterns[i] := e[ModelPatterns(stem)[i]]
  }

  /** The five short names differ. */
  lemma {:induction false} ShortNamesDistinct()
    ensures |NewPatterns| == 5
    ensures forall i, j :: 0 <= i < 5 && 0 <= j < 5 && NewPatterns[i] == NewPatterns[j] ==> i == j
    ensures forall i :: 0 <= i < 5 ==> |NewPatterns[i]| <= 10 && PlainName(NewPatterns[i])
  {
    forall i, j | 0 <= i < 5 && 0 <= j < 5 && i != j
      ensures NewPatterns[i] != NewPatterns[j]
    {
      assert NewPatterns[i][1] != NewPatterns[j][1] || NewPatterns[i][0] != NewPatterns[j][0];
    }
  }

  /** Renaming a directory of exported files of a plain stem gives each file
      its short name and nothing else. */
  lemma {:induction false} ExportsRenamed(stem: string, e: map<string, Node>, d: map<string, Node>)
    requires PlainStem(stem) && forall x :: x in e ==> x in ModelPatterns(stem)
    requires Renamed(d, e, Rules(stem))
    ensures d == ShortNames(e, stem)
  {
    ShortNamesRenamed(stem, e);
    RenamedUnique(d, ShortNames(e, stem), e, Rules(stem));
  }

  /** The short names are the renaming of a directory of exported files. */
  lemma {:induction false} ShortNamesRenamed(stem: string, e: map<string, Node>)
    requires PlainStem(stem) && forall x :: x in e ==> x in ModelPatterns(stem)
    ensures Renamed(ShortNames(e, stem), e, Rules(stem))
  {
    var r := ShortNames(e, stem);
    var rules := Rules(stem);
    assert PlacedOnly(r, e, rules, {}) by {
      forall k | k in r
        ensures exists x :: x in e && Place(x, rules, {}) == k
      {
        var i :| 0 <= i < 5 && k == NewPatterns[i] && ModelPatterns(stem)[i] in e;
        var x := ModelPatterns(stem)[i];
        TargetOfExport(stem, i);
        assert x in e && Place(x, rules, {}) == k;
      }
    }
    assert PlacedAll(r, e, rules, {}) by {
      forall x | x in e
        ensures Place(x, rules, {}) in r && r[Place(x, rules, {})] == e[x]
      {
        var i := IndexOfExport(stem, x);
        TargetOfExport(stem, i);
      }
    }
  }

  /** The clash the table leaves: for a stem such as `full`, the
      full-integer name also contains the integer pattern. The first rule
      moves it to `fiq.tflite`; the second then renames a name that is no
      longer there, and `process` raises `FileNotFoundError`. */
  lemma {:induction false} FullStemClashes(e: map<string, Node>)
    requires ModelPatterns("full")[2] in e && NewPatterns[2] !in e
    ensures MatchesAt(ModelPatterns("full")[2], Rules("full"), 2)
    ensures MatchesAt(ModelPatterns("full")[2], Rules("full"), 4)
    ensures MovesAway(e, ModelPatterns("full")[2], Rules("full"))
    ensures MatchesTwiceBefore(ModelPatterns("full")[2], Rules("full"), |Rules("full")|)
  {
    var n := ModelPatterns("full")[2];
    var rules := Rules("full");
    assert OccursAt(n, n, 0);
    FullContainsInteger("full");
    assert ("full" + "_full")[5..] == "full";
    forall j | 0 <= j < 2
      ensures !MatchesAt(n, rules, j)
    {
      PatternShape("full", 2);
      PatternShape("full", j);
      NoCrossMatch("full", Variants[2], Variants[j]);
    }
    TargetByRule(n, rules, 2);
    ReplaceWhole(n, NewPatterns[2]);
    assert MatchesAt(n, rules, 2) && MatchesAt(n, rules, 4);
    FullStemPlain();
  }

  /** Every new name of the exported name with stem "full" is plain. */
  lemma {:induction false} FullStemPlain()
    ensures PlainTargets(ModelPatterns("full")[2], Rules("full"))
  {
    var n := ModelPatterns("full")[2];
    var rules := Rules("full");
    assert '/' !in n by {
      PatternShape("full", 2);
    }
    ShortNamesDistinct();
    forall j | MatchesAt(n, rules, j)
      ensures PlainName(Replace(n, rules[j].0, rules[j].1))
    {
      ReplaceKeepsOut(n, rules[j].0, rules[j].1, '/');
    }
  }
}
