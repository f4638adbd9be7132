/** The `Export` class: where the TFLite exporter leaves its output, the
    three-phase `process_files_after_export` that publishes it under
    `<working_dir>/models`, and the `export` dispatch with its
    `try`/`except`/`finally`. The exporter itself lies outside the model:
    what it returns or raises is a parameter. */
module Exporting {
  import opened Outcomes
  import opened FsTree
  import opened FileSystem
  import opened PathNames
  import opened Prune
  import opened Rename
  import opened Publish
  import opened PatternTable

  /** What `export` raises. `NoneAsPath` is the `TypeError` that
      `os.path.join` and `os.rmdir` raise when the path is `None`. */
  datatype ExportError = InvalidExportType | Os(error: OsError) | ExporterError | NoneAsPath

  /** Python's `s[:-3]`: all but the last three characters, or nothing. */
  function DropLast3(s: string): (r: string)
    ensures |s| >= 3 ==> r + s[|s| - 3..] == s
    ensures |s| < 3 ==> r == []
  {
    if |s| >= 3 then s[..|s| - 3] else []
  }

  /** A name without separators is one path component. */
  lemma {:induction false} ComponentsOfName(name: string)
    requires name != [] && '/' !in name
    ensures Components(name) == [name]
  {
    FirstIndexOfFinds(name, '/');
  }

  /** Dropping characters keeps a name free of separators. */
  lemma {:induction false} DropLast3NoSeparator(s: string)
    requires '/' !in s
    ensures '/' !in DropLast3(s)
  {
    if |s| >= 3 {
      assert DropLast3(s) == s[..|s| - 3];
    }
  }

  /** Appending to a joined relative name appends to the name. */
  lemma {:induction false} JoinThenAppend(a: string, b: string, suffix: string)
    requires '/' !in b && suffix != [] && suffix[0] != '/'
    ensures Join(a, b) + suffix == Join(a, b + suffix)
  {
    assert (b + suffix)[0] != '/' by {
      if b != [] {
        assert (b + suffix)[0] == b[0];
      }
    }
    if a == [] || a[|a| - 1] == '/' {
      assert (a + b) + suffix == a + (b + suffix);
    } else {
      assert (a + "/" + b) + suffix == a + "/" + (b + suffix);
    }
  }

  /** Joining a name without separators onto a directory and appending
      `_saved_model` gives one more entry of that directory. */
  lemma {:induction false} StagingName(workingDir: string, stem: string)
    requires '/' !in stem
    ensures Components(Join(workingDir, stem) + "_saved_model") == Components(workingDir) + [stem + "_saved_model"]
  {
    var name := stem + "_saved_model";
    assert '/' !in name && name[0] != '/';
    assert Join(workingDir, stem) + "_saved_model" == Join(workingDir, name) by {
      JoinThenAppend(workingDir, stem, "_saved_model");
    }
    assert Components(Join(workingDir, name)) == Components(workingDir) + Components(name) by {
      JoinAppendsComponents(workingDir, name);
    }
    ComponentsOfName(name);
  }

  /** The directory the TFLite exporter writes: the model path without its
      three-character suffix, joined onto the working directory, followed
      by `_saved_model`. For a model path without separators it is one
      entry of the working directory. */
  function StagingPath(workingDir: string, modelPath: string): (r: string)
    ensures '/' !in modelPath ==> Components(r) == Components(workingDir) + [DropLast3(modelPath) + "_saved_model"]
  {
    var stem := DropLast3(modelPath);
    assert '/' !in modelPath ==>
      Components(Join(workingDir, stem) + "_saved_model") == Components(workingDir) + [stem + "_saved_model"] by {
      if '/' !in modelPath {
        DropLast3NoSeparator(modelPath);
        StagingName(workingDir, stem);
      }
    }
    Join(workingDir, stem) + "_saved_model"
  }

  /** A name followed by one separator is that one component. */
  lemma {:induction false} ComponentsOfDirName(name: string)
    requires name != [] && '/' !in name
    ensures Components(name + "/") == [name]
  {
    var p := name + "/";
    FirstIndexOfFinds(name, '/');
    FirstIndexOfIs(p, '/', |name|);
    ComponentsAtSeparator(p, |name|);
    assert p[..|name|] == name && p[|name| + 1..] == [];
  }

  /** The directory the models are published in: the entry `models` of
      the working directory. */
  function ModelsPath(workingDir: string): (r: string)
    ensures Components(r) == Components(workingDir) + ["models"]
  {
    assert workingDir + "/models/" == workingDir + "/" + ("models" + "/");
    ComponentsOfJoined(workingDir, "models" + "/");
    ComponentsOfDirName("models");
    workingDir + "/models/"
  }

  /** For a model path without separators, the staging directory and the
      models directory are two different entries of the working directory,
      so neither lies inside the other. */
  lemma {:induction false} StagingBesideModels(workingDir: string, modelPath: string)
    requires '/' !in modelPath
    ensures Disjoint(Components(StagingPath(workingDir, modelPath)), Components(ModelsPath(workingDir)))
  {
    var w := Components(workingDir);
    var name := DropLast3(modelPath) + "_saved_model";
    assert (w + [name])[|w|] == name && (w + ["models"])[|w|] == "models";
    assert |name| > |"models"|;
  }

  /** What the models directory held before publishing. */
  function ModelsBefore(n: Node, dest: Path): map<string, Node>
  {
    if IsDirAt(n, dest) then EntriesAt(n, dest) else map[]
  }

  /** The layout under which `process_files_after_export(src)` publishes:
      the staging and models directories lie apart; no subdirectory of the
      staging directory holds a `.tflite` file; every top-level `.tflite`
      file there carries an exported name of a plain stem; and the models
      directory is a directory where no short name is a subdirectory, or is
      missing from an existing parent. */
  ghost predicate Publishes(n: Node, src: Path, dest: Path, stem: string)
  {
    n.Dir? && src != [] && dest != [] && Disjoint(src, dest) && IsDirAt(n, src)
    && !NestedTflite(EntriesAt(n, src))
    && PlainStem(stem) && (forall x :: x in Pruned(EntriesAt(n, src)) ==> x in ModelPatterns(stem))
    && IsDirAt(n, Parent(dest))
    && (Get(n, dest).Some? ==>
          IsDirAt(n, dest) && forall k :: k in EntriesAt(n, dest) && k in NewPatterns ==> EntriesAt(n, dest)[k].File?)
  }

  /** Short names of files are files. */
  lemma {:induction false} ShortNamesAreFiles(e: map<string, Node>, stem: string)
    requires AllFiles(e)
    ensures AllFiles(ShortNames(e, stem))
  {
    var r := ShortNames(e, stem);
    forall k | k in r
      ensures r[k].File?
    {
      var i :| 0 <= i < |NewPatterns| && NewPatterns[i] == k;
    }
  }

  /** Replacing the staging directory leaves the models directory and its
      parent as they were. */
  lemma {:induction false} RenameKeepsModels(n: Node, src: Path, d: map<string, Node>, dest: Path)
    requires Get(n, src).Some? && src != [] && dest != [] && Disjoint(src, dest) && IsDirAt(n, Parent(dest))
    ensures Get(Put(n, src, Dir(d)), dest) == Get(n, dest)
    ensures IsDirAt(Put(n, src, Dir(d)), Parent(dest))
  {
    GetPutDisjoint(n, src, Dir(d), dest);
    if Disjoint(Parent(dest), src) {
      GetPutDisjoint(n, src, Dir(d), Parent(dest));
    } else {
      assert IsPrefix(Parent(dest), src) && |Parent(dest)| < |src|;
      PutKeepsAncestors(n, src, Dir(d), Parent(dest));
    }
  }

  /** A models directory that exists, or is missing from an existing
      parent, is ready for `postprocess`. */
  lemma {:induction false} ModelsReady(m: Node, dest: Path)
    requires m.Dir? && dest != [] && IsDirAt(m, Parent(dest)) && (Get(m, dest).Some? ==> IsDirAt(m, dest))
    ensures DestReady(m, dest)
  {
    if Get(m, dest).None? {
      assert dest[..|dest| - 1] == Parent(dest);
      MakeDirsChild(m, dest);
    }
  }

  /** Once the staged files carry their short names, the tree is ready for
      `postprocess`, and the models directory it starts from is the one
      there was before. */
  lemma {:induction false} ReadyToPublish(n: Node, src: Path, dest: Path, stem: string)
    requires Publishes(n, src, dest, stem)
    ensures var d := ShortNames(Pruned(EntriesAt(n, src)), stem);
      Get(n, src).Some? && Publishable(Put(n, src, Dir(d)), src, dest)
      && EntriesAt(Staged(Put(n, src, Dir(d)), dest), dest) == ModelsBefore(n, dest)
  {
    var d := ShortNames(Pruned(EntriesAt(n, src)), stem);
    var m := Put(n, src, Dir(d));
    ShortNamesAreFiles(Pruned(EntriesAt(n, src)), stem);
    RenameKeepsModels(n, src, d, dest);
    ModelsReady(m, dest);
    assert EntriesAt(Staged(m, dest), dest) == ModelsBefore(n, dest);
  }

  class Export {
    const modelPath: string
    const workingDir: string
    const fs: FileSystem

    ghost predicate Valid()
      reads fs
    {
      fs.Valid()
    }

    constructor (modelPath: string, workingDir: string, fs: FileSystem)
      requires fs.Valid()
      ensures Valid() && this.modelPath == modelPath && this.workingDir == workingDir && this.fs == fs
    {
      this.modelPath := modelPath;
      this.workingDir := workingDir;
      this.fs := fs;
    }

    function Stem(): string
    {
      DropLast3(modelPath)
    }

    function StagingDir(): Path
    {
      Components(StagingPath(workingDir, modelPath))
    }

    function ModelsDir(): Path
    {
      Components(ModelsPath(workingDir))
    }

    /** `_find_dir`: the staging path when it names a directory. */
    method FindDir() returns (r: Option<string>)
      ensures IsDirAt(fs.root, StagingDir()) ==> r == Some(StagingPath(workingDir, modelPath))
      ensures !IsDirAt(fs.root, StagingDir()) ==> r == None
    {
      var itemPath := StagingPath(workingDir, modelPath);
      if IsDirAt(fs.root, Components(itemPath)) {
        return Some(itemPath);
      }
      return None;
    }

    /** `process_files_after_export(dir)`: prune, rename, publish. It
        raises when a subdirectory of `dir` holds a `.tflite` file. Under
        `Publishes` it returns normally, `dir` is gone, the models directory
        holds what it held plus every exported file under its short name,
        and nothing else that existed changes. */
    method ProcessFilesAfterExport(dir: string) returns (st: Status)
      requires Valid()
      modifies fs
      ensures Valid()
      ensures IsDirAt(old(fs.root), Components(dir)) && NestedTflite(EntriesAt(old(fs.root), Components(dir))) ==>
        st.Failed?
      ensures st == Done ==> Get(fs.root, Components(dir)).None?
      ensures Publishes(old(fs.root), Components(dir), ModelsDir(), Stem()) ==>
        st == Done
        && Get(fs.root, Components(dir)).None?
        && IsDirAt(fs.root, ModelsDir())
        && EntriesAt(fs.root, ModelsDir()) ==
             ModelsBefore(old(fs.root), ModelsDir()) + ShortNames(Pruned(EntriesAt(old(fs.root), Components(dir))), Stem())
        && forall q :: Get(old(fs.root), q).Some? && Disjoint(q, Components(dir)) && Disjoint(q, ModelsDir()) ==>
             Get(fs.root, q) == Get(old(fs.root), q)
    {
      var src := Components(dir);
      var dest := Components(ModelsPath(workingDir));
      ghost var n0 := fs.root;
      ghost var good := Publishes(n0, src, dest, Stem());
      var pruned := Preprocess(fs, src);
      if pruned.Failed? {
        return pruned;
      }
      ghost var root1 := fs.root;
      ghost var p := if good then Pruned(EntriesAt(n0, src)) else map[];
      if good {
        PutGet(n0, src);
        TableDisciplined(Stem(), p);
      }
      var renamed := Process(fs, src, ModelPatterns(DropLast3(modelPath)), NewPatterns);
      if renamed.Failed? {
        return renamed;
      }
      ghost var d := if good then ShortNames(p, Stem()) else map[];
      if good {
        ExportsRenamed(Stem(), p, EntriesAt(fs.root, src));
        PutPut(n0, src, Dir(p), Dir(d));
        ReadyToPublish(n0, src, dest, Stem());
      }
      ghost var root2 := fs.root;
      st := Postprocess(fs, src, dest);
      if good {
        PublishedLayout(root2, src, dest);
        forall q | Get(n0, q).Some? && Disjoint(q, src) && Disjoint(q, dest)
          ensures Get(fs.root, q) == Get(n0, q)
        {
          GetPutDisjoint(n0, src, Dir(d), q);
          PublishedKeepsOthers(root2, src, dest, q);
        }
      }
    }

    /** `process_files_after_export(None)`, which `export` runs when
        `_find_dir` finds no staging directory. `os.listdir(None)` lists the
        process's current directory, which the tree does not hold: `cwd` is
        what that listing returns or raises. The call never returns
        normally. A failing listing raises its `OSError`. On the first
        entry, `os.path.join(None, item)` raises `TypeError`. Over an empty
        listing, `postprocess` first creates a missing models directory and
        then `os.path.join(None, ...)` or `os.rmdir(None)` raises
        `TypeError`, unless `os.makedirs` raises first. */
    method ProcessWithoutDir(cwd: Outcome<set<string>, OsError>) returns (e: ExportError)
      requires Valid()
      modifies fs
      ensures Valid()
      ensures e == NoneAsPath || e.Os?
      ensures cwd.Raised? ==> e == Os(cwd.error) && fs.root == old(fs.root)
      ensures cwd.Returned? && (cwd.value != {} || Get(old(fs.root), ModelsDir()).Some?) ==>
        e == NoneAsPath && fs.root == old(fs.root)
      ensures cwd == Returned({}) && Get(old(fs.root), ModelsDir()).None? ==>
        match MakeDirs(old(fs.root), ModelsDir())
        case Returned(r) => e == NoneAsPath && fs.root == r
        case Raised(err) => e == Os(err) && fs.root == old(fs.root)
    {
      if cwd.Raised? {
        return Os(cwd.error);
      }
      if cwd.value != {} {
        return NoneAsPath;
      }
      if Get(fs.root, ModelsDir()).None? {
        var made := fs.Makedirs(ModelsDir());
        if made.Failed? {
          return Os(made.error);
        }
      }
      return NoneAsPath;
    }

    /** `export(export_type)`, with what the exporter returns or raises for
        ONNX and for TFLite as parameters, and with the listing of the
        current directory that a clean-up without a staging directory sees.
        ONNX returns the exporter's answer; an unknown type raises
        `ValueError`. TFLite never returns `False`: the bare `except`
        swallows what the `try` body raises, and the `finally` clause runs
        the clean-up once more and returns `True` unless that clean-up
        raises. It returns `True` only when that last clean-up found a
        staging directory and removed it. After a successful publish in the
        `try` body, the last clean-up finds none and raises. */
    method Export(exportType: string, onnx: Outcome<bool, ExportError>, tflite: Outcome<bool, ExportError>,
                  cwd: Outcome<set<string>, OsError>) returns (r: Outcome<bool, ExportError>)
      requires Valid()
      modifies fs
      ensures Valid()
      ensures exportType == "onnx" ==> r == onnx && fs.root == old(fs.root)
      ensures exportType != "onnx" && exportType != "tflite" ==> r == Raised(InvalidExportType) && fs.root == old(fs.root)
      ensures exportType == "tflite" ==> r == Returned(true) || (r.Raised? && (r.error.Os? || r.error == NoneAsPath))
      ensures exportType == "tflite" && r.Returned? ==> Get(fs.root, StagingDir()).None?
      ensures exportType == "tflite" && Publishes(old(fs.root), StagingDir(), ModelsDir(), Stem()) ==>
        r == (if tflite == Returned(true) then Raised(if cwd.Raised? then Os(cwd.error) else NoneAsPath)
              else Returned(true))
        && Get(fs.root, StagingDir()).None?
        && IsDirAt(fs.root, ModelsDir())
        && EntriesAt(fs.root, ModelsDir()) ==
             ModelsBefore(old(fs.root), ModelsDir()) + ShortNames(Pruned(EntriesAt(old(fs.root), StagingDir())), Stem())
    {
      if exportType == "onnx" {
        return onnx;
      } else if exportType == "tflite" {
        if tflite == Returned(true) {
          var found := FindDir();
          if found.Some? {
            var first := ProcessFilesAfterExport(found.value);
          } else {
            var first := ProcessWithoutDir(cwd);
          }
        }
        var found := FindDir();
        if found.Some? {
          var last := ProcessFilesAfterExport(found.value);
          if last.Failed? {
            return Raised(Os(last.error));
          }
          return Returned(true);
        }
        var e := ProcessWithoutDir(cwd);
        return Raised(e);
      } else {
        return Raised(InvalidExportType);
      }
    }
  }
}
