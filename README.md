# train_export: the export step and its decorators, in Dafny

train_export trains YOLO models and exports them for Rockchip NPUs. Its
`Export` class asks the TFLite exporter for five quantised variants of a
model. The exporter leaves them in a staging directory
`<working_dir>/<model_path[:-3]>_saved_model`.
`process_files_after_export` publishes them under `<working_dir>/models/`
in three phases:

- `preprocess` prunes everything that is not a top-level `.tflite` file;
- `process` renames the exported names to short names (`f16.tflite` …
  `iq.tflite`);
- `postprocess` copies the files into the models directory and removes the
  staging directory.

Beside it, `utils/functions.py` provides the decorators the project wraps
its functions in: an LRU cache, a retry loop and an argument type check.
It also provides `get_filename_without_extension`.

The model follows the source's own form:

- The file system is one mutable object, `FileSystem.FileSystem`. Its
  methods are the `os` calls, and each states its new tree in terms of
  `FsTree.Put` on the old one.
- The three phases are methods with loops over a snapshot of `os.listdir`.
  Each loop picks the next entry nondeterministically, so the proofs hold
  for every listing order.
- The cache closure's `cache` dict and `keys_queue` list are the fields of
  the class `LruCache.Cache`.
- The retry decorator is a method with its `while` loop.
- The type check and the path helpers are functions.

Modules, one per file:

| file | module | models |
|---|---|---|
| outcomes.dfy | Outcomes | a Python call that returns or raises |
| lru_cache.dfy | LruCache | `__cache__` |
| retry.dfy | Retry | `__retry__` |
| valid_type.dfy | ValidType | `__valid_type__` |
| path_names.dfy | PathNames | `os.path.basename`, `splitext`, `join`, `get_filename_without_extension` |
| text.dfy | Text | `str` containment, `endswith`, `replace` |
| fs_tree.dfy | FsTree | the file tree as a value |
| file_system.dfy | FileSystem | `os.listdir`, `remove`, `rmdir`, `rename`, `makedirs`, `shutil.copy2` |
| prune.dfy | Prune | `preprocess` |
| rename.dfy | Rename | `process` |
| publish.dfy | Publish | `postprocess` |
| pattern_table.dfy | PatternTable | the `model_pattern` / `new_pattern` tables |
| export.dfy | Exporting | `_find_dir`, `process_files_after_export`, `export` |

The main result is the contract of
`Exporting.Export.ProcessFilesAfterExport`, under the layout `Publishes`:

- the staging directory holds no `.tflite` file below its top level;
- its `.tflite` files carry the exported names of a plain stem;
- the models directory is missing from an existing parent, or holds no
  subdirectory under a short name.

Under that layout the call returns normally and the staging directory is
gone. The models directory then holds what it held before, overwritten
and extended by each exported file under its short name. Every other
existing node is unchanged. The call raises whenever a subdirectory of
the staging directory holds a `.tflite` file.

Consequences of the code that the contracts state:

- Renaming is not cumulative. `process` renames an entry once for every
  rule whose pattern it contains, always under the entry's original name.
  A name that contains two patterns is moved by the first rename, and the
  second raises `FileNotFoundError` (`Rename.ApplyRules`). The pattern
  table is free of such overlaps for every plain stem
  (`PatternTable.MatchesOwnRule`). The full-integer name contains the
  integer pattern exactly when dropping the first five characters of
  `<stem>_full` gives the stem back (`PatternTable.FullContainsInteger`).
  The stem `full` (the model path `full.pt`) is one such stem
  (`PatternTable.FullStemClashes`); the empty stem is another.
- Renaming looks only at the top-level entries of the staging directory,
  not at nested ones.
- Publishing does not flatten subdirectories. `shutil.copy2` raises
  `IsADirectoryError` on one, so `postprocess` returns normally only over
  a staging directory of plain files (`Publish.Postprocess`).
- A rename onto an existing file replaces it silently (POSIX
  `os.rename`). No rename conflict is reported.
- A TFLite export never returns `False`. The bare `except` swallows what
  the `try` body raises, and the `finally` clause runs the clean-up once
  more. That clean-up returns `True` only when it finds a staging
  directory and removes it. After a successful publish in the `try` body
  it finds none and calls `process_files_after_export(None)`. That call
  raises `TypeError` from `os.path.join(None, ...)` or `os.rmdir(None)`,
  or the `OSError` of listing the current directory, and the exception
  leaves `export` (`Exporting.Export.Export`,
  `Exporting.Export.ProcessWithoutDir`).

## Model

| member | source | states |
|---|---|---|
| LruCache.Cache.constructor | utils/functions.py:75-76 | a fresh closure has an empty `cache` and `keys_queue`, and the cache invariant holds |
| LruCache.Cache.Call | utils/functions.py:80-98 | a hit calls nothing, returns the stored value and moves the key to the back of the queue. A miss calls the wrapped function exactly once and returns its outcome. A raising miss stores nothing. A miss that fits appends the key and stores the result. A miss that overflows evicts exactly the least recently used key. The invariant (dict keys = queue members, no duplicates, at most `maxsize` entries) is kept |
| LruCache.RemoveFirst | utils/functions.py:85 | `list.remove` removes one occurrence of the key and keeps the rest of the multiset |
| LruCache.RemoveFirstKeepsOthers | utils/functions.py:85 | on a queue without duplicates, removing a key leaves every other key and still no duplicates |
| LruCache.RemoveFirstAt | utils/functions.py:85 | removing the first occurrence keeps the keys before and after it, in order |
| LruCache.HitKeepsConsistent | utils/functions.py:83-87 | a hit keeps the queue's length and the invariant, and leaves the key last |
| LruCache.MissKeepsConsistent | utils/functions.py:88-98 | a miss followed by the eviction of the front key when the queue exceeds `maxsize` restores the invariant |
| Retry.FirstSettled | utils/functions.py:56-61 | the first call that returns or raises something `except Exception` does not catch, if any: every earlier call raised an `Exception`, and there is none exactly when every call raised an `Exception` |
| Retry.Retry | utils/functions.py:53-66 | at most `max_attempts` calls (none when it is not positive). The first call that returns gives the result, after exactly that many calls. The first call that raises a non-`Exception` re-raises it at once. It returns `None` after all attempts when every call raises an `Exception` |
| ValidType.FirstPositionalMismatch | utils/functions.py:129-131 | the first positional argument, among those `zip` pairs with a type, that is not an instance of it; none exactly when all pass |
| ValidType.FirstKeywordMismatch | utils/functions.py:132-134 | the first declared keyword that is passed with a value of the wrong type; none exactly when none is |
| ValidType.Call | utils/functions.py:128-135 | the wrapped function runs (and its result is returned) exactly when every paired positional argument and every passed declared keyword is an instance of its type. A positional `TypeError` names the first failing index and is raised before any keyword is checked. A keyword `TypeError` names a declared keyword that rejects the call, with no earlier declared keyword rejecting it |
| ValidType.SurplusArgumentsUnchecked | utils/functions.py:129 | positional arguments beyond the declared types never change the check |
| ValidType.AbsentKeywordUnchecked | utils/functions.py:132-133 | declaring a keyword that the call does not pass never changes whether the check passes |
| PathNames.LastIndexOf | utils/functions.py:196-197 | the last index of a character, or -1 when it is absent |
| PathNames.Basename | utils/functions.py:196 | `os.path.basename` is the suffix after the last separator and holds no separator |
| PathNames.StripExtension | utils/functions.py:197 | the root from `os.path.splitext` is a prefix of the name. It is the whole name, or it stops at the last dot and is not all dots. It drops an extension exactly when some non-dot character precedes a dot |
| PathNames.FilenameWithoutExtension | utils/functions.py:189-198 | the result is a prefix of the base name and holds no separator. It is the whole base name, or it stops at the base name's last dot. It differs from the base name exactly when a non-dot character precedes a dot in the base name |
| PathNames.StemOfFileInDirectory | utils/functions.py:196-197 | for any directory, `dir/stem.ext` gives back `stem` (as for `models/f16.tflite` at export/export.py:113) |
| PathNames.Join | export/export.py:122 | `os.path.join` ends with its second argument. An absolute second argument discards the first; a relative one keeps the first as a prefix |
| PathNames.JoinAppendsComponents | export/export.py:122 | `os.path.join` of a relative name onto a directory appends the name's components |
| Text.Contains | export/export.py:149 | `in` on strings: the empty string is in every string, no longer one is, and one of equal length only in itself |
| Text.EndsWith | export/export.py:141 | `str.endswith`: the empty suffix ends every string; a suffix that ends a string occurs in it and shares its last character |
| Text.Replace | export/export.py:151 | `str.replace` leaves a string without the pattern unchanged |
| Text.ReplaceKeepsOut | export/export.py:151 | `str.replace` adds no character that neither the string nor the replacement holds, and keeps a non-empty string non-empty under a non-empty replacement |
| Text.ReplaceWhole | export/export.py:151 | a name that is exactly the pattern becomes exactly the replacement |
| FileSystem.MakeDirs | export/export.py:165 | `os.makedirs` raises `FileExistsError` on an existing path. On success it leaves an empty directory at the path |
| FileSystem.MakeDirsKeeps | export/export.py:165 | `os.makedirs` changes nothing that exists off the path |
| FileSystem.MakeDirsChild | export/export.py:164-165 | creating a missing entry of an existing directory succeeds |
| FileSystem.RenameIn | export/export.py:158 | `os.rename` within one directory's entries: a missing source raises `FileNotFoundError`; a file onto a free name or a file succeeds, onto a directory raises `IsADirectoryError`; on success the target holds the source's node, the source name is gone unless it is the target, and every other entry is unchanged |
| FileSystem.CopyInto | export/export.py:174 | `shutil.copy2` into one directory's entries raises `IsADirectoryError` exactly when the destination is a directory holding a subdirectory of the file's name. Otherwise the file lands at the destination name, or inside it when that is a directory, and every other entry is unchanged |
| FileSystem.FileSystem.ListDir | export/export.py:133 | `os.listdir` lists exactly the entries of a directory, and raises otherwise |
| FileSystem.FileSystem.Remove | export/export.py:142 | `os.remove` deletes exactly a file entry; on anything else it raises and changes nothing |
| FileSystem.FileSystem.Rmdir | export/export.py:138 | `os.rmdir` deletes exactly an empty directory. A non-empty one raises `OSError` (directory not empty), and nothing changes |
| FileSystem.FileSystem.Rename | export/export.py:158 | `os.rename` within a directory, with POSIX rules: an existing file target is replaced. A missing source raises `FileNotFoundError` |
| FileSystem.CopyTarget | export/export.py:174 | `shutil.copy2` writes to the destination name, or to the file's name inside it exactly when the destination is a directory |
| FileSystem.ApartTargets | export/export.py:174 | a copy into a directory apart from the source directory never targets a file directly inside the source directory |
| FileSystem.FileSystem.Copy2 | export/export.py:174 | `shutil.copy2` of a file writes its content at the destination name, or inside it when that is a directory. A directory source raises. A copy of a file onto itself raises `SameFileError` and changes nothing |
| FileSystem.FileSystem.Makedirs | export/export.py:165 | the tree after `os.makedirs` is `MakeDirs` of the tree before, or unchanged when it raises |
| Prune.TfliteName | export/export.py:141 | `item.endswith(".tflite")` (`Prune.IsTflite`) holds exactly when the name is some base followed by `.tflite`, and it holds for every such name |
| Prune.Pruned | export/export.py:141-143 | what pruning keeps: exactly the top-level `.tflite` files, unchanged. It is empty exactly when there is none |
| Prune.Preprocess | export/export.py:132-143 | `preprocess` returns normally exactly when no subdirectory holds a `.tflite` file (a non-empty `os.rmdir` raises otherwise). It then leaves exactly `Pruned`. Nothing outside the directory changes, even when it raises |
| Rename.Zip | export/export.py:148 | `zip` pairs equal indexes up to the shorter list |
| Rename.FirstMatch | export/export.py:148-149 | the first rule whose pattern the name contains; none exactly when no rule matches |
| Rename.Target | export/export.py:148-151 | a name that matches no rule keeps its name |
| Rename.TargetByRule | export/export.py:149-151 | the first matching rule gives a name its new name |
| Rename.ApplyRules | export/export.py:148-158 | the inner loop over one entry. When it renames cleanly, the entry ends under its target and nothing else changes. When two rules match and the first moves the entry away, the second rename raises `FileNotFoundError` after the first has moved it. Both need every new name to be plain (non-empty, no `/`) |
| Rename.CleanStep | export/export.py:147-158 | without a clash, each unvisited entry renames cleanly (it is there, its new names are plain, one rule matches it, its target is free), and renaming it keeps every entry at its place |
| Rename.RenamedUnique | export/export.py:147 | the renamed directory does not depend on the order `os.listdir` gives |
| Rename.Process | export/export.py:146-160 | a missing directory raises. Nothing outside the directory changes. When the rules rename without a clash (plain new names, one rule per name, distinct and free targets), it returns normally and every entry sits under its target, holding the same node |
| Publish.Staged | export/export.py:164-165 | after the existence check the destination is a directory: the old one, or a new empty one |
| Publish.StagedKeeps | export/export.py:164-165 | creating the destination changes nothing off its path |
| Publish.CopiedTree | export/export.py:167-176 | copying leaves the staging directory and its parent in place |
| Publish.CopyStep | export/export.py:174 | copying one file adds or overwrites exactly that name in the destination |
| Publish.CopyAll | export/export.py:167-176 | the copy loop. When the staging directory lies apart from the destination, it is never touched. It raises on a subdirectory. When the copies fit, the destination ends as its old entries overwritten by every staged file |
| Publish.RemoveAll | export/export.py:178-188 | the removal loop empties a directory of files |
| Publish.Postprocess | export/export.py:163-190 | under `Publishable` it returns normally and leaves the `Published` tree. It returns normally on a staging directory apart from the destination only when that directory held only files, and a normal return means the staging directory is gone |
| Publish.PublishedLayout | export/export.py:163-190 | after `postprocess` the staging directory is gone and the destination holds its former entries overwritten by the staged files |
| Publish.PublishedKeepsOthers | export/export.py:163-190 | `postprocess` changes no other existing node |
| PatternTable.ModelPatterns | export/export.py:195-197 | `model_pattern` has five names |
| PatternTable.ExportNameShape | export/export.py:195-197 | each name in `model_pattern` starts with the stem and ends in `.tflite` |
| PatternTable.Rules | export/export.py:195-202 | `zip(model_pattern, new_pattern)` is the five pairs in order |
| PatternTable.FullContainsInteger | export/export.py:195-197 | the full-integer name contains the integer pattern exactly when the stem repeats itself around `_full` |
| PatternTable.MatchesOwnRule | export/export.py:195-200 | for a plain stem each exported name contains its own pattern and no other |
| PatternTable.TargetOfExport | export/export.py:195-202 | for a plain stem each exported name is renamed to its short name |
| PatternTable.TableDisciplined | export/export.py:195-202 | a staging directory of exported names of a plain stem is renamed without a clash |
| PatternTable.ExportsPlainTargets | export/export.py:195-202 | every new name an exported name of a plain stem can get is plain |
| PatternTable.ShortNames | export/export.py:198-200 | each exported name present maps to its short name with the same content, and there are no other keys |
| PatternTable.ShortNamesDistinct | export/export.py:198-200 | the five short names (`new_pattern`) differ from one another, and each is a plain name of at most ten characters |
| PatternTable.ShortNamesRenamed | export/export.py:195-202 | `ShortNames` is a renaming of a directory of exported names: every file sits at its target, and every entry is the target of a file |
| PatternTable.ExportsRenamed | export/export.py:195-202 | renaming a directory of exported names yields exactly `ShortNames` |
| PatternTable.FullStemClashes | export/export.py:148-158 | for the stem `full`, the full-integer name matches rules 2 and 4, and the first moves it to a free plain name. By the failure clause of `Rename.ApplyRules`, the second rename then raises `FileNotFoundError` |
| PatternTable.FullStemPlain | export/export.py:148-158 | every new name of the full-integer name of the stem `full` is plain |
| Exporting.DropLast3 | export/export.py:122 | `s[:-3]` followed by the last three characters gives `s` back, and it is empty for shorter strings |
| Exporting.StagingPath | export/export.py:122 | for a model path without separators, the staging path is one entry of the working directory, named the model path without its last three characters and `_saved_model` |
| Exporting.ModelsPath | export/export.py:203 | `working_dir + "/models/"` is the entry `models` of the working directory |
| Exporting.StagingBesideModels | export/export.py:122 | for a model path without separators, the staging and models directories lie apart |
| Exporting.ReadyToPublish | export/export.py:195-203 | after renaming, the tree meets what `postprocess` needs |
| Exporting.Export.constructor | export/export.py:21-24 | keeps the model path and the working directory |
| Exporting.Export.FindDir | export/export.py:121-127 | the staging path exactly when it names a directory, `None` otherwise |
| Exporting.Export.ProcessFilesAfterExport | export/export.py:130-204 | raises when a subdirectory of the staging directory holds a `.tflite` file. A normal return means the staging directory is gone. Under `Publishes` it returns normally; the models directory then holds its former entries plus the short-named exports, and every other existing node is unchanged |
| Exporting.Export.ProcessWithoutDir | export/export.py:130-190 | `process_files_after_export(None)` never returns normally. A failing listing of the current directory raises its `OSError`. Otherwise it raises `TypeError`, after creating a missing models directory when the listing is empty, unless `os.makedirs` raises first. Only that `os.makedirs` changes the tree |
| Exporting.Export.Export | export/export.py:27-45 | ONNX returns the exporter's answer, and the model changes nothing else. An unknown type raises `ValueError` and changes nothing. TFLite never returns `False`: it returns `True`, with the staging directory gone, or raises `TypeError` or an `OSError` from the last clean-up. Under `Publishes` it publishes as above, and it raises exactly when the exporter had returned `True` |

## Left out

- The exporters (`YOLO(...).export`, `_export_onnx`, `_export_tflite`) and `convert2rknn` call the Ultralytics and RKNN SDKs. What they return or raise is a parameter of `Exporting.Export.Export`.
- Exporting.Export.Export: the exporters' own file writes (the `.onnx` file, the `<stem>_saved_model` directory) are not modelled. The tree at entry stands for the tree after the exporter returned.
- Exporting.Export.Export: `os.listdir(None)` lists the process's current directory, which the tree does not hold. What that listing returns or raises is the parameter `cwd`, and both clean-ups are taken to see the same listing.
- `__timer__`, `__log__`, `Tools.timeit`, `configure_logging`, the `print` calls and the `time.sleep(delay)` in `__retry__` do only timing, logging and waiting.
- `__single__` is not part of this model: it calls an undefined `func`.
- `load_datasets`, `check_dataset`, `checking_dir`, `utils/tools.py` and the scripts lie outside the export step.
- LruCache.Cache.Call: the wrapped function is an outcome given to the call, so it cannot call the decorated wrapper again. A recursive wrapped function, whose nested calls update `cache` and `keys_queue` before the outer call stores its own key, is not modelled.
- LruCache.Cache.Call: the call key `(args, frozenset(kwargs.items()))` is an abstract key type; unhashable arguments, which raise `TypeError` when the key is built, are not modelled.
- ValidType.Call: `isinstance` is an abstract predicate, so subclassing and tuple-of-types arguments are whatever that predicate says.
- Paths resolve by their components from one root. `.`, `..`, symbolic links, the current directory, and permission errors are not modelled. `shutil.copy2` copies only content, not metadata.
- `os.listdir` order is not modelled: each loop takes entries in any order.
- Rename.ApplyRules: a new name that is empty or holds `/` is taken as a literal entry of the same directory. `os.rename` would move the file into a subdirectory, or outside the directory for an absolute name, or raise. The exact results of `Rename.ApplyRules` and `Rename.Process` are stated only for plain new names, but their frame clauses rest on this literal reading.
- Rename.Process: the exact result is stated only when the rules rename without a clash (`Disciplined`). For other inputs the model states only the frame, and for one entry what `Rename.ApplyRules` states.
- Publish.Postprocess: the exact result is stated only under `Publishable`. Otherwise it states only that a normal return means the staging directory held only files and is gone.
- Exporting.Export.ProcessFilesAfterExport: the published layout is stated only under `Publishes` (a plain stem and a staging directory of exported names). For other layouts it states only that a nested `.tflite` file makes it raise.
- PathNames.FilenameWithoutExtension: `os.path.basename` is modelled for POSIX separators only.
