# remove_dupes in Dafny

This is a model of `remove_dupes.py`, a script that cleans up copies that file managers
and photo tools make when the same picture is imported twice. Such a copy gets the
original's name with a suffix that contains a space, for example `photo (1).jpg` for
`photo.jpg`. The script does the following for a directory:

- it gathers the media files by extension (`get_all_files`);
- it keeps as *originals* the files whose final path segment has no space (`get_originals`);
- for each original, it collects the entries starting with its base name that contain a
  space and end with its file type, and, when verification is on, keeps only those whose
  SHA-1 digest equals the original's (`get_dupes`);
- it announces every duplicate set and deletes its members when deletion is on
  (`remove_dupes`);
- when recursion is on, it does the same for every sub-directory (`main`).

Module by module:

| module | file | models |
|---|---|---|
| `Types` | types.dfy | bytes, `Option`, and `Result`, whose `Unreadable(path)` is the `open` failure that aborts the run |
| `Seqs` | seqs.dfy | list comprehensions (`Filter`), concatenation (`Flatten`, `FlatMap`), subsequences |
| `Paths` | paths.dfy | POSIX `os.path.join`, `split(os.path.sep)[-1]`, `split('.')[0]`, `rfind`, `endswith`, `in` |
| `Hashing` | hashing.dfy | `hash_file`: the 1024-byte read loop; the digest function is a parameter |
| `Discovery` | discovery.dfy | `glob.glob` of `*suffix` / `prefix*` over one directory listing; `get_all_files` |
| `Classifier` | classifier.dfy | `get_originals` |
| `Resolver` | resolver.dfy | `get_dupes`: per-original candidates, the hash filter, the collection of non-empty sets |
| `Storage` | storage.dfy | the file system as a mutable map from path to contents, and `os.remove` |
| `Remover` | remover.dfy | `remove_dupes`, with the console output as a sequence of events |
| `Walker` | walker.dfy | `main` over a finite directory tree |
| `Scenarios` | scenarios.dfy | four worked examples: the prefix heuristic, hash verification, a directory path with trailing separators, and a hidden entry |

The files are a store `map<Path, Bytes>`, held in the class `Storage.FileStore`, which
only `os.remove` changes. A directory's listing is a sequence of names in `os.listdir`
order. With these, each loop of the script is a Dafny method proved equal to a function.
The properties are lemmas about those functions:

- `get_all_files`: `Discovery.GetAllFiles` matches `Discovery.AllFiles`;
- `hash_file`: `Hashing.HashFile` returns the digest of the file's whole contents;
- `get_dupes`: `Resolver.GetDupes` matches `Resolver.Dupes`;
- `remove_dupes`: `Remover.RemoveDupes` matches `Remover.RemoveAll`;
- `main`: `Walker.Walk` matches `Walker.RunVisits` over the pre-order list of directories.

`Resolver.Dupes` is `Collect(originals, ResolveWith(...))`. `Collect` is the loop of
`get_dupes` over any per-original function. So the `Collect*` lemmas are the properties
of `get_dupes`, and the `Resolve*` lemmas are the properties of one iteration.

The console output becomes events:

- `Checking(dir)` for line 128;
- `NoDuplicates` for line 133;
- `Removing` for line 118;
- `Listed(p)` for line 120;
- `CouldNotFind(p)` for line 125.

In `main`, the recursion is `Walker.Preorder`. It lists every directory that is checked,
each with the names it lists (a directory before its sub-directories, and those in listing
order). Running a list of directories is a left fold that stops at the first abort
(`Walker.RunVisits`, `Walker.Then`).

## Model

| member | source | states |
|---|---|---|
| Hashing.Read | remove_dupes.py:29 | `file.read(1024)` gives at most that many bytes, the next ones of the file, and gives `b''` exactly at end of file |
| Hashing.HashFile | remove_dupes.py:20-33 | a missing file is `Unreadable(filename)`; otherwise the result is the digest of the whole contents, and the chunks read, in order, are the contents cut into pieces of at most 1024 bytes followed by one empty read |
| Hashing.NewHash | remove_dupes.py:20 | definition: `hashlib.sha1()`, a hash object that has absorbed no bytes |
| Hashing.Update | remove_dupes.py:30 | definition: `h.update(chunk)`, which appends the chunk to the bytes absorbed so far |
| Hashing.HexDigest | remove_dupes.py:33 | definition: `h.hexdigest()`, the digest parameter applied to all bytes absorbed |
| Paths.ContainsAt | remove_dupes.py:68 | substring `in` holds exactly when the substring occurs at some index |
| Paths.ContainsChar | remove_dupes.py:68 | a one-character `in` test is membership of that character |
| Paths.AfterLast | remove_dupes.py:68 | the trailing piece after the last `c`: it has no `c`, it is a suffix, and a `c` comes just before it |
| Paths.AfterLastUnique | remove_dupes.py:68 | the piece after the last separator is unique: any suffix free of `c` with `c` just before it is it |
| Paths.FirstPart | remove_dupes.py:92 | `split('.')[0]`: a prefix with no `c` that is followed by `c` or ends the string |
| Paths.FirstPartUnique | remove_dupes.py:92 | the first piece is unique: any prefix free of `c` followed by `c` or the end is it |
| Paths.PicName | remove_dupes.py:92 | `pic_name` has no separator and no dot, and it is a prefix of the final path segment |
| Paths.RFind | remove_dupes.py:94 | `rfind` gives -1 or an index of `c` with no `c` after it |
| Paths.AfterLastIsSlice | remove_dupes.py:94 | `pic_path[pic_path.rfind('.')+1:]` is the text after the last dot, or the whole path when there is none |
| Paths.AfterLastAppend | remove_dupes.py:68 | proof helper: appending text free of `c` extends the last piece by that text |
| Paths.Join | remove_dupes.py:51 | `os.path.join(base, name)` ends with `name` |
| Paths.LastSegmentOfJoin | remove_dupes.py:96 | the final segment of `os.path.join(base, name)` is `name` when `name` has no separator |
| Paths.LastSegment | remove_dupes.py:68 | definition: `p.split(os.path.sep)[-1]`, the text after the last separator |
| Paths.FileType | remove_dupes.py:94 | definition: `pic_path[pic_path.rfind('.')+1:]`, the text after the last dot |
| Paths.StartsWith | remove_dupes.py:96 | definition: `s` begins with `prefix`; the test a `prefix*` glob makes of an entry |
| Paths.EndsWith | remove_dupes.py:96 | definition: `p.endswith(filetype)`, the last characters of `s` are `suffix` |
| Paths.Contains | remove_dupes.py:68 | definition: Python's `sub in s`, an occurrence of `sub` starting at the front or later (also line 96) |
| Paths.TrimSeps | remove_dupes.py:51 | proof helper: a prefix of `s` not ending in a separator, followed in `s` only by separators |
| Paths.GlobHead | remove_dupes.py:51 | the directory part `glob` takes from the pattern with `os.path.split`: `base` less its trailing separators, unless `base` is separators only |
| Paths.GlobJoin | remove_dupes.py:51 | definition: the path `glob` reports for an entry, `os.path.join(GlobHead(base), name)` |
| Paths.GlobHeadPlain | remove_dupes.py:96 | a directory path not ending in a separator is its own directory part, so `glob` reports `os.path.join(base, name)` |
| Paths.LastSegmentOfGlobJoin | remove_dupes.py:96 | an entry's name is the final segment of the path `glob` reports for it |
| Seqs.FilterKeeps | remove_dupes.py:68 | a comprehension keeps exactly the elements that pass the test, with their multiplicities, in order |
| Seqs.Filter | remove_dupes.py:68 | definition: a list comprehension with a condition, the elements that pass in order (also lines 96 and 100) |
| Seqs.FlattenMembers | remove_dupes.py:117-119 | proof helper: an element of the concatenated sets is an element of one of the sets |
| Seqs.FlatMapMembers | remove_dupes.py:50-51 | proof helper: an element of the concatenated results belongs to the result of some input |
| Seqs.FlatMapAppend | remove_dupes.py:50-51 | proof helper: concatenating over two input lists is concatenating the two results |
| Seqs.SubsequenceMembers | remove_dupes.py:68 | proof helper: every element of a subsequence is an element of the whole |
| Seqs.SubsequenceDistinct | remove_dupes.py:68 | proof helper: a subsequence of a sequence without repeats has none |
| Discovery.JoinAll | remove_dupes.py:51 | `glob` reports each matched name as `GlobJoin(base, name)`, one per matched name, in order |
| Discovery.GlobNames | remove_dupes.py:51 | the matched names are exactly the listed names the pattern accepts, in listing order |
| Discovery.GlobMembers | remove_dupes.py:51 | `p` is globbed iff it is `base` joined with a listed name the pattern accepts |
| Discovery.GlobInListingOrder | remove_dupes.py:51 | the glob result is the matched names, in listing order, joined to `base` |
| Discovery.JoinAllDistinct | remove_dupes.py:96 | joining distinct single-segment names to one directory gives distinct paths |
| Discovery.Hidden | remove_dupes.py:51 | definition: a name starting with a dot |
| Discovery.GlobMatch | remove_dupes.py:51 | definition: `glob`'s test of one entry: not hidden, and ending with the suffix for `*suffix` or starting with the prefix for `prefix*` |
| Discovery.Glob | remove_dupes.py:51 | `glob` reports no more paths than the directory has entries; what it reports is stated by `GlobMembers` and `GlobInListingOrder` |
| Discovery.AllFiles | remove_dupes.py:49-52 | definition: the globs of `*.ft` for each `ft` of `filetypes`, concatenated in order |
| Discovery.GlobType | remove_dupes.py:51 | definition: for one extension `ft`, the glob of `*.ft` in the directory |
| Discovery.DefaultFileTypes | remove_dupes.py:35 | definition: the default `filetypes` list, the ten extensions in the script's order |
| Discovery.GetAllFiles | remove_dupes.py:49-52 | the loop's list is the per-type glob results concatenated in the order of `filetypes` |
| Discovery.AllFilesMembers | remove_dupes.py:49-52 | a path is gathered iff some file type's glob gives it |
| Discovery.AllFilesTyped | remove_dupes.py:49-52 | every gathered path is `base` joined with a listed name that ends in `.` plus one of the file types |
| Discovery.AllFilesConcat | remove_dupes.py:50-51 | gathering over `fts1 + fts2` is gathering over `fts1` and then over `fts2` |
| Classifier.GetOriginals | remove_dupes.py:68 | a path is kept iff it has no indicator in its final segment; multiplicities and order are kept |
| Classifier.DefaultOriginal | remove_dupes.py:54 | with the default indicator, an original is a path whose final segment has no space |
| Classifier.IsOriginal | remove_dupes.py:68 | definition: the indicator does not occur in the path's final segment |
| Classifier.DefaultIndicator | remove_dupes.py:54 | definition: the default indicator `' '` of `get_originals` (and of `get_dupes`, line 70) |
| Resolver.CandidatesMembers | remove_dupes.py:92-96 | a candidate is `base` joined with a listed name that starts with `pic_name`, has the indicator in its final segment and ends with the file type; candidates keep listing order |
| Resolver.HashFilterKeeps | remove_dupes.py:100 | the hash filter succeeds iff every candidate can be opened, and then keeps exactly the candidates whose digest equals the original's, in order |
| Resolver.HashFilterAborts | remove_dupes.py:99-100 | an aborted hash filter names the first candidate that cannot be opened |
| Resolver.HashFilterStopsAt | remove_dupes.py:100 | once a prefix of the candidates aborts, the rest is never hashed |
| Resolver.LooksLikeCopy | remove_dupes.py:96 | definition: the indicator occurs in the final segment and the path ends with the original's file type |
| Resolver.SameDigest | remove_dupes.py:100 | definition: the condition `hash_file(dupe) == original_hash` for a file that can be opened |
| Resolver.Candidates | remove_dupes.py:96 | definition: the glob of `pic_name*` in the directory, filtered by `LooksLikeCopy` |
| Resolver.HashFilter | remove_dupes.py:99-100 | definition: the candidates hashed left to right, kept when their digest is the target; the first that cannot be opened aborts |
| Resolver.Resolve | remove_dupes.py:92-100 | definition: the candidates, or, with verification, the original hashed first and then `HashFilter` with its digest |
| Resolver.Collect | remove_dupes.py:88-105 | definition: the loop over the originals for a given per-original resolution: the first abort, or the non-empty sets in order |
| Resolver.Dupes | remove_dupes.py:88-105 | definition: `Collect` over the originals with `Resolve` |
| Resolver.ResolveSelection | remove_dupes.py:96-100 | without verification the set is the candidates; with it, the candidates with the original's digest |
| Resolver.CandidatesDistinct | remove_dupes.py:96 | when the listing names each entry once, as `os.listdir` does, no candidate occurs twice |
| Resolver.ResolveDistinct | remove_dupes.py:96-100 | when the listing names each entry once, every file of a duplicate set occurs in it exactly once |
| Resolver.ResolveFails | remove_dupes.py:98-100 | one original aborts iff verification is on and the original or one of its candidates cannot be opened |
| Resolver.ResolveMembers | remove_dupes.py:92-96 | every duplicate has the indicator in its final segment, ends with the original's type, and is a listed entry starting with `pic_name` |
| Resolver.OriginalNotInOwnSet | remove_dupes.py:68 | an original is never part of its own duplicate set |
| Resolver.SetsOf | remove_dupes.py:90-100 | one `cur_dupes` per original, in order |
| Resolver.CollectShape | remove_dupes.py:88-105 | `get_dupes` succeeds iff every original resolves; its value is then the non-empty per-original sets, in order |
| Resolver.CollectSets | remove_dupes.py:102-103 | no set is empty; there are at most as many sets as originals; each set is the set of some original |
| Resolver.CollectAborts | remove_dupes.py:98-100 | an aborted `get_dupes` is the abort of the first original that fails |
| Resolver.CollectStopsAt | remove_dupes.py:90 | once a prefix of the originals aborts, later originals change nothing |
| Resolver.KeepSameDigest | remove_dupes.py:100 | the loop computes the hash filter |
| Resolver.ResolveOne | remove_dupes.py:92-100 | the loop body computes one original's set |
| Resolver.GetDupes | remove_dupes.py:88-105 | the loop computes `get_dupes` |
| Storage.FileStore.Remove | remove_dupes.py:123-124 | `os.remove` deletes the path and reports absence as not found; nothing else changes |
| Remover.RemoveDupes | remove_dupes.py:117-125 | the loop's store and report are those of the removal pass |
| Remover.ListingsSnoc | remove_dupes.py:119-120 | proof helper: each duplicate listed adds one `Listed` line |
| Remover.AnnounceSnoc | remove_dupes.py:117-120 | proof helper: each set adds a `Removing` header followed by its listings |
| Remover.WarningsAppend | remove_dupes.py:125 | proof helper: warnings of joined reports are the warnings of each, joined |
| Remover.UnwarnedAppend | remove_dupes.py:118-120 | proof helper: the non-warning lines of joined reports are those of each, joined |
| Remover.AbsentAppend | remove_dupes.py:121-125 | proof helper: the attempted paths found missing, over joined attempts, are those of each part |
| Remover.DryRun | remove_dupes.py:117-121 | without deletion the store is unchanged and the report is exactly the announcements |
| Remover.DryRunSet | remove_dupes.py:119-120 | without deletion one set only adds its listings |
| Remover.SetAnnounced | remove_dupes.py:119-120 | apart from warnings, one set adds exactly its listings, whether or not it deletes |
| Remover.ReportAnnouncesSets | remove_dupes.py:117-125 | apart from warnings, the report is one `Removing` header per set followed by its members, in order |
| Remover.SubtractTwice | remove_dupes.py:117-124 | proof helper: removing two groups one after the other is removing their union |
| Remover.CommitSetFiles | remove_dupes.py:121-124 | with deletion one set's members all leave the store |
| Remover.CommitSetWarnings | remove_dupes.py:124-125 | with deletion the warnings are exactly the members already gone when their turn came |
| Remover.CommitFiles | remove_dupes.py:117-124 | with deletion every duplicate of every set leaves the store, and nothing else does |
| Remover.CommitWarnings | remove_dupes.py:117-125 | with deletion there is one warning per duplicate already gone when its turn came, in order |
| Remover.RemovalEffect | remove_dupes.py:117-124 | the store after removal is the old store minus all duplicates when deleting, and the old store otherwise |
| Remover.RemoveOne | remove_dupes.py:120-125 | definition: list the file; with deletion, remove it if present, otherwise warn |
| Remover.RemoveSet | remove_dupes.py:119-125 | definition: `RemoveOne` for each file of one set, in order |
| Remover.RemoveAll | remove_dupes.py:117-125 | definition: for each set in order, a `Removing` header and then `RemoveSet` |
| Remover.Mentions | remove_dupes.py:120-125 | definition: the report lists the path or warns about it |
| Remover.SetMentions | remove_dupes.py:119-125 | one set's pass lists or warns about a path iff the path is in the set or was already named |
| Remover.AllMentions | remove_dupes.py:117-125 | the whole pass lists or warns about a path iff it is a duplicate of some set or was already named |
| Walker.Names | remove_dupes.py:137 | the listing is the entry names in `os.listdir` order |
| Walker.Subdirs | remove_dupes.py:137 | the sub-directories are exactly the folder entries |
| Walker.SubdirsInOrder | remove_dupes.py:137 | the sub-directories keep listing order, each as often as it is listed |
| Walker.Preorder | remove_dupes.py:127-140 | definition: the directory itself with its listing, then, when recursive, the traversal of each sub-directory in listing order |
| Walker.PreorderAll | remove_dupes.py:137-140 | definition: the traversals of the given sub-directories, concatenated in order |
| Walker.DirDupes | remove_dupes.py:129-131 | definition: `get_dupes` of `get_originals` of `get_all_files` of the directory, with the defaults `main` uses |
| Walker.Outcome | remove_dupes.py:128-134 | definition: `Checking`; on an abort nothing more; otherwise `NoDuplicates` when there are no sets, then `RemoveAll` |
| Walker.ProcessDir | remove_dupes.py:128-134 | definition: `Outcome` of the directory's `DirDupes` |
| Walker.RunVisits | remove_dupes.py:127-140 | definition: `ProcessDir` for each directory in turn on the store the previous one left, stopping at the first abort |
| Walker.Then | remove_dupes.py:139-140 | definition: a run, then the rest of the run unless the first part aborted |
| Walker.FindDupes | remove_dupes.py:129-131 | gathering, classification and resolution in one directory compute its duplicate sets |
| Walker.ApplyDupes | remove_dupes.py:128-134 | `Checking`, then `NoDuplicates` when there are no sets, then the removal report; an abort removes nothing |
| Walker.CheckDirectory | remove_dupes.py:128-134 | one call of `main` without recursion produces the new store, report and abort of that directory |
| Walker.Walk | remove_dupes.py:127-140 | `main` runs the directories of the pre-order in turn and stops at the first abort |
| Walker.RunVisitsCons | remove_dupes.py:136-140 | proof helper: running a list of directories is running the first, then the rest unless the first aborted |
| Walker.RunVisitsAppend | remove_dupes.py:136-140 | running two lists of directories is running the first and then, unless it aborted, the second on the resulting store |
| Walker.ThenAssoc | remove_dupes.py:139-140 | proof helper: chaining directory runs is associative after a run that did not abort |
| Walker.ProcessDirShrinks | remove_dupes.py:128-134 | one directory only removes files; without deletion it removes none |
| Walker.ProcessDirRemovesCopies | remove_dupes.py:128-134 | a file removed by one directory is not an original, and it is that directory joined with one of its listed names |
| Walker.DryRunKeepsFiles | remove_dupes.py:127-140 | without deletion no file is ever removed |
| Walker.DryRunRepeatable | remove_dupes.py:127-140 | without deletion a second run gives the same store, report and abort |
| Walker.RunRemovesOnlyCopies | remove_dupes.py:127-140 | the final store is a part of the first one; every removed file is a non-original listed in some checked directory |
| Walker.ProcessDirMentions | remove_dupes.py:128-134 | a path one directory's check lists or warns about is that directory joined with one of its listed names |
| Walker.RunMentions | remove_dupes.py:127-140 | a path a whole run lists or warns about is listed in one of the checked directories |
| Walker.Relisted | remove_dupes.py:137 | definition: listings taken afresh: a listed name that named a file of the old store still names a file of the new one |
| Walker.DeletionIsFinal | remove_dupes.py:127-140 | a second run over listings taken afresh after a first run neither lists nor warns about a file the first run removed |
| Scenarios.PrefixHeuristicExample | remove_dupes.py:92-96 | with `photo.jpg`, `photo (1).jpg` and `photo2 (1).jpg` listed, both of the latter are candidates for `photo.jpg` |
| Scenarios.VerifiedExample | remove_dupes.py:96-100 | with verification, a look-alike whose digest differs is dropped and the true copy kept |
| Scenarios.TrailingSeparatorsExample | remove_dupes.py:51 | for the directory `d//`, `glob` reports the entry `a.jpg` as `d/a.jpg` |
| Scenarios.HiddenSkippedExample | remove_dupes.py:51 | the hidden entry `._a.jpg` is not gathered by `*.jpg` |

## Left out

- SHA-1 itself: `hashlib.sha1` is a parameter `digest` from contents to a hex string. It is
  applied to the concatenated chunks, so the model assumes only that the hash of the chunks
  fed in order depends on their concatenation.
- Glob details: `glob.glob` is modelled only for patterns `*suffix` and `prefix*` over one
  listing. The following are not modelled:
  - glob metacharacters inside `pic_name`;
  - glob metacharacters in the extensions given to `get_all_files`. The model reads them
    literally: for the extension `jp?` it gathers only names ending in `.jp?`, where the
    script also gathers `a.jpg`. `main` passes only the default extensions, which have no
    metacharacters;
  - glob metacharacters in the directory path (lines 51 and 96 never escape it). The
    model takes `[`, `*` and `?` in the directory path literally. The script reads them as
    a pattern and usually finds nothing: in a directory named `Photos [2019]` it reports no
    duplicates, where the model finds and, with deletion on, removes them;
  - case-insensitive file systems;
  - any ordering of the results other than listing order.
- Directories among the matches: glob also matches directory names. The model assumes
  that the store holds only regular files, so the path of a sub-directory is not a key of
  the store. Nothing in `Walker.Walk` ties the tree's `Folder` entries to the store, so this
  is an assumption on the inputs. Under it, hashing a matched directory is `Unreadable`,
  and removing one adds a `CouldNotFind` warning. The script would raise
  `IsADirectoryError` instead.
- Path joining: `os.path.join` is the POSIX form only. The separator is `/`. An absolute
  `name` replaces `base`, and one separator is inserted unless `base` is empty or already
  ends with one. The Windows form is not modelled. `glob` reports an entry under the
  directory part `os.path.split` takes from the pattern (`Paths.GlobHead`), so
  `photos//a.jpg` becomes `photos/a.jpg`. The paths `main` builds for sub-directories
  (line 137) keep the directory path as given.
- The directory tree: `os.listdir` and `os.path.isdir` become a finite tree snapshot taken
  before the run.
  - Symbolic-link cycles, which would make the recursion loop, are not modelled.
  - Changes to the tree during the run are modelled only as listed files being absent from
    the store.
  - Listings are not derived from the store. Running `Walker.Walk` again on the same tree
    after a deleting run would list the removed copies again and warn that they cannot be
    found. A second run of the script lists the directories afresh. The model states this
    with `Walker.Relisted`: the second run's listings name no file the first run removed
    (`Walker.DeletionIsFinal`).
- Errors: `os.remove` errors other than `FileNotFoundError` (permissions, directories) are
  not modelled. Every failed `open` in `hash_file` counts as the file being missing; it ends
  the whole run as the uncaught exception does. A read failing part-way through a file is
  not modelled.
- The command line: `parse_cla`, `do_verify` and the `__main__` block are left out. They
  only read arguments and confirm with the user. `Walker.Options` carries the three flags
  of `main` explicitly, so the differing defaults of the command line and of `main`
  (`recursive`) do not arise.
- Console text: the printed text and its tabs are modelled as `Remover.Event` values, not
  as strings.
- Time and concurrency: `time` is used only for the 10-second pause in `do_verify`
  (line 177), which is left out. Concurrency is not modelled.
- Discovery.Glob: its own contract states only a length bound. What it computes is stated
  by `Discovery.GlobMembers` and `Discovery.GlobInListingOrder`.
