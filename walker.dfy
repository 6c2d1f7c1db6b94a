/** `main`: one directory is checked (discovery, classification, resolution, removal),
    then, when recursion is on, each sub-directory in listing order with the same
    options. */
module Walker {
  import opened Types
  import opened Seqs
  import opened Paths
  import opened Hashing
  import opened Discovery
  import opened Classifier
  import opened Resolver
  import opened Storage
  import opened Remover

  /** A directory tree: each directory lists its entries in `os.listdir` order; an entry
      is a file or a sub-directory. The file contents live in the store, so a listed file
      that the store lacks is one that vanished after it was listed. */
  datatype Entry = File(name: string) | Folder(name: string, dir: Dir)
  datatype Dir = Dir(entries: seq<Entry>)

  /** The flags `main` passes down unchanged: `recursive`, `verify_hash`, `do_del`. */
  datatype Options = Options(recursive: bool, verifyHash: bool, doDel: bool)

  /** One directory to check: its path and the names it lists. */
  datatype Visit = Visit(path: Path, listing: seq<string>)

  /** The outcome of checking directories: the store, the report, and the file whose
      unreadability stopped the run, if any. */
  datatype Run = Run(files: map<Path, Bytes>, report: seq<Event>, abort: Option<Path>)

  /** `os.listdir`: every entry's name, in order. */
  function Names(entries: seq<Entry>): (r: seq<string>)
    ensures |r| == |entries|
    ensures forall i :: 0 <= i < |r| ==> r[i] == entries[i].name
  {
    if entries == [] then [] else [entries[0].name] + Names(entries[1..])
  }

  predicate IsFolder(e: Entry)
  {
    e.Folder?
  }

  /** The sub-directories of a listing, in listing order (line 137). */
  function Subdirs(entries: seq<Entry>): (r: seq<Entry>)
    ensures forall e :: e in r <==> e in entries && e.Folder?
  {
    FilterKeeps(entries, IsFolder);
    Filter(entries, IsFolder)
  }

  /** The sub-directories keep listing order and each occurs as often as it is listed. */
  lemma SubdirsInOrder(entries: seq<Entry>)
    ensures forall e :: multiset(Subdirs(entries))[e] == if e.Folder? then multiset(entries)[e] else 0
    ensures IsSubsequence(Subdirs(entries), entries)
  {
    FilterKeeps(entries, IsFolder);
  }

  /** The directories `main` checks, in order: `base` first, then (when recursive) the
      whole traversal of each sub-directory in listing order. This is the worklist view
      of the recursion. */
  ghost function Preorder(base: Path, d: Dir, recursive: bool): seq<Visit>
    decreases d, 1
  {
    [Visit(base, Names(d.entries))]
    + if recursive then PreorderAll(base, d, Subdirs(d.entries), recursive) else []
  }

  /** The traversals of the sub-directories `subs` of `parent`, one after the other. */
  ghost function PreorderAll(base: Path, parent: Dir, subs: seq<Entry>, recursive: bool): seq<Visit>
    requires forall e :: e in subs ==> e in parent.entries && e.Folder?
    decreases parent, 0, |subs|
  {
    if subs == [] then []
    else
      assert subs[0] in parent.entries;
      Preorder(Join(base, subs[0].name), subs[0].dir, recursive)
      + PreorderAll(base, parent, subs[1..], recursive)
  }

  /** Lines 128-134 for one directory, against the store `files`. */
  function ProcessDir(files: map<Path, Bytes>, v: Visit, opt: Options, digest: Bytes -> Hex): Run
  {
    Outcome(files, v.path, DirDupes(files, v, opt, digest), opt.doDel)
  }

  /** Lines 128, 133-134: the directory is announced; a failure to hash stops the run,
      otherwise the sets are removed, after a notice when there are none. */
  function Outcome(files: map<Path, Bytes>, path: Path, dupes: Result<seq<seq<Path>>>, doDel: bool): Run
  {
    match dupes
    case Unreadable(p) => Run(files, [Checking(path)], Some(p))
    case Ok(sets) =>
      var removal := RemoveAll(Pass(files, []), sets, doDel);
      Run(removal.files, [Checking(path)] + (if sets == [] then [NoDuplicates] else []) + removal.report, None)
  }

  /** Lines 129-131: the duplicate sets of one directory, with the default file types
      and copy indicator. */
  function DirDupes(files: map<Path, Bytes>, v: Visit, opt: Options, digest: Bytes -> Hex): Result<seq<seq<Path>>>
  {
    var originals := GetOriginals(AllFiles(v.path, v.listing, DefaultFileTypes), DefaultIndicator);
    Dupes(v.path, v.listing, originals, DefaultIndicator, opt.verifyHash, files, digest)
  }

  /** Checking the directories `visits` in order, each against the store the previous
      ones left; the first abort ends the run. */
  function RunVisits(files: map<Path, Bytes>, visits: seq<Visit>, opt: Options, digest: Bytes -> Hex): Run
    decreases |visits|
  {
    if visits == [] then Run(files, [], None)
    else
      var first := ProcessDir(files, visits[0], opt, digest);
      Then(first, RunVisits(first.files, visits[1..], opt, digest))
  }

  /** A run followed by the run that continues from its store, unless it aborted. */
  function Then(first: Run, rest: Run): Run
  {
    if first.abort.Some? then first else Run(rest.files, first.report + rest.report, rest.abort)
  }

  /** Lines 129-131 as statements. */
  method FindDupes(files: map<Path, Bytes>, base: Path, listing: seq<string>, opt: Options, digest: Bytes -> Hex)
    returns (dupes: Result<seq<seq<Path>>>)
    ensures dupes == DirDupes(files, Visit(base, listing), opt, digest)
  {
    var rootImages := GetAllFiles(base, listing, DefaultFileTypes);
    var originals := GetOriginals(rootImages, DefaultIndicator);
    dupes := GetDupes(base, listing, originals, DefaultIndicator, opt.verifyHash, files, digest);
  }

  /** Lines 128, 133-134 as statements. */
  method ApplyDupes(fs: FileStore, base: Path, dupes: Result<seq<seq<Path>>>, doDel: bool)
    returns (report: seq<Event>, abort: Option<Path>)
    modifies fs
    ensures Run(fs.files, report, abort) == Outcome(old(fs.files), base, dupes, doDel)
  {
    report := [Checking(base)];
    if dupes.Unreadable? {
      return report, Some(dupes.path);
    }
    if |dupes.value| == 0 {
      report := report + [NoDuplicates];
    }
    var removal := RemoveDupes(fs, dupes.value, doDel);
    report := report + removal;
    abort := None;
  }

  /** Lines 128-134 as statements: check the directory `base` whose names are `listing`. */
  method CheckDirectory(fs: FileStore, base: Path, listing: seq<string>, opt: Options, digest: Bytes -> Hex)
    returns (report: seq<Event>, abort: Option<Path>)
    modifies fs
    ensures Run(fs.files, report, abort) == ProcessDir(old(fs.files), Visit(base, listing), opt, digest)
  {
    var dupes := FindDupes(fs.files, base, listing, opt, digest);
    report, abort := ApplyDupes(fs, base, dupes, opt.doDel);
  }

  /** `main(base_path, recursive, verify_hash, do_del)` over the tree `d` rooted at
      `base`. */
  method Walk(fs: FileStore, base: Path, d: Dir, opt: Options, digest: Bytes -> Hex)
    returns (report: seq<Event>, abort: Option<Path>)
    modifies fs
    ensures Run(fs.files, report, abort) == RunVisits(old(fs.files), Preorder(base, d, opt.recursive), opt, digest)
    decreases d
  {
    ghost var start := fs.files;
    ghost var here := Visit(base, Names(d.entries));
    report, abort := CheckDirectory(fs, base, Names(d.entries), opt, digest);
    if !opt.recursive {
      RunVisitsCons(start, here, [], opt, digest);
      assert Preorder(base, d, false) == [here] + [];
      assert report + [] == report;
      return;
    }
    var dirs := Subdirs(d.entries);
    RunVisitsCons(start, here, PreorderAll(base, d, dirs, true), opt, digest);
    if abort.Some? {
      return;
    }
    ghost var total := RunVisits(start, Preorder(base, d, true), opt, digest);
    assert dirs[0..] == dirs;
    for i := 0 to |dirs|
      invariant total == Then(Run(fs.files, report, None), RunVisits(fs.files, PreorderAll(base, d, dirs[i..], true), opt, digest))
    {
      assert dirs[i] in d.entries;
      ghost var before := fs.files;
      ghost var child := Preorder(Join(base, dirs[i].name), dirs[i].dir, true);
      ghost var later := PreorderAll(base, d, dirs[i + 1..], true);
      assert dirs[i..][1..] == dirs[i + 1..];
      assert PreorderAll(base, d, dirs[i..], true) == child + later;
      var subReport, subAbort := Walk(fs, Join(base, dirs[i].name), dirs[i].dir, opt, digest);
      RunVisitsAppend(before, child, later, opt, digest);
      ThenAssoc(Run(before, report, None), RunVisits(before, child, opt, digest), RunVisits(fs.files, later, opt, digest));
      report := report + subReport;
      if subAbort.Some? {
        return report, subAbort;
      }
    }
    assert report + [] == report;
    abort := None;
  }

  // ---------------------------------------------------------------------------------
  // Lemmas about the traversal.

  lemma RunVisitsCons(files: map<Path, Bytes>, v: Visit, rest: seq<Visit>, opt: Options, digest: Bytes -> Hex)
    ensures RunVisits(files, [v] + rest, opt, digest)
         == Then(ProcessDir(files, v, opt, digest), RunVisits(ProcessDir(files, v, opt, digest).files, rest, opt, digest))
  {
    assert ([v] + rest)[1..] == rest;
  }

  /** Checking `a` and then `b` is checking `a + b`: each directory is checked on its own,
      against the store the previous directories left. */
  lemma {:induction false} RunVisitsAppend(files: map<Path, Bytes>, a: seq<Visit>, b: seq<Visit>,
                                           opt: Options, digest: Bytes -> Hex)
    ensures RunVisits(files, a + b, opt, digest)
         == Then(RunVisits(files, a, opt, digest), RunVisits(RunVisits(files, a, opt, digest).files, b, opt, digest))
    decreases |a|
  {
    if a == [] {
      assert a + b == b;
      var r := RunVisits(files, b, opt, digest);
      assert [] + r.report == r.report;
    } else {
      assert (a + b)[1..] == a[1..] + b;
      var first := ProcessDir(files, a[0], opt, digest);
      RunVisitsAppend(first.files, a[1..], b, opt, digest);
      var ra := RunVisits(first.files, a[1..], opt, digest);
      var rb := RunVisits(ra.files, b, opt, digest);
      if first.abort == None && ra.abort == None {
        assert first.report + (ra.report + rb.report) == (first.report + ra.report) + rb.report;
      }
    }
  }

  lemma ThenAssoc(done: Run, sub: Run, rest: Run)
    requires done.abort == None
    ensures Then(done, Then(sub, rest)) == Then(Then(done, sub), rest)
  {
    if sub.abort == None {
      assert done.report + (sub.report + rest.report) == (done.report + sub.report) + rest.report;
    }
  }

  // ---------------------------------------------------------------------------------
  // What a run does to the store.

  /** Checking one directory only removes entries and never alters a kept one; on a dry
      run it removes nothing. */
  lemma ProcessDirShrinks(files: map<Path, Bytes>, v: Visit, opt: Options, digest: Bytes -> Hex)
    ensures var after := ProcessDir(files, v, opt, digest).files;
            && (forall p :: p in after ==> p in files && after[p] == files[p])
            && (!opt.doDel ==> after == files)
  {
    match DirDupes(files, v, opt, digest)
    case Unreadable(_) =>
    case Ok(sets) =>
      RemovalEffect(Pass(files, []), sets, opt.doDel);
  }

  /** A path that checking one directory removes is a copy (its last segment holds the
      indicator, so it is not an original) listed in that directory. */
  lemma ProcessDirRemovesCopies(files: map<Path, Bytes>, v: Visit, opt: Options, digest: Bytes -> Hex, p: Path)
    requires p in files && p !in ProcessDir(files, v, opt, digest).files
    ensures !IsOriginal(p, DefaultIndicator)
    ensures exists e :: e in v.listing && p == GlobJoin(v.path, e)
  {
    var originals := GetOriginals(AllFiles(v.path, v.listing, DefaultFileTypes), DefaultIndicator);
    var sets := DirDupes(files, v, opt, digest).value;
    RemovalEffect(Pass(files, []), sets, opt.doDel);
    assert p in Flatten(sets);
    FlattenMembers(sets, p);
    var s :| s in sets && p in s;
    var resolve := ResolveWith(v.path, v.listing, DefaultIndicator, opt.verifyHash, files, digest);
    CollectSets(originals, resolve);
    var o :| o in originals && resolve(o) == Ok(s);
    ResolveMembers(v.path, v.listing, o, DefaultIndicator, opt.verifyHash, files, digest, p);
  }

  /** A dry run (`do_del` off) leaves the store as it was, however many directories it
      checks. */
  lemma {:induction false} DryRunKeepsFiles(files: map<Path, Bytes>, visits: seq<Visit>, opt: Options, digest: Bytes -> Hex)
    requires !opt.doDel
    ensures RunVisits(files, visits, opt, digest).files == files
    decreases |visits|
  {
    if visits != [] {
      var first := ProcessDir(files, visits[0], opt, digest);
      ProcessDirShrinks(files, visits[0], opt, digest);
      DryRunKeepsFiles(first.files, visits[1..], opt, digest);
    }
  }

  /** Since it changes nothing, a second dry run reports exactly what the first did. */
  lemma DryRunRepeatable(files: map<Path, Bytes>, visits: seq<Visit>, opt: Options, digest: Bytes -> Hex)
    requires !opt.doDel
    ensures var once := RunVisits(files, visits, opt, digest);
            RunVisits(once.files, visits, opt, digest) == once
  {
    DryRunKeepsFiles(files, visits, opt, digest);
  }

  /** A whole run only removes files and never alters a kept one; every file it removes
      is a copy, never an original, and is listed in one of the checked directories. */
  lemma {:induction false} RunRemovesOnlyCopies(files: map<Path, Bytes>, visits: seq<Visit>, opt: Options, digest: Bytes -> Hex)
    ensures var after := RunVisits(files, visits, opt, digest).files;
            forall p :: p in after ==> p in files && after[p] == files[p]
    ensures var after := RunVisits(files, visits, opt, digest).files;
            forall p :: p in files && p !in after ==>
              && !IsOriginal(p, DefaultIndicator)
              && exists v, e :: v in visits && e in v.listing && p == GlobJoin(v.path, e)
    decreases |visits|
  {
    if visits != [] {
      var first := ProcessDir(files, visits[0], opt, digest);
      ProcessDirShrinks(files, visits[0], opt, digest);
      RunRemovesOnlyCopies(first.files, visits[1..], opt, digest);
      var after := RunVisits(files, visits, opt, digest).files;
      forall p | p in files && p !in after
        ensures !IsOriginal(p, DefaultIndicator)
        ensures exists v, e :: v in visits && e in v.listing && p == GlobJoin(v.path, e)
      {
        if p !in first.files {
          ProcessDirRemovesCopies(files, visits[0], opt, digest, p);
          var e :| e in visits[0].listing && p == GlobJoin(visits[0].path, e);
          assert visits[0] in visits;
        } else {
          var v, e :| v in visits[1..] && e in v.listing && p == GlobJoin(v.path, e);
          assert v in visits;
        }
      }
    }
  }

  /** Every file that checking one directory names in its report is one it lists. */
  lemma ProcessDirMentions(files: map<Path, Bytes>, v: Visit, opt: Options, digest: Bytes -> Hex, p: Path)
    requires Mentions(ProcessDir(files, v, opt, digest).report, p)
    ensures exists e :: e in v.listing && p == GlobJoin(v.path, e)
  {
    var originals := GetOriginals(AllFiles(v.path, v.listing, DefaultFileTypes), DefaultIndicator);
    var sets := DirDupes(files, v, opt, digest).value;
    AllMentions(Pass(files, []), sets, opt.doDel, p);
    FlattenMembers(sets, p);
    var s :| s in sets && p in s;
    var resolve := ResolveWith(v.path, v.listing, DefaultIndicator, opt.verifyHash, files, digest);
    CollectSets(originals, resolve);
    var o :| o in originals && resolve(o) == Ok(s);
    ResolveMembers(v.path, v.listing, o, DefaultIndicator, opt.verifyHash, files, digest, p);
  }

  /** A whole run names in its report only files listed in the directories it checks. */
  lemma {:induction false} RunMentions(files: map<Path, Bytes>, visits: seq<Visit>, opt: Options,
                                       digest: Bytes -> Hex, p: Path)
    ensures Mentions(RunVisits(files, visits, opt, digest).report, p) ==>
            exists v, e :: v in visits && e in v.listing && p == GlobJoin(v.path, e)
    decreases |visits|
  {
    if visits != [] {
      var first := ProcessDir(files, visits[0], opt, digest);
      assert visits[0] in visits;
      RunMentions(first.files, visits[1..], opt, digest, p);
      if Mentions(first.report, p) {
        ProcessDirMentions(files, visits[0], opt, digest, p);
      } else if exists v, e :: v in visits[1..] && e in v.listing && p == GlobJoin(v.path, e) {
        var v, e :| v in visits[1..] && e in v.listing && p == GlobJoin(v.path, e);
        assert v in visits;
      }
    }
  }

  /** The listings of `visits` were taken afresh once the store had gone from `before`
      to `now`: a listed name that was a file of `before` is still a file of `now`.
      Names that were never files of the store, such as sub-directories, may be listed. */
  predicate Relisted(visits: seq<Visit>, before: map<Path, Bytes>, now: map<Path, Bytes>)
  {
    forall v, e :: v in visits && e in v.listing && GlobJoin(v.path, e) in before ==> GlobJoin(v.path, e) in now
  }

  /** Deletion is final: a second run over freshly taken listings neither lists nor warns
      about a file that the first run removed. */
  lemma DeletionIsFinal(files: map<Path, Bytes>, first: seq<Visit>, second: seq<Visit>, opt: Options,
                        digest: Bytes -> Hex, p: Path)
    requires Relisted(second, files, RunVisits(files, first, opt, digest).files)
    requires p in files && p !in RunVisits(files, first, opt, digest).files
    ensures !Mentions(RunVisits(RunVisits(files, first, opt, digest).files, second, opt, digest).report, p)
  {
    RunMentions(RunVisits(files, first, opt, digest).files, second, opt, digest, p);
  }
}
