/** `remove_dupes`: reports every file of every duplicate set and, when deletion is on,
    deletes it, tolerating a file that is already gone. */
module Remover {
  import opened Types
  import opened Seqs
  import opened Paths
  import opened Storage

  /** What the program prints, one event per line: `Checking: <dir>`, `No duplicates
      found`, the `Removing:` header of a set, a file of a set, and the warning that a
      file to delete could not be found. */
  datatype Event =
    | Checking(dir: Path)
    | NoDuplicates
    | Removing
    | Listed(path: Path)
    | CouldNotFind(path: Path)

  /** The file store and the report so far. */
  datatype Pass = Pass(files: map<Path, Bytes>, report: seq<Event>)

  /** Lines 120-125 for one file. */
  function RemoveOne(st: Pass, p: Path, doDel: bool): Pass
  {
    var report := st.report + [Listed(p)];
    if !doDel then Pass(st.files, report)
    else if p in st.files then Pass(st.files - {p}, report)
    else Pass(st.files, report + [CouldNotFind(p)])
  }

  /** Lines 119-125: the files of one set, in order. */
  function RemoveSet(st: Pass, dupeSet: seq<Path>, doDel: bool): Pass
    decreases |dupeSet|
  {
    if dupeSet == [] then st
    else RemoveOne(RemoveSet(st, dupeSet[..|dupeSet| - 1], doDel), Last(dupeSet), doDel)
  }

  /** Lines 117-125: every set in order, each after its header. */
  function RemoveAll(st: Pass, allDupes: seq<seq<Path>>, doDel: bool): Pass
    decreases |allDupes|
  {
    if allDupes == [] then st
    else
      var prev := RemoveAll(st, allDupes[..|allDupes| - 1], doDel);
      RemoveSet(Pass(prev.files, prev.report + [Removing]), Last(allDupes), doDel)
  }

  /** `remove_dupes(all_dupes, do_del)` against the store `fs`. */
  method RemoveDupes(fs: FileStore, allDupes: seq<seq<Path>>, doDel: bool) returns (report: seq<Event>)
    modifies fs
    ensures Pass(fs.files, report) == RemoveAll(Pass(old(fs.files), []), allDupes, doDel)
  {
    ghost var start := Pass(fs.files, []);
    report := [];
    for i := 0 to |allDupes|
      invariant Pass(fs.files, report) == RemoveAll(start, allDupes[..i], doDel)
    {
      assert allDupes[..i + 1][..i] == allDupes[..i];
      report := report + [Removing];
      ghost var header := Pass(fs.files, report);
      var curDupeset := allDupes[i];
      for j := 0 to |curDupeset|
        invariant Pass(fs.files, report) == RemoveSet(header, curDupeset[..j], doDel)
      {
        assert curDupeset[..j + 1][..j] == curDupeset[..j];
        var curDupe := curDupeset[j];
        report := report + [Listed(curDupe)];
        if doDel {
          var outcome := fs.Remove(curDupe);
          if outcome == NotFound {
            report := report + [CouldNotFind(curDupe)];
          }
        }
      }
      assert curDupeset[..|curDupeset|] == curDupeset;
    }
    assert allDupes[..|allDupes|] == allDupes;
  }

  // ---------------------------------------------------------------------------------
  // What a removal pass promises.

  /** The set's files as report lines. */
  function Listings(dupeSet: seq<Path>): seq<Event>
  {
    if dupeSet == [] then [] else [Listed(dupeSet[0])] + Listings(dupeSet[1..])
  }

  /** One header per set, each followed by that set's files in order. */
  function Announce(allDupes: seq<seq<Path>>): seq<Event>
  {
    if allDupes == [] then [] else [Removing] + Listings(allDupes[0]) + Announce(allDupes[1..])
  }

  /** The paths of the "couldn't find" warnings of a report, in order. */
  function Warnings(report: seq<Event>): seq<Path>
  {
    if report == [] then []
    else (if report[0].CouldNotFind? then [report[0].path] else []) + Warnings(report[1..])
  }

  /** A report without its "couldn't find" warnings. */
  function Unwarned(report: seq<Event>): seq<Event>
  {
    if report == [] then []
    else (if report[0].CouldNotFind? then [] else [report[0]]) + Unwarned(report[1..])
  }

  /** The paths that a sequence of deletion attempts finds missing: those not in `files`
      to begin with, and those already deleted by an earlier attempt. */
  function AbsentOnAttempt(files: map<Path, Bytes>, attempts: seq<Path>): seq<Path>
    decreases |attempts|
  {
    if attempts == [] then []
    else
      var init, p := attempts[..|attempts| - 1], Last(attempts);
      AbsentOnAttempt(files, init) + if p !in files || p in init then [p] else []
  }

  lemma {:induction false} ListingsSnoc(s: seq<Path>, p: Path)
    ensures Listings(s + [p]) == Listings(s) + [Listed(p)]
  {
    if s != [] {
      assert (s + [p])[1..] == s[1..] + [p];
      ListingsSnoc(s[1..], p);
    }
  }

  lemma {:induction false} AnnounceSnoc(allDupes: seq<seq<Path>>, s: seq<Path>)
    ensures Announce(allDupes + [s]) == Announce(allDupes) + [Removing] + Listings(s)
  {
    if allDupes != [] {
      assert (allDupes + [s])[1..] == allDupes[1..] + [s];
      AnnounceSnoc(allDupes[1..], s);
    }
  }

  lemma {:induction false} WarningsAppend(a: seq<Event>, b: seq<Event>)
    ensures Warnings(a + b) == Warnings(a) + Warnings(b)
  {
    if a == [] {
      assert a + b == b;
    } else {
      assert (a + b)[1..] == a[1..] + b;
      WarningsAppend(a[1..], b);
    }
  }

  lemma {:induction false} UnwarnedAppend(a: seq<Event>, b: seq<Event>)
    ensures Unwarned(a + b) == Unwarned(a) + Unwarned(b)
  {
    if a == [] {
      assert a + b == b;
    } else {
      assert (a + b)[1..] == a[1..] + b;
      UnwarnedAppend(a[1..], b);
    }
  }

  lemma {:induction false} AbsentAppend(files: map<Path, Bytes>, done: seq<Path>, next: seq<Path>)
    ensures AbsentOnAttempt(files, done + next)
         == AbsentOnAttempt(files, done) + AbsentOnAttempt(files - Elems(done), next)
    decreases |next|
  {
    if next == [] {
      assert done + next == done;
    } else {
      var init, p := next[..|next| - 1], Last(next);
      assert (done + next)[..|done + next| - 1] == done + init;
      assert Last(done + next) == p;
      AbsentAppend(files, done, init);
      assert (p in done + init) <==> (p in done || p in init);
    }
  }

  /** A dry run leaves the store as it is and reports one header per set, each followed
      by that set's files. */
  lemma {:induction false} DryRun(st: Pass, allDupes: seq<seq<Path>>)
    ensures RemoveAll(st, allDupes, false) == Pass(st.files, st.report + Announce(allDupes))
    decreases |allDupes|
  {
    if allDupes != [] {
      var init, s := allDupes[..|allDupes| - 1], Last(allDupes);
      assert allDupes == init + [s];
      DryRun(st, init);
      var header := Pass(st.files, st.report + Announce(init) + [Removing]);
      DryRunSet(header, s);
      AnnounceSnoc(init, s);
    }
  }

  lemma {:induction false} DryRunSet(st: Pass, dupeSet: seq<Path>)
    ensures RemoveSet(st, dupeSet, false) == Pass(st.files, st.report + Listings(dupeSet))
    decreases |dupeSet|
  {
    if dupeSet != [] {
      var init, p := dupeSet[..|dupeSet| - 1], Last(dupeSet);
      assert dupeSet == init + [p];
      DryRunSet(st, init);
      ListingsSnoc(init, p);
    }
  }

  /** Whether or not it deletes, the report without its warnings is one header per set,
      each followed by that set's files in order. */
  lemma {:induction false} ReportAnnouncesSets(st: Pass, allDupes: seq<seq<Path>>, doDel: bool)
    ensures Unwarned(RemoveAll(st, allDupes, doDel).report) == Unwarned(st.report) + Announce(allDupes)
    decreases |allDupes|
  {
    if allDupes != [] {
      var init, s := allDupes[..|allDupes| - 1], Last(allDupes);
      assert allDupes == init + [s];
      ReportAnnouncesSets(st, init, doDel);
      var prev := RemoveAll(st, init, doDel);
      var mid := Pass(prev.files, prev.report + [Removing]);
      assert RemoveAll(st, allDupes, doDel) == RemoveSet(mid, s, doDel);
      SetAnnounced(mid, s, doDel);
      UnwarnedAppend(prev.report, [Removing]);
      assert Unwarned([Removing]) == [Removing];
      AnnounceSnoc(init, s);
      assert Unwarned(st.report) + Announce(allDupes)
          == (Unwarned(st.report) + Announce(init)) + [Removing] + Listings(s);
    }
  }

  lemma {:induction false} SetAnnounced(st: Pass, dupeSet: seq<Path>, doDel: bool)
    ensures Unwarned(RemoveSet(st, dupeSet, doDel).report) == Unwarned(st.report) + Listings(dupeSet)
    decreases |dupeSet|
  {
    if dupeSet != [] {
      var init, p := dupeSet[..|dupeSet| - 1], Last(dupeSet);
      assert dupeSet == init + [p];
      SetAnnounced(st, init, doDel);
      var prev := RemoveSet(st, init, doDel);
      ListingsSnoc(init, p);
      UnwarnedAppend(prev.report, [Listed(p)]);
      UnwarnedAppend(prev.report + [Listed(p)], [CouldNotFind(p)]);
    }
  }

  /** The report names `p`: it is listed, or warned about. */
  predicate Mentions(report: seq<Event>, p: Path)
  {
    Listed(p) in report || CouldNotFind(p) in report
  }

  /** One set's pass names exactly the files of the set, besides what came before. */
  lemma {:induction false} SetMentions(st: Pass, dupeSet: seq<Path>, doDel: bool, p: Path)
    ensures Mentions(RemoveSet(st, dupeSet, doDel).report, p) <==> Mentions(st.report, p) || p in dupeSet
    decreases |dupeSet|
  {
    if dupeSet != [] {
      var init, q := dupeSet[..|dupeSet| - 1], Last(dupeSet);
      assert dupeSet == init + [q];
      SetMentions(st, init, doDel, p);
    }
  }

  /** The whole pass names exactly the files of the sets, besides what came before. */
  lemma {:induction false} AllMentions(st: Pass, allDupes: seq<seq<Path>>, doDel: bool, p: Path)
    ensures Mentions(RemoveAll(st, allDupes, doDel).report, p) <==> Mentions(st.report, p) || p in Flatten(allDupes)
    decreases |allDupes|
  {
    if allDupes != [] {
      var init, s := allDupes[..|allDupes| - 1], Last(allDupes);
      assert allDupes == init + [s];
      AllMentions(st, init, doDel, p);
      var prev := RemoveAll(st, init, doDel);
      SetMentions(Pass(prev.files, prev.report + [Removing]), s, doDel, p);
      FlattenSnoc(init, s);
    }
  }

  /** The paths listed in a sequence. */
  function Elems(ps: seq<Path>): set<Path>
  {
    set q | q in ps
  }

  lemma SubtractTwice(m: map<Path, Bytes>, a: set<Path>, b: set<Path>)
    ensures (m - a) - b == m - (a + b)
  {
    assert ((m - a) - b).Keys == (m - (a + b)).Keys;
  }

  /** Deleting one set: its files are gone and everything else is as it was. */
  lemma {:induction false} CommitSetFiles(st: Pass, dupeSet: seq<Path>)
    ensures RemoveSet(st, dupeSet, true).files == st.files - Elems(dupeSet)
    decreases |dupeSet|
  {
    if dupeSet == [] {
      assert st.files - Elems(dupeSet) == st.files;
    } else {
      var init, p := dupeSet[..|dupeSet| - 1], Last(dupeSet);
      assert dupeSet == init + [p];
      CommitSetFiles(st, init);
      assert Elems(dupeSet) == Elems(init) + {p};
      SubtractTwice(st.files, Elems(init), {p});
      if p !in st.files - Elems(init) {
        assert st.files - Elems(init) == st.files - Elems(dupeSet);
      }
    }
  }

  /** Deleting one set: a warning is given exactly for each attempt that found its file
      missing. */
  lemma {:induction false} CommitSetWarnings(st: Pass, dupeSet: seq<Path>)
    ensures Warnings(RemoveSet(st, dupeSet, true).report)
         == Warnings(st.report) + AbsentOnAttempt(st.files, dupeSet)
    decreases |dupeSet|
  {
    if dupeSet != [] {
      var init, p := dupeSet[..|dupeSet| - 1], Last(dupeSet);
      assert dupeSet == init + [p];
      CommitSetWarnings(st, init);
      CommitSetFiles(st, init);
      var prev := RemoveSet(st, init, true);
      assert (p in prev.files) <==> (p in st.files && p !in init);
      WarningsAppend(prev.report, [Listed(p)]);
      WarningsAppend(prev.report + [Listed(p)], [CouldNotFind(p)]);
    }
  }

  /** Deleting all sets: no listed path remains and every other path is untouched. */
  lemma {:induction false} CommitFiles(st: Pass, allDupes: seq<seq<Path>>)
    ensures RemoveAll(st, allDupes, true).files == st.files - Elems(Flatten(allDupes))
    decreases |allDupes|
  {
    if allDupes == [] {
      assert st.files - Elems(Flatten(allDupes)) == st.files;
    } else {
      var init, s := allDupes[..|allDupes| - 1], Last(allDupes);
      assert allDupes == init + [s];
      CommitFiles(st, init);
      var prev := RemoveAll(st, init, true);
      CommitSetFiles(Pass(prev.files, prev.report + [Removing]), s);
      FlattenSnoc(init, s);
      assert Elems(Flatten(allDupes)) == Elems(Flatten(init)) + Elems(s);
      SubtractTwice(st.files, Elems(Flatten(init)), Elems(s));
    }
  }

  /** Deleting all sets: a "couldn't find" warning is given, in order, exactly for the
      attempts whose file was absent at that moment (missing from the start, or deleted
      by an earlier attempt, as when a path occurs in two sets). */
  lemma {:induction false} CommitWarnings(st: Pass, allDupes: seq<seq<Path>>)
    ensures Warnings(RemoveAll(st, allDupes, true).report)
         == Warnings(st.report) + AbsentOnAttempt(st.files, Flatten(allDupes))
    decreases |allDupes|
  {
    if allDupes != [] {
      var init, s := allDupes[..|allDupes| - 1], Last(allDupes);
      assert allDupes == init + [s];
      CommitWarnings(st, init);
      CommitFiles(st, init);
      var prev := RemoveAll(st, init, true);
      CommitSetWarnings(Pass(prev.files, prev.report + [Removing]), s);
      FlattenSnoc(init, s);
      AbsentAppend(st.files, Flatten(init), s);
      WarningsAppend(prev.report, [Removing]);
    }
  }

  /** The store after a pass: unchanged on a dry run; otherwise exactly the listed paths
      are gone and every other path keeps its contents. */
  lemma RemovalEffect(st: Pass, allDupes: seq<seq<Path>>, doDel: bool)
    ensures RemoveAll(st, allDupes, doDel).files
         == if doDel then st.files - Elems(Flatten(allDupes)) else st.files
  {
    if doDel {
      CommitFiles(st, allDupes);
    } else {
      DryRun(st, allDupes);
    }
  }
}
