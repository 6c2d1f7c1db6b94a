/** `get_all_files`: the files of one directory whose names end in one of the
    recognised extensions, gathered extension by extension with `glob`. */
module Discovery {
  import opened Seqs
  import opened Paths

  /** The two shapes of `glob` pattern the program builds inside a directory:
      `*<suffix>` (line 51) and `<prefix>*` (line 96). */
  datatype Pattern = AnyEnding(suffix: string) | AnyAfter(prefix: string)

  /** A hidden entry: its name begins with a dot. */
  predicate Hidden(name: string)
  {
    name != [] && name[0] == '.'
  }

  /** Whether `glob` reports the entry `name` for `pat`. Neither pattern the program
      builds begins with a dot (a `pic_name` has none), so `glob` skips hidden entries. */
  predicate GlobMatch(pat: Pattern, name: string)
  {
    !Hidden(name) &&
    match pat
    case AnyEnding(suffix) => EndsWith(name, suffix)
    case AnyAfter(prefix) => StartsWith(name, prefix)
  }

  /** The paths `glob` reports for each name of directory `base`, in order. */
  function JoinAll(base: Path, names: seq<string>): (r: seq<Path>)
    ensures |r| == |names|
    ensures forall i :: 0 <= i < |r| ==> r[i] == GlobJoin(base, names[i])
  {
    if names == [] then [] else [GlobJoin(base, names[0])] + JoinAll(base, names[1..])
  }

  /** The entries of `listing` (the directory's names, in listing order) that `pat`
      matches. */
  function GlobNames(listing: seq<string>, pat: Pattern): (r: seq<string>)
    ensures IsSubsequence(r, listing)
    ensures forall e :: e in r <==> e in listing && GlobMatch(pat, e)
  {
    FilterKeeps(listing, e => GlobMatch(pat, e));
    Filter(listing, e => GlobMatch(pat, e))
  }

  /** `glob.glob(os.path.join(base, pattern))` over a directory with entries `listing`. */
  function Glob(base: Path, listing: seq<string>, pat: Pattern): (r: seq<Path>)
    ensures |r| <= |listing|
  {
    if listing == [] then []
    else (if GlobMatch(pat, listing[0]) then [GlobJoin(base, listing[0])] else [])
         + Glob(base, listing[1..], pat)
  }

  /** `glob` finds exactly `base` joined with the entries the pattern matches. */
  lemma {:induction false} GlobMembers(base: Path, listing: seq<string>, pat: Pattern, p: Path)
    ensures p in Glob(base, listing, pat) <==>
            exists e :: e in listing && GlobMatch(pat, e) && p == GlobJoin(base, e)
  {
    if listing != [] {
      GlobMembers(base, listing[1..], pat, p);
      assert forall e :: e in listing <==> e == listing[0] || e in listing[1..];
    }
  }

  /** `glob` keeps the matching entries in listing order, each joined to `base`. */
  lemma {:induction false} GlobInListingOrder(base: Path, listing: seq<string>, pat: Pattern)
    ensures Glob(base, listing, pat) == JoinAll(base, GlobNames(listing, pat))
    ensures IsSubsequence(GlobNames(listing, pat), listing)
  {
    if listing != [] {
      GlobInListingOrder(base, listing[1..], pat);
      assert GlobNames(listing, pat)
          == (if GlobMatch(pat, listing[0]) then [listing[0]] else []) + GlobNames(listing[1..], pat);
    }
  }

  /** Joining distinct single-segment names to one directory gives distinct paths. */
  lemma JoinAllDistinct(base: Path, names: seq<string>)
    requires Distinct(names) && forall e :: e in names ==> Sep !in e
    ensures Distinct(JoinAll(base, names))
  {
    var r := JoinAll(base, names);
    forall i, j | 0 <= i < j < |r| ensures r[i] != r[j] {
      LastSegmentOfGlobJoin(base, names[i]);
      LastSegmentOfGlobJoin(base, names[j]);
    }
  }

  /** The extensions `get_all_files` looks for when none are given (line 35). */
  const DefaultFileTypes: seq<string> :=
    ["jpeg", "JPG", "jpg", "gif", "GIF", "png", "PNG", "mov", "MOV", "mp4"]

  /** The `glob` of `*.<ext>` in the directory, for each extension `ext`. */
  function GlobType(base: Path, listing: seq<string>): string -> seq<Path>
  {
    ft => Glob(base, listing, AnyEnding("." + ft))
  }

  /** What `get_all_files` returns: one `glob` of `*.<ext>` per extension, concatenated in
      the order of `filetypes`. */
  function AllFiles(base: Path, listing: seq<string>, filetypes: seq<string>): seq<Path>
  {
    FlatMap(filetypes, GlobType(base, listing))
  }

  /** `get_all_files(base_path, filetypes)`, the loop that grows `all_images`. */
  method GetAllFiles(base: Path, listing: seq<string>, filetypes: seq<string>)
    returns (allImages: seq<Path>)
    ensures allImages == AllFiles(base, listing, filetypes)
  {
    allImages := [];
    for i := 0 to |filetypes|
      invariant allImages == AllFiles(base, listing, filetypes[..i])
    {
      assert filetypes[..i + 1][..i] == filetypes[..i];
      allImages := allImages + Glob(base, listing, AnyEnding("." + filetypes[i]));
    }
    assert filetypes[..|filetypes|] == filetypes;
  }

  /** A path is found exactly when one of the extensions' globs finds it. */
  lemma AllFilesMembers(base: Path, listing: seq<string>, filetypes: seq<string>, p: Path)
    ensures p in AllFiles(base, listing, filetypes) <==>
            exists ft :: ft in filetypes && p in Glob(base, listing, AnyEnding("." + ft))
  {
    FlatMapMembers(filetypes, GlobType(base, listing), p);
  }

  /** Every path found is `base` joined with an entry ending in `.` and one of the
      extensions, and so ends with that extension itself. */
  lemma AllFilesTyped(base: Path, listing: seq<string>, filetypes: seq<string>, p: Path)
    requires p in AllFiles(base, listing, filetypes)
    ensures exists ft, e :: ft in filetypes && e in listing && EndsWith(e, "." + ft) && p == GlobJoin(base, e)
    ensures exists ft :: ft in filetypes && EndsWith(p, "." + ft)
  {
    AllFilesMembers(base, listing, filetypes, p);
    var ft :| ft in filetypes && p in Glob(base, listing, AnyEnding("." + ft));
    GlobMembers(base, listing, AnyEnding("." + ft), p);
    var e :| e in listing && GlobMatch(AnyEnding("." + ft), e) && p == GlobJoin(base, e);
    assert EndsWith(p, e);
    assert p[|p| - |"." + ft|..] == e[|e| - |"." + ft|..];
  }

  /** The result is grouped by extension, in the order of the extension list. */
  lemma AllFilesConcat(base: Path, listing: seq<string>, fts1: seq<string>, fts2: seq<string>)
    ensures AllFiles(base, listing, fts1 + fts2) == AllFiles(base, listing, fts1) + AllFiles(base, listing, fts2)
  {
    FlatMapAppend(fts1, fts2, GlobType(base, listing));
  }
}
