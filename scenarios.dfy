/** Worked examples. The first two use a small directory `d` holding `photo.jpg`, its
    copy `photo (1).jpg` and the unrelated `photo2 (1).jpg`, to show the prefix heuristic
    and hash verification; the last two show how `glob` treats a directory path with
    trailing separators and a hidden entry. */
module Scenarios {
  import opened Types
  import opened Seqs
  import opened Paths
  import opened Discovery
  import opened Hashing
  import opened Classifier
  import opened Resolver

  const Listing: seq<string> := ["photo.jpg", "photo (1).jpg", "photo2 (1).jpg"]

  /** The prefix test is literal: `photo2 (1).jpg` is a candidate copy of `photo.jpg`
      just like `photo (1).jpg` is, and the original itself is not. */
  lemma PrefixHeuristicExample()
    ensures Candidates("d", Listing, "d/photo.jpg", DefaultIndicator) == ["d/photo (1).jpg", "d/photo2 (1).jpg"]
  {
    OriginalNames();
    Globbed();
    NotACopy();
    CopyLooksCopied();
    LookalikeLooksCopied();
    DropFirst(["d/photo.jpg", "d/photo (1).jpg", "d/photo2 (1).jpg"], p => LooksLikeCopy(p, "d/photo.jpg", " "));
  }

  /** With hash verification the lookalike is dropped once its digest differs from
      the original's, and the copy with the original's digest is kept. */
  lemma VerifiedExample(files: map<Path, Bytes>, digest: Bytes -> Hex)
    requires "d/photo.jpg" in files && "d/photo (1).jpg" in files && "d/photo2 (1).jpg" in files
    requires digest(files["d/photo (1).jpg"]) == digest(files["d/photo.jpg"]) != digest(files["d/photo2 (1).jpg"])
    ensures Resolve("d", Listing, "d/photo.jpg", DefaultIndicator, true, files, digest) == Ok(["d/photo (1).jpg"])
  {
    PrefixHeuristicExample();
    KeepFirst(files, "d/photo.jpg", "d/photo (1).jpg", "d/photo2 (1).jpg", digest);
  }

  /** A directory given with trailing separators: `glob` reports its entries under the
      directory without them, since `os.path.split` strips them. */
  lemma TrailingSeparatorsExample()
    ensures GlobJoin("d//", "a.jpg") == "d/a.jpg"
  {
    assert !AllSeps("d//") by { assert "d//"[0] != Sep; }
    assert "d//"[..2] == "d/" && "d/"[..1] == "d";
    assert TrimSeps("d//") == "d";
    JoinPlain("d", "a.jpg");
  }

  /** A hidden media file, such as the `._` companion files some systems write, is never
      gathered, so it never becomes an original. */
  lemma HiddenSkippedExample()
    ensures Glob("d", ["._a.jpg"], AnyEnding(".jpg")) == []
  {
    assert Hidden("._a.jpg");
    GlobStep("d", ["._a.jpg"], AnyEnding(".jpg"));
    assert ["._a.jpg"][1..] == [];
  }

  lemma KeepFirst(files: map<Path, Bytes>, original: Path, copy: Path, other: Path, digest: Bytes -> Hex)
    requires original in files && copy in files && other in files
    requires digest(files[copy]) == digest(files[original]) != digest(files[other])
    ensures HashFilter([copy, other], files, digest(files[original]), digest) == Ok([copy])
  {
    var target := digest(files[original]);
    assert [copy, other][..1] == [copy] && [copy][..0] == [];
    assert Last([copy]) == copy && Last([copy, other]) == other;
    assert HashFilter([], files, target, digest) == Ok([]);
    assert [] + [copy] == [copy];
    assert HashFilter([copy], files, target, digest) == Ok([copy]);
  }

  // Facts about the example's paths, one at a time.

  lemma OriginalNames()
    ensures PicName("d/photo.jpg") == "photo" && FileType("d/photo.jpg") == "jpg"
  {
    OriginalSegment();
    FirstPartUnique("photo.jpg", '.', "photo");
    OriginalType();
  }

  lemma OriginalType()
    ensures FileType("d/photo.jpg") == "jpg"
  {
    AfterLastUnique("d/photo.jpg", '.', "jpg");
  }

  lemma OriginalSegment()
    ensures LastSegment("d/photo.jpg") == "photo.jpg"
  {
    AfterLastUnique("d/photo.jpg", Sep, "photo.jpg");
  }

  lemma CopySegment()
    ensures LastSegment("d/photo (1).jpg") == "photo (1).jpg"
  {
    AfterLastUnique("d/photo (1).jpg", Sep, "photo (1).jpg");
  }

  lemma LookalikeSegment()
    ensures LastSegment("d/photo2 (1).jpg") == "photo2 (1).jpg"
  {
    AfterLastUnique("d/photo2 (1).jpg", Sep, "photo2 (1).jpg");
  }

  lemma GlobStep(base: Path, listing: seq<string>, pat: Pattern)
    requires listing != []
    ensures Glob(base, listing, pat)
         == (if GlobMatch(pat, listing[0]) then [GlobJoin(base, listing[0])] else []) + Glob(base, listing[1..], pat)
  {
  }

  lemma DropFirst<T(!new)>(s: seq<T>, keep: T -> bool)
    requires |s| == 3 && !keep(s[0]) && keep(s[1]) && keep(s[2])
    ensures Filter(s, keep) == s[1..]
  {
    assert s[1..][1..][1..] == [];
    assert Filter(s[1..][1..], keep) == [s[2]];
    assert Filter(s[1..], keep) == [s[1], s[2]];
  }

  lemma Joined()
    ensures GlobJoin("d", "photo.jpg") == "d/photo.jpg"
    ensures GlobJoin("d", "photo (1).jpg") == "d/photo (1).jpg"
    ensures GlobJoin("d", "photo2 (1).jpg") == "d/photo2 (1).jpg"
  {
    JoinedOriginal();
    JoinedCopy();
    JoinedLookalike();
  }

  lemma JoinedOriginal()
    ensures GlobJoin("d", "photo.jpg") == "d/photo.jpg"
  {
    JoinPlain("d", "photo.jpg");
  }

  lemma JoinedCopy()
    ensures GlobJoin("d", "photo (1).jpg") == "d/photo (1).jpg"
  {
    JoinPlain("d", "photo (1).jpg");
  }

  lemma JoinedLookalike()
    ensures GlobJoin("d", "photo2 (1).jpg") == "d/photo2 (1).jpg"
  {
    JoinPlain("d", "photo2 (1).jpg");
  }

  lemma JoinPlain(base: Path, name: string)
    requires base != [] && Last(base) != Sep && name != [] && name[0] != Sep
    ensures GlobJoin(base, name) == base + [Sep] + name
  {
    GlobHeadPlain(base, name);
  }

  lemma Globbed()
    ensures Glob("d", Listing, AnyAfter("photo")) == ["d/photo.jpg", "d/photo (1).jpg", "d/photo2 (1).jpg"]
  {
    var rest := ["photo (1).jpg", "photo2 (1).jpg"];
    assert Listing[1..] == rest && rest[1..] == ["photo2 (1).jpg"] && rest[1..][1..] == [];
    Joined();
    assert StartsWith("photo.jpg", "photo") && StartsWith("photo (1).jpg", "photo")
        && StartsWith("photo2 (1).jpg", "photo");
    GlobStep("d", Listing, AnyAfter("photo"));
    GlobStep("d", rest, AnyAfter("photo"));
    GlobStep("d", rest[1..], AnyAfter("photo"));
  }

  lemma NotACopy()
    ensures !LooksLikeCopy("d/photo.jpg", "d/photo.jpg", DefaultIndicator)
  {
    OriginalSegment();
    ContainsChar("photo.jpg", ' ');
  }

  lemma CopyLooksCopied()
    ensures LooksLikeCopy("d/photo (1).jpg", "d/photo.jpg", DefaultIndicator)
  {
    OriginalType();
    CopySegment();
    HasSpace("photo (1).jpg", 5);
  }

  lemma LookalikeLooksCopied()
    ensures LooksLikeCopy("d/photo2 (1).jpg", "d/photo.jpg", DefaultIndicator)
  {
    OriginalType();
    LookalikeSegment();
    HasSpace("photo2 (1).jpg", 6);
  }

  lemma HasSpace(name: string, i: nat)
    requires i < |name| && name[i] == ' '
    ensures Contains(name, DefaultIndicator)
  {
    ContainsChar(name, ' ');
  }
}
