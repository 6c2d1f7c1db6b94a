/** `get_dupes`: for each original, the entries of the same directory that look like a
    saved copy of it, optionally confirmed by comparing content digests. */
module Resolver {
  import opened Types
  import opened Seqs
  import opened Paths
  import opened Hashing
  import opened Discovery
  import opened Classifier

  /** The filter applied to the glob's results (line 96): the indicator occurs in the
      final segment and the path ends with the original's file type. */
  predicate LooksLikeCopy(p: Path, original: Path, indicator: string)
  {
    Contains(LastSegment(p), indicator) && EndsWith(p, FileType(original))
  }

  /** `cur_dupes` before any hashing: the entries starting with `pic_name`, filtered by
      `LooksLikeCopy`. The prefix test is a plain prefix test: `photo2 (1).jpg` is a
      candidate for `photo.jpg`. */
  function Candidates(base: Path, listing: seq<string>, original: Path, indicator: string): seq<Path>
  {
    Filter(Glob(base, listing, AnyAfter(PicName(original))), p => LooksLikeCopy(p, original, indicator))
  }

  /** The file in `files` exists and has digest `target`. */
  function SameDigest(files: map<Path, Bytes>, target: Hex, digest: Bytes -> Hex): Path -> bool
  {
    p => p in files && digest(files[p]) == target
  }

  /** The hash comparison of line 100: candidates are hashed left to right, a candidate
      is kept when its digest is `target`, and the first that cannot be opened aborts. */
  function HashFilter(cands: seq<Path>, files: map<Path, Bytes>, target: Hex, digest: Bytes -> Hex)
    : Result<seq<Path>>
    decreases |cands|
  {
    if cands == [] then Ok([])
    else
      match HashFilter(cands[..|cands| - 1], files, target, digest)
      case Unreadable(p) => Unreadable(p)
      case Ok(kept) =>
        var c := Last(cands);
        if c !in files then Unreadable(c)
        else Ok(if digest(files[c]) == target then kept + [c] else kept)
  }

  /** The duplicate set of one original (lines 92-100), before the emptiness test. */
  function Resolve(base: Path, listing: seq<string>, original: Path, indicator: string,
                   verify: bool, files: map<Path, Bytes>, digest: Bytes -> Hex): Result<seq<Path>>
  {
    var cands := Candidates(base, listing, original, indicator);
    if !verify then Ok(cands)
    else if original !in files then Unreadable(original)
    else HashFilter(cands, files, digest(files[original]), digest)
  }

  /** One original's resolution, with everything else fixed. */
  function ResolveWith(base: Path, listing: seq<string>, indicator: string, verify: bool,
                       files: map<Path, Bytes>, digest: Bytes -> Hex): Path -> Result<seq<Path>>
  {
    o => Resolve(base, listing, o, indicator, verify, files, digest)
  }

  /** The loop of `get_dupes` over the originals, for any way `resolve` of resolving
      one: the non-empty sets in the order of `originals`, or the first failure. */
  function Collect(originals: seq<Path>, resolve: Path -> Result<seq<Path>>): Result<seq<seq<Path>>>
    decreases |originals|
  {
    if originals == [] then Ok([])
    else
      match Collect(originals[..|originals| - 1], resolve)
      case Unreadable(p) => Unreadable(p)
      case Ok(sets) =>
        match resolve(Last(originals))
        case Unreadable(p) => Unreadable(p)
        case Ok(s) => Ok(if s == [] then sets else sets + [s])
  }

  /** What `get_dupes` returns. */
  function Dupes(base: Path, listing: seq<string>, originals: seq<Path>, indicator: string,
                 verify: bool, files: map<Path, Bytes>, digest: Bytes -> Hex): Result<seq<seq<Path>>>
  {
    Collect(originals, ResolveWith(base, listing, indicator, verify, files, digest))
  }

  /** A candidate is exactly a directory entry that begins with the original's
      `pic_name`, joined to the directory, in whose final segment the indicator occurs
      and which ends with the original's file type; candidates keep listing order. */
  lemma CandidatesMembers(base: Path, listing: seq<string>, original: Path, indicator: string, q: Path)
    ensures q in Candidates(base, listing, original, indicator) <==>
            (exists e :: e in listing && !Hidden(e) && StartsWith(e, PicName(original)) && q == GlobJoin(base, e))
            && Contains(LastSegment(q), indicator) && EndsWith(q, FileType(original))
    ensures IsSubsequence(Candidates(base, listing, original, indicator),
                          Glob(base, listing, AnyAfter(PicName(original))))
  {
    GlobMembers(base, listing, AnyAfter(PicName(original)), q);
    FilterKeeps(Glob(base, listing, AnyAfter(PicName(original))), p => LooksLikeCopy(p, original, indicator));
  }

  /** Hashing succeeds exactly when every candidate can be opened, and then keeps
      exactly the candidates whose digest is the target, in order. */
  lemma {:induction false} HashFilterKeeps(cands: seq<Path>, files: map<Path, Bytes>, target: Hex,
                                           digest: Bytes -> Hex)
    ensures HashFilter(cands, files, target, digest).Ok? <==> forall c :: c in cands ==> c in files
    ensures HashFilter(cands, files, target, digest).Ok? ==>
            HashFilter(cands, files, target, digest).value == Filter(cands, SameDigest(files, target, digest))
    decreases |cands|
  {
    if cands != [] {
      var init, c := cands[..|cands| - 1], Last(cands);
      assert cands == init + [c];
      HashFilterKeeps(init, files, target, digest);
      FilterSnoc(init, c, SameDigest(files, target, digest));
    }
  }

  /** A failed hashing pass names the first candidate that could not be opened. */
  lemma {:induction false} HashFilterAborts(cands: seq<Path>, files: map<Path, Bytes>, target: Hex,
                                            digest: Bytes -> Hex)
    requires HashFilter(cands, files, target, digest).Unreadable?
    ensures exists k :: 0 <= k < |cands| && cands[k] !in files
              && (forall j :: 0 <= j < k ==> cands[j] in files)
              && HashFilter(cands, files, target, digest) == Unreadable(cands[k])
    decreases |cands|
  {
    var init := cands[..|cands| - 1];
    assert forall j :: 0 <= j < |init| ==> cands[j] == init[j];
    if HashFilter(init, files, target, digest).Unreadable? {
      HashFilterAborts(init, files, target, digest);
      var k :| 0 <= k < |init| && init[k] !in files
               && (forall j :: 0 <= j < k ==> init[j] in files)
               && HashFilter(init, files, target, digest) == Unreadable(init[k]);
      assert HashFilter(cands, files, target, digest) == Unreadable(cands[k]);
    } else {
      HashFilterKeeps(init, files, target, digest);
      var k := |cands| - 1;
      assert forall j :: 0 <= j < k ==> init[j] in init;
      assert Last(cands) == cands[k];
    }
  }

  /** Which candidates form the set. Without hashing: all of them. With hashing: the
      original can be opened and a candidate is kept exactly when its digest equals the
      original's; a mismatch is simply left out. Either way the set keeps listing order. */
  lemma ResolveSelection(base: Path, listing: seq<string>, original: Path, indicator: string,
                         verify: bool, files: map<Path, Bytes>, digest: Bytes -> Hex, q: Path)
    requires Resolve(base, listing, original, indicator, verify, files, digest).Ok?
    ensures var members := Resolve(base, listing, original, indicator, verify, files, digest).value;
            var cands := Candidates(base, listing, original, indicator);
            && (!verify ==> members == cands)
            && (verify ==> original in files &&
                           (q in members <==> q in cands && q in files && digest(files[q]) == digest(files[original])))
            && IsSubsequence(members, cands)
  {
    var cands := Candidates(base, listing, original, indicator);
    if verify {
      HashFilterKeeps(cands, files, digest(files[original]), digest);
      FilterKeeps(cands, SameDigest(files, digest(files[original]), digest));
    } else {
      IsSubsequenceOfSelf(cands);
    }
  }

  /** A directory lists each name once, and a name is a single segment; then no
      candidate occurs twice. */
  lemma CandidatesDistinct(base: Path, listing: seq<string>, original: Path, indicator: string)
    requires Distinct(listing) && forall e :: e in listing ==> Sep !in e
    ensures Distinct(Candidates(base, listing, original, indicator))
  {
    var pat := AnyAfter(PicName(original));
    var names := GlobNames(listing, pat);
    GlobInListingOrder(base, listing, pat);
    SubsequenceDistinct(names, listing);
    SubsequenceMembers(names, listing);
    JoinAllDistinct(base, names);
    FilterKeeps(Glob(base, listing, pat), p => LooksLikeCopy(p, original, indicator));
    SubsequenceDistinct(Candidates(base, listing, original, indicator), Glob(base, listing, pat));
  }

  /** Every file of an original's duplicate set occurs in it exactly once. */
  lemma ResolveDistinct(base: Path, listing: seq<string>, original: Path, indicator: string,
                        verify: bool, files: map<Path, Bytes>, digest: Bytes -> Hex)
    requires Distinct(listing) && forall e :: e in listing ==> Sep !in e
    requires Resolve(base, listing, original, indicator, verify, files, digest).Ok?
    ensures Distinct(Resolve(base, listing, original, indicator, verify, files, digest).value)
  {
    CandidatesDistinct(base, listing, original, indicator);
    ResolveSelection(base, listing, original, indicator, verify, files, digest, original);
    SubsequenceDistinct(Resolve(base, listing, original, indicator, verify, files, digest).value,
                        Candidates(base, listing, original, indicator));
  }

  /** Resolution fails only when hashing is on and the original or one of its
      candidates cannot be opened. */
  lemma ResolveFails(base: Path, listing: seq<string>, original: Path, indicator: string,
                     verify: bool, files: map<Path, Bytes>, digest: Bytes -> Hex)
    ensures Resolve(base, listing, original, indicator, verify, files, digest).Unreadable? <==>
            verify && (original !in files ||
                       exists c :: c in Candidates(base, listing, original, indicator) && c !in files)
  {
    if verify && original in files {
      HashFilterKeeps(Candidates(base, listing, original, indicator), files, digest(files[original]), digest);
    }
  }

  /** Every member of an original's set has the indicator in its final segment, ends
      with the original's file type, and is an entry beginning with the original's
      `pic_name`; when entry names hold no separator, the member's own final segment
      begins with `pic_name`. */
  lemma ResolveMembers(base: Path, listing: seq<string>, original: Path, indicator: string,
                       verify: bool, files: map<Path, Bytes>, digest: Bytes -> Hex, q: Path)
    requires Resolve(base, listing, original, indicator, verify, files, digest).Ok?
    requires q in Resolve(base, listing, original, indicator, verify, files, digest).value
    ensures Contains(LastSegment(q), indicator)
    ensures EndsWith(q, FileType(original))
    ensures exists e :: e in listing && StartsWith(e, PicName(original)) && q == GlobJoin(base, e)
    ensures (forall e :: e in listing ==> Sep !in e) ==> StartsWith(LastSegment(q), PicName(original))
  {
    ResolveSelection(base, listing, original, indicator, verify, files, digest, q);
    CandidatesMembers(base, listing, original, indicator, q);
    var e :| e in listing && StartsWith(e, PicName(original)) && q == GlobJoin(base, e);
    if forall e :: e in listing ==> Sep !in e {
      LastSegmentOfGlobJoin(base, e);
    }
  }

  /** An original is never a member of its own set: it lacks the indicator. */
  lemma OriginalNotInOwnSet(base: Path, listing: seq<string>, original: Path, indicator: string,
                            verify: bool, files: map<Path, Bytes>, digest: Bytes -> Hex)
    requires IsOriginal(original, indicator)
    requires Resolve(base, listing, original, indicator, verify, files, digest).Ok?
    ensures original !in Resolve(base, listing, original, indicator, verify, files, digest).value
  {
    if original in Resolve(base, listing, original, indicator, verify, files, digest).value {
      ResolveMembers(base, listing, original, indicator, verify, files, digest, original);
    }
  }

  /** The members of a resolved set; nothing when resolution failed. */
  function MembersOr(r: Result<seq<Path>>): seq<Path>
  {
    match r
    case Ok(s) => s
    case Unreadable(_) => []
  }

  /** Each original's set (empty when its resolution fails), in the order of `originals`. */
  function SetsOf(originals: seq<Path>, resolve: Path -> Result<seq<Path>>): (r: seq<seq<Path>>)
    ensures |r| == |originals|
    ensures forall k :: 0 <= k < |r| ==> r[k] == MembersOr(resolve(originals[k]))
    decreases |originals|
  {
    if originals == [] then []
    else
      var init := originals[..|originals| - 1];
      var rest := SetsOf(init, resolve);
      var r := rest + [MembersOr(resolve(Last(originals)))];
      assert forall k :: 0 <= k < |init| ==> init[k] == originals[k] && r[k] == rest[k];
      r
  }

  predicate NonEmpty(s: seq<Path>)
  {
    s != []
  }

  /** `get_dupes` succeeds exactly when every original resolves, and then returns the
      non-empty sets among the originals' sets, in the order of the originals. */
  lemma {:induction false} CollectShape(originals: seq<Path>, resolve: Path -> Result<seq<Path>>)
    ensures Collect(originals, resolve).Ok? <==> forall o :: o in originals ==> resolve(o).Ok?
    ensures Collect(originals, resolve).Ok? ==>
            Collect(originals, resolve).value == Filter(SetsOf(originals, resolve), NonEmpty)
    decreases |originals|
  {
    if originals != [] {
      var init, o := originals[..|originals| - 1], Last(originals);
      assert originals == init + [o];
      CollectShape(init, resolve);
      FilterSnoc(SetsOf(init, resolve), MembersOr(resolve(o)), NonEmpty);
    }
  }

  /** The sets `get_dupes` returns: none is empty, there is at most one per original,
      they come in the order of the originals, and each is the set of some original. */
  lemma CollectSets(originals: seq<Path>, resolve: Path -> Result<seq<Path>>)
    requires Collect(originals, resolve).Ok?
    ensures var sets := Collect(originals, resolve).value;
            && (forall s :: s in sets ==> s != [])
            && |sets| <= |originals|
            && IsSubsequence(sets, SetsOf(originals, resolve))
            && (forall s :: s in sets ==> exists o :: o in originals && resolve(o) == Ok(s))
  {
    CollectShape(originals, resolve);
    var all := SetsOf(originals, resolve);
    FilterKeeps(all, NonEmpty);
    forall s | s in Filter(all, NonEmpty)
      ensures exists o :: o in originals && resolve(o) == Ok(s)
    {
      var k :| 0 <= k < |all| && all[k] == s;
      assert originals[k] in originals;
    }
  }

  /** A failed `get_dupes` names the file of the first original whose resolution failed. */
  lemma {:induction false} CollectAborts(originals: seq<Path>, resolve: Path -> Result<seq<Path>>)
    requires Collect(originals, resolve).Unreadable?
    ensures exists k :: 0 <= k < |originals|
              && resolve(originals[k]).Unreadable?
              && (forall j :: 0 <= j < k ==> resolve(originals[j]).Ok?)
              && Collect(originals, resolve).path == resolve(originals[k]).path
    decreases |originals|
  {
    var init := originals[..|originals| - 1];
    assert forall j :: 0 <= j < |init| ==> originals[j] == init[j];
    if Collect(init, resolve).Unreadable? {
      CollectAborts(init, resolve);
    } else {
      CollectShape(init, resolve);
      assert forall j :: 0 <= j < |init| ==> init[j] in init;
    }
  }

  /** Once hashing has failed on a prefix of the candidates, the failure is the result. */
  lemma {:induction false} HashFilterStopsAt(cands: seq<Path>, k: nat, files: map<Path, Bytes>,
                                             target: Hex, digest: Bytes -> Hex)
    requires k <= |cands|
    requires HashFilter(cands[..k], files, target, digest).Unreadable?
    ensures HashFilter(cands, files, target, digest) == HashFilter(cands[..k], files, target, digest)
    decreases |cands| - k
  {
    if k < |cands| {
      var init := cands[..|cands| - 1];
      assert init[..k] == cands[..k];
      HashFilterStopsAt(init, k, files, target, digest);
    } else {
      assert cands[..k] == cands;
    }
  }

  /** Once resolution has failed on a prefix of the originals, the failure is the result. */
  lemma {:induction false} CollectStopsAt(originals: seq<Path>, k: nat, resolve: Path -> Result<seq<Path>>)
    requires k <= |originals|
    requires Collect(originals[..k], resolve).Unreadable?
    ensures Collect(originals, resolve) == Collect(originals[..k], resolve)
    decreases |originals| - k
  {
    if k < |originals| {
      var init := originals[..|originals| - 1];
      assert init[..k] == originals[..k];
      CollectStopsAt(init, k, resolve);
    } else {
      assert originals[..k] == originals;
    }
  }

  /** The comprehension of line 100, hashing each candidate in turn. */
  method KeepSameDigest(cands: seq<Path>, files: map<Path, Bytes>, target: Hex, digest: Bytes -> Hex)
    returns (r: Result<seq<Path>>)
    ensures r == HashFilter(cands, files, target, digest)
  {
    var kept: seq<Path> := [];
    for j := 0 to |cands|
      invariant HashFilter(cands[..j], files, target, digest) == Ok(kept)
    {
      assert cands[..j + 1][..j] == cands[..j];
      var h, candidateReads := HashFile(files, cands[j], digest);
      if h.Unreadable? {
        HashFilterStopsAt(cands, j + 1, files, target, digest);
        return Unreadable(cands[j]);
      }
      assert Last(cands[..j + 1]) == cands[j];
      if h.value == target {
        kept := kept + [cands[j]];
      }
    }
    assert cands[..|cands|] == cands;
    r := Ok(kept);
  }

  /** Lines 92-100: the candidates of one original, hashed when `verify` is set. */
  method ResolveOne(base: Path, listing: seq<string>, picPath: Path, indicator: string,
                    verify: bool, files: map<Path, Bytes>, digest: Bytes -> Hex)
    returns (r: Result<seq<Path>>)
    ensures r == Resolve(base, listing, picPath, indicator, verify, files, digest)
  {
    var curDupes := Candidates(base, listing, picPath, indicator);
    if !verify {
      return Ok(curDupes);
    }
    var originalHash, originalReads := HashFile(files, picPath, digest);
    if originalHash.Unreadable? {
      return Unreadable(picPath);
    }
    r := KeepSameDigest(curDupes, files, originalHash.value, digest);
  }

  /** `get_dupes(base_path, originals, indicator, verify_hashes)`: the loop over the
      originals that appends each non-empty set. */
  method GetDupes(base: Path, listing: seq<string>, originals: seq<Path>, indicator: string,
                  verify: bool, files: map<Path, Bytes>, digest: Bytes -> Hex)
    returns (r: Result<seq<seq<Path>>>)
    ensures r == Dupes(base, listing, originals, indicator, verify, files, digest)
  {
    ghost var resolve := ResolveWith(base, listing, indicator, verify, files, digest);
    var dupes: seq<seq<Path>> := [];
    for k := 0 to |originals|
      invariant Collect(originals[..k], resolve) == Ok(dupes)
    {
      assert originals[..k + 1][..k] == originals[..k];
      var curDupes := ResolveOne(base, listing, originals[k], indicator, verify, files, digest);
      assert curDupes == resolve(originals[k]);
      if curDupes.Unreadable? {
        CollectStopsAt(originals, k + 1, resolve);
        return Unreadable(curDupes.path);
      }
      if |curDupes.value| > 0 {
        dupes := dupes + [curDupes.value];
      }
    }
    assert originals[..|originals|] == originals;
    r := Ok(dupes);
  }
}
