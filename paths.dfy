/** The path-string operations the program uses: splitting off the final segment,
    Python's `in`, `startswith`, `endswith`, `split('.')[0]`, `rfind('.')`, and
    POSIX `os.path.join`. */
module Paths {
  import opened Seqs

  type Path = string

  /** `os.path.sep` on POSIX systems. */
  const Sep: char := '/'

  predicate StartsWith(s: string, prefix: string)
  {
    |prefix| <= |s| && s[..|prefix|] == prefix
  }

  predicate EndsWith(s: string, suffix: string)
  {
    |suffix| <= |s| && s[|s| - |suffix|..] == suffix
  }

  /** Python's `sub in s`: `sub` occurs in `s` as a contiguous piece. */
  predicate Contains(s: string, sub: string)
    decreases |s|
  {
    StartsWith(s, sub) || (s != [] && Contains(s[1..], sub))
  }

  /** A one-character piece occurs exactly when that character does. */
  lemma {:induction false} ContainsChar(s: string, c: char)
    ensures Contains(s, [c]) <==> c in s
    decreases |s|
  {
    if s != [] {
      ContainsChar(s[1..], c);
      assert c in s <==> s[0] == c || c in s[1..];
    }
  }

  /** `sub` occurs in `s` starting at index `i`. */
  predicate OccursAt(s: string, sub: string, i: int)
  {
    0 <= i <= |s| - |sub| && s[i..i + |sub|] == sub
  }

  /** `Contains` agrees with the positional reading of a substring occurrence. */
  lemma {:induction false} ContainsAt(s: string, sub: string)
    ensures Contains(s, sub) <==> exists i :: OccursAt(s, sub, i)
  {
    if StartsWith(s, sub) {
      assert OccursAt(s, sub, 0);
    } else if s != [] {
      ContainsAt(s[1..], sub);
      if Contains(s[1..], sub) {
        var i :| OccursAt(s[1..], sub, i);
        assert s[i + 1..i + 1 + |sub|] == s[1..][i..i + |sub|];
        assert OccursAt(s, sub, i + 1);
      }
      if exists i :: OccursAt(s, sub, i) {
        var i :| OccursAt(s, sub, i);
        assert i != 0;
        assert s[1..][i - 1..i - 1 + |sub|] == s[i..i + |sub|];
        assert OccursAt(s[1..], sub, i - 1);
      }
    }
  }

  /** The text after the last `c` in `s`, or all of `s` when it has no `c`. */
  function AfterLast(s: string, c: char): (r: string)
    ensures c !in r
    ensures EndsWith(s, r)
    ensures |r| < |s| ==> s[|s| - |r| - 1] == c
  {
    if s == [] then []
    else if Last(s) == c then []
    else AfterLast(s[..|s| - 1], c) + [Last(s)]
  }

  /** The final path segment: the text after the last separator, or all of `p`. */
  function LastSegment(p: Path): string
  {
    AfterLast(p, Sep)
  }

  /** The first piece of splitting `s` at `c`: the text before the first `c`, or all of `s`. */
  function FirstPart(s: string, c: char): (r: string)
    ensures c !in r
    ensures StartsWith(s, r)
    ensures |r| < |s| ==> s[|r|] == c
  {
    if s == [] || s[0] == c then [] else [s[0]] + FirstPart(s[1..], c)
  }

  /** The contract of `AfterLast` pins it down: the one suffix free of `c` that is
      either all of `s` or preceded by a `c`. */
  lemma AfterLastUnique(s: string, c: char, t: string)
    requires EndsWith(s, t) && c !in t
    requires |t| < |s| ==> s[|s| - |t| - 1] == c
    ensures AfterLast(s, c) == t
  {
    var r := AfterLast(s, c);
    assert |r| == |t|;
  }

  /** Likewise for `FirstPart`: the one prefix free of `c` that is either all of `s` or
      followed by a `c`. */
  lemma FirstPartUnique(s: string, c: char, t: string)
    requires StartsWith(s, t) && c !in t
    requires |t| < |s| ==> s[|t|] == c
    ensures FirstPart(s, c) == t
  {
    var r := FirstPart(s, c);
    assert |r| == |t|;
  }

  /** `s.rfind(c)`: the index of the last `c` in `s`, or -1 if there is none. */
  function RFind(s: string, c: char): (r: int)
    ensures -1 <= r < |s|
    ensures r >= 0 ==> s[r] == c
    ensures forall k :: r < k < |s| ==> s[k] != c
  {
    if s == [] then -1
    else if Last(s) == c then |s| - 1
    else RFind(s[..|s| - 1], c)
  }

  /** `pic_name` (line 92): the final segment up to its first dot. */
  function PicName(p: Path): (r: string)
    ensures Sep !in r && '.' !in r
    ensures StartsWith(LastSegment(p), r)
  {
    FirstPart(LastSegment(p), '.')
  }

  /** The text after the last dot of the WHOLE path (the whole path when it has none). */
  function FileType(p: Path): string
  {
    AfterLast(p, '.')
  }

  /** Slicing from just after the last `c` (as line 94 does with `rfind`) is `AfterLast`. */
  lemma {:induction false} AfterLastIsSlice(s: string, c: char)
    ensures AfterLast(s, c) == s[RFind(s, c) + 1..]
  {
    if s != [] && Last(s) != c {
      AfterLastIsSlice(s[..|s| - 1], c);
    }
  }

  /** POSIX `os.path.join(base, name)`. */
  function Join(base: Path, name: string): (r: Path)
    ensures EndsWith(r, name)
  {
    if name != [] && name[0] == Sep then name
    else if base == [] || Last(base) == Sep then base + name
    else base + [Sep] + name
  }

  /** Appending text free of `c` extends the part after the last `c`. */
  lemma {:induction false} AfterLastAppend(x: string, t: string, c: char)
    requires c !in t
    ensures AfterLast(x + t, c) == AfterLast(x, c) + t
  {
    if t != [] {
      var t' := t[..|t| - 1];
      assert (x + t)[..|x + t| - 1] == x + t';
      assert AfterLast(x + t, c) == AfterLast(x + t', c) + [Last(t)];
      AfterLastAppend(x, t', c);
      assert t' + [Last(t)] == t;
    } else {
      assert x + t == x;
    }
  }

  /** A directory entry's name is the final segment of the path joined from it. */
  lemma LastSegmentOfJoin(base: Path, name: string)
    requires Sep !in name
    ensures LastSegment(Join(base, name)) == name
  {
    if base == [] || Last(base) == Sep {
      AfterLastAppend(base, name, Sep);
    } else {
      AfterLastAppend(base + [Sep], name, Sep);
    }
  }

  /** Every character is a separator (the empty string included). */
  predicate AllSeps(s: string)
  {
    forall k :: 0 <= k < |s| ==> s[k] == Sep
  }

  /** `s` without its trailing separators. */
  function TrimSeps(s: string): (r: string)
    ensures StartsWith(s, r)
    ensures r == [] || Last(r) != Sep
    ensures forall k :: |r| <= k < |s| ==> s[k] == Sep
    decreases |s|
  {
    if s != [] && Last(s) == Sep then TrimSeps(s[..|s| - 1]) else s
  }

  /** The directory part that `glob` takes, with `os.path.split`, from
      `os.path.join(base, pattern)` when the pattern is a single segment: `base` less its
      trailing separators, unless `base` is separators only (the root stays the root). */
  function GlobHead(base: Path): (r: Path)
    ensures StartsWith(base, r)
    ensures forall k :: |r| <= k < |base| ==> base[k] == Sep
    ensures AllSeps(base) ==> r == base
    ensures !AllSeps(base) ==> r != [] && Last(r) != Sep
  {
    if AllSeps(base) then base else TrimSeps(base)
  }

  /** The path `glob` reports for the entry `name` of directory `base`: the entry
      joined to the directory part of the pattern. */
  function GlobJoin(base: Path, name: string): Path
  {
    Join(GlobHead(base), name)
  }

  /** A directory path without a trailing separator is its own directory part, so
      `glob` reports its entries as `os.path.join` builds them. */
  lemma GlobHeadPlain(base: Path, name: string)
    requires base != [] && Last(base) != Sep
    ensures GlobHead(base) == base
    ensures GlobJoin(base, name) == Join(base, name)
  {
    assert !AllSeps(base) by { assert base[|base| - 1] != Sep; }
  }

  /** An entry's name is the final segment of the path `glob` reports for it. */
  lemma LastSegmentOfGlobJoin(base: Path, name: string)
    requires Sep !in name
    ensures LastSegment(GlobJoin(base, name)) == name
  {
    LastSegmentOfJoin(GlobHead(base), name);
  }
}
