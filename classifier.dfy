/** `get_originals`: the found files whose final path segment lacks the duplicate
    indicator. */
module Classifier {
  import opened Seqs
  import opened Paths

  /** The indicator `get_originals` and `get_dupes` use when none is given: one space,
      which is what save dialogs insert before a disambiguating suffix. */
  const DefaultIndicator: string := " "

  /** An original: the indicator does not occur in the final path segment. Directory
      components are not examined, so they may contain the indicator. */
  predicate IsOriginal(p: Path, indicator: string)
  {
    !Contains(LastSegment(p), indicator)
  }

  /** `get_originals(all_images, indicator)`: keeps exactly the originals, in their
      order, with their multiplicities, and nothing else. */
  function GetOriginals(allImages: seq<Path>, indicator: string): (r: seq<Path>)
    ensures forall p :: p in r <==> p in allImages && IsOriginal(p, indicator)
    ensures forall p :: multiset(r)[p] == if IsOriginal(p, indicator) then multiset(allImages)[p] else 0
    ensures IsSubsequence(r, allImages)
  {
    FilterKeeps(allImages, p => IsOriginal(p, indicator));
    Filter(allImages, p => IsOriginal(p, indicator))
  }

  /** With the default indicator, an original is a file whose name has no space; a space
      in a directory name does not matter. */
  lemma DefaultOriginal(p: Path)
    ensures IsOriginal(p, DefaultIndicator) <==> ' ' !in LastSegment(p)
  {
    ContainsChar(LastSegment(p), ' ');
  }
}
