/** What both playlist coordinators do per segment: resolve the segment's
    link against the playlist URL and name the segment's file after its
    index. */
module Segments {
  import opened Text

  /** The URL a segment is fetched from: a link starting with `http` is
      used as is; any other link is appended, after a `/`, to the playlist
      URL up to its last `/` (the whole URL when it has none). */
  function ResolveUrl(url: string, link: string): string {
    if StartsWith(link, "http") then link else SubstringBeforeLast(url, '/') + "/" + link
  }

  /** An absolute link is used as is, and every resolved URL ends with the
      link. */
  lemma ResolveKeepsLink(url: string, link: string)
    ensures StartsWith(link, "http") ==> ResolveUrl(url, link) == link
    ensures var r := ResolveUrl(url, link); |link| <= |r| && r[|r| - |link|..] == link
  {
    if !StartsWith(link, "http") {
      var r := ResolveUrl(url, link);
      var front := SubstringBeforeLast(url, '/') + "/";
      assert r == front + link;
      assert r[|front|..] == link;
    }
  }

  /** A relative link replaces the last path component of the playlist URL. */
  lemma ResolveRelative(dir: string, page: string, link: string)
    requires '/' !in page && !StartsWith(link, "http")
    ensures ResolveUrl(dir + "/" + page, link) == dir + "/" + link
  {
    SubstringBeforeLastOf(dir, '/', page);
  }

  /** The file name of segment `i`: the index in decimal, a dot, and the
      text after the last dot of the target file name (the whole name when
      it has no dot). */
  function SegmentName(i: nat, fileName: string): string {
    NatToString(i) + "." + SubstringAfterLast(fileName, '.')
  }

  /** The stem of a segment name (the text before its last dot) is the
      segment's index in decimal. */
  lemma SegmentStem(i: nat, fileName: string)
    ensures SubstringBeforeLast(SegmentName(i, fileName), '.') == NatToString(i)
  {
    var ext := SubstringAfterLast(fileName, '.');
    SubstringAfterLastHasNo(fileName, '.');
    SubstringBeforeLastOf(NatToString(i), '.', ext);
  }

  /** Distinct segments get distinct file names, so no segment overwrites
      another in the shared directory. */
  lemma SegmentNamesDistinct(i: nat, j: nat, fileName: string)
    requires i != j
    ensures SegmentName(i, fileName) != SegmentName(j, fileName)
  {
    SegmentStem(i, fileName);
    SegmentStem(j, fileName);
    if SegmentName(i, fileName) == SegmentName(j, fileName) {
      NatToStringInjective(i, j);
    }
  }
}
