/** The single-stream HLS playlist scanner (RFC 8216: `#EXTM3U`, section
    4.3.1.1; `#EXTINF`, section 4.3.2.1; `#EXT-X-BYTERANGE`, section 4.3.2.2).

    The scanner walks the lines of the playlist once. Three flags live in the
    parser instance, so they carry over from one call to the next:
    `filterStarted` (the header line was seen), `pickNextLine` (the next
    untagged line is a segment link) and `isThatByteRangerM3u8` (the
    playlist uses byte ranges). The loop in `GetM3u8ChunksFromText` is
    proved equal to the fold `ScanLines` of the one-line step `Step`; the
    lemmas below state what the fold produces. */
module SingleStreamParser {
  import opened Wrappers
  import opened Text
  import opened Components
  import Files

  const M3U8_STARTING: string := "#EXTM3U"
  const INFO_LINE_STARTING: string := "#EXTINF:"
  const BYTE_RANGE_LINE_STARTING: string := "#EXT-X-BYTERANGE"

  datatype Flags = Flags(filterStarted: bool, pickNextLine: bool, byteRange: bool)

  /** The scanner's state between two lines: the instance flags, the streams
      collected so far, and whether `streams.last()` was called on an empty
      list (a `NoSuchElementException` that ends the call). */
  datatype Scan = Scan(flags: Flags, streams: seq<SingleStream>, failed: bool)

  /** What one call returns: the streams, or the exception. */
  datatype Chunks = Streams(streams: seq<SingleStream>) | NoSuchElementThrown

  /** The stream a byte-range line creates: no link yet, and a `Range`
      header holding the two numbers of the line copied verbatim. */
  function RangeStream(start: string, end: string): SingleStream {
    SingleStream("", map["Range" := "bytes=" + start + "-" + end], None)
  }

  function LinkStream(line: string): SingleStream {
    SingleStream(line, map[], None)
  }

  /** The two `@`-separated parts of the text after the first `:`. */
  function ByteRangeParts(line: string): seq<string> {
    Split(SubstringAfter(line, ':'), '@')
  }

  predicate IsTagged(line: string) {
    StartsWith(line, M3U8_STARTING) || StartsWith(line, INFO_LINE_STARTING) ||
    StartsWith(line, BYTE_RANGE_LINE_STARTING)
  }

  /** One line of the scan. Flags are only ever set to true except
      `pickNextLine`, which a consumed link clears; of the streams collected
      so far only the last can change, and the count grows by at most one. */
  function Step(s: Scan, line: string): (r: Scan)
    ensures s.failed ==> r == s
    ensures s.flags.filterStarted ==> r.flags.filterStarted
    ensures s.flags.byteRange ==> r.flags.byteRange
    ensures |s.streams| <= |r.streams| <= |s.streams| + 1
    ensures |s.streams| > 0 ==> r.streams[..|s.streams| - 1] == s.streams[..|s.streams| - 1]
    ensures r.failed && !s.failed ==> s.flags.byteRange && s.streams == []
  {
    if s.failed then s
    else
      var f := s.flags;
      if StartsWith(line, M3U8_STARTING) then
        s.(flags := f.(filterStarted := true))
      else if f.filterStarted && StartsWith(line, INFO_LINE_STARTING) then
        s.(flags := f.(pickNextLine := true))
      else if f.pickNextLine && StartsWith(line, BYTE_RANGE_LINE_STARTING) then
        var bytes := ByteRangeParts(line);
        if |bytes| == 2 then
          s.(flags := f.(byteRange := true), streams := s.streams + [RangeStream(bytes[0], bytes[1])])
        else s
      else if f.pickNextLine then
        if f.byteRange then
          if |s.streams| == 0 then s.(failed := true)
          else
            var n := |s.streams|;
            s.(flags := f.(pickNextLine := false),
               streams := s.streams[..n - 1] + [s.streams[n - 1].(link := line)])
        else
          s.(flags := f.(pickNextLine := false), streams := s.streams + [LinkStream(line)])
      else s
  }

  /** The scan of a sequence of lines, one `Step` per line in order. */
  function ScanLines(s: Scan, lines: seq<string>): (r: Scan)
    ensures s.flags.filterStarted ==> r.flags.filterStarted
    ensures s.flags.byteRange ==> r.flags.byteRange
    ensures |s.streams| <= |r.streams|
    ensures s.failed ==> r == s
  {
    if |lines| == 0 then s else Step(ScanLines(s, lines[..|lines| - 1]), lines[|lines| - 1])
  }

  /** One more line is one more step. */
  lemma ScanLinesSnoc(s: Scan, lines: seq<string>, line: string)
    ensures ScanLines(s, lines + [line]) == Step(ScanLines(s, lines), line)
  {
    assert (lines + [line])[..|lines|] == lines;
  }

  /** Scanning two blocks of lines is scanning the first, then the second. */
  lemma {:induction false} ScanAppend(s: Scan, a: seq<string>, b: seq<string>)
    ensures ScanLines(s, a + b) == ScanLines(ScanLines(s, a), b)
    decreases |b|
  {
    if |b| == 0 {
      assert a + b == a;
    } else {
      var m := |b| - 1;
      var init, last := b[..m], b[m];
      assert b == init + [last];
      Files.ConcatAssoc(a, init, [last]);
      ScanAppend(s, a, init);
      ScanLinesSnoc(s, a + init, last);
      ScanLinesSnoc(ScanLines(s, a), init, last);
    }
  }

  /** Before the header line has been seen (and with no link pending), no
      line changes anything: nothing is collected ahead of `#EXTM3U`. */
  lemma {:induction false} NothingBeforeHeader(s: Scan, lines: seq<string>)
    requires !s.flags.filterStarted && !s.flags.pickNextLine
    requires forall k :: 0 <= k < |lines| ==> !StartsWith(lines[k], M3U8_STARTING)
    ensures ScanLines(s, lines) == s
    decreases |lines|
  {
    if |lines| > 0 {
      NothingBeforeHeader(s, lines[..|lines| - 1]);
    }
  }

  /** A line that follows a consumed link, without an `#EXTINF:` line in
      between, is ignored. */
  lemma UnpickedLineIgnored(s: Scan, line: string)
    requires !s.flags.pickNextLine && !StartsWith(line, M3U8_STARTING)
    requires !StartsWith(line, INFO_LINE_STARTING)
    ensures Step(s, line) == s
  {
  }

  /** In URL-listing mode an `#EXTINF:` line followed by an untagged line
      appends exactly one stream: that line as its link, no headers; the
      link is consumed. */
  lemma UrlPair(s: Scan, info: string, url: string)
    requires !s.failed && s.flags.filterStarted && !s.flags.byteRange
    requires StartsWith(info, INFO_LINE_STARTING) && !IsTagged(url)
    ensures ScanLines(s, [info, url]) ==
      Scan(s.flags.(pickNextLine := false), s.streams + [LinkStream(url)], false)
  {
    InfoLineIsNotHeader(info);
    ScanTwo(s, info, url);
  }

  /** In byte-range mode a link line right after a `#EXTINF:` line replaces
      the link of the last stream: the count is unchanged and so is every
      other stream. */
  lemma ByteRangeLinkReplacesLast(s: Scan, info: string, url: string)
    requires !s.failed && s.flags.filterStarted && s.flags.byteRange && |s.streams| > 0
    requires StartsWith(info, INFO_LINE_STARTING) && !IsTagged(url)
    ensures var r := ScanLines(s, [info, url]);
      !r.failed && !r.flags.pickNextLine &&
      |r.streams| == |s.streams| &&
      r.streams[..|s.streams| - 1] == s.streams[..|s.streams| - 1] &&
      r.streams[|s.streams| - 1] == s.streams[|s.streams| - 1].(link := url)
  {
    InfoLineIsNotHeader(info);
    ScanTwo(s, info, url);
  }

  lemma InfoLineIsNotHeader(info: string)
    requires StartsWith(info, INFO_LINE_STARTING)
    ensures !StartsWith(info, M3U8_STARTING)
  {
    assert info[4] == 'I';
  }

  lemma ScanTwo(s: Scan, x: string, y: string)
    ensures ScanLines(s, [x, y]) == Step(Step(s, x), y)
  {
    assert [x, y][..1] == [x];
    assert [x][..0] == [];
    assert ScanLines(s, []) == s;
    assert ScanLines(s, [x]) == Step(s, x);
  }

  lemma ScanThree(s: Scan, x: string, y: string, z: string)
    ensures ScanLines(s, [x, y, z]) == Step(Step(Step(s, x), y), z)
  {
    assert [x, y, z][..2] == [x, y];
    ScanTwo(s, x, y);
  }

  // -----------------------------------------------------------------------
  // Whole playlists

  /** The lines of a URL-listing playlist body: each entry is an `#EXTINF:`
      line and its link line. */
  function PairLines(entries: seq<(string, string)>): seq<string> {
    if |entries| == 0 then []
    else PairLines(entries[..|entries| - 1]) + [entries[|entries| - 1].0, entries[|entries| - 1].1]
  }

  function LinkStreams(entries: seq<(string, string)>): (r: seq<SingleStream>)
    ensures |r| == |entries|
    ensures forall k :: 0 <= k < |entries| ==> r[k] == LinkStream(entries[k].1)
  {
    if |entries| == 0 then []
    else LinkStreams(entries[..|entries| - 1]) + [LinkStream(entries[|entries| - 1].1)]
  }

  predicate WellFormedEntries(entries: seq<(string, string)>) {
    forall k :: 0 <= k < |entries| ==>
      StartsWith(entries[k].0, INFO_LINE_STARTING) && !IsTagged(entries[k].1)
  }

  const Fresh: Scan := Scan(Flags(false, false, false), [], false)

  lemma {:induction false} UrlBody(entries: seq<(string, string)>)
    requires WellFormedEntries(entries)
    ensures ScanLines(Scan(Flags(true, false, false), [], false), PairLines(entries)) ==
      Scan(Flags(true, false, false), LinkStreams(entries), false)
    decreases |entries|
  {
    var s0 := Scan(Flags(true, false, false), [], false);
    if |entries| > 0 {
      var init := entries[..|entries| - 1];
      var e := entries[|entries| - 1];
      UrlBody(init);
      ScanAppend(s0, PairLines(init), [e.0, e.1]);
      UrlPair(ScanLines(s0, PairLines(init)), e.0, e.1);
    }
  }

  /** A URL-listing playlist with N `#EXTINF:`/link pairs after its header
      yields exactly N streams, in playlist order, each with its link line
      and no headers, when scanned by a fresh parser. */
  lemma UrlPlaylist(entries: seq<(string, string)>)
    requires WellFormedEntries(entries)
    ensures ScanLines(Fresh, [M3U8_STARTING] + PairLines(entries)) ==
      Scan(Flags(true, false, false), LinkStreams(entries), false)
  {
    ScanAppend(Fresh, [M3U8_STARTING], PairLines(entries));
    assert [M3U8_STARTING][..0] == [];
    UrlBody(entries);
  }

  /** The lines of a byte-range playlist body: per range an `#EXTINF:` line,
      the line `#EXT-X-BYTERANGE:A@B`, and the shared link. */
  function RangeLines(url: string, ranges: seq<(string, string, string)>): seq<string> {
    if |ranges| == 0 then []
    else
      var r := ranges[|ranges| - 1];
      RangeLines(url, ranges[..|ranges| - 1]) +
        [r.0, BYTE_RANGE_LINE_STARTING + ":" + r.1 + "@" + r.2, url]
  }

  function RangeStreams(url: string, ranges: seq<(string, string, string)>): (r: seq<SingleStream>)
    ensures |r| == |ranges|
    ensures forall k :: 0 <= k < |ranges| ==>
      r[k] == SingleStream(url, map["Range" := "bytes=" + ranges[k].1 + "-" + ranges[k].2], None)
  {
    if |ranges| == 0 then []
    else
      var r := ranges[|ranges| - 1];
      RangeStreams(url, ranges[..|ranges| - 1]) + [RangeStream(r.1, r.2).(link := url)]
  }

  predicate WellFormedRanges(url: string, ranges: seq<(string, string, string)>) {
    !IsTagged(url) &&
    forall k :: 0 <= k < |ranges| ==>
      StartsWith(ranges[k].0, INFO_LINE_STARTING) && '@' !in ranges[k].1 && '@' !in ranges[k].2
  }

  /** The byte-range line `#EXT-X-BYTERANGE:A@B` splits into A and B. */
  lemma ByteRangeLineParts(a: string, b: string)
    requires '@' !in a && '@' !in b
    ensures ByteRangeParts(BYTE_RANGE_LINE_STARTING + ":" + a + "@" + b) == [a, b]
  {
    var line := BYTE_RANGE_LINE_STARTING + ":" + a + "@" + b;
    assert line == BYTE_RANGE_LINE_STARTING + [':'] + (a + "@" + b);
    assert ':' !in BYTE_RANGE_LINE_STARTING;
    IndexOfAfter(BYTE_RANGE_LINE_STARTING, ':', a + "@" + b);
    var after := SubstringAfter(line, ':');
    assert after == a + "@" + b;
    assert after == a + ['@'] + b;
    IndexOfAfter(a, '@', b);
    assert after[|a| + 1..] == b;
    assert after[..|a|] == a;
    SplitInTwo(after, '@');
  }

  /** After the header, an `#EXTINF:` line arms the pick. */
  lemma InfoStep(s: Scan, info: string)
    requires !s.failed && s.flags.filterStarted
    requires StartsWith(info, INFO_LINE_STARTING)
    ensures Step(s, info) == s.(flags := s.flags.(pickNextLine := true))
  {
    InfoLineIsNotHeader(info);
  }

  /** With the pick armed, the line `#EXT-X-BYTERANGE:A@B` appends a stream
      carrying the `Range` header. */
  lemma ByteRangeStep(s: Scan, a: string, b: string)
    requires !s.failed && s.flags.pickNextLine
    requires '@' !in a && '@' !in b
    ensures Step(s, BYTE_RANGE_LINE_STARTING + ":" + a + "@" + b) ==
      s.(flags := s.flags.(byteRange := true), streams := s.streams + [RangeStream(a, b)])
  {
    var br := BYTE_RANGE_LINE_STARTING + ":" + a + "@" + b;
    assert !StartsWith(br, M3U8_STARTING) && !StartsWith(br, INFO_LINE_STARTING) by {
      assert br[4] == '-';
    }
    assert StartsWith(br, BYTE_RANGE_LINE_STARTING) by {
      assert br == BYTE_RANGE_LINE_STARTING + (":" + a + "@" + b);
    }
    ByteRangeLineParts(a, b);
  }

  /** In byte-range mode, with the pick armed, a link line fills in the link
      of the last stream and clears the pick. */
  lemma RangeLinkStep(s: Scan, url: string)
    requires !s.failed && s.flags.pickNextLine && s.flags.byteRange && |s.streams| > 0
    requires !IsTagged(url)
    ensures var n := |s.streams|;
      Step(s, url) ==
        s.(flags := s.flags.(pickNextLine := false),
           streams := s.streams[..n - 1] + [s.streams[n - 1].(link := url)])
  {
  }

  /** One range: the `#EXTINF:` line arms the pick, the byte-range line
      appends a stream with the `Range` header, and the link line fills in
      the link of that stream. */
  lemma RangeTriple(s: Scan, info: string, a: string, b: string, url: string)
    requires !s.failed && s.flags.filterStarted && !s.flags.pickNextLine
    requires StartsWith(info, INFO_LINE_STARTING) && !IsTagged(url)
    requires '@' !in a && '@' !in b
    ensures ScanLines(s, [info, BYTE_RANGE_LINE_STARTING + ":" + a + "@" + b, url]) ==
      Scan(Flags(true, false, true), s.streams + [RangeStream(a, b).(link := url)], false)
  {
    var br := BYTE_RANGE_LINE_STARTING + ":" + a + "@" + b;
    ScanThree(s, info, br, url);
    InfoStep(s, info);
    var s1 := s.(flags := s.flags.(pickNextLine := true));
    ByteRangeStep(s1, a, b);
    var s2 := s1.(flags := s1.flags.(byteRange := true), streams := s.streams + [RangeStream(a, b)]);
    RangeLinkStep(s2, url);
    var n := |s2.streams|;
    assert s2.streams[..n - 1] == s.streams;
  }

  lemma {:induction false} RangeBody(url: string, ranges: seq<(string, string, string)>)
    requires WellFormedRanges(url, ranges) && |ranges| > 0
    ensures ScanLines(Scan(Flags(true, false, false), [], false), RangeLines(url, ranges)) ==
      Scan(Flags(true, false, true), RangeStreams(url, ranges), false)
    decreases |ranges|
  {
    var s0 := Scan(Flags(true, false, false), [], false);
    var init := ranges[..|ranges| - 1];
    var r := ranges[|ranges| - 1];
    var before := if |init| == 0 then s0 else Scan(Flags(true, false, true), RangeStreams(url, init), false);
    if |init| > 0 {
      RangeBody(url, init);
    } else {
      assert RangeLines(url, init) == [];
    }
    assert ScanLines(s0, RangeLines(url, init)) == before;
    ScanAppend(s0, RangeLines(url, init), [r.0, BYTE_RANGE_LINE_STARTING + ":" + r.1 + "@" + r.2, url]);
    RangeTriple(before, r.0, r.1, r.2, url);
  }

  /** A byte-range playlist scanned by a fresh parser yields one stream per
      range, in playlist order; every stream has the shared link and the
      header `Range: bytes=A-B` with A and B copied verbatim from its
      `#EXT-X-BYTERANGE:A@B` line. */
  lemma ByteRangePlaylist(url: string, ranges: seq<(string, string, string)>)
    requires WellFormedRanges(url, ranges) && |ranges| > 0
    ensures ScanLines(Fresh, [M3U8_STARTING] + RangeLines(url, ranges)) ==
      Scan(Flags(true, false, true), RangeStreams(url, ranges), false)
  {
    ScanAppend(Fresh, [M3U8_STARTING], RangeLines(url, ranges));
    assert [M3U8_STARTING][..0] == [];
    RangeBody(url, ranges);
  }

  // -----------------------------------------------------------------------
  // Flags that outlive a call

  /** The flags are instance fields that no call resets. A parser that has
      scanned a byte-range playlist (flags as `ByteRangePlaylist` leaves
      them) and is then given a URL-listing playlist calls `last()` on the
      new, empty stream list at the first link and throws. */
  lemma StaleByteRangeFlagThrows(info: string, url: string, rest: seq<string>)
    requires StartsWith(info, INFO_LINE_STARTING) && !IsTagged(url)
    ensures ScanLines(Scan(Flags(true, false, true), [], false), [M3U8_STARTING, info, url] + rest).failed
  {
    var stale := Scan(Flags(true, false, true), [], false);
    InfoLineIsNotHeader(info);
    ScanThree(stale, M3U8_STARTING, info, url);
    ScanAppend(stale, [M3U8_STARTING, info, url], rest);
  }

  /** The invariant of a scan that starts from cleared flags: byte-range
      mode is only ever entered together with a first stream. */
  predicate RangeModeHasStream(s: Scan) {
    s.flags.byteRange ==> |s.streams| > 0
  }

  lemma {:induction false} ScanKeepsRangeModeHasStream(s: Scan, lines: seq<string>)
    requires RangeModeHasStream(s) && !s.failed
    ensures RangeModeHasStream(ScanLines(s, lines)) && !ScanLines(s, lines).failed
    decreases |lines|
  {
    if |lines| > 0 {
      ScanKeepsRangeModeHasStream(s, lines[..|lines| - 1]);
    }
  }

  /** A scan that starts from cleared flags never throws. */
  lemma FreshScanNeverFails(lines: seq<string>)
    ensures !ScanLines(Fresh, lines).failed
  {
    ScanKeepsRangeModeHasStream(Fresh, lines);
  }

  // -----------------------------------------------------------------------
  // The parser object

  class M3u8SingleStreamTestParser {
    var filterStarted: bool
    var pickNextLine: bool
    var isThatByteRangerM3u8: bool

    function CurrentFlags(): Flags
      reads this
    {
      Flags(filterStarted, pickNextLine, isThatByteRangerM3u8)
    }

    constructor ()
      ensures CurrentFlags() == Flags(false, false, false)
    {
      filterStarted, pickNextLine, isThatByteRangerM3u8 := false, false, false;
    }

    /** `getM3u8Chunks(text)`: scans the lines of `text` starting from the
        instance's flags, which it leaves as the scan ends. */
    method GetM3u8ChunksFromText(text: string) returns (r: Chunks)
      modifies this
      ensures var s := ScanLines(Scan(old(CurrentFlags()), [], false), Lines(text));
        CurrentFlags() == s.flags &&
        r == (if s.failed then NoSuchElementThrown else Streams(s.streams))
    {
      var lines := Lines(text);
      var streams: seq<SingleStream> := [];
      ghost var init := Scan(CurrentFlags(), [], false);
      for i := 0 to |lines|
        invariant ScanLines(init, lines[..i]) == Scan(CurrentFlags(), streams, false)
      {
        var line := lines[i];
        assert lines[..i + 1][..i] == lines[..i];
        ghost var before := Scan(CurrentFlags(), streams, false);
        if StartsWith(line, M3U8_STARTING) {
          filterStarted := true;
        } else if filterStarted && StartsWith(line, INFO_LINE_STARTING) {
          pickNextLine := true;
        } else if pickNextLine && StartsWith(line, BYTE_RANGE_LINE_STARTING) {
          var bytes := Split(SubstringAfter(line, ':'), '@');
          if |bytes| == 2 {
            isThatByteRangerM3u8 := true;
            streams := streams + [RangeStream(bytes[0], bytes[1])];
          }
        } else if pickNextLine {
          if isThatByteRangerM3u8 {
            if |streams| == 0 {
              // `streams.last()` on an empty list throws
              assert Step(before, line).failed;
              FailureIsFinal(init, lines, i + 1);
              return NoSuchElementThrown;
            }
            streams := streams[..|streams| - 1] + [streams[|streams| - 1].(link := line)];
          } else {
            streams := streams + [LinkStream(line)];
          }
          pickNextLine := false;
        }
      }
      assert lines[..|lines|] == lines;
      return Streams(streams);
    }

    /** The corrected call: the three flags are cleared first, so the result
        depends on `text` alone and the call never throws. */
    method GetM3u8ChunksFresh(text: string) returns (streams: seq<SingleStream>)
      modifies this
      ensures streams == ScanLines(Fresh, Lines(text)).streams
      ensures CurrentFlags() == ScanLines(Fresh, Lines(text)).flags
    {
      filterStarted, pickNextLine, isThatByteRangerM3u8 := false, false, false;
      FreshScanNeverFails(Lines(text));
      var r := GetM3u8ChunksFromText(text);
      streams := r.streams;
    }

    /** `getM3u8Chunks(url, headers)` once the playlist has been fetched:
        an absent body, or one without `#EXTINF:`, gives no streams and
        leaves the flags alone. */
    method GetM3u8Chunks(response: Option<string>) returns (r: Chunks)
      modifies this
      ensures response.None? || !Contains(response.value, INFO_LINE_STARTING) ==>
        r == Streams([]) && CurrentFlags() == old(CurrentFlags())
      ensures response.Some? && Contains(response.value, INFO_LINE_STARTING) ==>
        var s := ScanLines(Scan(old(CurrentFlags()), [], false), Lines(response.value));
        CurrentFlags() == s.flags &&
        r == (if s.failed then NoSuchElementThrown else Streams(s.streams))
    {
      if response.None? {
        r := Streams([]);
      } else if Contains(response.value, INFO_LINE_STARTING) {
        r := GetM3u8ChunksFromText(response.value);
      } else {
        r := Streams([]);
      }
    }
  }

  /** Once the scan has failed, the remaining lines change nothing. */
  lemma {:induction false} FailureIsFinal(s: Scan, lines: seq<string>, i: nat)
    requires i <= |lines| && ScanLines(s, lines[..i]).failed
    ensures ScanLines(s, lines) == ScanLines(s, lines[..i])
  {
    ScanAppend(s, lines[..i], lines[i..]);
    assert lines[..i] + lines[i..] == lines;
  }
}
