/** Merging downloaded segments into one file: the segment files are listed,
    sorted by the number in their names, and copied one after the other into
    the output file. The directory listing (whose order the platform does
    not fix) and any I/O failure are inputs. */
module SegmentMerger {
  import opened Wrappers
  import opened Text
  import opened Files
  import opened Segments

  const MERGE_BUFFER_SIZE: nat := 1024 * 1024

  // ---------------------------------------------------------------------
  // The sort key

  /** `File(path).nameWithoutExtension`: the last path component up to its
      last dot. */
  function NameWithoutExtension(path: string): string {
    SubstringBeforeLast(SubstringAfterLast(path, '/'), '.')
  }

  /** The key `merge` sorts by: the file's stem read as an `Int`, and
      `Int.MAX_VALUE` when it is not one, so such files sort last. */
  function StemKey(path: string): (k: int)
    ensures INT_MIN <= k <= INT_MAX
    ensures ToIntOrNull(NameWithoutExtension(path)).None? ==> k == INT_MAX
  {
    match ToIntOrNull(NameWithoutExtension(path))
    case Some(v) => v
    case None => INT_MAX
  }

  /** The key of segment `i`'s file is `i`: the segment's index comes back
      from its file name. */
  lemma SegmentKey(dir: string, i: nat, fileName: string)
    requires i <= INT_MAX && '/' !in fileName
    ensures StemKey(ChildPath(dir, SegmentName(i, fileName))) == i
  {
    var name := SegmentName(i, fileName);
    var ext := SubstringAfterLast(fileName, '.');
    NatToStringHasNo(i, '/');
    assert '/' !in ext;
    assert '/' !in name;
    SubstringBeforeLastOf(dir, '/', name);
    SegmentStem(i, fileName);
    ToIntOrNullOfNatToString(i);
  }

  // ---------------------------------------------------------------------
  // Stable sort by key (`sortedBy`)

  predicate SortedBy<T>(key: T -> int, s: seq<T>) {
    forall i, j :: 0 <= i < j < |s| ==> key(s[i]) <= key(s[j])
  }

  /** Inserts `x` after every element whose key is not greater than its own. */
  function Insert<T>(key: T -> int, x: T, s: seq<T>): (r: seq<T>)
    ensures |r| == |s| + 1
    ensures multiset(r) == multiset(s) + multiset{x}
  {
    if |s| == 0 then [x]
    else if key(x) < key(s[0]) then [x] + s
    else
      assert s == [s[0]] + s[1..];
      [s[0]] + Insert(key, x, s[1..])
  }

  /** `sortedBy { key }`: each element in turn is inserted into the sorted
      prefix, after the elements with an equal key that came before it. */
  function SortBy<T>(key: T -> int, s: seq<T>): seq<T>
  {
    if |s| == 0 then [] else Insert(key, s[|s| - 1], SortBy(key, s[..|s| - 1]))
  }

  /** The order `merge` puts the listed segment files in. */
  function SortByStem(s: seq<string>): seq<string> {
    SortBy(StemKey, s)
  }

  lemma {:induction false} InsertSorted<T>(key: T -> int, x: T, s: seq<T>)
    requires SortedBy(key, s)
    ensures SortedBy(key, Insert(key, x, s))
    decreases |s|
  {
    if |s| > 0 && key(x) >= key(s[0]) {
      InsertSorted(key, x, s[1..]);
      var r := Insert(key, x, s[1..]);
      forall j | 0 <= j < |r|
        ensures key(s[0]) <= key(r[j])
      {
        assert r[j] in multiset(r);
        assert r[j] == x || r[j] in multiset(s[1..]);
      }
    }
  }

  /** The result is sorted by key. */
  lemma {:induction false} SortBySorted<T>(key: T -> int, s: seq<T>)
    ensures SortedBy(key, SortBy(key, s))
    decreases |s|
  {
    if |s| > 0 {
      var n := |s| - 1;
      SortBySorted(key, s[..n]);
      InsertSorted(key, s[n], SortBy(key, s[..n]));
    }
  }

  /** The result holds the same elements as the input, each as many times. */
  lemma {:induction false} SortByPermutation<T>(key: T -> int, s: seq<T>)
    ensures multiset(SortBy(key, s)) == multiset(s)
    decreases |s|
  {
    if |s| > 0 {
      var n := |s| - 1;
      SortByPermutation(key, s[..n]);
      assert s == s[..n] + [s[n]];
    }
  }

  /** The result is sorted by key and holds the same elements, each as many
      times as the input does. */
  lemma SortBySortedPermutation<T>(key: T -> int, s: seq<T>)
    ensures SortedBy(key, SortBy(key, s))
    ensures multiset(SortBy(key, s)) == multiset(s)
  {
    SortBySorted(key, s);
    SortByPermutation(key, s);
  }

  /** The elements with key `v`, in order. */
  function WithKey<T>(key: T -> int, s: seq<T>, v: int): seq<T> {
    if |s| == 0 then []
    else WithKey(key, s[..|s| - 1], v) + (if key(s[|s| - 1]) == v then [s[|s| - 1]] else [])
  }

  lemma {:induction false} WithKeyPrepend<T>(key: T -> int, x: T, s: seq<T>, v: int)
    ensures WithKey(key, [x] + s, v) == (if key(x) == v then [x] else []) + WithKey(key, s, v)
    decreases |s|
  {
    if |s| == 0 {
      assert [x] + s == [x] && [x][..0] == [];
    } else {
      var m := |s| - 1;
      WithKeyPrepend(key, x, s[..m], v);
      assert ([x] + s)[..|s|] == [x] + s[..m];
    }
  }

  /** A sorted sequence whose first key is above `v` has no element of key `v`. */
  lemma {:induction false} WithKeyNone<T>(key: T -> int, s: seq<T>, v: int)
    requires SortedBy(key, s) && |s| > 0 && v < key(s[0])
    ensures WithKey(key, s, v) == []
    decreases |s|
  {
    if |s| > 1 {
      WithKeyNone(key, s[..|s| - 1], v);
    } else {
      assert s[..0] == [];
    }
  }

  /** `x` goes in front when its key is below the first: the elements of
      key `v` are `x` alone or those of `s`. */
  lemma WithKeyInsertFront<T>(key: T -> int, x: T, s: seq<T>, v: int)
    requires SortedBy(key, s) && |s| > 0 && key(x) < key(s[0])
    ensures WithKey(key, Insert(key, x, s), v) == WithKey(key, s, v) + (if key(x) == v then [x] else [])
  {
    assert Insert(key, x, s) == [x] + s;
    WithKeyPrepend(key, x, s, v);
    if key(x) == v {
      WithKeyNone(key, s, v);
      assert [x] + [] == [] + [x];
    } else {
      assert [] + WithKey(key, s, v) == WithKey(key, s, v) + [];
    }
  }

  /** `x` goes after the first element: that element's contribution comes
      first on both sides. */
  lemma WithKeyInsertStep<T>(key: T -> int, x: T, s: seq<T>, v: int)
    requires |s| > 0 && key(x) >= key(s[0])
    requires WithKey(key, Insert(key, x, s[1..]), v) ==
      WithKey(key, s[1..], v) + (if key(x) == v then [x] else [])
    ensures WithKey(key, Insert(key, x, s), v) == WithKey(key, s, v) + (if key(x) == v then [x] else [])
  {
    var r := Insert(key, x, s[1..]);
    assert Insert(key, x, s) == [s[0]] + r;
    var head := if key(s[0]) == v then [s[0]] else [];
    WithKeyPrepend(key, s[0], r, v);
    assert [s[0]] + s[1..] == s;
    WithKeyPrepend(key, s[0], s[1..], v);
    ConcatAssoc(head, WithKey(key, s[1..], v), if key(x) == v then [x] else []);
  }

  /** Inserting `x` into a sorted sequence puts it after every element of
      the same key. */
  lemma {:induction false} WithKeyInsert<T>(key: T -> int, x: T, s: seq<T>, v: int)
    requires SortedBy(key, s)
    ensures WithKey(key, Insert(key, x, s), v) == WithKey(key, s, v) + (if key(x) == v then [x] else [])
    decreases |s|
  {
    if |s| == 0 {
      assert [x][..0] == [];
    } else if key(x) < key(s[0]) {
      WithKeyInsertFront(key, x, s, v);
    } else {
      SortedTail(key, s);
      WithKeyInsert(key, x, s[1..], v);
      WithKeyInsertStep(key, x, s, v);
    }
  }


  /** The sort is stable: the elements that share a key keep their input
      order (for the listing, in particular the files whose stem is not a
      number). */
  lemma {:induction false} SortByStable<T>(key: T -> int, s: seq<T>, v: int)
    ensures WithKey(key, SortBy(key, s), v) == WithKey(key, s, v)
    decreases |s|
  {
    if |s| > 0 {
      var n := |s| - 1;
      SortByStable(key, s[..n], v);
      SortBySorted(key, s[..n]);
      WithKeyInsert(key, s[n], SortBy(key, s[..n]), v);
    }
  }

  lemma SortedTail<T>(key: T -> int, s: seq<T>)
    requires SortedBy(key, s) && |s| > 0
    ensures SortedBy(key, s[1..])
  {
    forall i, j | 0 <= i < j < |s| - 1
      ensures key(s[1..][i]) <= key(s[1..][j])
    {
      assert s[1..][i] == s[i + 1] && s[1..][j] == s[j + 1];
    }
  }

  lemma MultisetTail<T>(s: seq<T>, t: seq<T>)
    requires |s| > 0 && |t| > 0 && s[0] == t[0] && multiset(s) == multiset(t)
    ensures multiset(s[1..]) == multiset(t[1..])
  {
    assert s == [s[0]] + s[1..] && t == [t[0]] + t[1..];
    assert multiset(s[1..]) == multiset(s) - multiset{s[0]};
    assert multiset(t[1..]) == multiset(t) - multiset{s[0]};
  }

  /** Two sequences sorted by key hold the same elements and the second has
      strictly increasing keys: they are equal. */
  lemma {:induction false} SortedPermutationUnique<T>(key: T -> int, s: seq<T>, t: seq<T>)
    requires SortedBy(key, s) && multiset(s) == multiset(t)
    requires forall i, j :: 0 <= i < j < |t| ==> key(t[i]) < key(t[j])
    ensures s == t
    decreases |s|
  {
    assert |s| == |multiset(s)| == |t|;
    if |s| > 0 {
      assert s[0] in multiset(t) && t[0] in multiset(s);
      var j :| 0 <= j < |t| && t[j] == s[0];
      var k :| 0 <= k < |s| && s[k] == t[0];
      assert key(s[0]) <= key(s[k]);
      assert j == 0;
      MultisetTail(s, t);
      SortedTail(key, s);
      SortedPermutationUnique(key, s[1..], t[1..]);
      assert s == [s[0]] + s[1..] && t == [t[0]] + t[1..];
    }
  }

  /** The files of segments `0 .. n-1` in a directory, in index order. */
  function SegmentFiles(dir: string, fileName: string, n: nat): (ps: seq<string>)
    ensures |ps| == n
    ensures forall i :: 0 <= i < n ==> ps[i] == ChildPath(dir, SegmentName(i, fileName))
  {
    seq(n, i requires 0 <= i < n => ChildPath(dir, SegmentName(i, fileName)))
  }

  /** Whatever order the directory lists a download's segment files in,
      sorting by key puts them in index order. */
  lemma SortRestoresIndexOrder(dir: string, fileName: string, n: nat, listing: seq<string>)
    requires n <= INT_MAX + 1 && '/' !in fileName
    requires multiset(listing) == multiset(SegmentFiles(dir, fileName, n))
    ensures SortByStem(listing) == SegmentFiles(dir, fileName, n)
  {
    var t := SegmentFiles(dir, fileName, n);
    forall i | 0 <= i < n
      ensures StemKey(t[i]) == i
    {
      SegmentKey(dir, i, fileName);
    }
    SortBySortedPermutation(StemKey, listing);
    SortedPermutationUnique(StemKey, SortByStem(listing), t);
  }

  // ---------------------------------------------------------------------
  // Concatenation (`mergeTsFiles`)

  /** What the output holds after copying `paths` in order: each existing
      file's contents, nothing for a missing one. */
  function Merged(fs: FileSystem, paths: seq<string>): Bytes {
    if |paths| == 0 then []
    else
      var p := paths[|paths| - 1];
      Merged(fs, paths[..|paths| - 1]) + (if p in fs then fs[p] else [])
  }

  lemma {:induction false} MergedAppend(fs: FileSystem, a: seq<string>, b: seq<string>)
    ensures Merged(fs, a + b) == Merged(fs, a) + Merged(fs, b)
    decreases |b|
  {
    if |b| == 0 {
      assert a + b == a;
    } else {
      var m := |b| - 1;
      var piece := if b[m] in fs then fs[b[m]] else [];
      MergedAppend(fs, a, b[..m]);
      assert (a + b)[..|a + b| - 1] == a + b[..m];
      assert (a + b)[|a + b| - 1] == b[m];
      assert Merged(fs, a + b) == Merged(fs, a + b[..m]) + piece;
      ConcatAssoc(Merged(fs, a), Merged(fs, b[..m]), piece);
    }
  }

  /** The contents of the files, in order. */
  function Contents(fs: FileSystem, paths: seq<string>): (cs: seq<Bytes>)
    requires forall p :: p in paths ==> p in fs
    ensures |cs| == |paths| && forall i :: 0 <= i < |paths| ==> cs[i] == fs[paths[i]]
  {
    seq(|paths|, i requires 0 <= i < |paths| => fs[paths[i]])
  }

  /** When every file exists, the output is their contents laid end to end,
      in list order. */
  lemma {:induction false} MergedAllPresent(fs: FileSystem, paths: seq<string>)
    requires forall p :: p in paths ==> p in fs
    ensures Merged(fs, paths) == Concat(Contents(fs, paths))
    decreases |paths|
  {
    if |paths| > 0 {
      var m := |paths| - 1;
      MergedAllPresent(fs, paths[..m]);
      assert Contents(fs, paths)[..m] == Contents(fs, paths[..m]);
    }
  }

  /** The paths that exist, in order. */
  function Present(fs: FileSystem, paths: seq<string>): (ps: seq<string>)
    ensures forall p :: p in ps ==> p in fs
  {
    if |paths| == 0 then []
    else
      var p := paths[|paths| - 1];
      Present(fs, paths[..|paths| - 1]) + (if p in fs then [p] else [])
  }

  /** A missing file is skipped and the others are still merged: the output
      is the same as for the existing files alone. */
  lemma {:induction false} MergedSkipsMissing(fs: FileSystem, paths: seq<string>)
    ensures Merged(fs, paths) == Merged(fs, Present(fs, paths))
    decreases |paths|
  {
    if |paths| > 0 {
      var m := |paths| - 1;
      var p := paths[m];
      MergedSkipsMissing(fs, paths[..m]);
      MergedAppend(fs, Present(fs, paths[..m]), if p in fs then [p] else []);
      assert Merged(fs, [p]) == (if p in fs then fs[p] else []) by {
        assert [p][..0] == [];
      }
    }
  }

  /** How much of a segment of `size` bytes is written before read `r`
      of it: one full buffer per earlier read, at most the whole file. */
  function ReadPrefix(r: nat, size: nat): (n: nat)
    ensures n <= size
    ensures n == size || n == r * MERGE_BUFFER_SIZE
  {
    if r * MERGE_BUFFER_SIZE < size then r * MERGE_BUFFER_SIZE else size
  }

  /** Read `r` of a file of `size` bytes is made: the first always, a later
      one when the read before it still delivered bytes. */
  predicate ReadMade(r: nat, size: nat) {
    r == 0 || (r - 1) * MERGE_BUFFER_SIZE < size
  }

  /** The merge throws: `failAt == Some((s, r))` names read `r` of the
      `s`-th path, and that read is made (a missing file is never read). */
  predicate MergeThrows(fs: FileSystem, paths: seq<string>, failAt: Option<(nat, nat)>) {
    && failAt.Some? && failAt.value.0 < |paths| && paths[failAt.value.0] in fs
    && ReadMade(failAt.value.1, |fs[paths[failAt.value.0]]|)
  }

  /** The output once `mergeTsFiles` is over. An exception stops the merge:
      the output holds the earlier files and the part of the failing file
      read before it. Otherwise every file is merged. */
  function MergedUpTo(fs: FileSystem, paths: seq<string>, failAt: Option<(nat, nat)>): Bytes {
    if MergeThrows(fs, paths, failAt) then
      var s := failAt.value.0;
      var content := fs[paths[s]];
      Merged(fs, paths[..s]) + content[..ReadPrefix(failAt.value.1, |content|)]
    else Merged(fs, paths)
  }

  /** A merge that fails still writes a prefix of the full merge, in the
      same order, and a merge with no exception writes all of it. */
  lemma MergedUpToPrefix(fs: FileSystem, paths: seq<string>, failAt: Option<(nat, nat)>)
    ensures MergedUpTo(fs, paths, failAt) <= Merged(fs, paths)
    ensures failAt.None? ==> MergedUpTo(fs, paths, failAt) == Merged(fs, paths)
  {
    if MergeThrows(fs, paths, failAt) {
      var s := failAt.value.0;
      var content := fs[paths[s]];
      assert paths == paths[..s] + paths[s..];
      MergedAppend(fs, paths[..s], paths[s..]);
      assert paths[s..] == [paths[s]] + paths[s + 1..];
      MergedAppend(fs, [paths[s]], paths[s + 1..]);
      assert Merged(fs, [paths[s]]) == content by {
        assert [paths[s]][..0] == [];
      }
    }
  }

  /** The copy of one existing segment through a 1 MiB buffer, appending to
      `out`, until its end or until read `failRead` throws. */
  method CopySegment(out: Bytes, content: Bytes, failRead: Option<nat>) returns (out': Bytes, failed: bool)
    ensures failed == (failRead.Some? && ReadMade(failRead.value, |content|))
    ensures failed ==> out' == out + content[..ReadPrefix(failRead.value, |content|)]
    ensures !failed ==> out' == out + content
  {
    out' := out;
    var position := 0;
    var count := 0;
    var done := false;
    failed := false;
    while !done
      invariant position == ReadPrefix(count, |content|) && ReadMade(count, |content|)
      invariant out' == out + content[..position]
      invariant failRead.Some? && failRead.value < count ==> false
      invariant done ==> failed == (failRead == Some(count)) && (failed || position == |content|)
      invariant !done ==> !failed
      decreases |content| - position, if done then 0 else 1
    {
      if failRead == Some(count) {
        failed, done := true, true;
      } else if position == |content| {
        done := true;
      } else {
        var bytesRead := if |content| - position < MERGE_BUFFER_SIZE then |content| - position
                         else MERGE_BUFFER_SIZE;
        assert content[..position + bytesRead] == content[..position] + content[position..position + bytesRead];
        out' := out' + content[position..position + bytesRead];
        position := position + bytesRead;
        count := count + 1;
      }
    }
    if !failed {
      assert content[..position] == content;
    }
  }

  /** Copying the existing file `i` of the merge, from where the loop
      stands: it throws exactly when the merge fails there, leaving the
      merge's output; otherwise the loop stands one file further. */
  lemma MergeStep(fs: FileSystem, paths: seq<string>, failAt: Option<(nat, nat)>, i: nat)
    requires i < |paths| && paths[i] in fs
    requires MergeThrows(fs, paths, failAt) ==> i <= failAt.value.0
    ensures var failRead := if failAt.Some? && failAt.value.0 == i then Some(failAt.value.1) else None;
      var content := fs[paths[i]];
      && ((failRead.Some? && ReadMade(failRead.value, |content|)) <==>
            MergeThrows(fs, paths, failAt) && failAt.value.0 == i)
      && (failRead.Some? && ReadMade(failRead.value, |content|) ==>
            Merged(fs, paths[..i]) + content[..ReadPrefix(failRead.value, |content|)] ==
              MergedUpTo(fs, paths, failAt))
      && (!(failRead.Some? && ReadMade(failRead.value, |content|)) ==>
            Merged(fs, paths[..i]) + content == Merged(fs, paths[..i + 1]) &&
            (MergeThrows(fs, paths, failAt) ==> i + 1 <= failAt.value.0))
  {
    TakeOneMore(paths, i);
  }

  /** Skipping the missing file `i` moves the loop one file further. */
  lemma MergeSkip(fs: FileSystem, paths: seq<string>, failAt: Option<(nat, nat)>, i: nat)
    requires i < |paths| && paths[i] !in fs
    requires MergeThrows(fs, paths, failAt) ==> i <= failAt.value.0
    ensures Merged(fs, paths[..i]) == Merged(fs, paths[..i + 1])
    ensures MergeThrows(fs, paths, failAt) ==> i + 1 <= failAt.value.0
  {
    TakeOneMore(paths, i);
  }

  /** `mergeTsFiles`: opens the output (truncating it), then for each
      segment path in order skips a missing file and copies an existing one
      through a 1 MiB buffer until its end. An exception while opening the
      output (`openFails`) or at read `failAt` is caught: what was written
      so far stays. */
  method MergeTsFiles(fs: FileSystem, segmentPaths: seq<string>, outputFilePath: string,
                      openFails: bool, failAt: Option<(nat, nat)>)
    returns (files: FileSystem)
    requires outputFilePath !in segmentPaths
    ensures openFails ==> files == fs
    ensures !openFails ==> files == fs[outputFilePath := MergedUpTo(fs, segmentPaths, failAt)]
  {
    if openFails {
      return fs;
    }
    var out: Bytes := [];
    files := fs[outputFilePath := out];
    var i := 0;
    var failed := false;
    while i < |segmentPaths| && !failed
      invariant i <= |segmentPaths| && files == fs[outputFilePath := out]
      invariant !failed ==> out == Merged(fs, segmentPaths[..i])
      invariant !failed && MergeThrows(fs, segmentPaths, failAt) ==> i <= failAt.value.0
      invariant failed ==> MergeThrows(fs, segmentPaths, failAt) && out == MergedUpTo(fs, segmentPaths, failAt)
      decreases |segmentPaths| - i, if failed then 0 else 1
    {
      var segmentPath := segmentPaths[i];
      assert segmentPath != outputFilePath;
      if segmentPath in files {
        var failRead := if failAt.Some? && failAt.value.0 == i then Some(failAt.value.1) else None;
        MergeStep(fs, segmentPaths, failAt, i);
        out, failed := CopySegment(out, files[segmentPath], failRead);
        files := files[outputFilePath := out];
      } else {
        MergeSkip(fs, segmentPaths, failAt, i);
      }
      if !failed {
        i := i + 1;
      }
    }
    if !failed {
      assert segmentPaths[..i] == segmentPaths;
    }
  }

  /** `merge`: sorts the listed segment files by key and merges them into
      the output file. */
  method Merge(fs: FileSystem, listing: seq<string>, outputFilePath: string,
               openFails: bool, failAt: Option<(nat, nat)>)
    returns (files: FileSystem)
    requires outputFilePath !in listing
    ensures openFails ==> files == fs
    ensures !openFails ==> files == fs[outputFilePath := MergedUpTo(fs, SortByStem(listing), failAt)]
  {
    SortBySortedPermutation(StemKey, listing);
    var sorted := SortByStem(listing);
    assert forall p :: p in sorted ==> p in multiset(listing);
    files := MergeTsFiles(fs, sorted, outputFilePath, openFails, failAt);
  }

  /** Merging the files of a download's segments, listed in any order and
      all present, gives their contents in index order. */
  lemma MergeInIndexOrder(fs: FileSystem, dir: string, fileName: string, n: nat, listing: seq<string>)
    requires n <= INT_MAX + 1 && '/' !in fileName
    requires multiset(listing) == multiset(SegmentFiles(dir, fileName, n))
    requires forall i :: 0 <= i < n ==> ChildPath(dir, SegmentName(i, fileName)) in fs
    ensures var sorted := SortByStem(listing);
      Merged(fs, sorted) == Concat(Contents(fs, SegmentFiles(dir, fileName, n)))
  {
    SortRestoresIndexOrder(dir, fileName, n, listing);
    MergedAllPresent(fs, SegmentFiles(dir, fileName, n));
  }
}
