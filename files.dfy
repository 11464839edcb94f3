/** The file system as the downloaders and the merger see it: a map from path
    to contents, writes at an offset (`RandomAccessFile.seek` + `write`), and
    the concatenation of a sequence of byte blocks. */
module Files {

  newtype byte = x: int | 0 <= x < 256

  type Bytes = seq<byte>

  type FileSystem = map<string, Bytes>

  /** `File(parent, child).path`, without the normalisation of repeated
      separators. */
  function ChildPath(parent: string, child: string): string {
    parent + "/" + child
  }

  /** Writing `data` at offset `pos` of `file` (`seek(pos)` then `write`):
      the bytes before `pos` are kept, `data` replaces what was there, and
      the file grows when the write runs past its end. */
  function WriteAt(file: Bytes, pos: nat, data: Bytes): (r: Bytes)
    requires pos <= |file|
    ensures |r| == if pos + |data| > |file| then pos + |data| else |file|
    ensures r[..pos] == file[..pos] && r[pos..pos + |data|] == data
    ensures pos == |file| ==> r == file + data
  {
    file[..pos] + data + (if pos + |data| < |file| then file[pos + |data|..] else [])
  }

  /** A prefix one element longer. */
  lemma TakeOneMore<T>(s: seq<T>, i: nat)
    requires i < |s|
    ensures s[..i + 1] == s[..i] + [s[i]]
  {
  }

  lemma ConcatAssoc<T>(a: seq<T>, b: seq<T>, c: seq<T>)
    ensures a + (b + c) == (a + b) + c
  {
  }

  /** The blocks laid end to end. */
  function Concat(blocks: seq<Bytes>): Bytes {
    if |blocks| == 0 then [] else Concat(blocks[..|blocks| - 1]) + blocks[|blocks| - 1]
  }

  lemma {:induction false} ConcatAppend(a: seq<Bytes>, b: seq<Bytes>)
    ensures Concat(a + b) == Concat(a) + Concat(b)
    decreases |b|
  {
    if |b| == 0 {
      assert a + b == a;
    } else {
      ConcatAppend(a, b[..|b| - 1]);
      assert (a + b)[..|a + b| - 1] == a + b[..|b| - 1];
    }
  }

  /** The blocks of a prefix make up a prefix of the whole. */
  lemma ConcatPrefix(blocks: seq<Bytes>, k: nat)
    requires k <= |blocks|
    ensures Concat(blocks[..k]) <= Concat(blocks)
  {
    var front, back := blocks[..k], blocks[k..];
    assert front + back == blocks;
    ConcatAppend(front, back);
    var whole := Concat(front) + Concat(back);
    assert whole[..|Concat(front)|] == Concat(front);
  }
}
