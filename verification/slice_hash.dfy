/** Three ways to compute the digest of every slice of a file: a writer fed by arbitrary buffers, a reader
    with one slice-sized buffer, and a loop that copies slice after slice. The hash is any function of bytes.
 */
module SliceHash {

  import opened Arithmetic
  import opened Slicing

  // ----- the reference -----

  function FirstDigests<T, D>(digest: seq<T> -> D, content: seq<T>, slice: nat, n: nat): (r: seq<D>)
    requires slice > 0 && content != [] && n <= Count(|content|, slice)
    ensures |r| == n
  {
    if n == 0 then [] else FirstDigests(digest, content, slice, n - 1) + [digest(Block(content, slice, n - 1))]
  }

  /** One digest per slice; the empty file counts as one empty slice. */
  function SliceDigests<T, D>(digest: seq<T> -> D, content: seq<T>, slice: nat): seq<D>
    requires slice > 0
  {
    if content == [] then [digest([])] else FirstDigests(digest, content, slice, Count(|content|, slice))
  }

  // ----- full slices of a growing stream -----

  function FullSlice<T>(data: seq<T>, slice: nat, k: nat): seq<T>
    requires slice > 0 && (k + 1) * slice <= |data|
  {
    MulMonotone(k, k + 1, slice);
    data[k * slice..(k + 1) * slice]
  }

  ghost function FullDigests<T, D>(digest: seq<T> -> D, data: seq<T>, slice: nat, n: nat): (r: seq<D>)
    requires slice > 0 && n * slice <= |data|
    ensures |r| == n
  {
    if n == 0 then []
    else
      MulMonotone(n - 1, n, slice);
      FullDigests(digest, data, slice, n - 1) + [digest(FullSlice(data, slice, n - 1))]
  }

  lemma {:induction false} FullDigestsPrefix<T, D>(digest: seq<T> -> D, a: seq<T>, b: seq<T>, slice: nat, n: nat)
    requires slice > 0 && n * slice <= |a| && a <= b
    ensures FullDigests(digest, a, slice, n) == FullDigests(digest, b, slice, n)
  {
    if n > 0 {
      MulMonotone(n - 1, n, slice);
      FullDigestsPrefix(digest, a, b, slice, n - 1);
      assert FullSlice(a, slice, n - 1) == FullSlice(b, slice, n - 1);
    }
  }

  /** What a writer has seen, recorded and still buffers. */
  ghost predicate Hashed<T, D>(digest: seq<T> -> D, data: seq<T>, slice: nat, finish: nat, hash: seq<T>, md5s: seq<D>)
    requires slice > 0
  {
    && finish == |data|
    && |md5s| * slice + |hash| == |data|
    && |hash| < slice
    && hash == data[|md5s| * slice..]
    && md5s == FullDigests(digest, data, slice, |md5s|)
  }

  /** Appending at most what is missing from the current slice. */
  lemma HashedGrows<T, D>(digest: seq<T> -> D, data: seq<T>, slice: nat, hash: seq<T>, md5s: seq<D>, p: seq<T>)
    requires slice > 0 && Hashed(digest, data, slice, |data|, hash, md5s)
    requires |p| <= slice - |hash|
    ensures |data| % slice == |hash|
    ensures |hash + p| < slice ==> Hashed(digest, data + p, slice, |data + p|, hash + p, md5s) && |data + p| % slice == |hash + p|
    ensures |hash + p| == slice ==>
              Hashed(digest, data + p, slice, |data + p|, [], md5s + [digest(hash + p)]) && |data + p| % slice == 0
  {
    hide FullDigests, FullSlice;
    var n := |md5s|;
    DivUnique(|data|, slice, n, |hash|);
    FullDigestsPrefix(digest, data, data + p, slice, n);
    TailGrows(data, n * slice, hash, p);
    if |hash + p| < slice {
      DivUnique(|data + p|, slice, n, |hash + p|);
    } else {
      assert (n + 1) * slice == n * slice + slice == |data + p|;
      DivUnique(|data + p|, slice, n + 1, 0);
      SliceCompleted(digest, data + p, slice, n, hash + p);
    }
  }

  lemma TailGrows<T>(data: seq<T>, at: nat, tail: seq<T>, p: seq<T>)
    requires at <= |data| && tail == data[at..]
    ensures (data + p)[at..] == tail + p
  {
  }

  lemma SliceCompleted<T, D>(digest: seq<T> -> D, data: seq<T>, slice: nat, n: nat, last: seq<T>)
    requires slice > 0 && n * slice <= |data| == (n + 1) * slice && data[n * slice..] == last
    ensures FullDigests(digest, data, slice, n + 1) == FullDigests(digest, data, slice, n) + [digest(last)]
    ensures data[(n + 1) * slice..] == []
  {
    assert FullSlice(data, slice, n) == last;
    hide FullSlice;
  }

  lemma HashedRemainder<T, D>(digest: seq<T> -> D, data: seq<T>, slice: nat, hash: seq<T>, md5s: seq<D>)
    requires slice > 0 && Hashed(digest, data, slice, |data|, hash, md5s)
    ensures |data| % slice == |hash| < slice
  {
    DivUnique(|data|, slice, |md5s|, |hash|);
  }

  lemma FinishIs<T, D>(digest: seq<T> -> D, data: seq<T>, slice: nat, finish: nat, hash: seq<T>, md5s: seq<D>)
    requires slice > 0 && Hashed(digest, data, slice, finish, hash, md5s)
    ensures finish == |data|
  {
  }

  // ----- the writer -----

  class SliceHashWriter<T, D> {
    const digest: seq<T> -> D
    const sliceSize: nat
    var hash: seq<T>
    var md5s: seq<D>
    var finish: nat
    ghost var data: seq<T>

    ghost predicate Valid()
      reads this
    {
      sliceSize > 0 && Hashed(digest, data, sliceSize, finish, hash, md5s)
    }

    constructor (digest: seq<T> -> D, sliceSize: nat)
      requires sliceSize > 0
      ensures Valid() && data == [] && this.digest == digest && this.sliceSize == sliceSize
    {
      this.digest, this.sliceSize := digest, sliceSize;
      hash, md5s, finish, data := [], [], 0, [];
    }

    method Write(p: seq<T>) returns (n: nat)
      requires Valid()
      modifies this
      ensures Valid() && data == old(data) + p && n == |p|
    {
      hide Hashed;
      FinishIs(digest, data, sliceSize, finish, hash, md5s);
      var written := 0;
      while written < |p|
        invariant written <= |p| && Valid() && finish == |data| && data == old(data) + p[..written]
      {
        HashedRemainder(digest, data, sliceSize, hash, md5s);
        var sliceRemain := sliceSize - finish % sliceSize;
        var toWrite := |p| - written;
        if toWrite > sliceRemain {
          toWrite := sliceRemain;
        }
        var piece := p[written..written + toWrite];
        HashedGrows(digest, data, sliceSize, hash, md5s, piece);
        assert p[..written] + piece == p[..written + toWrite];
        hash := hash + piece;
        written := written + toWrite;
        finish := finish + toWrite;
        data := data + piece;
        if finish % sliceSize == 0 {
          md5s := md5s + [digest(hash)];
          hash := [];
        }
      }
      assert p[..written] == p;
      return |p|;
    }
  }

  // ----- the end of the stream -----

  lemma {:induction false} FullSlicesAreBlocks<T, D>(digest: seq<T> -> D, data: seq<T>, slice: nat, n: nat)
    requires slice > 0 && data != [] && n * slice <= |data|
    ensures n <= Count(|data|, slice)
    ensures FullDigests(digest, data, slice, n) == FirstDigests(digest, data, slice, n)
  {
    CountCovers(|data|, slice);
    if n > 0 {
      if n > Count(|data|, slice) {
        MulMonotone(Count(|data|, slice) + 1, n, slice);
      }
      MulMonotone(n - 1, n, slice);
      FullSlicesAreBlocks(digest, data, slice, n - 1);
      assert Block(data, slice, n - 1) == FullSlice(data, slice, n - 1) by {
        BlocksTile(|data|, slice, n - 1);
      }
      hide Block, FullSlice, Count;
    }
  }

  lemma CountCovers(size: nat, slice: nat)
    requires slice > 0 && size > 0
    ensures var n := Count(size, slice);
            n >= 1 && (n - 1) * slice < size <= n * slice && size - (n - 1) * slice == LastBlockSize(size, slice)
  {
    CeilDivCovers(size, slice);
    if size <= slice {
      DivUnique(size - 1, slice, 0, size - 1);
    }
  }

  /** How many slices a stream of n full ones and a tail has. */
  lemma CountWithTail(size: nat, slice: nat, n: nat, tail: nat)
    requires tail < slice && size == n * slice + tail && size > 0
    ensures Count(size, slice) == if tail == 0 then n else n + 1
    ensures size % slice == tail
  {
    hide Count, LastBlockSize;
    DivUnique(size, slice, n, tail);
    CountCovers(size, slice);
    assert (n + 1) * slice == n * slice + slice && (n - 1) * slice == n * slice - slice;
    SameCount(size, slice, Count(size, slice), if tail == 0 then n else n + 1);
  }

  /** Only one number of slices fits a size. */
  lemma SameCount(size: int, slice: nat, a: int, b: int)
    requires (a - 1) * slice < size <= a * slice && (b - 1) * slice < size <= b * slice
    ensures a == b
  {
    if a < b {
      MulMonotone(a, b - 1, slice);
    } else if b < a {
      MulMonotone(b, a - 1, slice);
    }
  }

  lemma TailBlock<T>(data: seq<T>, slice: nat, n: nat)
    requires slice > 0 && data != [] && n + 1 == Count(|data|, slice)
    ensures n * slice <= |data| && Block(data, slice, n) == data[n * slice..]
  {
    BlocksTile(|data|, slice, n);
  }

  /** After the last, partial slice is added, the recorded digests are those of the slices of the whole stream. */
  lemma StreamDigests<T, D>(digest: seq<T> -> D, data: seq<T>, slice: nat, hash: seq<T>, md5s: seq<D>)
    requires slice > 0 && Hashed(digest, data, slice, |data|, hash, md5s)
    ensures (if |data| % slice != 0 || |data| == 0 then md5s + [digest(hash)] else md5s)
            == SliceDigests(digest, data, slice)
  {
    var n := |md5s|;
    hide FullDigests, Count, Block;
    if data == [] {
      if n > 0 {
        MulAtLeast(n, slice);
      }
      assert md5s == [] && hash == [];
    } else {
      CountWithTail(|data|, slice, n, |hash|);
      FullSlicesAreBlocks(digest, data, slice, n);
      if hash != [] {
        TailBlock(data, slice, n);
      }
    }
  }

  function Concat<T>(writes: seq<seq<T>>, n: nat): seq<T>
    requires n <= |writes|
  {
    if n == 0 then [] else Concat(writes, n - 1) + writes[n - 1]
  }

  lemma {:induction false} NothingWritten<T>(writes: seq<seq<T>>, n: nat)
    requires n <= |writes|
    ensures (forall i | 0 <= i < n :: writes[i] == []) ==> Concat(writes, n) == []
  {
    if n > 0 {
      NothingWritten(writes, n - 1);
    }
  }

  /** There is one digest for each block of a non-empty file, that of the block. */
  lemma DigestAt<T, D>(digest: seq<T> -> D, content: seq<T>, slice: nat, k: nat)
    requires slice > 0 && content != [] && k < Count(|content|, slice)
    ensures |SliceDigests(digest, content, slice)| == Count(|content|, slice)
    ensures SliceDigests(digest, content, slice)[k] == digest(Block(content, slice, k))
  {
    hide Count, Block;
    FirstDigestAt(digest, content, slice, Count(|content|, slice), k);
  }

  lemma {:induction false} FirstDigestAt<T, D>(digest: seq<T> -> D, content: seq<T>, slice: nat, n: nat, k: nat)
    requires slice > 0 && content != [] && k < n <= Count(|content|, slice)
    ensures FirstDigests(digest, content, slice, n)[k] == digest(Block(content, slice, k))
  {
    hide Count, Block;
    if k < n - 1 {
      FirstDigestAt(digest, content, slice, n - 1, k);
    }
  }

  /** The hashing stage of newUpload, for any way the stream is cut into writes. */
  method HashStream<T, D>(digest: seq<T> -> D, slice: nat, writes: seq<seq<T>>) returns (md5s: seq<D>)
    requires slice > 0
    ensures md5s == SliceDigests(digest, Concat(writes, |writes|), slice)
    ensures (forall i | 0 <= i < |writes| :: writes[i] == []) ==> md5s == [digest([])]
  {
    var w := new SliceHashWriter(digest, slice);
    var i := 0;
    while i < |writes|
      invariant i <= |writes| && fresh(w) && w.Valid() && w.digest == digest && w.sliceSize == slice
      invariant w.data == Concat(writes, i)
    {
      var n := w.Write(writes[i]);
      i := i + 1;
    }
    StreamDigests(digest, w.data, slice, w.hash, w.md5s);
    NothingWritten(writes, |writes|);
    md5s := w.md5s;
    if w.finish % slice != 0 || w.finish == 0 {
      md5s := md5s + [digest(w.hash)];
    }
  }

  // ----- the reader with one buffer -----

  /** ComputeSliceMD5sFromReader: nothing at all for the empty file. */
  method ComputeSliceMD5sFromReader<T, D>(digest: seq<T> -> D, content: seq<T>, sliceSize: int) returns (md5s: seq<D>)
    ensures var slice := if sliceSize <= 0 then 10 * 1024 * 1024 else sliceSize;
            md5s == if content == [] then [] else SliceDigests(digest, content, slice)
  {
    var slice: nat := if sliceSize <= 0 then 10 * 1024 * 1024 else sliceSize;
    md5s := [];
    var pos := 0;
    if content != [] {
      CountCovers(|content|, slice);
    }
    while true
      invariant pos <= |content|
      invariant content == [] ==> md5s == [] && pos == 0
      invariant content != [] ==>
        && |md5s| <= Count(|content|, slice) && md5s == FirstDigests(digest, content, slice, |md5s|)
        && pos == if |md5s| == Count(|content|, slice) then |content| else Offset(slice, |md5s|)
      decreases |content| - pos
    {
      if content != [] && |md5s| < Count(|content|, slice) {
        BlocksTile(|content|, slice, |md5s|);
      }
      var n := if |content| - pos < slice then |content| - pos else slice;
      if n > 0 {
        md5s := md5s + [digest(content[pos..pos + n])];
        pos := pos + n;
      }
      if n < slice {
        break;
      }
    }
  }

  // ----- the copy loop -----

  /** The hashing stage of fastUpload. Each turn copies up to `byteSize` bytes of what is left. */
  method FastUploadDigests<T, D>(digest: seq<T> -> D, content: seq<T>, slice: nat) returns (md5s: seq<D>)
    requires slice > 0
    ensures md5s == SliceDigests(digest, content, slice)
  {
    var size := |content|;
    var count := if size > slice then (size + slice - 1) / slice else 1;
    var lastSliceSize := if size % slice == 0 then slice else size % slice;
    assert count == Count(size, slice) && lastSliceSize == LastBlockSize(size, slice);
    CountPositive(size, slice);
    hide Count, LastBlockSize, Size, Offset;
    var byteSize := slice;
    md5s := [];
    var rest := content;
    FirstBlockStart(slice);
    var i := 1;
    while i <= count
      invariant 1 <= i <= count + 1 && (i <= count ==> byteSize == slice)
      invariant content == [] ==> rest == [] && count == 1 && (if i == 1 then md5s == [] else md5s == [digest([])])
      invariant content != [] ==>
        && md5s == FirstDigests(digest, content, slice, i - 1)
        && (i <= count ==> Offset(slice, i - 1) <= size && rest == content[Offset(slice, i - 1)..])
    {
      if i == count {
        byteSize := lastSliceSize;
      }
      var n := if |rest| < byteSize then |rest| else byteSize;
      if content != [] {
        NextBlock(content, slice, i - 1);
      }
      md5s := md5s + [digest(rest[..n])];
      rest := rest[n..];
      i := i + 1;
    }
  }

  lemma CountPositive(size: nat, slice: nat)
    requires slice > 0
    ensures Count(size, slice) >= 1 && (size == 0 ==> Count(size, slice) == 1)
    ensures 0 < LastBlockSize(size, slice)
  {
    if size > 0 {
      CountCovers(size, slice);
    }
  }

  lemma FirstBlockStart(slice: nat)
    ensures Offset(slice, 0) == 0
  {
  }

  /** Copying one block from where it starts. */
  lemma NextBlock<T>(content: seq<T>, slice: nat, k: nat)
    requires slice > 0 && content != [] && k < Count(|content|, slice) && Offset(slice, k) <= |content|
    ensures var byteSize := if k + 1 == Count(|content|, slice) then LastBlockSize(|content|, slice) else slice;
            var rest := content[Offset(slice, k)..];
            && byteSize <= |rest| && rest[..byteSize] == Block(content, slice, k)
            && (k + 1 < Count(|content|, slice) ==>
                  Offset(slice, k + 1) <= |content| && rest[byteSize..] == content[Offset(slice, k + 1)..])
  {
    BlocksTile(|content|, slice, k);
    hide Count, LastBlockSize, Offset;
  }

  /** More than one slice is exactly the case in which the uploaders hash the joined slice digests; there is always
      at least one slice, even of the empty file. */
  lemma JoinRule<T, D>(digest: seq<T> -> D, content: seq<T>, slice: nat)
    requires slice > 0
    ensures |SliceDigests(digest, content, slice)| > 1 <==> |content| > slice
    ensures SliceDigests(digest, content, slice) != []
  {
    if content != [] {
      CountCovers(|content|, slice);
    }
  }
}
