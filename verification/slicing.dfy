/** Cutting a file into slices of equal size with a shorter last one, as several uploaders do. */
module Slicing {

  import opened Arithmetic
  import opened Wrappers

  /** How many blocks the uploaders compute for a file of `size` bytes. */
  function Count(size: nat, slice: nat): nat
    requires slice > 0
  {
    if size > slice then CeilDiv(size, slice) else 1
  }

  function LastBlockSize(size: nat, slice: nat): nat
    requires slice > 0
  {
    if size % slice == 0 then slice else size % slice
  }

  /** Where and how much an uploader reads for block `seqno`. */
  function Offset(slice: nat, seqno: nat): nat {
    seqno * slice
  }

  function Size(size: nat, slice: nat, seqno: nat): nat
    requires slice > 0
  {
    if seqno + 1 == Count(size, slice) then LastBlockSize(size, slice) else slice
  }

  /** Each block ends where the next one starts, and the last one ends the file. */
  lemma BlocksTile(size: nat, slice: nat, seqno: nat)
    requires slice > 0 && size > 0 && seqno < Count(size, slice)
    ensures 0 < Size(size, slice, seqno) <= slice
    ensures var end := Offset(slice, seqno) + Size(size, slice, seqno);
            end <= size && end == if seqno + 1 == Count(size, slice) then size else Offset(slice, seqno + 1)
  {
    var n := Count(size, slice);
    CeilDivCovers(size, slice);
    if size <= slice {
      DivUnique(size - 1, slice, 0, size - 1);
    }
    assert n == CeilDiv(size, slice);
    if seqno + 1 < n {
      MulMonotone(seqno + 1, n - 1, slice);
    }
  }

  function Block<T>(content: seq<T>, slice: nat, seqno: nat): (r: seq<T>)
    requires slice > 0 && content != [] && seqno < Count(|content|, slice)
    ensures |r| == Size(|content|, slice, seqno)
  {
    BlocksTile(|content|, slice, seqno);
    content[Offset(slice, seqno)..Offset(slice, seqno) + Size(|content|, slice, seqno)]
  }

  function Assemble<T>(content: seq<T>, slice: nat, n: nat): seq<T>
    requires slice > 0 && content != [] && n <= Count(|content|, slice)
  {
    if n == 0 then [] else Assemble(content, slice, n - 1) + Block(content, slice, n - 1)
  }

  /** The blocks put back together in order are the file. */
  lemma {:induction false} AssembledPrefix<T>(content: seq<T>, slice: nat, n: nat)
    requires slice > 0 && content != [] && n <= Count(|content|, slice)
    ensures n < Count(|content|, slice) ==> Offset(slice, n) <= |content|
    ensures Assemble(content, slice, n) == content[..if n == Count(|content|, slice) then |content| else Offset(slice, n)]
  {
    if n > 0 {
      AssembledPrefix(content, slice, n - 1);
      BlocksTile(|content|, slice, n - 1);
      hide Count, Size, Offset;
    }
    if n < Count(|content|, slice) {
      BlocksTile(|content|, slice, n);
    }
  }

  /** What a task reads for block `seqno`; a request that announces more than the file holds there fails. */
  function Read<T>(content: seq<T>, slice: nat, seqno: nat): Option<seq<T>>
    requires slice > 0
  {
    var start, size := Offset(slice, seqno), Size(|content|, slice, seqno);
    if start + size <= |content| then Some(content[start..start + size]) else None
  }

  lemma FirstSize(size: nat, slice: nat)
    requires slice > 0 && size > 0
    ensures Size(size, slice, 0) == if size <= slice then size else slice
  {
    CeilDivCovers(size, slice);
    if size < slice {
      DivUnique(size, slice, 0, size);
    } else if size == slice {
      DivUnique(size, slice, 1, 0);
    }
  }

  /** A block cut with one slice size lies in the same place with another exactly when the sizes agree, or when
      it is the whole file for both. */
  lemma PlaceExactly(size: nat, slice: nat, slice': nat, seqno: nat)
    requires slice > 0 && slice' > 0 && size > 0
    ensures Offset(slice, seqno) == Offset(slice', seqno) && Size(size, slice, seqno) == Size(size, slice', seqno)
            <==> slice == slice' || (seqno == 0 && size <= slice && size <= slice')
  {
    hide Count, Size;
    FirstSize(size, slice);
    FirstSize(size, slice');
    if seqno > 0 && slice != slice' {
      MulInjective(seqno, slice, slice');
    }
  }

  lemma ReadBlock<T>(content: seq<T>, slice: nat, seqno: nat)
    requires slice > 0 && content != []
    ensures Read(content, slice, seqno) ==
            if seqno < Count(|content|, slice) then Some(Block(content, slice, seqno)) else None
  {
    if seqno < Count(|content|, slice) {
      BlocksTile(|content|, slice, seqno);
    } else {
      CeilDivCovers(|content|, slice);
      MulMonotone(Count(|content|, slice), seqno, slice);
    }
  }

  /** Blocks counted with one slice size and read with another: the bytes are the right ones for every block of the
      file exactly when the sizes agree or the file is a single block for both. */
  lemma ResumedBytes<T>(content: seq<T>, slice: nat, slice': nat)
    requires slice > 0 && slice' > 0 && content != []
    ensures (forall b: nat | b < Count(|content|, slice) :: Read(content, slice', b) == Some(Block(content, slice, b)))
            <==> slice == slice' || (|content| <= slice && |content| <= slice')
  {
    hide Size, Read, Block;
    ReadBlock(content, slice, 0);
    ReadBlock(content, slice', 0);
    FirstBlock(content, slice);
    FirstBlock(content, slice');
    if slice == slice' {
      forall b: nat | b < Count(|content|, slice) ensures Read(content, slice', b) == Some(Block(content, slice, b)) {
        ReadBlock(content, slice, b);
      }
    }
  }

  lemma FirstBlock<T>(content: seq<T>, slice: nat)
    requires slice > 0 && content != []
    ensures 0 < Count(|content|, slice) && (|content| <= slice ==> Count(|content|, slice) == 1)
    ensures Block(content, slice, 0) == content[..if |content| <= slice then |content| else slice]
  {
    FirstSize(|content|, slice);
    CeilDivCovers(|content|, slice);
  }
}
