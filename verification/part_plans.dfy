/** How the drivers cut a file into upload parts, and the limits their services set. */
module PartPlans {

  import opened Arithmetic

  const KB: int := 1024
  const MB: int := 1024 * 1024
  const GB: int := 1024 * 1024 * 1024
  const TB: int := 1024 * 1024 * 1024 * 1024

  /** A part as it is sent: its number, where it starts and how long it is. */
  datatype Part = Part(number: int, offset: int, size: int)

  /** Numbered from one, non-empty, and covering [0, size) without gap or overlap. */
  ghost predicate Tiles(parts: seq<Part>, size: int) {
    && (forall i | 0 <= i < |parts| :: parts[i].number == i + 1 && parts[i].size > 0)
    && (forall i | 0 <= i < |parts| :: StartsRight(parts, i))
    && size == if parts == [] then 0 else parts[|parts| - 1].offset + parts[|parts| - 1].size
  }

  /** A part starts where the one before it ends. */
  predicate StartsRight(parts: seq<Part>, i: nat)
    requires i < |parts|
  {
    parts[i].offset == if i == 0 then 0 else parts[i - 1].offset + parts[i - 1].size
  }

  /** In a tiling every byte lies in exactly one part. */
  lemma {:induction false} EarlierEndsFirst(parts: seq<Part>, size: int, i: nat, j: nat)
    requires Tiles(parts, size) && i < j < |parts|
    ensures parts[i].offset + parts[i].size <= parts[j].offset
  {
    if i < j - 1 {
      EarlierEndsFirst(parts, size, i, j - 1);
    }
    assert StartsRight(parts, j);
  }

  lemma {:induction false} ByteInPart(parts: seq<Part>, size: int, at: int, n: nat) returns (i: nat)
    requires Tiles(parts, size) && 0 < n <= |parts| && 0 <= at < parts[n - 1].offset + parts[n - 1].size
    ensures i < n && parts[i].offset <= at < parts[i].offset + parts[i].size
    ensures forall j: nat | j < |parts| && parts[j].offset <= at < parts[j].offset + parts[j].size :: j == i
  {
    var last := n - 1;
    assert StartsRight(parts, last);
    if at >= parts[last].offset {
      i := last;
      forall j: nat | j < |parts| && parts[j].offset <= at < parts[j].offset + parts[j].size ensures j == i {
        if j < i {
          EarlierEndsFirst(parts, size, j, i);
        } else if i < j {
          EarlierEndsFirst(parts, size, i, j);
        }
      }
    } else {
      i := ByteInPart(parts, size, at, last);
    }
  }

  /** Parts that start at the multiples of `c`. */
  lemma TilesOfMultiples(parts: seq<Part>, size: int, c: int)
    requires parts != [] && c > 0
    requires forall k | 0 <= k < |parts| :: parts[k].number == k + 1 && parts[k].offset == k * c
    requires forall k | 0 <= k < |parts| - 1 :: parts[k].size == c
    requires parts[|parts| - 1].size > 0 && size == (|parts| - 1) * c + parts[|parts| - 1].size
    ensures Tiles(parts, size)
  {
    forall k | 0 <= k < |parts|
      ensures StartsRight(parts, k)
    {
      assert (k - 1) * c + c == k * c;
    }
  }

  // ----- 115: SplitFile -----

  datatype SplitOutcome =
    | Chunks(chunks: seq<Part>)
    | SplitError
    | IndexPanic

  method SplitFileByPartNum(fileSize: int, chunkNum: int) returns (r: SplitOutcome)
    ensures r.SplitError? <==> chunkNum <= 0 || chunkNum > 10000 || chunkNum > fileSize
    ensures !r.SplitError? ==>
      && r.Chunks? && |r.chunks| == chunkNum && Tiles(r.chunks, fileSize)
      && forall i | 0 <= i < chunkNum - 1 :: r.chunks[i].size == fileSize / chunkNum
    ensures !r.SplitError? && chunkNum > 1 ==> r.chunks[0].size == fileSize / chunkNum
  {
    if chunkNum <= 0 || chunkNum > 10000 || chunkNum > fileSize {
      return SplitError;
    }
    var chunks: seq<Part> := [];
    var quotient := fileSize / chunkNum;
    DivPositive(fileSize, chunkNum);
    var i := 0;
    while i < chunkNum
      invariant 0 <= i <= chunkNum && |chunks| == i
      invariant forall k | 0 <= k < i :: chunks[k].number == k + 1 && chunks[k].offset == k * quotient
      invariant forall k | 0 <= k < i :: chunks[k].size == if k == chunkNum - 1 then quotient + fileSize % chunkNum else quotient
    {
      var size := quotient;
      if i == chunkNum - 1 {
        size := fileSize / chunkNum + fileSize % chunkNum;
      }
      chunks := chunks + [Part(i + 1, i * quotient, size)];
      i := i + 1;
    }
    assert (chunkNum - 1) * quotient + quotient == chunkNum * quotient;
    TilesOfMultiples(chunks, fileSize, quotient);
    return Chunks(chunks);
  }

  lemma DivPositive(a: int, b: int)
    requires 0 < b <= a
    ensures a / b >= 1 && a == b * (a / b) + a % b && 0 <= a % b < b
  {
    AtLeast(a, b, 1);
  }

  method SplitFileByPartSize(fileSize: int, chunkSize: int) returns (r: SplitOutcome)
    requires fileSize >= 0
    ensures r.SplitError? <==> chunkSize <= 0 || fileSize / chunkSize >= 10000
    ensures !r.SplitError? ==>
      && r.Chunks? && Tiles(r.chunks, fileSize)
      && |r.chunks| == CeilDiv(fileSize, chunkSize)
      && forall i | 0 <= i < |r.chunks| - 1 :: r.chunks[i].size == chunkSize
  {
    if chunkSize <= 0 {
      return SplitError;
    }
    var chunkN := fileSize / chunkSize;
    if chunkN >= 10000 {
      return SplitError;
    }
    QuotientNonNegative(fileSize, chunkSize);
    var chunks: seq<Part> := [];
    var i := 0;
    while i < chunkN
      invariant 0 <= i <= chunkN && |chunks| == i
      invariant forall k | 0 <= k < i :: chunks[k] == Part(k + 1, k * chunkSize, chunkSize)
    {
      chunks := chunks + [Part(i + 1, i * chunkSize, chunkSize)];
      i := i + 1;
    }
    assert (chunkN - 1) * chunkSize + chunkSize == chunkN * chunkSize;
    if fileSize % chunkSize > 0 {
      chunks := chunks + [Part(chunkN + 1, chunkN * chunkSize, fileSize % chunkSize)];
    }
    if chunks != [] {
      TilesOfMultiples(chunks, fileSize, chunkSize);
    }
    return Chunks(chunks);
  }

  lemma QuotientNonNegative(a: int, b: int)
    requires a >= 0 && b > 0
    ensures a / b >= 0 && a == a / b * b + a % b && 0 <= a % b < b
    ensures CeilDiv(a, b) == a / b + if a % b > 0 then 1 else 0
  {
    var q, r := a / b, a % b;
    if q < 0 {
      MulMonotone(q, -1, b);
    }
    if r == 0 {
      DivUnique(a + b - 1, b, q, b - 1);
    } else {
      assert (q + 1) * b == q * b + b;
      DivUnique(a + b - 1, b, q + 1, r - 1);
    }
  }

  /** A thousand parts for every begun gigabyte, at most ten thousand. */
  function Pieces(fileSize: int): (n: int)
    ensures fileSize >= 0 ==> n > 0
  {
    if fileSize > 9 * GB then 10000 else 1000 * (fileSize / GB + 1)
  }

  /** As many parts as that, or as few as parts of 100 KiB make if they would get smaller. */
  ghost predicate Planned(fileSize: int, chunks: seq<Part>) {
    fileSize >= 0 &&
    if fileSize / Pieces(fileSize) >= 100 * KB then |chunks| == Pieces(fileSize)
    else |chunks| == CeilDiv(fileSize, 100 * KB)
  }

  lemma PlannedBy(fileSize: int, i: int, chunks: seq<Part>, first: int)
    requires 1 <= i <= 10 && fileSize >= 0 && first == fileSize / (1000 * i)
    requires if i < 10 then (i - 1) * GB <= fileSize < i * GB else fileSize > 9 * GB
    requires |chunks| == if first >= 100 * KB then 1000 * i else CeilDiv(fileSize, 100 * KB)
    ensures Planned(fileSize, chunks)
  {
    assert Pieces(fileSize) == 1000 * i;
  }

  /** SplitFile, with the size it leaves without chunks. */
  method SplitFile(fileSize: int) returns (r: SplitOutcome)
    ensures r.IndexPanic? <==> fileSize == 9 * GB
    ensures r.SplitError? <==> fileSize < 1000
    ensures r.Chunks? ==>
      && Tiles(r.chunks, fileSize)
      && 0 < |r.chunks| <= 10000
      && forall i | 0 <= i < |r.chunks| - 1 :: r.chunks[i].size >= 100 * KB
    ensures r.Chunks? ==> Planned(fileSize, r.chunks)
  {
    hide Planned;
    hide Pieces;
    var chunks: seq<Part> := [];
    var i := 1;
    while i < 10
      invariant 1 <= i <= 10 && chunks == []
      invariant forall k | 1 <= k < i :: fileSize >= k * GB
    {
      if fileSize < i * GB {
        r := SplitFileByPartNum(fileSize, i * 1000);
        if r.SplitError? {
          assert i == 1 || fileSize >= 1 * GB;
          return;
        }
        assert i > 1 ==> fileSize >= (i - 1) * GB;
        chunks := r.chunks;
        FirstPartSize(fileSize, i);
        break;
      }
      i := i + 1;
    }
    if fileSize > 9 * GB {
      r := SplitFileByPartNum(fileSize, 10000);
      if r.SplitError? {
        return;
      }
      chunks := r.chunks;
      AtLeast(fileSize, 10000, 100 * KB);
    }
    if chunks == [] {
      return IndexPanic;
    }
    r := Chunks(chunks);
    ghost var first := chunks[0].size;
    if chunks[0].size < 100 * KB {
      SmallFile(fileSize);
      r := SplitFileByPartSize(fileSize, 100 * KB);
    }
    PlannedBy(fileSize, i, r.chunks, first);
  }

  lemma AtLeast(a: int, b: int, q: int)
    requires b > 0 && a >= q * b
    ensures a / b >= q
  {
    if a / b < q {
      MulMonotone(a / b, q - 1, b);
    }
  }

  /** From one gigabyte on, the parts are large enough. */
  lemma FirstPartSize(fileSize: int, i: int)
    requires 1 <= i < 10 && (i > 1 ==> fileSize >= (i - 1) * GB)
    ensures i > 1 ==> fileSize / (i * 1000) >= 100 * KB
  {
    if i > 1 {
      AtLeast(fileSize, i * 1000, 100 * KB);
    }
  }

  lemma SmallFile(fileSize: int)
    requires fileSize >= 0
    ensures fileSize / 1000 < 100 * KB ==> fileSize / (100 * KB) < 10000
  {
  }

  // ----- 115 open and Aliyun open -----

  const LARGEST_PART: int := 5 * GB

  /** calPartSize; both drivers have the same text. */
  function CalPartSize(fileSize: int): int {
    if fileSize <= 20 * MB then 20 * MB
    else if fileSize > 1 * TB then LARGEST_PART
    else if fileSize > 768 * GB then 109951163
    else if fileSize > 512 * GB then 82463373
    else if fileSize > 384 * GB then 54975582
    else if fileSize > 256 * GB then 41231687
    else if fileSize > 128 * GB then 27487791
    else 20 * MB
  }

  /** The service's limit of 10000 parts is kept exactly up to 10000 of the largest parts. */
  lemma CalPartSizeExactly(fileSize: nat)
    ensures CeilDiv(fileSize, CalPartSize(fileSize)) <= 10000 <==> fileSize <= 10000 * LARGEST_PART
  {
    CeilDivAtMost(fileSize, CalPartSize(fileSize), 10000);
  }

  /** Up to 128 GiB the parts have 20 MiB. Between two of the marks above, the last one at 1 TiB, they have the least size
      with which 10000 parts cover every file up to the upper mark. */
  lemma CalPartSizeIsLeast(fileSize: int, mark: nat)
    ensures fileSize <= 128 * GB ==> CalPartSize(fileSize) == 20 * MB
    ensures Bracket(fileSize, mark) ==>
              && CeilDiv(mark, CalPartSize(fileSize)) <= 10000
              && forall size: nat | size > 0 && CeilDiv(mark, size) <= 10000 :: CalPartSize(fileSize) <= size
  {
    if Bracket(fileSize, mark) {
      CeilDivAtMost(mark, CalPartSize(fileSize), 10000);
      forall size: nat | size > 0 && CeilDiv(mark, size) <= 10000 ensures CalPartSize(fileSize) <= size {
        CeilDivAtMost(mark, size, 10000);
      }
    }
  }

  /** `mark` is the first of these sizes that the file does not exceed. */
  predicate Bracket(fileSize: int, mark: nat) {
    || (128 * GB < fileSize <= 256 * GB == mark)
    || (256 * GB < fileSize <= 384 * GB == mark)
    || (384 * GB < fileSize <= 512 * GB == mark)
    || (512 * GB < fileSize <= 768 * GB == mark)
    || (768 * GB < fileSize <= 1 * TB == mark)
  }

  /** The part loop of multpartUpload. */
  method MultpartUpload(fileSize: nat) returns (parts: seq<Part>)
    ensures Tiles(parts, fileSize)
    ensures forall i | 0 <= i < |parts| :: parts[i].size <= CalPartSize(fileSize)
    ensures |parts| == CeilDiv(fileSize, CalPartSize(fileSize))
  {
    var chunkSize := CalPartSize(fileSize);
    var partNum := (fileSize + chunkSize - 1) / chunkSize;
    parts := [];
    var offset := 0;
    QuotientNonNegative(fileSize, chunkSize);
    if fileSize > 0 {
      CeilDivCovers(fileSize, chunkSize);
    }
    hide CalPartSize;
    var i := 1;
    while i <= partNum
      invariant 1 <= i <= partNum + 1 && |parts| == i - 1
      invariant offset == if i == partNum + 1 then fileSize else (i - 1) * chunkSize
      invariant forall k | 0 <= k < i - 1 :: parts[k].number == k + 1 && parts[k].offset == k * chunkSize
      invariant forall k | 0 <= k < i - 1 && k < partNum - 1 :: parts[k].size == chunkSize
      invariant i == partNum + 1 && partNum > 0 ==> parts[partNum - 1].size == fileSize - (partNum - 1) * chunkSize
    {
      var partSize := chunkSize;
      if i == partNum {
        partSize := fileSize - (i - 1) * chunkSize;
      }
      parts := parts + [Part(i, offset, partSize)];
      assert (i - 1) * chunkSize + chunkSize == i * chunkSize;
      if i == partNum {
        offset := fileSize;
      } else {
        offset := offset + partSize;
      }
      i := i + 1;
    }
    if parts != [] {
      TilesOfMultiples(parts, fileSize, chunkSize);
    }
  }

  // ----- AliDoc -----

  /** calcAliDocPartSize, its float division read exactly. */
  function CalcAliDocPartSize(fileSize: int, minPartSize: int): (part: int)
    ensures part > 0
  {
    var partSize := if minPartSize <= 0 then 100 * KB else minPartSize;
    if fileSize <= 0 then partSize
    else
      var minRequired := CeilDiv(fileSize, 10000);
      if minRequired > partSize then minRequired else partSize
  }

  /** It is the smallest size that respects both the service's minimum and its limit of 10000 parts. */
  lemma AliDocLeast(fileSize: nat, minPartSize: int, other: int)
    requires fileSize > 0 && other > 0
    ensures CeilDiv(fileSize, CalcAliDocPartSize(fileSize, minPartSize)) <= 10000
    ensures other >= (if minPartSize <= 0 then 100 * KB else minPartSize) && CeilDiv(fileSize, other) <= 10000
            ==> CalcAliDocPartSize(fileSize, minPartSize) <= other
  {
    var part := CalcAliDocPartSize(fileSize, minPartSize);
    CeilDivAtMost(fileSize, part, 10000);
    CeilDivCovers(fileSize, 10000);
    CeilDivAtMost(fileSize, other, 10000);
    CeilDivAtMost(fileSize, 10000, other);
  }

  // ----- 189 PC -----

  const TEN_MIB: int := 10 * MB

  /** partSize, its float division read exactly. */
  function PartSize189(size: int): int {
    if size > TEN_MIB * 2 * 999 then
      var factor := CeilDiv(size, 1999 * TEN_MIB);
      (if factor > 5 then factor else 5) * TEN_MIB
    else if size > TEN_MIB * 999 then TEN_MIB * 2
    else TEN_MIB
  }

  /** At most 999 parts of 10 or 20 MiB, at most 1999 larger ones, for every size. */
  lemma PartSize189Limits(size: nat)
    ensures var part := PartSize189(size);
            && part > 0 && part % TEN_MIB == 0
            && (size <= TEN_MIB * 2 * 999 ==> CeilDiv(size, part) <= 999)
            && (size > TEN_MIB * 2 * 999 ==> part >= 5 * TEN_MIB && CeilDiv(size, part) <= 1999)
  {
    var part := PartSize189(size);
    if size <= TEN_MIB * 2 * 999 {
      CeilDivAtMost(size, part, 999);
    } else {
      CeilDivCovers(size, 1999 * TEN_MIB);
      var factor := CeilDiv(size, 1999 * TEN_MIB);
      CeilDivAtMost(size, part, 1999);
    }
  }

  /** And no smaller multiple of 10 MiB keeps those limits. */
  lemma PartSize189Least(size: nat, m: nat)
    requires m > 0
    ensures size <= TEN_MIB * 2 * 999 && CeilDiv(size, m * TEN_MIB) <= 999 ==> PartSize189(size) <= m * TEN_MIB
    ensures size > TEN_MIB * 2 * 999 && m >= 5 && CeilDiv(size, m * TEN_MIB) <= 1999 ==> PartSize189(size) <= m * TEN_MIB
  {
    hide CeilDiv;
    CeilDivAtMost(size, m * TEN_MIB, 999);
    CeilDivAtMost(size, m * TEN_MIB, 1999);
    CeilDivAtMost(size, 1999 * TEN_MIB, m);
  }

  // ----- Baidu -----

  const DEFAULT_SLICE: int := 4 * MB
  const VIP_SLICE: int := 16 * MB
  const SVIP_SLICE: int := 32 * MB
  const MAX_SLICES: int := 2048

  /** The largest slice an account may use; unknown levels get the default. */
  function MaxSlice(vipType: int): int {
    if vipType == 1 then VIP_SLICE else if vipType == 2 then SVIP_SLICE else DEFAULT_SLICE
  }

  /** `size` is one of the steps and fits the file into the allowed number of slices. */
  predicate Fits(size: int, fileSize: int) {
    size >= DEFAULT_SLICE && size % MB == 0 && fileSize <= MAX_SLICES * size
  }

  method GetSliceSize(vipType: int, custom: int, lowBandwidth: bool, fileSize: int) returns (size: int)
    ensures vipType == 0 ==> size == DEFAULT_SLICE
    ensures vipType != 0 && custom != 0 ==>
      size == (if custom < DEFAULT_SLICE then DEFAULT_SLICE
               else if (vipType == 1 || vipType == 2) && custom > MaxSlice(vipType) then MaxSlice(vipType)
               else custom)
    ensures vipType != 0 && custom == 0 && !lowBandwidth ==> size == MaxSlice(vipType)
    ensures vipType != 0 && custom == 0 && lowBandwidth ==>
      if fileSize <= MAX_SLICES * MaxSlice(vipType)
      then Fits(size, fileSize) && size <= MaxSlice(vipType) && forall other | Fits(other, fileSize) :: size <= other
      else size == MaxSlice(vipType)
  {
    if vipType == 0 {
      return DEFAULT_SLICE;
    }
    if custom != 0 {
      if custom < DEFAULT_SLICE {
        return DEFAULT_SLICE;
      }
      if vipType == 1 && custom > VIP_SLICE {
        return VIP_SLICE;
      }
      if vipType == 2 && custom > SVIP_SLICE {
        return SVIP_SLICE;
      }
      return custom;
    }
    var maxSliceSize := MaxSlice(vipType);
    if lowBandwidth {
      size := DEFAULT_SLICE;
      while size <= maxSliceSize
        invariant DEFAULT_SLICE <= size <= maxSliceSize + MB && size % MB == 0
        invariant forall other | Fits(other, fileSize) :: size <= other
      {
        if fileSize <= MAX_SLICES * size {
          assert Fits(size, fileSize);
          return;
        }
        size := size + MB;
      }
    }
    return maxSliceSize;
  }
}
