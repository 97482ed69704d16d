/** Where each weight is in the traversal: its place as a number, from its coordinates and the blocking. */
module ReorderPlaces {
  import opened Bits
  import opened ReorderSpec
  import opened Rounding
  import opened ReorderCovers
  import opened ReorderLength

  // ---- sizes

  /** Part-kernel elements are padded to even numbers for 16 bits and multiples of 4 for 8 bits, depthwise ones to 4. */
  lemma ElementsInNumbers(p: Shape, width: nat, height: nat, n: nat)
    requires n == width * height
    ensures var elements := p.SubkernelElements(width, height);
            if p.isPartkernel && p.ifmBitdepth == 16 then elements == (n + 1) / 2 * 2
            else if (p.isPartkernel && p.ifmBitdepth == 8) || (!p.isPartkernel && p.isDepthwise)
            then elements == (n + 3) / 4 * 4
            else elements == n
  {
    PaddedElements(n);
  }

  lemma PaddedElements(n: nat)
    ensures RoundUp(n, 2) == (n + 1) / 2 * 2 && (n % 2 == 0 ==> RoundUp(n, 2) == n)
    ensures RoundUp(n, 4) == (n + 3) / 4 * 4 && (n % 4 == 0 ==> RoundUp(n, 4) == n)
  {
  }

  /** The depth of all blocks together, and the elements of all subkernels. */
  lemma LengthsInNumbers(p: Shape, block: nat)
    requires p.Valid() && block == if p.isPartkernel || p.ifmBitdepth == 16 then 16 else 32
    ensures IfmLength(p)
            == if p.isDepthwise then 1
               else p.ifmDepth / block * RoundUp(block, p.ifmUblockDepth)
                    + if p.ifmDepth % block == 0 then 0
                      else RoundUp(if p.isPartkernel then p.ifmDepth % block else block, p.ifmUblockDepth)
    ensures forall height: nat :: RowLength(p, height)
              == p.kernelWidth / p.decompW * p.SubkernelElements(p.decompW, height)
                 + if p.kernelWidth % p.decompW == 0 then 0
                   else p.SubkernelElements(p.kernelWidth % p.decompW, height)
    ensures KernelLength(p)
            == p.kernelHeight / p.decompH * RowLength(p, p.decompH)
               + if p.kernelHeight % p.decompH == 0 then 0 else RowLength(p, p.kernelHeight % p.decompH)
    ensures OfmLength(p)
            == p.ofmDepth / p.ofmBlockDepth * RoundUp(p.ofmBlockDepth, p.ofmUblockDepth)
               + if p.ofmDepth % p.ofmBlockDepth == 0 then 0
                 else RoundUp(p.ofmDepth % p.ofmBlockDepth, p.ofmUblockDepth)
    ensures PaddedLength(p) == OfmLength(p) * (IfmLength(p) * KernelLength(p))
  {
  }

  // ---- loops

  /** The r-th slot of the k-th turn, when the turns before it have m slots each. */
  lemma {:induction false} TurnAt(n: nat, f: nat -> seq<Slot>, k: nat, m: nat, r: nat, s: Slot)
    requires k < n && r < |f(k)| && f(k)[r] == s
    requires forall j: nat :: j < k ==> |f(j)| == m
    ensures 0 <= Product(k, m) + r < |Times(n, f)| && Times(n, f)[Product(k, m) + r] == s
  {
    if k == n - 1 {
      EqualTurns(k, f, m);
    } else {
      TurnAt(n - 1, f, k, m, r, s);
    }
  }

  // ---- inside a subkernel

  /** Element iz of input ublock and oz of output ublock. */
  lemma ElementPlace(p: Shape, at: Place, oz: nat, iz: nat)
    requires at.Valid(p) && oz < p.ofmUblockDepth && iz < IfmWidth(p)
    ensures var r := Product(oz, IfmWidth(p)) + iz;
            0 <= r < |OfmElements(p, at)| && OfmElements(p, at)[r] == SlotOf(p, at.(ofmUblockZ := oz), iz)
  {
    var here := at.(ofmUblockZ := oz);
    TurnAt(IfmWidth(p), IfmElement(p, here), iz, 1, 0, SlotOf(p, here, iz));
    forall j: nat | j < oz ensures |OfmElement(p, at)(j)| == IfmWidth(p) {
      forall i: nat | i < IfmWidth(p) ensures |IfmElement(p, at.(ofmUblockZ := j))(i)| == 1 {
      }
      EqualTurns(IfmWidth(p), IfmElement(p, at.(ofmUblockZ := j)), 1);
    }
    TurnAt(p.ofmUblockDepth, OfmElement(p, at), oz, IfmWidth(p), iz, SlotOf(p, here, iz));
  }

  /** The slots of an output ublock with the input ublocks of one turn. */
  function UblockSize(p: Shape): nat {
    Product(p.ofmUblockDepth, IfmWidth(p))
  }

  lemma InnerPlace(p: Shape, at: Place, ii: nat, r: nat, s: Slot)
    requires at.Valid(p) && ii < InnerTurns(p, at)
    requires r < |OfmElements(p, at.(ifmUblkInner := ii * p.ifmUblockDepth))|
             && OfmElements(p, at.(ifmUblkInner := ii * p.ifmUblockDepth))[r] == s
    ensures var r' := Product(ii, UblockSize(p)) + r; 0 <= r' < |IfmUblocks(p, at)| && IfmUblocks(p, at)[r'] == s
  {
    forall j: nat | j < ii ensures |IfmUblock(p, at)(j)| == UblockSize(p) {
      OfmElementsLength(p, at.(ifmUblkInner := j * p.ifmUblockDepth));
    }
    TurnAt(InnerTurns(p, at), IfmUblock(p, at), ii, UblockSize(p), r, s);
  }

  lemma KernelPlace(p: Shape, at: Place, e: nat, r: nat, s: Slot)
    requires at.Valid(p) && e < p.SubkernelElements(at.SubWidth(p), at.SubHeight(p))
    requires r < |IfmUblocks(p, at.(element := e))| && IfmUblocks(p, at.(element := e))[r] == s
    ensures var r' := Product(e, Product(InnerTurns(p, at), UblockSize(p))) + r;
            0 <= r' < |KernelElements(p, at)| && KernelElements(p, at)[r'] == s
  {
    var m := Product(InnerTurns(p, at), UblockSize(p));
    forall j: nat | j < e ensures |KernelElement(p, at)(j)| == m {
      IfmUblocksLength(p, at.(element := j));
      assert InnerTurns(p, at.(element := j)) == InnerTurns(p, at);
    }
    TurnAt(p.SubkernelElements(at.SubWidth(p), at.SubHeight(p)), KernelElement(p, at), e, m, r, s);
  }

  lemma OfmUblockPlace(p: Shape, at: Place, k: nat, m: nat, r: nat, s: Slot)
    requires at.Valid(p) && k < CeilDiv(at.OfmClip(p), p.ofmUblockDepth)
    requires m == Product(p.SubkernelElements(at.SubWidth(p), at.SubHeight(p)),
                          Product(InnerTurns(p, at), UblockSize(p)))
    requires r < |KernelElements(p, at.(ofmUblk := k * p.ofmUblockDepth))|
             && KernelElements(p, at.(ofmUblk := k * p.ofmUblockDepth))[r] == s
    ensures 0 <= Product(k, m) + r < |OfmUblocks(p, at)| && OfmUblocks(p, at)[Product(k, m) + r] == s
  {
    forall j: nat | j < k ensures |OfmUblock(p, at)(j)| == m {
      var there := at.(ofmUblk := j * p.ofmUblockDepth);
      assert InnerTurns(p, there) == InnerTurns(p, at);
      KernelElementsLength(p, there, Product(InnerTurns(p, at), UblockSize(p)));
    }
    TurnAt(CeilDiv(at.OfmClip(p), p.ofmUblockDepth), OfmUblock(p, at), k, m, r, s);
  }

  lemma OuterPlace(p: Shape, at: Place, k: nat, m: nat, r: nat, s: Slot)
    requires at.Valid(p) && k < OuterTurns(p, at)
    requires m == Product(CeilDiv(at.OfmClip(p), p.ofmUblockDepth),
                          Product(p.SubkernelElements(at.SubWidth(p), at.SubHeight(p)),
                                  Product(InnerTurns(p, at), UblockSize(p))))
    requires r < |OfmUblocks(p, at.(ifmUblkOuter := k * p.ifmUblockDepth))|
             && OfmUblocks(p, at.(ifmUblkOuter := k * p.ifmUblockDepth))[r] == s
    ensures 0 <= Product(k, m) + r < |IfmOuters(p, at)| && IfmOuters(p, at)[Product(k, m) + r] == s
  {
    var inner := Product(p.SubkernelElements(at.SubWidth(p), at.SubHeight(p)),
                         Product(InnerTurns(p, at), UblockSize(p)));
    forall j: nat | j < k ensures |IfmOuter(p, at)(j)| == m {
      var there := at.(ifmUblkOuter := j * p.ifmUblockDepth);
      assert InnerTurns(p, there) == InnerTurns(p, at);
      OfmUblocksLength(p, there, inner);
    }
    TurnAt(OuterTurns(p, at), IfmOuter(p, at), k, m, r, s);
  }

  // ---- subkernels and blocks

  lemma SubkernelPlace(p: Shape, at: Place, k: nat, x: nat, m: nat, r: nat, s: Slot)
    requires p.Valid() && at.ofmBlockZ < p.ofmDepth && at.ifmBlockZ < p.IfmExtent() && at.subkernelY < p.kernelHeight
    requires x == k * p.decompW && x < p.kernelWidth
    requires m == Product(p.SubkernelElements(p.decompW, at.SubHeight(p)),
                          Product(OfmCover(p, at.ofmBlockZ), IfmCover(p, at.ifmBlockZ)))
    requires r < |IfmOuters(p, at.(subkernelX := x))| && IfmOuters(p, at.(subkernelX := x))[r] == s
    ensures 0 <= Product(k, m) + r < |SubkernelRow(p, at)| && SubkernelRow(p, at)[Product(k, m) + r] == s
  {
    BlockStarts(p.kernelWidth, p.decompW, k);
    forall j: nat | j < k ensures |SubkernelAt(p, at)(j)| == m {
      SubkernelBefore(p, at, j, k, m);
    }
    TurnAt(CeilDiv(p.kernelWidth, p.decompW), SubkernelAt(p, at), k, m, r, s);
  }

  lemma SubkernelBefore(p: Shape, at: Place, j: nat, k: nat, m: nat)
    requires p.Valid() && at.ofmBlockZ < p.ofmDepth && at.ifmBlockZ < p.IfmExtent() && at.subkernelY < p.kernelHeight
    requires j < k && k * p.decompW < p.kernelWidth
    requires m == Product(p.SubkernelElements(p.decompW, at.SubHeight(p)),
                          Product(OfmCover(p, at.ofmBlockZ), IfmCover(p, at.ifmBlockZ)))
    ensures |SubkernelAt(p, at)(j)| == m
  {
    BlockBefore(j, k, p.decompW, p.kernelWidth);
    SubkernelLength(p, at, j, j * p.decompW, p.decompW,
                    Product(OfmCover(p, at.ofmBlockZ), IfmCover(p, at.ifmBlockZ)));
  }

  /** A block before another one is full. */
  lemma BlockBefore(j: nat, k: nat, block: nat, total: nat)
    requires j < k && k * block < total
    ensures j * block + block <= total && Min(total - j * block, block) == block
  {
    ProductOrder(j, k, block);
  }

  lemma RowPlace(p: Shape, at: Place, k: nat, y: nat, m: nat, r: nat, s: Slot)
    requires p.Valid() && at.ofmBlockZ < p.ofmDepth && at.ifmBlockZ < p.IfmExtent() && p.kernelWidth > 0
    requires y == k * p.decompH && y < p.kernelHeight
    requires m == Product(RowLength(p, p.decompH), Product(OfmCover(p, at.ofmBlockZ), IfmCover(p, at.ifmBlockZ)))
    requires r < |SubkernelRow(p, at.(subkernelY := y))| && SubkernelRow(p, at.(subkernelY := y))[r] == s
    ensures 0 <= Product(k, m) + r < |Kernel(p, at)| && Kernel(p, at)[Product(k, m) + r] == s
  {
    BlockStarts(p.kernelHeight, p.decompH, k);
    forall j: nat | j < k ensures |RowAt(p, at)(j)| == m {
      RowBefore(p, at, j, k, m);
    }
    TurnAt(CeilDiv(p.kernelHeight, p.decompH), RowAt(p, at), k, m, r, s);
  }

  lemma RowBefore(p: Shape, at: Place, j: nat, k: nat, m: nat)
    requires p.Valid() && at.ofmBlockZ < p.ofmDepth && at.ifmBlockZ < p.IfmExtent() && p.kernelWidth > 0
    requires j < k && k * p.decompH < p.kernelHeight
    requires m == Product(RowLength(p, p.decompH), Product(OfmCover(p, at.ofmBlockZ), IfmCover(p, at.ifmBlockZ)))
    ensures |RowAt(p, at)(j)| == m
  {
    BlockBefore(j, k, p.decompH, p.kernelHeight);
    RowAtLength(p, at, j, j * p.decompH, p.decompH, Product(OfmCover(p, at.ofmBlockZ), IfmCover(p, at.ifmBlockZ)));
  }

  lemma IfmBlockPlace(p: Shape, at: Place, k: nat, z: nat, m: nat, r: nat, s: Slot)
    requires p.Valid() && at.ofmBlockZ < p.ofmDepth && p.kernelWidth > 0 && p.kernelHeight > 0
    requires z == k * p.IfmBlockDepth() && z < p.IfmExtent() && (p.isDepthwise ==> k == 0)
    requires m == Product(RoundUp(p.IfmBlockDepth(), p.ifmUblockDepth),
                          Product(OfmCover(p, at.ofmBlockZ), KernelLength(p)))
    requires r < |Kernel(p, at.(ifmBlockZ := z))| && Kernel(p, at.(ifmBlockZ := z))[r] == s
    ensures 0 <= Product(k, m) + r < |IfmBlocks(p, at)| && IfmBlocks(p, at)[Product(k, m) + r] == s
  {
    BlockStarts(p.IfmExtent(), p.IfmBlockDepth(), k);
    forall j: nat | j < k ensures |IfmBlockAt(p, at)(j)| == m {
      BlockBefore(j, k, p.IfmBlockDepth(), p.ifmDepth);
      IfmBlockLength(p, at, j, j * p.IfmBlockDepth(), RoundUp(p.IfmBlockDepth(), p.ifmUblockDepth),
                     Product(OfmCover(p, at.ofmBlockZ), KernelLength(p)));
    }
    TurnAt(CeilDiv(p.IfmExtent(), p.IfmBlockDepth()), IfmBlockAt(p, at), k, m, r, s);
  }

  lemma OfmBlockPlace(p: Shape, k: nat, z: nat, m: nat, r: nat, s: Slot)
    requires p.Valid() && p.kernelWidth > 0 && p.kernelHeight > 0 && p.ifmDepth > 0
    requires z == k * p.ofmBlockDepth && z < p.ofmDepth
    requires m == Product(RoundUp(p.ofmBlockDepth, p.ofmUblockDepth), Product(IfmLength(p), KernelLength(p)))
    requires r < |IfmBlocks(p, START.(ofmBlockZ := z))| && IfmBlocks(p, START.(ofmBlockZ := z))[r] == s
    ensures 0 <= Product(k, m) + r < |Traversal(p)| && Traversal(p)[Product(k, m) + r] == s
  {
    BlockStarts(p.ofmDepth, p.ofmBlockDepth, k);
    forall j: nat | j < k ensures |OfmBlockAt(p)(j)| == m {
      OfmBlockBefore(p, j, k, m);
    }
    TurnAt(CeilDiv(p.ofmDepth, p.ofmBlockDepth), OfmBlockAt(p), k, m, r, s);
  }

  lemma OfmBlockBefore(p: Shape, j: nat, k: nat, m: nat)
    requires p.Valid() && p.kernelWidth > 0 && p.kernelHeight > 0 && p.ifmDepth > 0
    requires j < k && k * p.ofmBlockDepth < p.ofmDepth
    requires m == Product(RoundUp(p.ofmBlockDepth, p.ofmUblockDepth), Product(IfmLength(p), KernelLength(p)))
    ensures |OfmBlockAt(p)(j)| == m
  {
    BlockBefore(j, k, p.ofmBlockDepth, p.ofmDepth);
    OfmBlockLength(p, j, j * p.ofmBlockDepth, p.ofmBlockDepth, Product(IfmLength(p), KernelLength(p)));
  }

  // ---- the place of a weight

  /** The turns that lead to a weight, from the outermost loop in. */
  datatype Turns = Turns(ofmBlock: nat, ifmBlock: nat, row: nat, subkernel: nat, outer: nat, ofmUblock: nat,
                         element: nat, inner: nat, oz: nat, iz: nat)

  /** The loop variables in those turns. */
  function PlaceIn(p: Shape, t: Turns): Place {
    Place(t.ofmBlock * p.ofmBlockDepth, t.ifmBlock * p.IfmBlockDepth(), t.row * p.decompH, t.subkernel * p.decompW,
          t.outer * p.ifmUblockDepth, t.ofmUblock * p.ofmUblockDepth, t.element, t.inner * p.ifmUblockDepth, t.oz)
  }

  /** Every loop has that turn. */
  predicate HasTurns(p: Shape, t: Turns) {
    var at := PlaceIn(p, t);
    && at.Valid(p) && (p.isDepthwise ==> t.ifmBlock == 0)
    && t.outer < OuterTurns(p, at) && t.ofmUblock < CeilDiv(at.OfmClip(p), p.ofmUblockDepth)
    && t.element < p.SubkernelElements(at.SubWidth(p), at.SubHeight(p)) && t.inner < InnerTurns(p, at)
    && t.oz < p.ofmUblockDepth && t.iz < IfmWidth(p)
  }

  /** The place in a subkernel, which the outer loops alone determine. */
  function SubkernelOf(p: Shape, t: Turns): Place {
    START.(ofmBlockZ := t.ofmBlock * p.ofmBlockDepth, ifmBlockZ := t.ifmBlock * p.IfmBlockDepth(),
           subkernelY := t.row * p.decompH, subkernelX := t.subkernel * p.decompW)
  }

  lemma PlaceInElement(p: Shape, t: Turns, at: Place, inner: nat) returns (r: nat)
    requires at.Valid(p) && inner == InnerTurns(p, at) && t.inner < inner && t.oz < p.ofmUblockDepth
             && t.iz < IfmWidth(p) && t.element < p.SubkernelElements(at.SubWidth(p), at.SubHeight(p))
    ensures r < |KernelElements(p, at)|
    ensures KernelElements(p, at)[r]
            == SlotOf(p, at.(element := t.element, ifmUblkInner := t.inner * p.ifmUblockDepth, ofmUblockZ := t.oz),
                      t.iz)
    ensures r == Product(t.element, Product(inner, UblockSize(p)))
                 + (Product(t.inner, UblockSize(p)) + (Product(t.oz, IfmWidth(p)) + t.iz))
  {
    var at3 := at.(element := t.element);
    var at4 := at3.(ifmUblkInner := t.inner * p.ifmUblockDepth);
    var s := SlotOf(p, at4.(ofmUblockZ := t.oz), t.iz);
    ElementPlace(p, at4, t.oz, t.iz);
    var r4: nat := Product(t.oz, IfmWidth(p)) + t.iz;
    InnerPlace(p, at3, t.inner, r4, s);
    var r3: nat := Product(t.inner, UblockSize(p)) + r4;
    KernelPlace(p, at, t.element, r3, s);
    r := Product(t.element, Product(inner, UblockSize(p))) + r3;
  }

  lemma PlaceInSubkernel(p: Shape, t: Turns, elements: nat, ofmUblocks: nat, inner: nat) returns (r: nat)
    requires HasTurns(p, t)
    requires var at := SubkernelOf(p, t);
             && elements == p.SubkernelElements(at.SubWidth(p), at.SubHeight(p))
             && ofmUblocks == CeilDiv(at.OfmClip(p), p.ofmUblockDepth) && inner == InnerTurns(p, at)
    ensures var at := SubkernelOf(p, t);
            r < |IfmOuters(p, at)| && IfmOuters(p, at)[r] == SlotOf(p, PlaceIn(p, t), t.iz)
    ensures r == Product(t.outer, Product(ofmUblocks, Product(elements, Product(inner, UblockSize(p)))))
                 + (Product(t.ofmUblock, Product(elements, Product(inner, UblockSize(p))))
                    + (Product(t.element, Product(inner, UblockSize(p)))
                       + (Product(t.inner, UblockSize(p)) + (Product(t.oz, IfmWidth(p)) + t.iz))))
  {
    var at0, s := SubkernelOf(p, t), SlotOf(p, PlaceIn(p, t), t.iz);
    var at1 := at0.(ifmUblkOuter := t.outer * p.ifmUblockDepth);
    var at2 := at1.(ofmUblk := t.ofmUblock * p.ofmUblockDepth);
    var m3 := Product(elements, Product(inner, UblockSize(p)));
    var r2 := PlaceInElement(p, t, at2, inner);
    OfmUblockPlace(p, at1, t.ofmUblock, m3, r2, s);
    var r1: nat := Product(t.ofmUblock, m3) + r2;
    OuterPlace(p, at0, t.outer, Product(ofmUblocks, m3), r1, s);
    r := Product(t.outer, Product(ofmUblocks, m3)) + r1;
  }

  /** The place of a subkernel's slot among those of its block. */
  lemma PlaceInKernel(p: Shape, at: Place, k: nat, y: nat, j: nat, x: nat, m: nat, full: nat, inside: nat, s: Slot)
    returns (r: nat)
    requires p.Valid() && at.ofmBlockZ < p.ofmDepth && at.ifmBlockZ < p.IfmExtent() && p.kernelWidth > 0
    requires y == k * p.decompH && y < p.kernelHeight && x == j * p.decompW && x < p.kernelWidth
    requires full == p.SubkernelElements(p.decompW, at.(subkernelY := y).SubHeight(p))
    requires m == Product(OfmCover(p, at.ofmBlockZ), IfmCover(p, at.ifmBlockZ))
    requires inside < |IfmOuters(p, at.(subkernelY := y).(subkernelX := x))|
             && IfmOuters(p, at.(subkernelY := y).(subkernelX := x))[inside] == s
    ensures r < |Kernel(p, at)| && Kernel(p, at)[r] == s
    ensures r == Product(k, Product(RowLength(p, p.decompH), m)) + (Product(j, Product(full, m)) + inside)
  {
    SubkernelPlace(p, at.(subkernelY := y), j, x, Product(full, m), inside, s);
    var r0: nat := Product(j, Product(full, m)) + inside;
    RowPlace(p, at, k, y, Product(RowLength(p, p.decompH), m), r0, s);
    r := Product(k, Product(RowLength(p, p.decompH), m)) + r0;
  }

  /** The place of a block's slot in the traversal. */
  lemma PlaceInBlocks(p: Shape, k: nat, oz: nat, j: nat, iz: nat, ofm: nat, inside: nat, s: Slot) returns (r: nat)
    requires p.Valid() && p.kernelWidth > 0 && p.kernelHeight > 0 && p.ifmDepth > 0 && (p.isDepthwise ==> j == 0)
    requires oz == k * p.ofmBlockDepth && oz < p.ofmDepth && iz == j * p.IfmBlockDepth() && iz < p.IfmExtent()
    requires ofm == OfmCover(p, oz)
    requires inside < |Kernel(p, START.(ofmBlockZ := oz).(ifmBlockZ := iz))|
             && Kernel(p, START.(ofmBlockZ := oz).(ifmBlockZ := iz))[inside] == s
    ensures r < |Traversal(p)| && Traversal(p)[r] == s
    ensures r == Product(k, Product(RoundUp(p.ofmBlockDepth, p.ofmUblockDepth), Product(IfmLength(p), KernelLength(p))))
                 + (Product(j, Product(RoundUp(p.IfmBlockDepth(), p.ifmUblockDepth), Product(ofm, KernelLength(p))))
                    + inside)
  {
    var m1 := Product(RoundUp(p.IfmBlockDepth(), p.ifmUblockDepth), Product(ofm, KernelLength(p)));
    var m0 := Product(RoundUp(p.ofmBlockDepth, p.ofmUblockDepth), Product(IfmLength(p), KernelLength(p)));
    IfmBlockPlace(p, START.(ofmBlockZ := oz), j, iz, m1, inside, s);
    var r1: nat := Product(j, m1) + inside;
    OfmBlockPlace(p, k, oz, m0, r1, s);
    r := Product(k, m0) + r1;
  }

  // ---- digits

  lemma Digits(n: nat, d: nat) returns (q: nat, r: nat)
    requires d > 0
    ensures n == q * d + r && r < d && q * d <= n
  {
    QuotientIsNat(n, d);
    q, r := n / d, n % d;
    assert n == q * d + r;
  }

  lemma TurnBelow(q: nat, d: nat, r: nat, n: nat)
    requires d > 0 && q * d + r < n
    ensures q < CeilDiv(n, d)
  {
    BlockStarts(n, d, q);
  }

  /** A weight is visited in these turns. */
  predicate TurnsOf(p: Shape, c: Coord, t: Turns)
    requires p.Valid()
  {
    && c.o == t.ofmBlock * p.ofmBlockDepth + (t.ofmUblock * p.ofmUblockDepth + t.oz)
    && t.oz < p.ofmUblockDepth && t.ofmUblock * p.ofmUblockDepth + t.oz < p.ofmBlockDepth
    && c.i == t.ifmBlock * p.IfmBlockDepth() + ((t.outer + t.inner) * p.ifmUblockDepth + t.iz)
    && t.iz < p.ifmUblockDepth && (t.outer + t.inner) * p.ifmUblockDepth + t.iz < p.IfmBlockDepth()
    && (if p.isPartkernel then t.inner == 0 else t.outer == 0)
    && 0 <= c.y - t.row * p.decompH < p.decompH && 0 <= c.x - t.subkernel * p.decompW < p.decompW
    && t.element
       == (c.y - t.row * p.decompH) * Min(p.kernelWidth - t.subkernel * p.decompW, p.decompW)
          + (c.x - t.subkernel * p.decompW)
  }

  lemma TurnsExist(p: Shape, c: Coord) returns (t: Turns)
    requires p.Valid() && p.Holds(c)
    ensures TurnsOf(p, c, t)
  {
    var ofmBlock, o := Digits(c.o, p.ofmBlockDepth);
    var ofmUblock, oz := Digits(o, p.ofmUblockDepth);
    var ifmBlock, i := Digits(c.i, p.IfmBlockDepth());
    var ifmUblock, iz := Digits(i, p.ifmUblockDepth);
    var row, y := Digits(c.y, p.decompH);
    var subkernel, x := Digits(c.x, p.decompW);
    var width: nat := Min(p.kernelWidth - subkernel * p.decompW, p.decompW);
    t := Turns(ofmBlock, ifmBlock, row, subkernel, if p.isPartkernel then ifmUblock else 0, ofmUblock, y * width + x,
               if p.isPartkernel then 0 else ifmUblock, oz, iz);
  }

  lemma OfmTurns(p: Shape, c: Coord, t: Turns)
    requires p.Valid() && p.Holds(c) && TurnsOf(p, c, t)
    ensures t.ofmBlock * p.ofmBlockDepth < p.ofmDepth
    ensures t.ofmUblock < CeilDiv(START.(ofmBlockZ := t.ofmBlock * p.ofmBlockDepth).OfmClip(p), p.ofmUblockDepth)
  {
    TurnBelow(t.ofmUblock, p.ofmUblockDepth, t.oz, START.(ofmBlockZ := t.ofmBlock * p.ofmBlockDepth).OfmClip(p));
  }

  lemma NoDigits(a: nat, d: nat, r: nat)
    requires d > 0 && a * d + r == 0
    ensures a == 0 && r == 0
  {
    if a > 0 {
      ProductOrder(0, a, d);
    }
  }

  lemma IfmTurns(p: Shape, c: Coord, t: Turns)
    requires p.Valid() && p.Holds(c) && (p.isDepthwise ==> c.i == 0) && TurnsOf(p, c, t)
    ensures t.ifmBlock * p.IfmBlockDepth() < p.IfmExtent() && (p.isDepthwise ==> t.ifmBlock == 0)
    ensures var at := START.(ofmBlockZ := 0, ifmBlockZ := t.ifmBlock * p.IfmBlockDepth());
            && t.outer < CeilDiv(if p.isPartkernel then at.IfmClip(p) else 1, p.ifmUblockDepth)
            && t.inner < CeilDiv(if p.isPartkernel then 1 else at.IfmClip(p), p.ifmUblockDepth)
            && t.iz < IfmWidth(p)
  {
    var turn, d := t.outer + t.inner, p.ifmUblockDepth;
    if p.isDepthwise {
      NoDigits(t.ifmBlock, p.IfmBlockDepth(), turn * d + t.iz);
      NoDigits(turn, d, t.iz);
    }
    CeilDivOne(d);
    TurnBelow(turn, d, t.iz, START.(ifmBlockZ := t.ifmBlock * p.IfmBlockDepth()).IfmClip(p));
  }

  lemma KernelTurns(p: Shape, c: Coord, t: Turns)
    requires p.Valid() && p.Holds(c) && TurnsOf(p, c, t)
    ensures t.row * p.decompH < p.kernelHeight && t.subkernel * p.decompW < p.kernelWidth
    ensures var at := START.(subkernelY := t.row * p.decompH, subkernelX := t.subkernel * p.decompW);
            var w, ky, kx := at.SubWidth(p), c.y - t.row * p.decompH, c.x - t.subkernel * p.decompW;
            && t.element < p.SubkernelElements(w, at.SubHeight(p))
            && t.element / w == ky < at.SubHeight(p) && t.element % w == kx
  {
    ElementTurn(p, c, t.row * p.decompH, t.subkernel * p.decompW, t.element);
  }

  lemma ElementTurn(p: Shape, c: Coord, y: nat, x: nat, element: nat)
    requires p.Valid() && p.Holds(c) && 0 <= c.y - y < p.decompH && 0 <= c.x - x < p.decompW
    requires element == (c.y - y) * Min(p.kernelWidth - x, p.decompW) + (c.x - x)
    ensures y < p.kernelHeight && x < p.kernelWidth
    ensures var at := START.(subkernelY := y, subkernelX := x);
            var w := at.SubWidth(p);
            && element < p.SubkernelElements(w, at.SubHeight(p))
            && element / w == c.y - y < at.SubHeight(p) && element % w == c.x - x
  {
    var at := START.(subkernelY := y, subkernelX := x);
    ElementDigits(c.y - y, c.x - x, at.SubWidth(p), at.SubHeight(p), element);
  }

  lemma ElementDigits(ky: nat, kx: nat, w: nat, h: nat, element: nat)
    requires ky < h && kx < w && element == ky * w + kx
    ensures element < w * h && element / w == ky && element % w == kx
  {
    PickInRange(ky, kx, w, h);
    DivModUnique(element, w, ky, kx);
  }

  lemma TurnsAreTaken(p: Shape, c: Coord, t: Turns)
    requires p.Valid() && p.Holds(c) && (p.isDepthwise ==> c.i == 0) && TurnsOf(p, c, t)
    ensures HasTurns(p, t) && SlotOf(p, PlaceIn(p, t), t.iz) == Source(c)
  {
    OfmTurns(p, c, t);
    IfmTurns(p, c, t);
    KernelTurns(p, c, t);
    SlotTaken(p, c, t);
  }

  lemma SlotTaken(p: Shape, c: Coord, t: Turns)
    requires p.Valid() && p.Holds(c) && TurnsOf(p, c, t) && PlaceIn(p, t).Valid(p)
    requires var at := PlaceIn(p, t);
             var ky := c.y - t.row * p.decompH;
             && t.element / at.SubWidth(p) == ky < at.SubHeight(p)
             && t.element % at.SubWidth(p) == c.x - t.subkernel * p.decompW
    ensures SlotOf(p, PlaceIn(p, t), t.iz) == Source(c)
  {
    assert (t.outer + t.inner) * p.ifmUblockDepth == t.inner * p.ifmUblockDepth + t.outer * p.ifmUblockDepth;
  }

  /** The place in the traversal of what is put out in some turns. */
  lemma PlaceOfTurns(p: Shape, t: Turns, ofm: nat, m: nat, full: nat, inside: nat, s: Slot) returns (r: nat)
    requires HasTurns(p, t) && p.ifmDepth > 0
    requires var at := SubkernelOf(p, t);
             && ofm == OfmCover(p, at.ofmBlockZ) && m == Product(ofm, IfmCover(p, at.ifmBlockZ))
             && full == p.SubkernelElements(p.decompW, at.SubHeight(p))
             && inside < |IfmOuters(p, at)| && IfmOuters(p, at)[inside] == s
    ensures r < |Traversal(p)| && Traversal(p)[r] == s
    ensures r == Product(t.ofmBlock, Product(RoundUp(p.ofmBlockDepth, p.ofmUblockDepth),
                                             Product(IfmLength(p), KernelLength(p))))
                 + (Product(t.ifmBlock, Product(RoundUp(p.IfmBlockDepth(), p.ifmUblockDepth),
                                                Product(ofm, KernelLength(p))))
                    + (Product(t.row, Product(RowLength(p, p.decompH), m))
                       + (Product(t.subkernel, Product(full, m)) + inside)))
  {
    var at := START.(ofmBlockZ := t.ofmBlock * p.ofmBlockDepth, ifmBlockZ := t.ifmBlock * p.IfmBlockDepth());
    var r1 := PlaceInKernel(p, at, t.row, t.row * p.decompH, t.subkernel, t.subkernel * p.decompW, m, full, inside, s);
    r := PlaceInBlocks(p, t.ofmBlock, t.ofmBlock * p.ofmBlockDepth, t.ifmBlock, t.ifmBlock * p.IfmBlockDepth(), ofm,
                       r1, s);
  }

  /** The sizes of what is put out at the turns of a weight. */
  lemma SizesOf(p: Shape, t: Turns, ofmClip: nat, ifmClip: nat, width: nat, height: nat)
    requires HasTurns(p, t)
    requires ofmClip == Min(p.ofmBlockDepth, p.ofmDepth - t.ofmBlock * p.ofmBlockDepth)
    requires ifmClip
             == (if p.isPartkernel then Min(p.IfmBlockDepth(), p.ifmDepth - t.ifmBlock * p.IfmBlockDepth())
                 else p.IfmBlockDepth())
    requires width == Min(p.kernelWidth - t.subkernel * p.decompW, p.decompW)
             && height == Min(p.kernelHeight - t.row * p.decompH, p.decompH)
    ensures var at := SubkernelOf(p, t);
            && OfmCover(p, at.ofmBlockZ) == RoundUp(ofmClip, p.ofmUblockDepth)
            && IfmCover(p, at.ifmBlockZ) == (if p.isDepthwise then 1 else RoundUp(ifmClip, p.ifmUblockDepth))
            && at.SubWidth(p) == width && at.SubHeight(p) == height
            && CeilDiv(at.OfmClip(p), p.ofmUblockDepth) == CeilDiv(ofmClip, p.ofmUblockDepth)
            && InnerTurns(p, at) == (if p.isPartkernel || p.isDepthwise then 1 else CeilDiv(ifmClip, p.ifmUblockDepth))
  {
    CeilDivOne(p.ifmUblockDepth);
  }

  /**
   * The place of a weight. Its coordinates are the turns of the loops: output block, input block of 16 or 32,
   * row and column of subkernels, input ublock for part-kernel, output ublock, element, input ublock
   * otherwise, and the elements of both ublocks. Its place counts what all the earlier turns have put out.
   */
  lemma WeightPlace(p: Shape, c: Coord, block: nat) returns (t: Turns, place: nat)
    requires p.Valid() && p.Holds(c) && (p.isDepthwise ==> c.i == 0)
    requires block == if p.isPartkernel || p.ifmBitdepth == 16 then 16 else 32
    ensures c.o == t.ofmBlock * p.ofmBlockDepth + (t.ofmUblock * p.ofmUblockDepth + t.oz)
    ensures t.oz < p.ofmUblockDepth && t.ofmUblock * p.ofmUblockDepth + t.oz < p.ofmBlockDepth
    ensures c.i == t.ifmBlock * block + ((t.outer + t.inner) * p.ifmUblockDepth + t.iz)
    ensures t.iz < p.ifmUblockDepth && (t.outer + t.inner) * p.ifmUblockDepth + t.iz < block
    ensures if p.isPartkernel then t.inner == 0 else t.outer == 0
    ensures 0 <= c.y - t.row * p.decompH < p.decompH && 0 <= c.x - t.subkernel * p.decompW < p.decompW
    ensures t.element
            == (c.y - t.row * p.decompH) * Min(p.kernelWidth - t.subkernel * p.decompW, p.decompW)
               + (c.x - t.subkernel * p.decompW)
    ensures place < |Traversal(p)| && Traversal(p)[place] == Source(c)
    ensures var ofmClip := Min(p.ofmBlockDepth, p.ofmDepth - t.ofmBlock * p.ofmBlockDepth);
            var ifmClip := if p.isPartkernel then Min(block, p.ifmDepth - t.ifmBlock * block) else block;
            var width := Min(p.kernelWidth - t.subkernel * p.decompW, p.decompW);
            var height := Min(p.kernelHeight - t.row * p.decompH, p.decompH);
            var ofm := RoundUp(ofmClip, p.ofmUblockDepth);
            var ifm := if p.isDepthwise then 1 else RoundUp(ifmClip, p.ifmUblockDepth);
            var inner := if p.isPartkernel || p.isDepthwise then 1 else CeilDiv(ifmClip, p.ifmUblockDepth);
            var elements := p.SubkernelElements(width, height);
            var depth := if p.isDepthwise then 1 else p.ifmUblockDepth;
            place
            == t.ofmBlock * (RoundUp(p.ofmBlockDepth, p.ofmUblockDepth) * (IfmLength(p) * KernelLength(p)))
               + (t.ifmBlock * (RoundUp(block, p.ifmUblockDepth) * (ofm * KernelLength(p)))
                  + (t.row * (RowLength(p, p.decompH) * (ofm * ifm))
                     + (t.subkernel * (p.SubkernelElements(p.decompW, height) * (ofm * ifm))
                        + (t.outer * (CeilDiv(ofmClip, p.ofmUblockDepth)
                                      * (elements * (inner * (p.ofmUblockDepth * depth))))
                           + (t.ofmUblock * (elements * (inner * (p.ofmUblockDepth * depth)))
                              + (t.element * (inner * (p.ofmUblockDepth * depth))
                                 + (t.inner * (p.ofmUblockDepth * depth) + (t.oz * depth + t.iz))))))))
  {
    t := TurnsExist(p, c);
    TurnsAreTaken(p, c, t);
    var ofmClip: nat := Min(p.ofmBlockDepth, p.ofmDepth - t.ofmBlock * p.ofmBlockDepth);
    var ifmClip: nat := if p.isPartkernel then Min(block, p.ifmDepth - t.ifmBlock * block) else block;
    var width: nat := Min(p.kernelWidth - t.subkernel * p.decompW, p.decompW);
    var height: nat := Min(p.kernelHeight - t.row * p.decompH, p.decompH);
    SizesOf(p, t, ofmClip, ifmClip, width, height);
    var ofm: nat := RoundUp(ofmClip, p.ofmUblockDepth);
    var inner: nat := if p.isPartkernel || p.isDepthwise then 1 else CeilDiv(ifmClip, p.ifmUblockDepth);
    var inside := PlaceInSubkernel(p, t, p.SubkernelElements(width, height), CeilDiv(ofmClip, p.ofmUblockDepth), inner);
    place := PlaceOfTurns(p, t, ofm, Product(ofm, IfmCover(p, t.ifmBlock * block)),
                          p.SubkernelElements(p.decompW, height), inside, Source(c));
  }
}
