/** How long the reordered weights are: a closed form in the shape and the blocking. */
module ReorderLength {
  import opened Bits
  import opened ReorderSpec
  import opened Rounding
  import opened ReorderCovers

  /** Every full block contributes `full`, a last partial one `part`. */
  function Blocks(total: nat, block: nat, full: nat, part: nat): nat
    requires block > 0
  {
    Product(total / block, full) + if total % block > 0 then part else 0
  }

  /** The depth of all output blocks, each rounded up to whole ublocks. */
  function OfmLength(p: Shape): nat
    requires p.Valid()
  {
    Blocks(p.ofmDepth, p.ofmBlockDepth, RoundUp(p.ofmBlockDepth, p.ofmUblockDepth),
           RoundUp(p.ofmDepth % p.ofmBlockDepth, p.ofmUblockDepth))
  }

  /** The depth of all input blocks; only part-kernel blocks are clipped. */
  function IfmLength(p: Shape): nat
    requires p.Valid()
  {
    var d := p.IfmBlockDepth();
    if p.isDepthwise then 1
    else Blocks(p.ifmDepth, d, RoundUp(d, p.ifmUblockDepth),
                RoundUp(if p.isPartkernel then p.ifmDepth % d else d, p.ifmUblockDepth))
  }

  /** The elements of a row of subkernels of a height. */
  function RowLength(p: Shape, height: nat): nat
    requires p.Valid()
  {
    Blocks(p.kernelWidth, p.decompW, p.SubkernelElements(p.decompW, height),
           p.SubkernelElements(p.kernelWidth % p.decompW, height))
  }

  function KernelLength(p: Shape): nat
    requires p.Valid()
  {
    Blocks(p.kernelHeight, p.decompH, RowLength(p, p.decompH), RowLength(p, p.kernelHeight % p.decompH))
  }

  function Product(a: nat, b: nat): nat {
    a * b
  }

  /** The padded length of the weights. */
  function PaddedLength(p: Shape): nat
    requires p.Valid()
  {
    Product(OfmLength(p), Product(IfmLength(p), KernelLength(p)))
  }

  // ---- loops

  lemma {:induction false} EqualTurns(n: nat, f: nat -> seq<Slot>, m: nat)
    requires forall k: nat :: k < n ==> |f(k)| == m
    ensures |Times(n, f)| == n * m
  {
    if n > 0 {
      EqualTurns(n - 1, f, m);
      NextRange(n - 1, m);
    }
  }

  lemma DivBelow(total: nat, block: nat)
    requires block > 0
    ensures CeilDiv(total, block) == total / block + if total % block > 0 then 1 else 0
  {
    QuotientIsNat(total, block);
    CeilAt(total, block, total / block, total % block);
  }

  lemma CeilAt(total: nat, block: nat, q: nat, r: nat)
    requires r < block && total == q * block + r
    ensures CeilDiv(total, block) == q + if r > 0 then 1 else 0
  {
    var sum := total + block - 1;
    assert q * block == block * q;
    if r > 0 {
      assert block * (q + 1) == block * q + block;
      DivUnique(sum, block, q + 1, r - 1);
    } else {
      DivUnique(sum, block, q, block - 1);
    }
  }

  /** The turns of a loop over blocks: full ones, and maybe a partial one. */
  lemma BlockTurns(total: nat, block: nat, f: nat -> seq<Slot>, full: nat, part: nat)
    requires block > 0
    requires forall k: nat :: k < total / block ==> |f(k)| == full
    requires total % block > 0 ==> |f(total / block)| == part
    ensures |Times(CeilDiv(total, block), f)| == Blocks(total, block, full, part)
  {
    DivBelow(total, block);
    EqualTurns(total / block, f, full);
  }

  lemma Distribute(a: nat, b: nat, m: nat)
    ensures Product(a + b, m) == Product(a, m) + Product(b, m)
  {
  }

  lemma Associate(a: nat, b: nat, c: nat)
    ensures Product(a, Product(b, c)) == Product(Product(a, b), c)
    ensures Product(a, b) == Product(b, a)
  {
    assert a * (b * c) == (a * b) * c;
  }

  lemma BlocksFactor(total: nat, block: nat, full: nat, part: nat, m: nat)
    requires block > 0
    ensures Blocks(total, block, Product(full, m), Product(part, m)) == Product(Blocks(total, block, full, part), m)
  {
    Associate(total / block, full, m);
    Distribute(Product(total / block, full), if total % block > 0 then part else 0, m);
  }

  lemma BlockLengths(total: nat, block: nat, f: nat -> seq<Slot>, full: nat, part: nat, m: nat)
    requires block > 0
    requires forall k: nat :: k < total / block ==> |f(k)| == Product(full, m)
    requires total % block > 0 ==> |f(total / block)| == Product(part, m)
    ensures |Times(CeilDiv(total, block), f)| == Product(Blocks(total, block, full, part), m)
  {
    BlockTurns(total, block, f, Product(full, m), Product(part, m));
    BlocksFactor(total, block, full, part, m);
  }

  // ---- levels

  lemma OfmElementsLength(p: Shape, at: Place)
    requires at.Valid(p)
    ensures |OfmElements(p, at)| == Product(p.ofmUblockDepth, IfmWidth(p))
  {
    forall k: nat | k < p.ofmUblockDepth ensures |OfmElement(p, at)(k)| == IfmWidth(p) {
      var at' := at.(ofmUblockZ := k);
      forall j: nat | j < IfmWidth(p) ensures |IfmElement(p, at')(j)| == 1 {
      }
      EqualTurns(IfmWidth(p), IfmElement(p, at'), 1);
    }
    EqualTurns(p.ofmUblockDepth, OfmElement(p, at), IfmWidth(p));
  }

  /** The turns of the inner and of the outer input ublock loop. */
  function InnerTurns(p: Shape, at: Place): nat
    requires at.Valid(p)
  {
    CeilDiv(if p.isPartkernel then 1 else at.IfmClip(p), p.ifmUblockDepth)
  }

  function OuterTurns(p: Shape, at: Place): nat
    requires at.Valid(p)
  {
    CeilDiv(if p.isPartkernel then at.IfmClip(p) else 1, p.ifmUblockDepth)
  }

  lemma IfmUblocksLength(p: Shape, at: Place)
    requires at.Valid(p)
    ensures |IfmUblocks(p, at)| == Product(InnerTurns(p, at), Product(p.ofmUblockDepth, IfmWidth(p)))
  {
    var m := Product(p.ofmUblockDepth, IfmWidth(p));
    forall k: nat | k < InnerTurns(p, at) ensures |IfmUblock(p, at)(k)| == m {
      OfmElementsLength(p, at.(ifmUblkInner := k * p.ifmUblockDepth));
    }
    EqualTurns(InnerTurns(p, at), IfmUblock(p, at), m);
  }

  lemma KernelElementsLength(p: Shape, at: Place, m: nat)
    requires at.Valid(p) && m == Product(InnerTurns(p, at), Product(p.ofmUblockDepth, IfmWidth(p)))
    ensures |KernelElements(p, at)| == Product(p.SubkernelElements(at.SubWidth(p), at.SubHeight(p)), m)
  {
    var n := p.SubkernelElements(at.SubWidth(p), at.SubHeight(p));
    forall k: nat | k < n ensures |KernelElement(p, at)(k)| == m {
      var at' := at.(element := k);
      IfmUblocksLength(p, at');
      assert InnerTurns(p, at') == InnerTurns(p, at);
    }
    EqualTurns(n, KernelElement(p, at), m);
  }

  lemma OfmUblocksLength(p: Shape, at: Place, m: nat)
    requires at.Valid(p)
    requires m == Product(p.SubkernelElements(at.SubWidth(p), at.SubHeight(p)),
                          Product(InnerTurns(p, at), Product(p.ofmUblockDepth, IfmWidth(p))))
    ensures |OfmUblocks(p, at)| == Product(CeilDiv(at.OfmClip(p), p.ofmUblockDepth), m)
  {
    var n := CeilDiv(at.OfmClip(p), p.ofmUblockDepth);
    forall k: nat | k < n ensures |OfmUblock(p, at)(k)| == m {
      var at' := at.(ofmUblk := k * p.ofmUblockDepth);
      KernelElementsLength(p, at', Product(InnerTurns(p, at'), Product(p.ofmUblockDepth, IfmWidth(p))));
      assert InnerTurns(p, at') == InnerTurns(p, at);
    }
    EqualTurns(n, OfmUblock(p, at), m);
  }

  lemma IfmOutersTurns(p: Shape, at: Place, m: nat)
    requires at.Valid(p)
    requires m == Product(CeilDiv(at.OfmClip(p), p.ofmUblockDepth),
                          Product(p.SubkernelElements(at.SubWidth(p), at.SubHeight(p)),
                                  Product(InnerTurns(p, at), Product(p.ofmUblockDepth, IfmWidth(p)))))
    ensures |IfmOuters(p, at)| == Product(OuterTurns(p, at), m)
  {
    var inner := Product(p.SubkernelElements(at.SubWidth(p), at.SubHeight(p)),
                         Product(InnerTurns(p, at), Product(p.ofmUblockDepth, IfmWidth(p))));
    forall k: nat | k < OuterTurns(p, at) ensures |IfmOuter(p, at)(k)| == m {
      var at' := at.(ifmUblkOuter := k * p.ifmUblockDepth);
      assert InnerTurns(p, at') == InnerTurns(p, at);
      OfmUblocksLength(p, at', inner);
    }
    EqualTurns(OuterTurns(p, at), IfmOuter(p, at), m);
  }

  /** Both ublock loops together visit the covered input depth. */
  lemma TurnsTogether(p: Shape, at: Place)
    requires at.Valid(p)
    ensures Product(Product(OuterTurns(p, at), InnerTurns(p, at)), IfmWidth(p)) == IfmCover(p, at.ifmBlockZ)
  {
    CeilDivOne(p.ifmUblockDepth);
  }

  lemma Regroup(outer: nat, ofm: nat, elements: nat, inner: nat, ublock: nat, width: nat)
    ensures Product(outer, Product(ofm, Product(elements, Product(inner, Product(ublock, width)))))
            == Product(elements, Product(Product(ofm, ublock), Product(Product(outer, inner), width)))
  {
    var t := Product(inner, Product(ublock, width));
    Associate(outer, ofm, Product(elements, t));
    Associate(Product(outer, ofm), elements, t);
    Associate(elements, Product(outer, ofm), t);
    assert Product(outer, Product(ofm, Product(elements, t))) == Product(elements, Product(Product(outer, ofm), t)) by {
      Associate(Product(outer, ofm), elements, t);
    }
    Associate(inner, ublock, width);
    Associate(ublock, inner, width);
    assert t == Product(ublock, Product(inner, width));
    Associate(outer, ofm, t);
    Associate(ofm, outer, t);
    assert Product(Product(outer, ofm), t) == Product(ofm, Product(outer, t));
    Associate(outer, ublock, Product(inner, width));
    Associate(ublock, outer, Product(inner, width));
    assert Product(outer, t) == Product(ublock, Product(outer, Product(inner, width)));
    Associate(outer, inner, width);
    Associate(ofm, ublock, Product(Product(outer, inner), width));
  }

  /** A subkernel, for all ublocks of a block. */
  lemma IfmOutersLength(p: Shape, at: Place)
    requires at.Valid(p)
    ensures |IfmOuters(p, at)| == Product(p.SubkernelElements(at.SubWidth(p), at.SubHeight(p)),
                                          Product(OfmCover(p, at.ofmBlockZ), IfmCover(p, at.ifmBlockZ)))
  {
    var ofm, elements := CeilDiv(at.OfmClip(p), p.ofmUblockDepth), p.SubkernelElements(at.SubWidth(p), at.SubHeight(p));
    IfmOutersTurns(p, at, Product(ofm,
                                  Product(elements, Product(InnerTurns(p, at),
                                                            Product(p.ofmUblockDepth, IfmWidth(p))))));
    Regroup(OuterTurns(p, at), ofm, elements, InnerTurns(p, at), p.ofmUblockDepth, IfmWidth(p));
    TurnsTogether(p, at);
  }

  lemma FullBlock(total: nat, block: nat, k: nat)
    requires block > 0 && k < total / block
    ensures k * block + block <= total
  {
    ProductOrder(k, total / block, block);
    assert total == (total / block) * block + total % block;
  }

  lemma PartBlock(total: nat, block: nat)
    requires block > 0
    ensures total - (total / block) * block == total % block < block
  {
  }

  lemma SubkernelLength(p: Shape, at: Place, k: nat, x: nat, width: nat, m: nat)
    requires p.Valid() && at.ofmBlockZ < p.ofmDepth && at.ifmBlockZ < p.IfmExtent() && at.subkernelY < p.kernelHeight
    requires x == k * p.decompW && x < p.kernelWidth && width == Min(p.kernelWidth - x, p.decompW)
    requires m == Product(OfmCover(p, at.ofmBlockZ), IfmCover(p, at.ifmBlockZ))
    ensures |SubkernelAt(p, at)(k)| == Product(p.SubkernelElements(width, at.SubHeight(p)), m)
  {
    var here := at.(subkernelX := x);
    IfmOutersLength(p, here);
  }

  lemma FullSubkernel(p: Shape, at: Place, k: nat, m: nat)
    requires p.Valid() && at.ofmBlockZ < p.ofmDepth && at.ifmBlockZ < p.IfmExtent() && at.subkernelY < p.kernelHeight
    requires k < p.kernelWidth / p.decompW
    requires m == Product(OfmCover(p, at.ofmBlockZ), IfmCover(p, at.ifmBlockZ))
    ensures |SubkernelAt(p, at)(k)| == Product(p.SubkernelElements(p.decompW, at.SubHeight(p)), m)
  {
    FullBlock(p.kernelWidth, p.decompW, k);
    SubkernelLength(p, at, k, k * p.decompW, p.decompW, m);
  }

  lemma LastSubkernel(p: Shape, at: Place, q: nat, rest: nat, m: nat)
    requires p.Valid() && at.ofmBlockZ < p.ofmDepth && at.ifmBlockZ < p.IfmExtent() && at.subkernelY < p.kernelHeight
    requires rest > 0
    requires q == p.kernelWidth / p.decompW && rest == p.kernelWidth % p.decompW
    requires m == Product(OfmCover(p, at.ofmBlockZ), IfmCover(p, at.ifmBlockZ))
    ensures |SubkernelAt(p, at)(q)| == Product(p.SubkernelElements(rest, at.SubHeight(p)), m)
  {
    PartBlock(p.kernelWidth, p.decompW);
    SubkernelLength(p, at, q, q * p.decompW, rest, m);
  }

  lemma RowLengthIs(p: Shape, at: Place, m: nat)
    requires p.Valid() && at.ofmBlockZ < p.ofmDepth && at.ifmBlockZ < p.IfmExtent() && at.subkernelY < p.kernelHeight
             && p.kernelWidth > 0
    requires m == Product(OfmCover(p, at.ofmBlockZ), IfmCover(p, at.ifmBlockZ))
    ensures |SubkernelRow(p, at)| == Product(RowLength(p, at.SubHeight(p)), m)
  {
    var h, f := at.SubHeight(p), SubkernelAt(p, at);
    var full, part := p.SubkernelElements(p.decompW, h), p.SubkernelElements(p.kernelWidth % p.decompW, h);
    forall k: nat | k < p.kernelWidth / p.decompW ensures |f(k)| == Product(full, m) {
      FullSubkernel(p, at, k, m);
    }
    if p.kernelWidth % p.decompW > 0 {
      QuotientIsNat(p.kernelWidth, p.decompW);
      LastSubkernel(p, at, p.kernelWidth / p.decompW, p.kernelWidth % p.decompW, m);
    }
    BlockLengths(p.kernelWidth, p.decompW, f, full, part, m);
  }

  lemma RowAtLength(p: Shape, at: Place, k: nat, y: nat, height: nat, m: nat)
    requires p.Valid() && at.ofmBlockZ < p.ofmDepth && at.ifmBlockZ < p.IfmExtent() && p.kernelWidth > 0
    requires y == k * p.decompH && y < p.kernelHeight && height == Min(p.kernelHeight - y, p.decompH)
    requires m == Product(OfmCover(p, at.ofmBlockZ), IfmCover(p, at.ifmBlockZ))
    ensures |RowAt(p, at)(k)| == Product(RowLength(p, height), m)
  {
    var here := at.(subkernelY := y);
    RowLengthIs(p, here, m);
  }

  lemma FullRow(p: Shape, at: Place, k: nat, m: nat)
    requires p.Valid() && at.ofmBlockZ < p.ofmDepth && at.ifmBlockZ < p.IfmExtent() && p.kernelWidth > 0
             && p.kernelHeight > 0
    requires k < p.kernelHeight / p.decompH
    requires m == Product(OfmCover(p, at.ofmBlockZ), IfmCover(p, at.ifmBlockZ))
    ensures |RowAt(p, at)(k)| == Product(RowLength(p, p.decompH), m)
  {
    FullBlock(p.kernelHeight, p.decompH, k);
    RowAtLength(p, at, k, k * p.decompH, p.decompH, m);
  }

  lemma LastRow(p: Shape, at: Place, q: nat, rest: nat, m: nat)
    requires p.Valid() && at.ofmBlockZ < p.ofmDepth && at.ifmBlockZ < p.IfmExtent() && p.kernelWidth > 0
             && p.kernelHeight > 0
    requires rest > 0
    requires q == p.kernelHeight / p.decompH && rest == p.kernelHeight % p.decompH
    requires m == Product(OfmCover(p, at.ofmBlockZ), IfmCover(p, at.ifmBlockZ))
    ensures |RowAt(p, at)(q)| == Product(RowLength(p, rest), m)
  {
    PartBlock(p.kernelHeight, p.decompH);
    RowAtLength(p, at, q, q * p.decompH, rest, m);
  }

  lemma KernelLengthIs(p: Shape, at: Place, m: nat)
    requires p.Valid() && at.ofmBlockZ < p.ofmDepth && at.ifmBlockZ < p.IfmExtent() && p.kernelWidth > 0
             && p.kernelHeight > 0
    requires m == Product(OfmCover(p, at.ofmBlockZ), IfmCover(p, at.ifmBlockZ))
    ensures |Kernel(p, at)| == Product(KernelLength(p), m)
  {
    var f, full, part := RowAt(p, at), RowLength(p, p.decompH), RowLength(p, p.kernelHeight % p.decompH);
    forall k: nat | k < p.kernelHeight / p.decompH ensures |f(k)| == Product(full, m) {
      FullRow(p, at, k, m);
    }
    if p.kernelHeight % p.decompH > 0 {
      QuotientIsNat(p.kernelHeight, p.decompH);
      LastRow(p, at, p.kernelHeight / p.decompH, p.kernelHeight % p.decompH, m);
    }
    BlockLengths(p.kernelHeight, p.decompH, f, full, part, m);
  }

  /** One block over the input depth; m does not depend on it. */
  lemma IfmBlockLength(p: Shape, at: Place, k: nat, z: nat, cover: nat, m: nat)
    requires p.Valid() && at.ofmBlockZ < p.ofmDepth && p.kernelWidth > 0 && p.kernelHeight > 0
    requires z == k * p.IfmBlockDepth() && z < p.IfmExtent()
    requires cover == IfmCover(p, z)
    requires m == Product(OfmCover(p, at.ofmBlockZ), KernelLength(p))
    ensures |IfmBlockAt(p, at)(k)| == Product(cover, m)
  {
    var here := at.(ifmBlockZ := z);
    var r := OfmCover(p, at.ofmBlockZ);
    KernelLengthIs(p, here, Product(r, cover));
    Associate(KernelLength(p), r, cover);
    Associate(r, KernelLength(p), cover);
    Associate(cover, m, 1);
    Associate(m, cover, 1);
  }

  lemma IfmBlocksLength(p: Shape, at: Place, m: nat)
    requires p.Valid() && at.ofmBlockZ < p.ofmDepth && p.kernelWidth > 0 && p.kernelHeight > 0 && p.ifmDepth > 0
    requires m == Product(OfmCover(p, at.ofmBlockZ), KernelLength(p))
    ensures |IfmBlocks(p, at)| == Product(IfmLength(p), m)
  {
    var d, f := p.IfmBlockDepth(), IfmBlockAt(p, at);
    if p.isDepthwise {
      CeilDivOne(d);
      Once(f);
      IfmBlockLength(p, at, 0, 0, 1, m);
    } else {
      var full, part := RoundUp(d, p.ifmUblockDepth),
        RoundUp(if p.isPartkernel then p.ifmDepth % d else d, p.ifmUblockDepth);
      forall k: nat | k < p.ifmDepth / d ensures |f(k)| == Product(full, m) {
        FullBlock(p.ifmDepth, d, k);
        IfmBlockLength(p, at, k, k * d, full, m);
      }
      if p.ifmDepth % d > 0 {
        var q := p.ifmDepth / d;
        PartBlock(p.ifmDepth, d);
        IfmBlockLength(p, at, q, q * d, part, m);
      }
      BlockTurns(p.ifmDepth, d, f, Product(full, m), Product(part, m));
      BlocksFactor(p.ifmDepth, d, full, part, m);
    }
  }

  lemma OfmBlockLength(p: Shape, k: nat, z: nat, clip: nat, m: nat)
    requires p.Valid() && p.kernelWidth > 0 && p.kernelHeight > 0 && p.ifmDepth > 0
    requires z == k * p.ofmBlockDepth && z < p.ofmDepth && clip == Min(p.ofmBlockDepth, p.ofmDepth - z)
    requires m == Product(IfmLength(p), KernelLength(p))
    ensures |OfmBlockAt(p)(k)| == Product(RoundUp(clip, p.ofmUblockDepth), m)
  {
    var r := RoundUp(clip, p.ofmUblockDepth);
    IfmBlocksLength(p, START.(ofmBlockZ := z), Product(r, KernelLength(p)));
    Associate(IfmLength(p), r, KernelLength(p));
    Associate(r, IfmLength(p), KernelLength(p));
  }

  lemma FullOfmBlock(p: Shape, k: nat, m: nat)
    requires p.Valid() && p.kernelWidth > 0 && p.kernelHeight > 0 && p.ifmDepth > 0 && k < p.ofmDepth / p.ofmBlockDepth
    requires m == Product(IfmLength(p), KernelLength(p))
    ensures |OfmBlockAt(p)(k)| == Product(RoundUp(p.ofmBlockDepth, p.ofmUblockDepth), m)
  {
    FullBlock(p.ofmDepth, p.ofmBlockDepth, k);
    OfmBlockLength(p, k, k * p.ofmBlockDepth, p.ofmBlockDepth, m);
  }

  lemma LastOfmBlock(p: Shape, q: nat, rest: nat, m: nat)
    requires p.Valid() && p.kernelWidth > 0 && p.kernelHeight > 0 && p.ifmDepth > 0 && rest > 0
    requires q == p.ofmDepth / p.ofmBlockDepth && rest == p.ofmDepth % p.ofmBlockDepth
    requires m == Product(IfmLength(p), KernelLength(p))
    ensures |OfmBlockAt(p)(q)| == Product(RoundUp(rest, p.ofmUblockDepth), m)
  {
    PartBlock(p.ofmDepth, p.ofmBlockDepth);
    OfmBlockLength(p, q, q * p.ofmBlockDepth, rest, m);
  }

  /** The number of reordered weights is the padded length. */
  lemma TraversalLength(p: Shape)
    requires p.Valid() && p.kernelWidth > 0 && p.kernelHeight > 0 && p.ifmDepth > 0
    ensures |Traversal(p)| == PaddedLength(p)
  {
    var m, f := Product(IfmLength(p), KernelLength(p)), OfmBlockAt(p);
    var full, part := RoundUp(p.ofmBlockDepth, p.ofmUblockDepth),
      RoundUp(p.ofmDepth % p.ofmBlockDepth, p.ofmUblockDepth);
    forall k: nat | k < p.ofmDepth / p.ofmBlockDepth ensures |f(k)| == Product(full, m) {
      FullOfmBlock(p, k, m);
    }
    if p.ofmDepth % p.ofmBlockDepth > 0 {
      QuotientIsNat(p.ofmDepth, p.ofmBlockDepth);
      LastOfmBlock(p, p.ofmDepth / p.ofmBlockDepth, p.ofmDepth % p.ofmBlockDepth, m);
    }
    BlockLengths(p.ofmDepth, p.ofmBlockDepth, f, full, part, m);
  }
}
