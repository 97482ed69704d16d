/** Reordering a weight tensor for the hardware: the loop nest that feeds the encoder. */
module Reorder {
  import opened ReorderSpec
  import opened Rounding
  import opened ReorderCovers
  import opened ReorderLength
  import opened ReorderSources
  import opened Results
  import DecodeSpec
  import MlwEncode
  import Palettes

  /** The source tensor: a buffer with one stride for each of the four axes. */
  datatype Brick = Brick(buf: seq<int>, strideO: int, strideY: int, strideX: int, strideI: int) {
    function Offset(c: Coord): int {
      c.o * strideO + c.y * strideY + c.x * strideX + c.i * strideI
    }

    function Weight(c: Coord): int {
      if 0 <= Offset(c) < |buf| then buf[Offset(c)] else 0
    }

    /** The buffer has every element of the shape. */
    ghost predicate Serves(p: Shape) {
      forall c :: p.Holds(c) ==> 0 <= Offset(c) < |buf|
    }
  }

  /** A weight is found by the strides of its four coordinates. */
  lemma WeightInBuffer(b: Brick, c: Coord, k: int)
    requires k == c.o * b.strideO + c.y * b.strideY + c.x * b.strideX + c.i * b.strideI
    ensures 0 <= k < |b.buf| ==> b.Weight(c) == b.buf[k]
  {
  }

  function Fed(s: Slot, b: Brick): int {
    match s
    case Source(c) => b.Weight(c)
    case Padding => 0
  }

  function Fetch(s: seq<Slot>, b: Brick): (out: seq<int>)
    ensures |out| == |s|
  {
    seq(|s|, k requires 0 <= k < |s| => Fed(s[k], b))
  }

  lemma FetchTurn(n: nat, f: nat -> seq<Slot>, b: Brick)
    ensures Fetch(Times(n + 1, f), b) == Fetch(Times(n, f), b) + Fetch(f(n), b)
  {
    assert Times(n + 1, f) == Times(n, f) + f(n);
  }

  lemma SubkernelTurnIs(p: Shape, at: Place, k: nat, x: nat)
    requires p.Valid() && at.ofmBlockZ < p.ofmDepth && at.ifmBlockZ < p.IfmExtent() && at.subkernelY < p.kernelHeight
    requires x == k * p.decompW && x < p.kernelWidth
    ensures SubkernelAt(p, at)(k) == IfmOuters(p, at.(subkernelX := x))
  {
  }

  lemma RowTurnIs(p: Shape, at: Place, k: nat, y: nat)
    requires p.Valid() && at.ofmBlockZ < p.ofmDepth && at.ifmBlockZ < p.IfmExtent()
    requires y == k * p.decompH && y < p.kernelHeight
    ensures RowAt(p, at)(k) == SubkernelRow(p, at.(subkernelY := y))
  {
  }

  lemma OfmBlockTurnIs(p: Shape, k: nat, z: nat)
    requires p.Valid() && z == k * p.ofmBlockDepth && z < p.ofmDepth
    ensures OfmBlockAt(p)(k) == IfmBlocks(p, START.(ofmBlockZ := z))
  {
  }

  /** A loop that counts to n in steps is at z, before its k-th turn. */
  ghost predicate StepAt(z: nat, k: nat, n: nat, step: nat)
    requires step > 0
  {
    z == k * step && k <= CeilDiv(n, step) && (z < n <==> k < CeilDiv(n, step))
  }

  lemma FirstStep(n: nat, step: nat)
    requires step > 0
    ensures StepAt(0, 0, n, step)
  {
  }

  lemma NextStep(z: nat, k: nat, n: nat, step: nat)
    requires step > 0 && StepAt(z, k, n, step) && z < n
    ensures StepAt(z + step, k + 1, n, step)
  {
    NextRange(k, step);
    BlockStarts(n, step, k + 1);
  }

  method FeedElement(p: Shape, b: Brick, at: Place, ifmUblockZ: nat) returns (weight: int)
    requires at.Valid(p) && b.Serves(p)
    ensures [weight] == Fetch([SlotOf(p, at, ifmUblockZ)], b)
  {
    var kx, ky := at.element % at.SubWidth(p), at.element / at.SubWidth(p);
    var wx, wy := at.subkernelX + kx, at.subkernelY + ky;
    var ifmZ := at.ifmBlockZ + (at.ifmUblkInner + at.ifmUblkOuter) + ifmUblockZ;
    var ofmZ := at.ofmBlockZ + at.ofmUblk + at.ofmUblockZ;
    if ifmZ < p.ifmDepth && ofmZ < p.ofmDepth && ky < at.SubHeight(p) {
      SlotHolds(p, at, ifmUblockZ);
      weight := b.buf[ofmZ * b.strideO + wy * b.strideY + wx * b.strideX + ifmZ * b.strideI];
    } else {
      weight := 0;
    }
  }

  method FeedIfmElements(p: Shape, b: Brick, at: Place) returns (weights: seq<int>)
    requires at.Valid(p) && b.Serves(p)
    ensures weights == Fetch(IfmElements(p, at), b)
  {
    weights := [];
    var ifmUblockZ := 0;
    while ifmUblockZ < if p.isDepthwise then 1 else p.ifmUblockDepth
      invariant 0 <= ifmUblockZ <= if p.isDepthwise then 1 else p.ifmUblockDepth
      invariant weights == Fetch(Times(ifmUblockZ, IfmElement(p, at)), b)
    {
      FetchTurn(ifmUblockZ, IfmElement(p, at), b);
      var weight := FeedElement(p, b, at, ifmUblockZ);
      weights := weights + [weight];
      ifmUblockZ := ifmUblockZ + 1;
    }
  }

  method FeedOfmElements(p: Shape, b: Brick, at: Place) returns (weights: seq<int>)
    requires at.Valid(p) && b.Serves(p)
    ensures weights == Fetch(OfmElements(p, at), b)
  {
    weights := [];
    var ofmUblockZ := 0;
    while ofmUblockZ < p.ofmUblockDepth
      invariant 0 <= ofmUblockZ <= p.ofmUblockDepth
      invariant weights == Fetch(Times(ofmUblockZ, OfmElement(p, at)), b)
    {
      FetchTurn(ofmUblockZ, OfmElement(p, at), b);
      var more := FeedIfmElements(p, b, at.(ofmUblockZ := ofmUblockZ));
      weights := weights + more;
      ofmUblockZ := ofmUblockZ + 1;
    }
  }

  method FeedIfmUblocks(p: Shape, b: Brick, at: Place) returns (weights: seq<int>)
    requires at.Valid(p) && b.Serves(p)
    ensures weights == Fetch(IfmUblocks(p, at), b)
  {
    weights := [];
    var inner := if p.isPartkernel then 1 else at.IfmClip(p);
    var ifmUblkInner: nat := 0;
    ghost var k: nat := 0;
    FirstStep(inner, p.ifmUblockDepth);
    while ifmUblkInner < inner
      invariant StepAt(ifmUblkInner, k, inner, p.ifmUblockDepth) && weights == Fetch(Times(k, IfmUblock(p, at)), b)
      decreases CeilDiv(inner, p.ifmUblockDepth) - k
    {
      FetchTurn(k, IfmUblock(p, at), b);
      NextStep(ifmUblkInner, k, inner, p.ifmUblockDepth);
      var more := FeedOfmElements(p, b, at.(ifmUblkInner := ifmUblkInner));
      weights := weights + more;
      ifmUblkInner := ifmUblkInner + p.ifmUblockDepth;
      k := k + 1;
    }
  }

  method FeedKernelElements(p: Shape, b: Brick, at: Place) returns (weights: seq<int>)
    requires at.Valid(p) && b.Serves(p)
    ensures weights == Fetch(KernelElements(p, at), b)
  {
    weights := [];
    var subkernelElements := at.SubWidth(p) * at.SubHeight(p);
    if p.isPartkernel {
      if p.ifmBitdepth == 16 && subkernelElements % 2 != 0 {
        subkernelElements := RoundUp(subkernelElements, 2);
      } else if p.ifmBitdepth == 8 && subkernelElements % 4 != 0 {
        subkernelElements := RoundUp(subkernelElements, 4);
      }
    } else if p.isDepthwise {
      subkernelElements := RoundUp(subkernelElements, 4);
    }
    var element: nat := 0;
    while element < subkernelElements
      invariant element <= subkernelElements && weights == Fetch(Times(element, KernelElement(p, at)), b)
    {
      FetchTurn(element, KernelElement(p, at), b);
      var more := FeedIfmUblocks(p, b, at.(element := element));
      weights := weights + more;
      element := element + 1;
    }
  }

  method FeedOfmUblocks(p: Shape, b: Brick, at: Place) returns (weights: seq<int>)
    requires at.Valid(p) && b.Serves(p)
    ensures weights == Fetch(OfmUblocks(p, at), b)
  {
    weights := [];
    var ofmUblk: nat := 0;
    ghost var k: nat := 0;
    FirstStep(at.OfmClip(p), p.ofmUblockDepth);
    while ofmUblk < at.OfmClip(p)
      invariant StepAt(ofmUblk, k, at.OfmClip(p), p.ofmUblockDepth) && weights == Fetch(Times(k, OfmUblock(p, at)), b)
      decreases CeilDiv(at.OfmClip(p), p.ofmUblockDepth) - k
    {
      FetchTurn(k, OfmUblock(p, at), b);
      NextStep(ofmUblk, k, at.OfmClip(p), p.ofmUblockDepth);
      var more := FeedKernelElements(p, b, at.(ofmUblk := ofmUblk));
      weights := weights + more;
      ofmUblk := ofmUblk + p.ofmUblockDepth;
      k := k + 1;
    }
  }

  method FeedIfmOuters(p: Shape, b: Brick, at: Place) returns (weights: seq<int>)
    requires at.Valid(p) && b.Serves(p)
    ensures weights == Fetch(IfmOuters(p, at), b)
  {
    weights := [];
    var outer := if p.isPartkernel then at.IfmClip(p) else 1;
    var ifmUblkOuter: nat := 0;
    ghost var k: nat := 0;
    FirstStep(outer, p.ifmUblockDepth);
    while ifmUblkOuter < outer
      invariant StepAt(ifmUblkOuter, k, outer, p.ifmUblockDepth) && weights == Fetch(Times(k, IfmOuter(p, at)), b)
      decreases CeilDiv(outer, p.ifmUblockDepth) - k
    {
      FetchTurn(k, IfmOuter(p, at), b);
      NextStep(ifmUblkOuter, k, outer, p.ifmUblockDepth);
      var more := FeedOfmUblocks(p, b, at.(ifmUblkOuter := ifmUblkOuter));
      weights := weights + more;
      ifmUblkOuter := ifmUblkOuter + p.ifmUblockDepth;
      k := k + 1;
    }
    assert k == CeilDiv(outer, p.ifmUblockDepth);
  }

  method FeedSubkernelRow(p: Shape, b: Brick, at: Place) returns (weights: seq<int>)
    requires p.Valid() && at.ofmBlockZ < p.ofmDepth && at.ifmBlockZ < p.IfmExtent() && at.subkernelY < p.kernelHeight
    requires b.Serves(p)
    ensures weights == Fetch(SubkernelRow(p, at), b)
  {
    weights := [];
    var subkernelX: nat := 0;
    ghost var k: nat := 0;
    FirstStep(p.kernelWidth, p.decompW);
    while subkernelX < p.kernelWidth
      invariant StepAt(subkernelX, k, p.kernelWidth, p.decompW) && weights == Fetch(Times(k, SubkernelAt(p, at)), b)
      decreases CeilDiv(p.kernelWidth, p.decompW) - k
    {
      FetchTurn(k, SubkernelAt(p, at), b);
      SubkernelTurnIs(p, at, k, subkernelX);
      NextStep(subkernelX, k, p.kernelWidth, p.decompW);
      var more := FeedIfmOuters(p, b, at.(subkernelX := subkernelX));
      weights := weights + more;
      subkernelX := subkernelX + p.decompW;
      k := k + 1;
    }
  }

  method FeedKernel(p: Shape, b: Brick, at: Place) returns (weights: seq<int>)
    requires p.Valid() && at.ofmBlockZ < p.ofmDepth && at.ifmBlockZ < p.IfmExtent() && b.Serves(p)
    ensures weights == Fetch(Kernel(p, at), b)
  {
    weights := [];
    var subkernelY: nat := 0;
    ghost var k: nat := 0;
    FirstStep(p.kernelHeight, p.decompH);
    while subkernelY < p.kernelHeight
      invariant StepAt(subkernelY, k, p.kernelHeight, p.decompH) && weights == Fetch(Times(k, RowAt(p, at)), b)
      decreases CeilDiv(p.kernelHeight, p.decompH) - k
    {
      FetchTurn(k, RowAt(p, at), b);
      RowTurnIs(p, at, k, subkernelY);
      NextStep(subkernelY, k, p.kernelHeight, p.decompH);
      var more := FeedSubkernelRow(p, b, at.(subkernelY := subkernelY));
      weights := weights + more;
      subkernelY := subkernelY + p.decompH;
      k := k + 1;
    }
  }

  method FeedIfmBlocks(p: Shape, b: Brick, at: Place) returns (weights: seq<int>)
    requires p.Valid() && at.ofmBlockZ < p.ofmDepth && b.Serves(p)
    ensures weights == Fetch(IfmBlocks(p, at), b)
  {
    weights := [];
    var ifmBlockDepth := p.IfmBlockDepth();
    var ifmBlockZ: nat := 0;
    ghost var k: nat := 0;
    FirstStep(p.IfmExtent(), ifmBlockDepth);
    while ifmBlockZ < p.IfmExtent()
      invariant StepAt(ifmBlockZ, k, p.IfmExtent(), ifmBlockDepth) && weights == Fetch(Times(k, IfmBlockAt(p, at)), b)
      decreases CeilDiv(p.IfmExtent(), ifmBlockDepth) - k
    {
      FetchTurn(k, IfmBlockAt(p, at), b);
      NextStep(ifmBlockZ, k, p.IfmExtent(), ifmBlockDepth);
      var more := FeedKernel(p, b, at.(ifmBlockZ := ifmBlockZ));
      weights := weights + more;
      ifmBlockZ := ifmBlockZ + ifmBlockDepth;
      k := k + 1;
    }
  }

  /** The reordered weights, with padding where the hardware expects whole ublocks. */
  method Reordered(p: Shape, b: Brick) returns (weights: seq<int>)
    requires p.Valid() && b.Serves(p)
    ensures weights == Fetch(Traversal(p), b)
  {
    weights := [];
    var ofmBlockZ: nat := 0;
    ghost var k: nat := 0;
    FirstStep(p.ofmDepth, p.ofmBlockDepth);
    while ofmBlockZ < p.ofmDepth
      invariant StepAt(ofmBlockZ, k, p.ofmDepth, p.ofmBlockDepth) && weights == Fetch(Times(k, OfmBlockAt(p)), b)
      decreases p.ofmDepth - ofmBlockZ
    {
      OfmBlockTurnIs(p, k, ofmBlockZ);
      FetchTurn(k, OfmBlockAt(p), b);
      NextStep(ofmBlockZ, k, p.ofmDepth, p.ofmBlockDepth);
      var more := FeedIfmBlocks(p, b, START.(ofmBlockZ := ofmBlockZ));
      weights := weights + more;
      ofmBlockZ := ofmBlockZ + p.ofmBlockDepth;
      k := k + 1;
    }
  }

  /** A slot that occurs once has one position. */
  lemma OnePosition(s: seq<Slot>, x: Slot) returns (at: nat)
    requires multiset(s)[x] == 1
    ensures at < |s| && s[at] == x && forall k :: 0 <= k < |s| && k != at ==> s[k] != x
  {
    assert x in multiset(s);
    at :| 0 <= at < |s| && s[at] == x;
    forall k | 0 <= k < |s| && k != at ensures s[k] != x {
      var rest := s[..at] + s[at + 1..];
      assert s == s[..at] + [x] + s[at + 1..];
      assert multiset(s) == multiset(rest) + multiset{x};
      assert x !in multiset(rest);
      assert s[k] == rest[if k < at then k else k - 1];
      assert s[k] in rest;
    }
  }

  /** A position that is the source of no weight is padding, and holds zero. */
  lemma OthersAreZero(p: Shape, b: Brick, k: nat)
    requires p.Valid() && k < |Traversal(p)| && forall c :: p.Holds(c) ==> Traversal(p)[k] != Source(c)
    ensures Traversal(p)[k] == Padding && Fetch(Traversal(p), b)[k] == 0
  {
    var s := Traversal(p)[k];
    assert s.Source? ==> s == Source(s.at);
    SourcesAreHeld(p, k);
  }

  /**
   * Every weight of the tensor is at exactly one position of the output; the positions of no weight
   * hold zeros.
   */
  lemma EveryWeightOnce(p: Shape, b: Brick, c: Coord) returns (at: nat)
    requires p.Valid() && p.Holds(c) && FitsIfm(p) && FitsOfm(p)
    ensures var s, out := Traversal(p), Fetch(Traversal(p), b);
            && at < |out| && s[at] == Source(c) && out[at] == b.Weight(c)
            && (forall k :: 0 <= k < |s| && k != at ==> s[k] != Source(c))
            && (forall k :: 0 <= k < |s| && (forall c' :: p.Holds(c') ==> s[k] != Source(c')) ==> out[k] == 0)
  {
    VisitsOnce(p, c);
    var s := Traversal(p);
    at := OnePosition(s, Source(c));
    forall k | 0 <= k < |s| && (forall c' :: p.Holds(c') ==> s[k] != Source(c')) ensures Fetch(s, b)[k] == 0 {
      OthersAreZero(p, b, k);
    }
  }

  const INT32_MAX: nat := 0x7fffffff

  /**
   * Reorders a tensor and compresses it. An empty or too long traversal is refused, like weights out
   * of range; what is compressed otherwise decodes to the reordered tensor.
   */
  method MlwReorderEncode(p: Shape, b: Brick, fill: bv8) returns (ok: bool, out: seq<bv8>, paddedLength: nat)
    requires p.Valid() && b.Serves(p)
    ensures paddedLength == |Traversal(p)|
    ensures p.kernelHeight > 0 && p.kernelWidth > 0 && p.ifmDepth > 0 ==> paddedLength == PaddedLength(p)
    ensures ok <==> 0 < paddedLength <= 0x7fff_ffff && Palettes.InRange(Fetch(Traversal(p), b))
    ensures ok ==> DecodeSpec.Decode(out) == Ok(Fetch(Traversal(p), b))
  {
    var weights := Reordered(p, b);
    paddedLength := |weights|;
    if p.kernelHeight > 0 && p.kernelWidth > 0 && p.ifmDepth > 0 {
      TraversalLength(p);
    }
    ok, out := false, [];
    if paddedLength > 0 && paddedLength <= INT32_MAX {
      ok, out := MlwEncode.MlwEncode(weights, fill);
    }
  }
}
