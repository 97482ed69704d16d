/** The traversal visits every source element exactly once, when depths of blocks and ublocks fit. */
module ReorderCovers {
  import opened ReorderSpec
  import opened Rounding
  import opened Bits

  // ---- loops

  /** Turn k covers s exactly when z is in the k-th range of length step, and `on` holds. */
  ghost predicate TurnCovers(f: nat -> seq<Slot>, s: Slot, on: bool, base: int, step: nat, z: int, k: nat) {
    multiset(f(k))[s] == if on && In(z, base + k * step, step) then 1 else 0
  }

  /** The k-th range starts at lo. */
  lemma TurnFrom(f: nat -> seq<Slot>, s: Slot, on: bool, base: int, step: nat, z: int, k: nat, lo: int)
    requires lo == base + k * step && multiset(f(k))[s] == if on && In(z, lo, step) then 1 else 0
    ensures TurnCovers(f, s, on, base, step, z, k)
  {
  }

  /** Turns of a loop that cover adjacent ranges cover their union. */
  lemma {:induction false} TilesAxis(n: nat, f: nat -> seq<Slot>, s: Slot, on: bool, base: int, step: nat, z: int)
    requires forall k: nat :: k < n ==> TurnCovers(f, s, on, base, step, z, k)
    ensures multiset(Times(n, f))[s] == if on && In(z, base, n * step) then 1 else 0
  {
    if n > 0 {
      var m: nat := n - 1;
      TilesAxis(m, f, s, on, base, step, z);
      assert TurnCovers(f, s, on, base, step, z, m);
      NextRange(m, step);
    }
  }

  lemma NextRange(m: nat, step: nat)
    ensures (m + 1) * step == m * step + step && m * step >= 0
  {
  }

  lemma Once(f: nat -> seq<Slot>)
    ensures Times(1, f) == f(0)
  {
    assert Times(0, f) == [];
  }

  /** A loop one of whose turns covers s, or none. */
  lemma {:induction false} PicksTurn(n: nat, f: nat -> seq<Slot>, s: Slot, pick: int, once: bool)
    requires forall k: nat :: k < n ==> multiset(f(k))[s] == if once && k == pick then 1 else 0
    ensures multiset(Times(n, f))[s] == if once && 0 <= pick < n then 1 else 0
  {
    if n > 0 {
      PicksTurn(n - 1, f, s, pick, once);
    }
  }

  lemma CeilDivOne(d: nat)
    requires d > 0
    ensures CeilDiv(1, d) == 1 && CeilDiv(d, d) == 1
  {
  }

  // ---- what each loop covers

  /** The kernel position of c is the one of the current element. */
  predicate KernelHit(p: Shape, at: Place, c: Coord)
    requires at.Valid(p)
  {
    var ky, kx := at.element / at.SubWidth(p), at.element % at.SubWidth(p);
    ky < at.SubHeight(p) && c.y == at.subkernelY + ky && c.x == at.subkernelX + kx
  }

  predicate In(z: int, base: int, size: int) {
    base <= z < base + size
  }

  /** How many elements the innermost loop visits. */
  function IfmWidth(p: Shape): nat {
    if p.isDepthwise then 1 else p.ifmUblockDepth
  }

  lemma IfmElementsCover(p: Shape, at: Place, c: Coord)
    requires at.Valid(p) && p.Holds(c)
    ensures multiset(IfmElements(p, at))[Source(c)]
            == if c.o == at.ofmBlockZ + at.ofmUblk + at.ofmUblockZ && KernelHit(p, at, c)
                  && In(c.i, at.ifmBlockZ + (at.ifmUblkInner + at.ifmUblkOuter), IfmWidth(p)) then 1 else 0
  {
    var base := at.ifmBlockZ + (at.ifmUblkInner + at.ifmUblkOuter);
    var on := c.o == at.ofmBlockZ + at.ofmUblk + at.ofmUblockZ && KernelHit(p, at, c);
    var f := IfmElement(p, at);
    forall k: nat | k < IfmWidth(p)
      ensures TurnCovers(f, Source(c), on, base, 1, c.i, k)
    {
      assert f(k) == [SlotOf(p, at, k)];
    }
    TilesAxis(IfmWidth(p), f, Source(c), on, base, 1, c.i);
  }

  lemma OfmElementsCover(p: Shape, at: Place, c: Coord)
    requires at.Valid(p) && p.Holds(c)
    ensures multiset(OfmElements(p, at))[Source(c)]
            == if KernelHit(p, at, c) && In(c.o, at.ofmBlockZ + at.ofmUblk, p.ofmUblockDepth)
                  && In(c.i, at.ifmBlockZ + (at.ifmUblkInner + at.ifmUblkOuter), IfmWidth(p)) then 1 else 0
  {
    var base := at.ofmBlockZ + at.ofmUblk;
    var on := KernelHit(p, at, c) && In(c.i, at.ifmBlockZ + (at.ifmUblkInner + at.ifmUblkOuter), IfmWidth(p));
    var f := OfmElement(p, at);
    forall k: nat | k < p.ofmUblockDepth
      ensures TurnCovers(f, Source(c), on, base, 1, c.o, k)
    {
      IfmElementsCover(p, at.(ofmUblockZ := k), c);
    }
    TilesAxis(p.ofmUblockDepth, f, Source(c), on, base, 1, c.o);
  }

  /** The depth that the ublocks of a block, inner and outer, cover together. */
  function IfmCover(p: Shape, ifmBlockZ: nat): nat
    requires p.Valid() && ifmBlockZ < p.IfmExtent()
  {
    if p.isDepthwise then 1 else RoundUp(START.(ifmBlockZ := ifmBlockZ).IfmClip(p), p.ifmUblockDepth)
  }

  /** The output depth that the ublocks of a block cover. */
  function OfmCover(p: Shape, ofmBlockZ: nat): nat
    requires p.Valid() && ofmBlockZ < p.ofmDepth
  {
    RoundUp(START.(ofmBlockZ := ofmBlockZ).OfmClip(p), p.ofmUblockDepth)
  }

  /** The part of it that the inner loop covers. */
  function InnerCover(p: Shape, at: Place): nat
    requires at.Valid(p)
  {
    if p.isPartkernel then IfmWidth(p) else IfmCover(p, at.ifmBlockZ)
  }

  lemma IfmUblockTurn(p: Shape, at: Place, c: Coord, on: bool, k: nat)
    requires at.Valid(p) && p.Holds(c) && !p.isDepthwise
    requires on == (KernelHit(p, at, c) && In(c.o, at.ofmBlockZ + at.ofmUblk, p.ofmUblockDepth))
    ensures TurnCovers(IfmUblock(p, at), Source(c), on, at.ifmBlockZ + at.ifmUblkOuter, p.ifmUblockDepth, c.i, k)
  {
    OfmElementsCover(p, at.(ifmUblkInner := k * p.ifmUblockDepth), c);
  }

  lemma IfmUblocksTile(p: Shape, at: Place, c: Coord, on: bool, base: int)
    requires at.Valid(p) && p.Holds(c) && !p.isDepthwise && !p.isPartkernel
    requires on == (KernelHit(p, at, c) && In(c.o, at.ofmBlockZ + at.ofmUblk, p.ofmUblockDepth))
    requires base == at.ifmBlockZ + at.ifmUblkOuter
    ensures multiset(IfmUblocks(p, at))[Source(c)] == if on && In(c.i, base, InnerCover(p, at)) then 1 else 0
  {
    var f, n := IfmUblock(p, at), CeilDiv(at.IfmClip(p), p.ifmUblockDepth);
    forall k: nat | k < n ensures TurnCovers(f, Source(c), on, base, p.ifmUblockDepth, c.i, k) {
      IfmUblockTurn(p, at, c, on, k);
    }
    TilesAxis(n, f, Source(c), on, base, p.ifmUblockDepth, c.i);
  }

  lemma FirstTurn(step: nat)
    ensures 0 * step == 0
  {
  }

  lemma IfmUblocksOnce(p: Shape, at: Place)
    requires at.Valid(p) && (p.isPartkernel || p.isDepthwise)
    ensures IfmUblocks(p, at) == OfmElements(p, at.(ifmUblkInner := 0))
  {
    CeilDivOne(p.ifmUblockDepth);
    Once(IfmUblock(p, at));
    FirstTurn(p.ifmUblockDepth);
  }

  lemma SameElement(p: Shape, at: Place, z: nat, c: Coord)
    requires at.Valid(p)
    ensures KernelHit(p, at.(ifmUblkInner := z), c) == KernelHit(p, at, c)
  {
  }

  lemma IfmUblocksCover(p: Shape, at: Place, c: Coord)
    requires at.Valid(p) && p.Holds(c)
    ensures multiset(IfmUblocks(p, at))[Source(c)]
            == if KernelHit(p, at, c) && In(c.o, at.ofmBlockZ + at.ofmUblk, p.ofmUblockDepth)
                  && In(c.i, at.ifmBlockZ + at.ifmUblkOuter, InnerCover(p, at)) then 1 else 0
  {
    var on := KernelHit(p, at, c) && In(c.o, at.ofmBlockZ + at.ofmUblk, p.ofmUblockDepth);
    if p.isPartkernel || p.isDepthwise {
      IfmUblocksOnce(p, at);
      OfmElementsCover(p, at.(ifmUblkInner := 0), c);
      SameElement(p, at, 0, c);
      assert InnerCover(p, at) == IfmWidth(p);
    } else {
      IfmUblocksTile(p, at, c, on, at.ifmBlockZ + at.ifmUblkOuter);
    }
  }

  predicate InSubkernel(p: Shape, at: Place, c: Coord)
    requires at.Valid(p)
  {
    In(c.y, at.subkernelY, at.SubHeight(p)) && In(c.x, at.subkernelX, at.SubWidth(p))
  }

  lemma DivModUnique(e: nat, w: nat, ky: nat, kx: nat)
    requires w > 0 && kx < w
    ensures e / w == ky && e % w == kx <==> e == ky * w + kx
  {
    if e == ky * w + kx {
      DivUnique(e, w, ky, kx);
    }
    assert e == (e / w) * w + e % w;
  }

  /** The element that reads the kernel position of c, if it is in the current subkernel. */
  function ElementOf(p: Shape, at: Place, c: Coord): int
    requires at.Valid(p)
  {
    (c.y - at.subkernelY) * at.SubWidth(p) + (c.x - at.subkernelX)
  }

  lemma ElementInRange(p: Shape, at: Place, c: Coord)
    requires at.Valid(p) && InSubkernel(p, at, c)
    ensures 0 <= ElementOf(p, at, c) < p.SubkernelElements(at.SubWidth(p), at.SubHeight(p))
  {
    PickInRange(c.y - at.subkernelY, c.x - at.subkernelX, at.SubWidth(p), at.SubHeight(p));
  }

  /** The element that reads the kernel position of c, seen from the current subkernel. */
  lemma KernelTurn(p: Shape, at: Place, c: Coord, k: nat)
    requires at.Valid(p)
    ensures KernelHit(p, at.(element := k), c)
            <==> InSubkernel(p, at, c) && k == ElementOf(p, at, c)
  {
    var w := at.SubWidth(p);
    var at' := at.(element := k);
    assert at'.SubWidth(p) == w && at'.SubHeight(p) == at.SubHeight(p);
    assert 0 <= k % w < w && k / w >= 0;
    if InSubkernel(p, at, c) {
      DivModUnique(k, w, c.y - at.subkernelY, c.x - at.subkernelX);
    }
  }

  /** What one element covers. */
  lemma KernelElementTurn(p: Shape, at: Place, c: Coord, once: bool, pick: int, k: nat)
    requires at.Valid(p) && p.Holds(c)
    requires once == (InSubkernel(p, at, c) && In(c.o, at.ofmBlockZ + at.ofmUblk, p.ofmUblockDepth)
                      && In(c.i, at.ifmBlockZ + at.ifmUblkOuter, InnerCover(p, at)))
    requires pick == ElementOf(p, at, c)
    ensures multiset(KernelElement(p, at)(k))[Source(c)] == if once && k == pick then 1 else 0
  {
    IfmUblocksCover(p, at.(element := k), c);
    KernelTurn(p, at, c, k);
    assert InnerCover(p, at.(element := k)) == InnerCover(p, at);
  }

  lemma KernelElementsCover(p: Shape, at: Place, c: Coord)
    requires at.Valid(p) && p.Holds(c)
    ensures multiset(KernelElements(p, at))[Source(c)]
            == if InSubkernel(p, at, c) && In(c.o, at.ofmBlockZ + at.ofmUblk, p.ofmUblockDepth)
                  && In(c.i, at.ifmBlockZ + at.ifmUblkOuter, InnerCover(p, at)) then 1 else 0
  {
    var once := InSubkernel(p, at, c) && In(c.o, at.ofmBlockZ + at.ofmUblk, p.ofmUblockDepth)
                && In(c.i, at.ifmBlockZ + at.ifmUblkOuter, InnerCover(p, at));
    var pick := ElementOf(p, at, c);
    var f, n := KernelElement(p, at), p.SubkernelElements(at.SubWidth(p), at.SubHeight(p));
    forall k: nat | k < n ensures multiset(f(k))[Source(c)] == if once && k == pick then 1 else 0 {
      KernelElementTurn(p, at, c, once, pick, k);
    }
    PicksTurn(n, f, Source(c), pick, once);
    if once {
      ElementInRange(p, at, c);
    }
  }

  lemma PickInRange(ky: nat, kx: nat, w: nat, h: nat)
    requires ky < h && kx < w
    ensures 0 <= ky * w + kx < w * h
  {
    assert ky * w + w == (ky + 1) * w && (ky + 1) * w <= h * w;
  }

  lemma OfmUblockTurn(p: Shape, at: Place, c: Coord, on: bool, k: nat, z: nat)
    requires at.Valid(p) && p.Holds(c) && z == k * p.ofmUblockDepth
    requires on == (InSubkernel(p, at, c) && In(c.i, at.ifmBlockZ + at.ifmUblkOuter, InnerCover(p, at)))
    ensures multiset(OfmUblock(p, at)(k))[Source(c)] == if on
            && In(c.o, at.ofmBlockZ + z, p.ofmUblockDepth) then 1 else 0
  {
    var here := at.(ofmUblk := z);
    KernelElementsCover(p, here, c);
    assert InSubkernel(p, here, c) == InSubkernel(p, at, c) && InnerCover(p, here) == InnerCover(p, at);
  }

  lemma OfmUblocksCover(p: Shape, at: Place, c: Coord)
    requires at.Valid(p) && p.Holds(c)
    ensures multiset(OfmUblocks(p, at))[Source(c)]
            == if InSubkernel(p, at, c) && In(c.o, at.ofmBlockZ, OfmCover(p, at.ofmBlockZ))
                  && In(c.i, at.ifmBlockZ + at.ifmUblkOuter, InnerCover(p, at)) then 1 else 0
  {
    var step := p.ofmUblockDepth;
    var n, f := CeilDiv(at.OfmClip(p), step), OfmUblock(p, at);
    var on := InSubkernel(p, at, c) && In(c.i, at.ifmBlockZ + at.ifmUblkOuter, InnerCover(p, at));
    forall k: nat | k < n ensures TurnCovers(f, Source(c), on, at.ofmBlockZ, step, c.o, k) {
      OfmUblockTurn(p, at, c, on, k, k * step);
      TurnFrom(f, Source(c), on, at.ofmBlockZ, step, c.o, k, at.ofmBlockZ + k * step);
    }
    TilesAxis(n, f, Source(c), on, at.ofmBlockZ, step, c.o);
  }

  lemma IfmOuterTurn(p: Shape, at: Place, c: Coord, on: bool, k: nat, z: nat)
    requires at.Valid(p) && p.Holds(c) && !p.isDepthwise && p.isPartkernel && z == k * p.ifmUblockDepth
    requires on == (InSubkernel(p, at, c) && In(c.o, at.ofmBlockZ, OfmCover(p, at.ofmBlockZ)))
    ensures multiset(IfmOuter(p, at)(k))[Source(c)] == if on
            && In(c.i, at.ifmBlockZ + z, p.ifmUblockDepth) then 1 else 0
  {
    var here := at.(ifmUblkOuter := z);
    OfmUblocksCover(p, here, c);
    assert InSubkernel(p, here, c) == InSubkernel(p, at, c) && InnerCover(p, here) == p.ifmUblockDepth;
  }

  lemma IfmOutersOnce(p: Shape, at: Place)
    requires at.Valid(p) && (!p.isPartkernel || p.isDepthwise)
    ensures IfmOuters(p, at) == OfmUblocks(p, at.(ifmUblkOuter := 0))
    ensures InnerCover(p, at) == IfmCover(p, at.ifmBlockZ)
  {
    CeilDivOne(p.ifmUblockDepth);
    Once(IfmOuter(p, at));
    FirstTurn(p.ifmUblockDepth);
  }

  lemma IfmOutersTile(p: Shape, at: Place, c: Coord, on: bool)
    requires at.Valid(p) && p.Holds(c) && !p.isDepthwise && p.isPartkernel
    requires on == (InSubkernel(p, at, c) && In(c.o, at.ofmBlockZ, OfmCover(p, at.ofmBlockZ)))
    ensures multiset(IfmOuters(p, at))[Source(c)] == if on && In(c.i, at.ifmBlockZ, IfmCover(p, at.ifmBlockZ)) then 1
            else 0
  {
    var f, n := IfmOuter(p, at), CeilDiv(at.IfmClip(p), p.ifmUblockDepth);
    forall k: nat | k < n ensures TurnCovers(f, Source(c), on, at.ifmBlockZ, p.ifmUblockDepth, c.i, k) {
      IfmOuterTurn(p, at, c, on, k, k * p.ifmUblockDepth);
      TurnFrom(f, Source(c), on, at.ifmBlockZ, p.ifmUblockDepth, c.i, k, at.ifmBlockZ + k * p.ifmUblockDepth);
    }
    TilesAxis(n, f, Source(c), on, at.ifmBlockZ, p.ifmUblockDepth, c.i);
  }

  lemma IfmOutersCover(p: Shape, at: Place, c: Coord)
    requires at.Valid(p) && p.Holds(c)
    ensures multiset(IfmOuters(p, at))[Source(c)]
            == if InSubkernel(p, at, c) && In(c.o, at.ofmBlockZ, OfmCover(p, at.ofmBlockZ))
                  && In(c.i, at.ifmBlockZ, IfmCover(p, at.ifmBlockZ)) then 1 else 0
  {
    if !p.isPartkernel || p.isDepthwise {
      IfmOutersOnce(p, at);
      OfmUblocksCover(p, at.(ifmUblkOuter := 0), c);
    } else {
      IfmOutersTile(p, at, c, InSubkernel(p, at, c) && In(c.o, at.ofmBlockZ, OfmCover(p, at.ofmBlockZ)));
    }
  }

  /** A clipped subkernel covers what is left of its range. */
  lemma ClippedRange(z: int, from: nat, total: nat, step: nat)
    requires 0 <= z < total && from < total
    ensures In(z, from, Min(total - from, step)) == In(z, from, step)
  {
  }

  lemma SubkernelTurn(p: Shape, at: Place, c: Coord, on: bool, k: nat, x: nat)
    requires p.Valid() && p.Holds(c) && at.ofmBlockZ < p.ofmDepth && at.ifmBlockZ < p.IfmExtent()
             && at.subkernelY < p.kernelHeight
    requires on == (In(c.y, at.subkernelY, at.SubHeight(p)) && In(c.o, at.ofmBlockZ, OfmCover(p, at.ofmBlockZ))
                    && In(c.i, at.ifmBlockZ, IfmCover(p, at.ifmBlockZ)))
    requires x == k * p.decompW && x < p.kernelWidth
    ensures multiset(SubkernelAt(p, at)(k))[Source(c)] == if on && In(c.x, x, p.decompW) then 1 else 0
  {
    IfmOutersCover(p, at.(subkernelX := x), c);
    ClippedRange(c.x, x, p.kernelWidth, p.decompW);
  }

  /** Subkernels tile the kernel, whatever their size. */
  lemma RowCovers(p: Shape, at: Place, c: Coord)
    requires p.Valid() && p.Holds(c) && at.ofmBlockZ < p.ofmDepth && at.ifmBlockZ < p.IfmExtent()
             && at.subkernelY < p.kernelHeight
    ensures multiset(SubkernelRow(p, at))[Source(c)]
            == if In(c.y, at.subkernelY, at.SubHeight(p)) && In(c.o, at.ofmBlockZ, OfmCover(p, at.ofmBlockZ))
                  && In(c.i, at.ifmBlockZ, IfmCover(p, at.ifmBlockZ)) then 1 else 0
  {
    var n, f := CeilDiv(p.kernelWidth, p.decompW), SubkernelAt(p, at);
    var on := In(c.y, at.subkernelY, at.SubHeight(p)) && In(c.o, at.ofmBlockZ, OfmCover(p, at.ofmBlockZ))
              && In(c.i, at.ifmBlockZ, IfmCover(p, at.ifmBlockZ));
    forall k: nat | k < n ensures TurnCovers(f, Source(c), on, 0, p.decompW, c.x, k) {
      BlockStarts(p.kernelWidth, p.decompW, k);
      SubkernelTurn(p, at, c, on, k, k * p.decompW);
      TurnFrom(f, Source(c), on, 0, p.decompW, c.x, k, k * p.decompW);
    }
    TilesAxis(n, f, Source(c), on, 0, p.decompW, c.x);
  }

  lemma RowTurn(p: Shape, at: Place, c: Coord, on: bool, k: nat, y: nat)
    requires p.Valid() && p.Holds(c) && at.ofmBlockZ < p.ofmDepth && at.ifmBlockZ < p.IfmExtent()
    requires on == (In(c.o, at.ofmBlockZ, OfmCover(p, at.ofmBlockZ))
                    && In(c.i, at.ifmBlockZ, IfmCover(p, at.ifmBlockZ)))
    requires y == k * p.decompH && y < p.kernelHeight
    ensures multiset(RowAt(p, at)(k))[Source(c)] == if on && In(c.y, y, p.decompH) then 1 else 0
  {
    RowCovers(p, at.(subkernelY := y), c);
    ClippedRange(c.y, y, p.kernelHeight, p.decompH);
  }

  lemma KernelCovers(p: Shape, at: Place, c: Coord)
    requires p.Valid() && p.Holds(c) && at.ofmBlockZ < p.ofmDepth && at.ifmBlockZ < p.IfmExtent()
    ensures multiset(Kernel(p, at))[Source(c)]
            == if In(c.o, at.ofmBlockZ, OfmCover(p, at.ofmBlockZ))
                  && In(c.i, at.ifmBlockZ, IfmCover(p, at.ifmBlockZ)) then 1 else 0
  {
    var n, f := CeilDiv(p.kernelHeight, p.decompH), RowAt(p, at);
    var on := In(c.o, at.ofmBlockZ, OfmCover(p, at.ofmBlockZ))
              && In(c.i, at.ifmBlockZ, IfmCover(p, at.ifmBlockZ));
    forall k: nat | k < n ensures TurnCovers(f, Source(c), on, 0, p.decompH, c.y, k) {
      BlockStarts(p.kernelHeight, p.decompH, k);
      RowTurn(p, at, c, on, k, k * p.decompH);
      TurnFrom(f, Source(c), on, 0, p.decompH, c.y, k, k * p.decompH);
    }
    TilesAxis(n, f, Source(c), on, 0, p.decompH, c.y);
  }

  // ---- blocks

  lemma MultipleOf(q: nat, d: nat)
    requires d > 0
    ensures (q * d) % d == 0 && (q * d) / d == q
  {
    DivUnique(q * d, d, q, 0);
  }

  lemma {:induction false} ProductOrder(a: nat, b: nat, d: nat)
    requires a < b
    ensures a * d + d <= b * d
    decreases b
  {
    NextRange(b - 1, d);
    if a < b - 1 {
      ProductOrder(a, b - 1, d);
    }
  }

  /** Rounding up adds nothing exactly to the multiples. */
  lemma RoundUpExact(n: nat, d: nat)
    requires d > 0
    ensures RoundUp(n, d) == n <==> n % d == 0
  {
    var q, c := n / d, CeilDiv(n, d);
    MultipleOf(c, d);
    if n % d == 0 {
      assert n == q * d;
      if c < q {
        ProductOrder(c, q, d);
      } else if q < c {
        ProductOrder(q, c, d);
      }
    }
  }

  lemma RoundUpMonotonic(a: nat, b: nat, d: nat)
    requires d > 0 && a <= b
    ensures RoundUp(a, d) <= RoundUp(b, d)
  {
    var m, n := CeilDiv(a, d), CeilDiv(b, d);
    if n < m {
      ProductOrder(n, m, d);
    } else if m < n {
      ProductOrder(m, n, d);
    }
  }

  /** A depth axis: every block is covered up to a multiple of the ublock depth, and no further than the next block. */
  predicate FitsAxis(depth: nat, block: nat, ublock: nat)
    requires ublock > 0
  {
    depth <= block || block % ublock == 0
  }

  lemma FittingBlock(depth: nat, block: nat, ublock: nat, k: nat, clip: nat, z: int)
    requires block > 0 && ublock > 0 && FitsAxis(depth, block, ublock) && k * block < depth && 0 <= z < depth
    requires clip == block || clip == Min(block, depth - k * block)
    ensures In(z, k * block, RoundUp(clip, ublock)) <==> In(z, k * block, block)
  {
    if depth <= block {
      if k > 0 {
        ProductOrder(0, k, block);
      }
      assert k == 0;
    } else {
      RoundUpExact(block, ublock);
      RoundUpMonotonic(clip, block, ublock);
    }
  }

  predicate FitsIfm(p: Shape)
    requires p.Valid()
  {
    if p.isDepthwise then p.ifmDepth == 1 else FitsAxis(p.ifmDepth, p.IfmBlockDepth(), p.ifmUblockDepth)
  }

  predicate FitsOfm(p: Shape)
    requires p.Valid()
  {
    FitsAxis(p.ofmDepth, p.ofmBlockDepth, p.ofmUblockDepth)
  }

  /** What the k-th block over the input depth covers. */
  lemma IfmBlockCovers(p: Shape, at: Place, c: Coord, k: nat)
    requires p.Valid() && p.Holds(c) && at.ofmBlockZ < p.ofmDepth && k * p.IfmBlockDepth() < p.IfmExtent()
    ensures var z := k * p.IfmBlockDepth();
            multiset(IfmBlockAt(p, at)(k))[Source(c)]
            == if In(c.o, at.ofmBlockZ, OfmCover(p, at.ofmBlockZ))
                  && In(c.i, z, IfmCover(p, z)) then 1 else 0
  {
    var z: nat := k * p.IfmBlockDepth();
    KernelCovers(p, at.(ifmBlockZ := z), c);
  }

  lemma IfmBlockTurn(p: Shape, at: Place, c: Coord, on: bool, k: nat)
    requires p.Valid() && p.Holds(c) && at.ofmBlockZ < p.ofmDepth && FitsIfm(p) && k * p.IfmBlockDepth() < p.IfmExtent()
    requires on == In(c.o, at.ofmBlockZ, OfmCover(p, at.ofmBlockZ))
    ensures TurnCovers(IfmBlockAt(p, at), Source(c), on, 0, p.IfmBlockDepth(), c.i, k)
  {
    var z: nat := k * p.IfmBlockDepth();
    IfmBlockCovers(p, at, c, k);
    CoverFits(p, z, k, c.i);
    assert multiset(IfmBlockAt(p, at)(k))[Source(c)] == if on && In(c.i, z, IfmCover(p, z)) then 1 else 0;
    assert In(c.i, 0 + z, p.IfmBlockDepth()) == In(c.i, z, IfmCover(p, z));
  }

  lemma CoverFits(p: Shape, start: nat, k: nat, z: int)
    requires p.Valid() && start < p.IfmExtent() && FitsIfm(p) && start == k * p.IfmBlockDepth() && 0 <= z < p.ifmDepth
    ensures In(z, start, IfmCover(p, start)) <==> In(z, start, p.IfmBlockDepth())
  {
    if p.isDepthwise {
      if k > 0 {
        ProductOrder(0, k, p.IfmBlockDepth());
      }
    } else {
      FittingBlock(p.ifmDepth, p.IfmBlockDepth(), p.ifmUblockDepth, k, START.(ifmBlockZ := start).IfmClip(p), z);
    }
  }

  /** Block k of a covering of n starts inside it. */
  lemma BlockStarts(n: nat, d: nat, k: nat)
    requires d > 0
    ensures k < CeilDiv(n, d) <==> k * d < n
  {
    if k < CeilDiv(n, d) {
      ProductOrder(k, CeilDiv(n, d), d);
    } else if CeilDiv(n, d) < k {
      ProductOrder(CeilDiv(n, d), k, d);
    }
  }

  lemma IfmBlocksCover(p: Shape, at: Place, c: Coord)
    requires p.Valid() && p.Holds(c) && at.ofmBlockZ < p.ofmDepth && FitsIfm(p)
    ensures multiset(IfmBlocks(p, at))[Source(c)]
            == if In(c.o, at.ofmBlockZ, OfmCover(p, at.ofmBlockZ)) then 1 else 0
  {
    var n, f := CeilDiv(p.IfmExtent(), p.IfmBlockDepth()), IfmBlockAt(p, at);
    var on := In(c.o, at.ofmBlockZ, OfmCover(p, at.ofmBlockZ));
    forall k: nat | k < n ensures TurnCovers(f, Source(c), on, 0, p.IfmBlockDepth(), c.i, k) {
      BlockStarts(p.IfmExtent(), p.IfmBlockDepth(), k);
      IfmBlockTurn(p, at, c, on, k);
    }
    TilesAxis(n, f, Source(c), on, 0, p.IfmBlockDepth(), c.i);
  }

  lemma OfmBlockTurn(p: Shape, c: Coord, k: nat)
    requires p.Valid() && p.Holds(c) && FitsIfm(p) && FitsOfm(p) && k * p.ofmBlockDepth < p.ofmDepth
    ensures TurnCovers(OfmBlockAt(p), Source(c), true, 0, p.ofmBlockDepth, c.o, k)
  {
    var z: nat := k * p.ofmBlockDepth;
    var at := START.(ofmBlockZ := z);
    IfmBlocksCover(p, at, c);
    FittingBlock(p.ofmDepth, p.ofmBlockDepth, p.ofmUblockDepth, k, at.OfmClip(p), c.o);
  }

  /** Every source element is visited exactly once. */
  lemma VisitsOnce(p: Shape, c: Coord)
    requires p.Valid() && p.Holds(c) && FitsIfm(p) && FitsOfm(p)
    ensures multiset(Traversal(p))[Source(c)] == 1
  {
    var n := CeilDiv(p.ofmDepth, p.ofmBlockDepth);
    forall k: nat | k < n ensures TurnCovers(OfmBlockAt(p), Source(c), true, 0, p.ofmBlockDepth, c.o, k) {
      BlockStarts(p.ofmDepth, p.ofmBlockDepth, k);
      OfmBlockTurn(p, c, k);
    }
    TilesAxis(n, OfmBlockAt(p), Source(c), true, 0, p.ofmBlockDepth, c.o);
  }

  // ---- when depths do not fit

  lemma LastTurn(n: nat, f: nat -> seq<Slot>, s: Slot)
    requires n > 0
    ensures multiset(Times(n, f))[s] == multiset(Times(n - 1, f))[s] + multiset(f(n - 1))[s]
  {
  }

  lemma {:induction false} TurnsAdd(n: nat, f: nat -> seq<Slot>, s: Slot, j: nat, k: nat)
    requires j < k < n
    ensures multiset(Times(n, f))[s] >= multiset(f(j))[s] + multiset(f(k))[s]
  {
    LastTurn(n, f, s);
    if k < n - 1 {
      TurnsAdd(n - 1, f, s, j, k);
    } else {
      OneTurn(n - 1, f, s, j);
    }
  }

  lemma {:induction false} OneTurn(n: nat, f: nat -> seq<Slot>, s: Slot, j: nat)
    requires j < n
    ensures multiset(Times(n, f))[s] >= multiset(f(j))[s]
  {
    if j < n - 1 {
      OneTurn(n - 1, f, s, j);
    }
  }

  lemma {:induction false} NoTurn(n: nat, f: nat -> seq<Slot>, s: Slot)
    requires forall k: nat :: k < n ==> multiset(f(k))[s] == 0
    ensures multiset(Times(n, f))[s] == 0
  {
    if n > 0 {
      NoTurn(n - 1, f, s);
    }
  }

  /** Depthwise, only the first input channel is visited. */
  lemma DepthwiseMisses(p: Shape, c: Coord)
    requires p.Valid() && p.Holds(c) && p.isDepthwise && c.i >= 1
    ensures multiset(Traversal(p))[Source(c)] == 0
  {
    var n := CeilDiv(p.ofmDepth, p.ofmBlockDepth);
    forall k: nat | k < n ensures multiset(OfmBlockAt(p)(k))[Source(c)] == 0 {
      var z: nat := k * p.ofmBlockDepth;
      if z < p.ofmDepth {
        DepthwiseBlockMisses(p, START.(ofmBlockZ := z), c);
      }
    }
    NoTurn(n, OfmBlockAt(p), Source(c));
  }

  lemma DepthwiseBlockMisses(p: Shape, at: Place, c: Coord)
    requires p.Valid() && p.Holds(c) && p.isDepthwise && c.i >= 1 && at.ofmBlockZ < p.ofmDepth
    ensures multiset(IfmBlocks(p, at))[Source(c)] == 0
  {
    CeilDivOne(p.IfmBlockDepth());
    Once(IfmBlockAt(p, at));
    IfmBlockCovers(p, at, c, 0);
  }

  /** The first element behind an unfitting block is covered by that block and by its own. */
  lemma OverlapsAt(depth: nat, block: nat, ublock: nat)
    requires block > 0 && ublock > 0 && !FitsAxis(depth, block, ublock)
    ensures In(block, 0, RoundUp(block, ublock)) && 1 < CeilDiv(depth, block)
    ensures forall clip: nat :: clip >= 1 ==> In(block, block, RoundUp(clip, ublock))
  {
    RoundUpExact(block, ublock);
    BlockStarts(depth, block, 1);
  }

  lemma IfmRepeats(p: Shape, at: Place, c: Coord)
    requires p.Valid() && p.Holds(c) && at.ofmBlockZ < p.ofmDepth && !p.isDepthwise && !FitsIfm(p)
    requires c.i == p.IfmBlockDepth() && In(c.o, at.ofmBlockZ, OfmCover(p, at.ofmBlockZ))
    ensures multiset(IfmBlocks(p, at))[Source(c)] >= 2
  {
    OverlapsAt(p.ifmDepth, p.IfmBlockDepth(), p.ifmUblockDepth);
    IfmBlockCovers(p, at, c, 0);
    IfmBlockCovers(p, at, c, 1);
    TurnsAdd(CeilDiv(p.IfmExtent(), p.IfmBlockDepth()), IfmBlockAt(p, at), Source(c), 0, 1);
  }

  lemma IfmVisits(p: Shape, at: Place, c: Coord)
    requires p.Valid() && p.Holds(c) && at.ofmBlockZ < p.ofmDepth && c.i == 0
    requires In(c.o, at.ofmBlockZ, OfmCover(p, at.ofmBlockZ))
    ensures multiset(IfmBlocks(p, at))[Source(c)] >= 1
  {
    IfmBlockCovers(p, at, c, 0);
    BlockStarts(p.IfmExtent(), p.IfmBlockDepth(), 0);
    OneTurn(CeilDiv(p.IfmExtent(), p.IfmBlockDepth()), IfmBlockAt(p, at), Source(c), 0);
  }

  lemma IfmVisitedTwice(p: Shape)
    requires p.Valid() && p.ofmDepth >= 1 && p.kernelHeight >= 1 && p.kernelWidth >= 1 && !p.isDepthwise && !FitsIfm(p)
    ensures var c := Coord(0, 0, 0, p.IfmBlockDepth()); p.Holds(c) && multiset(Traversal(p))[Source(c)] >= 2
  {
    var c := Coord(0, 0, 0, p.IfmBlockDepth());
    IfmRepeats(p, START, c);
    BlockStarts(p.ofmDepth, p.ofmBlockDepth, 0);
    OneTurn(CeilDiv(p.ofmDepth, p.ofmBlockDepth), OfmBlockAt(p), Source(c), 0);
  }

  lemma OfmVisitedTwice(p: Shape)
    requires p.Valid() && p.kernelHeight >= 1 && p.kernelWidth >= 1 && p.ifmDepth >= 1 && !FitsOfm(p)
    ensures var c := Coord(p.ofmBlockDepth, 0, 0, 0); p.Holds(c) && multiset(Traversal(p))[Source(c)] >= 2
  {
    var c := Coord(p.ofmBlockDepth, 0, 0, 0);
    OverlapsAt(p.ofmDepth, p.ofmBlockDepth, p.ofmUblockDepth);
    IfmVisits(p, START, c);
    IfmVisits(p, START.(ofmBlockZ := p.ofmBlockDepth), c);
    TurnsAdd(CeilDiv(p.ofmDepth, p.ofmBlockDepth), OfmBlockAt(p), Source(c), 0, 1);
  }

  /** An element that is visited more or less than once. */
  lemma UnfitDepths(p: Shape) returns (c: Coord)
    requires p.Valid() && p.ofmDepth >= 1 && p.kernelHeight >= 1 && p.kernelWidth >= 1 && p.ifmDepth >= 1
    requires !FitsIfm(p) || !FitsOfm(p)
    ensures p.Holds(c) && multiset(Traversal(p))[Source(c)] != 1
  {
    if !FitsOfm(p) {
      c := Coord(p.ofmBlockDepth, 0, 0, 0);
      OfmVisitedTwice(p);
    } else if p.isDepthwise {
      c := Coord(0, 0, 0, 1);
      DepthwiseMisses(p, c);
    } else {
      c := Coord(0, 0, 0, p.IfmBlockDepth());
      IfmVisitedTwice(p);
    }
  }

  /**
   * Every source element is visited exactly once if and only if the ublock depths divide the block
   * depths, or one block is enough, and a depthwise input has depth one.
   */
  lemma CoversExactlyOnce(p: Shape)
    requires p.Valid() && p.ofmDepth >= 1 && p.kernelHeight >= 1 && p.kernelWidth >= 1 && p.ifmDepth >= 1
    ensures (forall c :: p.Holds(c) ==> multiset(Traversal(p))[Source(c)] == 1)
            <==> && (p.ofmDepth <= p.ofmBlockDepth || p.ofmBlockDepth % p.ofmUblockDepth == 0)
                 && if p.isDepthwise then p.ifmDepth == 1
                    else if p.isPartkernel || p.ifmBitdepth == 16 then p.ifmDepth <= 16 || 16 % p.ifmUblockDepth == 0
                    else p.ifmDepth <= 32 || 32 % p.ifmUblockDepth == 0
  {
    if FitsIfm(p) && FitsOfm(p) {
      forall c | p.Holds(c) ensures multiset(Traversal(p))[Source(c)] == 1 {
        VisitsOnce(p, c);
      }
    } else {
      var c := UnfitDepths(p);
    }
  }
}
