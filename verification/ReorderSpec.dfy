/**
 * The traversal order of weights in the compressed stream: the loop nest of the reordering as a
 * sequence of slots, each a source element or padding.
 */
module ReorderSpec {
  import opened Rounding

  /** A source element in OHWI order. */
  datatype Coord = Coord(o: int, y: int, x: int, i: int)

  datatype Slot = Source(at: Coord) | Padding

  datatype Shape = Shape(ifmUblockDepth: nat, ofmUblockDepth: nat, ofmDepth: nat, kernelHeight: nat, kernelWidth: nat,
                         ifmDepth: nat, ofmBlockDepth: nat, isDepthwise: bool, isPartkernel: bool, ifmBitdepth: nat,
                         decompH: nat, decompW: nat)
  {
    /** Every loop advances. */
    predicate Valid() {
      ifmUblockDepth > 0 && ofmUblockDepth > 0 && ofmBlockDepth > 0 && decompH > 0 && decompW > 0
    }

    predicate Holds(c: Coord) {
      0 <= c.o < ofmDepth && 0 <= c.y < kernelHeight && 0 <= c.x < kernelWidth && 0 <= c.i < ifmDepth
    }

    function IfmBlockDepth(): (d: nat)
      ensures d > 0
    {
      if isPartkernel || ifmBitdepth == 16 then 16 else 32
    }

    /** How deep the blocks go that the outer loop visits. */
    function IfmExtent(): nat {
      if isDepthwise then 1 else ifmDepth
    }

    /** The elements of a subkernel with its padding. */
    function SubkernelElements(width: nat, height: nat): (n: nat)
      ensures n >= width * height
    {
      var n := width * height;
      if isPartkernel then
        if ifmBitdepth == 16 && n % 2 != 0 then RoundUp(n, 2)
        else if ifmBitdepth == 8 && n % 4 != 0 then RoundUp(n, 4)
        else n
      else if isDepthwise then RoundUp(n, 4)
      else n
    }
  }

  /** The values of the loop variables. */
  datatype Place = Place(ofmBlockZ: nat, ifmBlockZ: nat, subkernelY: nat, subkernelX: nat, ifmUblkOuter: nat,
                         ofmUblk: nat,
                         element: nat, ifmUblkInner: nat, ofmUblockZ: nat)
  {
    function OfmClip(p: Shape): (n: nat)
      requires ofmBlockZ < p.ofmDepth
    {
      Min(p.ofmBlockDepth, p.ofmDepth - ofmBlockZ)
    }

    function IfmClip(p: Shape): (n: nat)
      requires ifmBlockZ < p.IfmExtent()
    {
      if p.isDepthwise then p.ifmUblockDepth
      else if p.isPartkernel then Min(p.IfmBlockDepth(), p.ifmDepth - ifmBlockZ)
      else p.IfmBlockDepth()
    }

    function SubWidth(p: Shape): (n: nat)
      requires p.decompW > 0 && subkernelX < p.kernelWidth
      ensures n > 0
    {
      Min(p.kernelWidth - subkernelX, p.decompW)
    }

    function SubHeight(p: Shape): (n: nat)
      requires p.decompH > 0 && subkernelY < p.kernelHeight
      ensures n > 0
    {
      Min(p.kernelHeight - subkernelY, p.decompH)
    }

    predicate Valid(p: Shape) {
      && p.Valid()
      && ofmBlockZ < p.ofmDepth && ifmBlockZ < p.IfmExtent()
      && subkernelY < p.kernelHeight && subkernelX < p.kernelWidth
    }
  }

  const START := Place(0, 0, 0, 0, 0, 0, 0, 0, 0)

  /** n turns of a loop. */
  function Times(n: nat, f: nat -> seq<Slot>): seq<Slot> {
    if n == 0 then [] else Times(n - 1, f) + f(n - 1)
  }

  /** What is fed at one place: the source element, or padding where there is none. */
  function SlotOf(p: Shape, at: Place, ifmUblockZ: nat): Slot
    requires at.Valid(p)
  {
    var ky, kx := at.element / at.SubWidth(p), at.element % at.SubWidth(p);
    var ifmZ := at.ifmBlockZ + (at.ifmUblkInner + at.ifmUblkOuter) + ifmUblockZ;
    var ofmZ := at.ofmBlockZ + at.ofmUblk + at.ofmUblockZ;
    if ifmZ < p.ifmDepth && ofmZ < p.ofmDepth && ky < at.SubHeight(p)
    then Source(Coord(ofmZ, at.subkernelY + ky, at.subkernelX + kx, ifmZ)) else Padding
  }

  // The loops, from the innermost one out. Every loop has a body function of its turn.

  function IfmElement(p: Shape, at: Place): nat -> seq<Slot>
    requires at.Valid(p)
  {
    (k: nat) => [SlotOf(p, at, k)]
  }

  function IfmElements(p: Shape, at: Place): seq<Slot>
    requires at.Valid(p)
  {
    Times(if p.isDepthwise then 1 else p.ifmUblockDepth, IfmElement(p, at))
  }

  function OfmElement(p: Shape, at: Place): nat -> seq<Slot>
    requires at.Valid(p)
  {
    (k: nat) => IfmElements(p, at.(ofmUblockZ := k))
  }

  function OfmElements(p: Shape, at: Place): seq<Slot>
    requires at.Valid(p)
  {
    Times(p.ofmUblockDepth, OfmElement(p, at))
  }

  function IfmUblock(p: Shape, at: Place): nat -> seq<Slot>
    requires at.Valid(p)
  {
    (k: nat) => OfmElements(p, at.(ifmUblkInner := k * p.ifmUblockDepth))
  }

  function IfmUblocks(p: Shape, at: Place): seq<Slot>
    requires at.Valid(p)
  {
    Times(CeilDiv(if p.isPartkernel then 1 else at.IfmClip(p), p.ifmUblockDepth), IfmUblock(p, at))
  }

  function KernelElement(p: Shape, at: Place): nat -> seq<Slot>
    requires at.Valid(p)
  {
    (k: nat) => IfmUblocks(p, at.(element := k))
  }

  function KernelElements(p: Shape, at: Place): seq<Slot>
    requires at.Valid(p)
  {
    Times(p.SubkernelElements(at.SubWidth(p), at.SubHeight(p)), KernelElement(p, at))
  }

  function OfmUblock(p: Shape, at: Place): nat -> seq<Slot>
    requires at.Valid(p)
  {
    (k: nat) => KernelElements(p, at.(ofmUblk := k * p.ofmUblockDepth))
  }

  function OfmUblocks(p: Shape, at: Place): seq<Slot>
    requires at.Valid(p)
  {
    Times(CeilDiv(at.OfmClip(p), p.ofmUblockDepth), OfmUblock(p, at))
  }

  function IfmOuter(p: Shape, at: Place): nat -> seq<Slot>
    requires at.Valid(p)
  {
    (k: nat) => OfmUblocks(p, at.(ifmUblkOuter := k * p.ifmUblockDepth))
  }

  function IfmOuters(p: Shape, at: Place): seq<Slot>
    requires at.Valid(p)
  {
    Times(CeilDiv(if p.isPartkernel then at.IfmClip(p) else 1, p.ifmUblockDepth), IfmOuter(p, at))
  }

  function SubkernelAt(p: Shape, at: Place): nat -> seq<Slot>
    requires p.Valid() && at.ofmBlockZ < p.ofmDepth && at.ifmBlockZ < p.IfmExtent() && at.subkernelY < p.kernelHeight
  {
    (k: nat) => if k * p.decompW < p.kernelWidth then IfmOuters(p, at.(subkernelX := k * p.decompW)) else []
  }

  function SubkernelRow(p: Shape, at: Place): seq<Slot>
    requires p.Valid() && at.ofmBlockZ < p.ofmDepth && at.ifmBlockZ < p.IfmExtent() && at.subkernelY < p.kernelHeight
  {
    Times(CeilDiv(p.kernelWidth, p.decompW), SubkernelAt(p, at))
  }

  function RowAt(p: Shape, at: Place): nat -> seq<Slot>
    requires p.Valid() && at.ofmBlockZ < p.ofmDepth && at.ifmBlockZ < p.IfmExtent()
  {
    (k: nat) => if k * p.decompH < p.kernelHeight then SubkernelRow(p, at.(subkernelY := k * p.decompH)) else []
  }

  function Kernel(p: Shape, at: Place): seq<Slot>
    requires p.Valid() && at.ofmBlockZ < p.ofmDepth && at.ifmBlockZ < p.IfmExtent()
  {
    Times(CeilDiv(p.kernelHeight, p.decompH), RowAt(p, at))
  }

  function IfmBlockAt(p: Shape, at: Place): nat -> seq<Slot>
    requires p.Valid() && at.ofmBlockZ < p.ofmDepth
  {
    (k: nat) => if k * p.IfmBlockDepth() < p.IfmExtent() then Kernel(p, at.(ifmBlockZ := k * p.IfmBlockDepth())) else []
  }

  function IfmBlocks(p: Shape, at: Place): seq<Slot>
    requires p.Valid() && at.ofmBlockZ < p.ofmDepth
  {
    Times(CeilDiv(p.IfmExtent(), p.IfmBlockDepth()), IfmBlockAt(p, at))
  }

  function OfmBlockAt(p: Shape): nat -> seq<Slot>
    requires p.Valid()
  {
    (k: nat) => if k * p.ofmBlockDepth < p.ofmDepth then IfmBlocks(p, START.(ofmBlockZ := k * p.ofmBlockDepth)) else []
  }

  /** The whole traversal. */
  function Traversal(p: Shape): seq<Slot>
    requires p.Valid()
  {
    Times(CeilDiv(p.ofmDepth, p.ofmBlockDepth), OfmBlockAt(p))
  }
}
