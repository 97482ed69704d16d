/** Addresses of feature map elements in a buffer that holds a window of rows. */
module RollingBuffer {
  import opened Bits
  import opened PoolingScale
  import opened Rounding

  datatype Format = NHWC | NHCWB16

  /** Four numbers along the axes: a shape, or a coordinate. */
  datatype Dims = Dims(n: int, y: int, x: int, c: int)

  /** A shape in storage with its format: all that addresses depend on. */
  datatype Layout = Layout(storage: Dims, format: Format, elementSize: nat, address: int, alignment: nat) {
    ghost predicate Valid() {
      storage.n >= 1 && storage.y >= 1 && storage.x >= 1 && storage.c >= 1 && elementSize >= 1 && alignment >= 1
    }

    /** Channels fill whole bricks. */
    predicate Padded() {
      format == NHCWB16 ==> storage.c % 16 == 0
    }

    function AugmentedShape(): (s: seq<int>)
      ensures |s| == 5
    {
      match format
      case NHWC => [storage.n, storage.c, storage.y, storage.x, 1]
      case NHCWB16 => [storage.n, if storage.y == 0 then 1 else storage.y, storage.x, storage.c, 1]
    }

    function AugmentedCoord(at: Dims): (s: seq<int>)
      ensures |s| == 5
    {
      match format
      case NHWC => [at.n, at.c, at.y, at.x, 0]
      case NHCWB16 => [at.n, at.c / 16, at.y, at.x, at.c % 16]
    }

    /** Bytes between neighbours along N, C (or brick), Y, X and within an element or brick. */
    function Strides(): (s: seq<int>)
      ensures |s| == 5
    {
      var e, h, w, d := elementSize, storage.y, storage.x, storage.c;
      match format
      case NHWC => [((e * d) * w) * h, e, (e * d) * w, e * d, e]
      case NHCWB16 => [((w * d) * e) * h, (16 * e) * w, (w * d) * e, 16 * e, e]
    }

    function StorageSize(): int
      requires alignment >= 1
    {
      var raw := storage.n * storage.y * storage.x * storage.c * elementSize;
      RoundUp(if raw == 0 then 1 else raw, alignment)
    }
  }

  function Quantized(shape: Dims, quantum: Dims): Dims
    requires quantum.n >= 1 && quantum.y >= 1 && quantum.x >= 1 && quantum.c >= 1
  {
    Dims(RoundUp(shape.n, quantum.n), RoundUp(shape.y, quantum.y), RoundUp(shape.x, quantum.x),
         RoundUp(shape.c, quantum.c))
  }

  /** Missing axes in front. */
  function Full(shape: seq<int>, fill: int): (d: Dims)
    requires |shape| <= 4
  {
    var s := seq(4 - |shape|, _ => fill) + shape;
    Dims(s[0], s[1], s[2], s[3])
  }

  /**
   * A feature map. A standard one is stored in the shape of its operator, rounded up to the quantum;
   * any other in a shape of its own of up to four axes.
   */
  datatype Tensor = Tensor(standard: bool, storageShape: seq<int>, quantum: Dims, format: Format, elementSize: nat,
                           address: int, alignment: nat)
  {
    ghost predicate Valid() {
      && elementSize >= 1 && alignment >= 1 && |storageShape| <= 4
      && (forall i :: 0 <= i < |storageShape| ==> storageShape[i] >= 1)
      && quantum.n >= 1 && quantum.y >= 1 && quantum.x >= 1 && quantum.c >= 1
      && (format == NHCWB16 ==> quantum.c == 16)
    }

    /** It is stored in its operator's shape. */
    predicate Follows(op: OpShape) {
      standard && op.Given?
    }

    function LayoutFor(op: OpShape): Layout
      requires Valid()
    {
      Layout(if Follows(op) then Quantized(op.shape, quantum) else Full(storageShape, 1), format, elementSize, address,
             alignment)
    }
  }

  datatype OpShape = Given(shape: Dims) | NotGiven {
    predicate Positive() {
      Given? ==> shape.n >= 1 && shape.y >= 1 && shape.x >= 1 && shape.c >= 1
    }
  }

  lemma LayoutIsValid(t: Tensor, op: OpShape)
    requires t.Valid() && op.Positive()
    ensures t.LayoutFor(op).Valid() && (t.Follows(op) ==> t.LayoutFor(op).Padded())
  {
    if t.Follows(op) && t.format == NHCWB16 {
      RoundUpBounds(op.shape.c, 16);
    }
  }

  /** The shape in storage: the operator's, each axis rounded up, or the tensor's own with ones in front. */
  lemma LayoutInNumbers(t: Tensor, op: OpShape, axis: nat)
    requires t.Valid() && op.Positive() && axis < 4
    ensures var storage := t.LayoutFor(op).storage;
            if t.standard && op.Given? then
              && storage.n == (op.shape.n + t.quantum.n - 1) / t.quantum.n * t.quantum.n
              && storage.y == (op.shape.y + t.quantum.y - 1) / t.quantum.y * t.quantum.y
              && storage.x == (op.shape.x + t.quantum.x - 1) / t.quantum.x * t.quantum.x
              && storage.c == (op.shape.c + t.quantum.c - 1) / t.quantum.c * t.quantum.c
            else
              [storage.n, storage.y, storage.x, storage.c][axis]
              == if axis + |t.storageShape| < 4 then 1 else t.storageShape[axis + |t.storageShape| - 4]
  {
  }

  /** The last axes of a coordinate, as many as the shape has; all of them for an empty shape. */
  function LastAxes(at: seq<int>, axes: nat): seq<int>
    requires axes <= |at|
  {
    if axes == 0 then at else at[|at| - axes..]
  }

  /** Every axis of the coordinate that the shape has wraps around at it. */
  function WrappedAxes(at: seq<int>, shape: seq<int>): (r: seq<int>)
    requires forall i :: 0 <= i < |shape| ==> shape[i] >= 1
    ensures |r| <= |shape|
  {
    if at == [] || shape == [] then [] else [at[0] % shape[0]] + WrappedAxes(at[1..], shape[1..])
  }

  /** The coordinate an address is computed from, when the storage has a shape of its own. */
  function StoredCoord(t: Tensor, at: Dims): Dims
    requires t.Valid()
  {
    Full(WrappedAxes(LastAxes([at.n, at.y, at.x, at.c], |t.storageShape|), t.storageShape), 0)
  }

  /** It is the coordinate wrapped around at a shape of four axes: the missing ones have one position. */
  lemma StoredIsWrapped(t: Tensor, op: OpShape, at: Dims)
    requires t.Valid() && op.Positive() && !t.Follows(op)
    ensures t.LayoutFor(op).Valid() && StoredCoord(t, at) == Wrapped(t.LayoutFor(op), at)
  {
    LayoutIsValid(t, op);
    var shape := t.storageShape;
    match |shape|
    case 0 => assert WrappedAxes([at.n, at.y, at.x, at.c], shape) == [];
    case 1 => assert WrappedAxes([at.c], shape) == [at.c % shape[0]];
    case 2 => WrappedTwo(at.x, at.c, shape);
    case 3 => WrappedThree(at.y, at.x, at.c, shape);
    case _ => WrappedFour(at.n, at.y, at.x, at.c, shape);
  }

  lemma WrappedFour(a: int, b: int, c: int, d: int, shape: seq<int>)
    requires |shape| == 4 && shape[0] >= 1 && shape[1] >= 1 && shape[2] >= 1 && shape[3] >= 1
    ensures WrappedAxes([a, b, c, d], shape) == [a % shape[0], b % shape[1], c % shape[2], d % shape[3]]
  {
    WrappedThree(b, c, d, shape[1..]);
    assert [a, b, c, d][1..] == [b, c, d];
  }

  lemma WrappedThree(a: int, b: int, c: int, shape: seq<int>)
    requires |shape| == 3 && shape[0] >= 1 && shape[1] >= 1 && shape[2] >= 1
    ensures WrappedAxes([a, b, c], shape) == [a % shape[0], b % shape[1], c % shape[2]]
  {
    WrappedTwo(b, c, shape[1..]);
    assert [a, b, c][1..] == [b, c];
  }

  lemma WrappedTwo(a: int, b: int, shape: seq<int>)
    requires |shape| == 2 && shape[0] >= 1 && shape[1] >= 1
    ensures WrappedAxes([a, b], shape) == [a % shape[0], b % shape[1]]
  {
    assert WrappedAxes([a, b][1..], shape[1..]) == [b % shape[1]];
  }

  function Dot(a: seq<int>, b: seq<int>): int
    requires |a| == |b| == 5
  {
    a[0] * b[0] + a[1] * b[1] + a[2] * b[2] + a[3] * b[3] + a[4] * b[4]
  }

  /** The strides, for each axis from those inside it. */
  method GetStrides(tensor: Tensor, op: OpShape) returns (strides: seq<int>)
    requires tensor.Valid() && op.Positive()
    ensures var s, e := tensor.LayoutFor(op).storage, tensor.elementSize;
            strides == match tensor.format
                       case NHWC => [((e * s.c) * s.x) * s.y, e, (e * s.c) * s.x, e * s.c, e]
                       case NHCWB16 => [((s.x * s.c) * e) * s.y, (16 * e) * s.x, (s.x * s.c) * e, 16 * e, e]
    ensures strides == tensor.LayoutFor(op).Strides()
  {
    LayoutIsValid(tensor, op);
    var t := tensor.LayoutFor(op);
    var augmentedShape := t.AugmentedShape();
    strides := [0, 0, 0, 0, 0];
    var stride: int := t.elementSize;
    if t.format != NHCWB16 {
      var strideOrder := [4, 1, 3, 2, 0];
      var k := 0;
      ghost var e, h, w, d := t.elementSize, t.storage.y, t.storage.x, t.storage.c;
      ghost var steps := [e, e, e * d, (e * d) * w, ((e * d) * w) * h];
      while k < 5
        invariant 0 <= k <= 5 && |strides| == 5
        invariant k < 5 ==> stride == steps[k]
        invariant forall j :: 0 <= j < k ==> strides[strideOrder[j]] == steps[j]
      {
        strides := strides[strideOrder[k] := stride];
        stride := stride * augmentedShape[strideOrder[k]];
        k := k + 1;
      }
      assert strides[strideOrder[0]] == e && strides[strideOrder[1]] == e && strides[strideOrder[2]] == e * d
             && strides[strideOrder[3]] == (e * d) * w && strides[strideOrder[4]] == ((e * d) * w) * h;
    } else {
      strides := strides[4 := stride];
      strides := strides[3 := 16 * stride];
      strides := strides[1 := strides[3] * augmentedShape[2]];
      strides := strides[2 := augmentedShape[2] * augmentedShape[3] * stride];
      strides := strides[0 := strides[2] * augmentedShape[1]];
    }
  }

  /** Positions wrap around at the storage shape. */
  function Wrapped(t: Layout, at: Dims): Dims
    requires t.Valid()
  {
    Dims(at.n % t.storage.n, at.y % t.storage.y, at.x % t.storage.x, at.c % t.storage.c)
  }

  function AddressForCoordinate(t: Layout, at: Dims): int
    requires t.Valid()
  {
    t.address + Dot(t.AugmentedCoord(Wrapped(t, at)), t.Strides())
  }

  /** The end of a box: one past its last element. */
  function TopBoxAddress(t: Layout, end: Dims): int
    requires t.Valid()
  {
    AddressForCoordinate(t, Dims(end.n - 1, end.y - 1, end.x - 1, end.c - 1)) + t.elementSize
  }

  // ---- tiles

  lemma RoundUpBounds(a: int, b: int)
    requires b >= 1
    ensures RoundUp(a, b) % b == 0
  {
    DivUnique(RoundUp(a, b), b, CeilDiv(a, b), 0);
  }

  /** Until the next multiple of b remainders count up; from there they count from zero. */
  lemma RemaindersCount(s: int, b: int, v: int)
    requires b >= 1 && s <= v
    ensures v < RoundUp(s + 1, b) ==> v % b == s % b + (v - s)
    ensures RoundUp(s + 1, b) <= v < RoundUp(s + 1, b) + b ==> v % b == v - RoundUp(s + 1, b)
  {
    var m := RoundUp(s + 1, b);
    RoundUpBounds(s + 1, b);
    var q, k := m / b, v - m;
    assert m == b * q;
    assert m - b == b * (q - 1);
    DivUnique(s, b, q - 1, s - (m - b));
    if v < m {
      DivUnique(v, b, q - 1, v - (m - b));
    } else if v < m + b {
      DivUnique(v, b, q, v - m);
    }
  }

  /** Addresses that differ in row and column only. */
  lemma AddressMoves(t: Layout, a: Dims, b: Dims)
    requires t.Valid() && a.n == b.n && a.c == b.c
    ensures AddressForCoordinate(t, b) == AddressForCoordinate(t, a)
            + (b.y % t.storage.y - a.y % t.storage.y) * t.Strides()[2]
              + (b.x % t.storage.x - a.x % t.storage.x) * t.Strides()[3]
  {
    var sy, sx := t.Strides()[2], t.Strides()[3];
    var y0, y1, x0, x1 := a.y % t.storage.y, b.y % t.storage.y, a.x % t.storage.x, b.x % t.storage.x;
    assert (y1 - y0) * sy == y1 * sy - y0 * sy && (x1 - x0) * sx == x1 * sx - x0 * sx;
  }

  /** A row and column of a box, in the first tile or from the crossing row on. */
  lemma TileReproduces(t: Layout, start: Dims, end: Dims, y: int, x: int)
    requires t.Valid() && end.y - start.y <= t.storage.y && end.x <= RoundUp(start.x + 1, t.storage.x)
    requires start.y <= y < end.y && start.x <= x < end.x
    ensures var crossing, sy, sx := CrossingRow(t, start, end), t.Strides()[2], t.Strides()[3];
            AddressForCoordinate(t, start.(y := y, x := x))
            == if y < crossing then AddressForCoordinate(t, start) + (y - start.y) * sy + (x - start.x) * sx
               else AddressForCoordinate(t, start.(y := crossing)) + (y - crossing) * sy + (x - start.x) * sx
  {
    var m := RoundUp(start.y + 1, t.storage.y);
    RoundUpBounds(start.y + 1, t.storage.y);
    RemaindersCount(start.y, t.storage.y, y);
    RemaindersCount(start.x, t.storage.x, x);
    if y < Min(m, end.y) {
      AddressMoves(t, start, start.(y := y, x := x));
    } else {
      AddressMoves(t, start.(y := m), start.(y := y, x := x));
    }
  }

  /**
   * The tile addresses with row and column strides reproduce the address of every element of the box,
   * as far as the box is no taller than the buffer.
   */
  lemma TilesReproduce(t: Layout, start: Dims, end: Dims)
    requires t.Valid() && end.y - start.y <= t.storage.y && end.x <= RoundUp(start.x + 1, t.storage.x)
    ensures Reproduces(t, TilingOf(t, start, end), start, end)
  {
    var tiles := TilingOf(t, start, end);
    forall y, x | start.y <= y < end.y && start.x <= x < end.x
      ensures TileAddress(t, tiles, start, y, x) == AddressForCoordinate(t, start.(y := y, x := x))
    {
      TileReproduces(t, start, end, y, x);
    }
  }

  datatype Tiling = Tiles(height0: int, height1: int, width: int, addresses: seq<int>) | Unsupported

  /** The first row from start on that is stored at the top of the buffer again, or the end of the box. */
  function CrossingRow(t: Layout, start: Dims, end: Dims): int
    requires t.Valid()
  {
    Min(RoundUp(start.y + 1, t.storage.y), end.y)
  }

  /** The tiles of a box: one, or a second one from the crossing row on. */
  function TilingOf(t: Layout, start: Dims, end: Dims): Tiling
    requires t.Valid()
  {
    var y := CrossingRow(t, start, end);
    if end.x > RoundUp(start.x + 1, t.storage.x) then Unsupported
    else Tiles(y - start.y, y - start.y, end.x - start.x,
               [AddressForCoordinate(t, start), 0, if end.y > y then AddressForCoordinate(t, start.(y := y)) else 0, 0])
  }

  /** The address of a row and column of a box, from its tiles and the strides. */
  function TileAddress(t: Layout, tiles: Tiling, start: Dims, y: int, x: int): int
    requires tiles.Tiles? && |tiles.addresses| == 4
  {
    var row := y - start.y;
    (if row < tiles.height0 then tiles.addresses[0] + row * t.Strides()[2]
     else tiles.addresses[2] + (row - tiles.height0) * t.Strides()[2])
    + (x - start.x) * t.Strides()[3]
  }

  /** The tiles give the address of every element of the box. */
  ghost predicate Reproduces(t: Layout, tiles: Tiling, start: Dims, end: Dims)
    requires t.Valid() && tiles.Tiles? && |tiles.addresses| == 4
  {
    forall y, x :: start.y <= y < end.y && start.x <= x < end.x ==>
      TileAddress(t, tiles, start, y, x) == AddressForCoordinate(t, start.(y := y, x := x))
  }

  /** The address of a coordinate, in a shape of its own or its operator's. */
  function AddressOf(t: Tensor, op: OpShape, at: Dims): int
    requires t.Valid() && op.Positive()
  {
    LayoutIsValid(t, op);
    var layout := t.LayoutFor(op);
    if t.Follows(op) then AddressForCoordinate(layout, at)
    else t.address + Dot(layout.AugmentedCoord(StoredCoord(t, at)), layout.Strides())
  }

  /** In either case it is the one of four axes. */
  lemma AddressIsOfLayout(t: Tensor, op: OpShape, at: Dims)
    requires t.Valid() && op.Positive()
    ensures t.LayoutFor(op).Valid() && AddressOf(t, op, at) == AddressForCoordinate(t.LayoutFor(op), at)
  {
    LayoutIsValid(t, op);
    if !t.Follows(op) {
      StoredIsWrapped(t, op, at);
    }
  }

  /**
   * The tiles of a box; a box that crosses the buffer's width is not supported. With the strides they
   * give the address of every element, as far as the box is no taller than the buffer.
   */
  method AddressesForRollingBuffer(t: Tensor, start: Dims, end: Dims, shape: Dims) returns (r: Tiling)
    requires t.Valid() && Given(shape).Positive()
    ensures t.LayoutFor(Given(shape)).Valid()
    ensures t.storageShape == [] ==>
              r == Tiles(1, 1, 1, [AddressForCoordinate(t.LayoutFor(Given(shape)), start), 0, 0, 0])
    ensures t.storageShape != [] ==>
              var layout := t.LayoutFor(Given(shape));
              var rows, crossing := layout.storage.y, Min(RoundUp(start.y + 1, layout.storage.y), end.y);
              var next := if end.y > crossing then AddressForCoordinate(layout, start.(y := crossing)) else 0;
              && (r.Unsupported? <==> end.x > RoundUp(start.x + 1, layout.storage.x))
              && (r.Tiles? ==>
                    r == Tiles(crossing - start.y, crossing - start.y, end.x - start.x,
                               [AddressForCoordinate(layout, start), 0, next, 0]))
              && (r.Tiles? && end.y - start.y <= rows ==>
                    forall y, x :: start.y <= y < end.y && start.x <= x < end.x ==>
                      AddressForCoordinate(layout, start.(y := y, x := x))
                      == (if y - start.y < r.height0 then r.addresses[0] + (y - start.y) * layout.Strides()[2]
                          else r.addresses[2] + (y - start.y - r.height0) * layout.Strides()[2])
                         + (x - start.x) * layout.Strides()[3])
  {
    LayoutIsValid(t, Given(shape));
    var first := FindAddress(t, shape, start);
    if t.storageShape == [] {
      return Tiles(1, 1, 1, [first, 0, 0, 0]);
    }
    ghost var layout := t.LayoutFor(Given(shape));
    var storage := if t.standard then Quantized(shape, t.quantum) else Full(t.storageShape, 1);
    var crossingY := RoundUp(start.y + 1, storage.y);
    var crossingX := RoundUp(start.x + 1, storage.x);
    crossingY := Min(crossingY, end.y);
    crossingX := Min(crossingX, end.x);
    var boxHeight0 := crossingY - start.y;
    var boxWidth := crossingX - start.x;
    var addresses := [0, 0, 0, 0];
    addresses := addresses[0 := first];
    if end.x > crossingX {
      var right := FindAddress(t, shape, start.(x := crossingX));
      addresses := addresses[1 := right];
      return Unsupported;
    }
    if end.y > crossingY {
      var below := FindAddress(t, shape, start.(y := crossingY));
      addresses := addresses[2 := below];
    }
    r := Tiles(boxHeight0, boxHeight0, boxWidth, addresses);
    if end.y - start.y <= layout.storage.y {
      RowsAndColumns(layout, r, start, end);
    }
  }

  lemma RowsAndColumns(t: Layout, tiles: Tiling, start: Dims, end: Dims)
    requires t.Valid() && end.y - start.y <= t.storage.y && end.x <= RoundUp(start.x + 1, t.storage.x)
    requires tiles == TilingOf(t, start, end)
    ensures forall y, x :: start.y <= y < end.y && start.x <= x < end.x ==>
              AddressForCoordinate(t, start.(y := y, x := x))
              == (if y - start.y < tiles.height0 then tiles.addresses[0] + (y - start.y) * t.Strides()[2]
                  else tiles.addresses[2] + (y - start.y - tiles.height0) * t.Strides()[2])
                 + (x - start.x) * t.Strides()[3]
  {
    TilesReproduce(t, start, end);
  }

  /** The address of a coordinate for an operator. */
  method FindAddress(t: Tensor, shape: Dims, at: Dims) returns (address: int)
    requires t.Valid() && Given(shape).Positive()
    ensures t.LayoutFor(Given(shape)).Valid()
    ensures address == AddressForCoordinate(t.LayoutFor(Given(shape)), at)
  {
    AddressIsOfLayout(t, Given(shape), at);
    address := AddressOf(t, Given(shape), at);
  }

  // ---- distinct addresses

  /** The place of an element among all elements of the buffer, counted by the innermost axis first. */
  function Index(t: Layout, at: Dims): int {
    match t.format
    case NHWC => ((at.n * t.storage.y + at.y) * t.storage.x + at.x) * t.storage.c + at.c
    case NHCWB16 =>
      (((at.n * t.storage.y + at.y) * (t.storage.c / 16) + at.c / 16) * t.storage.x + at.x) * 16 + at.c % 16
  }

  lemma PlainIndex(e: int, h: int, w: int, d: int, n: int, y: int, x: int, c: int)
    ensures n * (((e * d) * w) * h) + c * e + y * ((e * d) * w) + x * (e * d) == e * (((n * h + y) * w + x) * d + c)
  {
    var row := n * h + y;
    assert row * w * d == n * h * w * d + y * w * d;
    assert ((row * w + x) * d + c) == row * w * d + x * d + c;
    assert e * (row * w * d) == n * (((e * d) * w) * h) + y * ((e * d) * w);
  }

  lemma BrickIndex(e: int, h: int, w: int, d: int, n: int, y: int, x: int, b: int, r: int, bricks: int)
    requires d == 16 * bricks
    ensures n * (((w * d) * e) * h) + b * ((16 * e) * w) + y * ((w * d) * e) + x * (16 * e) + r * e
            == e * ((((n * h + y) * bricks + b) * w + x) * 16 + r)
  {
    var row := n * h + y;
    assert ((row * bricks + b) * w + x) * 16 == row * bricks * w * 16 + b * w * 16 + x * 16;
    assert row * bricks * w * 16 == row * (w * d);
    assert row * (w * d) == n * h * (w * d) + y * (w * d);
    assert e * (row * (w * d)) == n * (((w * d) * e) * h) + y * ((w * d) * e);
    assert e * (b * w * 16) == b * ((16 * e) * w);
  }

  /** An address is the place of its element times the element size. */
  lemma AddressIsIndex(t: Layout, at: Dims)
    requires t.Valid() && t.Padded()
    ensures AddressForCoordinate(t, at) == t.address + t.elementSize * Index(t, Wrapped(t, at))
    ensures Wrapped(t, at) == Dims(at.n % t.storage.n, at.y % t.storage.y, at.x % t.storage.x, at.c % t.storage.c)
    ensures var v, s := Wrapped(t, at), t.storage;
            Index(t, v) == match t.format
                           case NHWC => ((v.n * s.y + v.y) * s.x + v.x) * s.c + v.c
                           case NHCWB16 => (((v.n * s.y + v.y) * (s.c / 16) + v.c / 16) * s.x + v.x) * 16 + v.c % 16
  {
    var v, e, h, w, d := Wrapped(t, at), t.elementSize, t.storage.y, t.storage.x, t.storage.c;
    match t.format
    case NHWC => PlainIndex(e, h, w, d, v.n, v.y, v.x, v.c);
    case NHCWB16 => BrickIndex(e, h, w, d, v.n, v.y, v.x, v.c / 16, v.c % 16, d / 16);
  }

  /** The coordinate is inside the buffer. */
  predicate Inside(t: Layout, at: Dims) {
    0 <= at.n < t.storage.n && 0 <= at.y < t.storage.y && 0 <= at.x < t.storage.x && 0 <= at.c < t.storage.c
  }

  lemma Digits(m: int, a: int, b: int, a': int, b': int)
    requires 0 <= b < m && 0 <= b' < m && a * m + b == a' * m + b'
    ensures a == a' && b == b'
  {
    DivUnique(a * m + b, m, a, b);
    DivUnique(a' * m + b', m, a', b');
  }

  lemma DigitBounds(m: int, n: int, a: int, b: int)
    requires 0 <= b < m && 0 <= a < n
    ensures 0 <= a * m + b < n * m
  {
    TimesMonotonic(a + 1, n, m);
    TimesAdds(a, 1, m);
  }

  /** Different places have different elements. */
  lemma IndexIsInjective(t: Layout, a: Dims, b: Dims)
    requires t.Valid() && t.Padded() && Inside(t, a) && Inside(t, b) && Index(t, a) == Index(t, b)
    ensures a == b
  {
    var h, w, d := t.storage.y, t.storage.x, t.storage.c;
    var ra, rb := a.n * h + a.y, b.n * h + b.y;
    match t.format
    case NHWC =>
      Digits(d, ra * w + a.x, a.c, rb * w + b.x, b.c);
      Digits(w, ra, a.x, rb, b.x);
      Digits(h, a.n, a.y, b.n, b.y);
    case NHCWB16 =>
      var k := d / 16;
      Digits(16, (ra * k + a.c / 16) * w + a.x, a.c % 16, (rb * k + b.c / 16) * w + b.x, b.c % 16);
      Digits(w, ra * k + a.c / 16, a.x, rb * k + b.c / 16, b.x);
      Digits(k, ra, a.c / 16, rb, b.c / 16);
      Digits(h, a.n, a.y, b.n, b.y);
  }

  function Elements(t: Layout): int {
    ((t.storage.n * t.storage.y) * t.storage.x) * t.storage.c
  }

  lemma IndexInBounds(t: Layout, at: Dims)
    requires t.Valid() && t.Padded() && Inside(t, at)
    ensures 0 <= Index(t, at) < Elements(t)
  {
    var n, h, w, d := t.storage.n, t.storage.y, t.storage.x, t.storage.c;
    var row := at.n * h + at.y;
    DigitBounds(h, n, at.n, at.y);
    match t.format
    case NHWC =>
      DigitBounds(w, n * h, row, at.x);
      DigitBounds(d, (n * h) * w, row * w + at.x, at.c);
    case NHCWB16 =>
      var k := d / 16;
      DigitBounds(k, n * h, row, at.c / 16);
      DigitBounds(w, (n * h) * k, row * k + at.c / 16, at.x);
      DigitBounds(16, ((n * h) * k) * w, (row * k + at.c / 16) * w + at.x, at.c % 16);
      BrickElements(n * h, k, w, d);
  }

  lemma BrickElements(rows: int, k: int, w: int, d: int)
    requires d == 16 * k
    ensures (((rows * k) * w) * 16) == (rows * w) * d
  {
    assert (rows * k) * w == (rows * w) * k;
    assert ((rows * w) * k) * 16 == (rows * w) * (k * 16);
  }

  /** Rows of a window no taller than the buffer keep apart when they wrap around. */
  lemma WindowRows(h: int, y: int, y': int)
    requires h >= 1 && -h < y - y' < h && y % h == y' % h
    ensures y == y'
  {
    assert y == h * (y / h) + y % h && y' == h * (y' / h) + y' % h;
    assert y - y' == h * (y / h - y' / h);
    if y / h - y' / h >= 1 {
      TimesMonotonic(1, y / h - y' / h, h);
    } else if y' / h - y / h >= 1 {
      TimesMonotonic(1, y' / h - y / h, h);
    }
  }

  /** An element of the feature map, in any row. */
  predicate InMap(t: Layout, at: Dims) {
    0 <= at.n < t.storage.n && 0 <= at.x < t.storage.x && 0 <= at.c < t.storage.c
  }

  lemma WrappedInside(t: Layout, at: Dims)
    requires t.Valid() && InMap(t, at)
    ensures Inside(t, Wrapped(t, at)) && Wrapped(t, at) == Dims(at.n, at.y % t.storage.y, at.x, at.c)
  {
    DivUnique(at.n, t.storage.n, 0, at.n);
    DivUnique(at.x, t.storage.x, 0, at.x);
    DivUnique(at.c, t.storage.c, 0, at.c);
  }

  /**
   * Within any window of rows that fits the buffer, different elements are at least an element size
   * apart.
   */
  lemma WindowDistinct(t: Layout, a: Dims, b: Dims)
    requires t.Valid() && t.Padded() && InMap(t, a) && InMap(t, b) && a != b
    requires -t.storage.y < a.y - b.y < t.storage.y
    ensures AddressForCoordinate(t, a) + t.elementSize <= AddressForCoordinate(t, b)
            || AddressForCoordinate(t, b) + t.elementSize <= AddressForCoordinate(t, a)
  {
    WrappedInside(t, a);
    WrappedInside(t, b);
    AddressIsIndex(t, a);
    AddressIsIndex(t, b);
    var i, j := Index(t, Wrapped(t, a)), Index(t, Wrapped(t, b));
    if i == j {
      IndexIsInjective(t, Wrapped(t, a), Wrapped(t, b));
      WindowRows(t.storage.y, a.y, b.y);
      assert false;
    } else {
      IndexInBounds(t, Wrapped(t, a));
      IndexInBounds(t, Wrapped(t, b));
      Apart(t.elementSize, if i < j then i else j, if i < j then j else i);
    }
  }

  lemma Apart(e: nat, i: nat, j: nat)
    requires i < j
    ensures e * i + e <= e * j
  {
    TimesMonotonic(i + 1, j, e);
    TimesAdds(i, 1, e);
  }

  /** Every element lies inside the storage of the buffer. */
  lemma AddressInBounds(t: Layout, at: Dims)
    requires t.Valid() && t.Padded() && InMap(t, at)
    ensures t.StorageSize()
            == RoundUp(t.storage.n * t.storage.y * t.storage.x * t.storage.c * t.elementSize, t.alignment)
    ensures t.address <= AddressForCoordinate(t, at)
    ensures AddressForCoordinate(t, at) + t.elementSize <= t.address + t.StorageSize()
  {
    WrappedInside(t, at);
    AddressIsIndex(t, at);
    IndexInBounds(t, Wrapped(t, at));
    StorageCovers(t);
    PositiveStorage(t);
    FitsBelow(t.elementSize, Index(t, Wrapped(t, at)), Elements(t), t.StorageSize());
  }

  /** So does the end of every box that lies in the feature map. */
  lemma BoxEndsInBounds(t: Layout, end: Dims)
    requires t.Valid() && t.Padded() && InMap(t, Dims(end.n - 1, end.y - 1, end.x - 1, end.c - 1))
    ensures TopBoxAddress(t, end)
            == AddressForCoordinate(t, Dims(end.n - 1, end.y - 1, end.x - 1, end.c - 1)) + t.elementSize
    ensures t.address < TopBoxAddress(t, end) <= t.address + t.StorageSize()
  {
    AddressInBounds(t, Dims(end.n - 1, end.y - 1, end.x - 1, end.c - 1));
  }

  lemma FitsBelow(e: nat, i: nat, total: nat, size: int)
    requires i < total && e * total <= size
    ensures 0 <= e * i && e * i + e <= size
  {
    Apart(e, i, total);
  }

  lemma PositiveStorage(t: Layout)
    requires t.Valid()
    ensures t.storage.n * t.storage.y * t.storage.x * t.storage.c * t.elementSize >= 1
  {
    TimesMonotonic(1, t.storage.n, t.storage.y);
    TimesMonotonic(1, t.storage.n * t.storage.y, t.storage.x);
    TimesMonotonic(1, t.storage.n * t.storage.y * t.storage.x, t.storage.c);
    TimesMonotonic(1, t.storage.n * t.storage.y * t.storage.x * t.storage.c, t.elementSize);
  }

  lemma StorageCovers(t: Layout)
    requires t.Valid()
    ensures t.elementSize * Elements(t) <= t.StorageSize()
  {
    var raw := t.storage.n * t.storage.y * t.storage.x * t.storage.c * t.elementSize;
    assert raw == t.elementSize * Elements(t);
    RoundUpBounds(if raw == 0 then 1 else raw, t.alignment);
  }

  // ---- standard feature maps

  /** A position in a shape. */
  predicate InShape(shape: Dims, at: Dims) {
    0 <= at.n < shape.n && 0 <= at.y < shape.y && 0 <= at.x < shape.x && 0 <= at.c < shape.c
  }

  /**
   * A standard feature map holds every element of its operator's shape, inside its storage and apart
   * from the others.
   */
  lemma StandardIsStored(t: Tensor, shape: Dims, a: Dims, b: Dims)
    requires t.Valid() && t.standard && InShape(shape, a) && InShape(shape, b)
    ensures var op, size := Given(shape), t.elementSize;
            && op.Positive() && t.LayoutFor(op).Valid()
            && t.address <= AddressOf(t, op, a)
            && AddressOf(t, op, a) + size <= t.address + t.LayoutFor(op).StorageSize()
            && (a != b ==> AddressOf(t, op, a) + size <= AddressOf(t, op, b)
                           || AddressOf(t, op, b) + size <= AddressOf(t, op, a))
  {
    var op := Given(shape);
    LayoutIsValid(t, op);
    AddressInBounds(t.LayoutFor(op), a);
    if a != b {
      WindowDistinct(t.LayoutFor(op), a, b);
    }
  }

  /** A box of it needs one tile. */
  lemma StandardIsOneTile(t: Tensor, shape: Dims, start: Dims, end: Dims)
    requires t.Valid() && t.standard && InShape(shape, start) && end.y <= shape.y && end.x <= shape.x
    ensures var op := Given(shape);
            && op.Positive() && t.LayoutFor(op).Valid()
            && TilingOf(t.LayoutFor(op), start, end)
               == Tiles(end.y - start.y, end.y - start.y, end.x - start.x, [AddressOf(t, op, start), 0, 0, 0])
  {
    var layout := t.LayoutFor(Given(shape));
    LayoutIsValid(t, Given(shape));
    FirstMultiple(start.y, layout.storage.y);
    FirstMultiple(start.x, layout.storage.x);
  }

  lemma FirstMultiple(v: int, n: int)
    requires 0 <= v < n
    ensures RoundUp(v + 1, n) == n
  {
    DivUnique(v + n, n, 1, v);
  }
}
