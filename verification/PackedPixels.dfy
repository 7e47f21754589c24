/** Pixel planes of an icon frame (tools/ico_format.py): several pixels to a byte,
    rows padded to 32 bits and stored bottom-up, for the palette indices and for the
    AND mask.  The encoders fill byte rows in place with `|=`; their results are
    stated by what a reader of the packed bits sees. */
module PackedPixels {
  type Byte = bv8

  /** A square picture that has already been quantised: the rows of its palette
      indices and of its alpha channel, from the top. */
  datatype Picture = Picture(size: nat, index: seq<seq<Byte>>, alpha: seq<seq<Byte>>)

  predicate IsSquare(rows: seq<seq<Byte>>, size: nat) {
    |rows| == size && forall y :: 0 <= y < size ==> |rows[y]| == size
  }

  predicate ValidPicture(p: Picture) { IsSquare(p.index, p.size) && IsSquare(p.alpha, p.size) }

  predicate ValidDepth(bpp: nat) { bpp == 1 || bpp == 2 || bpp == 4 || bpp == 8 }

  // ----- bits within a byte -----

  function Mask(bpp: Byte): Byte
    requires bpp <= 8
  {
    (1 << bpp) - 1
  }

  function Get(b: Byte, bpp: Byte, shift: Byte): Byte
    requires bpp <= 8 && shift <= 8
  {
    (b >> shift) & Mask(bpp)
  }

  predicate IsSlot(bpp: Byte, shift: Byte) {
    && shift < 8
    && (bpp == 1 || (bpp == 2 && shift & 1 == 0) || (bpp == 4 && shift & 3 == 0) || (bpp == 8 && shift == 0))
  }

  /** `|=` into an empty slot stores the value there and leaves the others alone. */
  lemma OrIntoSlot(b: Byte, v: Byte, bpp: Byte, shift: Byte, other: Byte)
    requires IsSlot(bpp, shift) && IsSlot(bpp, other)
    requires v <= Mask(bpp) && Get(b, bpp, shift) == 0
    ensures Get(b | (v << shift), bpp, shift) == v
    ensures other != shift ==> Get(b | (v << shift), bpp, other) == Get(b, bpp, other)
  {}

  /** How a depth divides a byte: its pixels, from left to right, and their shifts. */
  datatype Layout = Layout(bpp: Byte, shifts: seq<Byte>)

  ghost predicate ValidLayout(l: Layout) {
    && |l.shifts| > 0 && l.bpp <= 8
    && (forall i :: 0 <= i < |l.shifts| ==> IsSlot(l.bpp, l.shifts[i]))
    && forall i, j :: 0 <= i < j < |l.shifts| ==> l.shifts[i] != l.shifts[j]
  }

  function BitLayout(): (l: Layout)
    ensures ValidLayout(l)
  {
    Layout(1, [7, 6, 5, 4, 3, 2, 1, 0])
  }

  function CrumbLayout(): (l: Layout)
    ensures ValidLayout(l)
  {
    Layout(2, [6, 4, 2, 0])
  }

  function NibbleLayout(): (l: Layout)
    ensures ValidLayout(l)
  {
    Layout(4, [4, 0])
  }

  function LayoutOf(bpp: nat): (l: Layout)
    requires ValidDepth(bpp)
    ensures ValidLayout(l) && |l.shifts| == 8 / bpp
  {
    if bpp == 1 then BitLayout()
    else if bpp == 2 then CrumbLayout()
    else if bpp == 4 then NibbleLayout()
    else Layout(8, [0])
  }

  /** The layout's shifts are the source's `8 - bpp * (x % per_byte + 1)`. */
  lemma ShiftFormula(bpp: nat, i: nat)
    requires ValidDepth(bpp) && i < 8 / bpp
    ensures LayoutOf(bpp).shifts[i] == (8 - bpp * (i + 1)) as Byte && 0 <= 8 - bpp * (i + 1) < 8
    ensures bpp == 1 ==> (0x80 as Byte) >> i == (1 as Byte) << LayoutOf(1).shifts[i]
  {
    if bpp == 1 {
      BitShifts(i);
    } else if bpp == 2 {
      assert i == 0 || i == 1 || i == 2 || i == 3;
    } else if bpp == 4 {
      assert i == 0 || i == 1;
    }
  }

  lemma BitShifts(i: nat)
    requires i < 8
    ensures BitLayout().shifts[i] == (8 - (i + 1)) as Byte
    ensures (0x80 as Byte) >> i == (1 as Byte) << BitLayout().shifts[i]
  {
    assert i == 0 || i == 1 || i == 2 || i == 3 || i == 4 || i == 5 || i == 6 || i == 7;
  }

  // ----- rows -----

  function Stride(size: nat, bpp: nat): nat { (size * bpp + 31) / 32 * 4 }

  /** A row is padded to the next 32 bits, and no further. */
  lemma StrideFits(size: nat, bpp: nat)
    requires ValidDepth(bpp)
    ensures Stride(size, bpp) % 4 == 0
    ensures size * bpp <= Stride(size, bpp) * 8 < size * bpp + 32
    ensures size <= Stride(size, bpp) * (8 / bpp)
  {}

  predicate InRow(row: seq<Byte>, l: Layout, x: nat)
    requires ValidLayout(l)
  {
    x / |l.shifts| < |row|
  }

  /** The pixel in slot i of a byte. */
  function SlotOf(row: seq<Byte>, l: Layout, at: nat, i: nat): Byte
    requires ValidLayout(l) && at < |row| && i < |l.shifts|
  {
    Get(row[at], l.bpp, l.shifts[i])
  }

  /** A value or-ed into slot i of a byte. */
  function OrSlot(row: seq<Byte>, l: Layout, at: nat, i: nat, v: Byte): (after: seq<Byte>)
    requires ValidLayout(l) && at < |row| && i < |l.shifts|
    ensures |after| == |row|
  {
    row[at := row[at] | (v << l.shifts[i])]
  }

  /** Pixel x of a packed row. */
  function PixelOf(row: seq<Byte>, l: Layout, x: nat): Byte
    requires ValidLayout(l) && InRow(row, l, x)
  {
    SlotOf(row, l, x / |l.shifts|, x % |l.shifts|)
  }

  /** `row[x // per_byte] |= v << shift`. */
  function Store(row: seq<Byte>, l: Layout, x: nat, v: Byte): (after: seq<Byte>)
    requires ValidLayout(l) && InRow(row, l, x)
    ensures |after| == |row|
  {
    OrSlot(row, l, x / |l.shifts|, x % |l.shifts|, v)
  }

  lemma StoreAt(row: seq<Byte>, l: Layout, n: nat, v: Byte, x: nat)
    requires ValidLayout(l) && InRow(row, l, n) && InRow(row, l, x)
    requires v <= Mask(l.bpp) && PixelOf(row, l, n) == 0
    ensures PixelOf(Store(row, l, n, v), l, x) == if x == n then v else PixelOf(row, l, x)
  {
    var per := |l.shifts|;
    SamePlace(n, x, per);
    StoreIn(row, l, n / per, n % per, v, x / per, x % per);
  }

  /** The same by byte and slot. */
  lemma StoreIn(row: seq<Byte>, l: Layout, at: nat, i: nat, v: Byte, other: nat, j: nat)
    requires ValidLayout(l) && at < |row| && other < |row| && i < |l.shifts| && j < |l.shifts|
    requires v <= Mask(l.bpp) && SlotOf(row, l, at, i) == 0
    ensures
      SlotOf(OrSlot(row, l, at, i, v), l, other, j) == if at == other && i == j then v else SlotOf(row, l, other, j)
  {
    SlotsDiffer(l, i, j);
    StoreSlot(row, l.bpp, at, l.shifts[i], v, other, l.shifts[j]);
  }

  lemma SlotsDiffer(l: Layout, i: nat, j: nat)
    requires ValidLayout(l) && i < |l.shifts| && j < |l.shifts|
    ensures l.shifts[i] == l.shifts[j] <==> i == j
    ensures IsSlot(l.bpp, l.shifts[i]) && IsSlot(l.bpp, l.shifts[j])
  {}

  lemma SamePlace(n: nat, x: nat, per: nat)
    requires per > 0
    ensures n / per == x / per && n % per == x % per ==> n == x
  {
    assert n == n / per * per + n % per && x == x / per * per + x % per;
  }

  lemma StoreSlot(row: seq<Byte>, bpp: Byte, at: nat, shift: Byte, v: Byte, other: nat, otherShift: Byte)
    requires IsSlot(bpp, shift) && IsSlot(bpp, otherShift)
    requires at < |row| && other < |row|
    requires v <= Mask(bpp) && Get(row[at], bpp, shift) == 0
    ensures
      Get(row[at := row[at] | (v << shift)][other], bpp, otherShift)
      == if at == other && shift == otherShift then v else Get(row[other], bpp, otherShift)
  {
    OrIntoSlot(row[at], v, bpp, shift, otherShift);
  }

  /** The row holds the first n of the values, and nothing but zeros after them. */
  ghost predicate RowHolds(row: seq<Byte>, l: Layout, values: seq<Byte>, n: nat)
    requires ValidLayout(l) && n <= |values|
  {
    forall x: nat :: InRow(row, l, x) ==> PixelOf(row, l, x) == if x < n then values[x] else 0
  }

  lemma EmptyRow(row: seq<Byte>, l: Layout, values: seq<Byte>)
    requires ValidLayout(l) && forall i :: 0 <= i < |row| ==> row[i] == 0
    ensures RowHolds(row, l, values, 0)
  {
    forall x: nat | InRow(row, l, x)
      ensures PixelOf(row, l, x) == 0
    {
      ZeroSlot(l.bpp, l.shifts[x % |l.shifts|]);
    }
  }

  lemma ZeroSlot(bpp: Byte, shift: Byte)
    requires IsSlot(bpp, shift)
    ensures Get(0, bpp, shift) == 0
  {}

  /** One step of the inner loop: pixel n of the row receives its value. */
  lemma StorePixel(row: seq<Byte>, l: Layout, values: seq<Byte>, n: nat)
    requires ValidLayout(l) && n < |values| && values[n] <= Mask(l.bpp)
    requires InRow(row, l, n) && RowHolds(row, l, values, n)
    ensures RowHolds(Store(row, l, n, values[n]), l, values, n + 1)
  {
    var after := Store(row, l, n, values[n]);
    forall x: nat | InRow(after, l, x)
      ensures PixelOf(after, l, x) == if x < n + 1 then values[x] else 0
    {
      assert InRow(row, l, x);
      StoreAt(row, l, n, values[n], x);
    }
  }

  // ----- planes: rows bottom-up, each padded to the stride -----

  function RowAt(data: seq<Byte>, stride: nat, r: nat): seq<Byte>
    requires (r + 1) * stride <= |data|
  {
    RowBounds(r, stride);
    data[r * stride..(r + 1) * stride]
  }

  lemma RowBounds(r: nat, stride: nat)
    ensures 0 <= r * stride <= (r + 1) * stride == r * stride + stride
  {}

  lemma RowWithin(r: nat, rows: nat, stride: nat)
    requires r < rows
    ensures (r + 1) * stride <= rows * stride
  {}

  lemma AppendedRow(data: seq<Byte>, row: seq<Byte>, rows: nat, stride: nat, r: nat)
    requires |data| == rows * stride && |row| == stride && r <= rows
    ensures |data + row| == (rows + 1) * stride && (r + 1) * stride <= |data + row|
    ensures RowAt(data + row, stride, rows) == row
    ensures r < rows ==> (r + 1) * stride <= |data| && RowAt(data + row, stride, r) == RowAt(data, stride, r)
  {
    RowBounds(rows, stride);
    RowWithin(r, rows + 1, stride);
    if r < rows {
      RowWithin(r, rows, stride);
      RowBounds(r, stride);
      assert (data + row)[r * stride..(r + 1) * stride] == data[r * stride..(r + 1) * stride];
    }
  }

  /** The plane's first n rows, counted from the bottom of the picture, hold the
      pictured values and zero padding. */
  ghost predicate PlaneHolds(data: seq<Byte>, l: Layout, stride: nat, values: seq<seq<Byte>>, n: nat)
    requires ValidLayout(l) && n <= |values|
  {
    && |data| == n * stride
    && forall r :: 0 <= r < n ==>
         && (r + 1) * stride <= |data|
         && RowHolds(RowAt(data, stride, r), l, values[|values| - 1 - r], |values[|values| - 1 - r]|)
  }

  lemma PlaneGrows(data: seq<Byte>, row: seq<Byte>, l: Layout, stride: nat, values: seq<seq<Byte>>, n: nat)
    requires ValidLayout(l) && n < |values| && |row| == stride
    requires PlaneHolds(data, l, stride, values, n)
    requires RowHolds(row, l, values[|values| - 1 - n], |values[|values| - 1 - n]|)
    ensures PlaneHolds(data + row, l, stride, values, n + 1)
  {
    forall r | 0 <= r < n + 1
      ensures (r + 1) * stride <= |data + row|
      ensures RowHolds(RowAt(data + row, stride, r), l, values[|values| - 1 - r], |values[|values| - 1 - r]|)
    {
      AppendedRow(data, row, n, stride, r);
    }
    AppendedRow(data, row, n, stride, n);
  }

  /** Reading pixel (x, y) of a whole plane. */
  lemma PlanePixel(data: seq<Byte>, l: Layout, stride: nat, values: seq<seq<Byte>>, x: nat, y: nat)
    requires ValidLayout(l) && PlaneHolds(data, l, stride, values, |values|)
    requires y < |values| && x < stride * |l.shifts|
    ensures (|values| - 1 - y + 1) * stride <= |data|
    ensures
      var row := RowAt(data, stride, |values| - 1 - y);
      InRow(row, l, x) && PixelOf(row, l, x) == if x < |values[y]| then values[y][x] else 0
  {
    var row := RowAt(data, stride, |values| - 1 - y);
    RowBounds(|values| - 1 - y, stride);
    assert |row| == stride;
    QuotientBelow(x, |l.shifts|, stride);
    assert RowHolds(row, l, values[y], |values[y]|);
  }

  lemma QuotientBelow(x: nat, per: nat, stride: nat)
    requires per > 0 && x < stride * per
    ensures x / per < stride
  {}

  function MaskedRow(row: seq<Byte>, bpp: Byte): seq<Byte>
    requires bpp <= 8
  {
    seq(|row|, i requires 0 <= i < |row| => row[i] & Mask(bpp))
  }

  /** `v & (colors - 1)` for every index. */
  function Masked(rows: seq<seq<Byte>>, bpp: Byte): seq<seq<Byte>>
    requires bpp <= 8
  {
    seq(|rows|, i requires 0 <= i < |rows| => MaskedRow(rows[i], bpp))
  }

  function TransparentRow(row: seq<Byte>): seq<Byte> {
    seq(|row|, i requires 0 <= i < |row| => if row[i] < 128 then 1 else 0)
  }

  /** 1 where the alpha channel is below one half. */
  function Transparent(rows: seq<seq<Byte>>): seq<seq<Byte>> {
    seq(|rows|, i requires 0 <= i < |rows| => TransparentRow(rows[i]))
  }

  lemma MaskIsBound(v: Byte, bpp: Byte)
    requires bpp <= 8
    ensures v & Mask(bpp) <= Mask(bpp)
    ensures v <= Mask(bpp) ==> v & Mask(bpp) == v
  {}

  /** The in-place `|=` on a row under construction. */
  method OrInto(out: array<Byte>, l: Layout, x: nat, v: Byte)
    requires ValidLayout(l) && InRow(out[..], l, x)
    modifies out
    ensures out[..] == Store(old(out[..]), l, x, v)
  {
    var at := x / |l.shifts|;
    out[at] := out[at] | (v << l.shifts[x % |l.shifts|]);
  }

  method PackPixel(out: array<Byte>, l: Layout, ghost values: seq<Byte>, x: nat, v: Byte)
    requires ValidLayout(l) && InRow(out[..], l, x) && x < |values| && values[x] == v <= Mask(l.bpp)
    requires RowHolds(out[..], l, values, x)
    modifies out
    ensures RowHolds(out[..], l, values, x + 1)
  {
    StorePixel(out[..], l, values, x);
    OrInto(out, l, x, v);
  }

  method PackRow(row: seq<Byte>, bpp: nat, stride: nat) returns (packed: seq<Byte>)
    requires ValidDepth(bpp) && |row| <= stride * (8 / bpp)
    ensures |packed| == stride
    ensures RowHolds(packed, LayoutOf(bpp), MaskedRow(row, LayoutOf(bpp).bpp), |row|)
  {
    packed := PackValues(row, LayoutOf(bpp), stride);
  }

  method PackValues(row: seq<Byte>, l: Layout, stride: nat) returns (packed: seq<Byte>)
    requires ValidLayout(l) && |row| <= stride * |l.shifts|
    ensures |packed| == stride && RowHolds(packed, l, MaskedRow(row, l.bpp), |row|)
  {
    ghost var values := MaskedRow(row, l.bpp);
    var out := new Byte[stride](_ => 0);
    EmptyRow(out[..], l, values);
    var x := 0;
    while x < |row|
      invariant 0 <= x <= |row|
      invariant RowHolds(out[..], l, values, x)
    {
      MaskIsBound(row[x], l.bpp);
      QuotientBelow(x, |l.shifts|, stride);
      assert values[x] == row[x] & Mask(l.bpp);
      PackPixel(out, l, values, x, row[x] & Mask(l.bpp));
      x := x + 1;
    }
    packed := out[..];
  }

  method PackIndexed(p: Picture, bpp: nat) returns (xor: seq<Byte>)
    requires ValidPicture(p) && ValidDepth(bpp)
    ensures PlaneHolds(xor, LayoutOf(bpp), Stride(p.size, bpp), Masked(p.index, LayoutOf(bpp).bpp), p.size)
  {
    var stride := Stride(p.size, bpp);
    StrideFits(p.size, bpp);
    xor := [];
    for y := 0 to p.size
      invariant PlaneHolds(xor, LayoutOf(bpp), stride, Masked(p.index, LayoutOf(bpp).bpp), y)
    {
      var row := PackRow(p.index[p.size - 1 - y], bpp, stride);
      PlaneGrows(xor, row, LayoutOf(bpp), stride, Masked(p.index, LayoutOf(bpp).bpp), y);
      xor := xor + row;
    }
  }

  method MaskRow(alpha: seq<Byte>, stride: nat) returns (packed: seq<Byte>)
    requires |alpha| <= stride * 8
    ensures |packed| == stride
    ensures RowHolds(packed, LayoutOf(1), TransparentRow(alpha), |alpha|)
  {
    var l := LayoutOf(1);
    ghost var values := TransparentRow(alpha);
    var out := new Byte[stride](_ => 0);
    EmptyRow(out[..], l, values);
    var x := 0;
    while x < |alpha|
      invariant 0 <= x <= |alpha|
      invariant RowHolds(out[..], l, values, x)
    {
      QuotientBelow(x, |l.shifts|, stride);
      StorePixel(out[..], l, values, x);
      if alpha[x] < 128 {
        OrInto(out, l, x, 1);
      } else {
        StoreNothing(out[..], l, x);
      }
      x := x + 1;
    }
    packed := out[..];
  }

  lemma StoreNothing(row: seq<Byte>, l: Layout, x: nat)
    requires ValidLayout(l) && InRow(row, l, x)
    ensures Store(row, l, x, 0) == row
  {
    OrNothing(row[x / |l.shifts|], l.shifts[x % |l.shifts|]);
  }

  lemma OrNothing(b: Byte, shift: Byte)
    requires shift <= 8
    ensures b | ((0 as Byte) << shift) == b
  {}

  method AndMask(p: Picture) returns (mask: seq<Byte>)
    requires ValidPicture(p)
    ensures PlaneHolds(mask, LayoutOf(1), Stride(p.size, 1), Transparent(p.alpha), p.size)
  {
    var stride := Stride(p.size, 1);
    StrideFits(p.size, 1);
    mask := [];
    for y := 0 to p.size
      invariant PlaneHolds(mask, LayoutOf(1), stride, Transparent(p.alpha), y)
    {
      var row := MaskRow(p.alpha[p.size - 1 - y], stride);
      PlaneGrows(mask, row, LayoutOf(1), stride, Transparent(p.alpha), y);
      mask := mask + row;
    }
  }
}
