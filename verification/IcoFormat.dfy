/** Icon files (tools/ico_format.py): palettised frames and the container with its
    directory of offsets.

    The encoders are methods in the source's own form.  What they promise is stated
    by decoders that read the finished bytes only: unpacking a frame gives back
    every index, every palette entry and every mask bit, and each directory entry
    of a container selects its own frame. */
module IcoFormat {
  import opened StableSort
  import opened PackedPixels

  /** A byte as a number, for the fields and offsets; a plane's bytes are bit vectors. */
  newtype Octet = x: int | 0 <= x < 256

  datatype Colour = Colour(r: Octet, g: Octet, b: Octet)
  datatype Result<T> = Ok(value: T) | StructError

  function Octets(s: seq<Byte>): seq<Octet> {
    seq(|s|, i requires 0 <= i < |s| => (s[i] as int) as Octet)
  }

  function Bits(s: seq<Octet>): seq<Byte> {
    seq(|s|, i requires 0 <= i < |s| => (s[i] as int) as Byte)
  }

  lemma BitsOfOctets(s: seq<Byte>)
    ensures Bits(Octets(s)) == s
  {
    forall i | 0 <= i < |s|
      ensures Bits(Octets(s))[i] == s[i]
    {
      ByteRoundTrip(s[i]);
    }
  }

  lemma ByteRoundTrip(b: Byte)
    ensures 0 <= b as int < 256 && (b as int) as Byte == b
  {}

  // ----- little-endian fields -----

  function U16(n: nat): seq<Octet>
    requires n < 0x1_0000
  {
    [(n % 256) as Octet, (n / 256) as Octet]
  }

  function U32(n: nat): seq<Octet>
    requires n < 0x1_0000_0000
  {
    [(n % 256) as Octet, (n / 256 % 256) as Octet, (n / 65536 % 256) as Octet, (n / 16777216) as Octet]
  }

  function ReadU16(s: seq<Octet>, at: nat): nat
    requires at + 2 <= |s|
  {
    s[at] as nat + 256 * s[at + 1] as nat
  }

  function ReadU32(s: seq<Octet>, at: nat): nat
    requires at + 4 <= |s|
  {
    s[at] as nat + 256 * s[at + 1] as nat + 65536 * s[at + 2] as nat + 16777216 * s[at + 3] as nat
  }

  lemma ReadU16Back(s: seq<Octet>, at: nat, n: nat)
    requires n < 0x1_0000 && at + 2 <= |s| && s[at..at + 2] == U16(n)
    ensures ReadU16(s, at) == n
  {
    assert s[at] == s[at..at + 2][0] && s[at + 1] == s[at..at + 2][1];
  }

  lemma ReadU32Back(s: seq<Octet>, at: nat, n: nat)
    requires n < 0x1_0000_0000 && at + 4 <= |s| && s[at..at + 4] == U32(n)
    ensures ReadU32(s, at) == n
  {
    assert s[at] == s[at..at + 4][0] && s[at + 1] == s[at..at + 4][1];
    assert s[at + 2] == s[at..at + 4][2] && s[at + 3] == s[at..at + 4][3];
    assert n / 65536 == n / 256 / 256 && n / 16777216 == n / 65536 / 256;
  }

  // ----- a palettised frame -----

  function Colours(bpp: nat): nat
    requires ValidDepth(bpp)
  {
    if bpp == 1 then 2 else if bpp == 2 then 4 else if bpp == 4 then 16 else 256
  }

  /** BITMAPINFOHEADER; `biHeight` counts both planes. */
  function Header(size: nat, bpp: nat, imageBytes: nat): seq<Octet>
    requires size * 2 < 0x8000_0000 && bpp < 0x1_0000 && imageBytes < 0x1_0000_0000
  {
    U32(40) + U32(size) + U32(size * 2) + U16(1) + U16(bpp) + U32(0) + U32(imageBytes)
    + U32(0) + U32(0) + U32(0) + U32(0)
  }

  predicate HeaderFields(h: seq<Octet>, size: nat, bpp: nat, imageBytes: nat) {
    && |h| >= 40
    && ReadU32(h, 0) == 40 && ReadU32(h, 4) == size && ReadU32(h, 8) == 2 * size
    && ReadU16(h, 12) == 1 && ReadU16(h, 14) == bpp && ReadU32(h, 16) == 0 && ReadU32(h, 20) == imageBytes
    && ReadU32(h, 24) == 0 && ReadU32(h, 28) == 0 && ReadU32(h, 32) == 0 && ReadU32(h, 36) == 0
  }

  lemma HeaderReadsBack(size: nat, bpp: nat, imageBytes: nat)
    requires size * 2 < 0x8000_0000 && bpp < 0x1_0000 && imageBytes < 0x1_0000_0000
    ensures var h := Header(size, bpp, imageBytes); |h| == 40 && HeaderFields(h, size, bpp, imageBytes)
  {
    var h := Header(size, bpp, imageBytes);
    assert h[0..4] == U32(40) && h[4..8] == U32(size) && h[8..12] == U32(size * 2);
    assert h[12..14] == U16(1) && h[14..16] == U16(bpp) && h[20..24] == U32(imageBytes);
    ReadU32Back(h, 0, 40);
    ReadU32Back(h, 4, size);
    ReadU32Back(h, 8, size * 2);
    ReadU16Back(h, 12, 1);
    ReadU16Back(h, 14, bpp);
    ReadU32Back(h, 20, imageBytes);
    HeaderZeros(size, bpp, imageBytes);
  }

  /** No compression, no resolution, and no colour counts. */
  lemma HeaderZeros(size: nat, bpp: nat, imageBytes: nat)
    requires size * 2 < 0x8000_0000 && bpp < 0x1_0000 && imageBytes < 0x1_0000_0000
    ensures
      var h := Header(size, bpp, imageBytes);
      && |h| == 40 && ReadU32(h, 16) == 0
      && ReadU32(h, 24) == 0 && ReadU32(h, 28) == 0 && ReadU32(h, 32) == 0 && ReadU32(h, 36) == 0
  {
    var h := Header(size, bpp, imageBytes);
    assert h[16..20] == U32(0) && h[24..28] == U32(0) && h[28..32] == U32(0);
    assert h[32..36] == U32(0) && h[36..40] == U32(0);
    ReadU32Back(h, 16, 0);
    ReadU32Back(h, 24, 0);
    ReadU32Back(h, 28, 0);
    ReadU32Back(h, 32, 0);
    ReadU32Back(h, 36, 0);
  }

  lemma HeaderInBlob(h: seq<Octet>, rest: seq<Octet>, size: nat, bpp: nat, imageBytes: nat)
    requires |h| == 40 && HeaderFields(h, size, bpp, imageBytes)
    ensures HeaderFields(h + rest, size, bpp, imageBytes)
  {}

  /** Entry i of the colour table; entries past the palette are black. */
  function TableEntry(palette: seq<Colour>, i: nat): Colour {
    if i < |palette| then palette[i] else Colour(0, 0, 0)
  }

  /** From `start` on, the bytes list the first n table entries as BGR0. */
  ghost predicate TableHolds(data: seq<Octet>, start: nat, palette: seq<Colour>, n: nat) {
    start + 4 * n <= |data|
    && forall i :: 0 <= i < n ==> EntryIs(data, start + 4 * i, TableEntry(palette, i))
  }

  predicate EntryIs(data: seq<Octet>, at: nat, c: Colour)
    requires at + 4 <= |data|
  {
    data[at] == c.b && data[at + 1] == c.g && data[at + 2] == c.r && data[at + 3] == 0
  }

  method ColourTable(palette: seq<Colour>, bpp: nat) returns (table: seq<Octet>)
    requires ValidDepth(bpp)
    ensures |table| == 4 * Colours(bpp) && TableHolds(table, 0, palette, Colours(bpp))
  {
    table := [];
    for i := 0 to Colours(bpp)
      invariant |table| == 4 * i && TableHolds(table, 0, palette, i)
    {
      var c := TableEntry(palette, i);
      table := table + [c.b, c.g, c.r, 0];
    }
  }

  function XorStart(bpp: nat): nat
    requires ValidDepth(bpp)
  {
    40 + 4 * Colours(bpp)
  }

  function MaskStart(size: nat, bpp: nat): nat
    requires ValidDepth(bpp)
  {
    XorStart(bpp) + size * Stride(size, bpp)
  }

  function FrameLength(size: nat, bpp: nat): nat
    requires ValidDepth(bpp)
  {
    MaskStart(size, bpp) + size * Stride(size, 1)
  }

  /** Pixel (x, y) of the plane that starts at `start`: what a reader of the
      finished bytes sees. */
  function ReadPlane(blob: seq<Octet>, start: nat, bpp: nat, size: nat, x: nat, y: nat): Byte
    requires ValidDepth(bpp) && y < size && x < Stride(size, bpp) * (8 / bpp)
    requires start + size * Stride(size, bpp) <= |blob|
  {
    var stride := Stride(size, bpp);
    RowWithin(size - 1 - y, size, stride);
    QuotientBelow(x, 8 / bpp, stride);
    RowBounds(size - 1 - y, stride);
    PixelOf(RowAt(Bits(blob[start..start + size * stride]), stride, size - 1 - y), LayoutOf(bpp), x)
  }

  lemma PlaneInBlob(front: seq<Octet>, data: seq<Byte>, back: seq<Octet>, bpp: nat,
                    values: seq<seq<Byte>>, x: nat, y: nat)
    requires ValidDepth(bpp) && y < |values| && x < Stride(|values|, bpp) * (8 / bpp)
    requires PlaneHolds(data, LayoutOf(bpp), Stride(|values|, bpp), values, |values|)
    ensures |data| == |values| * Stride(|values|, bpp)
    ensures
      ReadPlane(front + Octets(data) + back, |front|, bpp, |values|, x, y)
      == if x < |values[y]| then values[y][x] else 0
  {
    PlanePixel(data, LayoutOf(bpp), Stride(|values|, bpp), values, x, y);
    assert (front + Octets(data) + back)[|front|..|front| + |data|] == Octets(data);
    BitsOfOctets(data);
  }

  ghost predicate PlaneShows(blob: seq<Octet>, start: nat, bpp: nat, values: seq<seq<Byte>>)
    requires ValidDepth(bpp)
  {
    && start + |values| * Stride(|values|, bpp) <= |blob|
    && forall y: nat, x: nat :: y < |values| && x < Stride(|values|, bpp) * (8 / bpp) ==>
      ReadPlane(blob, start, bpp, |values|, x, y) == if x < |values[y]| then values[y][x] else 0
  }

  /** The finished frame reads back as the picture it was made from: its size and
      depth, every palette entry, every index (as many bits as the depth keeps),
      every transparency bit, and zeros in all padding. */
  ghost predicate FrameShows(blob: seq<Octet>, p: Picture, bpp: nat, palette: seq<Colour>)
    requires ValidPicture(p) && ValidDepth(bpp)
  {
    && |blob| == FrameLength(p.size, bpp)
    && HeaderFields(blob, p.size, bpp, |blob| - XorStart(bpp))
    && TableHolds(blob, 40, palette, Colours(bpp))
    && PlaneShows(blob, XorStart(bpp), bpp, Masked(p.index, LayoutOf(bpp).bpp))
    && PlaneShows(blob, MaskStart(p.size, bpp), 1, Transparent(p.alpha))
  }

  /** `struct.pack` raises exactly when a field does not fit its 32 bits. */
  predicate FrameFits(size: nat, bpp: nat)
    requires ValidDepth(bpp)
  {
    size * 2 < 0x8000_0000 && FrameLength(size, bpp) - XorStart(bpp) < 0x1_0000_0000
  }

  method DibFrameIndexed(p: Picture, bpp: nat, palette: seq<Colour>) returns (frame: Result<seq<Octet>>)
    requires ValidPicture(p) && ValidDepth(bpp)
    ensures frame.Ok? <==> FrameFits(p.size, bpp)
    ensures frame.Ok? ==> FrameShows(frame.value, p, bpp, palette)
  {
    var table := ColourTable(palette, bpp);
    var xor := PackIndexed(p, bpp);
    var mask := AndMask(p);
    PlaneLengths(p, bpp, xor, mask);
    if p.size * 2 >= 0x8000_0000 || |xor| + |mask| >= 0x1_0000_0000 {
      return StructError;
    }
    var header := Header(p.size, bpp, |xor| + |mask|);
    HeaderReadsBack(p.size, bpp, |xor| + |mask|);
    FrameReadsBack(p, bpp, palette, header, table, xor, mask);
    frame := Ok(header + table + Octets(xor) + Octets(mask));
  }

  /** The frame fits exactly when its size and the two planes do. */
  lemma PlaneLengths(p: Picture, bpp: nat, xor: seq<Byte>, mask: seq<Byte>)
    requires ValidPicture(p) && ValidDepth(bpp)
    requires PlaneHolds(xor, LayoutOf(bpp), Stride(p.size, bpp), Masked(p.index, LayoutOf(bpp).bpp), p.size)
    requires PlaneHolds(mask, LayoutOf(1), Stride(p.size, 1), Transparent(p.alpha), p.size)
    ensures FrameFits(p.size, bpp) <==> p.size * 2 < 0x8000_0000 && |xor| + |mask| < 0x1_0000_0000
  {}

  lemma PlaneShowsInBlob(front: seq<Octet>, data: seq<Byte>, back: seq<Octet>, bpp: nat, values: seq<seq<Byte>>)
    requires ValidDepth(bpp) && PlaneHolds(data, LayoutOf(bpp), Stride(|values|, bpp), values, |values|)
    ensures PlaneShows(front + Octets(data) + back, |front|, bpp, values)
  {
    forall y: nat, x: nat | y < |values| && x < Stride(|values|, bpp) * (8 / bpp)
      ensures ReadPlane(front + Octets(data) + back, |front|, bpp, |values|, x, y)
              == if x < |values[y]| then values[y][x] else 0
    {
      PlaneInBlob(front, data, back, bpp, values, x, y);
    }
  }

  lemma FrameReadsBack(p: Picture, bpp: nat, palette: seq<Colour>, header: seq<Octet>, table: seq<Octet>,
                       xor: seq<Byte>, mask: seq<Byte>)
    requires ValidPicture(p) && ValidDepth(bpp)
    requires |header| == 40 && HeaderFields(header, p.size, bpp, |xor| + |mask|)
    requires |table| == 4 * Colours(bpp) && TableHolds(table, 0, palette, Colours(bpp))
    requires PlaneHolds(xor, LayoutOf(bpp), Stride(p.size, bpp), Masked(p.index, LayoutOf(bpp).bpp), p.size)
    requires PlaneHolds(mask, LayoutOf(1), Stride(p.size, 1), Transparent(p.alpha), p.size)
    ensures FrameShows(header + table + Octets(xor) + Octets(mask), p, bpp, palette)
  {
    var (xors, masks) := (Octets(xor), Octets(mask));
    FrameLengths(p, bpp, xor, mask);
    FrontShows(header, table, xors + masks, p.size, bpp, |xor| + |mask|, palette);
    assert header + table + xors + masks == header + table + (xors + masks);
    PlanesShow(header + table, p, bpp, xor, mask);
  }

  /** The header and the colour table before whatever comes behind them. */
  lemma FrontShows(header: seq<Octet>, table: seq<Octet>, rest: seq<Octet>, size: nat, bpp: nat, imageBytes: nat,
                   palette: seq<Colour>)
    requires ValidDepth(bpp) && |header| == 40 && HeaderFields(header, size, bpp, imageBytes)
    requires |table| == 4 * Colours(bpp) && TableHolds(table, 0, palette, Colours(bpp))
    ensures HeaderFields(header + table + rest, size, bpp, imageBytes)
    ensures TableHolds(header + table + rest, 40, palette, Colours(bpp))
  {
    assert header + table + rest == header + (table + rest);
    HeaderInBlob(header, table + rest, size, bpp, imageBytes);
    TableInBlob(header, table, rest, palette, Colours(bpp));
  }

  /** The two planes behind what comes before them. */
  lemma PlanesShow(front: seq<Octet>, p: Picture, bpp: nat, xor: seq<Byte>, mask: seq<Byte>)
    requires ValidPicture(p) && ValidDepth(bpp)
    requires PlaneHolds(xor, LayoutOf(bpp), Stride(p.size, bpp), Masked(p.index, LayoutOf(bpp).bpp), p.size)
    requires PlaneHolds(mask, LayoutOf(1), Stride(p.size, 1), Transparent(p.alpha), p.size)
    ensures
      var blob := front + Octets(xor) + Octets(mask);
      && PlaneShows(blob, |front|, bpp, Masked(p.index, LayoutOf(bpp).bpp))
      && PlaneShows(blob, |front| + |xor|, 1, Transparent(p.alpha))
  {
    PlaneShowsInBlob(front, xor, Octets(mask), bpp, Masked(p.index, LayoutOf(bpp).bpp));
    PlaneShowsInBlob(front + Octets(xor), mask, [], 1, Transparent(p.alpha));
    assert front + Octets(xor) + Octets(mask) + [] == front + Octets(xor) + Octets(mask);
  }

  /** Where the planes start and where the frame ends. */
  lemma FrameLengths(p: Picture, bpp: nat, xor: seq<Byte>, mask: seq<Byte>)
    requires ValidPicture(p) && ValidDepth(bpp)
    requires PlaneHolds(xor, LayoutOf(bpp), Stride(p.size, bpp), Masked(p.index, LayoutOf(bpp).bpp), p.size)
    requires PlaneHolds(mask, LayoutOf(1), Stride(p.size, 1), Transparent(p.alpha), p.size)
    ensures 40 + 4 * Colours(bpp) == XorStart(bpp) && XorStart(bpp) + |xor| == MaskStart(p.size, bpp)
    ensures MaskStart(p.size, bpp) + |mask| == FrameLength(p.size, bpp)
  {}

  lemma TableInBlob(front: seq<Octet>, table: seq<Octet>, back: seq<Octet>, palette: seq<Colour>, n: nat)
    requires TableHolds(table, 0, palette, n)
    ensures TableHolds(front + table + back, |front|, palette, n)
  {
    forall i | 0 <= i < n
      ensures EntryIs(front + table + back, |front| + 4 * i, TableEntry(palette, i))
    {
      assert EntryIs(table, 0 + 4 * i, TableEntry(palette, i));
    }
  }

  lemma ShownPixel(blob: seq<Octet>, start: nat, bpp: nat, values: seq<seq<Byte>>, x: nat, y: nat)
    requires ValidDepth(bpp) && PlaneShows(blob, start, bpp, values)
    requires y < |values| && x < |values[y]| && x < Stride(|values|, bpp) * (8 / bpp)
    ensures ReadPlane(blob, start, bpp, |values|, x, y) == values[y][x]
  {}

  /** When every index has a colour at this depth, a reader gets exactly the index
      back, and the mask bit tells exactly which pixels are transparent. */
  lemma FrameRoundTrip(blob: seq<Octet>, p: Picture, bpp: nat, palette: seq<Colour>, x: nat, y: nat)
    requires ValidPicture(p) && ValidDepth(bpp) && FrameShows(blob, p, bpp, palette)
    requires x < p.size && y < p.size
    ensures x < Stride(p.size, bpp) * (8 / bpp) && x < Stride(p.size, 1) * 8
    ensures
      p.index[y][x] <= Mask(LayoutOf(bpp).bpp)
      <==> ReadPlane(blob, XorStart(bpp), bpp, p.size, x, y) == p.index[y][x]
    ensures ReadPlane(blob, MaskStart(p.size, bpp), 1, p.size, x, y) == 1 <==> p.alpha[y][x] < 128
  {
    StrideFits(p.size, bpp);
    StrideFits(p.size, 1);
    IndexRoundTrip(blob, XorStart(bpp), p, bpp, x, y);
    MaskRoundTrip(blob, MaskStart(p.size, bpp), p, x, y);
  }

  lemma IndexRoundTrip(blob: seq<Octet>, start: nat, p: Picture, bpp: nat, x: nat, y: nat)
    requires ValidPicture(p) && ValidDepth(bpp) && x < p.size && y < p.size && x < Stride(p.size, bpp) * (8 / bpp)
    requires PlaneShows(blob, start, bpp, Masked(p.index, LayoutOf(bpp).bpp))
    ensures p.index[y][x] <= Mask(LayoutOf(bpp).bpp) <==> ReadPlane(blob, start, bpp, p.size, x, y) == p.index[y][x]
  {
    MaskIsBound(p.index[y][x], LayoutOf(bpp).bpp);
    ShownPixel(blob, start, bpp, Masked(p.index, LayoutOf(bpp).bpp), x, y);
  }

  lemma MaskRoundTrip(blob: seq<Octet>, start: nat, p: Picture, x: nat, y: nat)
    requires ValidPicture(p) && x < p.size && y < p.size && x < Stride(p.size, 1) * 8
    requires PlaneShows(blob, start, 1, Transparent(p.alpha))
    ensures ReadPlane(blob, start, 1, p.size, x, y) == 1 <==> p.alpha[y][x] < 128
  {
    ShownPixel(blob, start, 1, Transparent(p.alpha), x, y);
  }

  // ----- the container -----

  datatype Frame = Frame(size: nat, blob: seq<Octet>)

  function BySize(): (Frame, Frame) -> bool { (a: Frame, b: Frame) => a.size <= b.size }

  function SortedFrames(frames: seq<Frame>): seq<Frame> { Sort(BySize(), frames) }

  /** The position of frame i's bytes, after the directory of n entries. */
  function BlobStart(frames: seq<Frame>, n: nat, i: nat): nat
    requires i <= |frames|
  {
    if i == 0 then 6 + 16 * n else BlobStart(frames, n, i - 1) + |frames[i - 1].blob|
  }

  /** `bColorCount`: 0 for depths without a palette, else 1 << bpp. */
  function ColourCount(bpp: nat): Octet {
    if bpp >= 8 then 0 else [1, 2, 4, 8, 16, 32, 64, 128][bpp]
  }

  /** `bWidth` and `bHeight`: 0 stands for 256. */
  function Dimension(size: nat): Octet { if size >= 256 then 0 else size as Octet }

  /** One directory entry, as a reader of the file sees it. */
  ghost predicate EntryShows(file: seq<Octet>, at: nat, f: Frame, bpp: nat, offset: nat) {
    && at + 16 <= |file|
    && file[at] == Dimension(f.size) && file[at + 1] == Dimension(f.size)
    && file[at + 2] == ColourCount(bpp) && file[at + 3] == 0
    && ReadU16(file, at + 4) == 1 && ReadU16(file, at + 6) == bpp
    && ReadU32(file, at + 8) == |f.blob| && ReadU32(file, at + 12) == offset
  }

  /** The fields that `struct.pack` must fit into 16 and 32 bits. */
  predicate EntryFits(f: Frame, bpp: nat, offset: nat) {
    bpp < 0x1_0000 && |f.blob| < 0x1_0000_0000 && offset < 0x1_0000_0000
  }

  ghost predicate ContainerFits(frames: seq<Frame>, bpp: nat) {
    && |frames| < 0x1_0000
    && forall i :: 0 <= i < |frames| ==> EntryFits(frames[i], bpp, BlobStart(frames, |frames|, i))
  }

  predicate HeadShows(file: seq<Octet>, n: nat) {
    |file| >= 6 && ReadU16(file, 0) == 0 && ReadU16(file, 2) == 1 && ReadU16(file, 4) == n
  }

  ghost predicate DirectoryShows(file: seq<Octet>, frames: seq<Frame>, bpp: nat, n: nat)
    requires n <= |frames|
  {
    && 6 + 16 * n <= |file|
    && HeadShows(file, |frames|)
    && forall i :: 0 <= i < n ==> EntryShows(file, 6 + 16 * i, frames[i], bpp, BlobStart(frames, |frames|, i))
  }

  predicate SliceIs(file: seq<Octet>, at: nat, blob: seq<Octet>) {
    at + |blob| <= |file| && file[at..at + |blob|] == blob
  }

  /** Frame i's bytes lie where its directory entry says. */
  ghost predicate BlobAt(file: seq<Octet>, frames: seq<Frame>, i: nat)
    requires i < |frames|
  {
    SliceIs(file, BlobStart(frames, |frames|, i), frames[i].blob)
  }

  /** The container lists the frames by size and its directory selects each of them:
      offsets start right after the directory, every blob ends where the next one
      begins, and the last one ends the file. */
  ghost predicate ContainerShows(file: seq<Octet>, frames: seq<Frame>, bpp: nat) {
    && DirectoryShows(file, frames, bpp, |frames|)
    && |file| == BlobStart(frames, |frames|, |frames|)
    && forall i :: 0 <= i < |frames| ==> BlobAt(file, frames, i)
  }

  function Entry(f: Frame, bpp: nat, offset: nat): seq<Octet>
    requires EntryFits(f, bpp, offset)
  {
    [Dimension(f.size), Dimension(f.size), ColourCount(bpp), 0] + U16(1) + U16(bpp) + U32(|f.blob|) + U32(offset)
  }

  lemma EntryReadsBack(front: seq<Octet>, f: Frame, bpp: nat, offset: nat)
    requires EntryFits(f, bpp, offset)
    ensures |Entry(f, bpp, offset)| == 16
    ensures EntryShows(front + Entry(f, bpp, offset), |front|, f, bpp, offset)
  {
    var file := front + Entry(f, bpp, offset);
    var at := |front|;
    assert file[at + 4..at + 6] == U16(1) && file[at + 6..at + 8] == U16(bpp);
    assert file[at + 8..at + 12] == U32(|f.blob|) && file[at + 12..at + 16] == U32(offset);
    ReadU16Back(file, at + 4, 1);
    ReadU16Back(file, at + 6, bpp);
    ReadU32Back(file, at + 8, |f.blob|);
    ReadU32Back(file, at + 12, offset);
  }

  lemma EntryPrefix(file: seq<Octet>, rest: seq<Octet>, at: nat, f: Frame, bpp: nat, offset: nat)
    requires EntryShows(file, at, f, bpp, offset)
    ensures EntryShows(file + rest, at, f, bpp, offset)
  {}

  lemma HeadPrefix(file: seq<Octet>, rest: seq<Octet>, n: nat)
    requires HeadShows(file, n)
    ensures HeadShows(file + rest, n)
  {}

  lemma DirectoryPrefix(file: seq<Octet>, rest: seq<Octet>, frames: seq<Frame>, bpp: nat, n: nat)
    requires n <= |frames| && DirectoryShows(file, frames, bpp, n)
    ensures DirectoryShows(file + rest, frames, bpp, n)
  {
    HeadPrefix(file, rest, |frames|);
    forall i | 0 <= i < n
      ensures EntryShows(file + rest, 6 + 16 * i, frames[i], bpp, BlobStart(frames, |frames|, i))
    {
      EntryPrefix(file, rest, 6 + 16 * i, frames[i], bpp, BlobStart(frames, |frames|, i));
    }
  }

  lemma SlicePrefix(file: seq<Octet>, rest: seq<Octet>, at: nat, blob: seq<Octet>)
    requires SliceIs(file, at, blob)
    ensures SliceIs(file + rest, at, blob)
  {
    assert (file + rest)[at..at + |blob|] == file[at..at + |blob|];
  }

  lemma SliceAtEnd(file: seq<Octet>, blob: seq<Octet>)
    ensures SliceIs(file + blob, |file|, blob)
  {}

  lemma EmptyDirectory(frames: seq<Frame>, bpp: nat)
    requires |frames| < 0x1_0000
    ensures DirectoryShows(U16(0) + U16(1) + U16(|frames|), frames, bpp, 0)
  {
    var out := U16(0) + U16(1) + U16(|frames|);
    assert out[0..2] == U16(0) && out[2..4] == U16(1) && out[4..6] == U16(|frames|);
    ReadU16Back(out, 0, 0);
    ReadU16Back(out, 2, 1);
    ReadU16Back(out, 4, |frames|);
  }

  lemma DirectoryGrows(out: seq<Octet>, frames: seq<Frame>, bpp: nat, n: nat)
    requires n < |frames| && |out| == 6 + 16 * n && DirectoryShows(out, frames, bpp, n)
    requires EntryFits(frames[n], bpp, BlobStart(frames, |frames|, n))
    ensures
      var entry := Entry(frames[n], bpp, BlobStart(frames, |frames|, n));
      |out + entry| == 6 + 16 * (n + 1) && DirectoryShows(out + entry, frames, bpp, n + 1)
  {
    var offset := BlobStart(frames, |frames|, n);
    EntryReadsBack(out, frames[n], bpp, offset);
    AppendEntry(out, Entry(frames[n], bpp, offset), frames, bpp, n);
  }

  lemma AppendEntry(out: seq<Octet>, entry: seq<Octet>, frames: seq<Frame>, bpp: nat, n: nat)
    requires n < |frames| && |out| == 6 + 16 * n && DirectoryShows(out, frames, bpp, n)
    requires |entry| == 16
    requires EntryShows(out + entry, |out|, frames[n], bpp, BlobStart(frames, |frames|, n))
    ensures DirectoryShows(out + entry, frames, bpp, n + 1)
  {
    DirectoryPrefix(out, entry, frames, bpp, n);
    forall i | 0 <= i < n + 1
      ensures EntryShows(out + entry, 6 + 16 * i, frames[i], bpp, BlobStart(frames, |frames|, i))
    {
      if i == n { assert 6 + 16 * i == |out|; }
    }
  }

  method Directory(frames: seq<Frame>, bpp: nat) returns (dir: Result<seq<Octet>>)
    ensures dir.Ok? <==> ContainerFits(frames, bpp)
    ensures dir.Ok? ==> |dir.value| == 6 + 16 * |frames| && DirectoryShows(dir.value, frames, bpp, |frames|)
  {
    if |frames| >= 0x1_0000 {
      return StructError;
    }
    var out := U16(0) + U16(1) + U16(|frames|);
    EmptyDirectory(frames, bpp);
    var offset := 6 + 16 * |frames|;
    for i := 0 to |frames|
      invariant |out| == 6 + 16 * i && offset == BlobStart(frames, |frames|, i)
      invariant forall j :: 0 <= j < i ==> EntryFits(frames[j], bpp, BlobStart(frames, |frames|, j))
      invariant DirectoryShows(out, frames, bpp, i)
    {
      if !EntryFits(frames[i], bpp, offset) {
        return StructError;
      }
      DirectoryGrows(out, frames, bpp, i);
      out := out + Entry(frames[i], bpp, offset);
      offset := offset + |frames[i].blob|;
    }
    dir := Ok(out);
  }

  /** The first n blobs have been appended after the directory. */
  ghost predicate BlobsShow(out: seq<Octet>, frames: seq<Frame>, n: nat)
    requires n <= |frames|
  {
    && |out| == BlobStart(frames, |frames|, n)
    && forall i :: 0 <= i < n ==> BlobAt(out, frames, i)
  }

  lemma BlobsGrow(out: seq<Octet>, frames: seq<Frame>, n: nat)
    requires n < |frames| && BlobsShow(out, frames, n)
    ensures BlobsShow(out + frames[n].blob, frames, n + 1)
  {
    forall i | 0 <= i < n + 1
      ensures BlobAt(out + frames[n].blob, frames, i)
    {
      if i < n {
        assert BlobAt(out, frames, i);
        SlicePrefix(out, frames[n].blob, BlobStart(frames, |frames|, i), frames[i].blob);
      } else {
        SliceAtEnd(out, frames[n].blob);
      }
    }
  }

  method BuildIco(frames: seq<Frame>, bpp: nat) returns (file: Result<seq<Octet>>)
    ensures file.Ok? <==> ContainerFits(SortedFrames(frames), bpp)
    ensures file.Ok? ==> ContainerShows(file.value, SortedFrames(frames), bpp)
  {
    var sorted := Sort(BySize(), frames);
    var dir := Directory(sorted, bpp);
    if dir.StructError? {
      return StructError;
    }
    var out := AppendBlobs(dir.value, sorted, bpp);
    file := Ok(out);
  }

  /** The blobs after the directory. */
  method AppendBlobs(dir: seq<Octet>, sorted: seq<Frame>, bpp: nat) returns (out: seq<Octet>)
    requires DirectoryShows(dir, sorted, bpp, |sorted|) && |dir| == 6 + 16 * |sorted|
    ensures DirectoryShows(out, sorted, bpp, |sorted|) && BlobsShow(out, sorted, |sorted|)
  {
    out := dir;
    for i := 0 to |sorted|
      invariant DirectoryShows(out, sorted, bpp, |sorted|) && BlobsShow(out, sorted, i)
    {
      DirectoryPrefix(out, sorted[i].blob, sorted, bpp, |sorted|);
      BlobsGrow(out, sorted, i);
      out := out + sorted[i].blob;
    }
  }

  /** The frames in the file are the given ones, ordered by size; frames of one size
      keep their order. */
  lemma FramesAreSorted(frames: seq<Frame>, size: nat)
    ensures multiset(SortedFrames(frames)) == multiset(frames)
    ensures forall i, j :: 0 <= i < j < |SortedFrames(frames)| ==> SortedFrames(frames)[i].size <= SortedFrames(frames)[j].size
    ensures
      var ofSize := (f: Frame) => f.size == size;
      Filter(ofSize, SortedFrames(frames)) == Filter(ofSize, frames)
  {
    SortIsCorrect(BySize(), frames);
    assert forall i, j :: 0 <= i < j < |SortedFrames(frames)| ==> BySize()(SortedFrames(frames)[i], SortedFrames(frames)[j]);
  }
}
