/** What the entries of an icon's directory and of a frame's colour table hold, byte by
    byte (tools/ico_format.py). */
module IcoBytes {
  import opened IcoFormat

  /** What an entry holds, byte by byte: the size if it is below 256, else 0; two to the
      depth below depth 8, else 0; then one plane, the depth, and the length and place of
      the frame, least byte first. */
  lemma EntryReads(file: seq<Octet>, at: nat, f: Frame, bpp: nat, offset: nat)
    requires EntryShows(file, at, f, bpp, offset)
    ensures
      var e := (i: nat) requires i < 16 => file[at + i] as int;
      && e(0) == (if f.size < 256 then f.size else 0) && e(1) == e(0)
      && (if bpp < 8 then e(2) == TwoTo(bpp) else e(2) == 0) && e(3) == 0
      && e(4) == 1 && e(5) == 0 && e(6) + 256 * e(7) == bpp
      && e(8) + 256 * e(9) + 65536 * e(10) + 16777216 * e(11) == |f.blob|
      && e(12) + 256 * e(13) + 65536 * e(14) + 16777216 * e(15) == offset
  {
    assert TwoTo(0) == 1 && TwoTo(1) == 2 && TwoTo(2) == 4 && TwoTo(3) == 8;
    assert TwoTo(4) == 16 && TwoTo(5) == 32 && TwoTo(6) == 64 && TwoTo(7) == 128;
  }

  /** Two to the n. */
  function TwoTo(n: nat): nat { if n == 0 then 1 else 2 * TwoTo(n - 1) }

  /** What the table holds: the palette, each colour as blue, green, red and 0, then
      zeros. */
  lemma TableReads(table: seq<Octet>, palette: seq<Colour>, n: nat, i: nat)
    requires TableHolds(table, 0, palette, n) && i < n
    ensures
      table[4 * i..4 * i + 4]
      == if i < |palette| then [palette[i].b, palette[i].g, palette[i].r, 0] else [0, 0, 0, 0]
  {
    assert EntryIs(table, 0 + 4 * i, TableEntry(palette, i));
  }
}
