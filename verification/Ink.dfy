/** computeInk: the tight box around the pixels of a glyph that are set. */
module Ink {
  // ------------------------------------------------------------------ bitmaps

  /** A character's metrics; its glyph starts at the byte offset. */
  class CharInfo {
    var leftSideBearing: int
    var rightSideBearing: int
    var ascent: int
    var descent: int
    var characterWidth: int
    var attributes: int
    var byteOffset: int
  }

  /** ink_mask, from the leftmost pixel of a byte to the rightmost one. */
  function Mask(i: int): bv8 {
    if i == 0 then 0x80 else if i == 1 then 0x40 else if i == 2 then 0x20 else if i == 3 then 0x10
    else if i == 4 then 0x08 else if i == 5 then 0x04 else if i == 6 then 0x02 else 0x01
  }

  predicate Bit(b: bv8, i: int) {
    b & Mask(i) != 0
  }

  /** The leftmost pixel of a byte is the digit of 128 in its value. */
  lemma LeftmostIsHighest(b: bv8)
    ensures Bit(b, 0) <==> b >= 0x80
  {
  }

  /** And each further pixel comes to the left end when the byte is doubled. */
  lemma NextIsDoubled(b: bv8, i: int)
    requires 0 <= i < 7
    ensures Bit(b, i + 1) <==> Bit(b << 1, i)
  {
    assert b & 0x40 != 0 <==> (b << 1) & 0x80 != 0;
    assert b & 0x20 != 0 <==> (b << 1) & 0x40 != 0;
    assert b & 0x10 != 0 <==> (b << 1) & 0x20 != 0;
    assert b & 0x08 != 0 <==> (b << 1) & 0x10 != 0;
    assert b & 0x04 != 0 <==> (b << 1) & 0x08 != 0;
    assert b & 0x02 != 0 <==> (b << 1) & 0x04 != 0;
    assert b & 0x01 != 0 <==> (b << 1) & 0x02 != 0;
  }

  /** A byte that has been doubled so many times. */
  function Doubled(b: bv8, times: nat): bv8
    decreases times
  {
    if times == 0 then b else Doubled(b << 1, times - 1)
  }

  /** So the i-th pixel of a byte is the highest digit of the byte doubled i times. */
  lemma {:induction false} BitIsDigit(b: bv8, i: nat)
    requires i < 8
    ensures Bit(b, i) <==> Doubled(b, i) >= 0x80
    decreases i
  {
    if i == 0 {
      LeftmostIsHighest(b);
    } else {
      NextIsDoubled(b, i - 1);
      BitIsDigit(b << 1, i - 1);
    }
  }

  lemma BitsDecide(b: bv8)
    ensures b == 0 <==> forall i :: 0 <= i < 8 ==> !Bit(b, i)
  {
    assert b != 0 ==> Bit(b, 0) || Bit(b, 1) || Bit(b, 2) || Bit(b, 3) || Bit(b, 4) || Bit(b, 5) || Bit(b, 6) || Bit(b, 7);
  }

  lemma BitOfUnion(a: bv8, b: bv8, i: int)
    ensures Bit(a | b, i) <==> Bit(a, i) || Bit(b, i)
  {
    assert (a | b) & Mask(i) == (a & Mask(i)) | (b & Mask(i));
  }

  /** A glyph in a font's bitmaps: where it starts, how many rows it has and how many pixels each. */
  datatype Glyph = Glyph(bits: seq<bv8>, base: int, rows: int, width: int) {
    /** GLYPHWIDTHBYTES: every row starts on a byte. */
    function Bytes(): (n: int)
      ensures 8 * n - 8 < width <= 8 * n
    {
      (width + 7) / 8
    }

    function At(r: int, h: int): int {
      base + Bytes() * r + h
    }

    predicate InBounds() {
      rows > 0 && width > 0 ==> 0 <= base && base + Bytes() * rows <= |bits|
    }

    function Cell(r: int, h: int): bv8 {
      if 0 <= At(r, h) < |bits| then bits[At(r, h)] else 0
    }

    /** The pixel of row r and column c, from the top left. */
    predicate Pixel(r: int, c: int) {
      Bit(Cell(r, c / 8), c % 8)
    }

    ghost predicate RowInked(r: int) {
      exists c :: 0 <= c < width && Pixel(r, c)
    }

    ghost predicate ColumnInked(c: int) {
      ColumnInkedUpTo(c, rows)
    }

    ghost predicate ColumnInkedUpTo(c: int, k: int) {
      exists r :: 0 <= r < k && Pixel(r, c)
    }

    /** The bits past the last pixel of a row are zero. */
    ghost predicate Padded() {
      forall r, c :: 0 <= r < rows && width <= c < 8 * Bytes() ==> !Pixel(r, c)
    }

    lemma Inside(r: int, h: int)
      requires InBounds() && 0 <= r < rows && 0 <= h < Bytes()
      ensures 0 <= At(r, h) < |bits| && bits[At(r, h)] == Cell(r, h)
    {
      assert Bytes() * r + Bytes() == Bytes() * (r + 1) <= Bytes() * rows by {
        Grows(Bytes(), r + 1, rows);
      }
      Grows(Bytes(), 0, r);
    }

    /** A row is inked exactly when one of its bytes is not zero. */
    lemma ByteInksRow(r: int, h: int)
      requires Padded() && 0 <= r < rows && 0 <= h < Bytes() && Cell(r, h) != 0
      ensures RowInked(r)
    {
      BitsDecide(Cell(r, h));
      var i :| 0 <= i < 8 && Bit(Cell(r, h), i);
      var c := 8 * h + i;
      assert c / 8 == h && c % 8 == i;
      assert Pixel(r, c);
    }

    lemma NoByteNoInk(r: int)
      requires forall h :: 0 <= h < Bytes() ==> Cell(r, h) == 0
      ensures !RowInked(r)
    {
      forall c | 0 <= c < width ensures !Pixel(r, c) {
        assert 0 <= c / 8 < Bytes();
        BitsDecide(0);
      }
    }
  }

  lemma Grows(k: int, a: int, b: int)
    requires k >= 0 && a <= b
    ensures k * a <= k * b
  {
    assert k * b - k * a == k * (b - a);
  }

  // ------------------------------------------------------------------ the four scans

  /** The first row, from the top, that has a byte which is not zero; vpos counts the rows below it. */
  method FirstRow(glyphs: array<bv8>, ghost g: Glyph, pglyph: int, rows: int, bytes: int) returns (found: bool, vpos: int)
    requires g.bits == glyphs[..] && g.base == pglyph && g.rows == rows && g.Bytes() == bytes
    requires g.InBounds() && g.Padded()
    ensures !found ==> forall r :: 0 <= r < rows ==> !g.RowInked(r)
    ensures found ==> 0 <= vpos < rows && g.RowInked(rows - 1 - vpos)
    ensures found ==> forall r :: 0 <= r < rows - 1 - vpos ==> !g.RowInked(r)
  {
    var p := pglyph;
    vpos := rows;
    while vpos > 0
      invariant vpos <= rows && (rows >= 0 ==> vpos >= 0)
      invariant bytes > 0 && rows > 0 ==> p == g.At(rows - vpos, 0)
      invariant forall r :: 0 <= r < rows - vpos ==> !g.RowInked(r)
    {
      vpos := vpos - 1;
      ghost var r := rows - 1 - vpos;
      var hpos := bytes;
      while hpos > 0
        invariant hpos <= bytes && (bytes >= 0 ==> hpos >= 0)
        invariant bytes > 0 ==> p == g.At(r, bytes - hpos)
        invariant forall h :: 0 <= h < bytes - hpos ==> g.Cell(r, h) == 0
        decreases hpos
      {
        hpos := hpos - 1;
        g.Inside(r, bytes - 1 - hpos);
        if glyphs[p] != 0 {
          g.ByteInksRow(r, bytes - 1 - hpos);
          return true, vpos;
        }
        p := p + 1;
      }
      g.NoByteNoInk(r);
    }
    found := false;
  }

  /** The last row that has a byte which is not zero. */
  method LastRow(glyphs: array<bv8>, ghost g: Glyph, pglyph: int, rows: int, bytes: int) returns (vpos: int)
    requires g.bits == glyphs[..] && g.base == pglyph && g.rows == rows && g.Bytes() == bytes
    requires g.InBounds() && g.Padded()
    ensures vpos >= 0 ==> vpos < rows && g.RowInked(vpos)
    ensures forall r :: vpos < r < rows ==> !g.RowInked(r)
  {
    var p := pglyph + bytes * (rows - 1) + bytes;
    vpos := rows;
    while vpos > 0
      invariant vpos <= rows && (rows >= 0 ==> vpos >= 0)
      invariant bytes > 0 && rows > 0 ==> p == g.At(vpos, 0)
      invariant forall r :: vpos <= r < rows ==> !g.RowInked(r)
    {
      vpos := vpos - 1;
      var hpos := bytes;
      while hpos > 0
        invariant hpos <= bytes && (bytes >= 0 ==> hpos >= 0)
        invariant bytes > 0 ==> p == g.At(vpos, hpos)
        invariant forall h :: hpos <= h < bytes ==> g.Cell(vpos, h) == 0
        decreases hpos
      {
        hpos := hpos - 1;
        p := p - 1;
        g.Inside(vpos, hpos);
        if glyphs[p] != 0 {
          g.ByteInksRow(vpos, hpos);
          return;
        }
      }
      g.NoByteNoInk(vpos);
    }
    vpos := -1;
  }

  /** The bits of the bytes of a column of bytes, taken together. */
  method CharBits(glyphs: array<bv8>, ghost g: Glyph, pglyph: int, rows: int, bytes: int, hpos: int)
    returns (charbits: bv8)
    requires g.bits == glyphs[..] && g.base == pglyph && g.rows == rows && g.Bytes() == bytes
    requires g.InBounds() && rows > 0 && 0 <= hpos < bytes
    ensures forall i :: 0 <= i < 8 ==> (Bit(charbits, i) <==> g.ColumnInked(8 * hpos + i))
  {
    charbits := 0;
    var p, k := pglyph + hpos, 0;
    while k < rows
      invariant 0 <= k <= rows && p == g.At(k, hpos)
      invariant forall i :: 0 <= i < 8 ==> (Bit(charbits, i) <==> g.ColumnInkedUpTo(8 * hpos + i, k))
    {
      g.Inside(k, hpos);
      ghost var was := charbits;
      charbits := charbits | glyphs[p];
      forall i | 0 <= i < 8 ensures Bit(charbits, i) <==> g.ColumnInkedUpTo(8 * hpos + i, k + 1) {
        BitOfUnion(was, g.Cell(k, hpos), i);
        OneRowMore(g, hpos, i, k);
      }
      p, k := p + bytes, k + 1;
    }
  }

  lemma OneRowMore(g: Glyph, h: int, i: int, k: int)
    requires 0 <= i < 8 && 0 <= k
    ensures g.ColumnInkedUpTo(8 * h + i, k + 1) <==> g.ColumnInkedUpTo(8 * h + i, k) || Bit(g.Cell(k, h), i)
  {
    assert (8 * h + i) / 8 == h && (8 * h + i) % 8 == i;
    assert g.Pixel(k, 8 * h + i) <==> Bit(g.Cell(k, h), i);
  }

  /** The column of byte h and bit i is inked exactly when the byte's bits say so. */
  lemma BitsOfByte(g: Glyph, charbits: bv8, h: int)
    requires forall i :: 0 <= i < 8 ==> (Bit(charbits, i) <==> g.ColumnInked(8 * h + i))
    ensures charbits == 0 ==> forall c :: 8 * h <= c < 8 * h + 8 ==> !g.ColumnInked(c)
    ensures forall c :: 8 * h <= c < 8 * h + 8 ==> (Bit(charbits, c - 8 * h) <==> g.ColumnInked(c))
  {
    BitsDecide(charbits);
    forall c | 8 * h <= c < 8 * h + 8 ensures Bit(charbits, c - 8 * h) <==> g.ColumnInked(c) {
      var i := c - 8 * h;
      assert Bit(charbits, i) <==> g.ColumnInked(8 * h + i);
    }
  }

  /** The first of a byte's pixels that is set; bpos counts those after it, up to bmax. */
  method FirstBit(charbits: bv8, bmax: int) returns (bpos: int)
    requires 0 <= bmax <= 8
    ensures -1 <= bpos < bmax || bpos == -1
    ensures bpos >= 0 ==> Bit(charbits, bmax - bpos - 1)
    ensures forall i :: 0 <= i < bmax - bpos - 1 ==> !Bit(charbits, i)
  {
    bpos := bmax;
    while bpos > 0
      invariant 0 <= bpos <= bmax
      invariant forall i :: 0 <= i < bmax - bpos ==> !Bit(charbits, i)
    {
      bpos := bpos - 1;
      if charbits & Mask(bmax - bpos - 1) != 0 { return; }
    }
    bpos := -1;
  }

  /** The last of a byte's first bmax pixels that is set. */
  method LastBit(charbits: bv8, bmax: int) returns (bpos: int)
    requires 0 <= bmax <= 8
    ensures -1 <= bpos < bmax || bpos == -1
    ensures bpos >= 0 ==> Bit(charbits, bpos)
    ensures forall i :: bpos < i < bmax ==> !Bit(charbits, i)
  {
    bpos := bmax;
    while bpos > 0
      invariant 0 <= bpos <= bmax
      invariant forall i :: bpos <= i < bmax ==> !Bit(charbits, i)
    {
      bpos := bpos - 1;
      if charbits & Mask(bpos) != 0 { return; }
    }
    bpos := -1;
  }

  /** The first column, from the left, that has a pixel. */
  method FirstColumn(glyphs: array<bv8>, ghost g: Glyph, pglyph: int, rows: int, bits: int, bytes: int) returns (x: int)
    requires g.bits == glyphs[..] && g.base == pglyph && g.rows == rows && g.width == bits && g.Bytes() == bytes
    requires g.InBounds() && rows > 0
    requires exists c :: 0 <= c < bits && g.ColumnInked(c)
    ensures 0 <= x < bits && g.ColumnInked(x)
    ensures forall c :: 0 <= c < x ==> !g.ColumnInked(c)
  {
    var bmax, bpos, hpos := 8, 0, 0;
    label found_left:
    while hpos < bytes
      invariant 0 <= hpos && (hpos < bytes ==> bmax == 8)
      invariant forall c :: 0 <= c < 8 * hpos && c < bits ==> !g.ColumnInked(c)
    {
      var charbits := CharBits(glyphs, g, pglyph, rows, bytes, hpos);
      BitsOfByte(g, charbits, hpos);
      if charbits != 0 {
        if hpos == bytes - 1 {
          bmax := bits - 8 * hpos;
        }
        bpos := FirstBit(charbits, bmax);
        if bpos >= 0 { break found_left; }
      }
      hpos := hpos + 1;
    }
    x := 8 * hpos + bmax - bpos - 1;
  }

  /** The last column that has a pixel. */
  method LastColumn(glyphs: array<bv8>, ghost g: Glyph, pglyph: int, rows: int, bits: int, bytes: int) returns (x: int)
    requires g.bits == glyphs[..] && g.base == pglyph && g.rows == rows && g.width == bits && g.Bytes() == bytes
    requires g.InBounds() && rows > 0
    requires exists c :: 0 <= c < bits && g.ColumnInked(c)
    ensures 0 <= x < bits && g.ColumnInked(x)
    ensures forall c :: x < c < bits ==> !g.ColumnInked(c)
  {
    var bmax, bpos, hpos := bits - 8 * (bytes - 1), 0, bytes;
    label found_right:
    while hpos > 0
      invariant 0 <= hpos <= bytes && bmax == if hpos == bytes then bits - 8 * (bytes - 1) else 8
      invariant forall c :: 8 * hpos <= c < bits ==> !g.ColumnInked(c)
    {
      hpos := hpos - 1;
      var charbits := CharBits(glyphs, g, pglyph, rows, bytes, hpos);
      BitsOfByte(g, charbits, hpos);
      if charbits != 0 {
        bpos := LastBit(charbits, bmax);
        if bpos >= 0 { break found_right; }
      }
      bmax := 8;
    }
    x := 8 * hpos + bpos;
  }

  // ------------------------------------------------------------------ the ink metrics

  ghost predicate Blank(g: Glyph) {
    forall r, c :: 0 <= r < g.rows && 0 <= c < g.width ==> !g.Pixel(r, c)
  }

  /** A box, in distances from the glyph's left edge and from its top edge, with the rows and columns
    * from the first to the one before the last. */
  datatype Box = Box(top: int, bottom: int, left: int, right: int)

  ghost predicate Encloses(box: Box, g: Glyph) {
    forall r, c :: 0 <= r < g.rows && 0 <= c < g.width && g.Pixel(r, c) ==>
      box.top <= r < box.bottom && box.left <= c < box.right
  }

  /** Each edge of the box touches a pixel. */
  ghost predicate Touches(box: Box, g: Glyph) {
    && 0 <= box.top < box.bottom <= g.rows && 0 <= box.left < box.right <= g.width
    && g.RowInked(box.top) && g.RowInked(box.bottom - 1)
    && g.ColumnInked(box.left) && g.ColumnInked(box.right - 1)
  }

  ghost predicate Tight(box: Box, g: Glyph) {
    Encloses(box, g) && Touches(box, g)
  }

  /** There is one tight box at most, and any box that encloses the pixels encloses it. */
  lemma TightIsSmallest(box: Box, other: Box, g: Glyph)
    requires Tight(box, g) && Encloses(other, g)
    ensures other.top <= box.top && box.bottom <= other.bottom
    ensures other.left <= box.left && box.right <= other.right
  {
    var c :| 0 <= c < g.width && g.Pixel(box.top, c);
    var d :| 0 <= d < g.width && g.Pixel(box.bottom - 1, d);
    var q :| 0 <= q < g.rows && g.Pixel(q, box.left);
    var r :| 0 <= r < g.rows && g.Pixel(r, box.right - 1);
  }

  /** A glyph without a pixel has no tight box. */
  lemma BlankHasNoBox(box: Box, g: Glyph)
    requires Blank(g)
    ensures !Tight(box, g)
  {
  }

  /** The box that a character's ink metrics describe, from those of its bitmap. */
  function BoxOf(ink: CharInfo, ascent: int, left: int): Box
    reads ink
  {
    Box(ascent - ink.ascent, ascent + ink.descent, ink.leftSideBearing - left, ink.rightSideBearing - left)
  }

  /** The four scans: the rows below the first inked one, the last one, and the columns. */
  method Scan(glyphs: array<bv8>, ghost g: Glyph, pglyph: int, rows: int, bits: int)
    returns (found: bool, above: int, below: int, left: int, right: int)
    requires g.bits == glyphs[..] && g.base == pglyph && g.rows == rows && g.width == bits
    requires g.InBounds() && g.Padded()
    ensures found <==> !Blank(g)
    ensures found ==> Tight(Box(rows - 1 - above, below + 1, left, right + 1), g)
  {
    below, left, right := 0, 0, 0;
    var bytes := (bits + 7) / 8;
    found, above := FirstRow(glyphs, g, pglyph, rows, bytes);
    if found {
      SomeColumn(g, rows - 1 - above);
      below := LastRow(glyphs, g, pglyph, rows, bytes);
      left := FirstColumn(glyphs, g, pglyph, rows, bits, bytes);
      right := LastColumn(glyphs, g, pglyph, rows, bits, bytes);
      EdgesMakeBox(g, rows - 1 - above, below, left, right);
    } else {
      NoRowIsBlank(g);
    }
  }

  lemma NoRowIsBlank(g: Glyph)
    requires forall r :: 0 <= r < g.rows ==> !g.RowInked(r)
    ensures Blank(g)
  {
    forall r, c | 0 <= r < g.rows && 0 <= c < g.width ensures !g.Pixel(r, c) {
      assert !g.RowInked(r);
    }
  }

  ghost function GlyphOf(c: CharInfo, glyphs: array<bv8>): Glyph
    reads c, glyphs
  {
    Glyph(glyphs[..], c.byteOffset, c.ascent + c.descent, c.rightSideBearing - c.leftSideBearing)
  }

  /** computeInk: the metrics of the set pixels, measured as the bitmap's are. */
  method ComputeInk(bitmap: CharInfo, ink: CharInfo, glyphs: array<bv8>)
    requires GlyphOf(bitmap, glyphs).InBounds() && GlyphOf(bitmap, glyphs).Padded()
    modifies ink
    ensures ink.characterWidth == old(bitmap.characterWidth) && ink.attributes == old(bitmap.attributes)
    ensures ink.byteOffset == old(bitmap.byteOffset)
    ensures Inked(ink, old(GlyphOf(bitmap, glyphs)), old(bitmap.ascent), old(bitmap.leftSideBearing))
  {
    ghost var g := GlyphOf(bitmap, glyphs);
    var leftBearing, ascent, descent := bitmap.leftSideBearing, bitmap.ascent, bitmap.descent;
    var found, above, below, left, right :=
      Scan(glyphs, g, bitmap.byteOffset, descent + ascent, bitmap.rightSideBearing - leftBearing);
    ink.characterWidth, ink.attributes, ink.byteOffset := bitmap.characterWidth, bitmap.attributes, bitmap.byteOffset;
    if !found {
      ink.leftSideBearing, ink.rightSideBearing, ink.ascent, ink.descent := leftBearing, leftBearing, 0, 0;
    } else {
      ink.ascent, ink.descent := above - descent + 1, below - ascent + 1;
      ink.leftSideBearing, ink.rightSideBearing := leftBearing + left, leftBearing + right + 1;
    }
  }

  /** No pixel: no ascent, no descent, and the bearings are equal; otherwise the box is tight. */
  ghost predicate Inked(ink: CharInfo, g: Glyph, ascent: int, left: int)
    reads ink
  {
    if Blank(g) then ink.ascent == 0 == ink.descent && ink.leftSideBearing == left == ink.rightSideBearing
    else Tight(BoxOf(ink, ascent, left), g)
  }

  lemma SomeColumn(g: Glyph, r: int)
    requires 0 <= r < g.rows && g.RowInked(r)
    ensures exists c :: 0 <= c < g.width && g.ColumnInked(c)
  {
    var c :| 0 <= c < g.width && g.Pixel(r, c);
    assert g.ColumnInked(c);
  }

  lemma EdgesMakeBox(g: Glyph, top: int, bottom: int, left: int, right: int)
    requires 0 <= top < g.rows && g.RowInked(top) && forall r :: 0 <= r < top ==> !g.RowInked(r)
    requires forall r :: bottom < r < g.rows ==> !g.RowInked(r)
    requires bottom >= 0 ==> bottom < g.rows && g.RowInked(bottom)
    requires 0 <= left < g.width && g.ColumnInked(left) && forall c :: 0 <= c < left ==> !g.ColumnInked(c)
    requires 0 <= right < g.width && g.ColumnInked(right) && forall c :: right < c < g.width ==> !g.ColumnInked(c)
    ensures !Blank(g) && Tight(Box(top, bottom + 1, left, right + 1), g)
  {
    var c :| 0 <= c < g.width && g.Pixel(top, c);
    forall r, c | 0 <= r < g.rows && 0 <= c < g.width && g.Pixel(r, c)
      ensures top <= r < bottom + 1 && left <= c < right + 1
    {
      assert g.RowInked(r) && g.ColumnInked(c);
    }
  }

  /** A pixel, by the value of its byte: rows take whole bytes, and the leftmost pixel is the highest
    * digit. */
  lemma PixelIsDigit(g: Glyph, r: int, c: int)
    requires g.InBounds() && 0 <= r < g.rows && 0 <= c < g.width
    ensures var k := g.base + (g.width + 7) / 8 * r + c / 8;
      0 <= k < |g.bits| && (g.Pixel(r, c) <==> Doubled(g.bits[k], c % 8) >= 0x80)
  {
    g.Inside(r, c / 8);
    BitIsDigit(g.Cell(r, c / 8), c % 8);
  }

  /** What the ink metrics say of the pixels: all of them lie between the bearings, and the ascent and
    * descent; and there is one at each of these bounds. */
  lemma MetricsSay(ink: CharInfo, g: Glyph, ascent: int, left: int)
    requires Inked(ink, g, ascent, left) && !Blank(g)
    ensures forall r, c :: 0 <= r < g.rows && 0 <= c < g.width && g.Pixel(r, c) ==>
      -ink.ascent <= r - ascent < ink.descent && ink.leftSideBearing <= left + c < ink.rightSideBearing
    ensures g.RowInked(ascent - ink.ascent) && g.RowInked(ascent + ink.descent - 1)
    ensures g.ColumnInked(ink.leftSideBearing - left) && g.ColumnInked(ink.rightSideBearing - left - 1)
  {
    var box := BoxOf(ink, ascent, left);
    forall r, c | 0 <= r < g.rows && 0 <= c < g.width && g.Pixel(r, c)
      ensures -ink.ascent <= r - ascent < ink.descent && ink.leftSideBearing <= left + c < ink.rightSideBearing
    {
      assert box.top <= r < box.bottom && box.left <= c < box.right;
    }
  }

  /** The ink metrics are empty exactly when the glyph has no pixel; otherwise they are a tight box, and
    * no other box is. */
  lemma EmptyExactlyWhenBlank(ink: CharInfo, g: Glyph, ascent: int, left: int)
    requires Inked(ink, g, ascent, left)
    ensures Blank(g) <==> ink.leftSideBearing == ink.rightSideBearing
    ensures Blank(g) <==> ink.ascent + ink.descent == 0
    ensures forall box :: Tight(box, g) <==> !Blank(g) && box == BoxOf(ink, ascent, left)
  {
    forall box | Tight(box, g) ensures !Blank(g) && box == BoxOf(ink, ascent, left) {
      if Blank(g) {
        BlankHasNoBox(box, g);
      } else {
        TightIsSmallest(box, BoxOf(ink, ascent, left), g);
        TightIsSmallest(BoxOf(ink, ascent, left), box, g);
      }
    }
  }
}
