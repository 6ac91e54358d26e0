/**
 The GIF translator and the viewer that reads it: lines of colour indices become a stream
 of frame headers and pixel rows, which the viewer reads in pieces of any size and
 reassembles into a bitmap.
 */
module GifStream {
  import opened Common
  import opened Interlace

  datatype Color = Color(red: Byte, green: Byte, blue: Byte)

  // ---------------------------------------------------------------------------
  // What the GIF library finds in a file
  // ---------------------------------------------------------------------------

  /** One image at the top left of its screen.  lines holds what could be decoded, in file
      order; fewer than height means that decoding failed there. */
  datatype RawImage = RawImage(screenWidth: nat, screenHeight: nat, width: nat, height: nat, interlace: bool,
                               colors: seq<Color>, trans: int, lines: seq<seq<Byte>>)
  {
    predicate WellFormed() {
      && |colors| == 0x100
      && |lines| <= height
      && forall i :: 0 <= i < |lines| ==> |lines[i]| == width
    }

    predicate Confined() {
      width <= screenWidth && height <= screenHeight
    }

    /** What follows the bitmap header: nothing when the image exceeds its screen. */
    function Delivered(): seq<seq<Byte>> {
      if Confined() then lines else []
    }
  }

  type Image = i: RawImage | i.WellFormed()
    witness RawImage(0, 0, 0, 0, false, seq(0x100, _ => Color(0, 0, 0)), 0, [])

  datatype Decoded = Broken | Found(image: Image)

  datatype Library = Library(decode: seq<Byte> -> Decoded)
  {
    function Decode(data: seq<Byte>): Decoded {
      decode(data)
    }
  }

  function PixelBytes(img: Image, p: Byte): (bytes: seq<Byte>)
    ensures |bytes| == 4
  {
    var c := img.colors[p];
    [c.blue, c.green, c.red, if p as int == img.trans then 0 else 0xff]
  }

  function RowBytes(img: Image, line: seq<Byte>): (bytes: seq<Byte>)
    ensures |bytes| == 4 * |line|
  {
    if line == [] then []
    else RowBytes(img, line[..|line| - 1]) + PixelBytes(img, line[|line| - 1])
  }

  /** Pixel c of a row: blue, green and red of its colour, and opaque unless it is the
      transparent index. */
  lemma {:induction false} RowBytesAt(img: Image, line: seq<Byte>, c: nat)
    requires c < |line|
    ensures var bytes, color := RowBytes(img, line), img.colors[line[c]];
            && bytes[4 * c] == color.blue && bytes[4 * c + 1] == color.green && bytes[4 * c + 2] == color.red
            && bytes[4 * c + 3] == if line[c] as int == img.trans then 0 else 255
  {
    var n := |line| - 1;
    if c < n {
      RowBytesAt(img, line[..n], c);
      assert line[..n][c] == line[c];
    }
  }

  function Rows(img: Image, lines: seq<seq<Byte>>): (rows: seq<seq<Byte>>)
    ensures |rows| == |lines|
  {
    seq(|lines|, i requires 0 <= i < |lines| => RowBytes(img, lines[i]))
  }

  // ---------------------------------------------------------------------------
  // The stream
  // ---------------------------------------------------------------------------

  datatype FrameHeader = FrameHeader(left: int, top: int, right: int, bottom: int, bytesPerRow: nat, dataSize: nat)

  /** One record header, or one byte of pixel data. */
  datatype Cell = Head(header: FrameHeader) | Octet(b: Byte)

  /** A frame: the rows it announces, and those that are delivered. */
  datatype Frame = Frame(top: nat, height: nat, rows: seq<seq<Byte>>)

  function Area(n: int, bpr: nat): nat {
    if n <= 0 then 0 else Area(n - 1, bpr) + bpr
  }

  lemma {:induction false} AreaIsProduct(n: nat, bpr: nat)
    ensures Area(n, bpr) == n * bpr
  {
    if n > 0 {
      AreaIsProduct(n - 1, bpr);
      assert n * bpr == (n - 1) * bpr + bpr;
    }
  }

  function HeaderOf(f: Frame, width: nat): FrameHeader {
    FrameHeader(0, f.top, width - 1, f.top + f.height - 1, 4 * width, 4 * width * f.height)
  }

  function Flat(rows: seq<seq<Byte>>): seq<Byte> {
    if rows == [] then [] else rows[0] + Flat(rows[1..])
  }

  function Octets(bytes: seq<Byte>): (cells: seq<Cell>)
    ensures |cells| == |bytes|
  {
    seq(|bytes|, i requires 0 <= i < |bytes| => Octet(bytes[i]))
  }

  function Block(f: Frame, width: nat): seq<Cell> {
    [Head(HeaderOf(f, width))] + Octets(Flat(f.rows))
  }

  function Stream(frames: seq<Frame>, width: nat): seq<Cell> {
    if frames == [] then [] else Block(frames[0], width) + Stream(frames[1..], width)
  }

  /** The frames the translator writes: one a row when interlaced, else one in all. */
  function RowFrame(img: Image, i: nat): Frame
    requires i < |img.Delivered()| && |Order(img.height)| == img.height
  {
    Frame(Order(img.height)[i], 1, [RowBytes(img, img.Delivered()[i])])
  }

  function FramesOf(img: Image): seq<Frame> {
    EachRowOnce(img.height);
    if img.interlace then seq(|img.Delivered()|, i requires 0 <= i < |img.Delivered()| => RowFrame(img, i))
    else if img.Confined() then [Frame(0, img.height, Rows(img, img.lines))]
    else []
  }

  // ---------------------------------------------------------------------------
  // What the frames paint
  // ---------------------------------------------------------------------------

  type Picture = seq<seq<Byte>>

  ghost predicate Fits(frames: seq<Frame>, width: nat, height: nat) {
    forall i :: 0 <= i < |frames| ==>
                  && frames[i].top + frames[i].height <= height
                  && |frames[i].rows| <= frames[i].height
                  && (i + 1 < |frames| ==> |frames[i].rows| == frames[i].height > 0)
                  && forall k :: 0 <= k < |frames[i].rows| ==> |frames[i].rows[k]| == 4 * width
  }

  function PaintRows(picture: Picture, top: nat, rows: seq<seq<Byte>>): (painted: Picture)
    requires top + |rows| <= |picture|
    ensures |painted| == |picture|
  {
    if rows == [] then picture
    else
      var n := |rows| - 1;
      PaintRows(picture, top, rows[..n])[top + n := rows[n]]
  }

  function PaintFrames(picture: Picture, frames: seq<Frame>): (painted: Picture)
    requires forall i :: 0 <= i < |frames| ==> frames[i].top + |frames[i].rows| <= |picture|
    ensures |painted| == |picture|
  {
    if frames == [] then picture
    else
      var n := |frames| - 1;
      PaintRows(PaintFrames(picture, frames[..n]), frames[n].top, frames[n].rows)
  }

  lemma {:induction false} PaintRowsAt(picture: Picture, top: nat, rows: seq<seq<Byte>>)
    requires top + |rows| <= |picture|
    ensures forall r :: 0 <= r < |picture| ==>
              PaintRows(picture, top, rows)[r] == if top <= r < top + |rows| then rows[r - top] else picture[r]
  {
    if rows != [] { PaintRowsAt(picture, top, rows[..|rows| - 1]); }
  }

  // ---------------------------------------------------------------------------
  // Stream lemmas
  // ---------------------------------------------------------------------------

  lemma {:induction false} StreamSnoc(frames: seq<Frame>, g: Frame, width: nat)
    ensures Stream(frames + [g], width) == Stream(frames, width) + Block(g, width)
  {
    hide Block;
    if frames == [] {
      assert (frames + [g])[1..] == [];
    } else {
      assert (frames + [g])[1..] == frames[1..] + [g];
      StreamSnoc(frames[1..], g, width);
      Assoc(Block(frames[0], width), Stream(frames[1..], width), Block(g, width));
    }
  }

  lemma {:induction false} OctetsAppend(a: seq<Byte>, b: seq<Byte>)
    ensures Octets(a + b) == Octets(a) + Octets(b)
  {
  }

  lemma {:induction false} FlatSnoc(rows: seq<seq<Byte>>, row: seq<Byte>)
    ensures Flat(rows + [row]) == Flat(rows) + row
  {
    if rows == [] {
      assert (rows + [row])[1..] == [];
    } else {
      assert (rows + [row])[1..] == rows[1..] + [row];
      FlatSnoc(rows[1..], row);
      Assoc(rows[0], Flat(rows[1..]), row);
    }
  }

  /** What is left of a frame's delivered rows at row k, column x. */
  function Tail(rows: seq<seq<Byte>>, k: nat, x: nat): seq<Byte>
    requires k <= |rows| && (k < |rows| ==> x <= |rows[k]|)
  {
    if k < |rows| then rows[k][x..] + Flat(rows[k + 1..]) else []
  }

  ghost predicate Uniform(rows: seq<seq<Byte>>, bpr: nat) {
    forall i :: 0 <= i < |rows| ==> |rows[i]| == bpr
  }

  lemma {:induction false} FlatLength(rows: seq<seq<Byte>>, bpr: nat)
    requires Uniform(rows, bpr)
    ensures |Flat(rows)| == Area(|rows|, bpr)
  {
    if rows != [] { FlatLength(rows[1..], bpr); }
  }

  lemma {:induction false} TailLength(rows: seq<seq<Byte>>, k: nat, x: nat, bpr: nat)
    requires Uniform(rows, bpr) && k < |rows| && x <= bpr
    ensures |Tail(rows, k, x)| == Area(|rows| - k, bpr) - x
  {
    FlatLength(rows[k + 1..], bpr);
  }

  lemma {:induction false} TailStep(rows: seq<seq<Byte>>, k: nat, x: nat, len: nat, bpr: nat)
    requires Uniform(rows, bpr) && k < |rows| && x + len <= bpr
    ensures len <= |Tail(rows, k, x)| && Tail(rows, k, x)[..len] == rows[k][x..x + len]
    ensures Tail(rows, k, x)[len..] == if x + len == bpr then Tail(rows, k + 1, 0) else Tail(rows, k, x + len)
  {
    var rest := Flat(rows[k + 1..]);
    assert rows[k][x..][len..] == rows[k][x + len..];
    assert (rows[k][x..] + rest)[len..] == rows[k][x..][len..] + rest;
    if x + len == bpr && k + 1 < |rows| {
      assert rows[k + 1..][1..] == rows[k + 2..];
      assert rows[k + 1][0..] == rows[k + 1];
    }
  }

  lemma {:induction false} TailIsFlat(rows: seq<seq<Byte>>)
    ensures Tail(rows, 0, 0) == Flat(rows)
  {
    if rows != [] { assert rows[0][0..] == rows[0]; }
  }

  // ---------------------------------------------------------------------------
  // The raster
  // ---------------------------------------------------------------------------

  ghost predicate Shows(raster: array2<Byte>, picture: Picture)
    reads raster
  {
    && |picture| == raster.Length0
    && (forall r :: 0 <= r < |picture| ==> |picture[r]| == raster.Length1)
    && forall r, c :: 0 <= r < raster.Length0 && 0 <= c < raster.Length1 ==> raster[r, c] == picture[r][c]
  }

  /** The rows of a frame painted up to row k, column x. */
  ghost predicate ShowsPart(raster: array2<Byte>, base: Picture, top: nat, rows: seq<seq<Byte>>, k: nat, x: nat)
    requires Uniform(rows, raster.Length1)
    reads raster
  {
    && |base| == raster.Length0 && k <= |rows| && top + |rows| <= |base| && (x > 0 ==> k < |rows|)
    && (forall r :: 0 <= r < |base| ==> |base[r]| == raster.Length1)
    && forall r, c :: 0 <= r < raster.Length0 && 0 <= c < raster.Length1 ==>
         raster[r, c] == if top <= r < top + k || (r == top + k && c < x) then rows[r - top][c] else base[r][c]
  }

  lemma {:induction false} FrameBegins(raster: array2<Byte>, base: Picture, top: nat, rows: seq<seq<Byte>>)
    requires Shows(raster, base) && Uniform(rows, raster.Length1) && top + |rows| <= |base|
    ensures ShowsPart(raster, base, top, rows, 0, 0)
  {
  }

  lemma {:induction false} FrameEnds(raster: array2<Byte>, base: Picture, top: nat, rows: seq<seq<Byte>>)
    requires Uniform(rows, raster.Length1) && ShowsPart(raster, base, top, rows, |rows|, 0)
    ensures Shows(raster, PaintRows(base, top, rows))
  {
    PaintRowsAt(base, top, rows);
  }

  /** Copies len bytes of the chunk into one row. */
  method CopySpan(raster: array2<Byte>, y: nat, x: nat, chunk: seq<Byte>, offset: nat, len: nat)
    requires y < raster.Length0 && x + len <= raster.Length1 && offset + len <= |chunk|
    modifies raster
    ensures forall r, c :: 0 <= r < raster.Length0 && 0 <= c < raster.Length1 ==>
              raster[r, c] == if r == y && x <= c < x + len then chunk[offset + c - x] else old(raster[r, c])
  {
    for i := 0 to len
      invariant forall r, c :: 0 <= r < raster.Length0 && 0 <= c < raster.Length1 ==>
                  raster[r, c] == if r == y && x <= c < x + i then chunk[offset + c - x] else old(raster[r, c])
    {
      raster[y, x + i] := chunk[offset + i];
    }
  }

  function Min(a: int, b: int): int {
    if a < b then a else b
  }

  /** The same, seen as progress within a frame. */
  method PaintSpan(raster: array2<Byte>, y: nat, x: nat, chunk: seq<Byte>, offset: nat, len: nat,
                   ghost base: Picture, ghost f: Frame)
    requires Uniform(f.rows, raster.Length1) && f.top <= y < f.top + |f.rows| && x < raster.Length1
    requires ShowsPart(raster, base, f.top, f.rows, y - f.top, x)
    requires x + len <= raster.Length1 && offset + len <= |chunk|
    requires chunk[offset..offset + len] == f.rows[y - f.top][x..x + len]
    modifies raster
    ensures if x + len == raster.Length1 then ShowsPart(raster, base, f.top, f.rows, y + 1 - f.top, 0)
            else ShowsPart(raster, base, f.top, f.rows, y - f.top, x + len)
  {
    ghost var row := f.rows[y - f.top];
    forall c | x <= c < x + len ensures chunk[offset + c - x] == row[c] {
      assert chunk[offset..offset + len][c - x] == row[x..x + len][c - x];
    }
    CopySpan(raster, y, x, chunk, offset, len);
  }

  /** What is left of the rows after len bytes of row k. */
  function TailAfter(rows: seq<seq<Byte>>, k: nat, x: nat, len: nat): seq<Byte>
    requires k < |rows| && x + len <= |rows[k]|
  {
    if x + len == |rows[k]| then Tail(rows, k + 1, 0) else Tail(rows, k, x + len)
  }

  /** Taking len bytes of a chunk of the tail leaves a chunk of the next tail. */
  lemma {:induction false} ChunkStep(rows: seq<seq<Byte>>, k: nat, x: nat, chunk: seq<Byte>, len: nat, bpr: nat)
    requires Uniform(rows, bpr) && k < |rows| && x + len <= bpr && len <= |chunk| && chunk <= Tail(rows, k, x)
    ensures chunk[..len] == rows[k][x..x + len]
    ensures TailAfter(rows, k, x, len) == Tail(rows, k, x)[len..] && chunk[len..] <= TailAfter(rows, k, x, len)
  {
    TailStep(rows, k, x, len, bpr);
    assert |rows[k]| == bpr;
    hide Tail, Uniform;
    PrefixSplits(chunk, Tail(rows, k, x), len);
  }

  lemma {:induction false} PrefixSplits<T>(chunk: seq<T>, all: seq<T>, len: nat)
    requires chunk <= all && len <= |chunk|
    ensures chunk[..len] == all[..len] && chunk[len..] <= all[len..]
  {
  }

  lemma {:induction false} SliceTwice<T>(s: seq<T>, a: nat, b: nat)
    requires a + b <= |s|
    ensures s[a..][b..] == s[a + b..] && (b <= |s[a..]| ==> s[a..][..b] == s[a..a + b])
  {
  }

  lemma {:induction false} AreaStep(n: int, bpr: nat)
    requires n > 0
    ensures Area(n, bpr) == Area(n - 1, bpr) + bpr
  {
  }

  /** In the middle of a frame: the raster shows what has come of it so far. */
  ghost predicate Standing(raster: array2<Byte>, h: FrameHeader, base: Picture, f: Frame, y: nat, x: nat)
    reads raster
  {
    && h.bytesPerRow == raster.Length1 && h.bottom == f.top + f.height - 1 && |f.rows| <= f.height
    && Uniform(f.rows, raster.Length1)
    && f.top <= y <= f.top + |f.rows| && x < raster.Length1 && (x > 0 ==> y < f.top + |f.rows|)
    && ShowsPart(raster, base, f.top, f.rows, y - f.top, x)
  }

  /** What is still to come of a frame. */
  function Coming(f: Frame, y: nat, x: nat): seq<Byte> {
    if f.top <= y < f.top + |f.rows| && x <= |f.rows[y - f.top]| then Tail(f.rows, y - f.top, x) else []
  }

  /** How many bytes the frame header announces beyond row y, column x. */
  function Announced(h: FrameHeader, y: nat, x: nat): int {
    Area(h.bottom + 1 - y, h.bytesPerRow) - x
  }

  function NextY(y: nat, x: nat, len: nat, bpr: nat): nat {
    if x + len == bpr then y + 1 else y
  }

  function NextX(x: nat, len: nat, bpr: nat): nat {
    if x + len == bpr then 0 else x + len
  }

  lemma {:induction false} ComingNonEmpty(f: Frame, y: nat, x: nat, bpr: nat)
    requires Uniform(f.rows, bpr) && f.top <= y && x < bpr && Coming(f, y, x) != []
    ensures y < f.top + |f.rows|
  {
  }

  lemma {:induction false} ComingIsTail(f: Frame, y: nat, x: nat, bpr: nat)
    requires Uniform(f.rows, bpr) && f.top <= y <= f.top + |f.rows| && x < bpr && (x > 0 ==> y < f.top + |f.rows|)
    ensures Coming(f, y, x) == Tail(f.rows, y - f.top, x)
  {
  }

  lemma {:induction false} ShareAnnounced(h: FrameHeader, y: nat, x: nat, len: nat)
    requires y <= h.bottom
    ensures Announced(h, NextY(y, x, len, h.bytesPerRow), NextX(x, len, h.bytesPerRow)) == Announced(h, y, x) - len
  {
    AreaStep(h.bottom + 1 - y, h.bytesPerRow);
  }

  lemma {:induction false} RowShareIs(f: Frame, y: nat, x: nat, rest: seq<Byte>, len: nat, bpr: nat)
    requires Uniform(f.rows, bpr) && f.top <= y < f.top + |f.rows| && x < bpr
    requires len <= |rest| && x + len <= bpr && rest <= Coming(f, y, x)
    ensures rest[..len] == f.rows[y - f.top][x..x + len]
  {
    ComingIsTail(f, y, x, bpr);
    assert |f.rows[y - f.top]| == bpr;
    hide Tail, Coming, Uniform, TailAfter;
    ChunkStep(f.rows, y - f.top, x, rest, len, bpr);
  }

  lemma {:induction false} ComingAfter(f: Frame, y: nat, x: nat, len: nat, bpr: nat)
    requires Uniform(f.rows, bpr) && f.top <= y < f.top + |f.rows| && x < bpr && x + len <= bpr
    ensures |f.rows[y - f.top]| == bpr
    ensures Coming(f, NextY(y, x, len, bpr), NextX(x, len, bpr)) == TailAfter(f.rows, y - f.top, x, len)
  {
    if x + len == bpr {
      ComingIsTail(f, y + 1, 0, bpr);
    } else {
      ComingIsTail(f, y, x + len, bpr);
    }
    hide Tail, Coming;
  }

  /** What is coming after a row's share. */
  lemma {:induction false} RowShare(h: FrameHeader, f: Frame, y: nat, x: nat, rest: seq<Byte>, len: nat)
    requires Uniform(f.rows, h.bytesPerRow) && f.top <= y < f.top + |f.rows| && x < h.bytesPerRow
    requires len <= |rest| && x + len <= h.bytesPerRow && rest <= Coming(f, y, x)
    ensures len <= |Coming(f, y, x)|
    ensures var y', x' := NextY(y, x, len, h.bytesPerRow), NextX(x, len, h.bytesPerRow);
            Coming(f, y', x') == Coming(f, y, x)[len..] && rest[len..] <= Coming(f, y', x')
  {
    var bpr, k := h.bytesPerRow, y - f.top;
    ComingIsTail(f, y, x, bpr);
    ComingAfter(f, y, x, len, bpr);
    hide Tail, Coming, Uniform, TailAfter, NextX, NextY;
    ChunkStep(f.rows, k, x, rest, len, bpr);
  }

  /** One row's share of a chunk. */
  method SpreadRow(raster: array2<Byte>, h: FrameHeader, y0: nat, x0: nat, chunk: seq<Byte>, offset: nat,
                   ghost base: Picture, ghost f: Frame)
    returns (y: nat, x: nat, nLen: nat)
    requires offset < |chunk| && y0 <= h.bottom
    requires Standing(raster, h, base, f, y0, x0) && chunk[offset..] <= Coming(f, y0, x0)
    modifies raster
    ensures Standing(raster, h, base, f, y, x) && 0 < nLen <= |chunk| - offset
    ensures nLen <= |Coming(f, y0, x0)|
    ensures Coming(f, y, x) == Coming(f, y0, x0)[nLen..] && chunk[offset..][nLen..] <= Coming(f, y, x)
    ensures Announced(h, y, x) == Announced(h, y0, x0) - nLen
  {
    hide ShowsPart, Coming, Announced, Uniform;
    assert |chunk[offset..]| > 0;
    nLen := Min(|chunk| - offset, h.bytesPerRow - x0);
    ComingNonEmpty(f, y0, x0, h.bytesPerRow);
    RowShare(h, f, y0, x0, chunk[offset..], nLen);
    RowShareIs(f, y0, x0, chunk[offset..], nLen, h.bytesPerRow);
    ShareAnnounced(h, y0, x0, nLen);
    SliceTwice(chunk, offset, nLen);
    PaintSpan(raster, y0, x0, chunk, offset, nLen, base, f);
    if x0 + nLen == h.bytesPerRow {
      x := 0;
      y := y0 + 1;
    } else {
      x := x0 + nLen;
      y := y0;
    }
  }

  /** Spreads a chunk of a frame over its rows, from row y0, column x0 on. */
  method Spread(raster: array2<Byte>, h: FrameHeader, y0: nat, x0: nat, chunk: seq<Byte>,
                ghost base: Picture, ghost f: Frame)
    returns (y: nat, x: nat)
    requires Standing(raster, h, base, f, y0, x0) && chunk <= Coming(f, y0, x0)
    modifies raster
    ensures Standing(raster, h, base, f, y, x)
    ensures Coming(f, y, x) == Coming(f, y0, x0)[|chunk|..]
    ensures Announced(h, y, x) == Announced(h, y0, x0) - |chunk|
  {
    y, x := y0, x0;
    var nBytesRead, nSrcOffset := |chunk|, 0;
    ghost var all := Coming(f, y0, x0);
    assert chunk[0..] == chunk && all[0..] == all;
    while y <= h.bottom && nBytesRead > 0
      invariant nSrcOffset + nBytesRead == |chunk| && nBytesRead >= 0
      invariant Standing(raster, h, base, f, y, x)
      invariant chunk[nSrcOffset..] <= Coming(f, y, x) == all[nSrcOffset..]
      invariant Announced(h, y, x) == Announced(h, y0, x0) - nSrcOffset
      decreases nBytesRead
    {
      hide Standing, Coming, Announced;
      var nLen;
      y, x, nLen := SpreadRow(raster, h, y, x, chunk, nSrcOffset, base, f);
      SliceTwice(chunk, nSrcOffset, nLen);
      SliceTwice(all, nSrcOffset, nLen);
      nBytesRead := nBytesRead - nLen;
      nSrcOffset := nSrcOffset + nLen;
    }
    NothingBelow(raster, h, base, f, y, x);
  }

  lemma {:induction false} NothingBelow(raster: array2<Byte>, h: FrameHeader, base: Picture, f: Frame, y: nat, x: nat)
    requires Standing(raster, h, base, f, y, x)
    ensures y > h.bottom ==> Coming(f, y, x) == []
  {
  }
}
