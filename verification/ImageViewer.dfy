/**
 The viewer's loading loop: it feeds a file to the translator in chunks, and paints what
 the translator hands back.
 */
module ImageViewer {
  import opened Common
  import opened Interlace
  import opened GifStream
  import opened GifTranslator

  const CHUNK := 8192

  // ---------------------------------------------------------------------------
  // Where the painting stands
  // ---------------------------------------------------------------------------

  /** A picture of given frames, all to be painted over base. */
  datatype Job = Job(base: Picture, frames: seq<Frame>, width: nat)
  {
    ghost predicate Valid() {
      && Fits(frames, width, |base|)
      && forall r :: 0 <= r < |base| ==> |base[r]| == 4 * width
    }

    ghost function Painted(f: nat): Picture
      requires Valid() && f <= |frames|
    {
      PaintFrames(base, frames[..f])
    }
  }

  /** Frame f is next in the stream. */
  ghost predicate AtFrame(job: Job, f: nat, out: seq<Cell>, raster: array2<Byte>)
    reads raster
  {
    && job.Valid() && f <= |job.frames| && raster.Length1 == 4 * job.width
    && out == Stream(job.frames[f..], job.width)
    && Shows(raster, job.Painted(f))
  }

  /** Frame f has been read up to row y, column x; left bytes of it are announced. */
  ghost predicate InFrame(job: Job, f: nat, out: seq<Cell>, raster: array2<Byte>, h: FrameHeader, y: nat, x: nat,
                          left: int)
    reads raster
  {
    && job.Valid() && f < |job.frames| && raster.Length1 == 4 * job.width
    && h == HeaderOf(job.frames[f], job.width)
    && Standing(raster, h, job.Painted(f), job.frames[f], y, x)
    && left == Announced(h, y, x) && left >= 0
    && out == Octets(Coming(job.frames[f], y, x)) + Stream(job.frames[f + 1..], job.width)
  }

  /** Everything is painted. */
  ghost predicate AllPainted(job: Job, raster: array2<Byte>)
    reads raster
  {
    job.Valid() && Shows(raster, job.Painted(|job.frames|))
  }

  lemma {:induction false} PaintKeepsShape(job: Job, f: nat)
    requires job.Valid() && f <= |job.frames|
    ensures forall r :: 0 <= r < |job.base| ==> |job.Painted(f)[r]| == 4 * job.width
  {
    if f > 0 {
      PaintKeepsShape(job, f - 1);
      PaintedNext(job, f - 1);
      PaintRowsAt(job.Painted(f - 1), job.frames[f - 1].top, job.frames[f - 1].rows);
    }
  }

  lemma {:induction false} PaintedNext(job: Job, f: nat)
    requires job.Valid() && f < |job.frames|
    ensures job.frames[f].top + |job.frames[f].rows| <= |job.Painted(f)|
    ensures job.Painted(f + 1) == PaintRows(job.Painted(f), job.frames[f].top, job.frames[f].rows)
  {
    assert job.frames[..f + 1][..f] == job.frames[..f];
  }

  lemma {:induction false} NextBlock(frames: seq<Frame>, f: nat, width: nat)
    requires f < |frames|
    ensures Stream(frames[f..], width)
         == [Head(HeaderOf(frames[f], width))] + (Octets(Flat(frames[f].rows)) + Stream(frames[f + 1..], width))
  {
    assert frames[f..][1..] == frames[f + 1..];
  }

  /** A frame begins with its header. */
  lemma {:induction false} HeaderIsNext(job: Job, f: nat, out: seq<Cell>, raster: array2<Byte>)
    requires AtFrame(job, f, out, raster)
    ensures out == [] ==> AllPainted(job, raster)
    ensures out != [] ==> f < |job.frames| && out[0] == Head(HeaderOf(job.frames[f], job.width))
    ensures out != [] ==> out[1..] == Octets(Flat(job.frames[f].rows)) + Stream(job.frames[f + 1..], job.width)
  {
    if f < |job.frames| {
      NextBlock(job.frames, f, job.width);
    }
  }

  lemma {:induction false} RowsAreUniform(job: Job, f: nat)
    requires job.Valid() && f < |job.frames|
    ensures Uniform(job.frames[f].rows, 4 * job.width)
  {
  }

  lemma {:induction false} EnterFrame(job: Job, f: nat, out: seq<Cell>, raster: array2<Byte>)
    requires AtFrame(job, f, out, raster) && out != [] && f < |job.frames|
    requires HeaderOf(job.frames[f], job.width).dataSize > 0
    ensures var h := HeaderOf(job.frames[f], job.width); InFrame(job, f, out[1..], raster, h, h.top, 0, h.dataSize)
  {
    var g := job.frames[f];
    HeaderIsNext(job, f, out, raster);
    RowsAreUniform(job, f);
    PaintedNext(job, f);
    FrameBegins(raster, job.Painted(f), g.top, g.rows);
    AreaIsProduct(g.height, 4 * job.width);
    NonZeroFactors(job.width, g.height);
    hide Shows, Job.Painted, Stream, Fits;
    TailIsFlat(g.rows);
    ComingIsTail(g, g.top, 0, 4 * job.width);
  }

  lemma {:induction false} NonZeroFactors(width: nat, height: nat)
    ensures 4 * width * height == height * (4 * width)
    ensures 4 * width * height > 0 <==> width > 0 && height > 0
  {
  }

  /** A frame that announces nothing is the last, or all rows are empty. */
  lemma {:induction false} EmptyFrame(job: Job, f: nat, out: seq<Cell>, raster: array2<Byte>)
    requires AtFrame(job, f, out, raster) && f < |job.frames| && HeaderOf(job.frames[f], job.width).dataSize == 0
    ensures AllPainted(job, raster)
  {
    NonZeroFactors(job.width, job.frames[f].height);
    if job.width == 0 {
      PaintKeepsShape(job, |job.frames|);
    } else {
      PaintedNext(job, f);
    }
  }

  /** Of a whole frame, what is announced is what is coming. */
  lemma {:induction false} AnnouncedIsComing(g: Frame, h: FrameHeader, y: nat, x: nat)
    requires Uniform(g.rows, h.bytesPerRow) && h.bottom == g.top + g.height - 1 && |g.rows| == g.height
    requires g.top <= y <= g.top + |g.rows| && x < h.bytesPerRow && (x > 0 ==> y < g.top + |g.rows|)
    ensures |Coming(g, y, x)| == Announced(h, y, x)
  {
    ComingIsTail(g, y, x, h.bytesPerRow);
    if y < g.top + g.height {
      TailLength(g.rows, y - g.top, x, h.bytesPerRow);
    }
    hide Coming, Uniform;
  }

  /** Where a frame stands, apart from what the raster shows. */
  lemma {:induction false} FrameFacts(job: Job, f: nat, out: seq<Cell>, raster: array2<Byte>, h: FrameHeader,
                                      y: nat, x: nat, left: int)
    requires InFrame(job, f, out, raster, h, y, x, left)
    ensures var g := job.frames[f];
            && Uniform(g.rows, h.bytesPerRow) && h.bottom == g.top + g.height - 1
            && g.top <= y <= g.top + |g.rows| && x < h.bytesPerRow && (x > 0 ==> y < g.top + |g.rows|)
            && left == Announced(h, y, x) && out == Octets(Coming(g, y, x)) + Stream(job.frames[f + 1..], job.width)
            && (f + 1 < |job.frames| ==> |g.rows| == g.height)
  {
    hide ShowsPart, Coming, Announced, Stream, Job.Painted, Uniform;
  }

  lemma {:induction false} NothingFollows(job: Job, f: nat)
    requires f + 1 == |job.frames|
    ensures Stream(job.frames[f + 1..], job.width) == []
  {
  }

  /** What is coming of a frame is all there, unless the stream ends within it. */
  lemma {:induction false} ComingLength(job: Job, f: nat, out: seq<Cell>, raster: array2<Byte>, h: FrameHeader,
                                        y: nat, x: nat, left: int)
    requires InFrame(job, f, out, raster, h, y, x, left)
    ensures |Coming(job.frames[f], y, x)| == left || out == Octets(Coming(job.frames[f], y, x))
  {
    FrameFacts(job, f, out, raster, h, y, x, left);
    assert f < |job.frames|;
    hide InFrame, Uniform, Coming, Announced, Stream;
    if f + 1 < |job.frames| {
      AnnouncedIsComing(job.frames[f], h, y, x);
    } else {
      NothingFollows(job, f);
    }
  }

  lemma {:induction false} ChunkIsComing(coming: seq<Byte>, rest: seq<Cell>, chunk: seq<Byte>)
    requires |chunk| <= |coming| && Octets(chunk) == (Octets(coming) + rest)[..|chunk|]
    ensures chunk <= coming && (Octets(coming) + rest)[|chunk|..] == Octets(coming[|chunk|..]) + rest
  {
    forall i | 0 <= i < |chunk| ensures chunk[i] == coming[i] {
      assert Octets(chunk)[i] == Octets(coming)[i];
    }
  }

  /** As many bytes as are announced can be read. */
  lemma {:induction false} BytesAreNext(job: Job, f: nat, out: seq<Cell>, raster: array2<Byte>, h: FrameHeader,
                                        y: nat, x: nat, left: int)
    requires InFrame(job, f, out, raster, h, y, x, left)
    ensures forall i :: 0 <= i < left && i < |out| ==> out[i].Octet?
    ensures Min(left, |out|) <= |Coming(job.frames[f], y, x)|
  {
    ComingLength(job, f, out, raster, h, y, x, left);
    hide Standing, Coming, Announced, Stream;
  }

  /** The stream ended within a frame. */
  lemma {:induction false} ShortFrame(job: Job, f: nat, raster: array2<Byte>, h: FrameHeader, y: nat, x: nat, left: int)
    requires InFrame(job, f, [], raster, h, y, x, left)
    ensures AllPainted(job, raster)
  {
    var g := job.frames[f];
    assert Coming(g, y, x) == [];
    assert f + 1 == |job.frames| by {
      if f + 1 < |job.frames| { NextBlock(job.frames, f + 1, job.width); }
    }
    RowsAreUniform(job, f);
    assert y == g.top + |g.rows|;
    FrameEnds(raster, job.Painted(f), g.top, g.rows);
    PaintedNext(job, f);
  }

  /** The whole of a frame has come. */
  lemma {:induction false} LeaveFrame(job: Job, f: nat, out: seq<Cell>, raster: array2<Byte>, h: FrameHeader, y: nat,
                                      x: nat)
    requires InFrame(job, f, out, raster, h, y, x, 0)
    ensures AtFrame(job, f + 1, out, raster)
  {
    var g := job.frames[f];
    RowsAreUniform(job, f);
    assert y == g.top + |g.rows| && x == 0;
    ComingIsTail(g, y, x, 4 * job.width);
    FrameEnds(raster, job.Painted(f), g.top, g.rows);
    PaintedNext(job, f);
    assert Octets([]) + Stream(job.frames[f + 1..], job.width) == Stream(job.frames[f + 1..], job.width);
  }

  /** Reads a piece of the current frame. */
  method ReadPiece(gif: GIFTrans, raster: array2<Byte>, h: FrameHeader, y0: nat, x0: nat, left: nat,
                   ghost job: Job, ghost f: nat)
    returns (y: nat, x: nat, chunk: seq<Byte>)
    requires gif.Flowing() && InFrame(job, f, gif.outBuffer, raster, h, y0, x0, left) && left > 0
    modifies raster, gif`outBuffer
    ensures gif.Flowing() && |chunk| <= left
    ensures chunk == [] ==> AllPainted(job, raster)
    ensures chunk != [] ==> InFrame(job, f, gif.outBuffer, raster, h, y, x, left - |chunk|)
    ensures |gif.outBuffer| == |old(gif.outBuffer)| - |chunk|
  {
    BytesAreNext(job, f, gif.outBuffer, raster, h, y0, x0, left);
    ghost var coming, rest := Coming(job.frames[f], y0, x0), Stream(job.frames[f + 1..], job.width);
    chunk := gif.ReadBytes(Min(left, CHUNK));
    y, x := y0, x0;
    if chunk == [] {
      ShortFrame(job, f, raster, h, y, x, left);
      return;
    }
    ChunkIsComing(coming, rest, chunk);
    hide Coming, Announced, Standing, Job.Valid, Job.Painted, HeaderOf, Stream;
    y, x := Spread(raster, h, y0, x0, chunk, job.Painted(f), job.frames[f]);
  }

  /** Reads and paints until nothing more comes. */
  method Drain(gif: GIFTrans, raster: array2<Byte>, ghost job: Job)
    requires gif.Flowing() && AtFrame(job, 0, gif.outBuffer, raster)
    modifies raster, gif`outBuffer
    ensures AllPainted(job, raster)
  {
    hide AtFrame, InFrame, AllPainted;
    var nFrameSize: nat, x: nat, y: nat := 0, 0, 0;
    var h := FrameHeader(0, 0, 0, 0, 0, 0);
    ghost var f := 0;
    while true
      invariant gif.Flowing()
      invariant nFrameSize == 0 ==> AtFrame(job, f, gif.outBuffer, raster)
      invariant nFrameSize > 0 ==> InFrame(job, f, gif.outBuffer, raster, h, y, x, nFrameSize)
      decreases |gif.outBuffer|
    {
      if nFrameSize == 0 {
        HeaderIsNext(job, f, gif.outBuffer, raster);
        ghost var out := gif.outBuffer;
        var next := gif.ReadHeader();
        if next.None? {
          break;
        }
        h := next.value;
        x, y, nFrameSize := h.left * 4, h.top, h.dataSize;
        if nFrameSize == 0 {
          EmptyFrame(job, f, out, raster);
          var chunk := gif.ReadBytes(0);
          break;
        }
        EnterFrame(job, f, out, raster);
      }
      var chunk;
      y, x, chunk := ReadPiece(gif, raster, h, y, x, nFrameSize, job, f);
      if chunk == [] {
        break;
      }
      nFrameSize := nFrameSize - |chunk|;
      if nFrameSize == 0 {
        LeaveFrame(job, f, gif.outBuffer, raster, h, y, x);
        f := f + 1;
      }
    }
  }

  // ---------------------------------------------------------------------------
  // What an image paints
  // ---------------------------------------------------------------------------

  /** Where row r comes among the lines of the file. */
  function Position(img: Image, r: nat): nat
    requires r < img.height
  {
    if img.interlace then Rank(img.height, r) else r
  }

  /** Row r once loading is over: its line if that was delivered, else what was there. */
  function FinalRow(img: Image, base: Picture, r: nat): seq<Byte>
    requires r < img.height == |base|
  {
    if Position(img, r) < |img.Delivered()| then RowBytes(img, img.Delivered()[Position(img, r)]) else base[r]
  }

  lemma {:induction false} FramesFit(img: Image)
    ensures Fits(FramesOf(img), img.width, img.height)
  {
    EachRowOnce(img.height);
    hide Order;
  }

  lemma {:induction false} SingleRowPainted(picture: Picture, top: nat, row: seq<Byte>)
    requires top < |picture|
    ensures PaintRows(picture, top, [row]) == picture[top := row]
  {
    PaintRowsAt(picture, top, [row]);
  }

  lemma {:induction false} RowFrameAt(img: Image, n: nat)
    requires img.interlace && n < |img.Delivered()|
    requires |Order(img.height)| == img.height
    ensures n < |FramesOf(img)| && FramesOf(img)[n] == RowFrame(img, n)
    ensures RowFrame(img, n).top == Order(img.height)[n] && RowFrame(img, n).rows == [Rows(img, img.Delivered())[n]]
  {
    hide Order;
  }

  /** Frames of one row each paint row by row. */
  lemma {:induction false} RowFramesPaint(img: Image, base: Picture, n: nat)
    requires img.interlace && |base| == img.height && n <= |img.Delivered()|
    requires |Order(img.height)| == img.height && forall i :: 0 <= i < img.height ==> Order(img.height)[i] < img.height
    requires Fits(FramesOf(img), img.width, img.height) && |FramesOf(img)| == |img.Delivered()|
    ensures PaintFrames(base, FramesOf(img)[..n]) == Paint(base, Order(img.height), Rows(img, img.Delivered())[..n])
  {
    if n > 0 {
      var frames, rows := FramesOf(img), Rows(img, img.Delivered());
      RowFramesPaint(img, base, n - 1);
      RowFrameAt(img, n - 1);
      hide Order, FramesOf, RowFrame, Rows;
      assert frames[..n][..n - 1] == frames[..n - 1] && rows[..n][..n - 1] == rows[..n - 1];
      SingleRowPainted(PaintFrames(base, frames[..n - 1]), frames[n - 1].top, rows[n - 1]);
    }
  }

  lemma {:induction false} InterlacedFramesPaint(img: Image, base: Picture)
    requires |base| == img.height && img.interlace
    ensures Fits(FramesOf(img), img.width, |base|)
    ensures forall r :: 0 <= r < |base| ==> PaintFrames(base, FramesOf(img))[r] == FinalRow(img, base, r)
  {
    FramesFit(img);
    EachRowOnce(img.height);
    var frames, rows, n := FramesOf(img), Rows(img, img.Delivered()), |img.Delivered()|;
    assert |frames| == n && frames[..n] == frames && rows[..n] == rows;
    hide FramesOf, Order;
    RowFramesPaint(img, base, n);
    PaintedInterlaced(base, rows);
    hide Fits, PaintFrames, Paint, Rank;
  }

  lemma {:induction false} PlainFramesPaint(img: Image, base: Picture)
    requires |base| == img.height && !img.interlace
    ensures Fits(FramesOf(img), img.width, |base|)
    ensures forall r :: 0 <= r < |base| ==> PaintFrames(base, FramesOf(img))[r] == FinalRow(img, base, r)
  {
    FramesFit(img);
    var frames := FramesOf(img);
    if img.Confined() {
      var rows := Rows(img, img.lines);
      assert frames == [Frame(0, img.height, rows)] && frames[..0] == [];
      hide Fits, FramesOf, Rank;
      PaintRowsAt(base, 0, rows);
      assert PaintFrames(base, frames) == PaintRows(base, 0, rows);
    }
  }

  /** The stream paints every delivered line in its own row, and nothing else. */
  lemma {:induction false} FramesPaint(img: Image, base: Picture)
    requires |base| == img.height
    ensures Fits(FramesOf(img), img.width, |base|)
    ensures forall r :: 0 <= r < |base| ==> PaintFrames(base, FramesOf(img))[r] == FinalRow(img, base, r)
  {
    hide *;
    if img.interlace {
      InterlacedFramesPaint(img, base);
    } else {
      PlainFramesPaint(img, base);
    }
  }

  /** How a picture of colour indices is stored in a file. */
  function Stored(rows: seq<seq<Byte>>, interlace: bool): seq<seq<Byte>> {
    EachRowOnce(|rows|);
    if interlace then seq(|rows|, i requires 0 <= i < |rows| => rows[Order(|rows|)[i]]) else rows
  }

  /** A picture stored in either order is shown in its own order. */
  lemma {:induction false} ShownAsDrawn(img: Image, rows: seq<seq<Byte>>, base: Picture)
    requires |rows| == img.height == |base| && img.Confined()
    requires img.lines == Stored(rows, img.interlace)
    ensures forall r :: 0 <= r < |rows| ==> FinalRow(img, base, r) == RowBytes(img, rows[r])
  {
    EachRowOnce(|rows|);
    hide Order, Rank;
  }

  /** Every pixel of a picture that was stored whole is shown in its place, in its colour. */
  lemma {:induction false} PixelsShown(raster: array2<Byte>, img: Image, rows: seq<seq<Byte>>, base: Picture, r: nat,
                                       c: nat)
    requires |rows| == img.height && img.Confined() && img.lines == Stored(rows, img.interlace)
    requires ShowsImage(raster, img, base) && r < img.height && c < |rows[r]| == img.width
    ensures raster.Length0 == img.height && raster.Length1 == 4 * img.width
    ensures var color := img.colors[rows[r][c]];
            && raster[r, 4 * c] == color.blue && raster[r, 4 * c + 1] == color.green
            && raster[r, 4 * c + 2] == color.red
            && raster[r, 4 * c + 3] == if rows[r][c] as int == img.trans then 0 else 255
  {
    ShownAsDrawn(img, rows, base);
    RowBytesAt(img, rows[r], c);
    hide FinalRow, RowBytes, Stored;
  }

  // ---------------------------------------------------------------------------
  // Loading
  // ---------------------------------------------------------------------------

  predicate IsGif(data: seq<Byte>) {
    |data| >= 3 && data[0] as int == 'G' as int && data[1] as int == 'I' as int && data[2] as int == 'F' as int
  }

  /** The files that come to be shown: a GIF that decodes, and does not end on a chunk boundary. */
  predicate Loadable(file: seq<Byte>, library: Library) {
    |file| % CHUNK != 0 && IsGif(file) && library.Decode(file).Found?
  }

  ghost predicate ShowsImage(raster: array2<Byte>, img: Image, base: Picture)
    reads raster
  {
    && raster.Length0 == img.height == |base| && raster.Length1 == 4 * img.width
    && forall r, c :: 0 <= r < raster.Length0 && 0 <= c < raster.Length1 ==>
         |FinalRow(img, base, r)| == raster.Length1 && raster[r, c] == FinalRow(img, base, r)[c]
  }

  /** The picture a raster shows. */
  ghost function Contents(raster: array2<Byte>): Picture
    reads raster
  {
    seq(raster.Length0, r requires 0 <= r < raster.Length0 reads raster =>
      seq(raster.Length1, c requires 0 <= c < raster.Length1 reads raster => raster[r, c]))
  }

  method PaintBitmap(gif: GIFTrans, top: TopHeader, ghost img: Image)
    returns (raster: array2<Byte>, ghost base: Picture)
    requires top == TopHeader(img.width, img.height)
    requires gif.Flowing() && gif.outBuffer == Stream(FramesOf(img), img.width)
    modifies gif`outBuffer
    ensures fresh(raster) && ShowsImage(raster, img, base)
  {
    raster := new Byte[top.height, 4 * top.width];
    base := Contents(raster);
    ghost var job := Job(base, FramesOf(img), img.width);
    FramesPaint(img, base);
    assert job.frames[0..] == job.frames && job.frames[..|job.frames|] == job.frames;
    Drain(gif, raster, job);
  }

  ghost predicate Untouched(gif: GIFTrans)
    reads gif
  {
    !gif.decoded && gif.outBuffer == [] && gif.topHeader == None && !gif.topHeaderRead
  }

  /** Asks for a bitmap, and paints it if there is one. */
  method TryToShow(gif: GIFTrans) returns (bitmap: Option<array2<Byte>>, ghost base: Picture)
    requires Untouched(gif)
    modifies gif`decoded, gif`outBuffer, gif`topHeader, gif`topHeaderRead
    ensures !gif.eof ==> Untouched(gif)
    ensures bitmap.Some? <==> gif.eof && gif.library.Decode(gif.inBuffer).Found?
    ensures bitmap.Some? ==>
              && fresh(bitmap.value)
              && ShowsImage(bitmap.value, gif.library.Decode(gif.inBuffer).image, base)
  {
    hide ShowsImage, FramesOf, Stream;
    bitmap, base := None, [];
    var top := gif.ReadTop();
    if top.Some? {
      ghost var img := gif.library.Decode(gif.inBuffer).image;
      var raster;
      raster, base := PaintBitmap(gif, top.value, img);
      bitmap := Some(raster);
    }
  }

  method LoadBitmap(file: seq<Byte>, library: Library) returns (bitmap: Option<array2<Byte>>, ghost base: Picture)
    ensures bitmap.Some? <==> Loadable(file, library)
    ensures bitmap.Some? ==> ShowsImage(bitmap.value, library.Decode(file).image, base)
  {
    bitmap, base := None, [];
    hide ShowsImage;
    var gif := new GIFTrans(library);
    var offset: nat := 0;
    while true
      invariant offset <= |file| && gif.inBuffer == file[..offset] && gif.library == library
      invariant offset > 0 ==> IsGif(file)
      invariant !gif.eof ==> offset % CHUNK == 0 && bitmap.None? && Untouched(gif)
      invariant gif.eof ==> offset == |file| && |file| % CHUNK != 0 && (bitmap.Some? <==> library.Decode(file).Found?)
      invariant bitmap.Some? ==>
                  && library.Decode(file).Found?
                  && ShowsImage(bitmap.value, library.Decode(file).image, base)
      decreases |file| - offset
    {
      var nBytesRead := Min(|file| - offset, CHUNK);
      if nBytesRead == 0 {
        break;
      }
      var chunk := file[offset..offset + nBytesRead];
      if offset == 0 && !IsGif(chunk) {
        return;
      }
      gif.AddData(chunk, nBytesRead != CHUNK);
      offset := offset + nBytesRead;
      assert nBytesRead != CHUNK ==> file[..offset] == file;
      if bitmap.None? {
        bitmap, base := TryToShow(gif);
      }
    }
  }
}
