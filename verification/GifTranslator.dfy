/**
 The translator: it collects the whole file, decodes it once, and then hands out the
 stream from a first-in first-out buffer.
 */
module GifTranslator {
  import opened Common
  import opened Interlace
  import opened GifStream

  datatype TopHeader = TopHeader(width: nat, height: nat)

  lemma {:induction false} SingleRow(row: seq<Byte>)
    ensures Flat([row]) == row
  {
    assert [row][1..] == [];
    assert row + [] == row;
  }

  lemma {:induction false} StripeIsPrefix(pass: nat, h: nat)
    requires pass < 4
    ensures Visited(pass, h) + Stripe(Offset(pass), Jump(pass), h) == Visited(pass + 1, h)
    ensures Visited(pass + 1, h) <= Order(h)
  {
    assert Visited(2, h) <= Visited(3, h) <= Visited(4, h);
    assert Visited(1, h) <= Visited(2, h);
  }

  /** Within a pass: row j is the next to visit, after n rows in all. */
  ghost predicate OnPass(pass: nat, h: nat, n: nat, j: nat)
    requires pass < 4
  {
    n <= |Visited(pass + 1, h)| && Visited(pass + 1, h)[n..] == Stripe(j, Jump(pass), h)
  }

  lemma {:induction false} PassBegins(pass: nat, h: nat)
    requires pass < 4
    ensures OnPass(pass, h, |Visited(pass, h)|, Offset(pass))
  {
    hide Stripe, Offset, Jump;
  }

  lemma {:induction false} PassGoesOn(pass: nat, h: nat, n: nat, j: nat)
    requires pass < 4 && OnPass(pass, h, n, j) && j < h
    ensures n < |Order(h)| && Order(h)[n] == j && OnPass(pass, h, n + 1, j + Jump(pass))
  {
    var all, rest := Visited(pass + 1, h), Stripe(j, Jump(pass), h);
    StripeIsPrefix(pass, h);
    assert rest[0] == j && rest[1..] == Stripe(j + Jump(pass), Jump(pass), h);
    hide Visited, Stripe, Order;
    assert all[n..][0] == all[n] && all[n..][1..] == all[n + 1..];
  }

  lemma {:induction false} PassEnds(pass: nat, h: nat, n: nat, j: nat)
    requires pass < 4 && OnPass(pass, h, n, j) && j >= h
    ensures n == |Visited(pass + 1, h)|
  {
    assert Stripe(j, Jump(pass), h) == [];
    hide Visited;
  }

  lemma {:induction false} PixelAppended(img: Image, line: seq<Byte>, j: nat)
    requires j < |line|
    ensures RowBytes(img, line[..j + 1]) == RowBytes(img, line[..j]) + PixelBytes(img, line[j])
  {
    assert line[..j + 1][..j] == line[..j];
  }

  function LineCells(img: Image, y: nat, line: seq<Byte>): seq<Cell> {
    (if img.interlace then [Head(HeaderOf(Frame(y, 1, []), img.width))] else []) + Octets(RowBytes(img, line))
  }

  /** The stream of the first n lines of a plain image. */
  function PlainCells(img: Image, n: nat): seq<Cell>
    requires n <= |img.lines|
  {
    [Head(HeaderOf(Frame(0, img.height, []), img.width))] + Octets(Flat(Rows(img, img.lines[..n])))
  }

  lemma {:induction false} PlainAppended(img: Image, n: nat)
    requires n < |img.lines| && !img.interlace
    ensures PlainCells(img, n + 1) == PlainCells(img, n) + LineCells(img, n, img.lines[n])
  {
    var a, row := Rows(img, img.lines[..n]), RowBytes(img, img.lines[n]);
    assert Rows(img, img.lines[..n + 1]) == a + [row];
    FlatSnoc(a, row);
    OctetsAppend(Flat(a), row);
  }

  lemma {:induction false} PlainIsStream(img: Image)
    requires !img.interlace && img.Confined()
    ensures PlainCells(img, |img.lines|) == Stream(FramesOf(img), img.width)
  {
    var f := Frame(0, img.height, Rows(img, img.lines));
    assert img.lines[..|img.lines|] == img.lines;
    StreamSnoc([], f, img.width);
    assert [] + [f] == [f] == FramesOf(img);
    assert Stream([], img.width) + Block(f, img.width) == Block(f, img.width);
  }

  lemma {:induction false} FramesSnoc(img: Image, n: nat)
    requires img.interlace && n < |img.Delivered()|
    ensures n < |FramesOf(img)| && |Order(img.height)| == img.height
    ensures FramesOf(img)[..n + 1] == FramesOf(img)[..n] + [RowFrame(img, n)]
  {
    EachRowOnce(img.height);
    hide Order;
  }

  lemma {:induction false} RowBlock(img: Image, n: nat)
    requires img.interlace && n < |img.Delivered()| && |Order(img.height)| == img.height
    ensures Block(RowFrame(img, n), img.width) == LineCells(img, Order(img.height)[n], img.lines[n])
  {
    hide Order, Flat, Octets, RowBytes;
    SingleRow(RowBytes(img, img.lines[n]));
  }

  lemma {:induction false} RowAppended(img: Image, n: nat)
    requires img.interlace && n < |img.Delivered()|
    ensures n <= |FramesOf(img)| && |Order(img.height)| == img.height
    ensures Stream(FramesOf(img)[..n + 1], img.width)
         == Stream(FramesOf(img)[..n], img.width) + LineCells(img, Order(img.height)[n], img.lines[n])
  {
    FramesSnoc(img, n);
    hide FramesOf, Order, RowFrame, Stream, Block, LineCells;
    RowBlock(img, n);
    StreamSnoc(FramesOf(img)[..n], RowFrame(img, n), img.width);
  }

  /** The first n rows of an interlaced image have been written. */
  ghost predicate AtRow(img: Image, n: nat, out: seq<Cell>) {
    && n <= |img.lines| && img.interlace && img.Confined()
    && |FramesOf(img)| == |img.lines| && out == Stream(FramesOf(img)[..n], img.width)
  }

  lemma {:induction false} AtRowStep(img: Image, n: nat, out: seq<Cell>)
    requires AtRow(img, n, out)
    ensures n <= |img.lines| && |Order(img.height)| == img.height && |img.lines| <= img.height
    ensures n < |img.lines| ==> AtRow(img, n + 1, out + LineCells(img, Order(img.height)[n], img.lines[n]))
  {
    EachRowOnce(img.height);
    if n < |img.lines| {
      RowAppended(img, n);
      hide FramesOf, Stream, LineCells;
    }
  }

  lemma {:induction false} RowStep(img: Image, n: nat, j: nat, out: seq<Cell>)
    requires AtRow(img, n, out) && n < |Order(img.height)| && Order(img.height)[n] == j
    ensures n <= |img.lines|
    ensures n < |img.lines| ==> AtRow(img, n + 1, out + LineCells(img, j, img.lines[n]))
  {
    hide AtRow, LineCells, Order;
    AtRowStep(img, n, out);
  }

  class GIFTrans {
    const library: Library
    var inBuffer: seq<Byte>
    var outBuffer: seq<Cell>
    var eof: bool
    var decoded: bool
    var topHeader: Option<TopHeader>
    var topHeaderRead: bool

    constructor (library: Library)
      ensures this.library == library && inBuffer == [] && outBuffer == []
      ensures !eof && !decoded && topHeader == None && !topHeaderRead
    {
      this.library := library;
      inBuffer, outBuffer, eof, decoded, topHeader, topHeaderRead := [], [], false, false, None, false;
    }

    method AddData(data: seq<Byte>, final: bool)
      modifies this`inBuffer, this`eof
      ensures inBuffer == old(inBuffer) + data && eof == final
    {
      eof := final;
      inBuffer := inBuffer + data;
    }

    method AddLine(img: Image, y: nat, line: seq<Byte>)
      modifies this`outBuffer
      ensures outBuffer == old(outBuffer) + LineCells(img, y, line)
    {
      ghost var was := outBuffer;
      if img.interlace {
        outBuffer := outBuffer + [Head(FrameHeader(0, y, img.width - 1, y, 4 * img.width, 4 * img.width * 1))];
      }
      ghost var begun := outBuffer;
      for j := 0 to |line|
        invariant outBuffer == begun + Octets(RowBytes(img, line[..j]))
      {
        PixelAppended(img, line, j);
        OctetsAppend(RowBytes(img, line[..j]), PixelBytes(img, line[j]));
        Assoc(begun, Octets(RowBytes(img, line[..j])), Octets(PixelBytes(img, line[j])));
        outBuffer := outBuffer + Octets(PixelBytes(img, line[j]));
      }
      assert line[..|line|] == line;
      Assoc(was, if img.interlace then [Head(HeaderOf(Frame(y, 1, []), img.width))] else [],
            Octets(RowBytes(img, line)));
    }

    /** The line after n others, which belongs in row j. */
    method AddRow(img: Image, j: nat, n: nat)
      requires AtRow(img, n, outBuffer) && n != |img.lines| && n < |Order(img.height)| && Order(img.height)[n] == j
      modifies this`outBuffer
      ensures AtRow(img, n + 1, outBuffer)
    {
      hide AtRow, LineCells, Order;
      RowStep(img, n, j, outBuffer);
      AddLine(img, j, img.lines[n]);
    }

    /** One pass over an interlaced image; complete unless a line cannot be decoded. */
    method DecodePass(img: Image, pass: nat, first: nat) returns (next: nat, complete: bool)
      requires pass < 4 && img.interlace && img.Confined()
      requires first == |Visited(pass, img.height)| && AtRow(img, first, outBuffer)
      modifies this`outBuffer
      ensures AtRow(img, next, outBuffer)
      ensures next == if complete then |Visited(pass + 1, img.height)| else |img.lines|
    {
      PassBegins(pass, img.height);
      hide AtRow, LineCells, Order, Visited, OnPass, Offset, Jump, RawImage.Confined, RawImage.WellFormed;
      next := first;
      var j := Offset(pass);
      while j < img.height
        invariant OnPass(pass, img.height, next, j)
        invariant AtRow(img, next, outBuffer)
        decreases img.height - j
      {
        PassGoesOn(pass, img.height, next, j);
        if next == |img.lines| {
          return next, false;
        }
        AddRow(img, j, next);
        next := next + 1;
        j := j + Jump(pass);
      }
      PassEnds(pass, img.height, next, j);
      complete := true;
    }

    /** The four passes, until the image is complete or a line cannot be decoded. */
    method DecodeInterlaced(img: Image)
      requires img.interlace && img.Confined() && outBuffer == []
      modifies this`outBuffer
      ensures outBuffer == Stream(FramesOf(img), img.width)
    {
      EachRowOnce(img.height);
      assert AtRow(img, 0, []);
      hide Stream, FramesOf, Visited;
      var next: nat, complete := 0, true;
      for pass := 0 to 4
        invariant AtRow(img, next, outBuffer)
        invariant complete && next == |Visited(pass, img.height)|
      {
        next, complete := DecodePass(img, pass, next);
        if !complete {
          assert FramesOf(img)[..next] == FramesOf(img);
          return;
        }
      }
      assert FramesOf(img)[..next] == FramesOf(img);
    }

    /** One frame header, then every line. */
    method DecodePlain(img: Image)
      requires !img.interlace && img.Confined() && outBuffer == []
      modifies this`outBuffer
      ensures outBuffer == Stream(FramesOf(img), img.width)
    {
      outBuffer := outBuffer
          + [Head(FrameHeader(0, 0, img.width - 1, img.height - 1, 4 * img.width, 4 * img.width * img.height))];
      assert outBuffer == PlainCells(img, 0);
      hide PlainCells, LineCells;
      for i := 0 to img.height
        invariant i <= |img.lines| && outBuffer == PlainCells(img, i)
      {
        if i == |img.lines| {
          break;
        }
        PlainAppended(img, i);
        AddLine(img, i, img.lines[i]);
      }
      PlainIsStream(img);
    }

    /** Decodes at most once. */
    method DecodeData()
      requires !decoded ==> outBuffer == [] && topHeader == None
      modifies this`decoded, this`outBuffer, this`topHeader
      ensures decoded
      ensures old(decoded) ==> outBuffer == old(outBuffer) && topHeader == old(topHeader)
      ensures !old(decoded) ==>
                match library.Decode(inBuffer)
                case Broken => outBuffer == [] && topHeader == None
                case Found(img) => topHeader == Some(TopHeader(img.width, img.height))
                                   && outBuffer == Stream(FramesOf(img), img.width)
    {
      if decoded {
        return;
      }
      decoded := true;
      match library.Decode(inBuffer)
      case Broken =>
      case Found(img) =>
        topHeader := Some(TopHeader(img.width, img.height));
        if !img.Confined() {
          return;
        }
        if img.interlace {
          DecodeInterlaced(img);
        } else {
          DecodePlain(img);
        }
    }

    /** Reads the bitmap header; nothing comes before the last of the file. */
    method ReadTop() returns (t: Option<TopHeader>)
      requires !topHeaderRead && (!decoded ==> outBuffer == [] && topHeader == None)
      modifies this`decoded, this`outBuffer, this`topHeader, this`topHeaderRead
      ensures !eof ==>
                && t == None && decoded == old(decoded)
                && outBuffer == old(outBuffer) && topHeader == old(topHeader)
      ensures topHeaderRead == t.Some?
      ensures eof && !old(decoded) ==>
                match library.Decode(inBuffer)
                case Broken => t == None && topHeader == None
                case Found(img) => t == Some(TopHeader(img.width, img.height))
                                   && outBuffer == Stream(FramesOf(img), img.width)
      ensures eof ==> decoded && t == topHeader
    {
      if !eof {
        return None;
      }
      DecodeData();
      if topHeader.None? {
        return None;
      }
      topHeaderRead := true;
      return topHeader;
    }

    /** The rest of the time, Read takes from the buffer. */
    ghost predicate Flowing()
      reads this
    {
      eof && decoded && topHeaderRead
    }

    /** A read of exactly one record header. */
    method ReadHeader() returns (h: Option<FrameHeader>)
      requires Flowing() && (outBuffer != [] ==> outBuffer[0].Head?)
      modifies this`outBuffer
      ensures if old(outBuffer) == [] then h == None && outBuffer == []
              else h == Some(old(outBuffer)[0].header) && outBuffer == old(outBuffer)[1..]
    {
      if outBuffer == [] {
        return None;
      }
      h := Some(outBuffer[0].header);
      outBuffer := outBuffer[1..];
    }

    /** A read of pixel bytes: any number of those asked for, but at least one if there are any. */
    method ReadBytes(max: nat) returns (chunk: seq<Byte>)
      requires Flowing() && forall i :: 0 <= i < max && i < |outBuffer| ==> outBuffer[i].Octet?
      modifies this`outBuffer
      ensures |chunk| <= max && |chunk| <= |old(outBuffer)|
      ensures Octets(chunk) == old(outBuffer)[..|chunk|] && outBuffer == old(outBuffer)[|chunk|..]
      ensures chunk == [] ==> max == 0 || old(outBuffer) == []
    {
      var most := Min(max, |outBuffer|);
      var n: nat :| n <= most && (most > 0 ==> n > 0);
      var cells := outBuffer;
      assert forall i :: 0 <= i < n ==> cells[i].Octet?;
      chunk := seq(n, i requires 0 <= i < n => cells[i].b);
      outBuffer := outBuffer[n..];
    }
  }
}
