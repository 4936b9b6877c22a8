/**
 * The image buffer: a `width * height` array of colours stored row by row,
 * written one pixel at a time, and the plain PPM (Netpbm `P3`) text that
 * `save_as` writes. The file itself is not modelled; `SaveLines` returns
 * the lines that would be written to it.
 */
module Images {
  import opened Numerics
  import opened Vectors

  /** `1.0 / n as f32`: a finite reciprocal, or positive infinity for `n == 0`. */
  datatype Extended = Finite(value: real) | PosInf

  function Inverse(n: nat): (r: Extended)
    ensures n == 0 <==> r.PosInf?
    ensures n > 0 ==> r.value * n as real == 1.0 && r.value > 0.0
  {
    if n == 0 then PosInf else Finite(Recip(n as real))
  }

  /**
   * `j * width`, the first cell of row `j`, counted out row by row so that
   * the layout lemmas below stay linear; `RowStartIsProduct` connects it
   * to the product. `RowStart(height, width)` is the buffer size.
   */
  function RowStart(j: nat, width: nat): nat {
    if j == 0 then 0 else RowStart(j - 1, width) + width
  }

  lemma {:induction false} RowStartIsProduct(j: nat, width: nat)
    ensures RowStart(j, width) == j * width
  {
    if j > 0 {
      RowStartIsProduct(j - 1, width);
      assert j * width == (j - 1) * width + width;
    }
  }

  /** A later row starts at least a whole row further on. */
  lemma {:induction false} RowStartStrictlyIncreasing(a: nat, b: nat, width: nat)
    requires a < b
    ensures RowStart(a, width) + width <= RowStart(b, width)
    decreases b
  {
    if a < b - 1 {
      RowStartStrictlyIncreasing(a, b - 1, width);
    }
  }

  /** Where `set_pixel(i, j, _)` writes: `i + j * width`. */
  function PixelIndex(i: nat, j: nat, width: nat): nat {
    i + RowStart(j, width)
  }

  /** Coordinates inside the image address a cell of the buffer. */
  lemma PixelIndexInBounds(i: nat, j: nat, w: nat, h: nat)
    requires i < w && j < h
    ensures PixelIndex(i, j, w) < RowStart(h, w)
  {
    RowStartStrictlyIncreasing(j, h, w);
  }

  /** Distinct coordinates inside the image address distinct cells. */
  lemma PixelIndexInjective(i1: nat, j1: nat, i2: nat, j2: nat, w: nat)
    requires i1 < w && i2 < w
    requires PixelIndex(i1, j1, w) == PixelIndex(i2, j2, w)
    ensures i1 == i2 && j1 == j2
  {
    if j1 < j2 {
      RowStartStrictlyIncreasing(j1, j2, w);
    } else if j2 < j1 {
      RowStartStrictlyIncreasing(j2, j1, w);
    }
  }

  /**
   * The column is not checked on its own: `i == width` on row `j` is the
   * first pixel of row `j + 1`.
   */
  lemma ColumnPastWidthAliasesNextRow(w: nat, j: nat)
    ensures PixelIndex(w, j, w) == PixelIndex(0, j + 1, w)
  {
    assert RowStart(j + 1, w) == RowStart(j, w) + w;
  }

  /** Writing pixel `(i, j)` of a buffer leaves every other pixel of the image as it was. */
  lemma WriteTouchesOnlyItsPixel(data: seq<Vec3>, w: nat, h: nat, i: nat, j: nat, c: Vec3,
                                                    i2: nat, j2: nat)
    requires |data| == RowStart(h, w) && i < w && j < h && i2 < w && j2 < h
    requires i2 != i || j2 != j
    ensures PixelIndex(i, j, w) < |data| && PixelIndex(i2, j2, w) < |data|
    ensures data[PixelIndex(i, j, w) := c][PixelIndex(i2, j2, w)] == data[PixelIndex(i2, j2, w)]
  {
    PixelIndexInBounds(i, j, w, h);
    PixelIndexInBounds(i2, j2, w, h);
    if PixelIndex(i, j, w) == PixelIndex(i2, j2, w) {
      PixelIndexInjective(i, j, i2, j2, w);
    }
  }

  // ----- number formatting, as `{}` prints an `i32` -----

  function DigitChar(d: nat): char
    requires d < 10
  {
    "0123456789"[d]
  }

  predicate IsDigit(ch: char) {
    '0' <= ch <= '9'
  }

  predicate AllDigits(s: string) {
    forall k :: 0 <= k < |s| ==> IsDigit(s[k])
  }

  function DigitValue(ch: char): nat
    requires IsDigit(ch)
  {
    (ch as int - '0' as int) as nat
  }

  /** Decimal digits of `n`, most significant first, without leading zeros. */
  function NatToString(n: nat): (s: string)
    ensures |s| > 0
    decreases n
  {
    if n < 10 then [DigitChar(n)] else NatToString(n / 10) + [DigitChar(n % 10)]
  }

  /** `{}` of an integer: a minus sign before the digits of a negative one. */
  function IntToString(n: int): string {
    if n < 0 then "-" + NatToString(-n) else NatToString(n)
  }

  /** The value of a string of decimal digits. */
  function ParseNat(s: string): nat
    requires AllDigits(s)
  {
    if |s| == 0 then 0 else ParseNat(s[..|s| - 1]) * 10 + DigitValue(s[|s| - 1])
  }

  /** An optional minus sign followed by decimal digits. */
  predicate IsIntString(s: string) {
    if |s| > 0 && s[0] == '-' then |s| > 1 && AllDigits(s[1..]) else |s| > 0 && AllDigits(s)
  }

  function ParseInt(s: string): int
    requires IsIntString(s)
  {
    if |s| > 0 && s[0] == '-' then -(ParseNat(s[1..]) as int) else ParseNat(s)
  }

  lemma {:induction false} NatToStringRoundTrip(n: nat)
    ensures AllDigits(NatToString(n)) && NatToString(n)[0] != '-'
    ensures ParseNat(NatToString(n)) == n
    decreases n
  {
    var s := NatToString(n);
    if n < 10 {
      assert s == [DigitChar(n)];
      assert s[..0] == [];
    } else {
      NatToStringRoundTrip(n / 10);
      var p := NatToString(n / 10);
      assert s == p + [DigitChar(n % 10)];
      assert s[..|s| - 1] == p;
    }
  }

  lemma MinusSign(digits: string)
    requires |digits| > 0 && AllDigits(digits)
    ensures IsIntString("-" + digits) && ParseInt("-" + digits) == -(ParseNat(digits) as int)
  {
    assert ("-" + digits)[1..] == digits;
  }

  /** Printing an integer and reading it back gives the integer. */
  lemma IntToStringRoundTrip(n: int)
    ensures IsIntString(IntToString(n))
    ensures ParseInt(IntToString(n)) == n
  {
    if n < 0 {
      NatToStringRoundTrip(-n);
      MinusSign(NatToString(-n));
    } else {
      NatToStringRoundTrip(n);
    }
  }

  // ----- the lines of the PPM file -----

  /**
   * One channel: `(255.99 * c) as i32`. A channel in `[0, 1]` is written as
   * a value from 0 to 255, the integer part of `255.99 c`.
   */
  function Channel(c: real): (n: int)
    ensures I32Min <= n <= I32Max
    ensures 0.0 <= c <= 1.0 ==> 0 <= n <= 255 && n as real <= 255.99 * c < n as real + 1.0
  {
    if 0.0 <= c then ProductNonNegative(255.99, c); AsI32(255.99 * c) else AsI32(255.99 * c)
  }

  /**
   * The line `"ir ig ib"` for one pixel: three integer texts separated by
   * single spaces, which read back as the three channels.
   */
  function ColourLine(col: Vec3): (line: string)
    ensures exists ir, ig, ib ::
      && line == ir + " " + ig + " " + ib
      && IsIntString(ir) && IsIntString(ig) && IsIntString(ib)
      && ParseInt(ir) == Channel(col.x) && ParseInt(ig) == Channel(col.y) && ParseInt(ib) == Channel(col.z)
  {
    IntToStringRoundTrip(Channel(col.x));
    IntToStringRoundTrip(Channel(col.y));
    IntToStringRoundTrip(Channel(col.z));
    IntToString(Channel(col.x)) + " " + IntToString(Channel(col.y)) + " " + IntToString(Channel(col.z))
  }

  /**
   * The three header lines: `P3`, then the width and the height as integer
   * texts separated by a space, then the maximum channel value 255.
   */
  function Header(w: nat, h: nat): (lines: seq<string>)
    ensures |lines| == 3 && lines[0] == "P3" && lines[2] == "255"
    ensures exists sw, sh ::
      && lines[1] == sw + " " + sh
      && IsIntString(sw) && IsIntString(sh) && ParseInt(sw) == w && ParseInt(sh) == h
  {
    IntToStringRoundTrip(w);
    IntToStringRoundTrip(h);
    ["P3", IntToString(w) + " " + IntToString(h), "255"]
  }

  /** `f` applied to each element, in order. */
  function Map<A, B>(xs: seq<A>, f: A -> B): (ys: seq<B>)
    ensures |ys| == |xs|
  {
    seq(|xs|, k requires 0 <= k < |xs| => f(xs[k]))
  }

  lemma MapAppend<A, B>(xs: seq<A>, x: A, f: A -> B)
    ensures Map(xs + [x], f) == Map(xs, f) + [f(x)]
  {
  }

  lemma MapAt<A, B>(xs: seq<A>, k: nat, f: A -> B)
    requires k < |xs|
    ensures Map(xs, f)[k] == f(xs[k])
  {
  }

  lemma MapConcat<A, B>(xs: seq<A>, ys: seq<A>, f: A -> B)
    ensures Map(xs + ys, f) == Map(xs, f) + Map(ys, f)
  {
  }

  /** Pixels `0 .. i-1` of row `j`, left to right. */
  function RowPixels(data: seq<Vec3>, w: nat, h: nat, j: nat, i: nat): (row: seq<Vec3>)
    requires |data| == RowStart(h, w) && j < h && i <= w
    ensures |row| == i
  {
    if i == 0 then []
    else
      PixelIndexInBounds(i - 1, j, w, h);
      RowPixels(data, w, h, j, i - 1) + [data[PixelIndex(i - 1, j, w)]]
  }

  /** The pixels of rows `h-1` down to `j`, in the order they are written: the top row first. */
  function RowsFrom(data: seq<Vec3>, w: nat, h: nat, j: nat): seq<Vec3>
    requires |data| == RowStart(h, w) && j <= h
    decreases h - j
  {
    if j == h then [] else RowsFrom(data, w, h, j + 1) + RowPixels(data, w, h, j, w)
  }

  lemma RowsFromStep(data: seq<Vec3>, w: nat, h: nat, j: nat)
    requires |data| == RowStart(h, w) && j < h
    ensures RowsFrom(data, w, h, j) == RowsFrom(data, w, h, j + 1) + RowPixels(data, w, h, j, w)
  {
  }

  /** Emitting row `j` after the rows below it yields the lines of rows `j` and below. */
  lemma SaveLinesStep(data: seq<Vec3>, w: nat, h: nat, j: nat, header: seq<string>,
                      before: seq<string>, after: seq<string>)
    requires |data| == RowStart(h, w) && j < h
    requires before == header + Map(RowsFrom(data, w, h, j + 1), ColourLine)
    requires after == before + Map(RowPixels(data, w, h, j, w), ColourLine)
    ensures after == header + Map(RowsFrom(data, w, h, j), ColourLine)
  {
    var above := RowsFrom(data, w, h, j + 1);
    var row := RowPixels(data, w, h, j, w);
    ConcatAssociates(header, Map(above, ColourLine), Map(row, ColourLine));
    MapConcat(above, row, ColourLine);
    RowsFromStep(data, w, h, j);
  }

  lemma ConcatAssociates<T>(a: seq<T>, b: seq<T>, c: seq<T>)
    ensures (a + b) + c == a + (b + c)
  {
  }

  /** The lines `save_as` writes: the header, then one line per pixel. */
  function PpmLines(data: seq<Vec3>, w: nat, h: nat): (lines: seq<string>)
    requires |data| == RowStart(h, w)
    ensures |lines| == 3 + RowStart(h, w) && lines[..3] == Header(w, h)
  {
    RowsFromLength(data, w, h, 0);
    assert h - 0 == h;
    Header(w, h) + Map(RowsFrom(data, w, h, 0), ColourLine)
  }

  lemma RowPixelsStep(data: seq<Vec3>, w: nat, h: nat, j: nat, i: nat)
    requires |data| == RowStart(h, w) && j < h && i < w
    ensures PixelIndex(i, j, w) < |data|
    ensures RowPixels(data, w, h, j, i + 1) == RowPixels(data, w, h, j, i) + [data[PixelIndex(i, j, w)]]
  {
    PixelIndexInBounds(i, j, w, h);
  }

  /** Appending the line of pixel `(i, j)` extends the lines of row `j` by one pixel. */
  lemma EmitStep(data: seq<Vec3>, w: nat, h: nat, j: nat, i: nat, lines: seq<string>, out: seq<string>)
    requires |data| == RowStart(h, w) && j < h && i < w
    requires out == lines + Map(RowPixels(data, w, h, j, i), ColourLine)
    ensures PixelIndex(i, j, w) < |data|
    ensures out + [ColourLine(data[PixelIndex(i, j, w)])] == lines + Map(RowPixels(data, w, h, j, i + 1), ColourLine)
  {
    RowPixelsStep(data, w, h, j, i);
    MapAppend(RowPixels(data, w, h, j, i), data[PixelIndex(i, j, w)], ColourLine);
  }

  lemma {:induction false} RowPixelsAt(data: seq<Vec3>, w: nat, h: nat, j: nat, i: nat, k: nat)
    requires |data| == RowStart(h, w) && j < h && k < i <= w
    ensures PixelIndex(k, j, w) < |data|
    ensures RowPixels(data, w, h, j, i)[k] == data[PixelIndex(k, j, w)]
    decreases i
  {
    PixelIndexInBounds(k, j, w, h);
    if k < i - 1 {
      RowPixelsAt(data, w, h, j, i - 1, k);
    }
  }

  lemma {:induction false} RowsFromLength(data: seq<Vec3>, w: nat, h: nat, lo: nat)
    requires |data| == RowStart(h, w) && lo <= h
    ensures |RowsFrom(data, w, h, lo)| == RowStart(h - lo, w)
    decreases h - lo
  {
    if lo < h {
      RowsFromLength(data, w, h, lo + 1);
    }
  }

  /**
   * Rows `h-1 .. lo` hold `(h - lo) * w` pixels, and pixel `(i, j)` is at
   * position `(h - 1 - j) * w + i` among them.
   */
  lemma {:induction false} RowsFromLayout(data: seq<Vec3>, w: nat, h: nat, lo: nat, i: nat, j: nat)
    requires |data| == RowStart(h, w) && lo <= j < h && i < w
    ensures PixelIndex(i, j, w) < |data|
    ensures PixelIndex(i, h - 1 - j, w) < |RowsFrom(data, w, h, lo)|
    ensures RowsFrom(data, w, h, lo)[PixelIndex(i, h - 1 - j, w)] == data[PixelIndex(i, j, w)]
    decreases h - lo
  {
    PixelIndexInBounds(i, j, w, h);
    RowsFromLength(data, w, h, lo + 1);
    if lo < j {
      RowsFromLayout(data, w, h, lo + 1, i, j);
    } else {
      RowPixelsAt(data, w, h, j, w, i);
    }
  }

  /**
   * The pixels are written the top row (`j == h - 1`) first and each row
   * left to right: pixel `(i, j)` is the `(h - 1 - j) * w + i`-th one
   * written, and every pixel is written once.
   */
  lemma WriteOrder(data: seq<Vec3>, w: nat, h: nat, i: nat, j: nat)
    requires |data| == RowStart(h, w) && i < w && j < h
    ensures |RowsFrom(data, w, h, 0)| == |data|
    ensures PixelIndex(i, j, w) < |data| && PixelIndex(i, h - 1 - j, w) < |data|
    ensures RowsFrom(data, w, h, 0)[PixelIndex(i, h - 1 - j, w)] == data[PixelIndex(i, j, w)]
  {
    RowsFromLength(data, w, h, 0);
    assert h - 0 == h;
    RowsFromLayout(data, w, h, 0, i, j);
  }

  /**
   * The file is the three header lines and then one line per pixel: line
   * `3 + k` formats the `k`-th pixel written.
   */
  lemma PpmLineAt(data: seq<Vec3>, w: nat, h: nat, k: nat)
    requires |data| == RowStart(h, w) && k < RowStart(h, w)
    ensures |Header(w, h)| == 3 && |RowsFrom(data, w, h, 0)| == RowStart(h, w)
    ensures PpmLines(data, w, h)[3 + k] == ColourLine(RowsFrom(data, w, h, 0)[k])
  {
    RowsFromLength(data, w, h, 0);
    assert h - 0 == h;
    MapAt(RowsFrom(data, w, h, 0), k, ColourLine);
  }


  /** `i + j * w` computed as the source does, for a pixel inside the image. */
  function PixelOffset(i: nat, j: nat, w: nat, h: nat): (k: nat)
    requires i < w && j < h
    ensures k == PixelIndex(i, j, w) && k < RowStart(h, w)
  {
    RowStartIsProduct(j, w);
    PixelIndexInBounds(i, j, w, h);
    i + j * w
  }

  class Image {
    const width: nat
    const height: nat
    const invWidth: Extended
    const invHeight: Extended
    /** The pixels, row `j` at `j * width .. (j + 1) * width`. */
    const imageData: array<Vec3>

    ghost predicate Valid()
      reads this
    {
      && imageData.Length == RowStart(height, width)
      && invWidth == Inverse(width) && invHeight == Inverse(height)
    }

    /** `Image::new(w, h)`: `w * h` black pixels. */
    constructor (w: nat, h: nat)
      ensures Valid() && fresh(imageData) && imageData.Length == w * h
      ensures width == w && height == h
      ensures invWidth == Inverse(w) && invHeight == Inverse(h)
      ensures forall k :: 0 <= k < imageData.Length ==> imageData[k] == Zero
    {
      width := w;
      height := h;
      invWidth := Inverse(w);
      invHeight := Inverse(h);
      imageData := new Vec3[w * h](_ => Zero);
      RowStartIsProduct(h, w);
    }

    /** `width()`: the buffer holds `width()` pixels for each of the `height` rows. */
    function Width(): (w: nat)
      reads this
      ensures Valid() ==> imageData.Length == w * height
    {
      RowStartIsProduct(height, width);
      width
    }

    /** `height()`: the buffer holds `height()` rows of `width` pixels. */
    function Height(): (h: nat)
      reads this
      ensures Valid() ==> imageData.Length == h * width
    {
      RowStartIsProduct(height, width);
      height
    }

    /** `inv_width()`: `1 / width`, infinite exactly for a zero width. */
    function InvWidth(): (inv: Extended)
      reads this
      ensures Valid() ==> (width == 0 <==> inv.PosInf?)
      ensures Valid() && width > 0 ==> inv.value * width as real == 1.0
    {
      invWidth
    }

    /** `inv_height()`: `1 / height`, infinite exactly for a zero height. */
    function InvHeight(): (inv: Extended)
      reads this
      ensures Valid() ==> (height == 0 <==> inv.PosInf?)
      ensures Valid() && height > 0 ==> inv.value * height as real == 1.0
    {
      invHeight
    }

    /**
     * `set_pixel(i, j, color)`: overwrites cell `i + j * width` and nothing
     * else. Only the cell index is bounds-checked (an index past the end
     * panics), so a column past the width writes into a later row.
     */
    method SetPixel(i: nat, j: nat, color: Vec3)
      requires Valid() && PixelIndex(i, j, width) < imageData.Length
      modifies imageData
      ensures imageData[..] == old(imageData[..])[PixelIndex(i, j, width) := color]
    {
      RowStartIsProduct(j, width);
      imageData[i + j * width] := color;
    }

    /** The lines `save_as` writes: the header, then the rows from the top down. */
    method SaveLines() returns (lines: seq<string>)
      requires Valid()
      ensures lines == PpmLines(imageData[..], width, height)
    {
      ghost var data := imageData[..];
      lines := Header(width, height);
      ghost var header := lines;
      for j := height downto 0
        invariant lines == header + Map(RowsFrom(data, width, height, j), ColourLine)
      {
        ghost var before := lines;
        lines := EmitRow(j, lines);
        SaveLinesStep(data, width, height, j, header, before, lines);
      }
    }

    /** One pass of the inner loop of `save_as`: the lines of row `j`, left to right. */
    method EmitRow(j: nat, lines: seq<string>) returns (out: seq<string>)
      requires Valid() && j < height
      ensures out == lines + Map(RowPixels(imageData[..], width, height, j, width), ColourLine)
    {
      ghost var data := imageData[..];
      out := lines;
      for i := 0 to width
        invariant out == lines + Map(RowPixels(data, width, height, j, i), ColourLine)
      {
        var col := imageData[PixelOffset(i, j, width, height)];
        EmitStep(data, width, height, j, i, lines, out);
        out := out + [ColourLine(col)];
      }
    }
  }
}
