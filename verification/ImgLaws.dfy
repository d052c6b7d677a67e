/** What the sums and averages of scaling are, pixel by pixel. */
module ImgLaws {
  import opened Common
  import opened ImgScale
  import opened ImgBuf

  // ----- The sum -----

  lemma {:induction false} ColumnSplits(src: seq<Line>, W: nat, bpp: nat, xo: nat, yo1: nat, ym: nat, yo2: nat, i: nat,
                                        g: Byte -> Byte)
    requires Sized(src, W, bpp) && xo < W && yo1 <= ym <= yo2 <= |src| && i < bpp
    ensures ColumnSum(src, W, bpp, xo, yo1, yo2, i, g)
         == ColumnSum(src, W, bpp, xo, yo1, ym, i, g) + ColumnSum(src, W, bpp, xo, ym, yo2, i, g)
    decreases yo2 - ym
  {
    if ym < yo2 {
      ColumnSplits(src, W, bpp, xo, yo1, ym, yo2 - 1, i, g);
    }
  }

  /** The sum over a rectangle is the sum over its left and its right part. */
  lemma {:induction false} SplitsAcross(src: seq<Line>, W: nat, bpp: nat, xo1: nat, xm: nat, xo2: nat,
                                        yo1: nat, yo2: nat, i: nat, g: Byte -> Byte)
    requires Sized(src, W, bpp) && xo1 <= xm <= xo2 <= W && yo1 <= yo2 <= |src| && i < bpp
    ensures CellSum(src, W, bpp, xo1, xo2, yo1, yo2, i, g)
         == CellSum(src, W, bpp, xo1, xm, yo1, yo2, i, g) + CellSum(src, W, bpp, xm, xo2, yo1, yo2, i, g)
    decreases xo2 - xm
  {
    if xm < xo2 {
      hide Sized, ColumnSum;
      SplitsAcross(src, W, bpp, xo1, xm, xo2 - 1, yo1, yo2, i, g);
    }
  }

  /** And over its upper and its lower part. */
  lemma {:induction false} SplitsDown(src: seq<Line>, W: nat, bpp: nat, xo1: nat, xo2: nat, yo1: nat, ym: nat, yo2: nat,
                                      i: nat, g: Byte -> Byte)
    requires Sized(src, W, bpp) && xo1 <= xo2 <= W && yo1 <= ym <= yo2 <= |src| && i < bpp
    ensures CellSum(src, W, bpp, xo1, xo2, yo1, yo2, i, g)
         == CellSum(src, W, bpp, xo1, xo2, yo1, ym, i, g) + CellSum(src, W, bpp, xo1, xo2, ym, yo2, i, g)
    decreases xo2 - xo1
  {
    if xo1 < xo2 {
      hide Sized, ColumnSum;
      SplitsDown(src, W, bpp, xo1, xo2 - 1, yo1, ym, yo2, i, g);
      ColumnSplits(src, W, bpp, xo2 - 1, yo1, ym, yo2, i, g);
    }
  }

  /** The sum over one pixel is its channel, mapped. */
  lemma OnePixel(src: seq<Line>, W: nat, bpp: nat, x: nat, y: nat, i: nat, g: Byte -> Byte)
    requires Sized(src, W, bpp) && x < W && y < |src| && i < bpp
    ensures CellSum(src, W, bpp, x, x + 1, y, y + 1, i, g) == g(src[y][x][i])
  {
    assert CellSum(src, W, bpp, x, x, y, y + 1, i, g) == 0;
    assert ColumnSum(src, W, bpp, x, y, y, i, g) == 0;
    assert ColumnSum(src, W, bpp, x, y, y + 1, i, g) == g(src[y][x][i]);
  }

  // ----- The average -----

  // All mapped values of channel i in the rectangle lie between lo and hi.
  ghost predicate Between(src: seq<Line>, W: nat, bpp: nat, xo1: nat, xo2: nat, yo1: nat, yo2: nat, i: nat,
                          g: Byte -> Byte, lo: nat, hi: nat)
    requires Sized(src, W, bpp) && xo2 <= W && yo2 <= |src| && i < bpp
  {
    forall x, y :: xo1 <= x < xo2 && yo1 <= y < yo2 ==> lo <= g(src[y][x][i]) <= hi
  }

  lemma {:induction false} ColumnBetween(src: seq<Line>, W: nat, bpp: nat, xo: nat, yo1: nat, yo2: nat, i: nat,
                                         g: Byte -> Byte, lo: nat, hi: nat)
    requires Sized(src, W, bpp) && xo < W && yo1 <= yo2 <= |src| && i < bpp
    requires Between(src, W, bpp, xo, xo + 1, yo1, yo2, i, g, lo, hi)
    ensures (yo2 - yo1) * lo <= ColumnSum(src, W, bpp, xo, yo1, yo2, i, g) <= (yo2 - yo1) * hi
    decreases yo2
  {
    if yo1 < yo2 {
      assert lo <= g(src[yo2 - 1][xo][i]) <= hi;
      ColumnBetween(src, W, bpp, xo, yo1, yo2 - 1, i, g, lo, hi);
      hide Sized, Between;
      OneMore(yo2 - 1 - yo1, lo);
      OneMore(yo2 - 1 - yo1, hi);
    }
  }

  lemma BetweenParts(src: seq<Line>, W: nat, bpp: nat, xo1: nat, xo2: nat, yo1: nat, yo2: nat, i: nat,
                     g: Byte -> Byte, lo: nat, hi: nat)
    requires Sized(src, W, bpp) && xo1 < xo2 <= W && yo1 <= yo2 <= |src| && i < bpp
    requires Between(src, W, bpp, xo1, xo2, yo1, yo2, i, g, lo, hi)
    ensures Between(src, W, bpp, xo1, xo2 - 1, yo1, yo2, i, g, lo, hi)
    ensures Between(src, W, bpp, xo2 - 1, xo2, yo1, yo2, i, g, lo, hi)
  {
  }

  lemma LastColumn(src: seq<Line>, W: nat, bpp: nat, xo1: nat, xo2: nat, yo1: nat, yo2: nat, i: nat, g: Byte -> Byte)
    requires Sized(src, W, bpp) && xo1 <= xo2 <= W && yo1 <= yo2 <= |src| && i < bpp
    ensures CellSum(src, W, bpp, xo1, xo2, yo1, yo2, i, g)
         == if xo1 == xo2 then 0 else CellSum(src, W, bpp, xo1, xo2 - 1, yo1, yo2, i, g) +
                                      ColumnSum(src, W, bpp, xo2 - 1, yo1, yo2, i, g)
  {
    hide Sized, ColumnSum;
  }

  lemma {:induction false} CellBetween(src: seq<Line>, W: nat, bpp: nat, xo1: nat, xo2: nat, yo1: nat, yo2: nat, i: nat,
                                       g: Byte -> Byte, lo: nat, hi: nat)
    requires Sized(src, W, bpp) && xo1 <= xo2 <= W && yo1 <= yo2 <= |src| && i < bpp
    requires Between(src, W, bpp, xo1, xo2, yo1, yo2, i, g, lo, hi)
    ensures (xo2 - xo1) * ((yo2 - yo1) * lo) <= CellSum(src, W, bpp, xo1, xo2, yo1, yo2, i, g)
         <= (xo2 - xo1) * ((yo2 - yo1) * hi)
    decreases xo2
  {
    hide *;
    LastColumn(src, W, bpp, xo1, xo2, yo1, yo2, i, g);
    if xo1 < xo2 {
      BetweenParts(src, W, bpp, xo1, xo2, yo1, yo2, i, g, lo, hi);
      CellBetween(src, W, bpp, xo1, xo2 - 1, yo1, yo2, i, g, lo, hi);
      ColumnBetween(src, W, bpp, xo2 - 1, yo1, yo2, i, g, lo, hi);
      OneMore(xo2 - 1 - xo1, (yo2 - yo1) * lo);
      OneMore(xo2 - 1 - xo1, (yo2 - yo1) * hi);
    }
  }

  // q is the sum divided by the number of pixels, rounded down.
  predicate IsAverage(q: int, sum: int, n: int) {
    q * n <= sum < q * n + n
  }

  lemma AverageLaw(sum: nat, a: nat, b: nat, lo: nat, hi: nat)
    requires a > 0 && b > 0 && sum <= a * (255 * b) && a * (b * lo) <= sum <= a * (b * hi)
    ensures IsAverage(Average(sum, a, b), sum, a * b) && lo <= Average(sum, a, b) <= hi
  {
    AverageIsByte(sum, a, b);
    var n := a * b;
    Quotient(sum, n, lo);
    Quotient(sum, n, hi + 1);
    assert a * (b * lo) == lo * n && a * (b * hi) == hi * n;
    OneMore(hi, n);
  }

  /** Each channel of a pixel is the average of that channel over the rectangle, taken between the two
      gamma maps; it lies between the smallest and the largest value. */
  lemma PixelLaw(src: seq<Line>, W: nat, bpp: nat, xo1: nat, xo2: nat, yo1: nat, yo2: nat, g1: Byte -> Byte,
                 g2: Byte -> Byte, i: nat, lo: nat, hi: nat) returns (q: Byte)
    requires Sized(src, W, bpp) && xo1 < xo2 <= W && yo1 < yo2 <= |src| && i < bpp
    requires Between(src, W, bpp, xo1, xo2, yo1, yo2, i, g2, lo, hi)
    ensures var p := CellPixel(src, W, bpp, xo1, xo2, yo1, yo2, g1, g2);
            && |p| == bpp && p[i] == g1(q) && lo <= q <= hi
            && IsAverage(q, CellSum(src, W, bpp, xo1, xo2, yo1, yo2, i, g2), (xo2 - xo1) * (yo2 - yo1))
  {
    CellBetween(src, W, bpp, xo1, xo2, yo1, yo2, i, g2, lo, hi);
    var sum := CellSum(src, W, bpp, xo1, xo2, yo1, yo2, i, g2);
    q := Average(sum, xo2 - xo1, yo2 - yo1);
    hide CellSum, Average, Sized, Between, IsAverage;
    AverageLaw(sum, xo2 - xo1, yo2 - yo1, lo, hi);
  }

  // ----- Scaled pictures -----

  // The places x1 up to x2 of W belong to place x of w.
  ghost predicate Span(x: nat, W: nat, w: nat, x1: nat, x2: nat)
    requires w > 0
  {
    x1 == x * W / w && x2 == if (x + 1) * W / w > x1 + 1 then (x + 1) * W / w else x1 + 1
  }

  lemma SpanIs(x: nat, W: nat, w: nat)
    requires w > 0
    ensures Span(x, W, w, Lo(x, W, w), Hi(x, W, w))
  {
  }

  // Row 'line' is made of the source rows from y1 up to y2: each pixel is for its own stretch.
  ghost predicate LineOf(line: Line, src: seq<Line>, W: nat, w: nat, bpp: nat, y1: nat, y2: nat,
                         g1: Byte -> Byte, g2: Byte -> Byte)
    requires Sized(src, W, bpp) && W > 0 && w > 0 && y1 < y2 <= |src|
  {
    |line| == w && forall x, x1, x2 :: 0 <= x < w && 0 <= x1 < x2 <= W && Span(x, W, w, x1, x2) ==>
                     line[x] == CellPixel(src, W, bpp, x1, x2, y1, y2, g1, g2)
  }

  lemma LineLaw(src: seq<Line>, W: nat, w: nat, bpp: nat, y1: nat, y2: nat, g1: Byte -> Byte, g2: Byte -> Byte)
    requires Sized(src, W, bpp) && W > 0 && w > 0 && y1 < y2 <= |src|
    ensures LineOf(ScaledLine(src, W, w, bpp, y1, y2, g1, g2), src, W, w, bpp, y1, y2, g1, g2)
  {
    hide Sized, CellPixel;
    var line := ScaledLine(src, W, w, bpp, y1, y2, g1, g2);
    forall x, x1: nat, x2: nat | 0 <= x < w && x1 < x2 <= W && Span(x, W, w, x1, x2)
      ensures line[x] == CellPixel(src, W, bpp, x1, x2, y1, y2, g1, g2)
    {
      SpanIs(x, W, w);
      Stretch(x, W, w);
    }
  }

  /** Scaling rows: each row is for its own stretch of source rows. */
  lemma RowsLaw(src: seq<Line>, W: nat, w: nat, bpp: nat, row0: nat, srcHeight: nat, destHeight: nat,
                g1: Byte -> Byte, g2: Byte -> Byte, y: nat)
    requires Sized(src, W, bpp) && W > 0 && w > 0 && srcHeight > 0 && row0 + srcHeight <= |src| && y < destHeight
    ensures var r := ScaledRows(src, W, w, bpp, row0, srcHeight, destHeight, g1, g2);
            |r| == destHeight && exists y1: nat, y2: nat ::
              && Span(y, srcHeight, destHeight, y1, y2) && y1 < y2 <= srcHeight
              && LineOf(r[y], src, W, w, bpp, row0 + y1, row0 + y2, g1, g2)
  {
    SpanIs(y, srcHeight, destHeight);
    Stretch(y, srcHeight, destHeight);
    hide Sized, LineOf, Span, ScaledLine;
    LineLaw(src, W, w, bpp, row0 + Lo(y, srcHeight, destHeight), row0 + Hi(y, srcHeight, destHeight), g1, g2);
  }

  // The source rows of scaled row s, row by row: its band, or the last row y with y / H < (s + 1) / h.
  ghost predicate Band(s: nat, H: nat, h: nat, y1: nat, y2: nat)
    requires h > 0
  {
    if h <= H then y1 == s * H / h && y2 == (s + 1) * H / h
    else y2 == y1 + 1 && y1 * h < (s + 1) * H <= (y1 + 1) * h
  }

  lemma BandIs(s: nat, H: nat, h: nat)
    requires h > 0 && H > 0
    ensures Band(s, H, h, From(s, H, h), To(s, H, h))
  {
    if h > H {
      FromAtLeast(s, H, h, From(s, H, h));
      FromAtLeast(s, H, h, From(s, H, h) + 1);
      hide From;
    }
  }

  lemma ProgressiveLaw(src: seq<Line>, W: nat, w: nat, h: nat, bpp: nat, g1: Byte -> Byte, g2: Byte -> Byte, s: nat)
    requires Sized(src, W, bpp) && W > 0 && w > 0 && s < h && |src| > 0
    ensures var r := Progressive(src, W, w, h, bpp, g1, g2);
            |r| == h && exists y1: nat, y2: nat ::
              y1 < y2 <= |src| && Band(s, |src|, h, y1, y2) && LineOf(r[s], src, W, w, bpp, y1, y2, g1, g2)
  {
    BandIs(s, |src|, h);
    SourceBand(s, |src|, h);
    hide Sized, LineOf, Band, ScaledLine, From, To;
    LineLaw(src, W, w, bpp, From(s, |src|, h), To(s, |src|, h), g1, g2);
  }

  lemma OwnStretch(x: nat, W: nat)
    requires W > 0
    ensures Lo(x, W, W) == x && Hi(x, W, W) == x + 1
  {
    Quotient(x * W, W, x);
    Quotient(x * W, W, x + 1);
    Quotient((x + 1) * W, W, x + 1);
    Quotient((x + 1) * W, W, x + 2);
    OneMore(x, W);
    OneMore(x + 1, W);
  }

  /** A rectangle of one pixel gives that pixel, mapped twice. */
  lemma PixelOfOne(src: seq<Line>, W: nat, bpp: nat, x: nat, y: nat, g1: Byte -> Byte, g2: Byte -> Byte)
    requires Sized(src, W, bpp) && x < W && y < |src|
    ensures var p := CellPixel(src, W, bpp, x, x + 1, y, y + 1, g1, g2);
            |p| == bpp && forall i :: 0 <= i < bpp ==> p[i] == g1(g2(src[y][x][i]))
  {
    forall i | 0 <= i < bpp
      ensures CellPixel(src, W, bpp, x, x + 1, y, y + 1, g1, g2)[i] == g1(g2(src[y][x][i]))
    {
      OnePixel(src, W, bpp, x, y, i, g2);
    }
  }

  /** At its own size, without gamma, a picture stays as it is. */
  lemma SameSize(src: seq<Line>, W: nat, bpp: nat)
    requires Sized(src, W, bpp) && W > 0 && |src| > 0
    ensures OneShot(src, W, W, |src|, bpp, Plain, Plain) == src
  {
    var r := OneShot(src, W, W, |src|, bpp, Plain, Plain);
    assert |r| == |src|;
    forall y | 0 <= y < |src| ensures r[y] == src[y] {
      OwnStretch(y, |src|);
      SameSizeRow(src, W, bpp, y);
    }
  }

  lemma SameSizeRow(src: seq<Line>, W: nat, bpp: nat, y: nat)
    requires Sized(src, W, bpp) && W > 0 && y < |src|
    ensures ScaledLine(src, W, W, bpp, y, y + 1, Plain, Plain) == src[y]
  {
    var line := ScaledLine(src, W, W, bpp, y, y + 1, Plain, Plain);
    forall x | 0 <= x < W ensures line[x] == src[y][x] {
      OwnStretch(x, W);
      Stretch(x, W, W);
      PixelOfOne(src, W, bpp, x, y, Plain, Plain);
      hide CellPixel;
    }
  }

  /** A row of two grey pixels, to width 1. */
  lemma TwoGreys(a: Byte, b: Byte)
    ensures OneShot([[[a], [b]]], 2, 1, 1, 1, Plain, Plain) == [[[(a + b) / 2]]]
  {
    var src := [[[a], [b]]];
    SplitsAcross(src, 2, 1, 0, 1, 2, 0, 1, 0, Plain);
    OnePixel(src, 2, 1, 0, 0, 0, Plain);
    OnePixel(src, 2, 1, 1, 0, 0, Plain);
    hide CellSum;
    assert CellPixel(src, 2, 1, 0, 2, 0, 1, Plain, Plain) == [(a + b) / 2];
    hide CellPixel;
    assert ScaledLine(src, 2, 1, 1, 0, 1, Plain, Plain) == [[(a + b) / 2]];
  }
}
