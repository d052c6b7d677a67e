/** Scaling an image while its rows arrive: each scaled row is computed once, when the rows it
    averages are there. */
module ImgScale {
  import opened Common

  type Pixel = seq<Byte>
  type Line = seq<Pixel>

  // ----- Row arithmetic -----

  /** scaledY: where row y of H goes among h rows. */
  function ScaledY(y: nat, h: nat, H: nat): nat
    requires H > 0
  {
    y * h / H
  }

  /** Where, of W, the stretch for place x of w begins: backscaledY, and the bounds of scaleBuffer. */
  function Lo(x: nat, W: nat, w: nat): nat
    requires w > 0
  {
    x * W / w
  }

  // Where it ends; a stretch is never empty.
  function Hi(x: nat, W: nat, w: nat): nat
    requires w > 0
  {
    if Lo(x + 1, W, w) > Lo(x, W, w) + 1 then Lo(x + 1, W, w) else Lo(x, W, w) + 1
  }

  lemma {:induction false} TimesMonotone(x: nat, y: nat, k: nat)
    requires x <= y
    ensures x * k <= y * k
  {
    if k > 0 {
      TimesMonotone(x, y, k - 1);
      assert x * k == x * (k - 1) + x && y * k == y * (k - 1) + y;
    }
  }

  lemma OneMore(x: nat, k: nat)
    ensures (x + 1) * k == x * k + k
  {
  }

  // The quotient a / b is the largest q with q * b <= a.
  lemma Quotient(a: nat, b: nat, q: nat)
    requires b > 0
    ensures q <= a / b <==> q * b <= a
  {
    var d := a / b;
    assert d * b <= a < d * b + b;
    if q <= d {
      TimesMonotone(q, d, b);
    } else {
      OneMore(d, b);
      TimesMonotone(d + 1, q, b);
    }
  }

  lemma ScaledEnds(h: nat, H: nat)
    requires h > 0 && H > 0
    ensures ScaledY(0, h, H) == 0 && ScaledY(H, h, H) == h
    ensures Lo(0, H, h) == 0 && Lo(h, H, h) == H
  {
    Quotient(H * h, H, h);
    Quotient(H * h, H, h + 1);
    Quotient(h * H, h, H);
    Quotient(h * H, h, H + 1);
  }

  lemma ScaledAtLeast(y: nat, h: nat, H: nat, s: nat)
    requires H > 0
    ensures s <= ScaledY(y, h, H) <==> s * H <= y * h
  {
    Quotient(y * h, H, s);
  }

  lemma BackAtLeast(s: nat, h: nat, H: nat, y: nat)
    requires h > 0
    ensures y <= Lo(s, H, h) <==> y * h <= s * H
  {
    Quotient(s * H, h, y);
  }

  /** Downscaling: each step of a row moves the scaled row by at most one, so the assert on sr1 and
      sr2 holds; and a scaled row that is passed needs only rows up to the current one. */
  lemma DownStep(y: nat, h: nat, H: nat)
    requires 0 < h <= H && y < H
    ensures var sr1, sr2 := ScaledY(y, h, H), ScaledY(y + 1, h, H);
            && sr1 < h && (sr2 == sr1 || sr2 == sr1 + 1)
            && (sr2 == sr1 + 1 ==> Lo(sr1 + 1, H, h) <= y + 1)
  {
    var sr1, sr2 := ScaledY(y, h, H), ScaledY(y + 1, h, H);
    ScaledAtLeast(y, h, H, sr1);
    ScaledAtLeast(y, h, H, sr1 + 1);
    ScaledAtLeast(y, h, H, h);
    ScaledAtLeast(y + 1, h, H, sr1);
    ScaledAtLeast(y + 1, h, H, sr1 + 2);
    BackAtLeast(sr1 + 1, h, H, y + 2);
    OneMore(y, h);
    OneMore(y + 1, h);
    OneMore(sr1, H);
    OneMore(sr1 + 1, H);
    TimesMonotone(y + 1, H, h);
    hide ScaledY, Lo;
    assert h * H == H * h;
  }

  /** The rows that belong to one scaled row: at least one, and on the image. */
  lemma DownBand(s: nat, h: nat, H: nat)
    requires 0 < h <= H && s < h
    ensures Lo(s, H, h) < Lo(s + 1, H, h) <= H
  {
    var b := Lo(s, H, h);
    BackAtLeast(s, h, H, b);
    BackAtLeast(s + 1, h, H, b + 1);
    BackAtLeast(s + 1, h, H, H + 1);
    OneMore(s, H);
    OneMore(b, h);
    OneMore(H, h);
    TimesMonotone(s + 1, h, H);
    hide Lo;
    assert h * H == H * h;
  }

  // ----- Averages -----

  ghost predicate Sized(src: seq<Line>, W: nat, bpp: nat) {
    && (forall y :: 0 <= y < |src| ==> |src[y]| == W)
    && (forall y, x :: 0 <= y < |src| && 0 <= x < W ==> |src[y][x]| == bpp)
  }

  // The sum of channel i of column xo over the rows from yo1 up to yo.
  function ColumnSum(src: seq<Line>, W: nat, bpp: nat, xo: nat, yo1: nat, yo: nat, i: nat, g: Byte -> Byte): (r: nat)
    requires Sized(src, W, bpp) && xo < W && yo1 <= yo <= |src| && i < bpp
    ensures r <= 255 * (yo - yo1)
  {
    if yo == yo1 then 0
    else ColumnSum(src, W, bpp, xo, yo1, yo - 1, i, g) + g(src[yo - 1][xo][i])
  }

  function CellSum(src: seq<Line>, W: nat, bpp: nat, xo1: nat, xo: nat, yo1: nat, yo2: nat, i: nat,
                   g: Byte -> Byte): (r: nat)
    requires Sized(src, W, bpp) && xo1 <= xo <= W && yo1 <= yo2 <= |src| && i < bpp
    ensures r <= (xo - xo1) * (255 * (yo2 - yo1))
    decreases xo
  {
    if xo == xo1 then 0
    else
      OneMore(xo - 1 - xo1, 255 * (yo2 - yo1));
      CellSum(src, W, bpp, xo1, xo - 1, yo1, yo2, i, g) + ColumnSum(src, W, bpp, xo - 1, yo1, yo2, i, g)
  }

  // An average of bytes is a byte.
  lemma AverageIsByte(sum: nat, a: nat, b: nat)
    requires a > 0 && b > 0 && sum <= a * (255 * b)
    ensures a * b > 0 && sum / (a * b) < 256
  {
    TimesMonotone(1, a, b);
    assert a * (255 * b) == 255 * (a * b);
    Quotient(sum, a * b, 256);
    assert 256 * (a * b) == 255 * (a * b) + a * b;
  }

  function Average(sum: nat, a: nat, b: nat): Byte
    requires a > 0 && b > 0 && sum <= a * (255 * b)
  {
    AverageIsByte(sum, a, b);
    sum / (a * b)
  }

  /** The pixel for a rectangle of pixels: the average of each channel, taken between the two gamma
      maps. */
  function CellPixel(src: seq<Line>, W: nat, bpp: nat, xo1: nat, xo2: nat, yo1: nat, yo2: nat,
                     g1: Byte -> Byte, g2: Byte -> Byte): Pixel
    requires Sized(src, W, bpp) && xo1 < xo2 <= W && yo1 < yo2 <= |src|
  {
    seq<Byte>(bpp, i requires 0 <= i < bpp =>
      g1(Average(CellSum(src, W, bpp, xo1, xo2, yo1, yo2, i, g2), xo2 - xo1, yo2 - yo1)))
  }

  lemma Stretch(x: nat, W: nat, w: nat)
    requires x < w && W > 0
    ensures Lo(x, W, w) < Hi(x, W, w) <= W
  {
    Quotient(x * W, w, W);
    Quotient((x + 1) * W, w, W + 1);
    TimesMonotone(x + 1, w, W);
    OneMore(x, W);
    OneMore(W, w);
    assert w * W == W * w;
  }

  /** A scaled line made of the source rows from yo1 up to yo2. */
  function ScaledLine(src: seq<Line>, W: nat, w: nat, bpp: nat, yo1: nat, yo2: nat,
                      g1: Byte -> Byte, g2: Byte -> Byte): Line
    requires Sized(src, W, bpp) && W > 0 && w > 0 && yo1 < yo2 <= |src|
  {
    seq(w, x requires 0 <= x < w =>
      Stretch(x, W, w);
      CellPixel(src, W, bpp, Lo(x, W, w), Hi(x, W, w), yo1, yo2, g1, g2))
  }

  /** Scaling srcHeight source rows, from row0 on, to destHeight rows. */
  function ScaledRows(src: seq<Line>, W: nat, w: nat, bpp: nat, row0: nat, srcHeight: nat, destHeight: nat,
                      g1: Byte -> Byte, g2: Byte -> Byte): seq<Line>
    requires Sized(src, W, bpp) && W > 0 && w > 0 && srcHeight > 0 && row0 + srcHeight <= |src|
  {
    seq(destHeight, y requires 0 <= y < destHeight =>
      Stretch(y, srcHeight, destHeight);
      ScaledLine(src, W, w, bpp, row0 + Lo(y, srcHeight, destHeight), row0 + Hi(y, srcHeight, destHeight), g1, g2))
  }

  /** Scaling a whole image at once. */
  function OneShot(src: seq<Line>, W: nat, w: nat, h: nat, bpp: nat, g1: Byte -> Byte, g2: Byte -> Byte): seq<Line>
    requires Sized(src, W, bpp) && W > 0 && w > 0 && |src| > 0
  {
    ScaledRows(src, W, w, bpp, 0, |src|, h, g1, g2)
  }

  // ----- scaleBuffer -----

  function RowsOf(a: array2<Pixel>): seq<Line>
    reads a
  {
    seq(a.Length0, y requires 0 <= y < a.Length0 reads a =>
      seq(a.Length1, x requires 0 <= x < a.Length1 reads a => a[y, x]))
  }

  // v[i] += g2[ps[i]]
  method AddPixel(v: seq<nat>, ps: Pixel, g2: Byte -> Byte) returns (r: seq<nat>)
    requires |v| == |ps|
    ensures |r| == |v| && forall i :: 0 <= i < |v| ==> r[i] == v[i] + g2(ps[i])
  {
    r := v;
    for i := 0 to |v|
      invariant |r| == |v| && forall k :: 0 <= k < |v| ==> r[k] == v[k] + if k < i then g2(ps[k]) else 0
    {
      r := r[i := r[i] + g2(ps[i])];
    }
  }

  // The loop over one column of a rectangle.
  method AddColumn(src: array2<Pixel>, xo: nat, yo1: nat, yo2: nat, bpp: nat, v: seq<nat>, g2: Byte -> Byte)
    returns (r: seq<nat>)
    requires Sized(RowsOf(src), src.Length1, bpp) && |v| == bpp
    requires xo < src.Length1 && yo1 <= yo2 <= src.Length0
    ensures |r| == bpp
    ensures forall i :: 0 <= i < bpp ==> r[i] == v[i] + ColumnSum(RowsOf(src), src.Length1, bpp, xo, yo1, yo2, i, g2)
  {
    ghost var rows, W := RowsOf(src), src.Length1;
    r := v;
    var yo := yo1;
    while yo < yo2
      invariant yo1 <= yo <= yo2 && |r| == bpp
      invariant forall i :: 0 <= i < bpp ==> r[i] == v[i] + ColumnSum(rows, W, bpp, xo, yo1, yo, i, g2)
    {
      assert rows[yo][xo] == src[yo, xo];
      r := AddPixel(r, src[yo, xo], g2);
      yo := yo + 1;
    }
  }

  // The loops over one rectangle.
  method AverageCell(src: array2<Pixel>, xo1: nat, xo2: nat, yo1: nat, yo2: nat, bpp: nat,
                     g1: Byte -> Byte, g2: Byte -> Byte) returns (pd: Pixel)
    requires Sized(RowsOf(src), src.Length1, bpp)
    requires xo1 < xo2 <= src.Length1 && yo1 < yo2 <= src.Length0
    ensures pd == CellPixel(RowsOf(src), src.Length1, bpp, xo1, xo2, yo1, yo2, g1, g2)
  {
    hide Sized, ColumnSum, RowsOf, CellPixel;
    ghost var rows, W := RowsOf(src), src.Length1;
    RowCount(src);
    var v: seq<nat> := seq(bpp, i => 0);
    var xo := xo1;
    while xo < xo2
      invariant xo1 <= xo <= xo2 && |v| == bpp
      invariant forall i :: 0 <= i < bpp ==> v[i] == CellSum(rows, W, bpp, xo1, xo, yo1, yo2, i, g2)
    {
      v := AddColumn(src, xo, yo1, yo2, bpp, v, g2);
      xo := xo + 1;
    }
    pd := Divide(v, rows, W, xo1, xo2, yo1, yo2, bpp, (xo2 - xo1) * (yo2 - yo1), g1, g2);
  }

  lemma RowCount(a: array2<Pixel>)
    ensures |RowsOf(a)| == a.Length0 && Shaped(RowsOf(a), a.Length0, a.Length1)
  {
  }

  // pd[i] = gammaMap1[v[i] / n]
  method Divide(v: seq<nat>, ghost rows: seq<Line>, ghost W: nat, ghost xo1: nat, ghost xo2: nat,
                ghost yo1: nat, ghost yo2: nat, bpp: nat, n: nat, g1: Byte -> Byte, ghost g2: Byte -> Byte)
    returns (pd: Pixel)
    requires Sized(rows, W, bpp) && xo1 < xo2 <= W && yo1 < yo2 <= |rows|
    requires |v| == bpp && n == (xo2 - xo1) * (yo2 - yo1)
    requires forall i :: 0 <= i < bpp ==> v[i] == CellSum(rows, W, bpp, xo1, xo2, yo1, yo2, i, g2)
    ensures pd == CellPixel(rows, W, bpp, xo1, xo2, yo1, yo2, g1, g2)
  {
    pd := [];
    ghost var whole := CellPixel(rows, W, bpp, xo1, xo2, yo1, yo2, g1, g2);
    for i := 0 to bpp
      invariant |pd| == i && pd == whole[..i]
    {
      AverageIsByte(v[i], xo2 - xo1, yo2 - yo1);
      assert whole[i] == g1(v[i] / n);
      pd := pd + [g1(v[i] / n)];
    }
  }

  ghost predicate Shaped(lines: seq<Line>, n: nat, w: nat) {
    |lines| == n && forall z :: 0 <= z < n ==> |lines[z]| == w
  }

  // The destination, when columns before x and the first y places of column x have been written.
  ghost predicate Written(dest: array2<Pixel>, was: seq<Line>, want: seq<Line>, destRow: nat, x: nat, y: nat)
    requires Shaped(was, dest.Length0, dest.Length1) && Shaped(want, |want|, dest.Length1)
    reads dest
  {
    forall z, k :: 0 <= z < dest.Length0 && 0 <= k < dest.Length1 ==>
      dest[z, k] == if destRow <= z < destRow + |want| && (k < x || (k == x && z < destRow + y))
                    then want[z - destRow][k] else was[z][k]
  }

  lemma WrittenRows(dest: array2<Pixel>, was: seq<Line>, want: seq<Line>, destRow: nat)
    requires destRow + |want| <= dest.Length0
    requires Shaped(was, dest.Length0, dest.Length1) && Shaped(want, |want|, dest.Length1)
    ensures was == RowsOf(dest) ==> Written(dest, was, want, destRow, 0, 0)
    ensures forall x: nat :: Written(dest, was, want, destRow, x, |want|) ==>
              Written(dest, was, want, destRow, x + 1, 0)
    ensures Written(dest, was, want, destRow, dest.Length1, 0) ==>
              RowsOf(dest) == was[..destRow] + want + was[destRow + |want|..]
  {
    if Written(dest, was, want, destRow, dest.Length1, 0) {
      var all := was[..destRow] + want + was[destRow + |want|..];
      forall z | 0 <= z < dest.Length0 ensures RowsOf(dest)[z] == all[z] {
        assert |all[z]| == dest.Length1;
      }
    }
  }

  method Put(dest: array2<Pixel>, ghost was: seq<Line>, ghost want: seq<Line>, destRow: nat, x: nat, y: nat, pd: Pixel)
    requires Shaped(was, dest.Length0, dest.Length1) && Shaped(want, |want|, dest.Length1)
    requires destRow + |want| <= dest.Length0 && y < |want| && x < dest.Length1 && pd == want[y][x]
    requires Written(dest, was, want, destRow, x, y)
    modifies dest
    ensures Written(dest, was, want, destRow, x, y + 1)
  {
    dest[destRow + y, x] := pd;
  }

  // The two inner bounds of a stretch, as the code computes them.
  method Bounds(x: nat, W: nat, w: nat) returns (o1: nat, o2: nat)
    requires x < w && W > 0
    ensures o1 == Lo(x, W, w) && o2 == Hi(x, W, w) && o1 < o2 <= W
  {
    o1 := x * W / w;
    o2 := if (x + 1) * W / w > o1 + 1 then (x + 1) * W / w else o1 + 1;
    Stretch(x, W, w);
  }

  /** scaleBuffer on srcHeight rows of the source from row0 on: destHeight rows of the destination
      are written, the others stay. */
  method ScaleBuffer(src: array2<Pixel>, row0: nat, srcHeight: nat, dest: array2<Pixel>, destRow: nat, destHeight: nat,
                     bpp: nat, g1: Byte -> Byte, g2: Byte -> Byte)
    requires src != dest && Sized(RowsOf(src), src.Length1, bpp) && src.Length1 > 0 && dest.Length1 > 0
    requires srcHeight > 0 && row0 + srcHeight <= src.Length0 && destRow + destHeight <= dest.Length0
    modifies dest
    ensures RowsOf(dest) == old(RowsOf(dest))[..destRow]
              + ScaledRows(RowsOf(src), src.Length1, dest.Length1, bpp, row0, srcHeight, destHeight, g1, g2)
              + old(RowsOf(dest))[destRow + destHeight..]
  {
    hide *;
    ghost var rows, was := RowsOf(src), RowsOf(dest);
    var W, w := src.Length1, dest.Length1;
    RowCount(src);
    RowCount(dest);
    ghost var want := ScaledRows(rows, W, w, bpp, row0, srcHeight, destHeight, g1, g2);
    ScaledRowsShaped(rows, W, w, bpp, row0, srcHeight, destHeight, g1, g2);
    WrittenRows(dest, was, want, destRow);
    for x := 0 to w
      invariant Written(dest, was, want, destRow, x, 0)
    {
      for y := 0 to destHeight
        invariant Written(dest, was, want, destRow, x, y)
      {
        var xo1, xo2 := Bounds(x, W, w);
        var yo1, yo2 := Bounds(y, srcHeight, destHeight);
        var pd := AverageCell(src, xo1, xo2, row0 + yo1, row0 + yo2, bpp, g1, g2);
        ScaledRowsAt(rows, W, w, bpp, row0, srcHeight, destHeight, g1, g2, y, x);
        Put(dest, was, want, destRow, x, y, pd);
      }
      WrittenRows(dest, was, want, destRow);
    }
    WrittenRows(dest, was, want, destRow);
  }

  lemma ScaledRowsShaped(src: seq<Line>, W: nat, w: nat, bpp: nat, row0: nat, srcHeight: nat, destHeight: nat,
                         g1: Byte -> Byte, g2: Byte -> Byte)
    requires Sized(src, W, bpp) && W > 0 && w > 0 && srcHeight > 0 && row0 + srcHeight <= |src|
    ensures Shaped(ScaledRows(src, W, w, bpp, row0, srcHeight, destHeight, g1, g2), destHeight, w)
  {
  }

  lemma ScaledRowsAt(src: seq<Line>, W: nat, w: nat, bpp: nat, row0: nat, srcHeight: nat, destHeight: nat,
                     g1: Byte -> Byte, g2: Byte -> Byte, y: nat, x: nat)
    requires Sized(src, W, bpp) && W > 0 && w > 0 && srcHeight > 0 && row0 + srcHeight <= |src|
    requires y < destHeight && x < w
    ensures var want := ScaledRows(src, W, w, bpp, row0, srcHeight, destHeight, g1, g2);
            && |want| == destHeight && |want[y]| == w
            && Lo(x, W, w) < Hi(x, W, w) <= W
            && Lo(y, srcHeight, destHeight) < Hi(y, srcHeight, destHeight) <= srcHeight
            && want[y][x] == CellPixel(src, W, bpp, Lo(x, W, w), Hi(x, W, w),
                                       row0 + Lo(y, srcHeight, destHeight), row0 + Hi(y, srcHeight, destHeight), g1, g2)
  {
    Stretch(x, W, w);
    Stretch(y, srcHeight, destHeight);
  }
}
