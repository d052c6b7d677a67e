/** A root image and its scaled buffers, kept up to date while rows of the root arrive. */
module ImgBuf {
  import opened Common
  import opened ImgScale

  // ----- Which rows a scaled row is made of -----

  /** The first source row of scaled row s: the band that is averaged, or the row that is
      repeated. */
  function From(s: nat, H: nat, h: nat): nat
    requires h > 0 && H > 0
  {
    if h <= H then Lo(s, H, h) else ((s + 1) * H - 1) / h
  }

  function To(s: nat, H: nat, h: nat): nat
    requires h > 0 && H > 0
  {
    if h <= H then Lo(s + 1, H, h) else From(s, H, h) + 1
  }

  lemma SourceBand(s: nat, H: nat, h: nat)
    requires h > 0 && H > 0 && s < h
    ensures From(s, H, h) < To(s, H, h) <= H
  {
    if h <= H {
      DownBand(s, h, H);
    } else {
      Quotient((s + 1) * H - 1, h, H);
      TimesMonotone(s + 1, h, H);
      assert h * H == H * h;
    }
  }

  lemma FromAtLeast(s: nat, H: nat, h: nat, y: nat)
    requires 0 < H < h
    ensures y <= From(s, H, h) <==> y * h < (s + 1) * H
  {
    Quotient((s + 1) * H - 1, h, y);
  }

  /** Upscaling: the scaled rows of row y are those made of it. */
  lemma UpRow(y: nat, H: nat, h: nat, s: nat)
    requires 0 < H < h && s < h
    ensures ScaledY(y, h, H) <= s < ScaledY(y + 1, h, H) <==> From(s, H, h) == y
    ensures ScaledY(y, h, H) < ScaledY(y + 1, h, H)
  {
    FromAtLeast(s, H, h, y);
    FromAtLeast(s, H, h, y + 1);
    ScaledAtLeast(y, h, H, s + 1);
    ScaledAtLeast(y + 1, h, H, s + 1);
    ScaledAtLeast(y + 1, h, H, ScaledY(y, h, H) + 1);
    ScaledAtLeast(y, h, H, ScaledY(y, h, H));
    OneMore(y, h);
    OneMore(ScaledY(y, h, H), H);
    hide ScaledY, Lo, From;
  }

  /** What the scaled buffer holds in the end, row by row. */
  function Progressive(src: seq<Line>, W: nat, w: nat, h: nat, bpp: nat, g1: Byte -> Byte, g2: Byte -> Byte): seq<Line>
    requires Sized(src, W, bpp) && W > 0 && w > 0 && h > 0 && |src| > 0
  {
    seq(h, s requires 0 <= s < h =>
      SourceBand(s, |src|, h);
      ScaledLine(src, W, w, bpp, From(s, |src|, h), To(s, |src|, h), g1, g2))
  }

  /** For a target no higher than the image, row by row scaling is scaling at once. */
  lemma DownscalingIsOneShot(src: seq<Line>, W: nat, w: nat, h: nat, bpp: nat, g1: Byte -> Byte, g2: Byte -> Byte)
    requires Sized(src, W, bpp) && W > 0 && w > 0 && 0 < h <= |src|
    ensures Progressive(src, W, w, h, bpp, g1, g2) == OneShot(src, W, w, h, bpp, g1, g2)
  {
    forall s | 0 <= s < h
      ensures From(s, |src|, h) == Lo(s, |src|, h) && To(s, |src|, h) == Hi(s, |src|, h)
      ensures Progressive(src, W, w, h, bpp, g1, g2)[s] == OneShot(src, W, w, h, bpp, g1, g2)[s]
    {
      DownBand(s, h, |src|);
      Stretch(s, |src|, h);
    }
  }

  /** For a higher target the two take every row from the same place exactly if the height is a
      multiple of the image's. */
  lemma UpscalingRounds(H: nat, h: nat)
    requires 0 < H < h
    ensures (forall s :: 0 <= s < h ==> From(s, H, h) == Lo(s, H, h)) <==> h % H == 0
  {
    if h % H == 0 {
      forall s | 0 <= s < h ensures From(s, H, h) == Lo(s, H, h) {
        SameRow(H, h, h / H, s);
      }
    } else {
      RowsDiffer(H, h);
    }
  }

  lemma SameRow(H: nat, h: nat, m: nat, s: nat)
    requires 0 < H < h && h == m * H
    ensures From(s, H, h) == Lo(s, H, h)
  {
    var y := Lo(s, H, h);
    BackAtLeast(s, h, H, y);
    BackAtLeast(s, h, H, y + 1);
    FromAtLeast(s, H, h, y);
    FromAtLeast(s, H, h, y + 1);
    hide From, Lo;
    OneMore(s, H);
    // (y + 1) * h > s * H, and both are multiples of H.
    assert (y + 1) * h == ((y + 1) * m) * H;
    if (y + 1) * m <= s {
      TimesMonotone((y + 1) * m, s, H);
    } else {
      TimesMonotone(s + 1, (y + 1) * m, H);
    }
  }

  lemma RowsDiffer(H: nat, h: nat)
    requires 0 < H < h && h % H != 0
    ensures exists s :: 0 <= s < h && From(s, H, h) != Lo(s, H, h)
  {
    var s := h / H;
    assert h == s * H + h % H;
    OneMore(s, H);
    FromAtLeast(s, H, h, 1);
    BackAtLeast(s, h, H, 1);
    hide From, Lo;
    assert s < h by {
      assert s * H >= s by { TimesMonotone(1, H, s); assert H * s == s * H; }
    }
    assert From(s, H, h) != Lo(s, H, h);
  }

  // ----- The scaled buffer against the root -----

  ghost predicate AllCopied(copied: seq<bool>, a: nat, b: nat) {
    b <= |copied| && forall r :: a <= r < b ==> copied[r]
  }

  // The sizes and gamma maps of a root and a scaled buffer.
  datatype Setup = Setup(W: nat, H: nat, w: nat, h: nat, bpp: nat, g1: Byte -> Byte, g2: Byte -> Byte) {
    ghost predicate Positive() {
      W > 0 && H > 0 && w > 0 && h > 0
    }

    ghost predicate Fits(src: seq<Line>) {
      Positive() && |src| == H && Sized(src, W, bpp)
    }

    ghost function Wanted(src: seq<Line>): seq<Line>
      requires Fits(src)
    {
      Progressive(src, W, w, h, bpp, g1, g2)
    }

    ghost function AtOnce(src: seq<Line>): seq<Line>
      requires Fits(src)
    {
      OneShot(src, W, w, h, bpp, g1, g2)
    }
  }

  /** What has been computed is right: a filled row has all its source rows and the final content,
      and the repetitions of one source row are filled together. */
  ghost predicate Faithful(c: Setup, src: seq<Line>, copied: seq<bool>, scaled: seq<Line>, filled: seq<bool>) {
    && c.Fits(src) && |copied| == c.H && |scaled| == |filled| == c.h
    && (forall s :: 0 <= s < c.h && filled[s] ==>
          AllCopied(copied, From(s, c.H, c.h), To(s, c.H, c.h)) && scaled[s] == c.Wanted(src)[s])
    && (forall s, z :: 0 <= s < c.h && 0 <= z < c.h && c.h > c.H && filled[s]
                       && From(s, c.H, c.h) == From(z, c.H, c.h) ==>
          filled[z])
  }

  /** Everything that the first k rows of the root lead to has been computed. */
  ghost predicate Current(c: Setup, filled: seq<bool>, k: nat)
    requires c.Positive() && |filled| == c.h
  {
    forall s :: 0 <= s < c.h && s < ScaledY(k, c.h, c.H) ==> filled[s]
  }

  // A line depends on its band only.
  lemma {:induction false} SameColumn(a: seq<Line>, b: seq<Line>, W: nat, bpp: nat, xo: nat, yo1: nat, yo: nat, i: nat,
                                      g: Byte -> Byte)
    requires Sized(a, W, bpp) && Sized(b, W, bpp) && |a| == |b| && xo < W && yo1 <= yo <= |a| && i < bpp
    requires forall y :: yo1 <= y < yo ==> a[y] == b[y]
    ensures ColumnSum(a, W, bpp, xo, yo1, yo, i, g) == ColumnSum(b, W, bpp, xo, yo1, yo, i, g)
    decreases yo
  {
    if yo > yo1 {
      SameColumn(a, b, W, bpp, xo, yo1, yo - 1, i, g);
    }
  }

  lemma {:induction false} SameCell(a: seq<Line>, b: seq<Line>, W: nat, bpp: nat, xo1: nat, xo: nat, yo1: nat, yo2: nat,
                                    i: nat, g: Byte -> Byte)
    requires Sized(a, W, bpp) && Sized(b, W, bpp) && |a| == |b| && xo1 <= xo <= W && yo1 <= yo2 <= |a| && i < bpp
    requires forall y :: yo1 <= y < yo2 ==> a[y] == b[y]
    ensures CellSum(a, W, bpp, xo1, xo, yo1, yo2, i, g) == CellSum(b, W, bpp, xo1, xo, yo1, yo2, i, g)
    decreases xo
  {
    if xo > xo1 {
      SameCell(a, b, W, bpp, xo1, xo - 1, yo1, yo2, i, g);
      SameColumn(a, b, W, bpp, xo - 1, yo1, yo2, i, g);
    }
  }

  lemma SamePixel(a: seq<Line>, b: seq<Line>, W: nat, bpp: nat, xo1: nat, xo2: nat, yo1: nat, yo2: nat,
                  g1: Byte -> Byte, g2: Byte -> Byte)
    requires Sized(a, W, bpp) && Sized(b, W, bpp) && |a| == |b| && xo1 < xo2 <= W && yo1 < yo2 <= |a|
    requires forall y :: yo1 <= y < yo2 ==> a[y] == b[y]
    ensures CellPixel(a, W, bpp, xo1, xo2, yo1, yo2, g1, g2) == CellPixel(b, W, bpp, xo1, xo2, yo1, yo2, g1, g2)
  {
    forall i | 0 <= i < bpp
      ensures CellPixel(a, W, bpp, xo1, xo2, yo1, yo2, g1, g2)[i] == CellPixel(b, W, bpp, xo1, xo2, yo1, yo2, g1, g2)[i]
    {
      SameCell(a, b, W, bpp, xo1, xo2, yo1, yo2, i, g2);
    }
  }

  lemma SameLine(a: seq<Line>, b: seq<Line>, W: nat, w: nat, bpp: nat, yo1: nat, yo2: nat, g1: Byte -> Byte,
                 g2: Byte -> Byte)
    requires Sized(a, W, bpp) && Sized(b, W, bpp) && |a| == |b| && W > 0 && w > 0 && yo1 < yo2 <= |a|
    requires forall y :: yo1 <= y < yo2 ==> a[y] == b[y]
    ensures ScaledLine(a, W, w, bpp, yo1, yo2, g1, g2) == ScaledLine(b, W, w, bpp, yo1, yo2, g1, g2)
  {
    hide CellPixel;
    forall x | 0 <= x < w
      ensures ScaledLine(a, W, w, bpp, yo1, yo2, g1, g2)[x] == ScaledLine(b, W, w, bpp, yo1, yo2, g1, g2)[x]
    {
      Stretch(x, W, w);
      SamePixel(a, b, W, bpp, Lo(x, W, w), Hi(x, W, w), yo1, yo2, g1, g2);
    }
  }

  /** A row arriving for the first time, or unchanged, spoils nothing that has been computed. */
  lemma RowArrives(c: Setup, src: seq<Line>, copied: seq<bool>, scaled: seq<Line>, filled: seq<bool>,
                   row: nat, data: Line)
    requires Faithful(c, src, copied, scaled, filled) && row < c.H && c.Fits(src[row := data])
    requires copied[row] ==> src[row] == data
    ensures Faithful(c, src[row := data], copied[row := true], scaled, filled)
  {
    var src' := src[row := data];
    forall s | 0 <= s < c.h && filled[s]
      ensures AllCopied(copied[row := true], From(s, c.H, c.h), To(s, c.H, c.h)) && scaled[s] == c.Wanted(src')[s]
    {
      SourceBand(s, c.H, c.h);
      hide From, To, ScaledLine;
      SameLine(src, src', c.W, c.w, c.bpp, From(s, c.H, c.h), To(s, c.H, c.h), c.g1, c.g2);
    }
  }

  // scaleBuffer writing one row averages all its source rows; reading one row repeats it.
  lemma AveragedRow(src: seq<Line>, W: nat, w: nat, bpp: nat, row1: nat, row2: nat, g1: Byte -> Byte, g2: Byte -> Byte)
    requires Sized(src, W, bpp) && W > 0 && w > 0 && row1 < row2 <= |src|
    ensures ScaledRows(src, W, w, bpp, row1, row2 - row1, 1, g1, g2) == [ScaledLine(src, W, w, bpp, row1, row2, g1, g2)]
  {
    var n := row2 - row1;
    assert Lo(0, n, 1) == 0 && Lo(1, n, 1) == n;
    assert Hi(0, n, 1) == n;
  }

  lemma RepeatedRow(src: seq<Line>, W: nat, w: nat, bpp: nat, row: nat, n: nat, g1: Byte -> Byte, g2: Byte -> Byte)
    requires Sized(src, W, bpp) && W > 0 && w > 0 && row < |src|
    ensures var r := ScaledRows(src, W, w, bpp, row, 1, n, g1, g2);
            |r| == n && forall y :: 0 <= y < n ==> r[y] == ScaledLine(src, W, w, bpp, row, row + 1, g1, g2)
  {
    var r := ScaledRows(src, W, w, bpp, row, 1, n, g1, g2);
    forall y | 0 <= y < n ensures r[y] == ScaledLine(src, W, w, bpp, row, row + 1, g1, g2) {
      Quotient(y * 1, n, 1);
      Quotient((y + 1) * 1, n, 2);
      assert Lo(y, 1, n) == 0 && Hi(y, 1, n) == 1;
    }
  }

  // ----- Progress, row after row -----

  lemma DownCurrent(c: Setup, filled: seq<bool>, filled': seq<bool>, row: nat)
    requires c.Positive() && c.h <= c.H && row < c.H && |filled| == |filled'| == c.h && Current(c, filled, row)
    requires forall s :: 0 <= s < c.h && filled[s] ==> filled'[s]
    requires var sr1 := ScaledY(row, c.h, c.H);
             sr1 < c.h && (Lo(sr1 + 1, c.H, c.h) <= row + 1 ==> filled'[sr1])
    ensures Current(c, filled', row + 1)
  {
    DownStep(row, c.h, c.H);
    hide ScaledY, Lo;
  }

  lemma UpCurrent(c: Setup, filled: seq<bool>, filled': seq<bool>, row: nat)
    requires c.Positive() && |filled| == |filled'| == c.h && Current(c, filled, row)
    requires forall s :: 0 <= s < c.h && filled[s] ==> filled'[s]
    requires forall s :: 0 <= s < c.h && ScaledY(row, c.h, c.H) <= s < ScaledY(row + 1, c.h, c.H) ==> filled'[s]
    ensures Current(c, filled', row + 1)
  {
    hide ScaledY;
  }

  /** When all rows have been there in order, every scaled row is filled and final. */
  lemma Finished(c: Setup, src: seq<Line>, copied: seq<bool>, scaled: seq<Line>, filled: seq<bool>)
    requires Faithful(c, src, copied, scaled, filled) && Current(c, filled, c.H)
    ensures scaled == c.Wanted(src)
  {
    ScaledEnds(c.h, c.H);
  }

  lemma NothingFilled(c: Setup, src: seq<Line>, copied: seq<bool>, scaled: seq<Line>, filled: seq<bool>)
    requires c.Fits(src) && |copied| == c.H && |scaled| == |filled| == c.h
    requires forall s :: 0 <= s < c.h ==> !filled[s]
    ensures Faithful(c, src, copied, scaled, filled) && Current(c, filled, 0)
  {
    ScaledEnds(c.h, c.H);
  }

  predicate Done(filled: seq<bool>, s: nat) {
    s < |filled| && filled[s]
  }

  /** Nothing filled is forgotten, and if the rows before were dealt with this row is, too. */
  ghost predicate Advances(c: Setup, filled: seq<bool>, filled': seq<bool>, row: nat) {
    && c.Positive() && |filled| == |filled'| == c.h && (forall s :: 0 <= s < c.h && filled[s] ==> filled'[s])
    && (Current(c, filled, row) ==> Current(c, filled', row + 1))
  }

  lemma UpBounds(c: Setup, row: nat)
    requires c.Positive() && c.h > c.H && row < c.H
    ensures ScaledY(row, c.h, c.H) < ScaledY(row + 1, c.h, c.H) <= c.h
  {
    UpRow(row, c.H, c.h, 0);
    ScaledAtLeast(row + 1, c.h, c.H, c.h + 1);
    TimesMonotone(row + 1, c.H, c.h);
    hide ScaledY;
    OneMore(c.h, c.H);
    assert c.H * c.h == c.h * c.H;
  }

  // ----- One call of scaleRow -----

  /** The rows that a call for this row of the root computes: none if the row where it goes is done;
      otherwise all its repetitions, or the row of its band if the band is complete. */
  ghost predicate Fills(c: Setup, copied: seq<bool>, filled: seq<bool>, row: nat, s: nat)
    requires c.h > 0 && c.H > 0
  {
    && !Done(filled, ScaledY(row, c.h, c.H))
    && if c.h > c.H then From(s, c.H, c.h) == row
       else s == ScaledY(row, c.h, c.H) && AllCopied(copied, From(s, c.H, c.h), To(s, c.H, c.h))
  }

  /** What the call does to the scaled buffer. */
  ghost predicate Turn(c: Setup, src: seq<Line>, copied: seq<bool>, row: nat,
                       scaled: seq<Line>, filled: seq<bool>, scaled': seq<Line>, filled': seq<bool>) {
    && c.Fits(src) && row < c.H && |copied| == c.H && |scaled| == |filled| == |scaled'| == |filled'| == c.h
    && forall s :: 0 <= s < c.h ==>
         && filled'[s] == (filled[s] || Fills(c, copied, filled, row, s))
         && scaled'[s] == if Fills(c, copied, filled, row, s) then c.Wanted(src)[s] else scaled[s]
  }

  lemma UpTurn(c: Setup, src: seq<Line>, copied: seq<bool>, scaled: seq<Line>, filled: seq<bool>, row: nat,
               scaled': seq<Line>, filled': seq<bool>)
    requires c.Fits(src) && |copied| == c.H && |scaled| == |filled| == |filled'| == c.h && c.h > c.H && row < c.H
    requires !Done(filled, ScaledY(row, c.h, c.H))
    requires var sr1, sr2 := ScaledY(row, c.h, c.H), ScaledY(row + 1, c.h, c.H);
             && sr1 < sr2 <= c.h
             && scaled' == scaled[..sr1]
                             + ScaledRows(src, c.W, c.w, c.bpp, row, 1, sr2 - sr1, c.g1, c.g2) + scaled[sr2..]
             && forall s :: 0 <= s < c.h ==> filled'[s] == (filled[s] || sr1 <= s < sr2 || s == sr1)
    ensures Turn(c, src, copied, row, scaled, filled, scaled', filled')
  {
    var sr1, sr2 := ScaledY(row, c.h, c.H), ScaledY(row + 1, c.h, c.H);
    RepeatedRow(src, c.W, c.w, c.bpp, row, sr2 - sr1, c.g1, c.g2);
    forall s | 0 <= s < c.h
      ensures sr1 <= s < sr2 <==> From(s, c.H, c.h) == row
      ensures sr1 <= s < sr2 ==> scaled'[s] == c.Wanted(src)[s]
    {
      UpRow(row, c.H, c.h, s);
      SourceBand(s, c.H, c.h);
    }
    hide ScaledY, From, To, ScaledLine, ScaledRows, Progressive, AllCopied, Done;
  }

  lemma DownTurn(c: Setup, src: seq<Line>, copied: seq<bool>, scaled: seq<Line>, filled: seq<bool>, row: nat,
                 scaled': seq<Line>, filled': seq<bool>)
    requires c.Fits(src) && |copied| == c.H && |scaled| == |filled| == c.h && c.h <= c.H && row < c.H
    requires !Done(filled, ScaledY(row, c.h, c.H))
    requires var sr1 := ScaledY(row, c.h, c.H);
             var row1, row2 := Lo(sr1, c.H, c.h), Lo(sr1 + 1, c.H, c.h);
             && sr1 < c.h && row1 < row2 <= c.H && AllCopied(copied, row1, row2) && filled' == filled[sr1 := true]
             && scaled' == scaled[..sr1]
                             + ScaledRows(src, c.W, c.w, c.bpp, row1, row2 - row1, 1, c.g1, c.g2) + scaled[sr1 + 1..]
    ensures Turn(c, src, copied, row, scaled, filled, scaled', filled')
  {
    var sr1 := ScaledY(row, c.h, c.H);
    var row1, row2 := Lo(sr1, c.H, c.h), Lo(sr1 + 1, c.H, c.h);
    AveragedRow(src, c.W, c.w, c.bpp, row1, row2, c.g1, c.g2);
    assert From(sr1, c.H, c.h) == row1 && To(sr1, c.H, c.h) == row2;
    assert scaled'[sr1] == c.Wanted(src)[sr1];
    hide ScaledY, From, To, Lo, ScaledLine, ScaledRows, Progressive, AllCopied, Done;
  }

  // Nothing is computed: the row is done, or its band is not complete.
  lemma IdleTurn(c: Setup, src: seq<Line>, copied: seq<bool>, scaled: seq<Line>, filled: seq<bool>, row: nat)
    requires c.Fits(src) && |copied| == c.H && |scaled| == |filled| == c.h && row < c.H
    requires var sr1 := ScaledY(row, c.h, c.H);
             || Done(filled, sr1)
             || (c.h <= c.H && !AllCopied(copied, Lo(sr1, c.H, c.h), Lo(sr1 + 1, c.H, c.h)))
    ensures Turn(c, src, copied, row, scaled, filled, scaled, filled)
  {
    hide ScaledY, Lo, Progressive, AllCopied, Done;
  }

  // ----- A row that arrives for the first time -----

  lemma TurnKeepsFaithful(c: Setup, src: seq<Line>, copied: seq<bool>, row: nat,
                          scaled: seq<Line>, filled: seq<bool>, scaled': seq<Line>, filled': seq<bool>)
    requires Faithful(c, src, copied, scaled, filled) && row < c.H && copied[row]
    requires Turn(c, src, copied, row, scaled, filled, scaled', filled')
    ensures Faithful(c, src, copied, scaled', filled')
  {
    forall s | 0 <= s < c.h && Fills(c, copied, filled, row, s)
      ensures AllCopied(copied, From(s, c.H, c.h), To(s, c.H, c.h))
    {
    }
    hide From, To, AllCopied, Progressive, ScaledY, Done;
  }

  lemma TurnAdvances(c: Setup, src: seq<Line>, copied: seq<bool>, row: nat,
                     scaled: seq<Line>, filled: seq<bool>, scaled': seq<Line>, filled': seq<bool>)
    requires Faithful(c, src, copied, scaled, filled) && AllCopied(copied, 0, row + 1)
    requires Turn(c, src, copied, row, scaled, filled, scaled', filled')
    ensures Advances(c, filled, filled', row)
  {
    if Current(c, filled, row) {
      if c.h > c.H {
        UpAdvances(c, src, copied, row, scaled, filled, scaled', filled');
      } else {
        var sr1 := ScaledY(row, c.h, c.H);
        RowBound(c.h, c.H, row);
        if Lo(sr1 + 1, c.H, c.h) <= row + 1 {
          assert AllCopied(copied, Lo(sr1, c.H, c.h), Lo(sr1 + 1, c.H, c.h));
          assert filled[sr1] || Fills(c, copied, filled, row, sr1);
        }
        hide ScaledY, Lo, Faithful, Turn;
        DownCurrent(c, filled, filled', row);
      }
    }
  }

  lemma UpAdvances(c: Setup, src: seq<Line>, copied: seq<bool>, row: nat,
                   scaled: seq<Line>, filled: seq<bool>, scaled': seq<Line>, filled': seq<bool>)
    requires Faithful(c, src, copied, scaled, filled) && c.h > c.H && Current(c, filled, row)
    requires Turn(c, src, copied, row, scaled, filled, scaled', filled')
    ensures Current(c, filled', row + 1)
  {
    var sr1 := ScaledY(row, c.h, c.H);
    RowBound(c.h, c.H, row);
    UpRow(row, c.H, c.h, sr1);
    forall s | 0 <= s < c.h && sr1 <= s < ScaledY(row + 1, c.h, c.H) ensures filled'[s] {
      UpRow(row, c.H, c.h, s);
      assert filled[sr1] ==> filled[s];
    }
    hide ScaledY, Faithful, Turn;
    UpCurrent(c, filled, filled', row);
  }

  /** A row that arrives for the first time, or unchanged: the scaled buffer stays right and, in
      order, complete. */
  lemma Arrival(c: Setup, src: seq<Line>, copied: seq<bool>, row: nat, data: Line,
                scaled: seq<Line>, filled: seq<bool>, scaled': seq<Line>, filled': seq<bool>)
    requires Faithful(c, src, copied, scaled, filled) && row < c.H && c.Fits(src[row := data])
    requires copied[row] ==> src[row] == data
    requires Turn(c, src[row := data], copied[row := true], row, scaled, filled, scaled', filled')
    ensures Faithful(c, src[row := data], copied[row := true], scaled', filled')
    ensures Current(c, filled, row) && AllCopied(copied[row := true], 0, row + 1) ==> Current(c, filled', row + 1)
  {
    RowArrives(c, src, copied, scaled, filled, row, data);
    hide *;
    TurnKeepsFaithful(c, src[row := data], copied[row := true], row, scaled, filled, scaled', filled');
    if Current(c, filled, row) && AllCopied(copied[row := true], 0, row + 1) {
      TurnAdvances(c, src[row := data], copied[row := true], row, scaled, filled, scaled', filled');
      AdvancedNow(c, filled, filled', row);
    }
  }

  lemma CurrentStays(c: Setup, copied: seq<bool>, filled: seq<bool>, filled': seq<bool>, row: nat, done: nat, k: nat)
    requires c.Positive() && |filled| == |filled'| == c.h && Grows(filled, filled') && Current(c, filled, done)
    requires AllCopied(copied, 0, k) && row < |copied| && done <= k && (done == row || done == k)
    requires AllCopied(copied, 0, row + 1) ==> Advances(c, filled, filled', row)
    ensures Current(c, filled', if done < k then done + 1 else done)
  {
    hide ScaledY;
    if done < k {
      assert AllCopied(copied, 0, row + 1);
    }
  }

  lemma TurnGrows(c: Setup, src: seq<Line>, copied: seq<bool>, row: nat,
                  scaled: seq<Line>, filled: seq<bool>, scaled': seq<Line>, filled': seq<bool>)
    requires Turn(c, src, copied, row, scaled, filled, scaled', filled')
    ensures Grows(filled, filled') && c.Positive() && |filled| == |filled'| == c.h
  {
    hide Fills, Progressive;
  }

  // A row the root has is replayed.
  lemma Replayed(c: Setup, src: seq<Line>, copied: seq<bool>, row: nat, done: nat, k: nat,
                 scaled: seq<Line>, filled: seq<bool>, scaled': seq<Line>, filled': seq<bool>)
    requires Faithful(c, src, copied, scaled, filled) && row < c.H && copied[row] && Current(c, filled, done)
    requires Turn(c, src, copied, row, scaled, filled, scaled', filled')
    requires AllCopied(copied, 0, k) && done <= k && (done == row || done == k)
    ensures Faithful(c, src, copied, scaled', filled')
    ensures Current(c, filled', if done < k then done + 1 else done)
  {
    assert |copied| == c.H;
    hide *;
    TurnKeepsFaithful(c, src, copied, row, scaled, filled, scaled', filled');
    TurnGrows(c, src, copied, row, scaled, filled, scaled', filled');
    if AllCopied(copied, 0, row + 1) {
      TurnAdvances(c, src, copied, row, scaled, filled, scaled', filled');
    }
    CurrentStays(c, copied, filled, filled', row, done, k);
  }

  lemma NotAllCopied(copied: seq<bool>, k: nat, row: nat)
    requires AllCopied(copied, 0, k) && row < |copied| && !copied[row]
    ensures k <= row
  {
  }

  lemma CopiedBound(copied: seq<bool>, k: nat)
    requires AllCopied(copied, 0, k)
    ensures k <= |copied|
  {
  }

  const MAX_WIDTH := 0x8000
  const MAX_HEIGHT := 0x8000
  const IMAGE_MAX_AREA := 6000 * 6000

  function AtMost(n: int, max: int): int {
    if n > max then max else n
  }

  predicate Excessive(width: int, height: int) {
    width <= 0 || height <= 0 || width > IMAGE_MAX_AREA / height
  }

  lemma ExcessiveExactly(width: int, height: int)
    ensures Excessive(width, height) <==> width <= 0 || height <= 0 || width * height > 36000000
  {
    if width > 0 && height > 0 {
      Quotient(36000000, height, width);
    }
  }

  // A buffer of this size is there.
  predicate AnySize(buffers: seq<FltkImgbuf>, width: int, height: int) {
    exists i :: 0 <= i < |buffers| && buffers[i].width == width && buffers[i].height == height
  }

  class FltkImgbuf {
    const root: FltkImgbuf?
    const width: nat
    const height: nat
    const bpp: nat
    const gammaMap1: Byte -> Byte
    const gammaMap2: Byte -> Byte
    const rawdata: array2<Pixel>
    var copiedRows: seq<bool>
    var scaledBuffers: seq<FltkImgbuf>

    // The sizes agree.
    ghost predicate Shape()
      reads this`copiedRows
    {
      && width > 0 && height > 0 && rawdata.Length0 == height && rawdata.Length1 == width
      && |copiedRows| == height
    }

    ghost predicate RootShape()
      reads this`copiedRows, rawdata
    {
      root == null && Shape() && Sized(RowsOf(rawdata), width, bpp)
    }

    ghost function Setting(): Setup
      requires root != null
    {
      Setup(root.width, root.height, width, height, bpp, gammaMap1, gammaMap2)
    }

    // A scaled buffer of its root, with a store of its own.
    ghost predicate Linked()
      requires root != null
      reads this`copiedRows, root`copiedRows, root.rawdata
    {
      root.RootShape() && Shape() && bpp == root.bpp && rawdata != root.rawdata && root != this
    }

    // What it has computed is right.
    ghost predicate Right()
      requires root != null && Linked()
      reads this`copiedRows, rawdata, root`copiedRows, root.rawdata
    {
      Faithful(Setting(), RowsOf(root.rawdata), root.copiedRows, RowsOf(rawdata), copiedRows)
    }

    constructor Root(width: nat, height: nat, bpp: nat, g1: Byte -> Byte, g2: Byte -> Byte)
      requires width > 0 && height > 0
      ensures Family() && AllCurrent(0) && fresh(rawdata) && scaledBuffers == []
      ensures this.width == width && this.height == height && this.bpp == bpp
      ensures |copiedRows| == height && |RowsOf(rawdata)| == height
      ensures gammaMap1 == g1 && gammaMap2 == g2 && forall r :: 0 <= r < height ==> !copiedRows[r]
    {
      this.root, this.width, this.height, this.bpp, gammaMap1, gammaMap2 := null, width, height, bpp, g1, g2;
      rawdata := new Pixel[height, width]((_, _) => seq<Byte>(bpp, _ => 222));
      copiedRows, scaledBuffers := seq(height, _ => false), [];
    }

    /** init of a scaled buffer: the rows the root already has, k of them without a gap, are
        replayed. */
    constructor Scaled(root: FltkImgbuf, width: nat, height: nat, ghost k: nat)
      requires root.RootShape() && width > 0 && height > 0 && AllCopied(root.copiedRows, 0, k)
      ensures this.root == root && Linked() && Right() && fresh(rawdata) && scaledBuffers == []
      ensures this.width == width && this.height == height
      ensures gammaMap1 == root.gammaMap1 && gammaMap2 == root.gammaMap2
      ensures Current(Setting(), copiedRows, k)
    {
      this.root, this.width, this.height, this.bpp := root, width, height, root.bpp;
      gammaMap1, gammaMap2 := root.gammaMap1, root.gammaMap2;
      rawdata := new Pixel[height, width]((_, _) => seq<Byte>(root.bpp, _ => 222));
      copiedRows, scaledBuffers := seq(height, _ => false), [];
      new;
      NothingFilled(Setting(), RowsOf(root.rawdata), root.copiedRows, RowsOf(rawdata), copiedRows);
      assert Linked() && Right();
      hide *;
      ghost var done := 0;
      var row := 0;
      while row < root.height
        invariant row <= root.height && Linked() && Right() && done <= k && (done == row || (done == k && k <= row))
        invariant Current(Setting(), copiedRows, done) && scaledBuffers == []
      {
        LinkedMeans();
        if root.copiedRows[row] {
          ghost var scaled, filled := RowsOf(rawdata), copiedRows;
          RightMeans();
          ScaleRow(row);
          Replayed(Setting(), RowsOf(root.rawdata), root.copiedRows, row, done, k, scaled, filled,
                   RowsOf(rawdata), copiedRows);
          RightIs();
        } else {
          NotAllCopied(root.copiedRows, k, row);
        }
        if done < k {
          done := done + 1;
        }
        row := row + 1;
      }
      CopiedBound(root.copiedRows, k);
    }

    // scaledY and backscaledY
    method RowFor(ySrc: nat) returns (y: nat)
      requires root != null && root.height > 0
      ensures y == ScaledY(ySrc, height, root.height)
    {
      y := ySrc * height / root.height;
    }

    method FirstRowOf(yScaled: nat) returns (y: nat)
      requires root != null && height > 0
      ensures y == Lo(yScaled, root.height, height)
    {
      y := yScaled * root.height / height;
    }

    // The loop that looks whether all rows of the band have arrived.
    method AllArrived(row1: nat, row2: nat) returns (all: bool)
      requires row1 < row2 <= |copiedRows|
      ensures all == AllCopied(copiedRows, row1, row2)
    {
      var r := row1;
      all := copiedRows[r];
      while all && r + 1 < row2
        invariant row1 <= r < row2 && all == AllCopied(copiedRows, row1, r + 1)
        decreases row2 - r
      {
        r := r + 1;
        all := copiedRows[r];
      }
    }

    // copiedRows->set, for a stretch of rows
    method MarkDone(sr1: nat, sr2: nat)
      requires sr1 < |copiedRows| && sr2 <= |copiedRows|
      modifies this`copiedRows
      ensures |copiedRows| == old(|copiedRows|)
      ensures forall s :: 0 <= s < |copiedRows| ==> copiedRows[s] == (old(copiedRows[s]) || sr1 <= s < sr2 || s == sr1)
    {
      var sr := sr1;
      while sr < sr2 || sr == sr1
        invariant sr1 <= sr && |copiedRows| == old(|copiedRows|) && (sr == sr1 || sr <= sr2 || sr == sr1 + 1)
        invariant forall s :: 0 <= s < |copiedRows| ==> copiedRows[s] == (old(copiedRows[s]) || sr1 <= s < sr)
        decreases |copiedRows| + 1 - sr
      {
        copiedRows := copiedRows[sr := true];
        sr := sr + 1;
      }
    }

    /** scaleRowBeautiful when the target is higher than the image: the row is repeated. */
    method ScaleRowUp(row: nat)
      requires root != null && Linked() && row < root.height && height > root.height
      requires !Done(copiedRows, ScaledY(row, height, root.height))
      modifies this`copiedRows, rawdata
      ensures Linked()
      ensures Turn(Setting(), RowsOf(root.rawdata), root.copiedRows, row,
                   old(RowsOf(rawdata)), old(copiedRows), RowsOf(rawdata), copiedRows)
    {
      LinkedMeans();
      hide *;
      ghost var c, src, scaled, filled := Setting(), RowsOf(root.rawdata), RowsOf(rawdata), copiedRows;
      UpBounds(c, row);
      var sr1 := RowFor(row);
      var sr2 := RowFor(row + 1);
      ScaleBuffer(root.rawdata, row, 1, rawdata, sr1, sr2 - sr1, bpp, gammaMap1, gammaMap2);
      MarkDone(sr1, sr2);
      UpTurn(c, src, root.copiedRows, scaled, filled, row, RowsOf(rawdata), copiedRows);
      LinkedIs();
    }

    lemma LinkedIs()
      requires root != null && root.RootShape() && bpp == root.bpp && rawdata != root.rawdata && root != this
      requires width > 0 && height > 0 && rawdata.Length0 == height && rawdata.Length1 == width
               && |copiedRows| == height
      ensures Linked()
    {
    }

    lemma LinkedMeans()
      requires root != null && Linked()
      ensures root.RootShape() && bpp == root.bpp && rawdata != root.rawdata && root != this
      ensures width > 0 && height > 0 && |copiedRows| == height
      ensures var c := Setting();
              && c.H == root.height && c.W == root.width && c.h == height && c.w == width && c.bpp == bpp
              && c.g1 == gammaMap1 && c.g2 == gammaMap2 && c.Positive()
              && |root.copiedRows| == c.H && |copiedRows| == c.h
              && rawdata.Length0 == c.h && rawdata.Length1 == c.w
              && root.rawdata.Length0 == c.H && root.rawdata.Length1 == c.W
              && c.Fits(RowsOf(root.rawdata)) && Sized(RowsOf(root.rawdata), c.W, c.bpp) && |RowsOf(rawdata)| == c.h
    {
    }

    lemma RightMeans()
      requires root != null && Linked() && Right()
      ensures Faithful(Setting(), RowsOf(root.rawdata), root.copiedRows, RowsOf(rawdata), copiedRows)
    {
    }

    lemma RightIs()
      requires root != null && Linked()
               && Faithful(Setting(), RowsOf(root.rawdata), root.copiedRows, RowsOf(rawdata), copiedRows)
      ensures Right()
    {
    }

    /** scaleRowBeautiful otherwise: the rows of the band are averaged when all have arrived. */
    method ScaleRowDown(row: nat)
      requires root != null && Linked() && row < root.height && height <= root.height
      requires !Done(copiedRows, ScaledY(row, height, root.height))
      modifies this`copiedRows, rawdata
      ensures Linked()
      ensures Turn(Setting(), RowsOf(root.rawdata), root.copiedRows, row,
                   old(RowsOf(rawdata)), old(copiedRows), RowsOf(rawdata), copiedRows)
    {
      LinkedMeans();
      hide *;
      ghost var c, src, scaled, filled := Setting(), RowsOf(root.rawdata), RowsOf(rawdata), copiedRows;
      var sr1 := RowFor(row);
      var sr2 := RowFor(row + 1);
      DownStep(row, height, root.height);
      assert sr1 == sr2 || sr1 + 1 == sr2;
      DownBand(sr1, height, root.height);
      var row1 := FirstRowOf(sr1);
      var row2 := FirstRowOf(sr1 + 1);
      var allRootRows := root.AllArrived(row1, row2);
      if allRootRows {
        ScaleBuffer(root.rawdata, row1, row2 - row1, rawdata, sr1, 1, bpp, gammaMap1, gammaMap2);
        copiedRows := copiedRows[sr1 := true];
        DownTurn(c, src, root.copiedRows, scaled, filled, row, RowsOf(rawdata), copiedRows);
        LinkedIs();
      } else {
        IdleTurn(c, src, root.copiedRows, scaled, filled, row);
      }
    }

    /** scaleRow, for a row of the root that has just been copied or is replayed. */
    method ScaleRow(row: nat)
      requires root != null && Linked() && row < root.height
      modifies this`copiedRows, rawdata
      ensures Linked()
      ensures Turn(Setting(), RowsOf(root.rawdata), root.copiedRows, row,
                   old(RowsOf(rawdata)), old(copiedRows), RowsOf(rawdata), copiedRows)
    {
      LinkedMeans();
      hide *;
      RowBound(height, root.height, row);
      var sr1 := RowFor(row);
      if copiedRows[sr1] {
        IsDone(copiedRows, sr1);
        IdleTurn(Setting(), RowsOf(root.rawdata), root.copiedRows, RowsOf(rawdata), copiedRows, row);
        return;
      }
      IsDone(copiedRows, sr1);
      if height > root.height {
        ScaleRowUp(row);
      } else {
        ScaleRowDown(row);
      }
    }

    // The root and its scaled buffers, which share nothing.
    ghost predicate Family()
      reads this, rawdata, scaledBuffers, set i | 0 <= i < |scaledBuffers| :: scaledBuffers[i].rawdata
    {
      && RootShape()
      && (forall i :: 0 <= i < |scaledBuffers| ==>
            && scaledBuffers[i].root == this && scaledBuffers[i].Linked()
            && scaledBuffers[i] != this && scaledBuffers[i].rawdata != rawdata
            && scaledBuffers[i].gammaMap1 == gammaMap1 && scaledBuffers[i].gammaMap2 == gammaMap2)
      && (forall i, j :: 0 <= i < j < |scaledBuffers| ==>
            scaledBuffers[i] != scaledBuffers[j] && scaledBuffers[i].rawdata != scaledBuffers[j].rawdata)
    }

    // All that has been computed is right, and the first k rows have been dealt with.
    ghost predicate AllCurrent(k: nat)
      requires Family()
      reads this, rawdata, scaledBuffers, set i | 0 <= i < |scaledBuffers| :: scaledBuffers[i].rawdata
    {
      forall i :: 0 <= i < |scaledBuffers| ==>
        scaledBuffers[i].Right() && Current(scaledBuffers[i].Setting(), scaledBuffers[i].copiedRows, k)
    }

    // memcpy of one row
    method StoreRow(row: nat, data: Line)
      requires RootShape() && row < height && |data| == width && forall x :: 0 <= x < width ==> |data[x]| == bpp
      modifies this`copiedRows, rawdata
      ensures RootShape() && copiedRows == old(copiedRows)[row := true]
      ensures RowsOf(rawdata) == old(RowsOf(rawdata))[row := data]
    {
      copiedRows := copiedRows[row := true];
      ghost var was := RowsOf(rawdata);
      for x := 0 to width
        invariant copiedRows == old(copiedRows)[row := true]
        invariant forall z, k :: 0 <= z < height && 0 <= k < width ==>
                    rawdata[z, k] == if z == row && k < x then data[k] else was[z][k]
      {
        rawdata[row, x] := data[x];
      }
      assert |was| == height;
      forall z | 0 <= z < height ensures RowsOf(rawdata)[z] == was[row := data][z] {
        assert |was[z]| == width;
      }
    }

    /** copyRow: the root has the row, and every scaled buffer has taken one turn with it. */
    method CopyRow(row: nat, data: Line)
      requires Family()
      requires |data| == width && forall x :: 0 <= x < width ==> |data[x]| == bpp
      modifies this`copiedRows, rawdata, scaledBuffers, set i | 0 <= i < |scaledBuffers| :: scaledBuffers[i].rawdata
      ensures Family() && scaledBuffers == old(scaledBuffers)
      ensures row >= height ==> copiedRows == old(copiedRows) && RowsOf(rawdata) == old(RowsOf(rawdata))
                                && Contents() == old(Contents()) && Filled() == old(Filled())
      ensures row < height ==>
                && copiedRows == old(copiedRows)[row := true] && RowsOf(rawdata) == old(RowsOf(rawdata))[row := data]
                && EachTurn(Settings(), RowsOf(rawdata), copiedRows, row,
                            old(Contents()), old(Filled()), Contents(), Filled())
    {
      if row >= height { return; }
      hide Linked, RowsOf, RootShape, EachTurn;
      StoreRow(row, data);
      Update(row);
    }

    ghost function Filled(): (r: seq<seq<bool>>)
      reads this, scaledBuffers
      ensures |r| == |scaledBuffers| && forall i :: 0 <= i < |r| ==> r[i] == scaledBuffers[i].copiedRows
    {
      seq(|scaledBuffers|, i requires 0 <= i < |scaledBuffers| reads this, scaledBuffers => scaledBuffers[i].copiedRows)
    }

    ghost function Contents(): (r: seq<seq<Line>>)
      reads this, set i | 0 <= i < |scaledBuffers| :: scaledBuffers[i].rawdata
      ensures |r| == |scaledBuffers| && forall i :: 0 <= i < |r| ==> r[i] == RowsOf(scaledBuffers[i].rawdata)
    {
      seq(|scaledBuffers|, i requires 0 <= i < |scaledBuffers|
                             reads this, set i | 0 <= i < |scaledBuffers| :: scaledBuffers[i].rawdata =>
        RowsOf(scaledBuffers[i].rawdata))
    }

    ghost function Settings(): (r: seq<Setup>)
      reads this`scaledBuffers
      ensures |r| == |scaledBuffers|
    {
      var sbs := scaledBuffers;
      seq(|sbs|, i requires 0 <= i < |sbs| =>
        Setup(width, height, sbs[i].width, sbs[i].height, sbs[i].bpp, sbs[i].gammaMap1, sbs[i].gammaMap2))
    }

    lemma SettingSizes()
      requires Family()
      ensures |RowsOf(rawdata)| == height == |copiedRows|
      ensures forall i :: 0 <= i < |scaledBuffers| ==>
                && Settings()[i].H == height && Settings()[i].h == scaledBuffers[i].height
                && |Contents()[i]| == scaledBuffers[i].height
    {
    }

    lemma SettingsFit(rows: seq<Line>)
      requires Family() && |rows| == height && Sized(rows, width, bpp)
      ensures AllFit(Settings(), rows) && AllFit(Settings(), RowsOf(rawdata))
      ensures |RowsOf(rawdata)| == height == |copiedRows|
    {
    }

    lemma CurrentMeans(k: nat)
      requires Family() && AllCurrent(k)
      ensures Each(Settings(), RowsOf(rawdata), copiedRows, Contents(), Filled(), k)
    {
      hide Faithful, Current, RowsOf;
    }

    lemma CurrentIs(k: nat)
      requires Family() && Each(Settings(), RowsOf(rawdata), copiedRows, Contents(), Filled(), k)
      ensures AllCurrent(k)
    {
      hide Faithful, Current, RowsOf;
    }

    /** newScan: what the scaled buffers have computed counts as not computed; the rows of the root
        stay as arrived. */
    method NewScan()
      requires Family()
      modifies scaledBuffers
      ensures Family() && scaledBuffers == old(scaledBuffers) && copiedRows == old(copiedRows)
      ensures Contents() == old(Contents()) && RowsOf(rawdata) == old(RowsOf(rawdata))
      ensures forall i :: 0 <= i < |scaledBuffers| ==> Filled()[i] == seq(scaledBuffers[i].height, _ => false)
    {
      hide RowsOf;
      var it := 0;
      while it < |scaledBuffers|
        invariant it <= |scaledBuffers| && Family() && scaledBuffers == old(scaledBuffers)
                  && copiedRows == old(copiedRows)
        invariant forall i :: 0 <= i < it ==> scaledBuffers[i].copiedRows == seq(scaledBuffers[i].height, _ => false)
      {
        var sb := scaledBuffers[it];
        sb.copiedRows := seq(sb.height, _ => false);
        it := it + 1;
      }
    }

    // A new buffer, made from the rows that are there.
    method NewScaled(width: nat, height: nat, ghost k: nat) returns (sb: FltkImgbuf)
      requires Family() && width > 0 && height > 0
      modifies this`scaledBuffers
      ensures Family() && scaledBuffers == old(scaledBuffers) + [sb]
      ensures AllCopied(copiedRows, 0, k) && old(AllCurrent(k)) ==> AllCurrent(k)
      ensures fresh(sb) && fresh(sb.rawdata) && sb.width == width && sb.height == height
    {
      hide Faithful, Current, RowsOf, Linked, RootShape;
      sb := new FltkImgbuf.Scaled(this, width, height, if AllCopied(copiedRows, 0, k) then k else 0);
      scaledBuffers := scaledBuffers + [sb];
    }

    /** On a root: the buffer of this size, an existing one if there is one; excessive
        sizes get the root itself. If all buffers were up to date with the first k rows, they are. */
    method RootScaledBuf(width: int, height: int, ghost k: nat) returns (sb: FltkImgbuf)
      requires Family()
      modifies this`scaledBuffers
      ensures Family() && (sb == this || sb in scaledBuffers)
      ensures AllCopied(copiedRows, 0, k) && old(AllCurrent(k)) ==> AllCurrent(k)
      ensures var w, h := AtMost(width, MAX_WIDTH), AtMost(height, MAX_HEIGHT);
              && (Excessive(w, h) || (sb.width == w && sb.height == h))
              && if (w == this.width && h == this.height) || (Excessive(w, h) && !old(AnySize(scaledBuffers, w, h)))
                 then sb == this && scaledBuffers == old(scaledBuffers)
                 else if old(AnySize(scaledBuffers, w, h))
                 then sb in old(scaledBuffers) && sb.width == w && sb.height == h && scaledBuffers == old(scaledBuffers)
                 else scaledBuffers == old(scaledBuffers) + [sb] && fresh(sb) && fresh(sb.rawdata)
      decreases (if width > MAX_WIDTH then 1 else 0) + (if height > MAX_HEIGHT then 1 else 0)
    {
      hide Family, AllCurrent, AllCopied, Excessive;
      if width > MAX_WIDTH {
        sb := RootScaledBuf(MAX_WIDTH, height, k);
        return;
      }
      if height > MAX_HEIGHT {
        sb := RootScaledBuf(width, MAX_HEIGHT, k);
        return;
      }
      if width == this.width && height == this.height { return this; }
      for it := 0 to |scaledBuffers|
        invariant scaledBuffers == old(scaledBuffers) && Family() && !AnySize(scaledBuffers[..it], width, height)
      {
        if scaledBuffers[it].width == width && scaledBuffers[it].height == height {
          return scaledBuffers[it];
        }
      }
      if Excessive(width, height) { return this; }
      NotExcessive(width, height);
      sb := NewScaled(width, height, k);
    }

    // The root of the family.
    function Head(): FltkImgbuf {
      if root == null then this else root
    }

    /** getScaledBuf: a scaled buffer asks its root. */
    method GetScaledBuf(width: int, height: int, ghost k: nat) returns (sb: FltkImgbuf)
      requires Head().Family()
      modifies Head()`scaledBuffers
      ensures Head().Family() && (sb == Head() || sb in Head().scaledBuffers)
      ensures AllCopied(Head().copiedRows, 0, k) && old(Head().AllCurrent(k)) ==> Head().AllCurrent(k)
      ensures var w, h := AtMost(width, MAX_WIDTH), AtMost(height, MAX_HEIGHT);
              && (Excessive(w, h) || (sb.width == w && sb.height == h))
              && if (w == Head().width && h == Head().height)
                    || (Excessive(w, h) && !old(AnySize(Head().scaledBuffers, w, h)))
                 then sb == Head() && Head().scaledBuffers == old(Head().scaledBuffers)
                 else if old(AnySize(Head().scaledBuffers, w, h))
                 then
                   && sb in old(Head().scaledBuffers) && sb.width == w && sb.height == h
                   && Head().scaledBuffers == old(Head().scaledBuffers)
                 else Head().scaledBuffers == old(Head().scaledBuffers) + [sb] && fresh(sb) && fresh(sb.rawdata)
    {
      hide Family, AllCurrent, AllCopied, Excessive, AtMost;
      if root != null {
        sb := root.RootScaledBuf(width, height, k);
      } else {
        sb := RootScaledBuf(width, height, k);
      }
    }

    lemma NotExcessive(width: int, height: int)
      requires !Excessive(width, height)
      ensures width > 0 && height > 0
    {
    }

    // The loop over the scaled buffers.
    method Update(row: nat)
      requires Family() && row < height
      modifies scaledBuffers, set i | 0 <= i < |scaledBuffers| :: scaledBuffers[i].rawdata
      ensures Family() && scaledBuffers == old(scaledBuffers) && copiedRows == old(copiedRows)
      ensures RowsOf(rawdata) == old(RowsOf(rawdata))
      ensures EachTurn(Settings(), RowsOf(rawdata), copiedRows, row,
                       old(Contents()), old(Filled()), Contents(), Filled())
    {
      hide *;
      ghost var cs, src, scaled, filled := Settings(), RowsOf(rawdata), Contents(), Filled();
      NoTurn(cs, src, copiedRows, row, scaled, filled);
      var it := 0;
      while it < |scaledBuffers|
        invariant it <= |scaledBuffers| && Family() && scaledBuffers == old(scaledBuffers)
        invariant copiedRows == old(copiedRows) && RowsOf(rawdata) == src && Settings() == cs
        invariant TurnsBefore(cs, src, copiedRows, row, scaled, filled, Contents(), Filled(), it)
      {
        ghost var scaled', filled' := Contents(), Filled();
        UpdateOne(row, it, scaledBuffers[it]);
        OneMoreTurn(cs, src, copiedRows, row, scaled, filled, scaled', filled', Contents(), Filled(), it);
        it := it + 1;
      }
      AllTurns(cs, src, copiedRows, row, scaled, filled, Contents(), Filled());
    }

    method UpdateOne(row: nat, it: nat, sb: FltkImgbuf)
      requires Family() && row < height && it < |scaledBuffers| && scaledBuffers[it] == sb
      modifies sb`copiedRows, sb.rawdata
      ensures Family() && copiedRows == old(copiedRows) && RowsOf(rawdata) == old(RowsOf(rawdata))
      ensures forall i :: 0 <= i < |scaledBuffers| && i != it ==>
                Contents()[i] == old(Contents())[i] && Filled()[i] == old(Filled())[i]
      ensures Turn(Settings()[it], RowsOf(rawdata), copiedRows, row,
                   old(Contents())[it], old(Filled())[it], Contents()[it], Filled()[it])
    {
      hide Linked, RowsOf, RootShape, Turn;
      sb.ScaleRow(row);
      assert Settings()[it] == sb.Setting();
    }
  }

  lemma AdvancedNow(c: Setup, filled: seq<bool>, filled': seq<bool>, row: nat)
    requires Advances(c, filled, filled', row) && Current(c, filled, row)
    ensures Current(c, filled', row + 1)
  {
  }

  ghost predicate Grows(filled: seq<bool>, filled': seq<bool>) {
    |filled| == |filled'| && forall s :: 0 <= s < |filled| && filled[s] ==> filled'[s]
  }

  lemma IsDone(filled: seq<bool>, s: nat)
    requires s < |filled|
    ensures Done(filled, s) == filled[s]
  {
  }

  lemma RowBound(h: nat, H: nat, row: nat)
    requires h > 0 && row < H
    ensures ScaledY(row, h, H) < h
  {
    ScaledAtLeast(row, h, H, h);
    TimesMonotone(row + 1, H, h);
    OneMore(row, h);
    hide ScaledY;
    assert h * H == H * h;
  }

  // ----- A whole download -----

  // The first k rows of the image are there, and no others.
  ghost predicate Arrived(copied: seq<bool>, src: seq<Line>, rows: seq<Line>, k: nat) {
    && k <= |rows| == |copied| == |src|
    && forall r :: 0 <= r < |rows| ==> copied[r] == (r < k) && (r < k ==> src[r] == rows[r])
  }

  lemma NextArrives(copied: seq<bool>, src: seq<Line>, rows: seq<Line>, k: nat)
    requires Arrived(copied, src, rows, k) && k < |rows|
    ensures k < |copied| == |src| == |rows| && !copied[k] && AllCopied(copied[k := true], 0, k + 1)
    ensures Arrived(copied[k := true], src[k := rows[k]], rows, k + 1)
  {
  }

  // All buffers are right and up to date with the first k rows, said of values.
  ghost predicate Each(cs: seq<Setup>, src: seq<Line>, copied: seq<bool>, scaled: seq<seq<Line>>,
                       filled: seq<seq<bool>>,
                       k: nat) {
    && |cs| == |scaled| == |filled|
    && forall i :: 0 <= i < |cs| ==>
         Faithful(cs[i], src, copied, scaled[i], filled[i]) && Current(cs[i], filled[i], k)
  }

  ghost predicate EachTurn(cs: seq<Setup>, src: seq<Line>, copied: seq<bool>, row: nat,
                           scaled: seq<seq<Line>>, filled: seq<seq<bool>>,
                           scaled': seq<seq<Line>>, filled': seq<seq<bool>>) {
    && |cs| == |scaled| == |filled| == |scaled'| == |filled'|
    && forall i :: 0 <= i < |cs| ==>
         Turn(cs[i], src, copied, row, scaled[i], filled[i], scaled'[i], filled'[i])
  }

  // The buffers before number it have taken their turns.
  ghost predicate TurnsBefore(cs: seq<Setup>, src: seq<Line>, copied: seq<bool>, row: nat,
                              scaled: seq<seq<Line>>, filled: seq<seq<bool>>,
                              scaled': seq<seq<Line>>, filled': seq<seq<bool>>, it: nat) {
    && |cs| == |scaled| == |filled| == |scaled'| == |filled'|
    && forall i :: 0 <= i < |cs| ==>
         if i < it then Turn(cs[i], src, copied, row, scaled[i], filled[i], scaled'[i], filled'[i])
         else scaled'[i] == scaled[i] && filled'[i] == filled[i]
  }

  lemma NoTurn(cs: seq<Setup>, src: seq<Line>, copied: seq<bool>, row: nat,
               scaled: seq<seq<Line>>, filled: seq<seq<bool>>)
    requires |cs| == |scaled| == |filled|
    ensures TurnsBefore(cs, src, copied, row, scaled, filled, scaled, filled, 0)
  {
  }

  lemma OneMoreTurn(cs: seq<Setup>, src: seq<Line>, copied: seq<bool>, row: nat,
                    scaled: seq<seq<Line>>, filled: seq<seq<bool>>, scaled': seq<seq<Line>>, filled': seq<seq<bool>>,
                    scaled'': seq<seq<Line>>, filled'': seq<seq<bool>>, it: nat)
    requires TurnsBefore(cs, src, copied, row, scaled, filled, scaled', filled', it)
    requires it < |cs| == |scaled'| == |filled'| == |scaled''| == |filled''|
    requires forall i :: 0 <= i < |cs| && i != it ==> scaled''[i] == scaled'[i] && filled''[i] == filled'[i]
    requires Turn(cs[it], src, copied, row, scaled'[it], filled'[it], scaled''[it], filled''[it])
    ensures TurnsBefore(cs, src, copied, row, scaled, filled, scaled'', filled'', it + 1)
  {
    hide Turn;
  }

  lemma AllTurns(cs: seq<Setup>, src: seq<Line>, copied: seq<bool>, row: nat,
                 scaled: seq<seq<Line>>, filled: seq<seq<bool>>, scaled': seq<seq<Line>>, filled': seq<seq<bool>>)
    requires TurnsBefore(cs, src, copied, row, scaled, filled, scaled', filled', |cs|)
    ensures EachTurn(cs, src, copied, row, scaled, filled, scaled', filled')
  {
    hide Turn;
  }

  // The next row of the image arrives.
  lemma EachArrival(cs: seq<Setup>, src: seq<Line>, copied: seq<bool>, row: nat, data: Line,
                    scaled: seq<seq<Line>>, filled: seq<seq<bool>>, scaled': seq<seq<Line>>, filled': seq<seq<bool>>)
    requires Each(cs, src, copied, scaled, filled, row) && row < |src| == |copied| && !copied[row]
    requires EachTurn(cs, src[row := data], copied[row := true], row, scaled, filled, scaled', filled')
    requires AllCopied(copied[row := true], 0, row + 1)
    ensures Each(cs, src[row := data], copied[row := true], scaled', filled', row + 1)
  {
    forall i | 0 <= i < |cs|
      ensures Faithful(cs[i], src[row := data], copied[row := true], scaled'[i], filled'[i])
      ensures Current(cs[i], filled'[i], row + 1)
    {
      TurnFits(cs[i], src[row := data], copied[row := true], row, scaled[i], filled[i], scaled'[i], filled'[i]);
      hide Faithful, Turn, Current, AllCopied;
      Arrival(cs[i], src, copied, row, data, scaled[i], filled[i], scaled'[i], filled'[i]);
    }
  }

  lemma TurnFits(c: Setup, src: seq<Line>, copied: seq<bool>, row: nat,
                 scaled: seq<Line>, filled: seq<bool>, scaled': seq<Line>, filled': seq<bool>)
    requires Turn(c, src, copied, row, scaled, filled, scaled', filled')
    ensures c.Fits(src) && row < c.H && |copied| == c.H && |filled| == |filled'| == c.h && c.Positive()
  {
  }

  // The rows from a up to b arrive.
  method Download(root: FltkImgbuf, rows: seq<Line>, a: nat, b: nat)
    requires root.Family() && Arrived(root.copiedRows, RowsOf(root.rawdata), rows, a) && root.AllCurrent(a)
    requires a <= b <= |rows| == root.height && Sized(rows, root.width, root.bpp)
    modifies root`copiedRows, root.rawdata, root.scaledBuffers
    modifies set i | 0 <= i < |root.scaledBuffers| :: root.scaledBuffers[i].rawdata
    ensures root.Family() && root.scaledBuffers == old(root.scaledBuffers)
    ensures Arrived(root.copiedRows, RowsOf(root.rawdata), rows, b) && root.AllCurrent(b)
  {
    hide *;
    var r := a;
    while r < b
      invariant a <= r <= b && root.Family() && root.scaledBuffers == old(root.scaledBuffers)
      invariant Arrived(root.copiedRows, RowsOf(root.rawdata), rows, r) && root.AllCurrent(r)
    {
      NextArrives(root.copiedRows, RowsOf(root.rawdata), rows, r);
      root.CurrentMeans(r);
      RowSizes(rows, root.width, root.bpp, r);
      ghost var cs, src, copied, scaled, filled :=
        root.Settings(), RowsOf(root.rawdata), root.copiedRows, root.Contents(), root.Filled();
      root.CopyRow(r, rows[r]);
      EachArrival(cs, src, copied, r, rows[r], scaled, filled, root.Contents(), root.Filled());
      root.CurrentIs(r + 1);
      r := r + 1;
    }
  }

  lemma RowSizes(rows: seq<Line>, W: nat, bpp: nat, r: nat)
    requires Sized(rows, W, bpp) && r < |rows|
    ensures |rows[r]| == W && forall x :: 0 <= x < W ==> |rows[r][x]| == bpp
  {
  }

  /** Progressive scaling: rows arrive top to bottom, and at any time a scaled buffer is asked for.
      In the end it holds what row by row scaling makes of the whole image; for a height no greater
      than the image's, or a multiple of it, exactly what scaling the image at once makes. */
  method ProgressiveScaling(rows: seq<Line>, W: nat, bpp: nat, g1: Byte -> Byte, g2: Byte -> Byte,
                            k: nat, width: nat, height: nat) returns (root: FltkImgbuf, sb: FltkImgbuf)
    requires |rows| > 0 && W > 0 && Sized(rows, W, bpp) && k <= |rows|
    requires !Excessive(width, height) && width <= MAX_WIDTH && height <= MAX_HEIGHT
    ensures RowsOf(root.rawdata) == rows && (sb == root ==> width == W && height == |rows|)
    ensures sb.width == width && sb.height == height
    ensures sb != root ==> RowsOf(sb.rawdata) == Progressive(rows, W, width, height, bpp, g1, g2)
    ensures sb != root && (height <= |rows| || height % |rows| == 0) ==>
              RowsOf(sb.rawdata) == OneShot(rows, W, width, height, bpp, g1, g2)
  {
    root := new FltkImgbuf.Root(W, |rows|, bpp, g1, g2);
    assert Arrived(root.copiedRows, RowsOf(root.rawdata), rows, 0);
    hide *;
    Download(root, rows, 0, k);
    PrefixArrived(root.copiedRows, RowsOf(root.rawdata), rows, k);
    RootIsHead(root);
    sb := root.GetScaledBuf(width, height, k);
    NotCapped(width, height);
    Download(root, rows, k, |rows|);
    PrefixArrived(root.copiedRows, RowsOf(root.rawdata), rows, |rows|);
    RootKept(root, rows);
    if sb != root {
      BufferFinished(root, sb, rows);
      if height <= |rows| || height % |rows| == 0 {
        OneShotToo(Setup(W, |rows|, width, height, bpp, g1, g2), rows);
      }
    }
  }

  lemma RootIsHead(root: FltkImgbuf)
    requires root.Family()
    ensures root.Head() == root
  {
  }

  lemma OneShotToo(c: Setup, rows: seq<Line>)
    requires c.W > 0 && c.w > 0 && c.h > 0 && |rows| == c.H > 0 && Sized(rows, c.W, c.bpp)
    requires c.h <= c.H || c.h % c.H == 0
    ensures Progressive(rows, c.W, c.w, c.h, c.bpp, c.g1, c.g2) == OneShot(rows, c.W, c.w, c.h, c.bpp, c.g1, c.g2)
  {
    PicturesSame(c, rows);
    hide Progressive, OneShot;
  }

  lemma NotCapped(width: nat, height: nat)
    requires width <= MAX_WIDTH && height <= MAX_HEIGHT
    ensures AtMost(width, MAX_WIDTH) == width && AtMost(height, MAX_HEIGHT) == height
  {
  }

  lemma PrefixArrived(copied: seq<bool>, src: seq<Line>, rows: seq<Line>, k: nat)
    requires Arrived(copied, src, rows, k)
    ensures AllCopied(copied, 0, k) && (k == |rows| ==> src == rows)
  {
  }

  lemma RootKept(root: FltkImgbuf, rows: seq<Line>)
    requires root.Family() && RowsOf(root.rawdata) == rows
    ensures root.width > 0 && Sized(rows, root.width, root.bpp) && |rows| == root.height
  {
  }

  lemma BufferFinished(root: FltkImgbuf, sb: FltkImgbuf, rows: seq<Line>)
    requires root.Family() && root.AllCurrent(root.height) && sb in root.scaledBuffers && RowsOf(root.rawdata) == rows
    ensures root.width > 0 && Sized(rows, root.width, root.bpp) && |rows| == root.height > 0 && sb.width > 0
            && sb.height > 0
    ensures RowsOf(sb.rawdata) ==
              Progressive(rows, root.width, sb.width, sb.height, root.bpp, root.gammaMap1, root.gammaMap2)
  {
    assert sb.Linked() && sb.Right() && sb.root == root;
    hide Faithful;
    Finished(sb.Setting(), rows, root.copiedRows, RowsOf(sb.rawdata), sb.copiedRows);
  }

  // ----- A second scan -----

  /** The row of the root whose arrival makes scaled row s be computed, all rows being there. */
  function Due(s: nat, H: nat, h: nat): nat
    requires h > 0 && H > 0
  {
    if h <= H then (s * H + h - 1) / h else From(s, H, h)
  }

  lemma DueAtMost(s: nat, H: nat, h: nat, y: nat)
    requires 0 < h <= H
    ensures Due(s, H, h) <= y <==> s <= ScaledY(y, h, H)
  {
    Quotient(s * H + h - 1, h, y + 1);
    ScaledAtLeast(y, h, H, s);
    OneMore(y, h);
  }

  /** A row computes exactly the scaled rows that are due with it. */
  lemma DueRow(y: nat, H: nat, h: nat, s: nat)
    requires h > 0 && y < H && s < h
    ensures Due(s, H, h) < H
    ensures h > H ==> (Due(s, H, h) == y <==> From(s, H, h) == y) && Due(ScaledY(y, h, H), H, h) == y
    ensures h <= H ==>
              var sr1 := ScaledY(y, h, H);
              && (Due(s, H, h) == y ==> s == sr1)
              && (Due(sr1, H, h) < y || Due(sr1, H, h) == y)
  {
    if h > H {
      SourceBand(s, H, h);
      RowBound(h, H, y);
      UpRow(y, H, h, ScaledY(y, h, H));
    } else {
      DueAtMost(s, H, h, y);
      DueAtMost(ScaledY(y, h, H), H, h, y);
      DueAtMost(s, H, h, H - 1);
      LastRow(H, h);
      if y > 0 {
        DueAtMost(s, H, h, y - 1);
        DownStep(y - 1, h, H);
      } else {
        ScaledEnds(h, H);
      }
    }
  }

  lemma LastRow(H: nat, h: nat)
    requires 0 < h <= H
    ensures ScaledY(H - 1, h, H) == h - 1
  {
    ScaledEnds(h, H);
    DownStep(H - 1, h, H);
  }

  // The root when the first k rows of the new scan have replaced the old ones.
  function Mixed(before: seq<Line>, rows: seq<Line>, k: nat): (r: seq<Line>)
    requires k <= |before| == |rows|
    ensures |r| == |rows|
  {
    rows[..k] + before[k..]
  }

  lemma MixedFits(c: Setup, before: seq<Line>, rows: seq<Line>, k: nat)
    requires c.Fits(before) && c.Fits(rows) && k <= c.H
    ensures c.Fits(Mixed(before, rows, k))
  {
    var m := Mixed(before, rows, k);
    forall y | 0 <= y < |m| ensures |m[y]| == c.W && forall x :: 0 <= x < c.W ==> |m[y][x]| == c.bpp {
      assert m[y] == if y < k then rows[y] else before[y];
    }
  }

  /** What a second scan leaves in a scaled buffer: each row is computed when it is due, from what
      the root holds then, and never again. */
  ghost function Rescanned(c: Setup, before: seq<Line>, rows: seq<Line>): seq<Line>
    requires c.Fits(before) && c.Fits(rows)
  {
    seq(c.h, s requires 0 <= s < c.h =>
      DueRow(0, c.H, c.h, s);
      MixedFits(c, before, rows, Due(s, c.H, c.h) + 1);
      c.Wanted(Mixed(before, rows, Due(s, c.H, c.h) + 1))[s])
  }

  // The second scan after k rows.
  ghost predicate Rescanning(c: Setup, before: seq<Line>, rows: seq<Line>, k: nat, scaled: seq<Line>,
                             filled: seq<bool>) {
    && c.Fits(before) && c.Fits(rows) && k <= c.H && |scaled| == |filled| == c.h
    && forall s :: 0 <= s < c.h ==>
         && filled[s] == (Due(s, c.H, c.h) < k)
         && (filled[s] ==> scaled[s] == Rescanned(c, before, rows)[s])
  }

  lemma AllThere(copied: seq<bool>, a: nat, b: nat)
    requires AllCopied(copied, 0, |copied|) && b <= |copied|
    ensures AllCopied(copied, a, b)
  {
  }

  // With all rows there, the call for row k computes exactly the rows due with it.
  lemma FillsDue(c: Setup, copied: seq<bool>, filled: seq<bool>, k: nat, s: nat)
    requires c.Positive() && k < c.H == |copied| && |filled| == c.h && s < c.h && AllCopied(copied, 0, c.H)
    requires forall z :: 0 <= z < c.h ==> filled[z] == (Due(z, c.H, c.h) < k)
    ensures Fills(c, copied, filled, k, s) <==> Due(s, c.H, c.h) == k
  {
    var sr1 := ScaledY(k, c.h, c.H);
    RowBound(c.h, c.H, k);
    DueRow(k, c.H, c.h, s);
    DueRow(k, c.H, c.h, sr1);
    SourceBand(s, c.H, c.h);
    AllThere(copied, From(s, c.H, c.h), To(s, c.H, c.h));
    hide ScaledY, From, To, Due, AllCopied;
  }

  lemma RescanTurn(c: Setup, before: seq<Line>, rows: seq<Line>, copied: seq<bool>, k: nat,
                   scaled: seq<Line>, filled: seq<bool>, scaled': seq<Line>, filled': seq<bool>)
    requires Rescanning(c, before, rows, k, scaled, filled) && k < c.H && AllCopied(copied, 0, c.H)
    requires Turn(c, Mixed(before, rows, k + 1), copied, k, scaled, filled, scaled', filled')
    ensures Rescanning(c, before, rows, k + 1, scaled', filled')
  {
    forall s | 0 <= s < c.h ensures Fills(c, copied, filled, k, s) <==> Due(s, c.H, c.h) == k {
      FillsDue(c, copied, filled, k, s);
    }
    hide Fills, Due, Progressive, Mixed, AllCopied;
  }

  lemma RescanStarts(c: Setup, before: seq<Line>, rows: seq<Line>, scaled: seq<Line>)
    requires c.Fits(before) && c.Fits(rows) && |scaled| == c.h
    ensures Rescanning(c, before, rows, 0, scaled, seq(c.h, _ => false))
  {
    hide Due;
  }

  lemma RescanEnds(c: Setup, before: seq<Line>, rows: seq<Line>, scaled: seq<Line>, filled: seq<bool>)
    requires Rescanning(c, before, rows, c.H, scaled, filled)
    ensures scaled == Rescanned(c, before, rows)
  {
    forall s | 0 <= s < c.h ensures Due(s, c.H, c.h) < c.H {
      DueRow(0, c.H, c.h, s);
    }
    hide Due, Progressive;
  }

  /** The rows of every band after the one that makes it be computed are the same as before: then
      the second scan leaves what row by row scaling makes of the new image. */
  lemma RescanRight(c: Setup, before: seq<Line>, rows: seq<Line>)
    requires c.Fits(before) && c.Fits(rows)
    requires forall s, r :: 0 <= s < c.h && Due(s, c.H, c.h) < r < To(s, c.H, c.h) && r < c.H ==> before[r] == rows[r]
    ensures Rescanned(c, before, rows) == c.Wanted(rows)
  {
    forall s | 0 <= s < c.h ensures Rescanned(c, before, rows)[s] == c.Wanted(rows)[s] {
      DueRow(0, c.H, c.h, s);
      SourceBand(s, c.H, c.h);
      var k := Due(s, c.H, c.h) + 1;
      MixedFits(c, before, rows, k);
      hide Due, From, To, ScaledLine;
      SameLine(Mixed(before, rows, k), rows, c.W, c.w, c.bpp, From(s, c.H, c.h), To(s, c.H, c.h), c.g1, c.g2);
    }
  }

  /** Bands have no rows after the one that makes them be computed if and only if the image is less
      than twice as high as the target. */
  lemma ShortBands(H: nat, h: nat)
    requires h > 0 && H > 0
    ensures (forall s :: 0 <= s < h ==> To(s, H, h) <= Due(s, H, h) + 1) <==> H < 2 * h
  {
    if H < 2 * h {
      forall s | 0 <= s < h ensures To(s, H, h) <= Due(s, H, h) + 1 {
        if h <= H {
          BandEndsSoon(s, H, h);
        }
      }
    } else {
      Quotient(0 * H + h - 1, h, 1);
      Quotient(1 * H, h, 2);
      assert Due(0, H, h) == 0 && To(0, H, h) >= 2;
    }
  }

  lemma BandEndsSoon(s: nat, H: nat, h: nat)
    requires 0 < h <= H < 2 * h
    ensures To(s, H, h) <= Due(s, H, h) + 1
  {
    var d := Due(s, H, h);
    DueAtMost(s, H, h, d);
    ScaledAtLeast(d, h, H, s);
    BackAtLeast(s + 1, h, H, d + 2);
    OneMore(s, H);
    OneMore(d, h);
    OneMore(d + 1, h);
    hide Due, Lo, ScaledY;
  }

  // An image whose first row is white and whose other rows all hold the byte z.
  function Lit(c: Setup, z: Byte): seq<Line> {
    seq(c.H, y => seq(c.W, x => seq<Byte>(c.bpp, i => if y == 0 then 255 else z)))
  }

  function Plain(b: Byte): Byte {
    b
  }

  lemma {:induction false} LitColumn(c: Setup, z: Byte, xo: nat, yo: nat)
    requires Sized(Lit(c, z), c.W, c.bpp) && xo < c.W && 0 < yo <= c.H && c.bpp > 0
    ensures ColumnSum(Lit(c, z), c.W, c.bpp, xo, 0, yo, 0, Plain) == 255 + z * (yo - 1)
  {
    if yo > 1 {
      LitColumn(c, z, xo, yo - 1);
      assert z * (yo - 1) == z * (yo - 2) + z;
      assert Lit(c, z)[yo - 1][xo][0] == z;
    } else {
      assert ColumnSum(Lit(c, z), c.W, c.bpp, xo, 0, 0, 0, Plain) == 0;
      assert Lit(c, z)[0][xo][0] == 255;
    }
  }

  lemma {:induction false} LitCell(c: Setup, z: Byte, xo: nat, yo: nat)
    requires Sized(Lit(c, z), c.W, c.bpp) && xo <= c.W && 0 < yo <= c.H && c.bpp > 0
    ensures CellSum(Lit(c, z), c.W, c.bpp, 0, xo, 0, yo, 0, Plain) == xo * (255 + z * (yo - 1))
    decreases xo
  {
    if xo > 0 {
      LitCell(c, z, xo - 1, yo);
      LitColumn(c, z, xo - 1, yo);
      OneMore(xo - 1, 255 + z * (yo - 1));
    }
  }

  // The average over the first yo rows is white only if the others are white, too.
  lemma LitAverage(a: nat, yo: nat)
    requires a > 0 && yo >= 2
    ensures a * yo > 0 && (a * (255 + 255 * (yo - 1))) / (a * yo) == 255
    ensures (a * (255 + 0 * (yo - 1))) / (a * yo) < 255
  {
    var n := a * yo;
    assert n >= 2 * a by { TimesMonotone(2, yo, a); assert yo * a == n; }
    assert a * (255 + 255 * (yo - 1)) == 255 * n;
    Quotient(255 * n, n, 255);
    Quotient(255 * n, n, 256);
    OneMore(255, n);
    Quotient(255 * a, n, 255);
    TimesMonotone(2 * a, n, 255);
  }

  lemma LitFits(c: Setup, z: Byte)
    requires c.Positive()
    ensures c.Fits(Lit(c, z))
  {
  }

  // The rectangle that the first scaled pixel is made of.
  lemma FirstCell(c: Setup)
    requires c.Positive() && c.H >= 2 * c.h
    ensures From(0, c.H, c.h) == 0 && Lo(0, c.W, c.w) == 0
    ensures 0 < Hi(0, c.W, c.w) <= c.W && 2 <= To(0, c.H, c.h) <= c.H
  {
    Quotient(1 * c.H, c.h, 2);
    SourceBand(0, c.H, c.h);
    Stretch(0, c.W, c.w);
  }

  lemma LitDiffers(c: Setup)
    requires c.Positive() && c.bpp > 0 && c.g1 == Plain && c.g2 == Plain && c.H >= 2 * c.h
    ensures c.Fits(Lit(c, 0)) && c.Fits(Lit(c, 255)) && c.Wanted(Lit(c, 0))[0] != c.Wanted(Lit(c, 255))[0]
  {
    LitFits(c, 0);
    LitFits(c, 255);
    FirstCell(c);
    LitFirst(c, 0, Hi(0, c.W, c.w), To(0, c.H, c.h));
    LitFirst(c, 255, Hi(0, c.W, c.w), To(0, c.H, c.h));
    hide *;
    Apart(c.Wanted(Lit(c, 0)), c.Wanted(Lit(c, 255)));
  }

  lemma Apart(a: seq<Line>, b: seq<Line>)
    requires |a| > 0 && |a[0]| > 0 && |a[0][0]| > 0 && |b| > 0 && |b[0]| > 0 && |b[0][0]| > 0
    requires a[0][0][0] != b[0][0][0]
    ensures a[0] != b[0]
  {
  }

  // The first byte is white only if all rows are.
  lemma LitFirst(c: Setup, z: Byte, xo: nat, yo: nat)
    requires c.Positive() && c.bpp > 0 && c.g1 == Plain && c.g2 == Plain && c.Fits(Lit(c, z)) && (z == 0 || z == 255)
    requires xo == Hi(0, c.W, c.w) && yo == To(0, c.H, c.h) && From(0, c.H, c.h) == 0 && Lo(0, c.W, c.w) == 0
    requires 0 < xo <= c.W && 2 <= yo <= c.H
    ensures var r := c.Wanted(Lit(c, z));
            && |r| > 0 && |r[0]| > 0 && |r[0][0]| > 0 && (r[0][0][0] == 255 <==> z == 255)
  {
    assert Sized(Lit(c, z), c.W, c.bpp) && c.h > 0 && c.w > 0;
    hide *;
    LitCell(c, z, xo, yo);
    LitAverage(xo, yo);
    LitWanted(c, z, xo, yo);
  }

  // The first byte of the scaled image.
  lemma LitWanted(c: Setup, z: Byte, xo: nat, yo: nat)
    requires c.Positive() && c.bpp > 0 && c.g1 == Plain && c.g2 == Plain && c.Fits(Lit(c, z))
    requires xo == Hi(0, c.W, c.w) && yo == To(0, c.H, c.h) && From(0, c.H, c.h) == 0 && Lo(0, c.W, c.w) == 0
    requires 0 < xo <= c.W && 0 < yo <= c.H
    ensures var sum := CellSum(Lit(c, z), c.W, c.bpp, 0, xo, 0, yo, 0, Plain);
            && xo * yo > 0 && sum / (xo * yo) < 256
            && |c.Wanted(Lit(c, z))| == c.h && |c.Wanted(Lit(c, z))[0]| == c.w
            && |c.Wanted(Lit(c, z))[0][0]| == c.bpp && c.Wanted(Lit(c, z))[0][0][0] == sum / (xo * yo)
  {
    AverageIsByte(CellSum(Lit(c, z), c.W, c.bpp, 0, xo, 0, yo, 0, Plain), xo, yo);
  }

  /** A second scan of any image over any other ends at the right picture if and only if the image
      is less than twice as high as the target (gamma maps being off). */
  lemma SecondScanExactly(c: Setup)
    requires c.Positive() && c.bpp > 0 && c.g1 == Plain && c.g2 == Plain
    ensures (forall before, rows :: c.Fits(before) && c.Fits(rows) ==> Rescanned(c, before, rows) == c.Wanted(rows))
            <==> c.H < 2 * c.h
  {
    if c.H < 2 * c.h {
      forall before, rows | c.Fits(before) && c.Fits(rows) ensures Rescanned(c, before, rows) == c.Wanted(rows) {
        RescanShort(c, before, rows);
      }
    } else {
      LitDiffers(c);
      LitRescanned(c);
      assert Rescanned(c, Lit(c, 0), Lit(c, 255))[0] != c.Wanted(Lit(c, 255))[0];
    }
  }

  lemma RescanShort(c: Setup, before: seq<Line>, rows: seq<Line>)
    requires c.Fits(before) && c.Fits(rows) && c.H < 2 * c.h
    ensures Rescanned(c, before, rows) == c.Wanted(rows)
  {
    ShortBands(c.H, c.h);
    hide Due, To, Rescanned, Progressive;
    RescanRight(c, before, rows);
  }

  lemma LitRescanned(c: Setup)
    requires c.Fits(Lit(c, 0)) && c.Fits(Lit(c, 255)) && c.h <= c.H
    ensures Rescanned(c, Lit(c, 0), Lit(c, 255))[0] == c.Wanted(Lit(c, 0))[0]
  {
    Quotient(0 * c.H + c.h - 1, c.h, 1);
    assert Due(0, c.H, c.h) == 0;
    hide Due, Progressive;
    assert Mixed(Lit(c, 0), Lit(c, 255), 1) == Lit(c, 0);
  }

  // ----- Pictures scaled up -----

  // An image that is white in row k and black elsewhere.
  function OneRow(c: Setup, k: nat): seq<Line> {
    seq(c.H, y => seq(c.W, x => seq<Byte>(c.bpp, i => if y == k then 255 else 0)))
  }

  lemma {:induction false} OneRowCell(c: Setup, k: nat, xo: nat, y: nat)
    requires Sized(OneRow(c, k), c.W, c.bpp) && xo <= c.W && y < c.H && c.bpp > 0
    ensures CellSum(OneRow(c, k), c.W, c.bpp, 0, xo, y, y + 1, 0, Plain) == if y == k then xo * 255 else 0
    decreases xo
  {
    if xo > 0 {
      OneRowCell(c, k, xo - 1, y);
      assert ColumnSum(OneRow(c, k), c.W, c.bpp, xo - 1, y, y, 0, Plain) == 0;
      assert OneRow(c, k)[y][xo - 1][0] == if y == k then 255 else 0;
    }
  }

  // The first byte of a line made of row y alone.
  lemma OneRowLine(c: Setup, k: nat, y: nat)
    requires c.Positive() && c.bpp > 0 && c.g1 == Plain && c.g2 == Plain && y < c.H
    ensures c.Fits(OneRow(c, k))
    ensures var l := ScaledLine(OneRow(c, k), c.W, c.w, c.bpp, y, y + 1, c.g1, c.g2);
            |l| == c.w && |l[0]| == c.bpp && l[0][0] == if y == k then 255 else 0
  {
    var xo := Hi(0, c.W, c.w);
    Stretch(0, c.W, c.w);
    assert Lo(0, c.W, c.w) == 0;
    hide Hi, Lo;
    OneRowCell(c, k, xo, y);
    AverageIsByte(CellSum(OneRow(c, k), c.W, c.bpp, 0, xo, y, y + 1, 0, Plain), xo, 1);
    Quotient(xo * 255, xo, 255);
    Quotient(xo * 255, xo, 256);
    Quotient(0, xo, 1);
  }

  // Scaled up at once, a row is made of one row of the image.
  lemma UpHi(s: nat, H: nat, h: nat)
    requires 0 < H < h && s < h
    ensures Lo(s, H, h) < H && Hi(s, H, h) == Lo(s, H, h) + 1
  {
    Stretch(s, H, h);
    var y := Lo(s, H, h);
    BackAtLeast(s, h, H, y + 1);
    BackAtLeast(s + 1, h, H, y + 2);
    OneMore(s, H);
    OneMore(y + 1, h);
  }

  /** Row by row scaling is scaling at once for a target no higher than the image and for a multiple
      of its height. */
  lemma PicturesSame(c: Setup, src: seq<Line>)
    requires c.Fits(src) && (c.h <= c.H || c.h % c.H == 0)
    ensures c.Wanted(src) == c.AtOnce(src)
  {
    if c.h <= c.H {
      DownscalingIsOneShot(src, c.W, c.w, c.h, c.bpp, c.g1, c.g2);
    } else {
      MultipleIsOneShot(c, src);
    }
  }

  /** For no other heights (gamma maps being off): then some image comes out differently. */
  lemma PicturesExactly(c: Setup)
    requires c.Positive() && c.bpp > 0 && c.g1 == Plain && c.g2 == Plain
    ensures (forall src :: c.Fits(src) ==> c.Wanted(src) == c.AtOnce(src)) <==> c.h <= c.H || c.h % c.H == 0
  {
    if c.h <= c.H || c.h % c.H == 0 {
      forall src | c.Fits(src) ensures c.Wanted(src) == c.AtOnce(src) {
        PicturesSame(c, src);
      }
    } else {
      UpscalingRounds(c.H, c.h);
      var s :| 0 <= s < c.h && From(s, c.H, c.h) != Lo(s, c.H, c.h);
      PictureDiffers(c, s);
    }
  }

  lemma MultipleIsOneShot(c: Setup, src: seq<Line>)
    requires c.Fits(src) && c.h > c.H && c.h % c.H == 0
    ensures c.Wanted(src) == c.AtOnce(src)
  {
    UpscalingRounds(c.H, c.h);
    forall s | 0 <= s < c.h ensures c.Wanted(src)[s] == c.AtOnce(src)[s] {
      UpHi(s, c.H, c.h);
      hide From, Lo, Hi, ScaledLine;
    }
  }

  lemma PictureDiffers(c: Setup, s: nat)
    requires c.Positive() && c.bpp > 0 && c.g1 == Plain && c.g2 == Plain && c.h > c.H && s < c.h
    requires From(s, c.H, c.h) != Lo(s, c.H, c.h)
    ensures exists src :: c.Fits(src) && c.Wanted(src) != c.AtOnce(src)
  {
    var y, k := Lo(s, c.H, c.h), From(s, c.H, c.h);
    var src := OneRow(c, k);
    UpHi(s, c.H, c.h);
    SourceBand(s, c.H, c.h);
    OneRowLine(c, k, k);
    OneRowLine(c, k, y);
    hide From, Lo, Hi, ScaledLine, OneRow;
    assert c.Wanted(src)[s] != c.AtOnce(src)[s];
  }

  // All buffers during the second scan.
  ghost predicate EachRescanning(cs: seq<Setup>, before: seq<Line>, rows: seq<Line>, k: nat,
                                 scaled: seq<seq<Line>>, filled: seq<seq<bool>>) {
    && |cs| == |scaled| == |filled|
    && forall i :: 0 <= i < |cs| ==> Rescanning(cs[i], before, rows, k, scaled[i], filled[i])
  }

  ghost predicate EachRescanned(cs: seq<Setup>, before: seq<Line>, rows: seq<Line>, scaled: seq<seq<Line>>) {
    && |cs| == |scaled|
    && forall i :: 0 <= i < |cs| ==>
         cs[i].Fits(before) && cs[i].Fits(rows) && scaled[i] == Rescanned(cs[i], before, rows)
  }

  ghost predicate AllFit(cs: seq<Setup>, image: seq<Line>) {
    forall i :: 0 <= i < |cs| ==> cs[i].Fits(image)
  }

  lemma EachStarts(cs: seq<Setup>, before: seq<Line>, rows: seq<Line>, scaled: seq<seq<Line>>, filled: seq<seq<bool>>)
    requires |cs| == |scaled| == |filled| && AllFit(cs, before) && AllFit(cs, rows)
    requires forall i :: 0 <= i < |cs| ==> |scaled[i]| == cs[i].h && filled[i] == seq(cs[i].h, _ => false)
    ensures EachRescanning(cs, before, rows, 0, scaled, filled)
  {
    forall i | 0 <= i < |cs| ensures Rescanning(cs[i], before, rows, 0, scaled[i], filled[i]) {
      RescanStarts(cs[i], before, rows, scaled[i]);
    }
  }

  lemma EachRescans(cs: seq<Setup>, before: seq<Line>, rows: seq<Line>, copied: seq<bool>, k: nat,
                    scaled: seq<seq<Line>>, filled: seq<seq<bool>>, scaled': seq<seq<Line>>, filled': seq<seq<bool>>)
    requires EachRescanning(cs, before, rows, k, scaled, filled) && k < |before| == |rows| == |copied|
    requires AllCopied(copied, 0, |copied|)
    requires EachTurn(cs, Mixed(before, rows, k + 1), copied, k, scaled, filled, scaled', filled')
    ensures EachRescanning(cs, before, rows, k + 1, scaled', filled')
  {
    forall i | 0 <= i < |cs| ensures Rescanning(cs[i], before, rows, k + 1, scaled'[i], filled'[i]) {
      TurnFits(cs[i], Mixed(before, rows, k + 1), copied, k, scaled[i], filled[i], scaled'[i], filled'[i]);
      hide Rescanning, Turn, AllCopied;
      RescanTurn(cs[i], before, rows, copied, k, scaled[i], filled[i], scaled'[i], filled'[i]);
    }
  }

  lemma EachEnds(cs: seq<Setup>, before: seq<Line>, rows: seq<Line>, scaled: seq<seq<Line>>, filled: seq<seq<bool>>)
    requires EachRescanning(cs, before, rows, |rows|, scaled, filled) && AllFit(cs, before) && AllFit(cs, rows)
    ensures EachRescanned(cs, before, rows, scaled)
  {
    forall i | 0 <= i < |cs| ensures scaled[i] == Rescanned(cs[i], before, rows) {
      assert cs[i].Fits(rows);
      hide Rescanning, Rescanned;
      RescanEnds(cs[i], before, rows, scaled[i], filled[i]);
    }
  }

  lemma NextMixed(before: seq<Line>, rows: seq<Line>, k: nat, copied: seq<bool>)
    requires k < |before| == |rows| == |copied| && AllCopied(copied, 0, |copied|)
    ensures Mixed(before, rows, k)[k := rows[k]] == Mixed(before, rows, k + 1) && copied[k := true] == copied
  {
    assert copied[k];
  }

  lemma MixedEnds(before: seq<Line>, rows: seq<Line>)
    requires |before| == |rows|
    ensures Mixed(before, rows, 0) == before && Mixed(before, rows, |rows|) == rows
  {
  }

  /** A second scan of a root that has all its rows: the new image replaces the old one row by row,
      and every scaled buffer ends at what Rescanned says; at the new picture if the image is less
      than twice as high as the buffer. */
  method SecondScan(root: FltkImgbuf, rows: seq<Line>)
    requires root.Family() && AllCopied(root.copiedRows, 0, root.height)
    requires |rows| == root.height && Sized(rows, root.width, root.bpp)
    modifies root`copiedRows, root.rawdata, root.scaledBuffers
    modifies set i | 0 <= i < |root.scaledBuffers| :: root.scaledBuffers[i].rawdata
    ensures root.Family() && root.scaledBuffers == old(root.scaledBuffers) && RowsOf(root.rawdata) == rows
    ensures EachRescanned(root.Settings(), old(RowsOf(root.rawdata)), rows, root.Contents())
    ensures forall i :: 0 <= i < |root.scaledBuffers| && root.height < 2 * root.scaledBuffers[i].height ==>
              root.Settings()[i].Fits(rows) && root.Contents()[i] == root.Settings()[i].Wanted(rows)
  {
    hide *;
    ghost var before, cs := RowsOf(root.rawdata), root.Settings();
    root.SettingsFit(rows);
    root.NewScan();
    root.SettingSizes();
    MixedEnds(before, rows);
    EachStarts(cs, before, rows, root.Contents(), root.Filled());
    var r := 0;
    while r < |rows|
      invariant r <= |rows| == |before| == root.height && root.Family() && root.scaledBuffers == old(root.scaledBuffers)
      invariant RowsOf(root.rawdata) == Mixed(before, rows, r) && root.Settings() == cs
      invariant |root.copiedRows| == root.height && AllCopied(root.copiedRows, 0, root.height)
      invariant EachRescanning(cs, before, rows, r, root.Contents(), root.Filled())
    {
      RowSizes(rows, root.width, root.bpp, r);
      NextMixed(before, rows, r, root.copiedRows);
      ghost var scaled, filled := root.Contents(), root.Filled();
      root.CopyRow(r, rows[r]);
      EachRescans(cs, before, rows, root.copiedRows, r, scaled, filled, root.Contents(), root.Filled());
      r := r + 1;
    }
    EachEnds(cs, before, rows, root.Contents(), root.Filled());
    EachShort(cs, before, rows, root.Contents());
    root.SettingSizes();
  }

  lemma EachShort(cs: seq<Setup>, before: seq<Line>, rows: seq<Line>, scaled: seq<seq<Line>>)
    requires EachRescanned(cs, before, rows, scaled)
    ensures forall i :: 0 <= i < |cs| <= |scaled| && cs[i].H < 2 * cs[i].h ==>
              cs[i].Fits(rows) && scaled[i] == cs[i].Wanted(rows)
  {
    forall i | 0 <= i < |cs| && cs[i].H < 2 * cs[i].h ensures scaled[i] == cs[i].Wanted(rows) {
      RescanShort(cs[i], before, rows);
    }
  }
}
