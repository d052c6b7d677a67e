/** The display surface the terminal draws on, and what damage tracking and a pending block
    move must say about it. */
module TermDisplay {
  import opened Common
  import opened TermTypes

  // ----- The three drawing calls -----

  /** MoveChars: a block copy of w x h cells from (sx, sy) to (dx, dy). */
  function MoveBlock(d: Grid, sx: int, sy: int, dx: int, dy: int, w: int, h: int): (d': Grid)
    requires IsGrid(d, MAX_WIDTH, MAX_HEIGHT)
    requires 0 <= sx && sx + w <= MAX_WIDTH && 0 <= sy && sy + h <= MAX_HEIGHT
    ensures IsGrid(d', MAX_WIDTH, MAX_HEIGHT)
  {
    seq(MAX_HEIGHT, y requires 0 <= y < MAX_HEIGHT =>
      seq(MAX_WIDTH, x requires 0 <= x < MAX_WIDTH =>
        if dx <= x < dx + w && dy <= y < dy + h then d[y - dy + sy][x - dx + sx] else d[y][x]))
  }

  /** DrawText and ClearChars: row y from column x on shows the given cells. */
  function PaintCells(d: Grid, x: nat, y: nat, cells: seq<Cell>): (d': Grid)
    requires IsGrid(d, MAX_WIDTH, MAX_HEIGHT) && y < MAX_HEIGHT && x + |cells| <= MAX_WIDTH
    ensures IsGrid(d', MAX_WIDTH, MAX_HEIGHT)
    ensures forall y' :: 0 <= y' < MAX_HEIGHT && y' != y ==> d'[y'] == d[y']
    ensures forall x' :: 0 <= x' < MAX_WIDTH ==>
              d'[y][x'] == if x <= x' < x + |cells| then cells[x' - x] else d[y][x']
  {
    d[y := d[y][..x] + cells + d[y][x + |cells|..]]
  }

  // ----- Damage -----

  // Per row, the columns from start to end are to be redrawn.
  ghost predicate Clean(start: seq<int>, end: seq<int>, y: int, x: int)
    requires 0 <= y < |start| == |end|
  {
    x < start[y] || end[y] < x
  }

  ghost predicate DamageOk(start: seq<int>, end: seq<int>) {
    && |start| == |end| == MAX_HEIGHT
    && (forall y :: 0 <= y < MAX_HEIGHT ==> 0 <= start[y] <= MAX_WIDTH)
    && (forall y :: 0 <= y < MAX_HEIGHT ==> 0 <= end[y] < MAX_WIDTH)
  }

  // Damage only ever grows between two refreshes.
  ghost predicate Grown(start: seq<int>, end: seq<int>, start': seq<int>, end': seq<int>) {
    && |start| == |end| == |start'| == |end'|
    && forall y :: 0 <= y < |start| ==> start'[y] <= start[y] && end[y] <= end'[y]
  }

  // ----- The lazy-rendering invariant -----

  // The scroll region and the block move still owed to the display.
  datatype Owed = Owed(top: int, bot: int, scroll: int)

  predicate InRegion(o: Owed, y: int) {
    o.top <= y <= o.bot && o.top < o.bot
  }

  /** The display row that will be row y once the owed move is made. A one-line region never
      moves. */
  function Source(o: Owed, y: int): int {
    if InRegion(o, y) then y + o.scroll else y
  }

  /** Every undamaged cell already shows, up to the owed move; a region row whose source lies
      outside the region has no undamaged cell. */
  ghost predicate InSync(g: Grid, d: Grid, start: seq<int>, end: seq<int>, w: int, h: int, o: Owed)
    requires IsGrid(g, w, h) && IsGrid(d, MAX_WIDTH, MAX_HEIGHT) && DamageOk(start, end)
    requires 0 <= w <= MAX_WIDTH && 0 <= h <= MAX_HEIGHT && 0 <= o.top && o.bot < h
  {
    forall y, x :: 0 <= y < h && 0 <= x < w && Clean(start, end, y, x) ==>
      && (InRegion(o, y) ==> InRegion(o, Source(o, y)))
      && Appearance(g[y][x]) == Appearance(d[Source(o, y)][x])
  }

  /** The display shows the screen: what a full redraw would give. */
  ghost predicate Shows(d: Grid, g: Grid, w: int, h: int)
    requires IsGrid(g, w, h) && IsGrid(d, MAX_WIDTH, MAX_HEIGHT) && 0 <= w <= MAX_WIDTH && 0 <= h <= MAX_HEIGHT
  {
    forall y, x :: 0 <= y < h && 0 <= x < w ==> Appearance(d[y][x]) == Appearance(g[y][x])
  }

  // An edit keeps the display in sync when it damages every visible cell it changes.
  lemma EditKeepsSync(g: Grid, g': Grid, d: Grid, start: seq<int>, end: seq<int>,
                      start': seq<int>, end': seq<int>, w: int, h: int, o: Owed)
    requires IsGrid(g, w, h) && IsGrid(g', w, h) && IsGrid(d, MAX_WIDTH, MAX_HEIGHT)
    requires DamageOk(start, end) && DamageOk(start', end')
    requires 0 <= w <= MAX_WIDTH && 0 <= h <= MAX_HEIGHT && 0 <= o.top && o.bot < h
    requires InSync(g, d, start, end, w, h, o)
    requires forall y, x :: 0 <= y < h && 0 <= x < w && Clean(start', end', y, x) ==>
               Clean(start, end, y, x) && g'[y][x] == g[y][x]
    ensures InSync(g', d, start', end', w, h, o)
  {
    forall y, x | 0 <= y < h && 0 <= x < w && Clean(start', end', y, x)
      ensures (InRegion(o, y) ==> InRegion(o, Source(o, y)))
           && Appearance(g'[y][x]) == Appearance(d[Source(o, y)][x])
    {
    }
  }

  /** The start (or end) columns of the damage after a scroll of rows top..bot by n. A deferred
      move takes the damage of row y + n along; otherwise, and for rows that come in blank, the
      whole row is damaged. */
  function NewDamage(d: seq<int>, top: int, bot: int, n: int, deferred: bool, whole: int): (t: seq<int>)
    requires |d| == MAX_HEIGHT && 0 <= top <= bot < MAX_HEIGHT
    ensures |t| == MAX_HEIGHT
  {
    seq(MAX_HEIGHT, y requires 0 <= y < MAX_HEIGHT =>
      if !(top <= y <= bot) then d[y]
      else if deferred && top <= y + n <= bot then d[y + n]
      else whole)
  }

  /** The heart of lazy scrolling: renumbering the rows of the region, moving their damage with
      them and adding n to the owed move keeps the display in sync. */
  lemma ScrollKeepsSync(g: Grid, d: Grid, start: seq<int>, end: seq<int>, w: int, h: int, o: Owed, n: int, c: Attr)
    requires IsGrid(g, w, h) && IsGrid(d, MAX_WIDTH, MAX_HEIGHT) && DamageOk(start, end)
    requires 0 < w <= MAX_WIDTH && 0 <= h <= MAX_HEIGHT && 0 <= o.top <= o.bot < h
    requires InSync(g, d, start, end, w, h, o)
    requires -(o.bot - o.top + 1) < n < o.bot - o.top + 1
    ensures var start' := NewDamage(start, o.top, o.bot, n, true, 0);
            var end' := NewDamage(end, o.top, o.bot, n, true, w - 1);
            && DamageOk(start', end')
            && InSync(ScrollRows(g, o.top, o.bot, n, w, c), d, start', end', w, h, o.(scroll := o.scroll + n))
  {
    var start', end' := NewDamage(start, o.top, o.bot, n, true, 0), NewDamage(end, o.top, o.bot, n, true, w - 1);
    var g' := ScrollRows(g, o.top, o.bot, n, w, c);
    var o' := o.(scroll := o.scroll + n);
    forall y, x | 0 <= y < h && 0 <= x < w && Clean(start', end', y, x)
      ensures (InRegion(o', y) ==> InRegion(o', Source(o', y)))
           && Appearance(g'[y][x]) == Appearance(d[Source(o', y)][x])
    {
      assert g'[y] == ScrolledRow(g, o.top, o.bot, n, w, c, y);
      if InRegion(o, y) {
        assert Clean(start, end, y + n, x);
        assert Source(o', y) == Source(o, y + n);
      } else {
        assert n == 0 || !(o.top <= y <= o.bot);
        assert Clean(start, end, y, x);
      }
    }
  }

  // A scroll that is not deferred damages every row it moves.
  lemma RedrawKeepsSync(g: Grid, d: Grid, start: seq<int>, end: seq<int>, w: int, h: int, o: Owed,
                        top: int, bot: int, n: int, c: Attr)
    requires IsGrid(g, w, h) && IsGrid(d, MAX_WIDTH, MAX_HEIGHT) && DamageOk(start, end)
    requires 0 < w <= MAX_WIDTH && 0 <= h <= MAX_HEIGHT && 0 <= o.top && o.bot < h && 0 <= top <= bot < h
    requires InSync(g, d, start, end, w, h, o)
    ensures var start', end' := NewDamage(start, top, bot, n, false, 0), NewDamage(end, top, bot, n, false, w - 1);
            && DamageOk(start', end')
            && InSync(ScrollRows(g, top, bot, n, w, c), d, start', end', w, h, o)
  {
    var start', end' := NewDamage(start, top, bot, n, false, 0), NewDamage(end, top, bot, n, false, w - 1);
    EditKeepsSync(g, ScrollRows(g, top, bot, n, w, c), d, start, end, start', end', w, h, o);
  }

  // When every visible cell is damaged, nothing is claimed about the display.
  lemma AllDamagedInSync(g: Grid, d: Grid, start: seq<int>, end: seq<int>, w: int, h: int, o: Owed)
    requires IsGrid(g, w, h) && IsGrid(d, MAX_WIDTH, MAX_HEIGHT) && DamageOk(start, end)
    requires 0 <= w <= MAX_WIDTH && 0 <= h <= MAX_HEIGHT && 0 <= o.top && o.bot < h
    requires forall y :: 0 <= y < h ==> start[y] <= 0 && w - 1 <= end[y]
    ensures InSync(g, d, start, end, w, h, o)
  {
  }

  // A scroll that moves nothing (it covers the whole region) leaves all rows alone; this
  // happens only in one-line or empty regions, whose owed move is never made.
  lemma IdleScrollKeepsSync(g: Grid, d: Grid, start: seq<int>, end: seq<int>, w: int, h: int, o: Owed, n: int)
    requires IsGrid(g, w, h) && IsGrid(d, MAX_WIDTH, MAX_HEIGHT) && DamageOk(start, end)
    requires 0 <= w <= MAX_WIDTH && 0 <= h <= MAX_HEIGHT && 0 <= o.top && o.bot < h
    requires InSync(g, d, start, end, w, h, o) && o.top >= o.bot
    ensures InSync(g, d, start, end, w, h, o.(scroll := n))
  {
    forall y, x | 0 <= y < h && 0 <= x < w && Clean(start, end, y, x)
      ensures Appearance(g[y][x]) == Appearance(d[y][x])
    {
      assert Source(o, y) == y;
    }
  }

  // No visible cell of the region is undamaged.
  ghost predicate RegionDamaged(start: seq<int>, end: seq<int>, w: int, h: int, o: Owed)
    requires |start| == |end| == MAX_HEIGHT && h <= MAX_HEIGHT
  {
    forall y, x :: 0 <= y < h && 0 <= x < w && InRegion(o, y) ==> !Clean(start, end, y, x)
  }

  /** A scroll by the size of the region, or more, moves no row but is added to what is owed. The
      display stays in sync if and only if the region was wholly damaged. */
  lemma FullScrollExactly(g: Grid, d: Grid, start: seq<int>, end: seq<int>, w: int, h: int, o: Owed, n: int)
    requires IsGrid(g, w, h) && IsGrid(d, MAX_WIDTH, MAX_HEIGHT) && DamageOk(start, end)
    requires 0 <= w <= MAX_WIDTH && 0 <= h <= MAX_HEIGHT && 0 <= o.top < o.bot < h
    requires InSync(g, d, start, end, w, h, o) && (n >= o.bot - o.top + 1 || -n >= o.bot - o.top + 1)
    ensures InSync(g, d, start, end, w, h, o.(scroll := o.scroll + n)) <==> RegionDamaged(start, end, w, h, o)
  {
    var o' := o.(scroll := o.scroll + n);
    forall y, x | 0 <= y < h && 0 <= x < w && Clean(start, end, y, x) && !InRegion(o, y)
      ensures Appearance(g[y][x]) == Appearance(d[Source(o', y)][x])
    {
      assert Source(o', y) == Source(o, y);
    }
  }

  // ----- The refresh -----

  /** The block move made at refresh time, if the owed scroll is smaller than the region. */
  function Settle(d: Grid, o: Owed, w: int): (d': Grid)
    requires IsGrid(d, MAX_WIDTH, MAX_HEIGHT) && 0 <= w <= MAX_WIDTH && 0 <= o.top && o.bot < MAX_HEIGHT
    ensures IsGrid(d', MAX_WIDTH, MAX_HEIGHT)
  {
    var mx := o.bot - o.top + 1;
    if o.scroll == 0 || o.scroll >= mx || -o.scroll >= mx then d
    else if o.scroll < 0 then MoveBlock(d, 0, o.top, 0, o.top - o.scroll, w, mx + o.scroll)
    else MoveBlock(d, 0, o.top + o.scroll, 0, o.top, w, mx - o.scroll)
  }

  /** After the block move nothing is owed any more. */
  lemma SettleKeepsSync(g: Grid, d: Grid, start: seq<int>, end: seq<int>, w: int, h: int, o: Owed)
    requires IsGrid(g, w, h) && IsGrid(d, MAX_WIDTH, MAX_HEIGHT) && DamageOk(start, end)
    requires 0 <= w <= MAX_WIDTH && 0 <= h <= MAX_HEIGHT && 0 <= o.top && o.bot < h
    requires InSync(g, d, start, end, w, h, o)
    ensures InSync(g, Settle(d, o, w), start, end, w, h, o.(scroll := 0))
  {
    var d', o' := Settle(d, o, w), o.(scroll := 0);
    forall y, x | 0 <= y < h && 0 <= x < w && Clean(start, end, y, x)
      ensures InRegion(o', y) ==> InRegion(o', Source(o', y))
      ensures Appearance(g[y][x]) == Appearance(d'[Source(o', y)][x])
    {
      assert Source(o', y) == y;
      assert d'[y][x] == d[Source(o, y)][x];
    }
  }

  /** The display row that stands at row y after the block move: rows that nothing is moved to stay
      as they are. */
  function Landing(o: Owed, y: int): int {
    if InRegion(o, y) && InRegion(o, y + o.scroll) then y + o.scroll else y
  }

  lemma SettleAt(d: Grid, o: Owed, w: int, y: int, x: int)
    requires IsGrid(d, MAX_WIDTH, MAX_HEIGHT) && 0 <= w <= MAX_WIDTH && 0 <= o.top && o.bot < MAX_HEIGHT
    requires 0 <= y < MAX_HEIGHT && 0 <= x < w
    ensures 0 <= Landing(o, y) < MAX_HEIGHT && Settle(d, o, w)[y][x] == d[Landing(o, y)][x]
  {
  }

  /** The next refresh will show the screen: it makes the block move and redraws the damaged cells,
      so the undamaged ones must be right after the move. */
  ghost predicate RefreshRight(g: Grid, d: Grid, start: seq<int>, end: seq<int>, w: int, h: int, o: Owed) {
    && IsGrid(g, w, h) && IsGrid(d, MAX_WIDTH, MAX_HEIGHT) && DamageOk(start, end)
    && 0 <= w <= MAX_WIDTH && 0 <= h <= MAX_HEIGHT && 0 <= o.top && o.bot < h
    && InSync(g, Settle(d, o, w), start, end, w, h, o.(scroll := 0))
  }

  // More damage never hurts.
  lemma GrownStaysRight(g: Grid, d: Grid, start: seq<int>, end: seq<int>, start': seq<int>, end': seq<int>,
                        w: int, h: int, o: Owed)
    requires RefreshRight(g, d, start, end, w, h, o) && DamageOk(start', end') && Grown(start, end, start', end')
    ensures RefreshRight(g, d, start', end', w, h, o)
  {
    hide Settle;
  }

  // With nothing owed, the margins do not matter.
  lemma MarginsFree(g: Grid, d: Grid, start: seq<int>, end: seq<int>, w: int, h: int, o: Owed, o': Owed)
    requires IsGrid(g, w, h) && IsGrid(d, MAX_WIDTH, MAX_HEIGHT) && DamageOk(start, end)
    requires 0 <= w <= MAX_WIDTH && 0 <= h <= MAX_HEIGHT
    requires 0 <= o.top && o.bot < h && 0 <= o'.top && o'.bot < h && o.scroll == 0 == o'.scroll
    requires InSync(g, d, start, end, w, h, o)
    ensures InSync(g, d, start, end, w, h, o')
  {
    forall y, x | 0 <= y < h && 0 <= x < w && Clean(start, end, y, x)
      ensures Appearance(g[y][x]) == Appearance(d[Source(o', y)][x])
    {
      assert Source(o, y) == y == Source(o', y);
    }
  }

  // ----- Lost parts of the display -----

  // Whether the cell lies in the rectangle of w x h cells at (x, y).
  predicate Within(x: int, y: int, w: int, h: int, x': int, y': int) {
    x <= x' < x + w && y <= y' < y + h
  }

  /** The display outside the rectangle is unchanged; inside it holds anything. */
  ghost predicate LostOnly(d: Grid, d': Grid, x: int, y: int, w: int, h: int)
    requires IsGrid(d, MAX_WIDTH, MAX_HEIGHT) && IsGrid(d', MAX_WIDTH, MAX_HEIGHT)
  {
    forall y', x' :: 0 <= y' < MAX_HEIGHT && 0 <= x' < MAX_WIDTH && !Within(x, y, w, h, x', y') ==>
      d'[y'][x'] == d[y'][x']
  }

  // The damage after the rows y to y + h - 1 have been marked from column x on, or up to it.
  function MarkedStart(d: seq<int>, x: int, y: int, h: int): (t: seq<int>)
    ensures |t| == |d|
  {
    seq(|d|, k requires 0 <= k < |d| => if y <= k < y + h then Min(d[k], x) else d[k])
  }

  function MarkedEnd(d: seq<int>, x: int, y: int, h: int): (t: seq<int>)
    ensures |t| == |d|
  {
    seq(|d|, k requires 0 <= k < |d| => if y <= k < y + h then Max(d[k], x) else d[k])
  }

  /** The exposed rows are marked on the screen, but what was lost are rows of the display: no
      undamaged cell outside the rectangle may still wait for a cell inside it to be moved. */
  ghost predicate ExposureSafe(start: seq<int>, end: seq<int>, w: int, h: int, o: Owed,
                               x: int, y: int, ew: int, eh: int)
    requires |start| == |end| == MAX_HEIGHT && h <= MAX_HEIGHT
  {
    forall y', x' :: 0 <= y' < h && 0 <= x' < w && Clean(start, end, y', x') && !Within(x, y, ew, eh, x', y') ==>
      !Within(x, y, ew, eh, x', Source(o, y'))
  }

  /** Exposure is repaired, whatever the lost cells hold now, if and only if it is safe in this
      sense. */
  lemma ExposureExactly(g: Grid, d: Grid, start: seq<int>, end: seq<int>, w: int, h: int, o: Owed,
                        x: int, y: int, ew: int, eh: int)
    requires IsGrid(g, w, h) && IsGrid(d, MAX_WIDTH, MAX_HEIGHT) && DamageOk(start, end)
    requires 0 <= w <= MAX_WIDTH && 0 <= h <= MAX_HEIGHT && 0 <= o.top && o.bot < h
    requires 0 <= x && 1 <= ew && x + ew <= MAX_WIDTH && 0 <= y && 0 <= eh && y + eh <= MAX_HEIGHT
    requires InSync(g, d, start, end, w, h, o)
    ensures var start', end' := MarkedStart(start, x, y, eh), MarkedEnd(end, x + ew - 1, y, eh);
            && DamageOk(start', end')
            && ((forall d' :: IsGrid(d', MAX_WIDTH, MAX_HEIGHT) && LostOnly(d, d', x, y, ew, eh) ==>
                   InSync(g, d', start', end', w, h, o))
                <==> ExposureSafe(start, end, w, h, o, x, y, ew, eh))
  {
    var start', end' := MarkedStart(start, x, y, eh), MarkedEnd(end, x + ew - 1, y, eh);
    if ExposureSafe(start, end, w, h, o, x, y, ew, eh) {
      forall d' | IsGrid(d', MAX_WIDTH, MAX_HEIGHT) && LostOnly(d, d', x, y, ew, eh)
        ensures InSync(g, d', start', end', w, h, o)
      {
        SafeExposure(g, d, d', start, end, w, h, o, x, y, ew, eh);
      }
    } else {
      var y', x' :| 0 <= y' < h && 0 <= x' < w && Clean(start, end, y', x') && !Within(x, y, ew, eh, x', y')
                    && Within(x, y, ew, eh, x', Source(o, y'));
      UnsafeExposure(g, d, start, end, w, h, o, x, y, ew, eh, x', y');
    }
  }

  lemma SafeExposure(g: Grid, d: Grid, d': Grid, start: seq<int>, end: seq<int>, w: int, h: int, o: Owed,
                     x: int, y: int, ew: int, eh: int)
    requires IsGrid(g, w, h) && IsGrid(d, MAX_WIDTH, MAX_HEIGHT) && IsGrid(d', MAX_WIDTH, MAX_HEIGHT)
    requires DamageOk(start, end) && 0 <= w <= MAX_WIDTH && 0 <= h <= MAX_HEIGHT && 0 <= o.top && o.bot < h
    requires 0 <= x && 1 <= ew && x + ew <= MAX_WIDTH && 0 <= y && 0 <= eh && y + eh <= MAX_HEIGHT
    requires InSync(g, d, start, end, w, h, o) && LostOnly(d, d', x, y, ew, eh)
    requires ExposureSafe(start, end, w, h, o, x, y, ew, eh)
    ensures var start', end' := MarkedStart(start, x, y, eh), MarkedEnd(end, x + ew - 1, y, eh);
            DamageOk(start', end') && InSync(g, d', start', end', w, h, o)
  {
    var start', end' := MarkedStart(start, x, y, eh), MarkedEnd(end, x + ew - 1, y, eh);
    forall k, j | 0 <= k < h && 0 <= j < w && Clean(start', end', k, j)
      ensures InRegion(o, k) ==> InRegion(o, Source(o, k))
      ensures Appearance(g[k][j]) == Appearance(d'[Source(o, k)][j])
    {
      assert Clean(start, end, k, j);
    }
  }

  // The cell that waits for a lost one: if the lost one now looks different, so will the cell.
  lemma UnsafeExposure(g: Grid, d: Grid, start: seq<int>, end: seq<int>, w: int, h: int, o: Owed,
                       x: int, y: int, ew: int, eh: int, x': int, y': int)
    requires IsGrid(g, w, h) && IsGrid(d, MAX_WIDTH, MAX_HEIGHT) && DamageOk(start, end)
    requires 0 <= w <= MAX_WIDTH && 0 <= h <= MAX_HEIGHT && 0 <= o.top && o.bot < h
    requires 0 <= x && 1 <= ew && x + ew <= MAX_WIDTH && 0 <= y && 0 <= eh && y + eh <= MAX_HEIGHT
    requires InSync(g, d, start, end, w, h, o)
    requires 0 <= y' < h && 0 <= x' < w && Clean(start, end, y', x')
    requires !Within(x, y, ew, eh, x', y') && Within(x, y, ew, eh, x', Source(o, y'))
    ensures var start', end' := MarkedStart(start, x, y, eh), MarkedEnd(end, x + ew - 1, y, eh);
            exists d' :: IsGrid(d', MAX_WIDTH, MAX_HEIGHT) && LostOnly(d, d', x, y, ew, eh)
                         && !InSync(g, d', start', end', w, h, o)
  {
    var start', end' := MarkedStart(start, x, y, eh), MarkedEnd(end, x + ew - 1, y, eh);
    var s := Source(o, y');
    var c := g[y'][x'];
    var other := c.(ch := if c.ch == 65 then 66 else 65);
    var d' := d[s := d[s][x' := other]];
    assert IsGrid(d', MAX_WIDTH, MAX_HEIGHT) && LostOnly(d, d', x, y, ew, eh);
    assert Clean(start', end', y', x');
    assert Appearance(d'[s][x']) != Appearance(c);
    assert !InSync(g, d', start', end', w, h, o);
  }

  /** Guards that are enough: nothing is owed, the region never moves, or the exposed rows miss
      it. */
  lemma ExposureGuards(g: Grid, d: Grid, start: seq<int>, end: seq<int>, w: int, h: int, o: Owed,
                       x: int, y: int, ew: int, eh: int)
    requires IsGrid(g, w, h) && IsGrid(d, MAX_WIDTH, MAX_HEIGHT) && DamageOk(start, end)
    requires 0 <= w <= MAX_WIDTH && 0 <= h <= MAX_HEIGHT && 0 <= o.top && o.bot < h
    requires InSync(g, d, start, end, w, h, o)
    requires o.scroll == 0 || o.top >= o.bot || y > o.bot || y + eh <= o.top
    ensures ExposureSafe(start, end, w, h, o, x, y, ew, eh)
  {
  }

  /** The input on which exposure fails: a terminal whose two rows have scrolled up by one, and the
      lower row of the display is lost before the scroll has been shown. */
  lemma ExposureFails(start: seq<int>, end: seq<int>, w: int)
    requires DamageOk(start, end) && 0 < w <= MAX_WIDTH && Clean(start, end, 0, 0)
    ensures !ExposureSafe(start, end, w, 2, Owed(0, 1, 1), 0, 1, w, 1)
  {
    assert Within(0, 1, w, 1, 0, Source(Owed(0, 1, 1), 0));
  }

  // ----- A change of the region while a move is owed -----

  // The row may be undamaged.
  predicate MayBeClean(o: Owed, y: int) {
    InRegion(o, y) ==> InRegion(o, Source(o, y))
  }

  /** The first n rows are to come from where they were to come from before. */
  predicate RowsKept(o: Owed, o': Owed, n: int) {
    forall y :: 0 <= y < n && MayBeClean(o, y) ==> Source(o', y) == Source(o, y) && MayBeClean(o', y)
  }

  lemma RowsKeptGuards(o: Owed, o': Owed, n: int)
    requires o'.scroll == o.scroll && (o.scroll == 0 || o' == o || (o.top >= o.bot && o'.top >= o'.bot))
    ensures RowsKept(o, o', n)
  {
  }

  /** The move over the new region brings the first n rows from where they were to come from. */
  predicate RowsShown(o: Owed, o': Owed, n: int) {
    forall y :: 0 <= y < n && MayBeClean(o, y) ==> Landing(o', y) == Source(o, y)
  }

  lemma KeptIsShown(o: Owed, o': Owed, n: int)
    requires RowsKept(o, o', n)
    ensures RowsShown(o, o', n)
  {
  }

  /** The first is the stronger: with margins on rows 1 to 9 of 10 and one line owed, a resize to the
      same height leaves every row where the next refresh shows it, but not in sync. */
  lemma ShownNotKept()
    ensures RowsShown(Owed(0, 8, 1), Owed(0, 9, 1), 10) && !RowsKept(Owed(0, 8, 1), Owed(0, 9, 1), 10)
  {
    assert MayBeClean(Owed(0, 8, 1), 9);
  }

  // The damage after a resize that keeps w0 columns and h0 rows.
  function CutStart(d: seq<int>, w0: int, h0: int): (t: seq<int>)
    ensures |t| == |d|
  {
    MarkedStart(MarkedStart(d, w0, 0, MAX_HEIGHT), 0, h0, MAX_HEIGHT - h0)
  }

  function CutEnd(d: seq<int>, w0: int, h0: int): (t: seq<int>)
    ensures |t| == |d|
  {
    MarkedEnd(MarkedEnd(d, MAX_WIDTH - 1, 0, MAX_HEIGHT), w0 - 1, h0, MAX_HEIGHT - h0)
  }

  ghost predicate SizesOk(w: int, h: int, w': int, h': int, o: Owed, o': Owed) {
    && 0 < w <= MAX_WIDTH && 0 < h <= MAX_HEIGHT && 0 < w' <= MAX_WIDTH && 0 < h' <= MAX_HEIGHT
    && 0 <= o.top && o.bot < h && 0 <= o'.top && o'.bot < h'
  }

  /** A terminal in sync, and its screen after a resize: what both sizes have in common is kept. */
  ghost predicate Resizes(g: Grid, g': Grid, d: Grid, start: seq<int>, end: seq<int>,
                          w: int, h: int, w': int, h': int, o: Owed) {
    && IsGrid(g, w, h) && IsGrid(g', w', h') && IsGrid(d, MAX_WIDTH, MAX_HEIGHT) && DamageOk(start, end)
    && 0 <= w <= MAX_WIDTH && 0 <= h <= MAX_HEIGHT && 0 <= o.top && o.bot < h
    && InSync(g, d, start, end, w, h, o)
    && forall y, x :: 0 <= y < Min(h, h') && 0 <= x < Min(w, w') ==> g'[y][x] == g[y][x]
  }

  lemma CutDamage(start: seq<int>, end: seq<int>, w0: int, h0: int)
    requires DamageOk(start, end) && 0 <= w0 <= MAX_WIDTH && 0 <= h0 <= MAX_HEIGHT
    ensures DamageOk(CutStart(start, w0, h0), CutEnd(end, w0, h0)) || w0 == 0
    ensures forall y, x :: 0 <= y < MAX_HEIGHT && 0 <= x < MAX_WIDTH && w0 > 0 ==>
              (Clean(CutStart(start, w0, h0), CutEnd(end, w0, h0), y, x)
               <==> y < h0 && x < w0 && x < start[y])
  {
  }

  // A display whose row s shows the letter A, all other rows B; a screen of letters A.
  function Letters(w: nat, h: nat, s: int): Grid {
    seq(h, y => seq(w, x => Cell(if s < 0 || y == s then 65 else 66, Attr(7, 0, {}))))
  }

  // One undamaged row y, whose source alone shows the letter A.
  lemma OneCleanRow(w: int, h: int, w': int, h': int, o: Owed, o': Owed, y: int)
    returns (g: Grid, g': Grid, d: Grid, start: seq<int>, end: seq<int>)
    requires SizesOk(w, h, w', h', o, o') && 0 <= y < Min(h, h') && MayBeClean(o, y)
    ensures Resizes(g, g', d, start, end, w, h, w', h', o)
    ensures var w0, h0 := Min(w, w'), Min(h, h');
            && DamageOk(CutStart(start, w0, h0), CutEnd(end, w0, h0))
            && forall x :: 0 <= x < w0 ==> Clean(CutStart(start, w0, h0), CutEnd(end, w0, h0), y, x)
    ensures g' == Letters(w', h', -1) && d == Letters(MAX_WIDTH, MAX_HEIGHT, Source(o, y))
  {
    g, g', d := Letters(w, h, -1), Letters(w', h', -1), Letters(MAX_WIDTH, MAX_HEIGHT, Source(o, y));
    start := seq(MAX_HEIGHT, k => if k == y then MAX_WIDTH else 0);
    end := seq(MAX_HEIGHT, k => if k == y then 0 else MAX_WIDTH - 1);
    CutDamage(start, end, Min(w, w'), Min(h, h'));
  }

  /** Whether the refresh right after a resize shows the screen, for every terminal in sync: exactly
      when the move over the new region brings each row from its source. */
  lemma ResizeShownExactly(w: int, h: int, w': int, h': int, o: Owed, o': Owed)
    requires SizesOk(w, h, w', h', o, o')
    ensures (forall g, g', d, start, end :: Resizes(g, g', d, start, end, w, h, w', h', o) ==>
               RefreshRight(g', d, CutStart(start, Min(w, w'), Min(h, h')), CutEnd(end, Min(w, w'), Min(h, h')),
                            w', h', o'))
            <==> RowsShown(o, o', Min(h, h'))
  {
    if RowsShown(o, o', Min(h, h')) {
      forall g, g', d, start, end | Resizes(g, g', d, start, end, w, h, w', h', o)
        ensures RefreshRight(g', d, CutStart(start, Min(w, w'), Min(h, h')), CutEnd(end, Min(w, w'), Min(h, h')),
                             w', h', o')
      {
        ResizeShown(g, g', d, start, end, w, h, w', h', o, o');
      }
    } else {
      var y :| 0 <= y < Min(h, h') && MayBeClean(o, y) && Landing(o', y) != Source(o, y);
      var g, g', d, start, end := OneCleanRow(w, h, w', h', o, o', y);
      RowWrong(g', d, CutStart(start, Min(w, w'), Min(h, h')), CutEnd(end, Min(w, w'), Min(h, h')), w', h', o', y,
               Source(o, y));
    }
  }

  lemma ResizeShown(g: Grid, g': Grid, d: Grid, start: seq<int>, end: seq<int>,
                    w: int, h: int, w': int, h': int, o: Owed, o': Owed)
    requires SizesOk(w, h, w', h', o, o') && Resizes(g, g', d, start, end, w, h, w', h', o)
    requires RowsShown(o, o', Min(h, h'))
    ensures RefreshRight(g', d, CutStart(start, Min(w, w'), Min(h, h')), CutEnd(end, Min(w, w'), Min(h, h')),
                         w', h', o')
  {
    var w0, h0 := Min(w, w'), Min(h, h');
    var start', end' := CutStart(start, w0, h0), CutEnd(end, w0, h0);
    CutDamage(start, end, w0, h0);
    hide Settle, CutStart, CutEnd;
    forall y, x | 0 <= y < h' && 0 <= x < w' && Clean(start', end', y, x)
      ensures Appearance(g'[y][x]) == Appearance(Settle(d, o', w')[y][x])
    {
      SettleAt(d, o', w', y, x);
      assert Clean(start, end, y, x) && MayBeClean(o, y);
    }
  }

  // An undamaged row that the move brings from a row without an A is wrong.
  lemma RowWrong(g: Grid, d: Grid, start: seq<int>, end: seq<int>, w: int, h: int, o: Owed, y: int, s: int)
    requires 0 < w <= MAX_WIDTH && 0 <= y < h <= MAX_HEIGHT && 0 <= o.top && o.bot < h
    requires g == Letters(w, h, -1) && d == Letters(MAX_WIDTH, MAX_HEIGHT, s) && s >= 0
    requires |start| == |end| == MAX_HEIGHT && Clean(start, end, y, 0) && Landing(o, y) != s
    ensures !RefreshRight(g, d, start, end, w, h, o)
  {
    CellWrong(g, d, start, end, w, h, o, y, s);
  }

  /** Whether the terminal is in sync after a resize, for every terminal in sync before: exactly when
      the rows are kept. */
  lemma ResizeSyncExactly(w: int, h: int, w': int, h': int, o: Owed, o': Owed)
    requires SizesOk(w, h, w', h', o, o')
    ensures (forall g, g', d, start, end :: Resizes(g, g', d, start, end, w, h, w', h', o) ==>
               SyncedAfter(g', d, CutStart(start, Min(w, w'), Min(h, h')), CutEnd(end, Min(w, w'), Min(h, h')),
                           w', h', o'))
            <==> RowsKept(o, o', Min(h, h'))
  {
    if RowsKept(o, o', Min(h, h')) {
      forall g, g', d, start, end | Resizes(g, g', d, start, end, w, h, w', h', o)
        ensures SyncedAfter(g', d, CutStart(start, Min(w, w'), Min(h, h')), CutEnd(end, Min(w, w'), Min(h, h')),
                            w', h', o')
      {
        ResizeSynced(g, g', d, start, end, w, h, w', h', o, o');
      }
    } else {
      var y :| 0 <= y < Min(h, h') && MayBeClean(o, y) && !(Source(o', y) == Source(o, y) && MayBeClean(o', y));
      var g, g', d, start, end := OneCleanRow(w, h, w', h', o, o', y);
      var start', end' := CutStart(start, Min(w, w'), Min(h, h')), CutEnd(end, Min(w, w'), Min(h, h'));
      hide CutStart, CutEnd;
      assert Clean(start', end', y, 0) && Appearance(g'[y][0]) == Glyph(65, Attr(7, 0, {}));
      assert !SyncedAfter(g', d, start', end', w', h', o');
    }
  }

  ghost predicate SyncedAfter(g: Grid, d: Grid, start: seq<int>, end: seq<int>, w: int, h: int, o: Owed) {
    && IsGrid(g, w, h) && IsGrid(d, MAX_WIDTH, MAX_HEIGHT) && DamageOk(start, end)
    && 0 <= w <= MAX_WIDTH && 0 <= h <= MAX_HEIGHT && 0 <= o.top && o.bot < h
    && InSync(g, d, start, end, w, h, o)
  }

  lemma ResizeSynced(g: Grid, g': Grid, d: Grid, start: seq<int>, end: seq<int>,
                     w: int, h: int, w': int, h': int, o: Owed, o': Owed)
    requires SizesOk(w, h, w', h', o, o') && Resizes(g, g', d, start, end, w, h, w', h', o)
    requires RowsKept(o, o', Min(h, h'))
    ensures SyncedAfter(g', d, CutStart(start, Min(w, w'), Min(h, h')), CutEnd(end, Min(w, w'), Min(h, h')), w', h', o')
  {
    var w0, h0 := Min(w, w'), Min(h, h');
    var start', end' := CutStart(start, w0, h0), CutEnd(end, w0, h0);
    CutDamage(start, end, w0, h0);
    hide CutStart, CutEnd;
    forall y, x | 0 <= y < h' && 0 <= x < w' && Clean(start', end', y, x)
      ensures (InRegion(o', y) ==> InRegion(o', Source(o', y)))
           && Appearance(g'[y][x]) == Appearance(d[Source(o', y)][x])
    {
      assert Clean(start, end, y, x) && MayBeClean(o, y);
    }
  }

  // ----- A resize, and more scrolling before the refresh -----

  // The refresh is right after one more deferred scroll by n.
  ghost predicate LaterRight(g: Grid, d: Grid, start: seq<int>, end: seq<int>, w: int, h: int, o: Owed, n: int)
    requires 0 <= o.top <= o.bot < MAX_HEIGHT && |start| == |end| == MAX_HEIGHT && w >= 0
  {
    RefreshRight(ScrollRows(g, o.top, o.bot, n, w, Attr(7, 0, {})), d,
                 NewDamage(start, o.top, o.bot, n, true, 0), NewDamage(end, o.top, o.bot, n, true, w - 1),
                 w, h, o.(scroll := o.scroll + n))
  }

  predicate Moves(o: Owed, n: int) {
    -(o.bot - o.top + 1) < n < o.bot - o.top + 1
  }

  /** Being in sync is what a resize must keep for the refreshes to come: the rows are kept if and
      only if, for every terminal in sync and every deferred scroll after the resize (or none), the
      refresh shows the screen. */
  lemma LaterShownExactly(w: int, h: int, w': int, h': int, o: Owed, o': Owed)
    requires SizesOk(w, h, w', h', o, o') && o'.top <= o'.bot
    ensures (forall g, g', d, start, end, n ::
               Resizes(g, g', d, start, end, w, h, w', h', o) && Moves(o', n) && |start| == |end| == MAX_HEIGHT ==>
                 LaterRight(g', d, CutStart(start, Min(w, w'), Min(h, h')), CutEnd(end, Min(w, w'), Min(h, h')),
                            w', h', o', n))
            <==> RowsKept(o, o', Min(h, h'))
  {
    if RowsKept(o, o', Min(h, h')) {
      forall g, g', d, start, end, n |
        Resizes(g, g', d, start, end, w, h, w', h', o) && Moves(o', n) && |start| == |end| == MAX_HEIGHT
        ensures LaterRight(g', d, CutStart(start, Min(w, w'), Min(h, h')), CutEnd(end, Min(w, w'), Min(h, h')),
                           w', h', o', n)
      {
        ResizeSynced(g, g', d, start, end, w, h, w', h', o, o');
        LaterShown(g', d, CutStart(start, Min(w, w'), Min(h, h')), CutEnd(end, Min(w, w'), Min(h, h')), w', h', o', n);
      }
    } else {
      var y :| 0 <= y < Min(h, h') && MayBeClean(o, y) && !(Source(o', y) == Source(o, y) && MayBeClean(o', y));
      var g, g', d, start, end := OneCleanRow(w, h, w', h', o, o', y);
      var n := WrongScroll(o, o', y);
      var start', end' := CutStart(start, Min(w, w'), Min(h, h')), CutEnd(end, Min(w, w'), Min(h, h'));
      hide CutStart, CutEnd;
      LaterWrong(g', d, start', end', w', h', o', n, y, Source(o, y));
    }
  }

  lemma LaterShown(g: Grid, d: Grid, start: seq<int>, end: seq<int>, w: int, h: int, o: Owed, n: int)
    requires SyncedAfter(g, d, start, end, w, h, o) && Moves(o, n) && 0 < w && o.top <= o.bot
    ensures LaterRight(g, d, start, end, w, h, o, n)
  {
    hide InSync, Settle;
    ScrollKeepsSync(g, d, start, end, w, h, o, n, Attr(7, 0, {}));
    SettleKeepsSync(ScrollRows(g, o.top, o.bot, n, w, Attr(7, 0, {})), d,
                    NewDamage(start, o.top, o.bot, n, true, 0), NewDamage(end, o.top, o.bot, n, true, w - 1),
                    w, h, o.(scroll := o.scroll + n));
  }

  // The scroll that brings out a row that is not kept: none, or one line away from it.
  function WrongScroll(o: Owed, o': Owed, y: int): (n: int)
    requires MayBeClean(o, y) && !(Source(o', y) == Source(o, y) && MayBeClean(o', y)) && o'.top <= o'.bot
    ensures Moves(o', n) && (n != 0 ==> InRegion(o', y) && InRegion(o', y - n))
    ensures Landing(o'.(scroll := o'.scroll + n), y - n) != Source(o, y)
  {
    if Landing(o', y) != Source(o, y) then 0 else if y > o'.top then 1 else -1
  }

  lemma LaterWrong(g: Grid, d: Grid, start: seq<int>, end: seq<int>, w: int, h: int, o: Owed, n: int, y: int, s: int)
    requires 0 < w <= MAX_WIDTH && 0 <= y < h <= MAX_HEIGHT && 0 <= o.top <= o.bot < h
    requires g == Letters(w, h, -1) && d == Letters(MAX_WIDTH, MAX_HEIGHT, s) && s >= 0
    requires |start| == |end| == MAX_HEIGHT && Clean(start, end, y, 0) && Moves(o, n)
    requires n != 0 ==> InRegion(o, y) && InRegion(o, y - n)
    requires Landing(o.(scroll := o.scroll + n), y - n) != s
    ensures !LaterRight(g, d, start, end, w, h, o, n)
  {
    hide *;
    var o' := o.(scroll := o.scroll + n);
    var g' := ScrollRows(g, o.top, o.bot, n, w, Attr(7, 0, {}));
    var start', end' := NewDamage(start, o.top, o.bot, n, true, 0), NewDamage(end, o.top, o.bot, n, true, w - 1);
    RowMoved(g, start, end, w, h, o, n, y);
    CellWrong(g', d, start', end', w, h, o', y - n, s);
    LaterMeans(g, d, start, end, w, h, o, n);
  }

  // The undamaged row is now n rows further up, and still undamaged.
  lemma RowMoved(g: Grid, start: seq<int>, end: seq<int>, w: int, h: int, o: Owed, n: int, y: int)
    requires 0 < w <= MAX_WIDTH && 0 <= y < h <= MAX_HEIGHT && 0 <= o.top <= o.bot < h
    requires g == Letters(w, h, -1) && |start| == |end| == MAX_HEIGHT && Clean(start, end, y, 0) && Moves(o, n)
    requires n != 0 ==> InRegion(o, y) && InRegion(o, y - n)
    ensures 0 <= y - n < h
    ensures var g' := ScrollRows(g, o.top, o.bot, n, w, Attr(7, 0, {}));
            |g'| == h && |g'[y - n]| == w && g'[y - n][0] == Cell(65, Attr(7, 0, {}))
    ensures Clean(NewDamage(start, o.top, o.bot, n, true, 0), NewDamage(end, o.top, o.bot, n, true, w - 1), y - n, 0)
  {
  }

  lemma CellWrong(g: Grid, d: Grid, start: seq<int>, end: seq<int>, w: int, h: int, o: Owed, y: int, s: int)
    requires 0 < w <= MAX_WIDTH && 0 <= y < h <= MAX_HEIGHT && 0 <= o.top && o.bot < h && s >= 0
    requires |g| == h && |g[y]| == w && g[y][0] == Cell(65, Attr(7, 0, {})) && d == Letters(MAX_WIDTH, MAX_HEIGHT, s)
    requires |start| == |end| == MAX_HEIGHT && Clean(start, end, y, 0) && Landing(o, y) != s
    ensures !RefreshRight(g, d, start, end, w, h, o)
  {
    SettleAt(d, o, w, y, 0);
    hide Settle;
    assert Source(o.(scroll := 0), y) == y;
    assert d[Landing(o, y)][0].ch == 66;
  }

  lemma LaterMeans(g: Grid, d: Grid, start: seq<int>, end: seq<int>, w: int, h: int, o: Owed, n: int)
    requires 0 <= o.top <= o.bot < MAX_HEIGHT && |start| == |end| == MAX_HEIGHT && w >= 0
    ensures LaterRight(g, d, start, end, w, h, o, n) ==
      RefreshRight(ScrollRows(g, o.top, o.bot, n, w, Attr(7, 0, {})), d,
                   NewDamage(start, o.top, o.bot, n, true, 0), NewDamage(end, o.top, o.bot, n, true, w - 1),
                   w, h, o.(scroll := o.scroll + n))
  {
  }
}
