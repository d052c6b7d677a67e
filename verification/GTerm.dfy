/** The terminal emulator object: row renumbering, dirty intervals, a pending scroll and batched
    input. Every method is proved against the plain model of TermModel. */
module GTermClass {
  import opened Common
  import opened TermTypes
  import opened TermTables
  import opened TermModel
  import opened TermTheory
  import opened TermChunks
  import opened TermDisplay

  ghost predicate Permutation(s: seq<int>) {
    && |s| == MAX_HEIGHT
    && (forall y :: 0 <= y < MAX_HEIGHT ==> 0 <= s[y] < MAX_HEIGHT)
    && (forall y, y' :: 0 <= y < y' < MAX_HEIGHT ==> s[y] != s[y'])
  }

  // What DrawCursor last showed.
  datatype Overlay = Hidden | At(x: int, y: int, cell: Cell)

  class GTerm {
    // terminal info
    var width: nat
    var height: nat
    var scrollTop: int
    var scrollBot: int
    const text: array2<Byte>
    const color: array2<Attr>
    var linenumbers: seq<int>      // screen row y is stored in row linenumbers[y]
    var dirtyStartX: seq<int>
    var dirtyEndX: seq<int>
    var pendingScroll: int         // > 0 means scroll up

    // terminal state
    var cursorX: int
    var cursorY: int
    var saveX: int
    var saveY: int
    var saveAttrib: set<Flag>
    var fgColor: int
    var bgColor: int
    var modeFlags: set<Flag>
    var tabStops: seq<bool>
    var currentState: State

    // action parameters
    var nparam: int
    var param: seq<int>
    var inputData: seq<Byte>       // the bytes from input_data on; data_len is its length
    var qMode: bool
    var gotParam: bool
    var quoteMode: bool

    // the environment: the drawing surface, its cursor overlay, and the replies
    var display: Grid
    var overlay: Overlay
    var out: seq<Event>

    // the visible screen
    ghost var screen: Grid

    // ----- Abstraction and invariant -----

    ghost function View(): Vt
      reads `width, `height, `scrollTop, `scrollBot, `screen, `cursorX, `cursorY, `saveX, `saveY, `saveAttrib,
            `fgColor, `bgColor, `modeFlags, `tabStops, `currentState, `nparam, `param, `qMode, `gotParam,
            `quoteMode, `out
    {
      Vt(width, height, scrollTop, scrollBot, screen, cursorX, cursorY, saveX, saveY, saveAttrib,
         fgColor, bgColor, modeFlags, tabStops, currentState, nparam, param, qMode, gotParam,
         quoteMode, out)
    }

    // The two heap buffers; the other arrays are members of the object itself.
    ghost predicate Shape()
    {
      text.Length0 == color.Length0 == MAX_HEIGHT && text.Length1 == color.Length1 == MAX_WIDTH
    }

    ghost function Stored(y: int, x: int): Cell
      requires Shape() && 0 <= y < MAX_HEIGHT && 0 <= x < MAX_WIDTH
      requires Permutation(linenumbers)
      reads `linenumbers, text, color
    {
      Cell(text[linenumbers[y], x], color[linenumbers[y], x])
    }

    /** The storage reads back as the screen. */
    ghost predicate Mirrors()
      requires Shape() && Permutation(linenumbers) && IsGrid(screen, width, height)
      requires width <= MAX_WIDTH && height <= MAX_HEIGHT
      reads `screen, `width, `height, `linenumbers, text, color
    {
      forall y, x :: 0 <= y < height && 0 <= x < width ==> screen[y][x] == Stored(y, x)
    }

    ghost predicate Core()
      reads `screen, `width, `height, `scrollTop, `scrollBot, `display, `linenumbers, `dirtyStartX,
            `dirtyEndX, text, color
    {
      && Shape()
      && 2 <= width < MAX_WIDTH && 2 <= height <= MAX_HEIGHT
      && 0 <= scrollTop && scrollBot < height
      && Permutation(linenumbers)
      && DamageOk(dirtyStartX, dirtyEndX)
      && IsGrid(screen, width, height) && IsGrid(display, MAX_WIDTH, MAX_HEIGHT)
      && Mirrors()
    }

    ghost function Debt(): Owed
      reads `scrollTop, `scrollBot, `pendingScroll
    {
      Owed(scrollTop, scrollBot, pendingScroll)
    }

    ghost predicate Synced()
      requires Core()
      reads `screen, `width, `height, `scrollTop, `scrollBot, `display, `pendingScroll, `modeFlags,
            `linenumbers, `dirtyStartX, `dirtyEndX, text, color
    {
      && InSync(screen, display, dirtyStartX, dirtyEndX, width, height, Debt())
      && (TextOnly in modeFlags ==> pendingScroll == 0)
    }

    /** What every action needs; Valid() adds the clause about the automaton state, which is
        changed before the action runs. */
    ghost predicate Ready()
      reads `width, `height, `scrollTop, `scrollBot, `screen, `cursorX, `cursorY, `saveX, `saveY, `saveAttrib,
            `fgColor, `bgColor, `modeFlags, `tabStops, `currentState, `nparam, `param, `qMode, `gotParam,
            `quoteMode, `out,
            `pendingScroll, `display, `linenumbers, `dirtyStartX, `dirtyEndX, text, color
    {
      Core() && Synced() && Bounds(View())
    }

    ghost predicate Valid()
      reads `width, `height, `scrollTop, `scrollBot, `screen, `cursorX, `cursorY, `saveX, `saveY, `saveAttrib,
            `fgColor, `bgColor, `modeFlags, `tabStops, `currentState, `nparam, `param, `qMode, `gotParam,
            `quoteMode, `out,
            `pendingScroll, `display, `linenumbers, `dirtyStartX, `dirtyEndX, text, color
    {
      Core() && Synced() && WF(View())
    }

    lemma Sizes()
      requires Core()
      ensures 2 <= width < MAX_WIDTH && 2 <= height <= MAX_HEIGHT
    {
    }

    lemma ValidMeans()
      requires Valid()
      ensures Ready() && Core() && Synced() && WF(View()) && Bounds(View())
    {
    }

    lemma ValidAgain()
      requires Core() && Synced() && WF(View())
      ensures Valid()
    {
    }

    lemma ReadyAgain()
      requires Core() && Synced() && Bounds(View())
      ensures Ready()
    {
    }

    lemma ReadyMeans()
      requires Ready()
      ensures Core() && Synced() && Bounds(View()) && 2 <= |param|
      ensures View().h == height && View().w == width && View().cx == cursorX && View().cy == cursorY
      ensures 2 <= height && 0 <= cursorX && 0 <= cursorY
      ensures P(View(), 0) == param[0] && P(View(), 1) == param[1]
    {
    }

    // ----- Drawing calls -----

    method MoveChars(sx: int, sy: int, dx: int, dy: int, w: int, h: int)
      requires IsGrid(display, MAX_WIDTH, MAX_HEIGHT)
      requires 0 <= sx && sx + w <= MAX_WIDTH && 0 <= sy && sy + h <= MAX_HEIGHT
      modifies `display
      ensures display == MoveBlock(old(display), sx, sy, dx, dy, w, h)
    {
      display := MoveBlock(display, sx, sy, dx, dy, w, h);
    }

    method DrawText(fg: int, bg: int, flags: set<Flag>, x: nat, y: nat, s: seq<Byte>)
      requires IsGrid(display, MAX_WIDTH, MAX_HEIGHT) && y < MAX_HEIGHT && x + |s| <= MAX_WIDTH
      modifies `display
      ensures display == PaintCells(old(display), x, y, Cells(s, Attr(fg, bg, flags)))
    {
      display := PaintCells(display, x, y, Cells(s, Attr(fg, bg, flags)));
    }

    method ClearChars(bg: int, x: nat, y: nat, w: nat)
      requires IsGrid(display, MAX_WIDTH, MAX_HEIGHT) && y < MAX_HEIGHT && x + w <= MAX_WIDTH
      modifies `display
      ensures display == PaintCells(old(display), x, y, BlankRow(w, Attr(bg, bg, {})))
    {
      display := PaintCells(display, x, y, BlankRow(w, Attr(bg, bg, {})));
    }

    // ----- Utilities -----

    method ChangedLine(y: int, startX: int, endX: int)
      requires Shape() && DamageOk(dirtyStartX, dirtyEndX)
      requires 0 <= y < MAX_HEIGHT && 0 <= startX <= MAX_WIDTH && 0 <= endX < MAX_WIDTH
      modifies `dirtyStartX, `dirtyEndX
      ensures DamageOk(dirtyStartX, dirtyEndX)
      ensures Grown(old(dirtyStartX), old(dirtyEndX), dirtyStartX, dirtyEndX)
      ensures dirtyStartX == old(dirtyStartX)[y := Min(old(dirtyStartX)[y], startX)]
      ensures dirtyEndX == old(dirtyEndX)[y := Max(old(dirtyEndX)[y], endX)]
    {
      if dirtyStartX[y] > startX { dirtyStartX := dirtyStartX[y := startX]; }
      if dirtyEndX[y] < endX { dirtyEndX := dirtyEndX[y := endX]; }
    }

    // memset and the colour loop: columns startX to endX of storage row `line` become blank.
    method FillBlank(line: int, startX: int, endX: int, c: Attr)
      requires Shape() && 0 <= line < MAX_HEIGHT && 0 <= startX && endX < MAX_WIDTH
      modifies text, color
      ensures forall l, x :: 0 <= l < MAX_HEIGHT && 0 <= x < MAX_WIDTH ==>
                text[l, x] == if l == line && startX <= x <= endX then SPACE else old(text[l, x])
      ensures forall l, x :: 0 <= l < MAX_HEIGHT && 0 <= x < MAX_WIDTH ==>
                color[l, x] == if l == line && startX <= x <= endX then c else old(color[l, x])
    {
      forall x | startX <= x <= endX {
        text[line, x] := SPACE;
      }
      var x := startX;
      while x <= endX
        invariant startX <= x
        invariant forall l, x' :: 0 <= l < MAX_HEIGHT && 0 <= x' < MAX_WIDTH ==>
                    text[l, x'] == if l == line && startX <= x' <= endX then SPACE else old(text[l, x'])
        invariant forall l, x' :: 0 <= l < MAX_HEIGHT && 0 <= x' < MAX_WIDTH ==>
                    color[l, x'] == if l == line && startX <= x' < x && x' <= endX then c else old(color[l, x'])
      {
        color[line, x] := c;
        x := x + 1;
      }
    }

    /** Storage after a clear_area: columns [x1, x2] of the rows [y1, y2) are blank. */
    twostate predicate Cleared(x1: int, y1: int, x2: int, y2: int, c: Attr)
      requires Shape() && Permutation(linenumbers)
      reads `linenumbers, text, color
    {
      forall y, x :: 0 <= y < MAX_HEIGHT && 0 <= x < MAX_WIDTH ==>
        var l := linenumbers[y];
        && text[l, x] == (if y1 <= y < y2 && x1 <= x <= x2 then SPACE else old(text[l, x]))
        && color[l, x] == (if y1 <= y < y2 && x1 <= x <= x2 then c else old(color[l, x]))
    }

    // clear_area on the storage: shared by the callers that are about to change the geometry.
    method ClearStorage(startX: int, startY: int, endX: int, endY: int)
      requires Shape() && Permutation(linenumbers) && DamageOk(dirtyStartX, dirtyEndX)
      requires 0 <= startX && 0 <= startY && endX < MAX_WIDTH && endY < MAX_HEIGHT
      modifies `dirtyStartX, `dirtyEndX, text, color
      ensures Cleared(startX, startY, endX, endY + 1, CalcColor(fgColor, bgColor, modeFlags))
      ensures DamageOk(dirtyStartX, dirtyEndX)
      ensures Grown(old(dirtyStartX), old(dirtyEndX), dirtyStartX, dirtyEndX)
      ensures startX <= endX ==> forall y :: startY <= y <= endY ==> dirtyStartX[y] <= startX && endX <= dirtyEndX[y]
      ensures startX <= endX ==> dirtyStartX == MarkedStart(old(dirtyStartX), startX, startY, endY - startY + 1)
      ensures startX <= endX ==> dirtyEndX == MarkedEnd(old(dirtyEndX), endX, startY, endY - startY + 1)
    {
      var c := CalcColor(fgColor, bgColor, modeFlags);
      if endX - startX + 1 < 1 { return; }
      var y := startY;
      while y <= endY
        invariant startY <= y && DamageOk(dirtyStartX, dirtyEndX)
        invariant y <= endY + 1 || y == startY
        invariant Cleared(startX, startY, endX, y, c)
        invariant Grown(old(dirtyStartX), old(dirtyEndX), dirtyStartX, dirtyEndX)
        invariant dirtyStartX == MarkedStart(old(dirtyStartX), startX, startY, y - startY)
        invariant dirtyEndX == MarkedEnd(old(dirtyEndX), endX, startY, y - startY)
      {
        FillBlank(linenumbers[y], startX, endX, c);
        ChangedLine(y, startX, endX);
        y := y + 1;
      }
    }

    method ClearArea(startX: int, startY: int, endX: int, endY: int)
      requires Core() && Synced()
      requires 0 <= startX && 0 <= startY && endX < MAX_WIDTH && endY < MAX_HEIGHT
      modifies `screen, `dirtyStartX, `dirtyEndX, text, color
      ensures Core() && Synced()
      ensures View() == Clear(old(View()), startX, startY, endX, endY)
    {
      ghost var g, s, e := screen, dirtyStartX, dirtyEndX;
      ClearStorage(startX, startY, endX, endY);
      screen := ClearRect(screen, startX, startY, endX, endY, CalcColor(fgColor, bgColor, modeFlags));
      EditKeepsSync(g, screen, display, s, e, dirtyStartX, dirtyEndX, width, height, Debt());
    }

    // The next refresh will show the screen.
    ghost predicate DueRight()
      requires Core()
      reads `screen, `width, `height, `scrollTop, `scrollBot, `display, `pendingScroll, `modeFlags,
            `linenumbers, `dirtyStartX, `dirtyEndX, text, color
    {
      && RefreshRight(screen, display, dirtyStartX, dirtyEndX, width, height, Debt())
      && (TextOnly in modeFlags ==> pendingScroll == 0)
    }

    // More damage never hurts.
    lemma GrownStays(start: seq<int>, end: seq<int>)
      requires Core() && DamageOk(start, end) && Grown(start, end, dirtyStartX, dirtyEndX)
      ensures InSync(screen, display, start, end, width, height, Debt()) ==>
                InSync(screen, display, dirtyStartX, dirtyEndX, width, height, Debt())
      ensures RefreshRight(screen, display, start, end, width, height, Debt()) ==>
                RefreshRight(screen, display, dirtyStartX, dirtyEndX, width, height, Debt())
    {
      if InSync(screen, display, start, end, width, height, Debt()) {
        EditKeepsSync(screen, screen, display, start, end, dirtyStartX, dirtyEndX, width, height, Debt());
      }
      hide InSync, RefreshRight;
      if RefreshRight(screen, display, start, end, width, height, Debt()) {
        GrownStaysRight(screen, display, start, end, dirtyStartX, dirtyEndX, width, height, Debt());
      }
    }

    method Damage(y: int, startX: int, endX: int)
      requires Core() && 0 <= y < MAX_HEIGHT && 0 <= startX <= MAX_WIDTH && 0 <= endX < MAX_WIDTH
      modifies `dirtyStartX, `dirtyEndX
      ensures Core() && View() == old(View())
      ensures Grown(old(dirtyStartX), old(dirtyEndX), dirtyStartX, dirtyEndX)
    {
      ChangedLine(y, startX, endX);
    }

    // move_cursor, for a display in any state.
    method PlaceCursor(x: int, y: int)
      requires Core() && 0 <= cursorX && 0 <= cursorY
      modifies `cursorX, `cursorY, `dirtyStartX, `dirtyEndX
      ensures Core() && View() == MoveTo(old(View()), x, y)
      ensures Grown(old(dirtyStartX), old(dirtyEndX), dirtyStartX, dirtyEndX)
    {
      hide Core, Grown;
      Sizes();
      if cursorX >= width { cursorX := width - 1; }
      if cursorY >= height { cursorY := height - 1; }
      Damage(cursorY, cursorX, cursorX);
      cursorX := x;
      cursorY := y;
    }

    method MoveCursor(x: int, y: int)
      requires Core() && Synced() && 0 <= cursorX && 0 <= cursorY
      modifies `cursorX, `cursorY, `dirtyStartX, `dirtyEndX
      ensures Core() && Synced()
      ensures View() == MoveTo(old(View()), x, y)
    {
      hide InSync, RefreshRight;
      ghost var start, end := dirtyStartX, dirtyEndX;
      PlaceCursor(x, y);
      GrownStays(start, end);
    }

    method SetModeFlag(flags: set<Flag>)
      requires TextOnly !in flags
      modifies `modeFlags, `out
      ensures old(Core()) && old(Synced()) ==> Core() && Synced()
      ensures View() == RaiseFlags(old(View()), flags)
    {
      modeFlags := modeFlags + flags;
      out := out + [ModeChanged(modeFlags)];
    }

    method ClearModeFlag(flags: set<Flag>)
      modifies `modeFlags, `out
      ensures old(Core()) && old(Synced()) ==> Core() && Synced()
      ensures View() == LowerFlags(old(View()), flags)
    {
      modeFlags := modeFlags - flags;
      out := out + [ModeChanged(modeFlags)];
    }

    // Where row y of the region finds its new storage row: y + num, wrapped around the region.
    static function Wrapped(startY: int, endY: int, num: int, y: int): int {
      var takeY := y + num;
      if takeY < startY then endY + 1 - (startY - takeY)
      else if takeY > endY then startY - 1 + (takeY - endY)
      else takeY
    }

    static predicate ComesInBlank(startY: int, endY: int, num: int, y: int) {
      y + num < startY || y + num > endY
    }

    // Within the region the rows are permuted.
    static lemma WrappedPermutes(startY: int, endY: int, num: int)
      requires 0 <= startY <= endY < MAX_HEIGHT && -(endY - startY + 1) < num < endY - startY + 1
      ensures forall y :: startY <= y <= endY ==> startY <= Wrapped(startY, endY, num, y) <= endY
      ensures forall y, y' :: startY <= y < y' <= endY ==>
              Wrapped(startY, endY, num, y) != Wrapped(startY, endY, num, y')
    {
    }

    // The new line numbers.
    static ghost function Renumbered(lines: seq<int>, startY: int, endY: int, num: int): (t: seq<int>)
      requires Permutation(lines) && 0 <= startY <= endY < MAX_HEIGHT
      requires -(endY - startY + 1) < num < endY - startY + 1
      ensures Permutation(t)
    {
      WrappedPermutes(startY, endY, num);
      hide Wrapped;
      seq(MAX_HEIGHT, y requires 0 <= y < MAX_HEIGHT =>
        if startY <= y <= endY then lines[Wrapped(startY, endY, num, y)] else lines[y])
    }

    // The storage as a value.
    ghost function Storage(): (r: seq<seq<Cell>>)
      requires Shape()
      reads text, color
      ensures |r| == MAX_HEIGHT && forall l :: 0 <= l < MAX_HEIGHT ==> |r[l]| == MAX_WIDTH
      ensures forall l, x :: 0 <= l < MAX_HEIGHT && 0 <= x < MAX_WIDTH ==> r[l][x] == Cell(text[l, x], color[l, x])
    {
      seq(MAX_HEIGHT, l requires 0 <= l < MAX_HEIGHT reads text, color =>
        seq(MAX_WIDTH, x requires 0 <= x < MAX_WIDTH reads text, color => Cell(text[l, x], color[l, x])))
    }

    // Storage while renumbering to `lines`: the blank rows among [startY, y) are blanked, rows
    // that keep their text still have it.
    static ghost predicate RowsMoved(was: seq<seq<Cell>>, now: seq<seq<Cell>>, lines: seq<int>, startY: int, endY: int,
                                     num: int, y: int, w: int, c: Attr)
      requires Permutation(lines) && IsGrid(was, MAX_WIDTH, MAX_HEIGHT) && IsGrid(now, MAX_WIDTH, MAX_HEIGHT)
      requires 0 <= startY && endY < MAX_HEIGHT && y <= endY + 1 && w < MAX_WIDTH
    {
      && (forall k, x :: 0 <= k < MAX_HEIGHT && 0 <= x < w
                          && !(startY <= k <= endY && ComesInBlank(startY, endY, num, k)) ==>
            now[lines[k]][x] == was[lines[k]][x])
      && (forall k, x :: startY <= k < y && 0 <= x < w && ComesInBlank(startY, endY, num, k) ==>
            now[lines[k]][x] == Cell(SPACE, c))
    }

    static lemma RowsMovedNext(was: seq<seq<Cell>>, now: seq<seq<Cell>>, now': seq<seq<Cell>>, lines: seq<int>,
                               startY: int, endY: int, num: int, y: int, w: int, c: Attr)
      requires Permutation(lines) && IsGrid(was, MAX_WIDTH, MAX_HEIGHT)
      requires IsGrid(now, MAX_WIDTH, MAX_HEIGHT) && IsGrid(now', MAX_WIDTH, MAX_HEIGHT)
      requires 0 <= startY <= y <= endY < MAX_HEIGHT && w < MAX_WIDTH
      requires RowsMoved(was, now, lines, startY, endY, num, y, w, c)
      requires forall l, x :: 0 <= l < MAX_HEIGHT && 0 <= x < MAX_WIDTH ==>
                 now'[l][x] == if ComesInBlank(startY, endY, num, y) && l == lines[y] && x < w then Cell(SPACE, c)
                               else now[l][x]
      ensures RowsMoved(was, now', lines, startY, endY, num, y + 1, w, c)
    {
    }

    static lemma RowTarget(lines: seq<int>, startY: int, endY: int, num: int, y: int)
      requires Permutation(lines) && 0 <= startY <= y <= endY < MAX_HEIGHT
      requires -(endY - startY + 1) < num < endY - startY + 1
      ensures startY <= Wrapped(startY, endY, num, y) <= endY
      ensures var t := Renumbered(lines, startY, endY, num);
              && t[y] == lines[Wrapped(startY, endY, num, y)]
              && (forall k :: 0 <= k < MAX_HEIGHT ==> 0 <= t[k] < MAX_HEIGHT)
              && forall k :: 0 <= k < MAX_HEIGHT && k != y ==> t[k] != t[y]
    {
    }

    static lemma DamageTarget(d: seq<int>, startY: int, endY: int, num: int, move: bool, whole: int, y: int)
      requires |d| == MAX_HEIGHT && 0 <= startY <= y <= endY < MAX_HEIGHT
      ensures var clr := ComesInBlank(startY, endY, num, y);
              NewDamage(d, startY, endY, num, move, whole)[y]
                == if move && !clr then d[Wrapped(startY, endY, num, y)] else whole
    {
    }

    // The loop has reached y: the elements from startY on are already the new ones.
    static ghost predicate Between(s: seq<int>, after: seq<int>, before: seq<int>, startY: int, y: int) {
      && |s| == |after| == |before|
      && forall k :: 0 <= k < |s| ==> s[k] == if startY <= k < y then after[k] else before[k]
    }

    static lemma BetweenStep(s: seq<int>, after: seq<int>, before: seq<int>, startY: int, y: int)
      requires 0 <= startY <= y < |s| && Between(s, after, before, startY, y)
      ensures Between(s[y := after[y]], after, before, startY, y + 1)
    {
    }

    // One round of the loop: row y gets a new storage row and its damage, and is blanked if clr.
    method TakeRow(y: int, line: int, clr: bool, sx: int, ex: int, c: Attr)
      requires Shape() && 0 <= line < MAX_HEIGHT && width < MAX_WIDTH
      requires 0 <= y < |linenumbers| == |dirtyStartX| == |dirtyEndX|
      modifies `linenumbers, `dirtyStartX, `dirtyEndX, text, color
      ensures linenumbers == old(linenumbers)[y := line]
      ensures dirtyStartX == old(dirtyStartX)[y := sx]
      ensures dirtyEndX == old(dirtyEndX)[y := ex]
      ensures forall l, x :: 0 <= l < MAX_HEIGHT && 0 <= x < MAX_WIDTH ==>
                Storage()[l][x] == if clr && l == line && x < width then Cell(SPACE, c) else old(Storage())[l][x]
    {
      linenumbers := linenumbers[y := line];
      dirtyStartX := dirtyStartX[y := sx];
      dirtyEndX := dirtyEndX[y := ex];
      if clr {
        FillBlank(line, 0, width - 1, c);
      }
    }

    // The renumbering loop of scroll_region.
    method Renumber(startY: int, endY: int, num: int, fastScroll: bool, c: Attr)
      requires Shape() && Permutation(linenumbers) && DamageOk(dirtyStartX, dirtyEndX)
      requires 0 <= startY <= endY < MAX_HEIGHT && 0 < width < MAX_WIDTH
      requires -(endY - startY + 1) < num < endY - startY + 1
      modifies `linenumbers, `dirtyStartX, `dirtyEndX, text, color
      ensures linenumbers == Renumbered(old(linenumbers), startY, endY, num)
      ensures RowsMoved(old(Storage()), Storage(), linenumbers, startY, endY, num, endY + 1, width, c)
      ensures dirtyStartX == NewDamage(old(dirtyStartX), startY, endY, num, fastScroll, 0)
      ensures dirtyEndX == NewDamage(old(dirtyEndX), startY, endY, num, fastScroll, width - 1)
    {
      var temp := linenumbers;
      var tempSx, tempEx := dirtyStartX, dirtyEndX;
      ghost var lines := Renumbered(temp, startY, endY, num);
      ghost var newSx := NewDamage(tempSx, startY, endY, num, fastScroll, 0);
      ghost var newEx := NewDamage(tempEx, startY, endY, num, fastScroll, width - 1);
      assert |linenumbers| == |dirtyStartX| == |dirtyEndX| == MAX_HEIGHT;
      assert Between(temp, lines, temp, startY, startY);
      assert Between(tempSx, newSx, tempSx, startY, startY) && Between(tempEx, newEx, tempEx, startY, startY);
      ghost var was := Storage();
      assert RowsMoved(was, Storage(), lines, startY, endY, num, startY, width, c);
      hide Permutation, DamageOk, Renumbered, NewDamage, Between, RowsMoved, Wrapped, ComesInBlank, IsGrid;
      var y := startY;
      while y <= endY
        invariant startY <= y <= endY + 1
        invariant |linenumbers| == |dirtyStartX| == |dirtyEndX| == MAX_HEIGHT
        invariant Between(linenumbers, lines, temp, startY, y)
        invariant Between(dirtyStartX, newSx, tempSx, startY, y)
        invariant Between(dirtyEndX, newEx, tempEx, startY, y)
        invariant RowsMoved(was, Storage(), lines, startY, endY, num, y, width, c)
      {
        RowTarget(temp, startY, endY, num, y);
        DamageTarget(tempSx, startY, endY, num, fastScroll, 0, y);
        DamageTarget(tempEx, startY, endY, num, fastScroll, width - 1, y);
        ghost var before, beforeSx, beforeEx, now := linenumbers, dirtyStartX, dirtyEndX, Storage();
        var takeY := Wrapped(startY, endY, num, y);
        var clr := ComesInBlank(startY, endY, num, y);
        TakeRow(y, temp[takeY], clr, if fastScroll && !clr then tempSx[takeY] else 0,
                if fastScroll && !clr then tempEx[takeY] else width - 1, c);
        RowsMovedNext(was, now, Storage(), lines, startY, endY, num, y, width, c);
        BetweenStep(before, lines, temp, startY, y);
        BetweenStep(beforeSx, newSx, tempSx, startY, y);
        BetweenStep(beforeEx, newEx, tempEx, startY, y);
        y := y + 1;
      }
      AllRenumbered(linenumbers, temp, startY, endY, num);
      AllDamaged(dirtyStartX, tempSx, startY, endY, num, fastScroll, 0);
      AllDamaged(dirtyEndX, tempEx, startY, endY, num, fastScroll, width - 1);
    }

    static lemma AllRenumbered(s: seq<int>, lines: seq<int>, startY: int, endY: int, num: int)
      requires Permutation(lines) && 0 <= startY <= endY < MAX_HEIGHT
      requires -(endY - startY + 1) < num < endY - startY + 1
      requires Between(s, Renumbered(lines, startY, endY, num), lines, startY, endY + 1)
      ensures s == Renumbered(lines, startY, endY, num)
    {
    }

    static lemma AllDamaged(s: seq<int>, d: seq<int>, startY: int, endY: int, num: int, move: bool, whole: int)
      requires |d| == MAX_HEIGHT && 0 <= startY <= endY < MAX_HEIGHT
      requires Between(s, NewDamage(d, startY, endY, num, move, whole), d, startY, endY + 1)
      ensures s == NewDamage(d, startY, endY, num, move, whole)
    {
    }

    // Renumbering moves the rows of the screen.
    method MoveRows(startY: int, endY: int, num: int, fastScroll: bool)
      requires Core() && 0 <= startY <= endY < height
      requires -(endY - startY + 1) < num < endY - startY + 1
      modifies `screen, `linenumbers, `dirtyStartX, `dirtyEndX, text, color
      ensures Core()
      ensures View() == Scroll(old(View()), startY, endY, num)
      ensures dirtyStartX == NewDamage(old(dirtyStartX), startY, endY, num, fastScroll, 0)
      ensures dirtyEndX == NewDamage(old(dirtyEndX), startY, endY, num, fastScroll, width - 1)
    {
      hide *;
      CoreMeans();
      var c := CalcColor(fgColor, bgColor, modeFlags);
      ghost var was, lines, g := Storage(), linenumbers, screen;
      DamageMoved(dirtyStartX, dirtyEndX, startY, endY, num, fastScroll, width);
      Renumber(startY, endY, num, fastScroll, c);
      RowsScrolled(g, was, Storage(), lines, startY, endY, num, width, height, c);
      ScrollScreen(startY, endY, num);
      CoreAgain();
    }

    ghost method ScrollScreen(startY: int, endY: int, num: int)
      modifies `screen
      ensures screen == ScrollRows(old(screen), startY, endY, num, width, CalcColor(fgColor, bgColor, modeFlags))
      ensures View() == Scroll(old(View()), startY, endY, num)
    {
      screen := ScrollRows(screen, startY, endY, num, width, CalcColor(fgColor, bgColor, modeFlags));
    }

    lemma CoreMeans()
      requires Core()
      ensures Shape() && 2 <= width < MAX_WIDTH && 2 <= height <= MAX_HEIGHT && 0 <= scrollTop && scrollBot < height
      ensures Permutation(linenumbers) && DamageOk(dirtyStartX, dirtyEndX)
      ensures IsGrid(screen, width, height) && IsGrid(display, MAX_WIDTH, MAX_HEIGHT)
      ensures IsGrid(Storage(), MAX_WIDTH, MAX_HEIGHT) && GridStored(screen, Storage(), linenumbers, width, height)
    {
    }

    lemma CoreAgain()
      requires Shape() && 2 <= width < MAX_WIDTH && 2 <= height <= MAX_HEIGHT && 0 <= scrollTop && scrollBot < height
      requires Permutation(linenumbers) && DamageOk(dirtyStartX, dirtyEndX)
      requires IsGrid(screen, width, height) && IsGrid(display, MAX_WIDTH, MAX_HEIGHT)
      requires IsGrid(Storage(), MAX_WIDTH, MAX_HEIGHT) && GridStored(screen, Storage(), linenumbers, width, height)
      ensures Core()
    {
    }

    static lemma DamageMoved(s: seq<int>, e: seq<int>, startY: int, endY: int, num: int, move: bool, w: int)
      requires DamageOk(s, e) && 0 <= startY <= endY < MAX_HEIGHT && 0 < w <= MAX_WIDTH
      ensures DamageOk(NewDamage(s, startY, endY, num, move, 0), NewDamage(e, startY, endY, num, move, w - 1))
    {
    }

    // The grid is what the storage holds under the given line numbers.
    static ghost predicate GridStored(g: Grid, store: seq<seq<Cell>>, lines: seq<int>, w: int, h: int)
      requires Permutation(lines) && IsGrid(store, MAX_WIDTH, MAX_HEIGHT)
      requires IsGrid(g, w, h) && w <= MAX_WIDTH && h <= MAX_HEIGHT
    {
      forall y, x :: 0 <= y < h && 0 <= x < w ==> g[y][x] == store[lines[y]][x]
    }

    static lemma RowsScrolled(g: Grid, was: seq<seq<Cell>>, now: seq<seq<Cell>>, lines: seq<int>,
                              startY: int, endY: int, num: int, w: nat, h: nat, c: Attr)
      requires Permutation(lines) && IsGrid(was, MAX_WIDTH, MAX_HEIGHT) && IsGrid(now, MAX_WIDTH, MAX_HEIGHT)
      requires IsGrid(g, w, h) && w < MAX_WIDTH && h <= MAX_HEIGHT && 0 <= startY <= endY < h
      requires -(endY - startY + 1) < num < endY - startY + 1 && GridStored(g, was, lines, w, h)
      requires RowsMoved(was, now, Renumbered(lines, startY, endY, num), startY, endY, num, endY + 1, w, c)
      ensures IsGrid(ScrollRows(g, startY, endY, num, w, c), w, h)
      ensures GridStored(ScrollRows(g, startY, endY, num, w, c), now, Renumbered(lines, startY, endY, num), w, h)
    {
      var g', t := ScrollRows(g, startY, endY, num, w, c), Renumbered(lines, startY, endY, num);
      forall y, x | 0 <= y < h && 0 <= x < w ensures g'[y][x] == now[t[y]][x] {
        assert g'[y] == ScrolledRow(g, startY, endY, num, w, c, y);
      }
    }

    // The display is left alone: the block move is owed to it.
    method DeferScroll(num: int)
      requires Core() && Synced() && scrollTop <= scrollBot && TextOnly !in modeFlags
      requires -(scrollBot - scrollTop + 1) < num < scrollBot - scrollTop + 1
      modifies `screen, `pendingScroll, `linenumbers, `dirtyStartX, `dirtyEndX, text, color
      ensures Core() && Synced()
      ensures View() == Scroll(old(View()), scrollTop, scrollBot, num)
    {
      ScrollKeepsSync(screen, display, dirtyStartX, dirtyEndX, width, height, Debt(), num,
                      CalcColor(fgColor, bgColor, modeFlags));
      hide InSync, NewDamage, ScrollRows, Mirrors, Permutation;
      pendingScroll := pendingScroll + num;
      MoveRows(scrollTop, scrollBot, num, true);
    }

    // Every row that moves is to be redrawn.
    method RedrawScroll(startY: int, endY: int, num: int)
      requires Core() && Synced() && 0 <= startY <= endY < height
      requires -(endY - startY + 1) < num < endY - startY + 1
      modifies `screen, `linenumbers, `dirtyStartX, `dirtyEndX, text, color
      ensures Core() && Synced()
      ensures View() == Scroll(old(View()), startY, endY, num)
    {
      RedrawKeepsSync(screen, display, dirtyStartX, dirtyEndX, width, height, Debt(), startY, endY, num,
                      CalcColor(fgColor, bgColor, modeFlags));
      hide InSync, NewDamage, ScrollRows, Mirrors, Permutation;
      MoveRows(startY, endY, num, false);
    }

    /** Scrolls rows startY..endY up by num by renumbering them; rows that come in are blanked. */
    method ScrollRegion(startY: int, endY: int, num: int)
      requires Core() && Synced() && 0 <= startY && endY < height
      requires startY < endY && (num >= endY - startY + 1 || -num >= endY - startY + 1)
               && startY == scrollTop && endY == scrollBot && TextOnly !in modeFlags ==>
                 RegionDamaged(dirtyStartX, dirtyEndX, width, height, Debt())
      modifies `screen, `pendingScroll, `linenumbers, `dirtyStartX, `dirtyEndX, text, color
      ensures Core() && Synced()
      ensures View() == Scroll(old(View()), startY, endY, num)
    {
      if num == 0 {
        assert ScrollRows(screen, startY, endY, 0, width, Pen(View())) == screen;
        return;
      }
      var mx := endY - startY + 1;
      var n := num;
      if n > mx { n := mx; }
      if -n > mx { n := -mx; }
      var fastScroll := startY == scrollTop && endY == scrollBot && TextOnly !in modeFlags;
      if n >= mx || -n >= mx {
        if fastScroll {
          if scrollTop < scrollBot {
            FullScrollExactly(screen, display, dirtyStartX, dirtyEndX, width, height, Debt(), n);
          } else {
            IdleScrollKeepsSync(screen, display, dirtyStartX, dirtyEndX, width, height, Debt(), pendingScroll + n);
          }
          pendingScroll := pendingScroll + n;
        }
      } else if fastScroll {
        DeferScroll(n);
      } else {
        RedrawScroll(startY, endY, n);
      }
    }

    // memmove of n cells within storage row `line`, in both buffers.
    method MoveCells(line: int, src: int, dst: int, n: int)
      requires Shape() && 0 <= line < MAX_HEIGHT && 0 <= n
      requires 0 <= src && src + n <= MAX_WIDTH && 0 <= dst && dst + n <= MAX_WIDTH
      modifies text, color
      ensures forall l, x :: 0 <= l < MAX_HEIGHT && 0 <= x < MAX_WIDTH ==>
                text[l, x] == if l == line && dst <= x < dst + n then old(text[l, x - dst + src]) else old(text[l, x])
      ensures forall l, x :: 0 <= l < MAX_HEIGHT && 0 <= x < MAX_WIDTH ==>
                color[l, x] == if l == line && dst <= x < dst + n
                               then old(color[l, x - dst + src]) else old(color[l, x])
    {
      forall x | dst <= x < dst + n {
        text[line, x] := text[line, x - dst + src];
      }
      forall x | dst <= x < dst + n {
        color[line, x] := color[line, x - dst + src];
      }
    }

    // Only the cursor row changed, and the changed part is damaged.
    twostate lemma CursorRowEdited()
      requires old(Core()) && old(Synced()) && Shape() && 0 <= cursorY < height
      requires linenumbers == old(linenumbers) && width == old(width) && height == old(height)
      requires scrollTop == old(scrollTop) && scrollBot == old(scrollBot) && pendingScroll == old(pendingScroll)
      requires display == old(display) && modeFlags == old(modeFlags)
      requires DamageOk(dirtyStartX, dirtyEndX) && Grown(old(dirtyStartX), old(dirtyEndX), dirtyStartX, dirtyEndX)
      requires |screen| == height && |screen[cursorY]| == width && screen == old(screen)[cursorY := screen[cursorY]]
      requires forall l, x :: 0 <= l < MAX_HEIGHT && 0 <= x < width && l != linenumbers[cursorY] ==>
                 text[l, x] == old(text[l, x]) && color[l, x] == old(color[l, x])
      requires forall x :: 0 <= x < width ==>
                 screen[cursorY][x] == Cell(text[linenumbers[cursorY], x], color[linenumbers[cursorY], x])
      requires forall x :: 0 <= x < width && Clean(dirtyStartX, dirtyEndX, cursorY, x) ==>
                 screen[cursorY][x] == old(screen)[cursorY][x]
      ensures Core() && Synced()
    {
      assert IsGrid(screen, width, height);
      assert Mirrors();
      EditKeepsSync(old(screen), screen, display, old(dirtyStartX), old(dirtyEndX), dirtyStartX, dirtyEndX,
                    width, height, Debt());
    }

    // Where column x of a row shifted by num from startX on comes from; a blank comes in elsewhere.
    static predicate Kept(startX: int, endX: int, num: int, x: int) {
      x < startX || x > endX || startX <= x - num <= endX
    }

    // A shift by at most the width of the shifted part: memmove, then blanks.
    method ShiftLeft(line: int, startX: int, endX: int, n: int, c: Attr)
      requires Shape() && 0 <= line < MAX_HEIGHT && 0 <= startX <= endX < MAX_WIDTH && 0 < n <= endX - startX + 1
      modifies text, color
      ensures forall l, x :: 0 <= l < MAX_HEIGHT && 0 <= x < MAX_WIDTH && l != line ==>
                text[l, x] == old(text[l, x]) && color[l, x] == old(color[l, x])
      ensures forall x :: 0 <= x < MAX_WIDTH ==>
                text[line, x] == if !Kept(startX, endX, -n, x) then SPACE
                                 else if startX <= x <= endX then old(text[line, x + n]) else old(text[line, x])
      ensures forall x :: 0 <= x < MAX_WIDTH ==>
                color[line, x] == if !Kept(startX, endX, -n, x) then c
                                  else if startX <= x <= endX then old(color[line, x + n]) else old(color[line, x])
    {
      var mx := endX - startX + 1;
      if n < mx {
        MoveCells(line, startX + n, startX, mx - n);
      }
      FillBlank(line, endX - n + 1, endX, c);
    }

    method ShiftRight(line: int, startX: int, endX: int, n: int, c: Attr)
      requires Shape() && 0 <= line < MAX_HEIGHT && 0 <= startX <= endX < MAX_WIDTH && 0 < n <= endX - startX + 1
      modifies text, color
      ensures forall l, x :: 0 <= l < MAX_HEIGHT && 0 <= x < MAX_WIDTH && l != line ==>
                text[l, x] == old(text[l, x]) && color[l, x] == old(color[l, x])
      ensures forall x :: 0 <= x < MAX_WIDTH ==>
                text[line, x] == if !Kept(startX, endX, n, x) then SPACE
                                 else if startX <= x <= endX then old(text[line, x - n]) else old(text[line, x])
      ensures forall x :: 0 <= x < MAX_WIDTH ==>
                color[line, x] == if !Kept(startX, endX, n, x) then c
                                  else if startX <= x <= endX then old(color[line, x - n]) else old(color[line, x])
    {
      var mx := endX - startX + 1;
      if n < mx {
        MoveCells(line, startX, startX + n, mx - n);
      }
      FillBlank(line, startX, startX + n - 1, c);
    }

    // The storage part of shift_text.
    method ShiftCells(line: int, startX: int, endX: int, num: int, c: Attr)
      requires Shape() && 0 <= line < MAX_HEIGHT && 0 <= startX <= endX < MAX_WIDTH && num != 0
      modifies text, color
      ensures forall l, x :: 0 <= l < MAX_HEIGHT && 0 <= x < MAX_WIDTH && l != line ==>
                text[l, x] == old(text[l, x]) && color[l, x] == old(color[l, x])
      ensures forall x :: 0 <= x < MAX_WIDTH ==>
                text[line, x] == if !Kept(startX, endX, num, x) then SPACE
                                 else if startX <= x <= endX then old(text[line, x - num]) else old(text[line, x])
      ensures forall x :: 0 <= x < MAX_WIDTH ==>
                color[line, x] == if !Kept(startX, endX, num, x) then c
                                  else if startX <= x <= endX then old(color[line, x - num]) else old(color[line, x])
    {
      var mx := endX - startX + 1;
      var n := num;
      if n > mx { n := mx; }
      if -n > mx { n := -mx; }
      assert forall x :: Kept(startX, endX, n, x) <==> Kept(startX, endX, num, x);
      assert n != num ==> forall x :: startX <= x <= endX ==> !Kept(startX, endX, num, x);
      hide Kept;
      if n < 0 {
        ShiftLeft(line, startX, endX, -n, c);
      } else {
        ShiftRight(line, startX, endX, n, c);
      }
    }

    // The row after a shift by num, left if negative.
    static function ShiftedRow(r: Row, startX: int, num: int, c: Attr): Row {
      if num < 0 then DeleteCells(r, startX, -num, c) else InsertCells(r, startX, num, c)
    }

    static lemma ShiftedRowAt(r: Row, startX: int, num: int, c: Attr, x: int)
      requires 0 <= startX < |r| && 0 <= x < |r|
      ensures |ShiftedRow(r, startX, num, c)| == |r|
      ensures ShiftedRow(r, startX, num, c)[x]
           == if !Kept(startX, |r| - 1, num, x) then Cell(SPACE, c) else if startX <= x then r[x - num] else r[x]
    {
    }

    method ShiftCursorRow(startX: int, num: int, c: Attr)
      requires Core() && Synced() && 0 <= cursorY < height && 0 <= startX < width && num != 0
      modifies `screen, `dirtyStartX, `dirtyEndX, text, color
      ensures Core() && Synced()
      ensures screen == old(screen)[cursorY := ShiftedRow(old(screen)[cursorY], startX, num, c)]
    {
      ghost var r := screen[cursorY];
      ghost var r' := ShiftedRow(r, startX, num, c);
      var line := linenumbers[cursorY];
      assert Mirrors() && |r'| == width;
      assert forall x :: 0 <= x < width ==> r[x] == Cell(text[line, x], color[line, x]);
      hide ShiftedRow, Permutation, InSync;
      ShiftCells(line, startX, width - 1, num, c);
      forall x | 0 <= x < width
        ensures r'[x] == Cell(text[line, x], color[line, x]) && (x < startX ==> r'[x] == r[x])
      {
        ShiftedRowAt(r, startX, num, c, x);
      }
      ChangedLine(cursorY, startX, width - 1);
      screen := screen[cursorY := r'];
      CursorRowEdited();
    }

    /** Shifts columns startX..width - 1 of the cursor row by num. */
    method ShiftText(startX: int, num: int)
      requires Core() && Synced() && 0 <= cursorY < height && 0 <= startX < width
      modifies `screen, `dirtyStartX, `dirtyEndX, text, color
      ensures Core() && Synced()
      ensures View() == SetCursorRow(old(View()), ShiftedRow(old(CursorRow(View())), startX, num, old(Pen(View()))))
    {
      if num == 0 {
        assert ShiftedRow(screen[cursorY], startX, 0, Pen(View())) == screen[cursorY];
        return;
      }
      ShiftCursorRow(startX, num, CalcColor(fgColor, bgColor, modeFlags));
    }

    // ----- Printing -----

    // Every storage row but `line` is as it was.
    twostate predicate OnlyRow(line: int)
      requires Shape()
      reads text, color
    {
      forall l, k :: 0 <= l < MAX_HEIGHT && 0 <= k < MAX_WIDTH && l != line ==>
        text[l, k] == old(text[l, k]) && color[l, k] == old(color[l, k])
    }

    // Storage row `line` while columns above i move right by n.
    twostate predicate GapOpened(line: int, i: int, n: int)
      requires Shape() && 0 <= line < MAX_HEIGHT && 0 <= n && n - 1 <= i && width < MAX_WIDTH
      reads `width, text, color
    {
      && OnlyRow(line)
      && (forall k :: i < k < width ==>
            text[line, k] == old(text[line, k - n]) && color[line, k] == old(color[line, k - n]))
      && (forall k :: 0 <= k < MAX_WIDTH && !(i < k < width) ==>
            text[line, k] == old(text[line, k]) && color[line, k] == old(color[line, k]))
    }

    method CopyCell(line: int, src: int, dst: int)
      requires Shape() && 0 <= line < MAX_HEIGHT && 0 <= src < MAX_WIDTH && 0 <= dst < MAX_WIDTH
      modifies text, color
      ensures OnlyRow(line)
      ensures forall k :: 0 <= k < MAX_WIDTH && k != dst ==>
                text[line, k] == old(text[line, k]) && color[line, k] == old(color[line, k])
      ensures text[line, dst] == old(text[line, src]) && color[line, dst] == old(color[line, src])
    {
      text[line, dst] := text[line, src];
      color[line, dst] := color[line, src];
    }

    // The insert loop: columns from x on move right by n, from the right edge down.
    method OpenGap(line: int, x: int, n: int)
      requires Shape() && 0 <= line < MAX_HEIGHT && 0 <= x && 0 <= n && x + n <= width < MAX_WIDTH
      modifies text, color
      ensures GapOpened(line, x + n - 1, n)
    {
      var i := width - 1;
      while i >= x + n
        invariant x + n - 1 <= i < width && GapOpened(line, i, n)
      {
        CopyCell(line, i - n, i);
        i := i - 1;
      }
    }

    // The character loop: the first n input bytes at the cursor.
    method WriteRun(line: int, n: int, c: Attr)
      requires Shape() && 0 <= line < MAX_HEIGHT && 0 <= cursorX && 0 <= n <= |inputData| && cursorX + n <= MAX_WIDTH
      modifies `cursorX, text, color
      ensures cursorX == old(cursorX) + n && OnlyRow(line)
      ensures forall k :: 0 <= k < MAX_WIDTH ==>
                && text[line, k] == (if old(cursorX) <= k < cursorX
                                     then inputData[k - old(cursorX)] else old(text[line, k]))
                && color[line, k] == (if old(cursorX) <= k < cursorX then c else old(color[line, k]))
    {
      var i := 0;
      while i < n
        invariant 0 <= i <= n && cursorX == old(cursorX) + i && OnlyRow(line)
        invariant forall k :: 0 <= k < MAX_WIDTH ==>
                    && text[line, k] == (if old(cursorX) <= k < cursorX
                                         then inputData[k - old(cursorX)] else old(text[line, k]))
                    && color[line, k] == (if old(cursorX) <= k < cursorX then c else old(color[line, k]))
      {
        text[line, cursorX] := inputData[i];
        color[line, cursorX] := c;
        cursorX := cursorX + 1;
        i := i + 1;
      }
    }

    // The storage part of normal_input.
    method WriteCells(line: int, n: int, c: Attr)
      requires Shape() && 0 <= line < MAX_HEIGHT && 0 <= cursorX && 0 <= n <= |inputData|
      requires cursorX + n <= width < MAX_WIDTH
      modifies `cursorX, text, color
      ensures cursorX == old(cursorX) + n
      ensures forall l, k :: 0 <= l < MAX_HEIGHT && 0 <= k < MAX_WIDTH && l != line ==>
                text[l, k] == old(text[l, k]) && color[l, k] == old(color[l, k])
      ensures forall k :: 0 <= k < width ==>
                text[line, k] == if old(cursorX) <= k < cursorX then inputData[k - old(cursorX)]
                                 else if Insert in modeFlags && cursorX <= k
                                 then old(text[line, k - n]) else old(text[line, k])
      ensures forall k :: 0 <= k < width ==>
                color[line, k] == if old(cursorX) <= k < cursorX then c
                                  else if Insert in modeFlags && cursorX <= k
                                  then old(color[line, k - n]) else old(color[line, k])
    {
      if Insert in modeFlags {
        OpenGap(line, cursorX, n);
      }
      WriteRun(line, n, c);
    }

    // A cell of the row after a batch.
    static lemma PutCell(r: Row, x: int, bs: seq<Byte>, c: Attr, insert: bool, k: int)
      requires 0 <= x && x + |bs| <= |r| && 0 <= k < |r|
      ensures |PutRow(r, x, Cells(bs, c), insert)| == |r|
      ensures PutRow(r, x, Cells(bs, c), insert)[k]
           == if x <= k < x + |bs| then Cell(bs[k - x], c)
              else if insert && x + |bs| <= k then r[k - |bs|] else r[k]
    {
    }

    /** Writes the first n input bytes at the cursor in one batch. */
    method PutRun(n: int)
      requires Ready() && 1 <= n <= |inputData| && View().cx + n <= View().w
      modifies `screen, `cursorX, `dirtyStartX, `dirtyEndX, text, color
      ensures Core() && Synced()
      ensures View() == Put(old(View()), inputData[..n])
    {
      hide Core, Synced, Bounds, PutRow, Cells, Permutation, InSync, CalcColor;
      CursorRowIs();
      ghost var c, r := CalcColor(fgColor, bgColor, modeFlags), screen[cursorY];
      ghost var r' := PutRow(r, cursorX, Cells(inputData[..n], c), Insert in modeFlags);
      var line := linenumbers[cursorY];
      WriteRow(n, line, r, r', c);
      CursorRowEdited();
    }

    // What there is to know of the cursor row before it is edited.
    lemma CursorRowIs()
      requires Ready()
      ensures Core() && Synced() && Shape() && DamageOk(dirtyStartX, dirtyEndX) && Permutation(linenumbers)
      ensures 0 <= cursorX && 0 <= cursorY < height <= MAX_HEIGHT && 2 <= width < MAX_WIDTH
      ensures |screen| == height && |screen[cursorY]| == width
      ensures |linenumbers| == MAX_HEIGHT && 0 <= linenumbers[cursorY] < MAX_HEIGHT
      ensures forall k :: 0 <= k < width ==>
                screen[cursorY][k] == Cell(text[linenumbers[cursorY], k], color[linenumbers[cursorY], k])
    {
      assert Mirrors();
    }

    // Damage, storage and screen of the cursor row.
    method WriteRow(n: int, line: int, ghost r: Row, ghost r': Row, ghost c: Attr)
      requires Shape() && DamageOk(dirtyStartX, dirtyEndX) && 0 <= cursorY < MAX_HEIGHT && cursorY < |screen|
      requires 0 <= line < MAX_HEIGHT && 0 <= cursorX && 1 <= n <= |inputData| && cursorX + n <= width < MAX_WIDTH
      requires |r| == width && c == CalcColor(fgColor, bgColor, modeFlags)
      requires r' == PutRow(r, cursorX, Cells(inputData[..n], c), Insert in modeFlags)
      requires forall k :: 0 <= k < width ==> r[k] == Cell(text[line, k], color[line, k])
      modifies `screen, `cursorX, `dirtyStartX, `dirtyEndX, text, color
      ensures cursorX == old(cursorX) + n && screen == old(screen)[cursorY := r'] && |r'| == width
      ensures DamageOk(dirtyStartX, dirtyEndX) && Grown(old(dirtyStartX), old(dirtyEndX), dirtyStartX, dirtyEndX)
      ensures forall l, x :: 0 <= l < MAX_HEIGHT && 0 <= x < width && l != line ==>
                text[l, x] == old(text[l, x]) && color[l, x] == old(color[l, x])
      ensures forall k :: 0 <= k < width ==> r'[k] == Cell(text[line, k], color[line, k])
      ensures forall k :: 0 <= k < width && Clean(dirtyStartX, dirtyEndX, cursorY, k) ==> r'[k] == r[k]
    {
      ghost var x0, bs := cursorX, inputData[..n];
      hide PutRow, Cells, CalcColor;
      if Insert in modeFlags {
        ChangedLine(cursorY, cursorX, width - 1);
      } else {
        ChangedLine(cursorY, cursorX, cursorX + n - 1);
      }
      WriteCells(line, n, CalcColor(fgColor, bgColor, modeFlags));
      screen := screen[cursorY := r'];
      forall k | 0 <= k < width
        ensures r'[k] == Cell(text[line, k], color[line, k])
        ensures Clean(dirtyStartX, dirtyEndX, cursorY, k) ==> r'[k] == r[k]
      {
        PutCell(r, x0, bs, c, Insert in modeFlags, k);
      }
      PutCell(r, x0, bs, c, Insert in modeFlags, 0);
    }

    // ----- Refresh -----

    // Draws columns [x1, x2) of row y, all of colour c, in one call.
    method FlushRun(y: int, x1: int, x2: int, c: Attr, blank: bool)
      requires Core() && 0 <= y < MAX_HEIGHT && 0 <= x1 <= x2 <= MAX_WIDTH
      requires forall x :: x1 <= x < x2 ==> Stored(y, x).attr == c && (blank ==> IsBlank(Stored(y, x).ch))
      modifies `display
      ensures IsGrid(display, MAX_WIDTH, MAX_HEIGHT)
      ensures forall y', x :: 0 <= y' < MAX_HEIGHT && 0 <= x < MAX_WIDTH && !(y' == y && x1 <= x < x2) ==>
                display[y'][x] == old(display)[y'][x]
      ensures forall x :: x1 <= x < x2 ==> Appearance(display[y][x]) == Appearance(Stored(y, x))
    {
      if !blank {
        var line := linenumbers[y];
        var s := seq(x2 - x1, i requires 0 <= i < x2 - x1 reads text => text[line, x1 + i]);
        DrawText(c.fg, c.bg, c.style, x1, y, s);
      } else {
        ClearChars(c.bg, x1, y, x2 - x1);
      }
    }

    // Draws the dirty interval of row y as maximal runs of one colour.
    method DrawRow(y: int)
      requires Core() && 0 <= y < MAX_HEIGHT && dirtyStartX[y] < MAX_WIDTH
      modifies `display
      ensures IsGrid(display, MAX_WIDTH, MAX_HEIGHT)
      ensures forall y', x :: 0 <= y' < MAX_HEIGHT && 0 <= x < MAX_WIDTH
                              && !(y' == y && dirtyStartX[y] <= x <= dirtyEndX[y]) ==>
                display[y'][x] == old(display)[y'][x]
      ensures forall x :: dirtyStartX[y] <= x <= dirtyEndX[y] ==> Appearance(display[y][x]) == Appearance(Stored(y, x))
    {
      var line := linenumbers[y];
      var blank := TextOnly !in modeFlags;
      var startX := dirtyStartX[y];
      var c := color[line, startX];
      var x := startX;
      while x <= dirtyEndX[y]
        invariant dirtyStartX[y] <= startX <= x <= Max(dirtyStartX[y], dirtyEndX[y] + 1)
        invariant startX < MAX_WIDTH && (x <= dirtyEndX[y] && x == startX ==> c == color[line, x])
        invariant IsGrid(display, MAX_WIDTH, MAX_HEIGHT)
        invariant forall i :: startX <= i < x ==> Stored(y, i).attr == c && (blank ==> IsBlank(Stored(y, i).ch))
        invariant forall y', i :: 0 <= y' < MAX_HEIGHT && 0 <= i < MAX_WIDTH
                                  && !(y' == y && dirtyStartX[y] <= i < startX) ==>
                    display[y'][i] == old(display)[y'][i]
        invariant forall i :: dirtyStartX[y] <= i < startX ==>
                    Appearance(display[y][i]) == Appearance(Stored(y, i))
        invariant Core()
      {
        if !IsBlank(text[line, x]) { blank := false; }
        if c != color[line, x] {
          FlushRun(y, startX, x, c, blank);
          startX := x;
          c := color[line, x];
          blank := TextOnly !in modeFlags;
          if !IsBlank(text[line, x]) { blank := false; }
        }
        x := x + 1;
      }
      FlushRun(y, startX, x, c, blank);
    }

    // The block move owed to the display.
    method MoveOwed()
      requires IsGrid(display, MAX_WIDTH, MAX_HEIGHT) && width <= MAX_WIDTH && height <= MAX_HEIGHT
      requires 0 <= scrollTop && scrollBot < height && (TextOnly in modeFlags ==> pendingScroll == 0)
      modifies `display
      ensures display == Settle(old(display), Debt(), width)
    {
      hide MoveBlock, IsGrid;
      var mx := scrollBot - scrollTop + 1;
      if TextOnly !in modeFlags && pendingScroll != 0 && pendingScroll < mx && -pendingScroll < mx {
        if pendingScroll < 0 {
          MoveChars(0, scrollTop, 0, scrollTop - pendingScroll, width, mx + pendingScroll);
        } else {
          MoveChars(0, scrollTop + pendingScroll, 0, scrollTop, width, mx - pendingScroll);
        }
      }
    }

    method CopyScrolled()
      requires Core() && DueRight()
      modifies `display, `pendingScroll
      ensures Core() && Synced() && pendingScroll == 0 && View() == old(View())
    {
      hide InSync, Settle;
      MoveOwed();
      pendingScroll := 0;
    }

    // Undamaged cells of row y show the screen; nothing is owed.
    ghost predicate RowInSync(y: int)
      requires Core() && 0 <= y < height
      reads `screen, `width, `height, `scrollTop, `scrollBot, `display, `linenumbers, `dirtyStartX, `dirtyEndX,
            text, color
    {
      forall x :: 0 <= x < width && Clean(dirtyStartX, dirtyEndX, y, x) ==>
        Appearance(display[y][x]) == Appearance(screen[y][x])
    }

    ghost predicate RowShown(y: int)
      requires Core() && 0 <= y < height
      reads `screen, `width, `height, `scrollTop, `scrollBot, `display, `linenumbers, `dirtyStartX, `dirtyEndX,
            text, color
    {
      forall x :: 0 <= x < width ==> Appearance(display[y][x]) == Appearance(screen[y][x])
    }

    // One round of the row loop.
    method RefreshRow(y: int)
      requires Core() && 0 <= y < height && RowInSync(y)
      modifies `display, `dirtyStartX, `dirtyEndX
      ensures Core() && RowShown(y)
      ensures forall k, x :: 0 <= k < MAX_HEIGHT && 0 <= x < MAX_WIDTH && k != y ==> display[k][x] == old(display)[k][x]
      ensures forall k :: 0 <= k < MAX_HEIGHT && k != y ==>
                dirtyStartX[k] == old(dirtyStartX)[k] && dirtyEndX[k] == old(dirtyEndX)[k]
    {
      if dirtyStartX[y] < MAX_WIDTH {
        DrawRow(y);
        dirtyEndX := dirtyEndX[y := 0];
        dirtyStartX := dirtyStartX[y := MAX_WIDTH];
      }
    }

    // Rows before y are shown, the others in sync.
    ghost predicate Refreshed(y: int)
      requires Core() && 0 <= y <= height
      reads `screen, `width, `height, `scrollTop, `scrollBot, `display, `linenumbers, `dirtyStartX, `dirtyEndX,
            text, color
    {
      && (forall k :: 0 <= k < y ==> RowShown(k))
      && (forall k :: y <= k < height ==> RowInSync(k))
    }

    method RefreshNext(y: int)
      requires Core() && 0 <= y < height && Refreshed(y)
      modifies `display, `dirtyStartX, `dirtyEndX
      ensures Core() && Refreshed(y + 1)
    {
      assert RowInSync(y);
      RefreshRow(y);
      forall k | 0 <= k < height && k != y ensures old(RowShown(k)) ==> RowShown(k)
      {
      }
      forall k | 0 <= k < height && k != y ensures old(RowInSync(k)) ==> RowInSync(k)
      {
      }
    }

    lemma RefreshStarts()
      requires Core() && Synced() && pendingScroll == 0
      ensures 0 <= height && Refreshed(0)
    {
      forall y | 0 <= y < height ensures RowInSync(y) {
        assert Source(Debt(), y) == y;
      }
    }

    lemma RefreshEnds()
      requires Core() && Refreshed(height) && pendingScroll == 0
      ensures Synced() && IsGrid(screen, width, height) && IsGrid(display, MAX_WIDTH, MAX_HEIGHT)
      ensures width <= MAX_WIDTH && height <= MAX_HEIGHT && Shows(display, screen, width, height)
    {
      forall y, x | 0 <= y < height && 0 <= x < width ensures Appearance(display[y][x]) == Appearance(screen[y][x]) {
        assert RowShown(y);
      }
      assert forall y :: Source(Debt(), y) == y;
    }

    // The row loop of update_changes.
    method DrawDamage()
      requires Core() && Synced() && pendingScroll == 0
      modifies `display, `dirtyStartX, `dirtyEndX
      ensures Core() && Synced() && Shows(display, screen, width, height) && View() == old(View())
    {
      hide *;
      RefreshStarts();
      var y := 0;
      while y < height
        invariant 0 <= y <= height && Core() && Refreshed(y)
      {
        RefreshNext(y);
        y := y + 1;
      }
      RefreshEnds();
    }

    /** What a refresh needs: less than Ready(), which also prepares for further scrolling. */
    ghost predicate Drawable()
      reads `width, `height, `scrollTop, `scrollBot, `screen, `cursorX, `cursorY, `saveX, `saveY, `saveAttrib,
            `fgColor, `bgColor, `modeFlags, `tabStops, `currentState, `nparam, `param, `qMode, `gotParam,
            `quoteMode, `out,
            `pendingScroll, `display, `linenumbers, `dirtyStartX, `dirtyEndX, text, color
    {
      Core() && DueRight() && Bounds(View())
    }

    lemma ReadyDraws()
      requires Ready()
      ensures Drawable()
    {
      SettleKeepsSync(screen, display, dirtyStartX, dirtyEndX, width, height, Debt());
      hide InSync, Settle;
    }

    /** Refresh: afterwards the display shows exactly what a full redraw of the screen would. */
    method UpdateChanges()
      requires Drawable()
      modifies `display, `pendingScroll, `overlay, `dirtyStartX, `dirtyEndX
      ensures Ready() && View() == old(View())
      ensures pendingScroll == 0 && Shows(display, screen, width, height)
      ensures CursorInvisible !in modeFlags ==>
                overlay == At(Min(cursorX, width - 1), cursorY, screen[cursorY][Min(cursorX, width - 1)])
    {
      CopyScrolled();
      DrawDamage();
      if CursorInvisible !in modeFlags {
        var x := cursorX;
        if x >= width { x := width - 1; }
        var line := linenumbers[cursorY];
        overlay := At(x, cursorY, Cell(text[line, x], color[line, x]));
      }
    }

    // ----- Actions -----
    // Each action does to the view what its counterpart in TermModel does.

    method CarriageReturn()
      requires Ready()
      modifies `cursorX, `cursorY, `dirtyStartX, `dirtyEndX
      ensures Core() && Synced()
      ensures View() == DoCR(old(View()))
    {
      MoveCursor(0, cursorY);
    }

    method LineFeed()
      requires Ready()
      modifies `screen, `pendingScroll, `linenumbers, `dirtyStartX, `dirtyEndX, `cursorX, `cursorY, text, color
      ensures Core() && Synced()
      ensures View() == DoLF(old(View()))
    {
      if cursorY < scrollBot {
        MoveCursor(cursorX, cursorY + 1);
      } else {
        ScrollRegion(scrollTop, scrollBot, 1);
      }
    }

    method FormFeed()
      requires Ready()
      modifies `screen, `cursorX, `cursorY, `dirtyStartX, `dirtyEndX, text, color
      ensures Core() && Synced()
      ensures View() == DoFF(old(View()))
    {
      ClearArea(0, scrollTop, width - 1, scrollBot);
      MoveCursor(0, scrollTop);
    }

    method NextRow()
      requires Ready()
      modifies `screen, `pendingScroll, `linenumbers, `dirtyStartX, `dirtyEndX, `cursorX, `cursorY, text, color
      ensures Core() && Synced()
      ensures View() == DoNextLine(old(View()))
    {
      LineFeedKeepsBounds(View());
      LineFeed();
      CarriageReturn();
    }

    method HorizontalTab()
      requires Ready()
      modifies `screen, `pendingScroll, `linenumbers, `dirtyStartX, `dirtyEndX, `cursorX, `cursorY, text, color
      ensures Core() && Synced()
      ensures View() == DoTab(old(View()))
    {
      var x := 0;
      var i := cursorX + 1;
      while i < width && x == 0
        invariant cursorX + 1 <= i
        invariant x == 0 ==> NextStop(tabStops, cursorX + 1, width) == NextStop(tabStops, i, width)
        invariant x != 0 ==> x == NextStop(tabStops, cursorX + 1, width)
      {
        if tabStops[i] { x := i; }
        i := i + 1;
      }
      if x == 0 { x := (cursorX + 8) - (cursorX + 8) % 8; }
      assert x == TabTarget(View());
      if x < width {
        MoveCursor(x, cursorY);
      } else if NoEolWrap in modeFlags {
        MoveCursor(width - 1, cursorY);
      } else {
        NextRow();
      }
    }

    method Backspace()
      requires Ready()
      modifies `screen, `cursorX, `cursorY, `dirtyStartX, `dirtyEndX, text, color
      ensures Core() && Synced()
      ensures View() == DoBS(old(View()))
    {
      if cursorX > 0 {
        MoveCursor(cursorX - 1, cursorY);
      }
      if DestructBs in modeFlags {
        ClearArea(cursorX, cursorY, cursorX, cursorY);
      }
    }

    method ForgetParams()
      requires Ready()
      modifies `nparam, `param, `qMode, `gotParam
      ensures Core() && Synced()
      ensures View() == DoClearParam(old(View()))
    {
      hide Core, Synced, Bounds;
      nparam := 0;
      param := seq(MAX_PARAMS, i => 0);
      qMode := false;
      gotParam := false;
    }

    method RememberCursor()
      requires Ready()
      modifies `saveAttrib, `saveX, `saveY
      ensures Core() && Synced()
      ensures View() == DoSaveCursor(old(View()))
    {
      hide Core, Synced, Bounds;
      saveAttrib := modeFlags;
      saveX := cursorX;
      saveY := cursorY;
    }

    method RecallCursor()
      requires Ready()
      modifies `modeFlags, `cursorX, `cursorY, `dirtyStartX, `dirtyEndX
      ensures Core() && Synced()
      ensures View() == DoRestoreCursor(old(View()))
    {
      modeFlags := (modeFlags - STYLE) + (saveAttrib * STYLE);
      MoveCursor(saveX, saveY);
    }

    method AddTabStop()
      requires Ready()
      modifies `tabStops
      ensures Core() && Synced()
      ensures View() == DoSetTab(old(View()))
    {
      assert 0 <= cursorX < |tabStops|;
      hide Core, Synced, Bounds;
      tabStops := tabStops[cursorX := true];
    }

    method RemoveTabStop()
      requires Ready()
      modifies `tabStops
      ensures Core() && Synced()
      ensures View() == DoClearTab(old(View()))
    {
      assert 0 <= cursorX < |tabStops| && 0 < |param|;
      hide Core, Synced, Bounds;
      if param[0] == 3 {
        tabStops := seq(MAX_WIDTH, i => false);
      } else if param[0] == 0 {
        tabStops := tabStops[cursorX := false];
      }
    }

    method ReverseIndex()
      requires Ready()
      modifies `screen, `pendingScroll, `linenumbers, `dirtyStartX, `dirtyEndX, `cursorX, `cursorY, text, color
      ensures Core() && Synced()
      ensures View() == DoIndexUp(old(View()))
    {
      if cursorY > scrollTop {
        MoveCursor(cursorX, cursorY - 1);
      } else {
        ScrollRegion(scrollTop, scrollBot, -1);
      }
    }

    // param_digit, on the input byte
    method AddDigit()
      requires Ready() && inputData != []
      modifies `gotParam, `param
      ensures Core() && Synced()
      ensures View() == DoParamDigit(old(View()), inputData[0])
    {
      assert 0 <= nparam < |param|;
      hide Core, Synced, Bounds;
      gotParam := true;
      param := param[nparam := param[nparam] * 10 + inputData[0] - '0' as int];
    }

    // The count in the first parameter.
    function CountParam(): (n: int)
      requires |param| == MAX_PARAMS
      reads `width, `height, `scrollTop, `scrollBot, `screen, `cursorX, `cursorY, `saveX, `saveY, `saveAttrib,
            `fgColor, `bgColor, `modeFlags, `tabStops, `currentState, `nparam, `param, `qMode, `gotParam,
            `quoteMode, `out
      ensures n == Count(View())
    {
      if param[0] < 1 then 1 else param[0]
    }

    method Left()
      requires Ready()
      modifies `cursorX, `cursorY, `dirtyStartX, `dirtyEndX
      ensures Core() && Synced()
      ensures View() == DoCursorLeft(old(View()))
    {
      var x := cursorX - CountParam();
      if x < 0 { x := 0; }
      MoveCursor(x, cursorY);
    }

    method Right()
      requires Ready()
      modifies `cursorX, `cursorY, `dirtyStartX, `dirtyEndX
      ensures Core() && Synced()
      ensures View() == DoCursorRight(old(View()))
    {
      var x := cursorX + CountParam();
      if x >= width { x := width - 1; }
      MoveCursor(x, cursorY);
    }

    method Up()
      requires Ready()
      modifies `cursorX, `cursorY, `dirtyStartX, `dirtyEndX
      ensures Core() && Synced()
      ensures View() == DoCursorUp(old(View()))
    {
      var y := cursorY - CountParam();
      if y < 0 { y := 0; }
      MoveCursor(cursorX, y);
    }

    method Down()
      requires Ready()
      modifies `cursorX, `cursorY, `dirtyStartX, `dirtyEndX
      ensures Core() && Synced()
      ensures View() == DoCursorDown(old(View()))
    {
      var y := cursorY + CountParam();
      if y >= height { y := height - 1; }
      MoveCursor(cursorX, y);
    }

    method Position()
      requires Ready()
      modifies `cursorX, `cursorY, `dirtyStartX, `dirtyEndX
      ensures Core() && Synced()
      ensures View() == DoCursorPosition(old(View()))
    {
      var x := param[1];
      if x < 1 { x := 1; }
      if x >= width { x := width - 1; }
      var y := param[0];
      if y < 1 { y := 1; }
      if y >= height { y := height - 1; }
      if CursorRelative in modeFlags {
        MoveCursor(x - 1, y - 1 + scrollTop);
      } else {
        MoveCursor(x - 1, y - 1);
      }
    }

    method RemoveChars()
      requires Ready()
      modifies `screen, `dirtyStartX, `dirtyEndX, text, color
      ensures Core() && Synced()
      ensures View() == DoDeleteChar(old(View()))
    {
      var n := CountParam();
      if n >= width - cursorX {
        ClearArea(cursorX, cursorY, width - 1, cursorY);
      } else {
        ShiftText(cursorX, -n);
      }
    }

    method InsertBlanks()
      requires Ready()
      modifies `screen, `dirtyStartX, `dirtyEndX, text, color
      ensures Core() && Synced()
      ensures View() == DoInsertChar(old(View()))
    {
      var n := CountParam();
      if n >= width - cursorX {
        ClearArea(cursorX, cursorY, width - 1, cursorY);
      } else {
        ShiftText(cursorX, n);
      }
    }

    static lemma EraseIsClear(v: Vt, n: int)
      requires n == if Count(v) > v.w - v.cx then v.w - v.cx else Count(v)
      ensures DoEraseChar(v) == Clear(v, v.cx, v.cy, v.cx + n - 1, v.cy)
    {
    }

    method EraseChars()
      requires Ready()
      modifies `screen, `dirtyStartX, `dirtyEndX, text, color
      ensures Core() && Synced()
      ensures View() == DoEraseChar(old(View()))
    {
      var n := CountParam();
      if n > width - cursorX { n := width - cursorX; }
      assert 0 <= cursorX && 0 <= cursorY < height && width < MAX_WIDTH && height <= MAX_HEIGHT;
      EraseIsClear(View(), n);
      hide *;
      ClearArea(cursorX, cursorY, cursorX + n - 1, cursorY);
    }

    method RaiseMode()
      requires Ready()
      modifies `modeFlags, `out, `cursorX, `cursorY, `dirtyStartX, `dirtyEndX
      ensures Core() && Synced()
      ensures View() == DoSetMode(old(View()))
    {
      match param[0] + (if qMode then 1000 else 0)
      case 1007 => ClearModeFlag({NoEolWrap});
      case 1001 => SetModeFlag({CursorAppMode});
      case 1006 => SetModeFlag({CursorRelative});
      case 4 => SetModeFlag({Insert});
      case 1003 => out := out + [SizeRequested(132, height)];
      case 20 => SetModeFlag({NewLine});
      case 12 => ClearModeFlag({LocalEcho});
      case 1025 =>
        ClearModeFlag({CursorInvisible});
        MoveCursor(cursorX, cursorY);
      case _ =>
    }

    method LowerMode()
      requires Ready()
      modifies `modeFlags, `out, `currentState
      ensures Core() && Synced()
      ensures View() == DoClearMode(old(View()))
    {
      match param[0] + (if qMode then 1000 else 0)
      case 1007 => SetModeFlag({NoEolWrap});
      case 1001 => ClearModeFlag({CursorAppMode});
      case 1006 => ClearModeFlag({CursorRelative});
      case 4 => ClearModeFlag({Insert});
      case 1003 => out := out + [SizeRequested(80, height)];
      case 20 => ClearModeFlag({NewLine});
      case 1002 => currentState := Vt52Normal;
      case 12 => SetModeFlag({LocalEcho});
      case 1025 => SetModeFlag({CursorInvisible});
      case _ =>
    }

    /** Any scroll still owed to the display is settled before the region changes. */
    method ChangeMargins()
      requires Ready() && ActionOk(View(), SetMargins)
      modifies `scrollTop, `scrollBot, `cursorX, `cursorY, `display, `overlay, `pendingScroll, `dirtyStartX, `dirtyEndX
      ensures Core() && Synced()
      ensures View() == DoSetMargins(old(View()))
    {
      hide *;
      ReadyMeans();
      var t := param[0];
      if t < 1 { t := 1; }
      var b := param[1];
      if b < 1 { b := height; }
      if b > height { b := height; }
      MarginsAre(View(), t, b);
      SettleScroll();
      ReadyMeans();
      MoveMargins(t - 1, b - 1);
      CursorIntoMargins();
    }

    static lemma MarginsAre(v: Vt, t: int, b: int)
      requires ActionOk(v, SetMargins) && v.h > 0
      requires t == if P(v, 0) < 1 then 1 else P(v, 0)
      requires b == if P(v, 1) < 1 || P(v, 1) > v.h then v.h as int else P(v, 1)
      ensures 1 <= t <= v.h && 1 <= b <= v.h
      ensures DoSetMargins(v) == IntoMargins(v.(top := t - 1, bot := b - 1))
    {
      hide MoveTo, P;
    }

    // The cursor is put between the margins.
    static function IntoMargins(v: Vt): Vt {
      var v1 := if v.cy < v.top then MoveTo(v, v.cx, v.top) else v;
      if v1.cy > v1.bot then MoveTo(v1, v1.cx, v1.bot) else v1
    }

    method SettleScroll()
      requires Ready()
      modifies `display, `overlay, `pendingScroll, `dirtyStartX, `dirtyEndX
      ensures Ready() && pendingScroll == 0 && View() == old(View())
    {
      if pendingScroll != 0 {
        ReadyDraws();
        UpdateChanges();
      }
    }

    method MoveMargins(top: int, bot: int)
      requires Core() && Synced() && pendingScroll == 0 && 0 <= top && bot < height
      modifies `scrollTop, `scrollBot
      ensures Core() && Synced()
      ensures View() == old(View()).(top := top, bot := bot) && scrollTop == top && scrollBot == bot
    {
      MarginsFree(screen, display, dirtyStartX, dirtyEndX, width, height, Debt(), Owed(top, bot, 0));
      hide InSync;
      scrollTop := top;
      scrollBot := bot;
    }

    method CursorIntoMargins()
      requires Core() && Synced() && 0 <= cursorX && 0 <= cursorY && 0 <= scrollTop && 0 <= scrollBot
      modifies `cursorX, `cursorY, `dirtyStartX, `dirtyEndX
      ensures Core() && Synced()
      ensures View() == IntoMargins(old(View()))
    {
      if cursorY < scrollTop { MoveCursor(cursorX, scrollTop); }
      if cursorY > scrollBot { MoveCursor(cursorX, scrollBot); }
    }

    method RemoveLines()
      requires Ready()
      modifies `screen, `pendingScroll, `linenumbers, `dirtyStartX, `dirtyEndX, text, color
      ensures Core() && Synced()
      ensures View() == DoDeleteLine(old(View()))
    {
      var n := CountParam();
      if n >= scrollBot - cursorY + 1 {
        ClearArea(0, cursorY, width - 1, scrollBot);
      } else {
        ScrollRegion(cursorY, scrollBot, n);
      }
    }

    method InsertLines()
      requires Ready()
      modifies `screen, `pendingScroll, `linenumbers, `dirtyStartX, `dirtyEndX, text, color
      ensures Core() && Synced()
      ensures View() == DoInsertLine(old(View()))
    {
      var n := CountParam();
      if n >= scrollBot - cursorY + 1 {
        ClearArea(0, cursorY, width - 1, scrollBot);
      } else {
        ScrollRegion(cursorY, scrollBot, -n);
      }
    }

    method ReportStatus()
      requires Ready()
      modifies `out
      ensures Core() && Synced()
      ensures View() == DoStatusReport(old(View()))
    {
      if param[0] == 5 {
        out := out + [StatusOk()];
      } else if param[0] == 6 {
        out := out + [CursorReport(cursorY + 1, cursorX + 1)];
      }
    }

    method EraseForward()
      requires Ready()
      modifies `screen, `dirtyStartX, `dirtyEndX, text, color
      ensures Core() && Synced()
      ensures View() == EraseAfter(old(View()))
    {
      ClearArea(cursorX, cursorY, width - 1, cursorY);
      if cursorY < height - 1 { ClearArea(0, cursorY + 1, width - 1, height - 1); }
    }

    method EraseBackward()
      requires Ready()
      modifies `screen, `dirtyStartX, `dirtyEndX, text, color
      ensures Core() && Synced()
      ensures View() == EraseBefore(old(View()))
    {
      ClearArea(0, cursorY, cursorX, cursorY);
      if cursorY > 0 { ClearArea(0, 0, width - 1, cursorY - 1); }
    }

    method EraseScreen()
      requires Ready()
      modifies `screen, `dirtyStartX, `dirtyEndX, text, color
      ensures Core() && Synced()
      ensures View() == DoEraseDisplay(old(View()))
    {
      match param[0]
      case 0 => EraseForward();
      case 1 => EraseBackward();
      case 2 => ClearArea(0, 0, width - 1, height - 1);
      case _ =>
    }

    method EraseRow()
      requires Ready()
      modifies `screen, `dirtyStartX, `dirtyEndX, text, color
      ensures Core() && Synced()
      ensures View() == DoEraseLine(old(View()))
    {
      match param[0]
      case 0 => ClearArea(cursorX, cursorY, width - 1, cursorY);
      case 1 => ClearArea(0, cursorY, cursorX, cursorY);
      case 2 => ClearArea(0, cursorY, width - 1, cursorY);
      case _ =>
    }

    method SetBackground(c: int)
      requires Core() && Synced()
      modifies `bgColor
      ensures Core() && Synced() && View() == old(View()).(bg := c)
    {
      hide Core, Synced;
      bgColor := c;
    }

    method SetForeground(c: int)
      requires Core() && Synced()
      modifies `fgColor
      ensures Core() && Synced() && View() == old(View()).(fg := c)
    {
      hide Core, Synced;
      fgColor := c;
    }

    method PlainPens()
      requires Core() && Synced()
      modifies `fgColor, `bgColor, `modeFlags, `out
      ensures Core() && Synced() && View() == LowerFlags(old(View()), STYLE).(fg := 7, bg := 0)
    {
      hide Core, Synced, View;
      ClearModeFlag(STYLE);
      SetForeground(7);
      SetBackground(0);
    }

    // One parameter of set_colors.
    method ApplyColor(p: int)
      requires Core() && Synced()
      modifies `fgColor, `bgColor, `modeFlags, `out
      ensures Core() && Synced()
      ensures View() == OneColor(old(View()), p)
    {
      hide Core, Synced, View, LowerFlags, RaiseFlags;
      if p / 10 == 4 {
        SetBackground(if p % 10 > 7 then 0 else p % 10);
      } else if p / 10 == 3 {
        SetForeground(if p % 10 > 7 then 7 else p % 10);
      } else {
        match p
        case 0 => PlainPens();
        case 1 => SetModeFlag({Bold});
        case 4 => SetModeFlag({Underline});
        case 5 => SetModeFlag({Blink});
        case 7 => SetModeFlag({Inverse});
        case _ =>
      }
    }

    method ChangeColors()
      requires Ready()
      modifies `fgColor, `bgColor, `modeFlags, `out
      ensures Core() && Synced()
      ensures View() == DoSetColors(old(View()))
    {
      assert |param| == MAX_PARAMS && 0 <= nparam < MAX_PARAMS;
      hide Core, Synced, Bounds, OneColor;
      if nparam == 0 && param[0] == 0 {
        PlainPens();
      } else {
        ClearModeFlag(STYLE);
        ApplyColors();
      }
    }

    // The parameter loop of set_colors.
    method ApplyColors()
      requires Core() && Synced() && |param| == MAX_PARAMS && 0 <= nparam < MAX_PARAMS
      modifies `fgColor, `bgColor, `modeFlags, `out
      ensures Core() && Synced() && View() == ColorsFrom(old(View()), 0)
    {
      hide Core, Synced, OneColor;
      var n := 0;
      while n <= nparam
        invariant 0 <= n <= nparam + 1 && Core() && Synced()
        invariant nparam == old(nparam) && param == old(param)
        invariant ColorsFrom(View(), n) == ColorsFrom(old(View()), 0)
      {
        ApplyColor(param[n]);
        n := n + 1;
      }
    }

    // The inner loop of screen_align.
    method FillLetters(line: int, c: Attr)
      requires Shape() && 0 <= line < MAX_HEIGHT && width < MAX_WIDTH
      modifies text, color
      ensures forall l, x :: 0 <= l < MAX_HEIGHT && 0 <= x < MAX_WIDTH && l != line ==>
                text[l, x] == old(text[l, x]) && color[l, x] == old(color[l, x])
      ensures forall x :: 0 <= x < width ==> text[line, x] == 'E' as int && color[line, x] == c
    {
      var x := 0;
      while x < width
        invariant 0 <= x <= width
        invariant forall l, k :: 0 <= l < MAX_HEIGHT && 0 <= k < MAX_WIDTH && l != line ==>
                    text[l, k] == old(text[l, k]) && color[l, k] == old(color[l, k])
        invariant forall k :: 0 <= k < x ==> text[line, k] == 'E' as int && color[line, k] == c
      {
        text[line, x] := 'E' as int;
        color[line, x] := c;
        x := x + 1;
      }
    }

    // Rows [0, y) of the screen are stored as letters.
    ghost predicate Lettered(y: int, c: Attr)
      requires Shape() && Permutation(linenumbers) && y <= MAX_HEIGHT && width <= MAX_WIDTH
      reads `linenumbers, `width, text, color
    {
      forall k, x :: 0 <= k < y && 0 <= x < width ==> Stored(k, x) == Cell('E' as int, c)
    }

    // One more row of letters; line numbers being distinct, the rows above keep theirs.
    method LetterRow(y: int, c: Attr)
      requires Shape() && Permutation(linenumbers) && 0 <= y < MAX_HEIGHT && width < MAX_WIDTH && Lettered(y, c)
      modifies text, color
      ensures Lettered(y + 1, c)
    {
      var line := linenumbers[y];
      FillLetters(line, c);
      forall k, x | 0 <= k < y + 1 && 0 <= x < width ensures Stored(k, x) == Cell('E' as int, c) {
        if k < y {
          assert linenumbers[k] != line;
          assert old(Stored(k, x)) == Cell('E' as int, c);
        }
      }
    }

    method AlignScreen()
      requires Ready()
      modifies `screen, `dirtyStartX, `dirtyEndX, text, color
      ensures Core() && Synced()
      ensures View() == DoScreenAlign(old(View()))
    {
      var c := CalcColor(7, 0, {});
      LetterScreen(c);
      screen := DoScreenAlign(View()).grid;
      AllDamagedInSync(screen, display, dirtyStartX, dirtyEndX, width, height, Debt());
    }

    // The row loop of screen_align.
    method LetterScreen(c: Attr)
      requires Shape() && Permutation(linenumbers) && DamageOk(dirtyStartX, dirtyEndX)
      requires 0 < width < MAX_WIDTH && height <= MAX_HEIGHT
      modifies `dirtyStartX, `dirtyEndX, text, color
      ensures DamageOk(dirtyStartX, dirtyEndX) && Lettered(height, c)
      ensures forall k :: 0 <= k < height ==> dirtyStartX[k] <= 0 && width - 1 <= dirtyEndX[k]
    {
      assert Lettered(0, c);
      hide Lettered, Permutation;
      var y := 0;
      while y < height
        invariant 0 <= y <= height && DamageOk(dirtyStartX, dirtyEndX) && Lettered(y, c)
        invariant forall k :: 0 <= k < y ==> dirtyStartX[k] <= 0 && width - 1 <= dirtyEndX[k]
      {
        ChangedLine(y, 0, width - 1);
        LetterRow(y, c);
        y := y + 1;
      }
    }

    // vt52_cursory, on the input byte
    method Vt52Row()
      requires Ready() && inputData != []
      modifies `param
      ensures Core() && Synced()
      ensures View() == DoVt52CursorY(old(View()), inputData[0])
    {
      var y: int := (inputData[0] as int) - 32;
      if y < 1 { y := 1; }
      if y >= height { y := height - 1; }
      param := param[0 := y];
    }

    // vt52_cursorx, on the input byte
    method Vt52Column()
      requires Ready() && inputData != []
      modifies `cursorX, `cursorY, `dirtyStartX, `dirtyEndX
      ensures Core() && Synced()
      ensures View() == DoVt52CursorX(old(View()), inputData[0])
    {
      var x: int := (inputData[0] as int) - 32;
      if x < 1 { x := 1; }
      if x >= width { x := width - 1; }
      MoveCursor(x, param[0]);
    }

    // reset, which also serves the constructor: nothing is assumed about the stored screen
    method ResetAll()
      requires Shape() && 2 <= width < MAX_WIDTH && 2 <= height <= MAX_HEIGHT
      requires DamageOk(dirtyStartX, dirtyEndX) && IsGrid(display, MAX_WIDTH, MAX_HEIGHT)
      requires 0 <= cursorX && 0 <= cursorY
      modifies `pendingScroll, `fgColor, `bgColor, `scrollTop, `scrollBot, `linenumbers, `tabStops, `currentState,
               `modeFlags, `out, `screen, `cursorX, `cursorY, `dirtyStartX, `dirtyEndX, text, color
      ensures Core() && Synced()
      ensures View() == DoReset(old(View()))
    {
      ResetFields();
      ClearModeFlag(RESET_FLAGS);
      ClearAll();
      MoveCursor(0, 0);
    }

    method ClearAll()
      requires Shape() && 2 <= width < MAX_WIDTH && 2 <= height <= MAX_HEIGHT
      requires DamageOk(dirtyStartX, dirtyEndX) && IsGrid(display, MAX_WIDTH, MAX_HEIGHT) && Permutation(linenumbers)
      requires scrollTop == 0 && scrollBot == height - 1 && pendingScroll == 0
      modifies `screen, `dirtyStartX, `dirtyEndX, text, color
      ensures Core() && Synced()
      ensures View() == old(View()).(grid := seq(height, y => BlankRow(old(width), old(Pen(View())))))
    {
      ghost var w, c := width, Pen(View());
      ClearStorage(0, 0, width - 1, height - 1);
      screen := seq(height, y => BlankRow(w, c));
      AllDamagedInSync(screen, display, dirtyStartX, dirtyEndX, width, height, Debt());
    }

    method ResetFields()
      requires height <= MAX_HEIGHT
      modifies `pendingScroll, `fgColor, `bgColor, `scrollTop, `scrollBot, `linenumbers, `tabStops, `currentState
      ensures pendingScroll == 0 && Permutation(linenumbers) && scrollTop == 0 && scrollBot == height - 1
      ensures View() == old(View()).(bg := 0, fg := 7, top := 0, bot := height - 1,
                                     tabs := seq(MAX_WIDTH, i => false), state := NormalState)
    {
      linenumbers := seq(MAX_HEIGHT, i => i);
      assert Permutation(linenumbers);
      pendingScroll := 0;
      hide Permutation;
      ResetPens();
      ResetRegion();
      hide View;
    }

    method ResetPens()
      modifies `fgColor, `bgColor, `tabStops
      ensures View() == old(View()).(bg := 0, fg := 7, tabs := seq(MAX_WIDTH, i => false))
    {
      bgColor := 0;
      fgColor := 7;
      tabStops := seq(MAX_WIDTH, i => false);
    }

    method ResetRegion()
      modifies `scrollTop, `scrollBot, `currentState
      ensures scrollTop == 0 && scrollBot == height - 1
      ensures View() == old(View()).(top := 0, bot := height - 1, state := NormalState)
    {
      scrollTop := 0;
      scrollBot := height - 1;
      currentState := NormalState;
    }

    method ResetTerminal()
      requires Ready()
      modifies `pendingScroll, `fgColor, `bgColor, `scrollTop, `scrollBot, `linenumbers, `tabStops, `currentState,
               `modeFlags, `out, `screen, `cursorX, `cursorY, `dirtyStartX, `dirtyEndX, text, color
      ensures Core() && Synced()
      ensures View() == DoReset(old(View()))
    {
      ResetAll();
    }

    // ----- Dispatch -----

    method Emit(e: Event)
      requires Core() && Synced()
      modifies `out
      ensures Core() && Synced() && View() == Say(old(View()), e)
    {
      out := out + [e];
    }

    method MarkPrivate()
      requires Core() && Synced()
      modifies `qMode
      ensures Core() && Synced() && View() == old(View()).(qMode := true)
    {
      qMode := true;
    }

    method MarkQuoted()
      requires Core() && Synced()
      modifies `quoteMode
      ensures Core() && Synced() && View() == old(View()).(quoteMode := true)
    {
      quoteMode := true;
    }

    method AdvanceParam()
      requires Core() && Synced()
      modifies `nparam
      ensures Core() && Synced() && View() == old(View()).(nparam := old(View()).nparam + 1)
    {
      nparam := nparam + 1;
    }

    static lemma FeedIs(v: Vt, a: Action)
      requires IsFeed(a)
      ensures ExecEdit(v, a)
           == if a == LF then DoLF(v)
              else if a == CR then DoCR(v)
              else if a == FF then DoFF(v)
              else if a == BS then DoBS(v)
              else if a == Tab then DoTab(v)
              else if a == IndexDown then DoLF(v)
              else if a == IndexUp then DoIndexUp(v)
              else DoNextLine(v)
    {
      hide DoLF, DoCR, DoFF, DoBS, DoTab, DoIndexUp, DoNextLine,
        DoReset, DoScreenAlign, DoDeleteChar, DoInsertChar, DoEraseChar, DoDeleteLine, DoInsertLine, DoEraseDisplay,
        DoEraseLine;
    }

    static lemma EraseIs(v: Vt, a: Action)
      requires IsErase(a)
      ensures ExecEdit(v, a)
           == if a == Reset then DoReset(v)
              else if a == ScreenAlign then DoScreenAlign(v)
              else if a == DeleteChar then DoDeleteChar(v)
              else if a == InsertChar then DoInsertChar(v)
              else if a == EraseChar then DoEraseChar(v)
              else if a == DeleteLine then DoDeleteLine(v)
              else if a == InsertLine then DoInsertLine(v)
              else if a == EraseDisplay then DoEraseDisplay(v)
              else DoEraseLine(v)
    {
      hide DoLF, DoCR, DoFF, DoBS, DoTab, DoIndexUp, DoNextLine,
        DoReset, DoScreenAlign, DoDeleteChar, DoInsertChar, DoEraseChar, DoDeleteLine, DoInsertLine, DoEraseDisplay,
        DoEraseLine;
    }

    static lemma CursorMoveIs(v: Vt, a: Action, b: Byte)
      requires IsCursorMove(a)
      ensures ExecCursorMove(v, a, b)
           == if a == CursorLeft then DoCursorLeft(v)
              else if a == CursorDown then DoCursorDown(v)
              else if a == CursorRight then DoCursorRight(v)
              else if a == CursorUp then DoCursorUp(v)
              else if a == CursorPosition then DoCursorPosition(v)
              else if a == RestoreCursor then DoRestoreCursor(v)
              else if a == SaveCursor then DoSaveCursor(v)
              else if a == SetMargins then DoSetMargins(v)
              else if a == Vt52CursorX then DoVt52CursorX(v, b)
              else DoVt52CursorY(v, b)
    {
      hide DoSetMargins, DoCursorPosition, DoCursorLeft, DoCursorRight, DoCursorUp, DoCursorDown, DoSaveCursor,
        DoRestoreCursor, DoVt52CursorX, DoVt52CursorY;
    }

    static lemma ParamIs(v: Vt, a: Action, b: Byte)
      requires IsParam(a)
      ensures ExecSetting(v, a, b)
           == if a == NoAction then v
              else if a == SetQMode then v.(qMode := true)
              else if a == SetQuoteMode then v.(quoteMode := true)
              else if a == ClearParam then DoClearParam(v)
              else if a == ParamDigit then DoParamDigit(v, b)
              else if a == NextParam then v.(nparam := v.nparam + 1)
              else if a == SetTab then DoSetTab(v)
              else DoClearTab(v)
    {
      hide DoClearParam, DoParamDigit, DoSetTab, DoClearTab, DoSetMode, DoClearMode, DoStatusReport, DoSetColors, Say,
        RaiseFlags, LowerFlags;
    }

    static lemma ReplyIs(v: Vt, a: Action, b: Byte)
      requires IsReply(a)
      ensures ExecSetting(v, a, b)
           == if a == Bell then Say(v, BellRung)
              else if a == DeviceAttrib then Say(v, DeviceAttributes())
              else if a == RequestParam then Say(v, ParameterReport(P(v, 0) + 2))
              else if a == StatusReport then DoStatusReport(v)
              else Say(v, Vt52Identity())
    {
      hide DoClearParam, DoParamDigit, DoSetTab, DoClearTab, DoSetMode, DoClearMode, DoStatusReport, DoSetColors, Say,
        RaiseFlags, LowerFlags;
    }

    static lemma ModeIs(v: Vt, a: Action, b: Byte)
      requires !IsEdit(a) && !IsCursorMove(a) && !IsParam(a) && !IsReply(a) && a != NormalInput
      ensures ExecSetting(v, a, b)
           == if a == KeypadNumeric then LowerFlags(v, {KeyAppMode})
              else if a == KeypadApplication then RaiseFlags(v, {KeyAppMode})
              else if a == SetMode then DoSetMode(v)
              else if a == ClearMode then DoClearMode(v)
              else DoSetColors(v)
    {
      hide DoClearParam, DoParamDigit, DoSetTab, DoClearTab, DoSetMode, DoClearMode, DoStatusReport, DoSetColors, Say,
        RaiseFlags, LowerFlags;
    }

    method PerformFeed(a: Action)
      requires Ready() && IsFeed(a)
      modifies `screen, `pendingScroll, `linenumbers, `dirtyStartX, `dirtyEndX, `cursorX, `cursorY, `fgColor, `bgColor,
               `scrollTop, `scrollBot, `tabStops, `currentState, `modeFlags, `out, text, color
      ensures Core() && Synced()
      ensures View() == ExecEdit(old(View()), a)
    {
      hide *;
      FeedIs(View(), a);
      if a == LF {
        LineFeed();
      } else if a == CR {
        CarriageReturn();
      } else if a == FF {
        FormFeed();
      } else if a == BS {
        Backspace();
      } else if a == Tab {
        HorizontalTab();
      } else if a == IndexDown {
        LineFeed();
      } else if a == IndexUp {
        ReverseIndex();
      } else {
        NextRow();
      }
    }

    method PerformErase(a: Action)
      requires Ready() && IsErase(a)
      modifies `screen, `pendingScroll, `linenumbers, `dirtyStartX, `dirtyEndX, `cursorX, `cursorY, `fgColor, `bgColor,
               `scrollTop, `scrollBot, `tabStops, `currentState, `modeFlags, `out, text, color
      ensures Core() && Synced()
      ensures View() == ExecEdit(old(View()), a)
    {
      hide *;
      EraseIs(View(), a);
      if a == Reset {
        ResetTerminal();
      } else if a == ScreenAlign {
        AlignScreen();
      } else if a == DeleteChar {
        RemoveChars();
      } else if a == InsertChar {
        InsertBlanks();
      } else if a == EraseChar {
        EraseChars();
      } else if a == DeleteLine {
        RemoveLines();
      } else if a == InsertLine {
        InsertLines();
      } else if a == EraseDisplay {
        EraseScreen();
      } else {
        EraseRow();
      }
    }

    method PerformEdit(a: Action)
      requires Ready() && IsEdit(a)
      modifies `screen, `pendingScroll, `linenumbers, `dirtyStartX, `dirtyEndX, `cursorX, `cursorY, `fgColor, `bgColor,
               `scrollTop, `scrollBot, `tabStops, `currentState, `modeFlags, `out, text, color
      ensures Core() && Synced()
      ensures View() == ExecEdit(old(View()), a)
    {
      hide View, Core, Synced, Bounds, ExecEdit, IsFeed, IsErase;
      if IsFeed(a) {
        PerformFeed(a);
      } else {
        PerformErase(a);
      }
    }

    method PerformArrow(a: Action)
      requires Ready() && (a == CursorLeft || a == CursorDown || a == CursorRight || a == CursorUp) && inputData != []
      modifies `cursorX, `cursorY, `dirtyStartX, `dirtyEndX
      ensures Core() && Synced()
      ensures View() == ExecCursorMove(old(View()), a, inputData[0])
    {
      CursorMoveIs(View(), a, inputData[0]);
      hide *;
      if a == CursorLeft {
        Left();
      } else if a == CursorDown {
        Down();
      } else if a == CursorRight {
        Right();
      } else {
        Up();
      }
    }

    method PerformCursorMove(a: Action)
      requires Ready() && IsCursorMove(a) && ActionOk(View(), a) && inputData != []
      modifies `cursorX, `cursorY, `saveX, `saveY, `saveAttrib, `modeFlags, `scrollTop, `scrollBot, `param, `display,
               `overlay, `pendingScroll, `dirtyStartX, `dirtyEndX
      ensures Core() && Synced()
      ensures View() == ExecCursorMove(old(View()), a, inputData[0])
    {
      hide *;
      CursorMoveIs(View(), a, inputData[0]);
      if a == CursorLeft || a == CursorDown || a == CursorRight || a == CursorUp {
        PerformArrow(a);
      } else if a == CursorPosition {
        Position();
      } else if a == RestoreCursor {
        RecallCursor();
      } else if a == SaveCursor {
        RememberCursor();
      } else if a == SetMargins {
        ChangeMargins();
      } else if a == Vt52CursorX {
        Vt52Column();
      } else {
        Vt52Row();
      }
    }

    method PerformParam(a: Action)
      requires Ready() && inputData != [] && IsParam(a)
      modifies `nparam, `param, `qMode, `gotParam, `quoteMode, `tabStops, `modeFlags, `out, `currentState, `fgColor,
               `bgColor, `cursorX, `cursorY, `dirtyStartX, `dirtyEndX
      ensures Core() && Synced()
      ensures View() == ExecSetting(old(View()), a, inputData[0])
    {
      hide View, Core, Synced, Bounds, IsParam, ExecSetting, DoClearParam, DoParamDigit, DoSetTab, DoClearTab;
      ParamIs(View(), a, inputData[0]);
      if a == NoAction {
      } else if a == SetQMode {
        MarkPrivate();
      } else if a == SetQuoteMode {
        MarkQuoted();
      } else if a == ClearParam {
        ForgetParams();
      } else if a == ParamDigit {
        AddDigit();
      } else if a == NextParam {
        AdvanceParam();
      } else if a == SetTab {
        AddTabStop();
      } else {
        RemoveTabStop();
      }
    }

    method PerformReply(a: Action)
      requires Ready() && inputData != [] && IsReply(a)
      modifies `out
      ensures Core() && Synced()
      ensures View() == ExecSetting(old(View()), a, inputData[0])
    {
      hide *;
      ReadyMeans();
      ReplyIs(View(), a, inputData[0]);
      if a == Bell {
        Emit(BellRung);
      } else if a == DeviceAttrib {
        Emit(DeviceAttributes());
      } else if a == RequestParam {
        Emit(ParameterReport(param[0] + 2));
      } else if a == StatusReport {
        ReportStatus();
      } else {
        Emit(Vt52Identity());
      }
    }

    method PerformMode(a: Action)
      requires Ready() && inputData != []
      requires !IsEdit(a) && !IsCursorMove(a) && !IsParam(a) && !IsReply(a) && a != NormalInput
      modifies `nparam, `param, `qMode, `gotParam, `quoteMode, `tabStops, `modeFlags, `out, `currentState, `fgColor,
               `bgColor, `cursorX, `cursorY, `dirtyStartX, `dirtyEndX
      ensures Core() && Synced()
      ensures View() == ExecSetting(old(View()), a, inputData[0])
    {
      ModeIs(View(), a, inputData[0]);
      hide View, Core, Synced, Bounds, IsEdit, IsCursorMove, IsParam, IsReply, ExecSetting, DoSetMode, DoClearMode,
        DoSetColors, RaiseFlags, LowerFlags;
      if a == KeypadNumeric {
        ClearModeFlag({KeyAppMode});
      } else if a == KeypadApplication {
        SetModeFlag({KeyAppMode});
      } else if a == SetMode {
        RaiseMode();
      } else if a == ClearMode {
        LowerMode();
      } else {
        ChangeColors();
      }
    }

    method PerformSetting(a: Action)
      requires Ready() && !IsEdit(a) && !IsCursorMove(a) && a != NormalInput && inputData != []
      modifies `nparam, `param, `qMode, `gotParam, `quoteMode, `tabStops, `modeFlags, `out, `currentState, `fgColor,
               `bgColor, `cursorX, `cursorY, `dirtyStartX, `dirtyEndX
      ensures Core() && Synced()
      ensures View() == ExecSetting(old(View()), a, inputData[0])
    {
      hide *;
      if IsParam(a) {
        PerformParam(a);
      } else if IsReply(a) {
        PerformReply(a);
      } else {
        PerformMode(a);
      }
    }

    // Every action except normal_input.
    method Perform(a: Action)
      requires Ready() && ActionOk(View(), a) && a != NormalInput && inputData != []
      modifies this, text, color
      ensures Core() && Synced() && inputData == old(inputData)
      ensures View() == Exec(old(View()), a, inputData[0])
    {
      hide View, Core, Synced, Bounds, ExecEdit, ExecCursorMove, ExecSetting, ActionOk;
      if IsEdit(a) {
        PerformEdit(a);
      } else if IsCursorMove(a) {
        PerformCursorMove(a);
      } else {
        PerformSetting(a);
      }
    }

    // Moves off the pending position past the right edge.
    method LeaveEdge()
      requires Ready()
      modifies `screen, `pendingScroll, `linenumbers, `dirtyStartX, `dirtyEndX, `cursorX, `cursorY, text, color
      ensures Core() && Synced()
      ensures View() == Wrap(old(View()))
    {
      if cursorX >= width {
        if NoEolWrap in modeFlags {
          cursorX := width - 1;
        } else {
          NextRow();
        }
      }
    }

    // How many input bytes the batch takes, and how many of them fit on the line.
    method MeasureRun() returns (n: nat, taken: nat)
      requires Ready() && View().cx < View().w && inputData != [] && inputData[0] > 31
      ensures 1 <= n <= taken <= |inputData| && Printable(inputData[..taken])
      ensures n == Min(taken, View().w - View().cx)
      ensures NoEolWrap !in View().modes ==> n == taken
      ensures NoEolWrap in View().modes ==> taken == |inputData| || inputData[taken] < 32
    {
      n := 0;
      if NoEolWrap in modeFlags {
        while n < |inputData| && inputData[n] > 31
          invariant n <= |inputData| && Printable(inputData[..n])
        {
          n := n + 1;
        }
        taken := n;
        if cursorX + n >= width { n := width - cursorX; }
      } else {
        while n < |inputData| && inputData[n] > 31 && cursorX + n < width
          invariant n <= |inputData| && cursorX + n <= width && Printable(inputData[..n])
        {
          n := n + 1;
        }
        taken := n;
      }
    }

    // Writes the batch and takes it off the input, but for its last byte.
    method TakeRun() returns (ghost n: nat, ghost taken: nat)
      requires Ready() && View().cx < View().w && inputData != [] && inputData[0] > 31
      modifies `inputData, `screen, `cursorX, `dirtyStartX, `dirtyEndX, text, color
      ensures Core() && Synced()
      ensures 1 <= n <= taken <= |old(inputData)| && inputData == old(inputData)[taken - 1..]
      ensures Printable(old(inputData)[..taken]) && View() == Put(old(View()), old(inputData)[..n])
      ensures n == Min(taken, old(View()).w - old(View()).cx)
      ensures if NoEolWrap in old(View()).modes then taken == |old(inputData)| || old(inputData)[taken] < 32
              else n == taken
    {
      hide Core, Synced, View, Put, Bounds;
      var fit, all := MeasureRun();
      n, taken := fit, all;
      PutRun(fit);
      inputData := inputData[all - 1..];
    }

    /** normal_input: takes a run of printing characters in one batch. The result is that of
        feeding the bytes one at a time. */
    method PrintInput() returns (ghost taken: nat)
      requires Valid() && inputData != [] && IsNormal(View().state)
      modifies `inputData, `screen, `pendingScroll, `linenumbers, `dirtyStartX, `dirtyEndX, `cursorX, `cursorY,
               text, color
      ensures Core() && Synced()
      ensures 1 <= taken <= |old(inputData)| && inputData == old(inputData)[taken - 1..]
      ensures IsBatch(old(View()), old(inputData), taken, View())
    {
      taken := 1;
      ghost var v, bs := View(), inputData;
      hide *;
      ValidMeans();
      if inputData[0] < 32 {
        NoBatch(v, bs);
        return;
      }
      WrapLeaves(v);
      LeaveEdge();
      ReadyAgain();
      ghost var n;
      n, taken := TakeRun();
      BatchTaken(v, bs, n, taken);
    }

    static lemma NoBatch(v: Vt, bs: seq<Byte>)
      requires bs != [] && bs[0] < 32
      ensures IsBatch(v, bs, 1, v) && bs == bs[0..]
    {
    }

    static lemma WrapLeaves(v: Vt)
      requires WF(v)
      ensures Bounds(Wrap(v)) && Wrap(v).w == v.w && Wrap(v).modes == v.modes && Wrap(v).cx < Wrap(v).w
    {
      WrapKeepsInvariant(v);
      hide Wrap;
    }

    // The table search of ProcessInput.
    method FindOption(t: seq<StateOption>, b: Byte) returns (o: StateOption)
      requires t != [] && t[|t| - 1].byte == -1
      ensures o == Pick(t, b)
    {
      var i := 0;
      while t[i].byte != -1 && t[i].byte != b
        invariant 0 <= i < |t|
        invariant forall j :: 0 <= j < i ==> t[j].byte != -1 && t[j].byte != b
        decreases |t| - i
      {
        i := i + 1;
      }
      PickAt(t, b, i);
      o := t[i];
    }

    // The state changes before the action, so that the action may redirect it.
    method EnterNext(next: State)
      requires Core() && Synced()
      modifies `currentState
      ensures Core() && Synced() && View() == old(View()).(state := next)
    {
      currentState := next;
    }

    method PrintRoundOf()
      requires Valid() && inputData != [] && RunOk(View(), false, inputData)
      requires Lookup(View().state, inputData[0]).action == NormalInput
      modifies this, text, color
      ensures Valid() && |inputData| < |old(inputData)| && RunOk(View(), false, inputData)
      ensures Run(View(), false, inputData).vt == Run(old(View()), false, old(inputData)).vt
    {
      ghost var v, bs := View(), inputData;
      hide *;
      ValidMeans();
      NormalHere(v.state, bs[0]);
      ghost var taken := PrintInput();
      PrintRound(v, bs, taken, View());
      inputData := inputData[1..];
      DropLast(bs, taken);
      ValidAgain();
    }

    static lemma NormalHere(s: State, b: Byte)
      requires Lookup(s, b).action == NormalInput
      ensures IsNormal(s)
    {
      LookupEntry(s, b);
      hide Lookup;
    }

    static lemma DropLast(bs: seq<Byte>, taken: nat)
      requires 1 <= taken <= |bs|
      ensures bs[taken - 1..] != [] && bs[taken - 1..][1..] == bs[taken..]
    {
    }

    method ActionRound(o: StateOption)
      requires Valid() && inputData != [] && RunOk(View(), false, inputData)
      requires o == Lookup(View().state, inputData[0]) && o.action != NormalInput
      modifies this, text, color
      ensures Valid() && |inputData| < |old(inputData)| && RunOk(View(), false, inputData)
      ensures Run(View(), false, inputData).vt == Run(old(View()), false, old(inputData)).vt
    {
      ghost var v, bs := View(), inputData;
      ghost var v1 := v.(state := o.next);
      hide *;
      ValidMeans();
      OtherRound(v, bs, o, v1);
      EnterNext(o.next);
      ReadyAgain();
      Perform(o.action);
      inputData := inputData[1..];
      ValidAgain();
    }

    // One round of the input loop: at least one byte is taken, and the rest of the input
    // leads where the whole input did.
    method InputRound()
      requires Valid() && inputData != [] && RunOk(View(), false, inputData)
      modifies this, text, color
      ensures Valid() && |inputData| < |old(inputData)| && RunOk(View(), false, inputData)
      ensures Run(View(), false, inputData).vt == Run(old(View()), false, old(inputData)).vt
    {
      var o := FindOption(Table(currentState), inputData[0]);
      assert o == Lookup(View().state, inputData[0]);
      hide Core, Synced, View, Run, RunOk, WF;
      if o.action == NormalInput {
        PrintRoundOf();
      } else {
        ActionRound(o);
      }
    }

    // ----- Public interface -----

    /** Feeds the terminal. All of the input is consumed; the terminal is the one the plain
        model reaches byte by byte; and unless updates are deferred the display shows it. */
    method ProcessInput(data: seq<Byte>)
      requires Valid() && RunOk(View(), false, data)
      modifies this, text, color
      ensures Valid() && inputData == []
      ensures View() == Run(old(View()), false, data).vt
      ensures DeferUpdate !in modeFlags ==> pendingScroll == 0 && Shows(display, screen, width, height)
    {
      inputData := data;
      while inputData != []
        invariant Valid() && RunOk(View(), false, inputData)
        invariant Run(View(), false, inputData).vt == Run(old(View()), false, data).vt
        decreases |inputData|
      {
        InputRound();
      }
      if DeferUpdate !in modeFlags || pendingScroll > scrollBot - scrollTop {
        ReadyDraws();
        UpdateChanges();
      }
    }

    method Update()
      requires Drawable() && WF(View())
      modifies `display, `pendingScroll, `overlay, `dirtyStartX, `dirtyEndX
      ensures Valid() && View() == old(View()) && pendingScroll == 0 && Shows(display, screen, width, height)
    {
      UpdateChanges();
    }

    // Replaces all mode flags. Switching text-only mode on needs a settled display.
    method ReplaceModes(flags: set<Flag>)
      requires Valid() && (TextOnly in flags ==> pendingScroll == 0)
      modifies `modeFlags
      ensures Valid() && View() == old(View()).(modes := flags)
    {
      modeFlags := flags;
    }

    /** The window system has lost a rectangle of the display (it now holds `damaged`, which is
        unchanged elsewhere): the rectangle is redrawn. With a scroll still owed this is not enough
        for every rectangle; ExposureExactly says for which it is. */
    method ExposeArea(x: int, y: int, w: int, h: int, damaged: Grid)
      requires Valid() && IsGrid(damaged, MAX_WIDTH, MAX_HEIGHT)
      requires 0 <= x && 1 <= w && x + w <= MAX_WIDTH && 0 <= y && 0 <= h && y + h <= MAX_HEIGHT
      requires LostOnly(display, damaged, x, y, w, h)
      requires ExposureSafe(dirtyStartX, dirtyEndX, width, height, Debt(), x, y, w, h)
      modifies `display, `pendingScroll, `overlay, `dirtyStartX, `dirtyEndX
      ensures Valid() && View() == old(View())
      ensures DeferUpdate !in modeFlags ==> pendingScroll == 0 && Shows(display, screen, width, height)
    {
      MarkExposed(x, y, w, h, damaged);
      if DeferUpdate !in modeFlags {
        ReadyDraws();
        UpdateChanges();
      }
    }

    method MarkExposed(x: int, y: int, w: int, h: int, damaged: Grid)
      requires Valid() && IsGrid(damaged, MAX_WIDTH, MAX_HEIGHT)
      requires 0 <= x && 1 <= w && x + w <= MAX_WIDTH && 0 <= y && 0 <= h && y + h <= MAX_HEIGHT
      requires LostOnly(display, damaged, x, y, w, h)
      requires ExposureSafe(dirtyStartX, dirtyEndX, width, height, Debt(), x, y, w, h)
      modifies `display, `dirtyStartX, `dirtyEndX
      ensures Valid() && View() == old(View())
    {
      SafeExposure(screen, display, damaged, dirtyStartX, dirtyEndX, width, height, Debt(), x, y, w, h);
      hide InSync, ExposureSafe, LostOnly;
      MarkRows(x, y, w, h);
      display := damaged;
    }

    // The loop over the exposed rows.
    method MarkRows(x: int, y: int, w: int, h: int)
      requires Shape() && DamageOk(dirtyStartX, dirtyEndX)
      requires 0 <= x && 1 <= w && x + w <= MAX_WIDTH && 0 <= y && 0 <= h && y + h <= MAX_HEIGHT
      modifies `dirtyStartX, `dirtyEndX
      ensures dirtyStartX == MarkedStart(old(dirtyStartX), x, y, h)
      ensures dirtyEndX == MarkedEnd(old(dirtyEndX), x + w - 1, y, h)
    {
      var i := 0;
      while i < h
        invariant 0 <= i <= h && DamageOk(dirtyStartX, dirtyEndX)
        invariant dirtyStartX == MarkedStart(old(dirtyStartX), x, y, i)
        invariant dirtyEndX == MarkedEnd(old(dirtyEndX), x + w - 1, y, i)
      {
        ChangedLine(i + y, x, x + w - 1);
        i := i + 1;
      }
    }

    // The two clears of ResizeTerminal: everything outside the common part is blanked.
    method ClearOutside(w: int, h: int)
      requires Shape() && Permutation(linenumbers) && DamageOk(dirtyStartX, dirtyEndX)
      requires 2 <= w < MAX_WIDTH && 2 <= h <= MAX_HEIGHT
      modifies `dirtyStartX, `dirtyEndX, text, color
      ensures forall y, x :: 0 <= y < MAX_HEIGHT && 0 <= x < MAX_WIDTH ==>
                Stored(y, x) == if y < h && x < w then old(Stored(y, x))
                                else Cell(SPACE, CalcColor(fgColor, bgColor, modeFlags))
      ensures DamageOk(dirtyStartX, dirtyEndX)
      ensures dirtyStartX == CutStart(old(dirtyStartX), w, h) && dirtyEndX == CutEnd(old(dirtyEndX), w, h)
    {
      ClearStorage(w, 0, MAX_WIDTH - 1, MAX_HEIGHT - 1);
      ClearStorage(0, h, w - 1, MAX_HEIGHT - 1);
    }

    // What is owed once the size has changed.
    ghost function ResizedDebt(h: int): Owed
      reads `scrollTop, `pendingScroll
    {
      Owed(if scrollTop >= h then 0 else scrollTop, h - 1, pendingScroll)
    }

    /** Resizing keeps the common part of the screen. The margins change with it, so a scroll that is
        still owed may mean something else for the new region: the next refresh is right if the rows
        are shown (ResizeShownExactly), and the terminal is ready for more if they are kept
        (ResizeSyncExactly, LaterShownExactly). */
    method ResizeTerminal(w: int, h: int)
      requires Valid() && 2 <= w < MAX_WIDTH && 2 <= h <= MAX_HEIGHT
      requires currentState == Vt52CursorXState ==> param[0] < h
      modifies `width, `height, `scrollTop, `scrollBot, `cursorX, `cursorY, `screen, `dirtyStartX, `dirtyEndX,
               text, color
      ensures Core() && WF(View()) && View() == Resized(old(View()), w, h)
      ensures old(RowsShown(Debt(), ResizedDebt(h), Min(height, h))) ==> Drawable()
      ensures old(RowsKept(Debt(), ResizedDebt(h), Min(height, h))) ==> Valid()
    {
      hide *;
      ghost var v := View();
      ResizedBounds(v, w, h);
      ChangeSize(w, h);
      SizesAre(v, w, h);
      var cx := if width - 1 < cursorX then width - 1 else cursorX;
      var cy := if height - 1 < cursorY then height - 1 else cursorY;
      ghost var start, end := dirtyStartX, dirtyEndX;
      DamageIsOk();
      PlaceCursor(cx, cy);
      GrownStays(start, end);
      ReadyForAll();
    }

    // The cursor of the new size, and what the invariant says of it.
    lemma ResizedBounds(v: Vt, w: int, h: int)
      requires Valid() && v == View() && 2 <= w < MAX_WIDTH && 2 <= h <= MAX_HEIGHT
      requires currentState == Vt52CursorXState ==> param[0] < h
      ensures WF(Resized(v, w, h)) && 0 <= v.cx && 0 <= v.cy
      ensures MoveTo(Resized(v, w, h).(cx := v.cx, cy := v.cy), Min(w - 1, v.cx), Min(h - 1, v.cy)) == Resized(v, w, h)
      ensures forall k, n: int :: Min(k, n) == if n < k then n else k
    {
    }

    lemma SizesAre(v: Vt, w: nat, h: nat)
      requires View() == Resized(v, w, h).(cx := v.cx, cy := v.cy)
      ensures width == w && height == h && cursorX == v.cx && cursorY == v.cy
    {
    }

    lemma DamageIsOk()
      requires Core()
      ensures DamageOk(dirtyStartX, dirtyEndX)
      ensures Synced() ==> InSync(screen, display, dirtyStartX, dirtyEndX, width, height, Debt())
      ensures DueRight() ==> RefreshRight(screen, display, dirtyStartX, dirtyEndX, width, height, Debt())
      ensures Synced() || DueRight() ==> TextOnly !in modeFlags || pendingScroll == 0
    {
      hide InSync, RefreshRight;
    }

    lemma ReadyForAll()
      requires Core() && WF(View())
      ensures TextOnly !in modeFlags || pendingScroll == 0 ==>
                RefreshRight(screen, display, dirtyStartX, dirtyEndX, width, height, Debt()) ==> Drawable()
      ensures TextOnly !in modeFlags || pendingScroll == 0 ==>
                InSync(screen, display, dirtyStartX, dirtyEndX, width, height, Debt()) ==> Valid()
    {
      hide InSync, RefreshRight;
    }

    // The storage and the damage before the size fields change.
    method PrepareResize(w: int, h: int)
      requires Valid() && 2 <= w < MAX_WIDTH && 2 <= h <= MAX_HEIGHT
      modifies `dirtyStartX, `dirtyEndX, text, color
      ensures DamageOk(dirtyStartX, dirtyEndX)
      ensures var w0, h0 := Min(width, w), Min(height, h);
              dirtyStartX == CutStart(old(dirtyStartX), w0, h0) && dirtyEndX == CutEnd(old(dirtyEndX), w0, h0)
      ensures var g := old(Resized(View(), w, h)).grid;
              && (forall y, x :: 0 <= y < h && 0 <= x < w ==> g[y][x] == Stored(y, x))
              && Resizes(screen, g, display, old(dirtyStartX), old(dirtyEndX), width, height, w, h, Debt())
    {
      ghost var g := Resized(View(), w, h).grid;
      assert Mirrors();
      ghost var w0, h0 := Min(width, w), Min(height, h);
      forall y, x | 0 <= y < h && 0 <= x < w
        ensures g[y][x] == if y < h0 && x < w0 then Stored(y, x) else Cell(SPACE, Pen(View()))
      {
      }
      hide InSync, CutStart, CutEnd;
      ClearOutside(Min(width, w), Min(height, h));
    }

    method ChangeSize(w: int, h: int)
      requires Valid() && 2 <= w < MAX_WIDTH && 2 <= h <= MAX_HEIGHT
      modifies `width, `height, `scrollTop, `scrollBot, `screen, `dirtyStartX, `dirtyEndX, text, color
      ensures Core()
      ensures View() == Resized(old(View()), w, h).(cx := old(View()).cx, cy := old(View()).cy)
      ensures old(RowsShown(Debt(), ResizedDebt(h), Min(height, h))) ==> DueRight()
      ensures old(RowsKept(Debt(), ResizedDebt(h), Min(height, h))) ==> Synced()
    {
      hide *;
      ghost var v := View();
      ghost var g := Resized(v, w, h).grid;
      ResizeMeans(w, h);
      PrepareResize(w, h);
      SizeLemmas(w, h, old(dirtyStartX), old(dirtyEndX), g);
      SetSize(w, h, g);
      NewSize(w, h);
    }

    lemma ResizeMeans(w: int, h: int)
      requires Valid() && 2 <= w < MAX_WIDTH && 2 <= h <= MAX_HEIGHT
      ensures Shape() && Permutation(linenumbers) && IsGrid(display, MAX_WIDTH, MAX_HEIGHT)
      ensures 2 <= width < MAX_WIDTH && 2 <= height <= MAX_HEIGHT && 0 <= scrollTop && scrollBot < height
      ensures 0 <= ResizedDebt(h).top && ResizedDebt(h).bot < h && (TextOnly in modeFlags ==> pendingScroll == 0)
      ensures var v := View();
              Resized(v, w, h).(cx := v.cx, cy := v.cy)
                == v.(w := w, h := h, grid := Resized(v, w, h).grid, bot := h - 1,
                      top := if v.top >= h then 0 else v.top)
    {
      hide InSync;
    }

    // The invariant at the new size.
    lemma NewSize(w: int, h: int)
      requires Shape() && Permutation(linenumbers) && DamageOk(dirtyStartX, dirtyEndX)
      requires width == w && height == h && 2 <= w < MAX_WIDTH && 2 <= h <= MAX_HEIGHT
      requires 0 <= Debt().top && Debt().bot < h
      requires IsGrid(screen, w, h) && IsGrid(display, MAX_WIDTH, MAX_HEIGHT)
      requires forall y, x :: 0 <= y < h && 0 <= x < w ==> screen[y][x] == Stored(y, x)
      ensures Core()
      ensures TextOnly !in modeFlags || pendingScroll == 0 ==>
                RefreshRight(screen, display, dirtyStartX, dirtyEndX, w, h, Debt()) ==> DueRight()
      ensures TextOnly !in modeFlags || pendingScroll == 0 ==>
                InSync(screen, display, dirtyStartX, dirtyEndX, w, h, Debt()) ==> Synced()
    {
      hide InSync, RefreshRight;
      assert Mirrors();
    }

    // What the lemmas about a resize say of this one.
    lemma SizeLemmas(w: int, h: int, start: seq<int>, end: seq<int>, g: Grid)
      requires Shape() && 2 <= width < MAX_WIDTH && 2 <= height <= MAX_HEIGHT && 0 <= scrollTop && scrollBot < height
      requires 2 <= w < MAX_WIDTH && 2 <= h <= MAX_HEIGHT
      requires Resizes(screen, g, display, start, end, width, height, w, h, Debt())
      requires dirtyStartX == CutStart(start, Min(width, w), Min(height, h))
      requires dirtyEndX == CutEnd(end, Min(width, w), Min(height, h))
      ensures IsGrid(g, w, h) && IsGrid(display, MAX_WIDTH, MAX_HEIGHT) && DamageOk(dirtyStartX, dirtyEndX)
      ensures RowsShown(Debt(), ResizedDebt(h), Min(height, h)) ==>
                RefreshRight(g, display, dirtyStartX, dirtyEndX, w, h, ResizedDebt(h))
      ensures RowsKept(Debt(), ResizedDebt(h), Min(height, h)) ==>
                InSync(g, display, dirtyStartX, dirtyEndX, w, h, ResizedDebt(h))
    {
      CutDamage(start, end, Min(width, w), Min(height, h));
      hide RowsShown, RowsKept, RefreshRight, InSync, CutStart, CutEnd;
      if RowsShown(Debt(), ResizedDebt(h), Min(height, h)) {
        ResizeShown(screen, g, display, start, end, width, height, w, h, Debt(), ResizedDebt(h));
      }
      if RowsKept(Debt(), ResizedDebt(h), Min(height, h)) {
        ResizeSynced(screen, g, display, start, end, width, height, w, h, Debt(), ResizedDebt(h));
      }
    }

    method SetSize(w: int, h: int, ghost g: Grid)
      requires 2 <= w && 2 <= h
      modifies `width, `height, `scrollTop, `scrollBot, `screen
      ensures width == w && height == h && Debt() == old(ResizedDebt(h)) && screen == g
      ensures View() == old(View()).(w := w, h := h, grid := g, bot := h - 1,
                                     top := if old(View()).top >= h then 0 else old(View()).top)
    {
      width := w;
      screen := g;
      hide View;
      SetHeight(h);
    }

    method SetHeight(h: int)
      requires 2 <= h
      modifies `height, `scrollTop, `scrollBot
      ensures height == h && Debt() == old(ResizedDebt(h))
      ensures View() == old(View()).(h := h, bot := h - 1, top := if old(View()).top >= h then 0 else old(View()).top)
    {
      height := h;
      scrollBot := height - 1;
      if scrollTop >= height { scrollTop := 0; }
    }

    constructor (w: nat, h: nat, surface: Grid)
      requires 2 <= w < MAX_WIDTH && 2 <= h <= MAX_HEIGHT && IsGrid(surface, MAX_WIDTH, MAX_HEIGHT)
      ensures Valid() && fresh(text) && fresh(color)
      ensures View() == Initial(w, h, saveAttrib)
    {
      width, height := w, h;
      scrollTop, scrollBot := 0, 0;
      text := new Byte[MAX_HEIGHT, MAX_WIDTH];
      color := new Attr[MAX_HEIGHT, MAX_WIDTH];
      linenumbers := [];
      // make it draw the whole terminal to start
      dirtyStartX := seq(MAX_HEIGHT, i => 0);
      dirtyEndX := seq(MAX_HEIGHT, i => MAX_WIDTH - 1);
      pendingScroll := 0;
      cursorX, cursorY := 0, 0;
      saveX, saveY := 0, 0;
      saveAttrib := *;
      fgColor, bgColor := 7, 0;
      modeFlags := {};
      tabStops := [];
      currentState := NormalState;
      nparam, param := 0, seq(MAX_PARAMS, i => 0);
      inputData := [];
      qMode, gotParam, quoteMode := false, false, false;
      display := surface;
      overlay := Hidden;
      out := [];
      screen := [];
      new;
      ResetAll();
    }
  }

  /** A whole session: the host's output arrives in chunks, one ProcessInput call each. The
      terminal is the one the plain model reaches, whole stream at once if line wrap is on at
      the cuts, and the display shows its screen. */
  method Session(t: GTerm, chunks: seq<seq<Byte>>)
    requires t.Valid() && ChunksOk(t.View(), chunks)
    requires DeferUpdate !in t.modeFlags && t.pendingScroll == 0 && Shows(t.display, t.screen, t.width, t.height)
    modifies t, t.text, t.color
    ensures t.Valid() && t.View() == RunChunks(old(t.View()), chunks)
    ensures WrapOnAtCuts(old(t.View()), chunks) ==> t.View() == Run(old(t.View()), false, Flatten(chunks)).vt
    ensures DeferUpdate !in t.modeFlags ==> Shows(t.display, t.screen, t.width, t.height)
  {
    ghost var v := t.View();
    var i := 0;
    while i < |chunks|
      invariant 0 <= i <= |chunks| && t.Valid() && ChunksOk(t.View(), chunks[i..])
      invariant RunChunks(t.View(), chunks[i..]) == RunChunks(v, chunks)
      invariant DeferUpdate !in t.modeFlags ==> Shows(t.display, t.screen, t.width, t.height)
    {
      assert chunks[i..][1..] == chunks[i + 1..];
      t.ProcessInput(chunks[i]);
      i := i + 1;
    }
    if WrapOnAtCuts(v, chunks) {
      ChunkInvariance(v, chunks);
    }
  }
}
