/** What control sequences do to the cursor and to each cell, said of the bytes that arrive and the
    fields they leave. */
module TermLaws {
  import opened Common
  import opened TermTypes
  import opened TermTables
  import opened TermModel
  import opened TermTheory
  import opened TermChunks
  import opened TermCodes

  function After(v: Vt, bs: seq<Byte>): Vt {
    Run(v, false, bs).vt
  }

  // The terminal waits for a character or a sequence.
  ghost predicate Waiting(v: Vt) {
    WF(v) && v.state == NormalState
  }

  lemma WaitingMeans(v: Vt)
    requires Waiting(v)
    ensures v.state == NormalState && |v.params| == MAX_PARAMS && WF(v) && IsGrid(v.grid, v.w, v.h)
  {
  }

  lemma AfterIs(v: Vt, bs: seq<Byte>)
    ensures After(v, bs) == Run(v, false, bs).vt
  {
  }

  // The current colours and style.
  function Brush(v: Vt): Attr {
    Attr(v.fg, v.bg, v.modes * {Bold, Blink, Underline, Inverse})
  }

  function BlankCell(v: Vt): Cell {
    Cell(32, Brush(v))
  }

  lemma PenIsBrush(v: Vt)
    requires WF(v)
    ensures Pen(v) == Brush(v)
  {
  }

  // Nothing but the grid has changed.
  ghost predicate OnlyGrid(v: Vt, r: Vt) {
    r == v.(grid := r.grid) && IsGrid(r.grid, v.w, v.h)
  }

  // ----- Where a command goes -----

  lemma ExecEdited(u: Vt, a: Action, b: Byte)
    requires IsEdit(a)
    ensures Exec(u, a, b) == ExecEdit(u, a)
  {
    hide ExecEdit, ExecCursorMove, ExecSetting, IsEdit;
  }

  lemma ExecMoved(u: Vt, a: Action, b: Byte)
    requires IsCursorMove(a)
    ensures Exec(u, a, b) == ExecCursorMove(u, a, b)
  {
    hide ExecEdit, ExecCursorMove, ExecSetting;
  }

  lemma EraseKinds()
    ensures IsEdit(EraseDisplay) && IsEdit(EraseLine) && IsEdit(EraseChar) && IsEdit(Reset) && IsEdit(ScreenAlign)
    ensures IsEdit(InsertLine) && IsEdit(DeleteLine) && IsEdit(InsertChar) && IsEdit(DeleteChar)
  {
  }

  lemma FeedKinds()
    ensures IsEdit(LF) && IsEdit(CR) && IsEdit(FF) && IsEdit(BS) && IsEdit(Tab)
    ensures IsEdit(IndexDown) && IsEdit(IndexUp) && IsEdit(NextLine)
  {
  }

  lemma MoveKinds()
    ensures IsCursorMove(CursorUp) && IsCursorMove(CursorDown) && IsCursorMove(CursorLeft) && IsCursorMove(CursorRight)
    ensures IsCursorMove(CursorPosition) && IsCursorMove(SetMargins) && IsCursorMove(SaveCursor)
    ensures IsCursorMove(RestoreCursor) && IsCursorMove(Vt52CursorX) && IsCursorMove(Vt52CursorY)
  {
  }

  // The terminal with its parameters read.
  lemma GivenIs(v: Vt, ps: seq<nat>, private: bool)
    requires Waiting(v) && |ps| <= MAX_PARAMS
    ensures var u := Given(v, ps, private);
            && WF(u) && u.state == NormalState && P(u, 0) == Arg(ps, 0) && P(u, 1) == Arg(ps, 1)
            && Count(u) == Times(ps) && |v.params| == MAX_PARAMS
            && u.qMode == private && u == v.(params := u.params, nparam := u.nparam, qMode := private,
                                             gotParam := u.gotParam)
            && BlankCell(u) == BlankCell(v)
  {
  }

  lemma AsideGrid(v: Vt, u: Vt, r: Vt)
    requires u == v.(params := u.params, nparam := u.nparam, qMode := u.qMode, gotParam := u.gotParam)
    requires OnlyGrid(u, r)
    ensures OnlyGrid(v, Aside(r, v)) && Aside(r, v).grid == r.grid && IsGrid(r.grid, v.w, v.h)
  {
  }

  lemma AsideCursor(v: Vt, u: Vt, x: int, y: int)
    requires u == v.(params := u.params, nparam := u.nparam, qMode := u.qMode, gotParam := u.gotParam)
    ensures Aside(u.(cx := x, cy := y), v) == v.(cx := x, cy := y)
  {
  }

  // ----- The cursor -----

  lemma Arrows(u: Vt, b: Byte)
    ensures Exec(u, CursorUp, b) == u.(cx := u.cx, cy := Max(u.cy - Count(u), 0))
    ensures Exec(u, CursorDown, b) == u.(cx := u.cx, cy := Min(u.cy + Count(u), u.h - 1))
    ensures Exec(u, CursorRight, b) == u.(cx := Min(u.cx + Count(u), u.w - 1), cy := u.cy)
    ensures Exec(u, CursorLeft, b) == u.(cx := Max(u.cx - Count(u), 0), cy := u.cy)
  {
    hide Exec, Count, IsCursorMove;
    MoveKinds();
    ExecMoved(u, CursorUp, b);
    ExecMoved(u, CursorDown, b);
    ExecMoved(u, CursorRight, b);
    ExecMoved(u, CursorLeft, b);
  }

  lemma ArrowEntries()
    ensures Lookup(BracketState, 'A' as int) == StateOption('A' as int, CursorUp, NormalState)
    ensures Lookup(BracketState, 'B' as int) == StateOption('B' as int, CursorDown, NormalState)
    ensures Lookup(BracketState, 'C' as int) == StateOption('C' as int, CursorRight, NormalState)
    ensures Lookup(BracketState, 'D' as int) == StateOption('D' as int, CursorLeft, NormalState)
  {
    hide Lookup;
    Command(3, 'A' as int);
    Command(1, 'B' as int);
    Command(2, 'C' as int);
    Command(0, 'D' as int);
  }

  /** ESC [ n A, B, C and D: up, down, right and left by n, as far as the screen goes. */
  lemma CursorKeys(v: Vt, ps: seq<nat>)
    requires Waiting(v) && |ps| <= MAX_PARAMS
    ensures Aside(After(v, Csi(ps, 'A' as int)), v) == v.(cy := Max(v.cy - Times(ps), 0))
    ensures Aside(After(v, Csi(ps, 'B' as int)), v) == v.(cy := Min(v.cy + Times(ps), v.h - 1))
    ensures Aside(After(v, Csi(ps, 'C' as int)), v) == v.(cx := Min(v.cx + Times(ps), v.w - 1))
    ensures Aside(After(v, Csi(ps, 'D' as int)), v) == v.(cx := Max(v.cx - Times(ps), 0))
  {
    hide *;
    WaitingMeans(v);
    ArrowEntries();
    GivenIs(v, ps, false);
    var u := Given(v, ps, false);
    AfterIs(v, Csi(ps, 'A' as int));
    CsiRun(v, ps, 'A' as int, CursorUp);
    Arrows(u, 'A' as int);
    AsideCursor(v, u, v.cx, Max(v.cy - Times(ps), 0));
    AfterIs(v, Csi(ps, 'B' as int));
    CsiRun(v, ps, 'B' as int, CursorDown);
    Arrows(u, 'B' as int);
    AsideCursor(v, u, v.cx, Min(v.cy + Times(ps), v.h - 1));
    AfterIs(v, Csi(ps, 'C' as int));
    CsiRun(v, ps, 'C' as int, CursorRight);
    Arrows(u, 'C' as int);
    AsideCursor(v, u, Min(v.cx + Times(ps), v.w - 1), v.cy);
    AfterIs(v, Csi(ps, 'D' as int));
    CsiRun(v, ps, 'D' as int, CursorLeft);
    Arrows(u, 'D' as int);
    AsideCursor(v, u, Max(v.cx - Times(ps), 0), v.cy);
  }

  lemma Address(u: Vt, b: Byte)
    ensures Exec(u, CursorPosition, b)
         == u.(cx := Min(Max(P(u, 1), 1), u.w - 1) - 1,
               cy := Min(Max(P(u, 0), 1), u.h - 1) - 1 + if CursorRelative in u.modes then u.top else 0)
  {
    hide Exec, P, IsCursorMove;
    MoveKinds();
    ExecMoved(u, CursorPosition, b);
  }

  lemma AddressEntries()
    ensures Lookup(BracketState, 'H' as int) == StateOption('H' as int, CursorPosition, NormalState)
    ensures Lookup(BracketState, 'f' as int) == StateOption('f' as int, CursorPosition, NormalState)
  {
    hide Lookup;
    Command(4, 'H' as int);
    Command(5, 'f' as int);
  }

  /** ESC [ row ; column H, and f: the place is clamped, the last row and column excluded, and counted
      from the top margin in origin mode. */
  lemma CursorAddress(v: Vt, ps: seq<nat>, final: Byte)
    requires Waiting(v) && |ps| <= MAX_PARAMS && (final == 'H' as int || final == 'f' as int)
    ensures Aside(After(v, Csi(ps, final)), v)
         == v.(cx := Min(Max(Arg(ps, 1), 1), v.w - 1) - 1,
               cy := Min(Max(Arg(ps, 0), 1), v.h - 1) - 1 + if CursorRelative in v.modes then v.top else 0)
  {
    hide *;
    WaitingMeans(v);
    AfterIs(v, Csi(ps, final));
    AddressEntries();
    GivenIs(v, ps, false);
    var u := Given(v, ps, false);
    CsiRun(v, ps, final, CursorPosition);
    Address(u, final);
    AsideCursor(v, u, Min(Max(Arg(ps, 1), 1), v.w - 1) - 1,
                Min(Max(Arg(ps, 0), 1), v.h - 1) - 1 + if CursorRelative in v.modes then v.top else 0);
  }

  /** So the last column cannot be addressed, nor, outside origin mode, the last row. */
  lemma LastPlaceExcluded(v: Vt, ps: seq<nat>)
    requires Waiting(v) && |ps| <= MAX_PARAMS
    ensures var r := After(v, Csi(ps, 'H' as int));
            r.cx < v.w - 1 && (CursorRelative !in v.modes ==> r.cy < v.h - 1)
  {
    CursorAddress(v, ps, 'H' as int);
    hide Run;
  }

  // ----- Erasing -----

  // A command that changes the grid only.
  lemma GridCommand(v: Vt, ps: seq<nat>, final: Byte, a: Action)
    requires Waiting(v) && |ps| <= MAX_PARAMS
    requires Lookup(BracketState, final) == StateOption(final, a, NormalState) && a != NormalInput
    requires OnlyGrid(Given(v, ps, false), Exec(Given(v, ps, false), a, final))
    ensures var r := Aside(After(v, Csi(ps, final)), v);
            OnlyGrid(v, r) && r.grid == Exec(Given(v, ps, false), a, final).grid && IsGrid(r.grid, v.w, v.h)
  {
    hide *;
    WaitingMeans(v);
    GivenIs(v, ps, false);
    AfterIs(v, Csi(ps, final));
    CsiRun(v, ps, final, a);
    AsideGrid(v, Given(v, ps, false), Exec(Given(v, ps, false), a, final));
  }

  // Whether the place is erased by parameter p.
  predicate Erased(v: Vt, p: int, x: int, y: int) {
    || (p == 0 && (y > v.cy || (y == v.cy && x >= v.cx)))
    || (p == 1 && (y < v.cy || (y == v.cy && x <= v.cx)))
    || p == 2
  }

  lemma SamePlace(v: Vt, ps: seq<nat>, p: int)
    ensures forall x, y :: Erased(Given(v, ps, false), p, x, y) == Erased(v, p, x, y)
  {
  }

  // The part of the grid in the rectangle is blank.
  lemma ClearCells(u: Vt, x1: int, y1: int, x2: int, y2: int)
    requires WF(u)
    ensures var r := Clear(u, x1, y1, x2, y2);
            && OnlyGrid(u, r) && Brush(r) == Brush(u) && WF(r)
            && forall y, x :: 0 <= y < u.h && 0 <= x < u.w ==>
                 r.grid[y][x] == if y1 <= y <= y2 && x1 <= x <= x2 then BlankCell(u) else u.grid[y][x]
  {
    PenIsBrush(u);
    hide Pen;
  }

  lemma GridSize(u: Vt)
    requires WF(u)
    ensures IsGrid(u.grid, u.w, u.h) && 0 <= u.cy < u.h && 0 <= u.cx <= u.w && u.w >= 2 && u.h >= 2
  {
  }

  lemma EraseAfterCells(u: Vt)
    requires WF(u)
    ensures var r := EraseAfter(u);
            && OnlyGrid(u, r)
            && forall y, x :: 0 <= y < u.h && 0 <= x < u.w ==>
                 r.grid[y][x] == if Erased(u, 0, x, y) then BlankCell(u) else u.grid[y][x]
  {
    hide Clear, WF, Brush;
    GridSize(u);
    ClearCells(u, u.cx, u.cy, u.w - 1, u.cy);
    ClearCells(Clear(u, u.cx, u.cy, u.w - 1, u.cy), 0, u.cy + 1, u.w - 1, u.h - 1);
  }

  lemma EraseBeforeCells(u: Vt)
    requires WF(u)
    ensures var r := EraseBefore(u);
            && OnlyGrid(u, r)
            && forall y, x :: 0 <= y < u.h && 0 <= x < u.w ==>
                 r.grid[y][x] == if Erased(u, 1, x, y) then BlankCell(u) else u.grid[y][x]
  {
    hide Clear, WF, Brush;
    GridSize(u);
    ClearCells(u, 0, u.cy, u.cx, u.cy);
    ClearCells(Clear(u, 0, u.cy, u.cx, u.cy), 0, 0, u.w - 1, u.cy - 1);
  }

  lemma EraseScreenCells(u: Vt, b: Byte)
    requires WF(u)
    ensures var r := Exec(u, EraseDisplay, b);
            && OnlyGrid(u, r)
            && forall y, x :: 0 <= y < u.h && 0 <= x < u.w ==>
                 r.grid[y][x] == if Erased(u, P(u, 0), x, y) then BlankCell(u) else u.grid[y][x]
  {
    hide Exec, EraseAfter, EraseBefore, Clear, IsEdit, P;
    EraseKinds();
    ExecEdited(u, EraseDisplay, b);
    GridSize(u);
    EraseAfterCells(u);
    EraseBeforeCells(u);
    ClearCells(u, 0, 0, u.w - 1, u.h - 1);
    hide WF, BlankCell;
  }

  /** ESC [ p J: from the cursor on for 0, up to the cursor for 1, everything for 2. */
  lemma EraseScreenLaw(v: Vt, ps: seq<nat>)
    requires Waiting(v) && |ps| <= MAX_PARAMS
    ensures var r := Aside(After(v, Csi(ps, 'J' as int)), v);
            && OnlyGrid(v, r)
            && forall y, x :: 0 <= y < v.h && 0 <= x < v.w ==>
                 r.grid[y][x] == if Erased(v, Arg(ps, 0), x, y) then BlankCell(v) else v.grid[y][x]
  {
    EraseEntries();
    hide *;
    WaitingMeans(v);
    GivenIs(v, ps, false);
    EraseScreenCells(Given(v, ps, false), 'J' as int);
    GridCommand(v, ps, 'J' as int, EraseDisplay);
    SamePlace(v, ps, Arg(ps, 0));
  }

  lemma EraseEntries()
    ensures Lookup(BracketState, 'J' as int) == StateOption('J' as int, EraseDisplay, NormalState)
    ensures Lookup(BracketState, 'K' as int) == StateOption('K' as int, EraseLine, NormalState)
    ensures Lookup(BracketState, 'X' as int) == StateOption('X' as int, EraseChar, NormalState)
  {
    hide Lookup;
    Command(16, 'J' as int);
    Command(17, 'K' as int);
    Command(22, 'X' as int);
  }

  lemma EraseRowCells(u: Vt, b: Byte)
    requires WF(u)
    ensures var r := Exec(u, EraseLine, b);
            && OnlyGrid(u, r)
            && forall y, x :: 0 <= y < u.h && 0 <= x < u.w ==>
                 r.grid[y][x] == if y == u.cy && Erased(u, P(u, 0), x, y) then BlankCell(u) else u.grid[y][x]
  {
    hide Exec, Clear, IsEdit, P;
    EraseKinds();
    ExecEdited(u, EraseLine, b);
    GridSize(u);
    ClearCells(u, u.cx, u.cy, u.w - 1, u.cy);
    ClearCells(u, 0, u.cy, u.cx, u.cy);
    ClearCells(u, 0, u.cy, u.w - 1, u.cy);
    hide WF, BlankCell;
  }

  /** ESC [ p K: the same, on the cursor row only. */
  lemma EraseRowLaw(v: Vt, ps: seq<nat>)
    requires Waiting(v) && |ps| <= MAX_PARAMS
    ensures var r := Aside(After(v, Csi(ps, 'K' as int)), v);
            && OnlyGrid(v, r)
            && forall y, x :: 0 <= y < v.h && 0 <= x < v.w ==>
                 r.grid[y][x] == if y == v.cy && Erased(v, Arg(ps, 0), x, y) then BlankCell(v) else v.grid[y][x]
  {
    EraseEntries();
    hide *;
    WaitingMeans(v);
    GivenIs(v, ps, false);
    EraseRowCells(Given(v, ps, false), 'K' as int);
    GridCommand(v, ps, 'K' as int, EraseLine);
    SamePlace(v, ps, Arg(ps, 0));
  }

  lemma EraseCharsCells(u: Vt, b: Byte)
    requires WF(u)
    ensures var r := Exec(u, EraseChar, b);
            && OnlyGrid(u, r)
            && forall y, x :: 0 <= y < u.h && 0 <= x < u.w ==>
                 r.grid[y][x] == if y == u.cy && u.cx <= x < u.cx + Count(u) then BlankCell(u) else u.grid[y][x]
  {
    hide Exec, Clear, IsEdit, Count;
    EraseKinds();
    ExecEdited(u, EraseChar, b);
    GridSize(u);
    ClearCells(u, u.cx, u.cy, u.cx + Min(Count(u), u.w - u.cx) - 1, u.cy);
    hide WF, BlankCell;
  }

  /** ESC [ n X: n characters from the cursor on. */
  lemma EraseCharsLaw(v: Vt, ps: seq<nat>)
    requires Waiting(v) && |ps| <= MAX_PARAMS
    ensures var r := Aside(After(v, Csi(ps, 'X' as int)), v);
            && OnlyGrid(v, r)
            && forall y, x :: 0 <= y < v.h && 0 <= x < v.w ==>
                 r.grid[y][x] == if y == v.cy && v.cx <= x < v.cx + Times(ps) then BlankCell(v) else v.grid[y][x]
  {
    EraseEntries();
    hide *;
    WaitingMeans(v);
    GivenIs(v, ps, false);
    EraseCharsCells(Given(v, ps, false), 'X' as int);
    GridCommand(v, ps, 'X' as int, EraseChar);
  }

  // ----- Inserting and deleting -----

  lemma ShiftEntries()
    ensures Lookup(BracketState, 'L' as int) == StateOption('L' as int, InsertLine, NormalState)
    ensures Lookup(BracketState, 'M' as int) == StateOption('M' as int, DeleteLine, NormalState)
    ensures Lookup(BracketState, '@' as int) == StateOption('@' as int, InsertChar, NormalState)
    ensures Lookup(BracketState, 'P' as int) == StateOption('P' as int, DeleteChar, NormalState)
  {
    hide Lookup;
    Command(18, 'L' as int);
    Command(14, 'M' as int);
    Command(21, '@' as int);
    Command(7, 'P' as int);
  }

  lemma ScrollCells(u: Vt, y1: int, n: int)
    requires WF(u) && 0 <= y1 && -(u.bot - y1 + 1) < n < u.bot - y1 + 1
    ensures var r := Scroll(u, y1, u.bot, n);
            && OnlyGrid(u, r)
            && forall y, x :: 0 <= y < u.h && 0 <= x < u.w ==>
                 r.grid[y][x] == if y < y1 || y > u.bot then u.grid[y][x]
                                 else if y1 <= y + n <= u.bot then u.grid[y + n][x] else BlankCell(u)
  {
    PenIsBrush(u);
    hide Pen, Brush;
  }

  lemma InsertLinesCells(u: Vt, b: Byte)
    requires WF(u)
    ensures var r := Exec(u, InsertLine, b);
            && OnlyGrid(u, r)
            && forall y, x :: 0 <= y < u.h && 0 <= x < u.w ==>
                 r.grid[y][x] == if y < u.cy || y > u.bot then u.grid[y][x]
                                 else if y - Count(u) >= u.cy then u.grid[y - Count(u)][x] else BlankCell(u)
  {
    hide Exec, Clear, Scroll, IsEdit, Count;
    EraseKinds();
    ExecEdited(u, InsertLine, b);
    GridSize(u);
    ClearCells(u, 0, u.cy, u.w - 1, u.bot);
    if Count(u) < u.bot - u.cy + 1 {
      ScrollCells(u, u.cy, -Count(u));
    }
    hide WF, BlankCell;
  }

  /** ESC [ n L and M: n lines are inserted or deleted at the cursor row, down to the bottom margin. */
  lemma InsertLinesLaw(v: Vt, ps: seq<nat>)
    requires Waiting(v) && |ps| <= MAX_PARAMS
    ensures var r := Aside(After(v, Csi(ps, 'L' as int)), v);
            && OnlyGrid(v, r)
            && forall y, x :: 0 <= y < v.h && 0 <= x < v.w ==>
                 r.grid[y][x] == if y < v.cy || y > v.bot then v.grid[y][x]
                                 else if y - Times(ps) >= v.cy then v.grid[y - Times(ps)][x] else BlankCell(v)
  {
    ShiftEntries();
    hide *;
    WaitingMeans(v);
    GivenIs(v, ps, false);
    InsertLinesCells(Given(v, ps, false), 'L' as int);
    GridCommand(v, ps, 'L' as int, InsertLine);
  }

  lemma DeleteLinesCells(u: Vt, b: Byte)
    requires WF(u)
    ensures var r := Exec(u, DeleteLine, b);
            && OnlyGrid(u, r)
            && forall y, x :: 0 <= y < u.h && 0 <= x < u.w ==>
                 r.grid[y][x] == if y < u.cy || y > u.bot then u.grid[y][x]
                                 else if y + Count(u) <= u.bot then u.grid[y + Count(u)][x] else BlankCell(u)
  {
    hide Exec, Clear, Scroll, IsEdit, Count;
    EraseKinds();
    ExecEdited(u, DeleteLine, b);
    GridSize(u);
    ClearCells(u, 0, u.cy, u.w - 1, u.bot);
    if Count(u) < u.bot - u.cy + 1 {
      ScrollCells(u, u.cy, Count(u));
    }
    hide WF, BlankCell;
  }

  lemma DeleteLinesLaw(v: Vt, ps: seq<nat>)
    requires Waiting(v) && |ps| <= MAX_PARAMS
    ensures var r := Aside(After(v, Csi(ps, 'M' as int)), v);
            && OnlyGrid(v, r)
            && forall y, x :: 0 <= y < v.h && 0 <= x < v.w ==>
                 r.grid[y][x] == if y < v.cy || y > v.bot then v.grid[y][x]
                                 else if y + Times(ps) <= v.bot then v.grid[y + Times(ps)][x] else BlankCell(v)
  {
    ShiftEntries();
    hide *;
    WaitingMeans(v);
    GivenIs(v, ps, false);
    DeleteLinesCells(Given(v, ps, false), 'M' as int);
    GridCommand(v, ps, 'M' as int, DeleteLine);
  }

  // Place x of a row in which a gap of n has been opened (or closed) at column cx, if here.
  function Opened(row: Row, here: bool, cx: int, n: int, x: nat, blank: Cell): Cell
    requires x < |row|
  {
    if !here || x < cx then row[x] else if x - n >= cx && 0 <= x - n < |row| then row[x - n] else blank
  }

  function Closed(row: Row, here: bool, cx: int, n: int, x: nat, blank: Cell): Cell
    requires x < |row|
  {
    if !here || x < cx then row[x] else if 0 <= x + n < |row| then row[x + n] else blank
  }

  lemma ShiftedCells(u: Vt)
    requires WF(u) && Count(u) < u.w - u.cx
    ensures var r := SetCursorRow(u, InsertCells(CursorRow(u), u.cx, Count(u), Pen(u)));
            && OnlyGrid(u, r)
            && forall y, x :: 0 <= y < u.h && 0 <= x < u.w ==>
                 r.grid[y][x] == Opened(u.grid[y], y == u.cy, u.cx, Count(u), x, BlankCell(u))
    ensures var r := SetCursorRow(u, DeleteCells(CursorRow(u), u.cx, Count(u), Pen(u)));
            && OnlyGrid(u, r)
            && forall y, x :: 0 <= y < u.h && 0 <= x < u.w ==>
                 r.grid[y][x] == Closed(u.grid[y], y == u.cy, u.cx, Count(u), x, BlankCell(u))
  {
    PenIsBrush(u);
    hide Pen, Brush, Count;
  }

  lemma InsertCharsCells(u: Vt, b: Byte)
    requires WF(u)
    ensures var r := Exec(u, InsertChar, b);
            && OnlyGrid(u, r)
            && forall y, x :: 0 <= y < u.h && 0 <= x < u.w ==>
                 r.grid[y][x] == Opened(u.grid[y], y == u.cy, u.cx, Count(u), x, BlankCell(u))
  {
    hide Exec, Clear, SetCursorRow, IsEdit, Count;
    EraseKinds();
    ExecEdited(u, InsertChar, b);
    GridSize(u);
    ClearCells(u, u.cx, u.cy, u.w - 1, u.cy);
    if Count(u) < u.w - u.cx {
      ShiftedCells(u);
    }
    hide WF, BlankCell;
  }

  /** ESC [ n @ and P: n characters are inserted or deleted at the cursor. */
  lemma InsertCharsLaw(v: Vt, ps: seq<nat>)
    requires Waiting(v) && |ps| <= MAX_PARAMS
    ensures var r := Aside(After(v, Csi(ps, '@' as int)), v);
            && OnlyGrid(v, r)
            && forall y, x :: 0 <= y < v.h && 0 <= x < v.w ==>
                 r.grid[y][x] == Opened(v.grid[y], y == v.cy, v.cx, Times(ps), x, BlankCell(v))
  {
    ShiftEntries();
    hide *;
    WaitingMeans(v);
    GivenIs(v, ps, false);
    InsertCharsCells(Given(v, ps, false), '@' as int);
    GridCommand(v, ps, '@' as int, InsertChar);
  }

  lemma DeleteCharsCells(u: Vt, b: Byte)
    requires WF(u)
    ensures var r := Exec(u, DeleteChar, b);
            && OnlyGrid(u, r)
            && forall y, x :: 0 <= y < u.h && 0 <= x < u.w ==>
                 r.grid[y][x] == Closed(u.grid[y], y == u.cy, u.cx, Count(u), x, BlankCell(u))
  {
    hide Exec, Clear, SetCursorRow, IsEdit, Count;
    EraseKinds();
    ExecEdited(u, DeleteChar, b);
    GridSize(u);
    ClearCells(u, u.cx, u.cy, u.w - 1, u.cy);
    if Count(u) < u.w - u.cx {
      ShiftedCells(u);
    }
    hide WF, BlankCell;
  }

  lemma DeleteCharsLaw(v: Vt, ps: seq<nat>)
    requires Waiting(v) && |ps| <= MAX_PARAMS
    ensures var r := Aside(After(v, Csi(ps, 'P' as int)), v);
            && OnlyGrid(v, r)
            && forall y, x :: 0 <= y < v.h && 0 <= x < v.w ==>
                 r.grid[y][x] == Closed(v.grid[y], y == v.cy, v.cx, Times(ps), x, BlankCell(v))
  {
    ShiftEntries();
    hide *;
    WaitingMeans(v);
    GivenIs(v, ps, false);
    DeleteCharsCells(Given(v, ps, false), 'P' as int);
    GridCommand(v, ps, 'P' as int, DeleteChar);
  }
}
