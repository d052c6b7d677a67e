/** The VT52 commands, what is read over, and new and resized terminals, said of the bytes that arrive
    and the cells and fields they leave. */
module TermVt52 {
  import opened Common
  import opened TermTypes
  import opened TermTables
  import opened TermModel
  import opened TermTheory
  import opened TermChunks
  import opened TermCodes
  import opened TermLaws
  import opened TermControls
  import opened TermModes

  lemma Vt52Place(i: nat)
    requires i < 13
    ensures 32 <= VT52_ESC[i].byte < 127 && Lookup(Vt52Esc, VT52_ESC[i].byte) == VT52_ESC[i]
  {
    Vt52Bytes();
    hide Pick, VT52_ESC;
    PickAt(VT52_ESC, VT52_ESC[i].byte, i);
  }

  lemma Vt52Bytes()
    ensures |VT52_ESC| == 14 && VT52_ESC[13].byte == -1 && Table(Vt52Esc) == VT52_ESC
    ensures VT52_ESC[0].byte == 68 && VT52_ESC[1].byte == 66 && VT52_ESC[2].byte == 67 && VT52_ESC[3].byte == 65
    ensures VT52_ESC[4].byte == 89 && VT52_ESC[5].byte == 74 && VT52_ESC[6].byte == 75 && VT52_ESC[7].byte == 72
    ensures VT52_ESC[8].byte == 73 && VT52_ESC[9].byte == 70 && VT52_ESC[10].byte == 71 && VT52_ESC[11].byte == 90
    ensures VT52_ESC[12].byte == 60
  {
  }

  lemma Vt52Entries()
    ensures Lookup(Vt52Esc, 'A' as int) == StateOption('A' as int, CursorUp, Vt52Normal)
    ensures Lookup(Vt52Esc, 'B' as int) == StateOption('B' as int, CursorDown, Vt52Normal)
    ensures Lookup(Vt52Esc, 'C' as int) == StateOption('C' as int, CursorRight, Vt52Normal)
    ensures Lookup(Vt52Esc, 'D' as int) == StateOption('D' as int, CursorLeft, Vt52Normal)
    ensures Lookup(Vt52Esc, 'H' as int) == StateOption('H' as int, CursorPosition, Vt52Normal)
    ensures Lookup(Vt52Esc, 'I' as int) == StateOption('I' as int, IndexUp, Vt52Normal)
  {
    hide Lookup;
    Vt52Place(3);
    Vt52Place(1);
    Vt52Place(2);
    Vt52Place(0);
    Vt52Place(7);
    Vt52Place(8);
  }

  lemma Vt52OtherEntries()
    ensures Lookup(Vt52Esc, 'Y' as int) == StateOption('Y' as int, NoAction, Vt52CursorYState)
    ensures Lookup(Vt52Esc, 'J' as int) == StateOption('J' as int, EraseDisplay, Vt52Normal)
    ensures Lookup(Vt52Esc, 'K' as int) == StateOption('K' as int, EraseLine, Vt52Normal)
    ensures Lookup(Vt52Esc, 'Z' as int) == StateOption('Z' as int, Vt52Ident, Vt52Normal)
    ensures Lookup(Vt52Esc, '<' as int) == StateOption('<' as int, NoAction, NormalState)
  {
    hide Lookup;
    Vt52Place(4);
    Vt52Place(5);
    Vt52Place(6);
    Vt52Place(11);
    Vt52Place(12);
  }

  lemma AddressStates(b: Byte)
    ensures Lookup(Vt52CursorYState, b) == StateOption(-1, Vt52CursorY, Vt52CursorXState)
    ensures Lookup(Vt52CursorXState, b) == StateOption(-1, Vt52CursorX, Vt52Normal)
  {
  }

  // The VT52 terminal waits for a character or a sequence.
  ghost predicate Vt52Waiting(v: Vt) {
    WF(v) && v.state == Vt52Normal
  }

  // ESC clears the parameters.
  function Cleared(v: Vt): Vt {
    Given(v, [], false)
  }

  lemma ClearedIs(v: Vt)
    requires Vt52Waiting(v)
    ensures var u := Cleared(v);
            && WF(u) && u.state == Vt52Normal && P(u, 0) == 0 && P(u, 1) == 0 && Count(u) == 1
            && u == v.(params := u.params, nparam := u.nparam, qMode := u.qMode, gotParam := u.gotParam)
            && BlankCell(u) == BlankCell(v)
  {
  }

  lemma ParamsGone(v: Vt)
    ensures Exec(v.(state := Vt52Esc), ClearParam, ESCAPE) == Cleared(v).(state := Vt52Esc)
  {
    var u := v.(state := Vt52Esc);
    assert Exec(u, ClearParam, ESCAPE) == DoClearParam(u);
    hide Exec;
    assert Padded([]) == seq(MAX_PARAMS, i => 0);
  }

  lemma Vt52Escape(v: Vt, rest: seq<Byte>)
    requires Vt52Waiting(v)
    ensures After(v, [ESCAPE] + rest) == After(Cleared(v).(state := Vt52Esc), rest)
  {
    assert v.state == Vt52Normal;
    ParamsGone(v);
    EscapeEntry();
    hide *;
    AfterIs(v, [ESCAPE] + rest);
    AfterIs(Cleared(v).(state := Vt52Esc), rest);
    StepOf(v, ESCAPE, StateOption(27, ClearParam, Vt52Esc));
    RunByte(v, ESCAPE, rest);
  }

  lemma EscParts(b: Byte)
    ensures Esc(b) == [ESCAPE] + [b]
  {
  }

  lemma Entered(u: Vt, next: State)
    ensures u.(state := Vt52Esc).(state := next) == u.(state := next) && u.(state := Vt52Esc).state == Vt52Esc
  {
  }

  // ESC and one character.
  lemma Vt52Run(v: Vt, b: Byte, o: StateOption)
    requires Vt52Waiting(v) && o == Lookup(Vt52Esc, b) && o.action != NormalInput
    ensures After(v, Esc(b)) == Exec(Cleared(v).(state := o.next), o.action, b)
  {
    hide *;
    var u := Cleared(v).(state := Vt52Esc);
    EscParts(b);
    Entered(Cleared(v), o.next);
    Vt52Escape(v, [b]);
    AfterIs(u, [b]);
    StepOf(u, b, o);
    RunByte(u, b, []);
  }

  lemma Vt52Command(v: Vt, b: Byte, a: Action)
    requires Vt52Waiting(v) && Lookup(Vt52Esc, b) == StateOption(b, a, Vt52Normal) && a != NormalInput
    ensures After(v, Esc(b)) == Exec(Cleared(v), a, b)
  {
    ClearedIs(v);
    assert Cleared(v).(state := Vt52Normal) == Cleared(v);
    hide *;
    Vt52Run(v, b, StateOption(b, a, Vt52Normal));
  }

  lemma Vt52UpDown(v: Vt)
    requires Vt52Waiting(v)
    ensures Aside(After(v, Esc('A' as int)), v) == v.(cy := Max(v.cy - 1, 0))
    ensures Aside(After(v, Esc('B' as int)), v) == v.(cy := Min(v.cy + 1, v.h - 1))
  {
    hide *;
    var u := Cleared(v);
    ClearedIs(v);
    Vt52Entries();
    Vt52Command(v, 'A' as int, CursorUp);
    Vt52Command(v, 'B' as int, CursorDown);
    Arrows(u, 'A' as int);
    Arrows(u, 'B' as int);
    AsideCursor(v, u, v.cx, Max(v.cy - 1, 0));
    AsideCursor(v, u, v.cx, Min(v.cy + 1, v.h - 1));
  }

  lemma Vt52LeftRight(v: Vt)
    requires Vt52Waiting(v)
    ensures Aside(After(v, Esc('C' as int)), v) == v.(cx := Min(v.cx + 1, v.w - 1))
    ensures Aside(After(v, Esc('D' as int)), v) == v.(cx := Max(v.cx - 1, 0))
  {
    hide *;
    var u := Cleared(v);
    ClearedIs(v);
    Vt52Entries();
    Vt52Command(v, 'C' as int, CursorRight);
    Vt52Command(v, 'D' as int, CursorLeft);
    Arrows(u, 'C' as int);
    Arrows(u, 'D' as int);
    AsideCursor(v, u, Min(v.cx + 1, v.w - 1), v.cy);
    AsideCursor(v, u, Max(v.cx - 1, 0), v.cy);
  }

  lemma Home(v: Vt)
    requires Vt52Waiting(v)
    ensures Min(Max(0, 1), v.w - 1) - 1 == 0 && Min(Max(0, 1), v.h - 1) - 1 == 0
  {
  }

  lemma Vt52Home(v: Vt)
    requires Vt52Waiting(v)
    ensures Aside(After(v, Esc('H' as int)), v) == v.(cx := 0, cy := if CursorRelative in v.modes then v.top else 0)
  {
    hide *;
    var u := Cleared(v);
    ClearedIs(v);
    Vt52Entries();
    Vt52Command(v, 'H' as int, CursorPosition);
    Address(u, 'H' as int);
    Home(v);
    AsideCursor(v, u, 0, if CursorRelative in v.modes then v.top else 0);
  }

  /** ESC A, B, C, D: one step; ESC H: home, which is the top margin in origin mode. */
  lemma Vt52Keys(v: Vt)
    requires Vt52Waiting(v)
    ensures Aside(After(v, Esc('A' as int)), v) == v.(cy := Max(v.cy - 1, 0))
    ensures Aside(After(v, Esc('B' as int)), v) == v.(cy := Min(v.cy + 1, v.h - 1))
    ensures Aside(After(v, Esc('C' as int)), v) == v.(cx := Min(v.cx + 1, v.w - 1))
    ensures Aside(After(v, Esc('D' as int)), v) == v.(cx := Max(v.cx - 1, 0))
    ensures Aside(After(v, Esc('H' as int)), v) == v.(cx := 0, cy := if CursorRelative in v.modes then v.top else 0)
  {
    hide *;
    Vt52UpDown(v);
    Vt52LeftRight(v);
    Vt52Home(v);
  }

  // The places at and behind the cursor are blank, in all rows or only in the cursor's.
  ghost predicate ErasedAfter(v: Vt, r: Vt, rowOnly: bool) {
    && OnlyGrid(v, r) && IsGrid(v.grid, v.w, v.h)
    && forall y, x :: 0 <= y < v.h && 0 <= x < v.w ==>
         r.grid[y][x] == if (y == v.cy && x >= v.cx) || (!rowOnly && y > v.cy) then BlankCell(v) else v.grid[y][x]
  }

  lemma ErasedCells(u: Vt, b: Byte)
    requires WF(u) && P(u, 0) == 0
    ensures ErasedAfter(u, Exec(u, EraseDisplay, b), false) && ErasedAfter(u, Exec(u, EraseLine, b), true)
  {
    GridSize(u);
    EraseScreenCells(u, b);
    EraseRowCells(u, b);
    hide Exec, WF, P, BlankCell;
  }

  lemma ErasedAside(v: Vt, u: Vt, r: Vt, rowOnly: bool)
    requires u == v.(params := u.params, nparam := u.nparam, qMode := u.qMode, gotParam := u.gotParam)
    requires ErasedAfter(u, r, rowOnly) && BlankCell(u) == BlankCell(v)
    ensures ErasedAfter(v, Aside(r, v), rowOnly)
  {
  }

  /** ESC J and ESC K: from the cursor on, on the screen or in the row. */
  lemma Vt52Erase(v: Vt)
    requires Vt52Waiting(v)
    ensures ErasedAfter(v, Aside(After(v, Esc('J' as int)), v), false)
    ensures ErasedAfter(v, Aside(After(v, Esc('K' as int)), v), true)
  {
    hide *;
    var u := Cleared(v);
    ClearedIs(v);
    Vt52OtherEntries();
    Vt52Command(v, 'J' as int, EraseDisplay);
    Vt52Command(v, 'K' as int, EraseLine);
    ErasedCells(u, 'J' as int);
    ErasedCells(u, 'K' as int);
    ErasedAside(v, u, Exec(u, EraseDisplay, 'J' as int), false);
    ErasedAside(v, u, Exec(u, EraseLine, 'K' as int), true);
  }

  lemma LineBackAside(v: Vt, u: Vt, r: Vt)
    requires u == v.(params := u.params, nparam := u.nparam, qMode := u.qMode, gotParam := u.gotParam)
    requires LineBack(u, r)
    ensures LineBack(v, Aside(r, v))
  {
  }

  /** ESC I: reverse index. */
  lemma Vt52IndexLaw(v: Vt)
    requires Vt52Waiting(v)
    ensures LineBack(v, Aside(After(v, Esc('I' as int)), v))
  {
    hide *;
    var u := Cleared(v);
    ClearedIs(v);
    Vt52Entries();
    Vt52Command(v, 'I' as int, IndexUp);
    Feeds(u, 'I' as int);
    FeedIs(u);
    LineBackAside(v, u, DoIndexUp(u));
  }

  /** ESC Z: the identity; ESC < : back to VT100 sequences. */
  lemma Vt52OtherLaw(v: Vt)
    requires Vt52Waiting(v)
    ensures Sends(v, Aside(After(v, Esc('Z' as int)), v), [27, 47, 90])
    ensures Aside(After(v, Esc('<' as int)), v) == v.(state := NormalState)
  {
    assert Aside(Cleared(v).(state := NormalState), v) == v.(state := NormalState);
    hide Lookup, Exec, Run, Esc, Cleared, Aside, Vt52Waiting, After, Say, Vt52Identity, WF, P, Count, BlankCell;
    var u := Cleared(v);
    ClearedIs(v);
    Vt52OtherEntries();
    Vt52Command(v, 'Z' as int, Vt52Ident);
    ReportsDone(u, 'Z' as int);
    Texts(0, 0);
    SaysAside(v, u);
    Vt52Run(v, '<' as int, StateOption('<' as int, NoAction, NormalState));
    NothingDone(u.(state := NormalState), '<' as int);
  }

  const VT52_CHARS: set<int> := {68, 66, 67, 65, 89, 74, 75, 72, 73, 90, 60}

  lemma Vt52Unknown(b: Byte)
    requires b !in VT52_CHARS
    ensures Lookup(Vt52Esc, b).action == NoAction && Lookup(Vt52Esc, b).next == Vt52Normal
  {
    if b == 'F' as int {
      Vt52Place(9);
    } else if b == 'G' as int {
      Vt52Place(10);
    } else {
      Vt52Bytes();
      hide Pick;
      PickAt(VT52_ESC, b, 13);
    }
  }

  /** Other characters behind ESC are read over. */
  lemma Vt52IgnoredLaw(v: Vt, b: Byte)
    requires Vt52Waiting(v) && b !in VT52_CHARS
    ensures Aside(After(v, Esc(b)), v) == v
  {
    hide *;
    var u := Cleared(v);
    ClearedIs(v);
    Vt52Unknown(b);
    Vt52Run(v, b, Lookup(Vt52Esc, b));
    SameState(u, Vt52Normal);
    NothingDone(u, b);
    SaysAside(v, u);
  }

  // The place of an address: the first row and column excluded, the last not.
  function Placed(b: Byte, limit: int): int {
    Min(Max(b - 32, 1), limit - 1)
  }

  lemma RowStored(u: Vt, b: Byte)
    requires |u.params| == MAX_PARAMS
    ensures Exec(u, Vt52CursorY, b) == u.(params := u.params[0 := Placed(b, u.h)])
  {
    hide Exec, IsCursorMove;
    MoveKinds();
    ExecMoved(u, Vt52CursorY, b);
  }

  lemma ColumnStored(u: Vt, b: Byte)
    ensures Exec(u, Vt52CursorX, b) == u.(cx := Placed(b, u.w), cy := P(u, 0))
  {
    hide Exec, IsCursorMove, P;
    MoveKinds();
    ExecMoved(u, Vt52CursorX, b);
  }

  // Waiting for the row, and for the column.
  function RowAwaited(v: Vt): Vt {
    Cleared(v).(state := Vt52CursorYState)
  }

  function ColumnAwaited(v: Vt, p: int): Vt
    requires v.params != []
  {
    Cleared(v).(state := Vt52CursorXState, params := Cleared(v).params[0 := p])
  }

  lemma AwaitedIs(v: Vt)
    ensures Cleared(v).(state := Vt52Esc).(state := Vt52CursorYState) == RowAwaited(v)
  {
  }

  lemma AddressBegins(v: Vt, rest: seq<Byte>)
    ensures After(Cleared(v).(state := Vt52Esc), ['Y' as int] + rest) == After(RowAwaited(v), rest)
  {
    hide *;
    var u, r := Cleared(v).(state := Vt52Esc), RowAwaited(v);
    AwaitedIs(v);
    Vt52OtherEntries();
    AfterIs(u, ['Y' as int] + rest);
    AfterIs(r, rest);
    StepOf(u, 'Y' as int, StateOption('Y' as int, NoAction, Vt52CursorYState));
    NothingDone(r, 'Y' as int);
    RunByte(u, 'Y' as int, rest);
  }

  lemma FirstBytes(v: Vt, rest: seq<Byte>)
    requires Vt52Waiting(v)
    ensures After(v, [ESCAPE] + (['Y' as int] + rest)) == After(RowAwaited(v), rest)
  {
    hide *;
    Vt52Escape(v, ['Y' as int] + rest);
    AddressBegins(v, rest);
  }

  lemma RowByte(v: Vt, row: Byte, rest: seq<Byte>)
    requires Vt52Waiting(v)
    ensures v.params != [] && After(RowAwaited(v), [row] + rest) == After(ColumnAwaited(v, Placed(row, v.h)), rest)
  {
    assert v.params != [];
    var s1, s2 := RowAwaited(v), ColumnAwaited(v, Placed(row, v.h));
    var t := s1.(state := Vt52CursorXState);
    assert |t.params| == MAX_PARAMS && t.h == v.h && s1.state == Vt52CursorYState;
    assert t.(params := t.params[0 := Placed(row, v.h)]) == s2;
    hide *;
    AddressStates(row);
    AfterIs(s1, [row] + rest);
    AfterIs(s2, rest);
    StepOf(s1, row, StateOption(-1, Vt52CursorY, Vt52CursorXState));
    RowStored(t, row);
    RunByte(s1, row, rest);
  }

  lemma ColumnByte(v: Vt, p: int, col: Byte)
    requires Vt52Waiting(v) && v.params != []
    ensures Aside(After(ColumnAwaited(v, p), [col]), v) == v.(cx := Placed(col, v.w), cy := p)
  {
    var s2 := ColumnAwaited(v, p);
    var t := s2.(state := Vt52Normal);
    assert P(t, 0) == p && s2.state == Vt52CursorXState && t.w == v.w;
    assert Aside(t.(cx := Placed(col, v.w), cy := p), v) == v.(cx := Placed(col, v.w), cy := p);
    hide *;
    AddressStates(col);
    AfterIs(s2, [col]);
    StepOf(s2, col, StateOption(-1, Vt52CursorX, Vt52Normal));
    ColumnStored(t, col);
    RunByte(s2, col, []);
  }

  lemma PlacedIs(b: Byte, limit: int)
    ensures Placed(b, limit) == Min(Max(b - 32, 1), limit - 1)
  {
  }

  /** ESC Y row column. The characters count from the space, but row and column 0 cannot be reached. */
  lemma Vt52Address(v: Vt, row: Byte, col: Byte)
    requires Vt52Waiting(v)
    ensures Aside(After(v, [ESCAPE, 'Y' as int, row, col]), v)
         == v.(cx := Min(Max(col - 32, 1), v.w - 1), cy := Min(Max(row - 32, 1), v.h - 1))
  {
    assert [ESCAPE, 'Y' as int, row, col] == [ESCAPE] + (['Y' as int] + ([row] + [col]));
    hide *;
    FirstBytes(v, [row] + [col]);
    RowByte(v, row, [col]);
    ColumnByte(v, Placed(row, v.h), col);
    PlacedIs(row, v.h);
    PlacedIs(col, v.w);
  }

  // ----- New and resized terminals, and what a cell looks like -----

  /** A new terminal: blank, white on black, the cursor at home, the margins at the edges. */
  lemma InitialMeans(w: nat, h: nat, sattr: set<Flag>)
    ensures var r := Initial(w, h, sattr);
            && FilledWith(r, Cell(32, Attr(7, 0, {}))) && r.w == w && r.h == h
            && r.cx == 0 && r.cy == 0 && r.sx == 0 && r.sy == 0 && r.sattr == sattr
            && r.fg == 7 && r.bg == 0 && r.modes == {} && r.state == NormalState
            && r.top == 0 && r.bot == h - 1 && r.tabs == seq(200, i => false)
            && r.nparam == 0 && r.params == seq(30, i => 0) && !r.qMode && !r.gotParam && !r.quoteMode
  {
  }

  /** A resized terminal: the old cells where they fit, blanks elsewhere; the bottom margin at the edge,
      the cursor and the top margin brought in. */
  lemma ResizedMeans(v: Vt, w: nat, h: nat)
    requires WF(v)
    ensures var r := Resized(v, w, h);
            && IsGrid(r.grid, w, h)
            && (forall y, x :: 0 <= y < h && 0 <= x < w ==>
                  r.grid[y][x] == if y < v.h && x < v.w then v.grid[y][x] else BlankCell(v))
            && r == v.(w := w, h := h, grid := r.grid, bot := h - 1, top := if v.top < h then v.top else 0,
                       cx := if v.cx < w then v.cx else w - 1, cy := if v.cy < h then v.cy else h - 1)
  {
    PenIsBrush(v);
    hide Pen, Brush;
  }

  /** Two cells look alike if they are equal, or both blank (a space or a null) on the same background. */
  lemma AppearanceExactly(a: Cell, b: Cell)
    ensures Appearance(a) == Appearance(b) <==>
              a == b || ((a.ch == 32 || a.ch == 0) && (b.ch == 32 || b.ch == 0) && a.attr.bg == b.attr.bg)
  {
  }
}
