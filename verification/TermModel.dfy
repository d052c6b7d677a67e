/** The terminal as a value: what one input byte does to a plain grid of cells. There is no row
    renumbering here, no damage tracking, no deferred scrolling and no batching of characters;
    class GTerm is proved to agree with this model. */
module TermModel {
  import opened Common
  import opened TermTypes
  import opened TermTables

  datatype Vt = Vt(
    w: nat, h: nat, top: int, bot: int,
    grid: Grid,
    cx: int, cy: int,
    sx: int, sy: int, sattr: set<Flag>,
    fg: int, bg: int, modes: set<Flag>,
    tabs: seq<bool>,
    state: State,
    nparam: int, params: seq<int>, qMode: bool, gotParam: bool, quoteMode: bool,
    out: seq<Event>)

  /** Everything the source's array accesses rely on. The margins need not be ordered. */
  ghost predicate Bounds(v: Vt) {
    && 2 <= v.w < MAX_WIDTH && 2 <= v.h <= MAX_HEIGHT
    && 0 <= v.top < v.h && 0 <= v.bot < v.h
    && IsGrid(v.grid, v.w, v.h)
    && 0 <= v.cx <= v.w && 0 <= v.cy < v.h
    && 0 <= v.sx && 0 <= v.sy
    && 0 <= v.fg < 8 && 0 <= v.bg < 8
    && |v.tabs| == MAX_WIDTH
    && |v.params| == MAX_PARAMS && 0 <= v.nparam < MAX_PARAMS
    && NonNegative(v.params)
  }

  /** The state invariant: the row stored by the first half of a VT52 cursor address is on the
      screen. */
  ghost predicate WF(v: Vt) {
    Bounds(v) && (v.state == Vt52CursorXState ==> v.params[0] < v.h)
  }

  ghost predicate NonNegative(s: seq<int>) {
    forall i :: 0 <= i < |s| ==> 0 <= s[i]
  }

  // ----- Building blocks -----

  function Pen(v: Vt): Attr {
    CalcColor(v.fg, v.bg, v.modes)
  }

  function P(v: Vt, i: nat): int {
    if i < |v.params| then v.params[i] else 0
  }

  // The first parameter as a count: missing or zero means one.
  function Count(v: Vt): (n: int)
    ensures n >= 1
  {
    if P(v, 0) < 1 then 1 else P(v, 0)
  }

  function Say(v: Vt, e: Event): Vt {
    v.(out := v.out + [e])
  }

  function MoveTo(v: Vt, x: int, y: int): Vt {
    v.(cx := x, cy := y)
  }

  function Clear(v: Vt, x1: int, y1: int, x2: int, y2: int): Vt {
    v.(grid := ClearRect(v.grid, x1, y1, x2, y2, Pen(v)))
  }

  function Scroll(v: Vt, y1: int, y2: int, n: int): Vt {
    v.(grid := ScrollRows(v.grid, y1, y2, n, v.w, Pen(v)))
  }

  // The row the cursor is on.
  function CursorRow(v: Vt): Row {
    if 0 <= v.cy < |v.grid| then v.grid[v.cy] else []
  }

  function SetCursorRow(v: Vt, r: Row): Vt {
    if 0 <= v.cy < |v.grid| then v.(grid := v.grid[v.cy := r]) else v
  }

  function RaiseFlags(v: Vt, f: set<Flag>): Vt {
    Say(v.(modes := v.modes + f), ModeChanged(v.modes + f))
  }

  function LowerFlags(v: Vt, f: set<Flag>): Vt {
    Say(v.(modes := v.modes - f), ModeChanged(v.modes - f))
  }

  // ----- Actions -----

  function DoCR(v: Vt): Vt {
    MoveTo(v, 0, v.cy)
  }

  function DoLF(v: Vt): Vt {
    if v.cy < v.bot then MoveTo(v, v.cx, v.cy + 1) else Scroll(v, v.top, v.bot, 1)
  }

  function DoNextLine(v: Vt): Vt {
    DoCR(DoLF(v))
  }

  function DoIndexUp(v: Vt): Vt {
    if v.cy > v.top then MoveTo(v, v.cx, v.cy - 1) else Scroll(v, v.top, v.bot, -1)
  }

  function DoFF(v: Vt): Vt {
    MoveTo(Clear(v, 0, v.top, v.w - 1, v.bot), 0, v.top)
  }

  // The first tab stop in [i, w), or 0 when there is none.
  function NextStop(tabs: seq<bool>, i: nat, w: nat): (x: nat)
    requires i > 0
    ensures x != 0 ==> i <= x < w && x < |tabs| && tabs[x]
    ensures forall k :: i <= k < w && k < |tabs| && (x == 0 || k < x) ==> !tabs[k]
    decreases w - i
  {
    if i >= w || i >= |tabs| then 0
    else if tabs[i] then i
    else NextStop(tabs, i + 1, w)
  }

  function TabTarget(v: Vt): int {
    var x := if v.cx < 0 then 0 else NextStop(v.tabs, v.cx + 1, v.w);
    if x != 0 then x else (v.cx + 8) - (v.cx + 8) % 8
  }

  function DoTab(v: Vt): Vt {
    var x := TabTarget(v);
    if x < v.w then MoveTo(v, x, v.cy)
    else if NoEolWrap in v.modes then MoveTo(v, v.w - 1, v.cy)
    else DoNextLine(v)
  }

  function DoBS(v: Vt): Vt {
    var v1 := if v.cx > 0 then MoveTo(v, v.cx - 1, v.cy) else v;
    if DestructBs in v1.modes then Clear(v1, v1.cx, v1.cy, v1.cx, v1.cy) else v1
  }

  function DoClearParam(v: Vt): Vt {
    v.(nparam := 0, params := seq(MAX_PARAMS, i => 0), qMode := false, gotParam := false)
  }

  // Parameters are unbounded here; the source keeps them in an int, which a parameter of more than
  // nine digits may overflow.
  function DoParamDigit(v: Vt, b: Byte): Vt {
    if 0 <= v.nparam < |v.params| then
      v.(gotParam := true, params := v.params[v.nparam := v.params[v.nparam] * 10 + b - '0' as int])
    else v
  }

  function DoSaveCursor(v: Vt): Vt {
    v.(sattr := v.modes, sx := v.cx, sy := v.cy)
  }

  function DoRestoreCursor(v: Vt): Vt {
    MoveTo(v.(modes := (v.modes - STYLE) + (v.sattr * STYLE)), v.sx, v.sy)
  }

  function DoSetTab(v: Vt): Vt {
    if 0 <= v.cx < |v.tabs| then v.(tabs := v.tabs[v.cx := true]) else v
  }

  function DoClearTab(v: Vt): Vt {
    if P(v, 0) == 3 then v.(tabs := seq(MAX_WIDTH, i => false))
    else if P(v, 0) == 0 && 0 <= v.cx < |v.tabs| then v.(tabs := v.tabs[v.cx := false])
    else v
  }

  const RESET_FLAGS: set<Flag> :=
    {NoEolWrap, CursorAppMode, CursorRelative, NewLine, Insert, Underline, Blink, KeyAppMode, CursorInvisible}

  function DoReset(v: Vt): Vt {
    var v1 := v.(bg := 0, fg := 7, top := 0, bot := v.h - 1,
                 tabs := seq(MAX_WIDTH, i => false), state := NormalState);
    var v2 := LowerFlags(v1, RESET_FLAGS);
    MoveTo(v2.(grid := seq(v.h, y => BlankRow(v.w, Pen(v2)))), 0, 0)
  }

  function DoCursorLeft(v: Vt): Vt {
    MoveTo(v, Max(v.cx - Count(v), 0), v.cy)
  }

  function DoCursorRight(v: Vt): Vt {
    MoveTo(v, Min(v.cx + Count(v), v.w - 1), v.cy)
  }

  function DoCursorUp(v: Vt): Vt {
    MoveTo(v, v.cx, Max(v.cy - Count(v), 0))
  }

  function DoCursorDown(v: Vt): Vt {
    MoveTo(v, v.cx, Min(v.cy + Count(v), v.h - 1))
  }

  // As in the source, a one-based coordinate is clamped to [1, limit - 1] before it is
  // made zero-based.
  function Clamp(p: int, limit: int): int {
    Min(Max(p, 1), limit - 1)
  }

  function DoCursorPosition(v: Vt): Vt {
    MoveTo(v, Clamp(P(v, 1), v.w) - 1,
           Clamp(P(v, 0), v.h) - 1 + (if CursorRelative in v.modes then v.top else 0))
  }

  function DoDeleteChar(v: Vt): Vt {
    if Count(v) >= v.w - v.cx then Clear(v, v.cx, v.cy, v.w - 1, v.cy)
    else SetCursorRow(v, DeleteCells(CursorRow(v), v.cx, Count(v), Pen(v)))
  }

  function DoInsertChar(v: Vt): Vt {
    if Count(v) >= v.w - v.cx then Clear(v, v.cx, v.cy, v.w - 1, v.cy)
    else SetCursorRow(v, InsertCells(CursorRow(v), v.cx, Count(v), Pen(v)))
  }

  function DoEraseChar(v: Vt): Vt {
    var n := Min(Count(v), v.w - v.cx);
    Clear(v, v.cx, v.cy, v.cx + n - 1, v.cy)
  }

  function DoSetMode(v: Vt): Vt {
    match P(v, 0) + (if v.qMode then 1000 else 0)
    case 1007 => LowerFlags(v, {NoEolWrap})
    case 1001 => RaiseFlags(v, {CursorAppMode})
    case 1006 => RaiseFlags(v, {CursorRelative})
    case 4 => RaiseFlags(v, {Insert})
    case 1003 => Say(v, SizeRequested(132, v.h))
    case 20 => RaiseFlags(v, {NewLine})
    case 12 => LowerFlags(v, {LocalEcho})
    case 1025 => LowerFlags(v, {CursorInvisible})
    case _ => v
  }

  function DoClearMode(v: Vt): Vt {
    match P(v, 0) + (if v.qMode then 1000 else 0)
    case 1007 => RaiseFlags(v, {NoEolWrap})
    case 1001 => LowerFlags(v, {CursorAppMode})
    case 1006 => LowerFlags(v, {CursorRelative})
    case 4 => LowerFlags(v, {Insert})
    case 1003 => Say(v, SizeRequested(80, v.h))
    case 20 => LowerFlags(v, {NewLine})
    case 1002 => v.(state := Vt52Normal)
    case 12 => RaiseFlags(v, {LocalEcho})
    case 1025 => RaiseFlags(v, {CursorInvisible})
    case _ => v
  }

  function DoSetMargins(v: Vt): Vt {
    var t := if P(v, 0) < 1 then 1 else P(v, 0);
    var b := if P(v, 1) < 1 then v.h as int else Min(P(v, 1), v.h);
    var v1 := v.(top := t - 1, bot := b - 1);
    var v2 := if v1.cy < v1.top then MoveTo(v1, v1.cx, v1.top) else v1;
    if v2.cy > v2.bot then MoveTo(v2, v2.cx, v2.bot) else v2
  }

  function DoDeleteLine(v: Vt): Vt {
    if Count(v) >= v.bot - v.cy + 1 then Clear(v, 0, v.cy, v.w - 1, v.bot)
    else Scroll(v, v.cy, v.bot, Count(v))
  }

  function DoInsertLine(v: Vt): Vt {
    if Count(v) >= v.bot - v.cy + 1 then Clear(v, 0, v.cy, v.w - 1, v.bot)
    else Scroll(v, v.cy, v.bot, -Count(v))
  }

  function DoStatusReport(v: Vt): Vt {
    if P(v, 0) == 5 then Say(v, StatusOk())
    else if P(v, 0) == 6 then Say(v, CursorReport(v.cy + 1, v.cx + 1))
    else v
  }

  // From the cursor to the end of the screen.
  function EraseAfter(v: Vt): Vt {
    var v1 := Clear(v, v.cx, v.cy, v.w - 1, v.cy);
    if v.cy < v.h - 1 then Clear(v1, 0, v.cy + 1, v.w - 1, v.h - 1) else v1
  }

  // From the start of the screen to the cursor.
  function EraseBefore(v: Vt): Vt {
    var v1 := Clear(v, 0, v.cy, v.cx, v.cy);
    if v.cy > 0 then Clear(v1, 0, 0, v.w - 1, v.cy - 1) else v1
  }

  function DoEraseDisplay(v: Vt): Vt {
    match P(v, 0)
    case 0 => EraseAfter(v)
    case 1 => EraseBefore(v)
    case 2 => Clear(v, 0, 0, v.w - 1, v.h - 1)
    case _ => v
  }

  function DoEraseLine(v: Vt): Vt {
    match P(v, 0)
    case 0 => Clear(v, v.cx, v.cy, v.w - 1, v.cy)
    case 1 => Clear(v, 0, v.cy, v.cx, v.cy)
    case 2 => Clear(v, 0, v.cy, v.w - 1, v.cy)
    case _ => v
  }

  function OneColor(v: Vt, p: int): Vt {
    if p / 10 == 4 then v.(bg := if p % 10 > 7 then 0 else p % 10)
    else if p / 10 == 3 then v.(fg := if p % 10 > 7 then 7 else p % 10)
    else
      match p
      case 0 => LowerFlags(v, STYLE).(fg := 7, bg := 0)
      case 1 => RaiseFlags(v, {Bold})
      case 4 => RaiseFlags(v, {Underline})
      case 5 => RaiseFlags(v, {Blink})
      case 7 => RaiseFlags(v, {Inverse})
      case _ => v
  }

  function ColorsFrom(v: Vt, n: nat): Vt
    decreases v.nparam + 1 - n
  {
    if n > v.nparam then v else ColorsFrom(OneColor(v, P(v, n)), n + 1)
  }

  function DoSetColors(v: Vt): Vt {
    if v.nparam == 0 && P(v, 0) == 0 then LowerFlags(v, STYLE).(fg := 7, bg := 0)
    else ColorsFrom(LowerFlags(v, STYLE), 0)
  }

  function DoScreenAlign(v: Vt): Vt {
    v.(grid := seq(v.h, y => seq(v.w, x => Cell('E' as int, CalcColor(7, 0, {})))))
  }

  function DoVt52CursorY(v: Vt, b: Byte): Vt {
    if |v.params| == 0 then v else v.(params := v.params[0 := Clamp(b - 32, v.h)])
  }

  function DoVt52CursorX(v: Vt, b: Byte): Vt {
    MoveTo(v, Clamp(b - 32, v.w), P(v, 0))
  }

  predicate IsFeed(a: Action) {
    a in {LF, CR, FF, BS, Tab, IndexDown, IndexUp, NextLine}
  }

  predicate IsErase(a: Action) {
    a in {Reset, ScreenAlign, DeleteChar, InsertChar, EraseChar, DeleteLine, InsertLine, EraseDisplay, EraseLine}
  }

  predicate IsEdit(a: Action) {
    IsFeed(a) || IsErase(a)
  }

  predicate IsCursorMove(a: Action) {
    a in {CursorLeft, CursorDown, CursorRight, CursorUp, CursorPosition, RestoreCursor, SaveCursor,
          SetMargins, Vt52CursorX, Vt52CursorY}
  }

  // Actions that may change the grid.
  function ExecEdit(v: Vt, a: Action): Vt {
    match a
    case LF => DoLF(v)
    case CR => DoCR(v)
    case FF => DoFF(v)
    case BS => DoBS(v)
    case Tab => DoTab(v)
    case IndexDown => DoLF(v)
    case IndexUp => DoIndexUp(v)
    case NextLine => DoNextLine(v)
    case Reset => DoReset(v)
    case ScreenAlign => DoScreenAlign(v)
    case DeleteChar => DoDeleteChar(v)
    case InsertChar => DoInsertChar(v)
    case EraseChar => DoEraseChar(v)
    case DeleteLine => DoDeleteLine(v)
    case InsertLine => DoInsertLine(v)
    case EraseDisplay => DoEraseDisplay(v)
    case EraseLine => DoEraseLine(v)
    case _ => v
  }

  // Actions about positions: cursor, saved cursor, margins.
  function ExecCursorMove(v: Vt, a: Action, b: Byte): Vt {
    match a
    case CursorLeft => DoCursorLeft(v)
    case CursorDown => DoCursorDown(v)
    case CursorRight => DoCursorRight(v)
    case CursorUp => DoCursorUp(v)
    case CursorPosition => DoCursorPosition(v)
    case RestoreCursor => DoRestoreCursor(v)
    case SaveCursor => DoSaveCursor(v)
    case SetMargins => DoSetMargins(v)
    case Vt52CursorX => DoVt52CursorX(v, b)
    case Vt52CursorY => DoVt52CursorY(v, b)
    case _ => v
  }

  predicate IsParam(a: Action) {
    a in {NoAction, SetQMode, SetQuoteMode, ClearParam, ParamDigit, NextParam, SetTab, ClearTab}
  }

  predicate IsReply(a: Action) {
    a in {Bell, DeviceAttrib, RequestParam, StatusReport, Vt52Ident}
  }

  // Actions about parameters, modes, colours, tab stops and replies.
  function ExecSetting(v: Vt, a: Action, b: Byte): Vt {
    match a
    case Bell => Say(v, BellRung)
    case SetQMode => v.(qMode := true)
    case SetQuoteMode => v.(quoteMode := true)
    case ClearParam => DoClearParam(v)
    case ParamDigit => DoParamDigit(v, b)
    case NextParam => v.(nparam := v.nparam + 1)
    case KeypadNumeric => LowerFlags(v, {KeyAppMode})
    case KeypadApplication => RaiseFlags(v, {KeyAppMode})
    case SetTab => DoSetTab(v)
    case ClearTab => DoClearTab(v)
    case DeviceAttrib => Say(v, DeviceAttributes())
    case SetMode => DoSetMode(v)
    case ClearMode => DoClearMode(v)
    case RequestParam => Say(v, ParameterReport(P(v, 0) + 2))
    case StatusReport => DoStatusReport(v)
    case SetColors => DoSetColors(v)
    case Vt52Ident => Say(v, Vt52Identity())
    case _ => v
  }

  /** Every action except normal_input. */
  function Exec(v: Vt, a: Action, b: Byte): Vt {
    if IsEdit(a) then ExecEdit(v, a)
    else if IsCursorMove(a) then ExecCursorMove(v, a, b)
    else ExecSetting(v, a, b)
  }

  // ----- Printing -----

  /** Leaves the pending position past the right edge, if the cursor is there. */
  function Wrap(v: Vt): Vt {
    if v.cx < v.w then v
    else if NoEolWrap in v.modes then v.(cx := v.w - 1)
    else DoNextLine(v)
  }

  function Cells(bs: seq<Byte>, c: Attr): seq<Cell> {
    seq(|bs|, i requires 0 <= i < |bs| => Cell(bs[i], c))
  }

  /** Writes bs at the cursor. */
  function Put(v: Vt, bs: seq<Byte>): Vt {
    SetCursorRow(v, PutRow(CursorRow(v), v.cx, Cells(bs, Pen(v)), Insert in v.modes)).(cx := v.cx + |bs|)
  }

  // ----- Bytes -----

  datatype Out = Out(vt: Vt, drop: bool)

  /** One byte. `drop` records that the current run of printing characters has filled the line
      with wrapping off: the source takes such a run as one batch and drops its overflow. */
  function Step(v: Vt, drop: bool, b: Byte): Out {
    var o := Lookup(v.state, b);
    var v1 := v.(state := o.next);
    if o.action != NormalInput then Out(Exec(v1, o.action, b), false)
    else if b < 32 then Out(v1, false)
    else if drop then Out(v1, true)
    else
      var v2 := Put(Wrap(v1), [b]);
      Out(v2, NoEolWrap in v2.modes && v2.cx == v2.w)
  }

  function Run(v: Vt, drop: bool, bs: seq<Byte>): Out
    decreases |bs|
  {
    if bs == [] then Out(v, drop)
    else
      var s := Step(v, drop, bs[0]);
      Run(s.vt, s.drop, bs[1..])
  }

  /** The conditions the source does not check. A caller can read them off the state: the
      parameter list is not full; with origin mode the addressed row is on the screen; the
      saved cursor is on the screen; the top margin is on the screen. */
  predicate ActionOk(v: Vt, a: Action) {
    match a
    case NextParam => v.nparam < MAX_PARAMS - 1
    case CursorPosition => CursorRelative in v.modes ==> Clamp(P(v, 0), v.h) - 1 + v.top < v.h
    case RestoreCursor => v.sx <= v.w && v.sy < v.h
    case SetMargins => P(v, 0) <= v.h
    case _ => true
  }

  predicate StepOk(v: Vt, b: Byte) {
    ActionOk(v, Lookup(v.state, b).action)
  }

  predicate RunOk(v: Vt, drop: bool, bs: seq<Byte>)
    decreases |bs|
  {
    bs == [] ||
    (StepOk(v, bs[0]) && (var s := Step(v, drop, bs[0]); RunOk(s.vt, s.drop, bs[1..])))
  }

  // ----- Construction and resizing -----

  /** A new terminal. The source leaves the saved attributes uninitialised. */
  function Initial(w: nat, h: nat, sattr: set<Flag>): Vt {
    DoReset(Vt(w, h, 0, 0, [], 0, 0, 0, 0, sattr, 7, 0, {}, [], NormalState, 0,
               seq(MAX_PARAMS, i => 0), false, false, false, []))
  }

  /** The part of the screen that fits is kept, the rest is blank; the margins are reset. */
  function Resized(v: Vt, w: nat, h: nat): Vt {
    var g := seq(h, y requires 0 <= y < h => seq(w, x requires 0 <= x < w =>
      if y < |v.grid| && x < |v.grid[y]| then v.grid[y][x] else Cell(SPACE, Pen(v))));
    v.(w := w, h := h, grid := g, bot := h - 1, top := if v.top >= h then 0 else v.top,
       cx := Min(w - 1, v.cx), cy := Min(h - 1, v.cy))
  }
}
