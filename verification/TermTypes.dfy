/** Values of the terminal emulator: cells, mode flags, replies, and the simple screen
    (a grid of rows) that the emulator's storage tricks must agree with. */
module TermTypes {
  import opened Common

  const MAX_WIDTH := 200   // GT_MAXWIDTH
  const MAX_HEIGHT := 100  // GT_MAXHEIGHT
  const MAX_PARAMS := 30   // length of GTerm::param
  const SPACE: Byte := 32

  // One constructor per bit of mode_flags; a flag word is the set of its bits.
  datatype Flag =
    | Bold | Blink | Underline | Inverse
    | NoEolWrap | CursorAppMode | CursorRelative | NewLine | Insert | KeyAppMode
    | DeferUpdate | DestructBs | TextOnly | LocalEcho | CursorInvisible

  // The low four bits: the attributes stored with every cell.
  const STYLE: set<Flag> := {Bold, Blink, Underline, Inverse}

  datatype Attr = Attr(fg: int, bg: int, style: set<Flag>)
  datatype Cell = Cell(ch: Byte, attr: Attr)

  type Row = seq<Cell>
  type Grid = seq<Row>

  function CalcColor(fg: int, bg: int, flags: set<Flag>): Attr {
    Attr(fg % 8, bg % 8, flags * STYLE)
  }

  // What a viewer can tell about a cell: blank cells differ only by background.
  datatype Look = Blank(bg: int) | Glyph(ch: Byte, attr: Attr)

  predicate IsBlank(ch: Byte) {
    ch == SPACE || ch == 0
  }

  function Appearance(c: Cell): Look {
    if IsBlank(c.ch) then Blank(c.attr.bg) else Glyph(c.ch, c.attr)
  }

  // Text sent back to the host, and calls to the optional hooks.
  datatype Event =
    | Sent(text: seq<Byte>)
    | BellRung
    | ModeChanged(modes: set<Flag>)
    | SizeRequested(width: int, height: int)

  function Ascii(s: string): seq<Byte> {
    seq<Byte>(|s|, i requires 0 <= i < |s| => s[i] as int % 256)
  }

  function Digits(n: nat): seq<Byte> {
    if n < 10 then ['0' as int + n] else Digits(n / 10) + ['0' as int + n % 10]
  }

  // %d of sprintf
  function Decimal(n: int): seq<Byte> {
    if n < 0 then ['-' as int] + Digits(-n) else Digits(n)
  }

  // What the reports send.
  function DeviceAttributes(): Event {
    Sent([27] + Ascii("[?1;2c"))
  }

  function StatusOk(): Event {
    Sent([27] + Ascii("[0n"))
  }

  function CursorReport(row: int, col: int): Event {
    Sent([27, '[' as int] + Decimal(row) + [';' as int] + Decimal(col) + ['R' as int])
  }

  function ParameterReport(n: int): Event {
    Sent([27, '[' as int] + Decimal(n) + Ascii(";1;1;120;120;1;0x"))
  }

  function Vt52Identity(): Event {
    Sent([27] + Ascii("/Z"))
  }

  ghost predicate IsGrid(g: Grid, w: int, h: int) {
    |g| == h && forall y :: 0 <= y < h ==> |g[y]| == w
  }

  // ----- Edits of the simple screen -----

  function ClearRow(r: Row, x1: int, x2: int, c: Attr): (r': Row)
    ensures |r'| == |r|
  {
    seq(|r|, x requires 0 <= x < |r| => if x1 <= x <= x2 then Cell(SPACE, c) else r[x])
  }

  function BlankRow(w: nat, c: Attr): (r: Row)
    ensures |r| == w
  {
    seq(w, x => Cell(SPACE, c))
  }

  /** Blanks the part of the rectangle that lies on the grid. */
  function ClearRect(g: Grid, x1: int, y1: int, x2: int, y2: int, c: Attr): (g': Grid)
    ensures |g'| == |g| && forall y :: 0 <= y < |g| ==> |g'[y]| == |g[y]|
  {
    seq(|g|, y requires 0 <= y < |g| => if y1 <= y <= y2 then ClearRow(g[y], x1, x2, c) else g[y])
  }

  /** Block move: row y of [top, bot] becomes row y + n, or blank when that is outside the
      region. As in the source, nothing moves when |n| covers the whole region. */
  function ScrollRows(g: Grid, top: int, bot: int, n: int, w: nat, c: Attr): (g': Grid)
    ensures |g'| == |g|
    ensures IsGrid(g, w, |g|) ==> IsGrid(g', w, |g|)
  {
    if n >= bot - top + 1 || -n >= bot - top + 1 then g
    else seq(|g|, y requires 0 <= y < |g| => ScrolledRow(g, top, bot, n, w, c, y))
  }

  function ScrolledRow(g: Grid, top: int, bot: int, n: int, w: nat, c: Attr, y: nat): (r: Row)
    requires y < |g|
    ensures IsGrid(g, w, |g|) ==> |r| == w
  {
    if y < top || y > bot then g[y]
    else if top <= y + n <= bot && 0 <= y + n < |g| then g[y + n]
    else BlankRow(w, c)
  }

  /** Opens a gap of n blanks at cx; cells pushed past the right edge are lost. */
  function InsertCells(r: Row, cx: int, n: nat, c: Attr): (r': Row)
    ensures |r'| == |r|
  {
    seq(|r|, x requires 0 <= x < |r| =>
      if x < cx then r[x] else if x < cx + n || x - n < 0 then Cell(SPACE, c) else r[x - n])
  }

  /** Removes n cells at cx; blanks come in at the right edge. */
  function DeleteCells(r: Row, cx: int, n: nat, c: Attr): (r': Row)
    ensures |r'| == |r|
  {
    seq(|r|, x requires 0 <= x < |r| =>
      if x < cx then r[x] else if x + n < |r| then r[x + n] else Cell(SPACE, c))
  }

  /** Writes cells at cx, overwriting or (insert) pushing the old cells to the right. */
  function PutRow(r: Row, cx: int, cells: seq<Cell>, insert: bool): (r': Row)
    ensures |r'| == |r|
  {
    seq(|r|, x requires 0 <= x < |r| =>
      if x < cx then r[x]
      else if x < cx + |cells| then cells[x - cx]
      else if insert && x - |cells| >= 0 then r[x - |cells|]
      else r[x])
  }

  function Min(a: int, b: int): int {
    if a < b then a else b
  }

  function Max(a: int, b: int): int {
    if a < b then b else a
  }
}
