/** What characters and control characters do, said of the bytes that arrive and the cells and fields
    they leave. */
module TermControls {
  import opened Common
  import opened TermTypes
  import opened TermTables
  import opened TermModel
  import opened TermTheory
  import opened TermChunks
  import opened TermCodes
  import opened TermLaws

  // The states in which control characters are obeyed: also in the middle of a VT100 sequence.
  predicate Obeys(s: State) {
    s == NormalState || s == EscState || s == BracketState || s == Vt52Normal
  }

  lemma CommandBytes()
    ensures forall j :: 0 <= j < |BRACKET_COMMANDS| ==> BRACKET_COMMANDS[j].byte >= 32
  {
  }

  lemma ParameterBytes()
    ensures forall j :: 0 <= j < |BRACKET_PARAMETERS| ==> BRACKET_PARAMETERS[j].byte >= 32
  {
  }

  lemma PickControl(a: seq<StateOption>, z: seq<StateOption>, s: State, i: nat)
    requires i < 6 && z != [] && z[|z| - 1].byte == -1
    requires forall j :: 0 <= j < |a| ==> a[j].byte >= 32
    ensures 7 <= Controls(s)[i].byte < 14
    ensures var t := a + (Controls(s) + z);
            t[|t| - 1].byte == -1 && Pick(t, Controls(s)[i].byte) == Controls(s)[i]
  {
    var b := Controls(s)[i].byte;
    assert (Controls(s) + z)[i] == Controls(s)[i];
    PickSkip(a, Controls(s) + z, b);
    PickAt(Controls(s) + z, b, i);
  }

  // The four tables: other entries, the control characters, the rest.
  lemma ControlTables()
    ensures |ESC| == 20 && (forall j :: 0 <= j < 13 ==> ESC[j].byte >= 32)
    ensures ESC == ESC[..13] + (Controls(EscState) + [StateOption(-1, NoAction, NormalState)])
    ensures NORMAL == [] + (Controls(NormalState) +
                            [StateOption(27, NoAction, EscState), StateOption(-1, NormalInput, NormalState)])
    ensures VT52_NORMAL == [] + (Controls(Vt52Normal) +
                                 [StateOption(27, ClearParam, Vt52Esc), StateOption(-1, NormalInput, Vt52Normal)])
  {
  }

  lemma BracketTable()
    ensures BRACKET == (BRACKET_PARAMETERS + BRACKET_COMMANDS) +
                       (Controls(BracketState) + [StateOption(-1, NoAction, NormalState)])
    ensures forall j :: 0 <= j < |BRACKET_PARAMETERS + BRACKET_COMMANDS| ==>
              (BRACKET_PARAMETERS + BRACKET_COMMANDS)[j].byte >= 32
  {
    CommandBytes();
    ParameterBytes();
    hide Controls, BRACKET_PARAMETERS, BRACKET_COMMANDS;
  }

  // Entry i of the control characters.
  lemma ControlEntry(s: State, i: nat)
    requires Obeys(s) && i < 6
    ensures 7 <= Controls(s)[i].byte < 14 && Lookup(s, Controls(s)[i].byte) == Controls(s)[i]
  {
    ControlTables();
    BracketTable();
    hide Controls, Pick, NORMAL, ESC, BRACKET, VT52_NORMAL, BRACKET_COMMANDS, BRACKET_PARAMETERS;
    if s == NormalState {
      PickControl([], [StateOption(27, NoAction, EscState), StateOption(-1, NormalInput, NormalState)], s, i);
    } else if s == Vt52Normal {
      PickControl([], [StateOption(27, ClearParam, Vt52Esc), StateOption(-1, NormalInput, Vt52Normal)], s, i);
    } else if s == EscState {
      PickControl(ESC[..13], [StateOption(-1, NoAction, NormalState)], s, i);
    } else {
      PickControl(BRACKET_PARAMETERS + BRACKET_COMMANDS, [StateOption(-1, NoAction, NormalState)], s, i);
    }
  }

  lemma ControlEntries(s: State)
    requires Obeys(s)
    ensures Lookup(s, 13) == StateOption(13, CR, s) && Lookup(s, 10) == StateOption(10, LF, s)
    ensures Lookup(s, 12) == StateOption(12, FF, s) && Lookup(s, 9) == StateOption(9, Tab, s)
    ensures Lookup(s, 8) == StateOption(8, BS, s) && Lookup(s, 7) == StateOption(7, Bell, s)
  {
    hide Lookup;
    ControlEntry(s, 0);
    ControlEntry(s, 1);
    ControlEntry(s, 2);
    ControlEntry(s, 3);
    ControlEntry(s, 4);
    ControlEntry(s, 5);
  }

  // One byte whose action keeps the state.
  lemma OneByte(v: Vt, b: Byte, a: Action)
    requires Lookup(v.state, b) == StateOption(b, a, v.state) && a != NormalInput
    ensures After(v, [b]) == Exec(v, a, b) && Run(v, false, [b]).drop == false
  {
    assert v.(state := v.state) == v;
    hide *;
    AfterIs(v, [b]);
    StepOf(v, b, StateOption(b, a, v.state));
    RunByte(v, b, []);
  }

  // ESC and one character, from and to the normal state.
  lemma EscCommand(v: Vt, b: Byte, a: Action)
    requires v.state == NormalState && a != NormalInput
    requires Lookup(EscState, b).action == a && Lookup(EscState, b).next == NormalState
    ensures After(v, Esc(b)) == Exec(v, a, b)
  {
    hide *;
    SameState(v, NormalState);
    AfterIs(v, Esc(b));
    EscRun(v, b, Lookup(EscState, b));
  }

  lemma EscEntries()
    ensures Lookup(EscState, 'D' as int) == StateOption('D' as int, IndexDown, NormalState)
    ensures Lookup(EscState, 'E' as int) == StateOption('E' as int, NextLine, NormalState)
    ensures Lookup(EscState, 'M' as int) == StateOption('M' as int, IndexUp, NormalState)
    ensures Lookup(EscState, 'H' as int) == StateOption('H' as int, SetTab, NormalState)
  {
    hide Lookup;
    EscPlace(6);
    EscPlace(8);
    EscPlace(7);
    EscPlace(5);
  }

  lemma Feeds(u: Vt, b: Byte)
    ensures Exec(u, LF, b) == DoLF(u) && Exec(u, CR, b) == DoCR(u) && Exec(u, FF, b) == DoFF(u)
    ensures Exec(u, BS, b) == DoBS(u) && Exec(u, Tab, b) == DoTab(u)
    ensures Exec(u, IndexDown, b) == DoLF(u) && Exec(u, IndexUp, b) == DoIndexUp(u)
    ensures Exec(u, NextLine, b) == DoNextLine(u)
  {
    hide Exec, IsEdit, DoLF, DoCR, DoFF, DoBS, DoTab, DoIndexUp, DoNextLine;
    FeedKinds();
    ExecEdited(u, LF, b);
    ExecEdited(u, CR, b);
    ExecEdited(u, FF, b);
    ExecEdited(u, BS, b);
    ExecEdited(u, Tab, b);
    ExecEdited(u, IndexDown, b);
    ExecEdited(u, IndexUp, b);
    ExecEdited(u, NextLine, b);
  }

  // ----- Carriage return, line feed -----

  /** Carriage return and bell. */
  lemma ReturnLaw(v: Vt)
    requires WF(v) && Obeys(v.state)
    ensures After(v, [13]) == v.(cx := 0)
    ensures After(v, [7]) == v.(out := v.out + [BellRung])
  {
    hide Lookup, Exec, Run;
    ControlEntries(v.state);
    OneByte(v, 13, CR);
    OneByte(v, 7, Bell);
    Feeds(v, 13);
    BellIs(v, 7);
    hide WF;
  }

  lemma BellIs(v: Vt, b: Byte)
    ensures Exec(v, Bell, b) == v.(out := v.out + [BellRung])
  {
  }

  // The rows of the region have moved up by n (down, if negative).
  ghost predicate Scrolled(v: Vt, r: Vt, n: int) {
    && OnlyGrid(v, r) && IsGrid(v.grid, v.w, v.h)
    && forall y, x :: 0 <= y < v.h && 0 <= x < v.w ==>
         r.grid[y][x] == if y < v.top || y > v.bot then v.grid[y][x]
                         else if v.top <= y + n <= v.bot && 0 <= y + n < v.h then v.grid[y + n][x] else BlankCell(v)
  }

  /** r is v after a line feed: the cursor moves down, or the region scrolls, unless it has one line
      only. */
  ghost predicate LineFed(v: Vt, r: Vt) {
    if v.cy < v.bot then r == v.(cy := v.cy + 1)
    else if v.top < v.bot then Scrolled(v, r, 1)
    else r == v
  }

  ghost predicate LineBack(v: Vt, r: Vt) {
    if v.cy > v.top then r == v.(cy := v.cy - 1)
    else if v.top < v.bot then Scrolled(v, r, -1)
    else r == v
  }

  lemma ScrollIs(v: Vt, n: int)
    requires WF(v) && (n == 1 || n == -1)
    ensures if v.top < v.bot then Scrolled(v, Scroll(v, v.top, v.bot, n), n) else Scroll(v, v.top, v.bot, n) == v
  {
    PenIsBrush(v);
    hide Pen, Brush;
  }

  lemma FeedIs(v: Vt)
    requires WF(v)
    ensures LineFed(v, DoLF(v)) && LineBack(v, DoIndexUp(v))
  {
    ScrollIs(v, 1);
    ScrollIs(v, -1);
    hide Scroll, WF, Scrolled;
  }

  /** Line feed, index, next line and reverse index. */
  lemma LineFeedLaw(v: Vt)
    requires WF(v) && Obeys(v.state)
    ensures LineFed(v, After(v, [10]))
    ensures v.state == NormalState ==>
              && After(v, Esc('D' as int)) == After(v, [10])
              && After(v, Esc('E' as int)) == After(v, [10]).(cx := 0)
              && LineBack(v, After(v, Esc('M' as int)))
  {
    hide *;
    ControlEntries(v.state);
    OneByte(v, 10, LF);
    Feeds(v, 10);
    FeedIs(v);
    if v.state == NormalState {
      EscEntries();
      EscCommand(v, 'D' as int, IndexDown);
      Feeds(v, 'D' as int);
      EscCommand(v, 'E' as int, NextLine);
      Feeds(v, 'E' as int);
      NextLineIs(v);
      EscCommand(v, 'M' as int, IndexUp);
      Feeds(v, 'M' as int);
    }
  }

  lemma NextLineIs(v: Vt)
    ensures DoNextLine(v) == DoLF(v).(cx := 0)
  {
    hide DoLF;
  }

  lemma FormFeedCells(v: Vt)
    requires WF(v)
    ensures var r := DoFF(v);
            && r == v.(grid := r.grid, cx := 0, cy := v.top) && IsGrid(r.grid, v.w, v.h)
            && forall y, x :: 0 <= y < v.h && 0 <= x < v.w ==>
                 r.grid[y][x] == if v.top <= y <= v.bot then BlankCell(v) else v.grid[y][x]
  {
    ClearCells(v, 0, v.top, v.w - 1, v.bot);
    hide Clear, WF, BlankCell;
  }

  /** Form feed clears the region and puts the cursor on its first row. */
  lemma FormFeedLaw(v: Vt)
    requires WF(v) && Obeys(v.state)
    ensures var r := After(v, [12]);
            && r == v.(grid := r.grid, cx := 0, cy := v.top) && IsGrid(r.grid, v.w, v.h)
            && forall y, x :: 0 <= y < v.h && 0 <= x < v.w ==>
                 r.grid[y][x] == if v.top <= y <= v.bot then BlankCell(v) else v.grid[y][x]
  {
    FormFeedCells(v);
    hide *;
    ControlEntries(v.state);
    OneByte(v, 12, FF);
    Feeds(v, 12);
  }

  // ----- Tab and backspace -----

  lemma BackspaceCells(v: Vt)
    requires WF(v)
    ensures var r, x' := DoBS(v), Max(v.cx - 1, 0);
            && (DestructBs !in v.modes ==> r == v.(cx := x'))
            && (DestructBs in v.modes ==>
                  && r == v.(cx := x', grid := r.grid) && IsGrid(r.grid, v.w, v.h)
                  && forall y, x :: 0 <= y < v.h && 0 <= x < v.w ==>
                       r.grid[y][x] == if y == v.cy && x == x' then BlankCell(v) else v.grid[y][x])
  {
    var v1 := if v.cx > 0 then MoveTo(v, v.cx - 1, v.cy) else v;
    assert WF(v1) && BlankCell(v1) == BlankCell(v) && v1 == v.(cx := Max(v.cx - 1, 0));
    ClearCells(v1, v1.cx, v1.cy, v1.cx, v1.cy);
    hide Clear, WF, BlankCell;
  }

  /** Backspace; a destructive one blanks the place it comes to. */
  lemma BackspaceLaw(v: Vt)
    requires WF(v) && Obeys(v.state)
    ensures var r, x' := After(v, [8]), Max(v.cx - 1, 0);
            && (DestructBs !in v.modes ==> r == v.(cx := x'))
            && (DestructBs in v.modes ==>
                  && r == v.(cx := x', grid := r.grid) && IsGrid(r.grid, v.w, v.h)
                  && forall y, x :: 0 <= y < v.h && 0 <= x < v.w ==>
                       r.grid[y][x] == if y == v.cy && x == x' then BlankCell(v) else v.grid[y][x])
  {
    BackspaceCells(v);
    hide *;
    ControlEntries(v.state);
    OneByte(v, 8, BS);
    Feeds(v, 8);
  }

  // The first tab stop behind the cursor.
  ghost predicate NextTab(v: Vt, t: int) {
    && v.cx < t < v.w && |v.tabs| == MAX_WIDTH && v.w < MAX_WIDTH && v.cx >= 0 && v.tabs[t]
    && forall k :: v.cx < k < t ==> !v.tabs[k]
  }

  lemma TabIs(v: Vt)
    requires WF(v)
    ensures forall t :: NextTab(v, t) ==> TabTarget(v) == t
    ensures (forall t :: !NextTab(v, t)) ==> TabTarget(v) == 8 * (v.cx / 8) + 8
  {
    var x := NextStop(v.tabs, v.cx + 1, v.w);
    if x != 0 {
      assert NextTab(v, x);
    }
    hide NextStop;
  }

  /** Tab goes to the next stop, or else to the next multiple of 8; off the line, to its last column or
      to the next line. */
  lemma TabLaw(v: Vt)
    requires WF(v) && Obeys(v.state)
    ensures forall t :: NextTab(v, t) ==> After(v, [9]) == v.(cx := t)
    ensures var t := 8 * (v.cx / 8) + 8;
            (forall t' :: !NextTab(v, t')) ==>
              After(v, [9]) == if t < v.w then v.(cx := t)
                               else if NoEolWrap in v.modes then v.(cx := v.w - 1)
                               else After(v, [10]).(cx := 0)
  {
    hide Lookup, Exec, Run, WF;
    TabIs(v);
    ControlEntries(v.state);
    OneByte(v, 9, Tab);
    OneByte(v, 10, LF);
    Feeds(v, 9);
    Feeds(v, 10);
    NextLineIs(v);
    hide TabTarget, DoNextLine, DoLF;
  }

  lemma TabCommands(u: Vt, b: Byte)
    requires 0 <= u.cx < |u.tabs| == MAX_WIDTH
    ensures Exec(u, SetTab, b) == u.(tabs := u.tabs[u.cx := true])
    ensures Exec(u, ClearTab, b) == if P(u, 0) == 3 then u.(tabs := seq(MAX_WIDTH, i => false))
                                    else if P(u, 0) == 0 then u.(tabs := u.tabs[u.cx := false])
                                    else u
  {
    hide P;
  }

  /** ESC H sets a stop at the cursor, ESC [ g clears it, ESC [ 3 g clears all stops. */
  lemma TabStopsLaw(v: Vt, ps: seq<nat>)
    requires Waiting(v) && |ps| <= MAX_PARAMS
    ensures 0 <= v.cx < |v.tabs|
    ensures After(v, Esc('H' as int)) == v.(tabs := v.tabs[v.cx := true])
    ensures Aside(After(v, Csi(ps, 'g' as int)), v)
         == if Arg(ps, 0) == 3 then v.(tabs := seq(|v.tabs|, i => false))
            else if Arg(ps, 0) == 0 then v.(tabs := v.tabs[v.cx := false])
            else v
  {
    assert 0 <= v.cx < |v.tabs| == MAX_WIDTH && v.state == NormalState && |v.params| == MAX_PARAMS;
    var u := Given(v, ps, false);
    TabsAside(v, u, v.tabs[v.cx := false]);
    TabsAside(v, u, seq(MAX_WIDTH, i => false));
    TabsAside(v, u, v.tabs);
    hide *;
    EscEntries();
    EscCommand(v, 'H' as int, SetTab);
    TabCommands(v, 'H' as int);
    TabEntry();
    GivenIs(v, ps, false);
    AfterIs(v, Csi(ps, 'g' as int));
    CsiRun(v, ps, 'g' as int, ClearTab);
    TabCommands(u, 'g' as int);
  }

  lemma TabEntry()
    ensures Lookup(BracketState, 'g' as int) == StateOption('g' as int, ClearTab, NormalState)
  {
    hide Lookup;
    Command(20, 'g' as int);
  }

  lemma TabsAside(v: Vt, u: Vt, tabs: seq<bool>)
    requires u == v.(params := u.params, nparam := u.nparam, qMode := u.qMode, gotParam := u.gotParam)
    ensures Aside(u.(tabs := tabs), v) == v.(tabs := tabs) && u.(tabs := u.tabs) == u && v.(tabs := v.tabs) == v
  {
  }

  // ----- Printing -----

  lemma PutCell(v: Vt, c: Byte)
    requires WF(v) && v.cx < v.w
    ensures var r := Put(v, [c]);
            && r == v.(cx := v.cx + 1, grid := r.grid) && IsGrid(r.grid, v.w, v.h)
            && forall y, x :: 0 <= y < v.h && 0 <= x < v.w ==>
                 r.grid[y][x] == Typed(v.grid[y], y == v.cy, v.cx, Insert in v.modes, x, Cell(c, Brush(v)))
  {
    PenIsBrush(v);
    hide Pen, Brush;
  }

  // Place x of a row in which a cell has been written at column cx, if here.
  function Typed(row: Row, here: bool, cx: int, insert: bool, x: nat, cell: Cell): Cell
    requires x < |row|
  {
    if !here || x < cx then row[x] else if x == cx then cell else if insert && x > 0 then row[x - 1] else row[x]
  }

  /** A printing character is written at the cursor in the current colours and style; in insert mode
      it pushes the rest of the row. */
  lemma PrintLaw(v: Vt, c: Byte)
    requires WF(v) && IsNormal(v.state) && c > 31 && v.cx < v.w
    ensures var r := After(v, [c]);
            && r == v.(cx := v.cx + 1, grid := r.grid) && IsGrid(r.grid, v.w, v.h)
            && forall y, x :: 0 <= y < v.h && 0 <= x < v.w ==>
                 r.grid[y][x] == Typed(v.grid[y], y == v.cy, v.cx, Insert in v.modes, x, Cell(c, Brush(v)))
  {
    assert Wrap(v) == v;
    PutCell(v, c);
    StepPrint(v, c);
    hide *;
    AfterIs(v, [c]);
    RunByte(v, c, []);
  }

  /** Behind the last column the character goes to the next line, or over the last one. */
  lemma PrintAtEdge(v: Vt, c: Byte)
    requires WF(v) && IsNormal(v.state) && c > 31 && v.cx == v.w
    ensures After(v, [c]) == if NoEolWrap in v.modes then After(v.(cx := v.w - 1), [c])
                             else After(After(v, [10]).(cx := 0), [c])
  {
    var u := if NoEolWrap in v.modes then v.(cx := v.w - 1) else DoLF(v).(cx := 0);
    NextLineIs(v);
    assert Wrap(v) == u;
    LineFeedKeepsInvariant(v);
    assert u.state == v.state && Wrap(u) == u by { hide Scroll; }
    StepPrint(v, c);
    StepPrint(u, c);
    assert Obeys(v.state);
    hide *;
    AfterIs(v, [c]);
    AfterIs(u, [c]);
    RunByte(v, c, []);
    RunByte(u, c, []);
    ControlEntries(v.state);
    OneByte(v, 10, LF);
    Feeds(v, 10);
  }

  /** With wrapping off, what overflows the line is dropped. */
  lemma OverflowLaw(v: Vt, bs: seq<Byte>)
    requires WF(v) && IsNormal(v.state) && Printable(bs) && NoEolWrap in v.modes
    requires v.cx < v.w && |bs| >= v.w - v.cx
    ensures After(v, bs) == After(v, bs[..v.w - v.cx])
  {
    var n := v.w - v.cx;
    assert Wrap(v) == v && bs[..n][..n] == bs[..n] && Printable(bs[..n]) && n >= 1;
    hide Run, Put, Wrap, WF;
    RunBatch(v, bs, n);
    RunBatch(v, bs[..n], n);
  }

  /** Control characters without an entry do nothing. */
  lemma IgnoredControls(v: Vt, c: Byte)
    requires IsNormal(v.state) && c < 32 && !(7 <= c <= 10) && c != 12 && c != 13 && c != 27
    ensures After(v, [c]) == v
  {
    PickAt(Table(v.state), c, 7);
    StepControl(v, c);
    hide *;
    AfterIs(v, [c]);
    RunByte(v, c, []);
  }
}
