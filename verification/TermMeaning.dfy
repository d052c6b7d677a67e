/** What the editing actions of the terminal mean, said of the rows and cells they leave. */
module TermMeaning {
  import opened Common
  import opened TermTypes
  import opened TermTables
  import opened TermModel
  import opened TermTheory

  // A row cleared from edge to edge.
  lemma ClearedRow(r: Row, w: nat, c: Attr)
    requires |r| == w
    ensures ClearRow(r, 0, w - 1, c) == BlankRow(w, c)
  {
  }

  // ----- Lines -----

  /** Row y after n lines have been inserted at row y1 of a region that ends at row y2. */
  function InsertedLine(g: Grid, y1: int, y2: int, n: nat, blank: Row, y: nat): Row
    requires y < |g|
  {
    if y < y1 || y > y2 then g[y] else if y - n >= y1 && y - n >= 0 then g[y - n] else blank
  }

  function DeletedLine(g: Grid, y1: int, y2: int, n: nat, blank: Row, y: nat): Row
    requires y < |g|
  {
    if y < y1 || y > y2 then g[y] else if y + n <= y2 && y + n < |g| then g[y + n] else blank
  }

  /** insert_line is IL (section 8.3.67 of ECMA-48) from the cursor row to the bottom margin, for
      every count and wherever the cursor is. */
  lemma InsertLineMeaning(v: Vt)
    requires WF(v)
    ensures var v' := DoInsertLine(v);
            && v' == v.(grid := v'.grid) && |v'.grid| == v.h
            && forall y :: 0 <= y < v.h ==>
                 v'.grid[y] == InsertedLine(v.grid, v.cy, v.bot, Count(v), BlankRow(v.w, Pen(v)), y)
  {
    if Count(v) >= v.bot - v.cy + 1 {
      forall y | v.cy <= y <= v.bot ensures ClearRow(v.grid[y], 0, v.w - 1, Pen(v)) == BlankRow(v.w, Pen(v)) {
        ClearedRow(v.grid[y], v.w, Pen(v));
      }
    }
  }

  /** delete_line is DL (section 8.3.32 of ECMA-48) in the same sense. */
  lemma DeleteLineMeaning(v: Vt)
    requires WF(v)
    ensures var v' := DoDeleteLine(v);
            && v' == v.(grid := v'.grid) && |v'.grid| == v.h
            && forall y :: 0 <= y < v.h ==>
                 v'.grid[y] == DeletedLine(v.grid, v.cy, v.bot, Count(v), BlankRow(v.w, Pen(v)), y)
  {
    if Count(v) >= v.bot - v.cy + 1 {
      forall y | v.cy <= y <= v.bot ensures ClearRow(v.grid[y], 0, v.w - 1, Pen(v)) == BlankRow(v.w, Pen(v)) {
        ClearedRow(v.grid[y], v.w, Pen(v));
      }
    }
  }

  /** Deleting the lines just inserted brings back every row of the region that was not pushed over
      the bottom margin. */
  lemma DeleteUndoesInsert(v: Vt, y: nat)
    requires WF(v) && y < v.h
    ensures var v' := DoDeleteLine(DoInsertLine(v));
            v'.grid[y] == if v.cy <= y <= v.bot && y + Count(v) > v.bot then BlankRow(v.w, Pen(v)) else v.grid[y]
  {
    LineEditKeepsInvariant(v);
    InsertLineMeaning(v);
    var u := DoInsertLine(v);
    hide DoInsertLine, DoDeleteLine;
    DeleteLineMeaning(u);
  }

  /** A line feed on or below the bottom margin scrolls the region up by one line and moves nothing
      else; a region of one line does not scroll. */
  lemma LineFeedMeaning(v: Vt)
    requires WF(v)
    ensures var v' := DoLF(v);
            if v.cy < v.bot then v' == v.(cy := v.cy + 1)
            else if v.bot <= v.top then v' == v
            else v' == v.(grid := v'.grid) && |v'.grid| == v.h
                 && forall y :: 0 <= y < v.h ==>
                      v'.grid[y] == DeletedLine(v.grid, v.top, v.bot, 1, BlankRow(v.w, Pen(v)), y)
  {
  }

  // ----- Characters -----

  /** insert_char opens a gap in the cursor row; what is pushed past the right edge is lost, and no
      other row changes. */
  lemma InsertCharMeaning(v: Vt, x: nat)
    requires WF(v) && x < v.w
    ensures var v' := DoInsertChar(v);
            && WF(v') && Pen(v') == Pen(v) && v' == v.(grid := v.grid[v.cy := v'.grid[v.cy]])
            && v'.grid[v.cy][x] == if x < v.cx then v.grid[v.cy][x]
                                   else if x - Count(v) >= v.cx then v.grid[v.cy][x - Count(v)] else Cell(SPACE, Pen(v))
  {
    CharEditKeepsInvariant(v);
    if Count(v) >= v.w - v.cx {
      var c := Clear(v, v.cx, v.cy, v.w - 1, v.cy);
      assert c.grid == v.grid[v.cy := c.grid[v.cy]];
    }
  }

  /** delete_char closes a gap; blanks come in at the right edge. */
  lemma DeleteCharMeaning(v: Vt, x: nat)
    requires WF(v) && x < v.w
    ensures var v' := DoDeleteChar(v);
            && WF(v') && Pen(v') == Pen(v) && v' == v.(grid := v.grid[v.cy := v'.grid[v.cy]])
            && v'.grid[v.cy][x] == if x < v.cx then v.grid[v.cy][x]
                                   else if x + Count(v) < v.w then v.grid[v.cy][x + Count(v)] else Cell(SPACE, Pen(v))
  {
    CharEditKeepsInvariant(v);
    if Count(v) >= v.w - v.cx {
      var c := Clear(v, v.cx, v.cy, v.w - 1, v.cy);
      assert c.grid == v.grid[v.cy := c.grid[v.cy]];
    }
  }

  /** Deleting the characters just inserted restores the cursor row up to its last n cells. */
  lemma DeleteCharUndoesInsert(v: Vt, x: nat)
    requires WF(v) && x < v.w
    ensures var v' := DoDeleteChar(DoInsertChar(v));
            && v.cy < |v'.grid| && x < |v'.grid[v.cy]|
            && v'.grid[v.cy][x] == if v.cx <= x && x + Count(v) >= v.w then Cell(SPACE, Pen(v)) else v.grid[v.cy][x]
  {
    hide *;
    var u := DoInsertChar(v);
    InsertCharMeaning(v, x);
    if x + Count(v) < v.w {
      InsertCharMeaning(v, x + Count(v));
    }
    SameCount(v, u.grid);
    DeleteCharMeaning(u, x);
    SameCount(DoDeleteChar(u), []);
  }

  lemma SameCount(v: Vt, g: Grid)
    requires WF(v)
    ensures Count(v.(grid := g)) == Count(v) && v.cy < |v.grid| && v.cy < v.h && 0 <= v.cy && 0 <= v.cx
    ensures |v.grid| == v.h && |v.grid[v.cy]| == v.w
  {
  }

  lemma ClearOneRow(v: Vt, x1: int, x2: int, y: nat)
    requires WF(v) && y < v.h && y != v.cy
    ensures var v' := Clear(v, x1, v.cy, x2, v.cy); |v'.grid| == v.h && v'.grid[y] == v.grid[y]
  {
  }

  lemma BackspaceOneRow(v: Vt, y: nat)
    requires WF(v) && y < v.h && y != v.cy
    ensures |DoBS(v).grid| == v.h && DoBS(v).grid[y] == v.grid[y]
  {
    var v1 := if v.cx > 0 then MoveTo(v, v.cx - 1, v.cy) else v;
    ClearOneRow(v1, v1.cx, v1.cx, y);
  }

  /** Edits to the cursor row leave all other rows alone. */
  lemma OneRowEdits(v: Vt, a: Action, y: nat)
    requires WF(v) && y < v.h && y != v.cy
    requires a == BS || a == DeleteChar || a == InsertChar || a == EraseChar || a == EraseLine
    ensures |ExecEdit(v, a).grid| == v.h && ExecEdit(v, a).grid[y] == v.grid[y]
  {
    BackspaceOneRow(v, y);
    InsertCharMeaning(v, 0);
    DeleteCharMeaning(v, 0);
    ClearOneRow(v, v.cx, v.w - 1, y);
    ClearOneRow(v, 0, v.cx, y);
    ClearOneRow(v, 0, v.w - 1, y);
    ClearOneRow(v, v.cx, v.cx + Min(Count(v), v.w - v.cx) - 1, y);
    hide DoBS, DoInsertChar, DoDeleteChar, Clear;
  }

  lemma PrintingOneRow(v: Vt, bs: seq<Byte>, y: nat)
    requires WF(v) && y < v.h && y != v.cy && v.cx + |bs| <= v.w
    ensures Put(v, bs).grid[y] == v.grid[y]
  {
  }

  // ----- Cursor and margins -----

  /** set_margins sets margins in order exactly if the top given is not below the bottom given,
      both being on the screen. */
  lemma MarginsOrdered(v: Vt)
    requires WF(v) && P(v, 0) <= v.h
    ensures var v' := DoSetMargins(v);
            var bottom := if P(v, 1) < 1 || P(v, 1) > v.h then v.h as int else P(v, 1);
            (v'.top <= v'.bot <==> Max(P(v, 0), 1) <= bottom) && (v'.top <= v'.bot ==> v'.top <= v'.cy <= v'.bot)
  {
  }

  ghost predicate SameMargins(v: Vt, v': Vt) {
    v'.top == v.top && v'.bot == v.bot && v'.h == v.h
  }

  ghost predicate SameSaved(v: Vt, v': Vt) {
    v'.sx == v.sx && v'.sy == v.sy && v'.sattr == v.sattr
  }

  // What the actions leave alone: only two of them touch the margins, and one the saved cursor.
  ghost predicate SameBoth(v: Vt, v': Vt) {
    SameMargins(v, v') && SameSaved(v, v')
  }

  lemma LineFrame(v: Vt)
    ensures SameBoth(v, DoLF(v)) && SameBoth(v, DoIndexUp(v)) && SameBoth(v, DoNextLine(v)) && SameBoth(v, DoFF(v))
  {
    hide ScrollRows, ClearRect, Pen;
  }

  lemma ColumnFrame(v: Vt)
    ensures SameBoth(v, DoTab(v)) && SameBoth(v, DoBS(v)) && SameBoth(v, DoCR(v))
  {
    LineFrame(v);
    hide DoNextLine, ClearRect, Pen, NextStop;
  }

  lemma FeedFrame(v: Vt, a: Action)
    requires IsFeed(a)
    ensures SameBoth(v, ExecEdit(v, a))
  {
    LineFrame(v);
    ColumnFrame(v);
    hide DoLF, DoIndexUp, DoNextLine, DoFF, DoTab, DoBS, DoCR, SameBoth;
  }

  lemma ScreenFrame(v: Vt)
    ensures SameBoth(v, DoEraseDisplay(v)) && SameBoth(v, DoEraseLine(v)) && SameBoth(v, DoScreenAlign(v))
    ensures SameSaved(v, DoReset(v))
  {
    hide ClearRect, Pen, CalcColor;
  }

  lemma RowFrame(v: Vt)
    ensures SameBoth(v, DoDeleteChar(v)) && SameBoth(v, DoInsertChar(v)) && SameBoth(v, DoEraseChar(v))
    ensures SameBoth(v, DoDeleteLine(v)) && SameBoth(v, DoInsertLine(v))
  {
    hide ScrollRows, ClearRect, Pen, InsertCells, DeleteCells;
  }

  lemma EraseFrame(v: Vt, a: Action)
    requires IsErase(a)
    ensures (a != Reset ==> SameMargins(v, ExecEdit(v, a))) && SameSaved(v, ExecEdit(v, a))
  {
    ScreenFrame(v);
    RowFrame(v);
    hide DoReset, DoScreenAlign, DoEraseDisplay, DoEraseLine, DoDeleteChar, DoInsertChar, DoEraseChar, DoDeleteLine,
      DoInsertLine, SameMargins, SameSaved;
  }

  lemma CursorMoveFrame(v: Vt, a: Action, b: Byte)
    requires IsCursorMove(a)
    ensures a != SetMargins ==> SameMargins(v, ExecCursorMove(v, a, b))
    ensures a != SaveCursor ==> SameSaved(v, ExecCursorMove(v, a, b))
  {
    hide Clamp;
  }

  lemma {:induction false} ColorsFrame(v: Vt, n: nat)
    ensures SameMargins(v, ColorsFrom(v, n)) && SameSaved(v, ColorsFrom(v, n))
    decreases v.nparam + 1 - n
  {
    if n <= v.nparam {
      ColorsFrame(OneColor(v, P(v, n)), n + 1);
    }
  }

  lemma ModeFrame(v: Vt)
    ensures SameBoth(v, DoSetMode(v)) && SameBoth(v, DoClearMode(v)) && SameBoth(v, DoSetColors(v))
  {
    ColorsFrame(LowerFlags(v, STYLE), 0);
    hide ColorsFrom, P;
  }

  lemma SettingFrame(v: Vt, a: Action, b: Byte)
    ensures SameBoth(v, ExecSetting(v, a, b))
  {
    ModeFrame(v);
    hide DoSetMode, DoClearMode, DoSetColors, P;
  }

  lemma PrintFrame(v: Vt, bs: seq<Byte>)
    ensures SameMargins(v, Put(Wrap(v), bs)) && SameSaved(v, Put(Wrap(v), bs))
  {
    hide ScrollRows, PutRow, Pen, Cells;
  }

  lemma ExecFrame(v: Vt, a: Action, b: Byte)
    ensures a != Reset && a != SetMargins ==> SameMargins(v, Exec(v, a, b))
    ensures a != SaveCursor ==> SameSaved(v, Exec(v, a, b))
  {
    hide ExecEdit, ExecCursorMove, ExecSetting, IsFeed, IsErase, IsCursorMove;
    if IsEdit(a) {
      if IsFeed(a) {
        FeedFrame(v, a);
      } else {
        EraseFrame(v, a);
      }
    } else if IsCursorMove(a) {
      CursorMoveFrame(v, a, b);
    } else {
      SettingFrame(v, a, b);
    }
  }

  // A byte that sets margins sets them in order.
  ghost predicate OrderedByte(v: Vt, b: Byte) {
    Lookup(v.state, b).action == SetMargins ==>
      Max(P(v, 0), 1) <= if P(v, 1) < 1 || P(v, 1) > v.h then v.h else P(v, 1)
  }

  /** One byte: a reset orders the margins, set_margins orders them exactly under the condition
      above, and everything else leaves them alone. */
  lemma StepMargins(v: Vt, drop: bool, b: Byte)
    requires WF(v) && StepOk(v, b)
    ensures var v', a := Step(v, drop, b).vt, Lookup(v.state, b).action;
            if a == SetMargins then v'.top <= v'.bot <==> OrderedByte(v, b)
            else if a == Reset then v'.top <= v'.bot
            else SameMargins(v, v')
  {
    hide *;
    var o := Lookup(v.state, b);
    StepIs(v, drop, b);
    if o.action == SetMargins {
      SetOrder(v, o.next, b);
    } else if o.action == Reset {
      ResetOrder(v, o.next, b);
    } else if o.action != NormalInput {
      ExecFrame(v.(state := o.next), o.action, b);
      StateFrame(v, o.next, Step(v, drop, b).vt);
    }
  }

  lemma StepIs(v: Vt, drop: bool, b: Byte)
    ensures var o, v' := Lookup(v.state, b), Step(v, drop, b).vt;
            if o.action != NormalInput then v' == Exec(v.(state := o.next), o.action, b)
            else SameMargins(v, v') && SameSaved(v, v')
  {
    hide Exec, Put, Wrap, Lookup;
    PrintFrame(v.(state := Lookup(v.state, b).next), [b]);
  }

  lemma StateFrame(v: Vt, next: State, v': Vt)
    ensures SameMargins(v.(state := next), v') == SameMargins(v, v')
    ensures SameSaved(v.(state := next), v') == SameSaved(v, v')
  {
  }

  lemma SetOrder(v: Vt, next: State, b: Byte)
    requires WF(v) && StepOk(v, b) && Lookup(v.state, b).action == SetMargins
    ensures var v' := Exec(v.(state := next), SetMargins, b); v'.top <= v'.bot <==> OrderedByte(v, b)
  {
    hide ExecEdit, ExecSetting, Lookup;
    assert Exec(v.(state := next), SetMargins, b) == DoSetMargins(v.(state := next));
  }

  lemma ResetOrder(v: Vt, next: State, b: Byte)
    requires WF(v)
    ensures var v' := Exec(v.(state := next), Reset, b); v'.top <= v'.bot
  {
    hide ExecCursorMove, ExecSetting;
    assert Exec(v.(state := next), Reset, b) == DoReset(v.(state := next));
  }

  // Margins in order before the run and after each of its bytes.
  ghost predicate OrderedThroughout(v: Vt, drop: bool, bs: seq<Byte>)
    decreases |bs|
  {
    && v.top <= v.bot
    && (bs == [] || (var s := Step(v, drop, bs[0]); OrderedThroughout(s.vt, s.drop, bs[1..])))
  }

  ghost predicate OrderedBytes(v: Vt, drop: bool, bs: seq<Byte>)
    decreases |bs|
  {
    bs == [] || (OrderedByte(v, bs[0]) && (var s := Step(v, drop, bs[0]); OrderedBytes(s.vt, s.drop, bs[1..])))
  }

  /** Over a whole run the margins stay in order if and only if they were in order before and every
      set_margins was given them in order. */
  lemma {:induction false} MarginsStayOrdered(v: Vt, drop: bool, bs: seq<Byte>)
    requires WF(v) && RunOk(v, drop, bs)
    ensures OrderedThroughout(v, drop, bs) <==> v.top <= v.bot && OrderedBytes(v, drop, bs)
    decreases |bs|
  {
    if bs != [] {
      StepMargins(v, drop, bs[0]);
      StepInvariant(v, drop, bs[0]);
      var s := Step(v, drop, bs[0]);
      hide WF, Step, StepOk;
      MarginsStayOrdered(s.vt, s.drop, bs[1..]);
    }
  }

  /** A new terminal and every resize have margins in order. */
  lemma FirstMargins(v: Vt, w: nat, h: nat, sattr: set<Flag>)
    requires WF(v) && h >= 2
    ensures Initial(w, h, sattr).top <= Initial(w, h, sattr).bot && Resized(v, w, h).top <= Resized(v, w, h).bot
  {
  }

  // ----- The saved cursor -----

  // No byte of the run saves the cursor.
  ghost predicate NoSave(v: Vt, drop: bool, bs: seq<Byte>)
    decreases |bs|
  {
    bs == [] ||
    (Lookup(v.state, bs[0]).action != SaveCursor && (var s := Step(v, drop, bs[0]); NoSave(s.vt, s.drop, bs[1..])))
  }

  lemma StepSaved(v: Vt, drop: bool, b: Byte)
    requires Lookup(v.state, b).action != SaveCursor
    ensures SameSaved(v, Step(v, drop, b).vt)
  {
    hide *;
    var o := Lookup(v.state, b);
    StepIs(v, drop, b);
    if o.action != NormalInput {
      ExecFrame(v.(state := o.next), o.action, b);
      StateFrame(v, o.next, Step(v, drop, b).vt);
    }
  }

  lemma {:induction false} RunSaved(v: Vt, drop: bool, bs: seq<Byte>)
    requires NoSave(v, drop, bs)
    ensures SameSaved(v, Run(v, drop, bs).vt)
    decreases |bs|
  {
    if bs != [] {
      StepSaved(v, drop, bs[0]);
      var s := Step(v, drop, bs[0]);
      hide Step, Lookup;
      RunSaved(s.vt, s.drop, bs[1..]);
    }
  }

  /** After a save, and any run that saves no more, a restore brings back the position and style of
      the save, and changes nothing else. */
  lemma RestoreAfterSave(v: Vt, drop: bool, bs: seq<Byte>)
    requires NoSave(DoSaveCursor(v), drop, bs)
    ensures var later := Run(DoSaveCursor(v), drop, bs).vt;
            var r := DoRestoreCursor(later);
            && r.cx == v.cx && r.cy == v.cy && r.modes * STYLE == v.modes * STYLE
            && r.modes - STYLE == later.modes - STYLE && r == later.(cx := r.cx, cy := r.cy, modes := r.modes)
  {
    RunSaved(DoSaveCursor(v), drop, bs);
    hide Run, NoSave;
  }
}
