/** Properties of the terminal model: the state invariant and its exact side conditions, how a
    batch of characters unfolds into single bytes, and how input may be cut into chunks. */
module TermTheory {
  import opened Common
  import opened TermTypes
  import opened TermTables
  import opened TermModel

  // ----- The state invariant -----

  // Scrolling, clearing and moving the cursor about the screen.
  lemma ScreenKeepsInvariant(v: Vt, x1: int, y1: int, x2: int, y2: int, n: int)
    requires WF(v)
    ensures WF(Clear(v, x1, y1, x2, y2)) && WF(Scroll(v, y1, y2, n))
    ensures Clear(v, x1, y1, x2, y2) == v.(grid := Clear(v, x1, y1, x2, y2).grid)
  {
  }

  lemma MoveKeepsInvariant(v: Vt, x: int, y: int)
    requires WF(v)
    ensures WF(MoveTo(v, x, y)) <==> 0 <= x <= v.w && 0 <= y < v.h
  {
  }

  lemma LineFeedKeepsInvariant(v: Vt)
    requires WF(v)
    ensures WF(DoLF(v)) && WF(DoIndexUp(v))
    ensures DoLF(v).w == v.w && DoLF(v).state == v.state && DoLF(v).modes == v.modes
    ensures DoLF(v).h == v.h && 0 <= DoLF(v).cy < v.h && v.w > 0
  {
    ScreenKeepsInvariant(v, 0, v.top, v.w - 1, v.bot, 1);
    ScreenKeepsInvariant(v, 0, v.top, v.w - 1, v.bot, -1);
    MoveKeepsInvariant(v, v.cx, v.cy + 1);
    MoveKeepsInvariant(v, v.cx, v.cy - 1);
  }

  lemma LineFeedKeepsBounds(v: Vt)
    requires Bounds(v)
    ensures Bounds(DoLF(v))
  {
    var v1 := v.(state := NormalState);
    LineFeedKeepsInvariant(v1);
    assert DoLF(v1) == DoLF(v).(state := NormalState);
  }

  lemma NextLineKeepsInvariant(v: Vt)
    requires WF(v)
    ensures WF(DoNextLine(v)) && WF(DoCR(v)) && WF(DoFF(v))
    ensures DoNextLine(v).w == v.w && DoNextLine(v).state == v.state && DoNextLine(v).modes == v.modes
  {
    LineFeedKeepsInvariant(v);
    MoveKeepsInvariant(DoLF(v), 0, DoLF(v).cy);
    MoveKeepsInvariant(v, 0, v.cy);
    var c := Clear(v, 0, v.top, v.w - 1, v.bot);
    ScreenKeepsInvariant(v, 0, v.top, v.w - 1, v.bot, 1);
    MoveKeepsInvariant(c, 0, v.top);
    assert 0 <= v.top < v.h && 0 <= v.cy < v.h && v.w >= 2;
    hide WF, DoLF, Clear;
  }

  lemma WrapKeepsInvariant(v: Vt)
    requires WF(v)
    ensures WF(Wrap(v)) && Wrap(v).cx < v.w && Wrap(v).w == v.w && Wrap(v).state == v.state
    ensures Wrap(v).modes == v.modes
  {
    NextLineKeepsInvariant(v);
  }

  lemma PutKeepsInvariant(v: Vt, bs: seq<Byte>)
    requires WF(v) && v.cx + |bs| <= v.w
    ensures WF(Put(v, bs))
  {
  }

  lemma FlagsKeepInvariant(v: Vt)
    requires WF(v)
    ensures forall f :: WF(RaiseFlags(v, f)) && WF(LowerFlags(v, f))
  {
  }

  lemma PensKeepInvariant(v: Vt)
    requires WF(v)
    ensures forall c :: 0 <= c < 8 ==> WF(v.(fg := c)) && WF(v.(bg := c))
    ensures WF(LowerFlags(v, STYLE).(fg := 7, bg := 0))
  {
  }

  lemma OneColorKeepsInvariant(v: Vt, p: int)
    requires WF(v)
    ensures WF(OneColor(v, p)) && OneColor(v, p).nparam == v.nparam
  {
    hide WF;
    FlagsKeepInvariant(v);
    PensKeepInvariant(v);
  }

  lemma {:induction false} ColorsKeepInvariant(v: Vt, n: nat)
    requires WF(v)
    ensures WF(ColorsFrom(v, n))
    decreases v.nparam + 1 - n
  {
    if n <= v.nparam {
      OneColorKeepsInvariant(v, P(v, n));
      ColorsKeepInvariant(OneColor(v, P(v, n)), n + 1);
    }
  }

  lemma TabKeepsInvariant(v: Vt)
    requires WF(v)
    ensures WF(DoTab(v))
  {
    NextLineKeepsInvariant(v);
    assert 0 <= v.cx <= v.w && 0 <= v.cy < v.h && 2 <= v.w;
    MoveKeepsInvariant(v, v.w - 1, v.cy);
    var x := TabTarget(v);
    MoveKeepsInvariant(v, x, v.cy);
    assert 0 <= x;
    hide WF, DoNextLine, MoveTo, TabTarget;
  }

  lemma BackspaceKeepsInvariant(v: Vt)
    requires WF(v)
    ensures WF(DoBS(v))
  {
    var v1 := if v.cx > 0 then MoveTo(v, v.cx - 1, v.cy) else v;
    assert WF(v1);
    ScreenKeepsInvariant(v1, v1.cx, v1.cy, v1.cx, v1.cy, 1);
    hide WF, Clear, MoveTo;
  }

  lemma CharEditKeepsInvariant(v: Vt)
    requires WF(v)
    ensures WF(DoDeleteChar(v)) && WF(DoInsertChar(v)) && WF(DoEraseChar(v))
  {
  }

  lemma LineEditKeepsInvariant(v: Vt)
    requires WF(v)
    ensures WF(DoDeleteLine(v)) && WF(DoInsertLine(v))
  {
    ScreenKeepsInvariant(v, 0, v.cy, v.w - 1, v.bot, Count(v));
    ScreenKeepsInvariant(v, 0, v.cy, v.w - 1, v.bot, -Count(v));
  }

  lemma EraseLineKeepsInvariant(v: Vt)
    requires WF(v)
    ensures WF(DoEraseLine(v))
  {
    ScreenKeepsInvariant(v, v.cx, v.cy, v.w - 1, v.cy, 1);
    ScreenKeepsInvariant(v, 0, v.cy, v.cx, v.cy, 1);
    ScreenKeepsInvariant(v, 0, v.cy, v.w - 1, v.cy, 1);
    hide WF, Clear;
  }

  lemma ClearTwiceKeepsInvariant(v: Vt, y: int, x1: int, x2: int, y1: int, y2: int)
    requires WF(v)
    ensures WF(Clear(Clear(v, x1, y, x2, y), 0, y1, v.w - 1, y2)) && Clear(v, x1, y, x2, y).w == v.w
  {
    ScreenKeepsInvariant(v, x1, y, x2, y, 1);
    ScreenKeepsInvariant(Clear(v, x1, y, x2, y), 0, y1, v.w - 1, y2, 1);
    hide WF, Clear;
  }

  lemma EraseDisplayKeepsInvariant(v: Vt)
    requires WF(v)
    ensures WF(DoEraseDisplay(v))
  {
    ScreenKeepsInvariant(v, v.cx, v.cy, v.w - 1, v.cy, 1);
    ScreenKeepsInvariant(v, 0, v.cy, v.cx, v.cy, 1);
    ScreenKeepsInvariant(v, 0, 0, v.w - 1, v.h - 1, 1);
    ClearTwiceKeepsInvariant(v, v.cy, v.cx, v.w - 1, v.cy + 1, v.h - 1);
    ClearTwiceKeepsInvariant(v, v.cy, 0, v.cx, 0, v.cy - 1);
    hide WF, Clear;
  }

  lemma ResetKeepsInvariant(v: Vt)
    requires WF(v)
    ensures WF(DoReset(v)) && WF(DoScreenAlign(v))
  {
  }

  lemma EditKeepsInvariant(v: Vt, a: Action)
    requires WF(v)
    ensures WF(ExecEdit(v, a))
  {
    hide WF, DoLF, DoCR, DoFF, DoBS, DoTab, DoIndexUp, DoNextLine, DoReset, DoScreenAlign, DoDeleteChar,
      DoInsertChar, DoEraseChar, DoDeleteLine, DoInsertLine, DoEraseDisplay, DoEraseLine;
    LineFeedKeepsInvariant(v);
    NextLineKeepsInvariant(v);
    TabKeepsInvariant(v);
    BackspaceKeepsInvariant(v);
    CharEditKeepsInvariant(v);
    LineEditKeepsInvariant(v);
    EraseDisplayKeepsInvariant(v);
    EraseLineKeepsInvariant(v);
    ResetKeepsInvariant(v);
  }

  lemma MarginsInvariant(v: Vt)
    requires WF(v)
    ensures WF(DoSetMargins(v)) <==> P(v, 0) <= v.h
  {
  }

  lemma PositionInvariant(v: Vt)
    requires WF(v)
    ensures WF(DoCursorPosition(v)) <==> (CursorRelative in v.modes ==> Clamp(P(v, 0), v.h) - 1 + v.top < v.h)
  {
  }

  lemma ArrowsKeepInvariant(v: Vt)
    requires WF(v)
    ensures WF(DoCursorLeft(v)) && WF(DoCursorRight(v)) && WF(DoCursorUp(v)) && WF(DoCursorDown(v))
  {
  }

  lemma SavedCursorInvariant(v: Vt)
    requires WF(v)
    ensures WF(DoSaveCursor(v))
    ensures WF(DoRestoreCursor(v)) <==> v.sx <= v.w && v.sy < v.h
  {
  }

  lemma Vt52CursorInvariant(v: Vt, b: Byte)
    requires WF(v)
    ensures WF(DoVt52CursorY(v, b))
    ensures P(v, 0) < v.h ==> WF(DoVt52CursorX(v, b))
  {
  }

  lemma CursorMoveInvariant(v: Vt, a: Action, b: Byte)
    requires WF(v) && IsCursorMove(a)
    requires a == Vt52CursorX ==> P(v, 0) < v.h
    ensures ActionOk(v, a) <==> WF(ExecCursorMove(v, a, b))
  {
    MarginsInvariant(v);
    PositionInvariant(v);
    ArrowsKeepInvariant(v);
    SavedCursorInvariant(v);
    Vt52CursorInvariant(v, b);
    hide WF, DoSetMargins, DoCursorPosition, DoCursorLeft, DoCursorRight, DoCursorUp, DoCursorDown, DoSaveCursor,
      DoRestoreCursor, DoVt52CursorX, DoVt52CursorY;
  }

  lemma ParamsKeepInvariant(v: Vt, b: Byte)
    requires WF(v) && v.state != Vt52CursorXState
    ensures '0' as int <= b ==> WF(DoParamDigit(v, b))
    ensures WF(DoClearParam(v)) && WF(DoSetTab(v)) && WF(DoClearTab(v))
  {
    var i := v.nparam;
    assert v.params[i] * 10 >= 0;
  }

  lemma SetModeInvariant(v: Vt)
    requires WF(v) && v.state != Vt52CursorXState
    ensures WF(DoSetMode(v))
  {
    FlagsKeepInvariant(v);
    SmallSettingsInvariant(v);
    hide WF, RaiseFlags, LowerFlags, Say, P;
  }

  lemma ModeInvariant(v: Vt)
    requires WF(v) && v.state != Vt52CursorXState
    ensures WF(DoSetMode(v)) && WF(DoClearMode(v))
  {
    SetModeInvariant(v);
    FlagsKeepInvariant(v);
    SmallSettingsInvariant(v);
    assert WF(v.(state := Vt52Normal));
    hide WF, RaiseFlags, LowerFlags, Say, P, DoSetMode;
  }

  lemma SmallSettingsInvariant(v: Vt)
    requires WF(v)
    ensures forall e :: WF(Say(v, e))
    ensures WF(v.(qMode := true)) && WF(v.(quoteMode := true)) && WF(DoStatusReport(v))
    ensures WF(v.(nparam := v.nparam + 1)) <==> v.nparam < MAX_PARAMS - 1
  {
  }

  lemma SetColorsInvariant(v: Vt)
    requires WF(v)
    ensures WF(DoSetColors(v))
  {
    FlagsKeepInvariant(v);
    ColorsKeepInvariant(LowerFlags(v, STYLE), 0);
    assert WF(LowerFlags(v, STYLE).(fg := 7, bg := 0));
    hide WF, ColorsFrom, LowerFlags;
  }

  lemma SettingInvariant(v: Vt, a: Action, b: Byte)
    requires WF(v) && !IsEdit(a) && !IsCursorMove(a) && v.state != Vt52CursorXState
    requires a == ParamDigit ==> '0' as int <= b
    ensures ActionOk(v, a) <==> WF(ExecSetting(v, a, b))
  {
    hide WF, Say, RaiseFlags, LowerFlags, DoParamDigit, DoClearParam, DoSetTab, DoClearTab, DoSetMode, DoClearMode,
      DoStatusReport, DoSetColors;
    SmallSettingsInvariant(v);
    FlagsKeepInvariant(v);
    SetColorsInvariant(v);
    ModeInvariant(v);
    ParamsKeepInvariant(v, b);
  }

  // The VT52 column state is entered only by the action that makes its invariant true.
  lemma EnterState(v: Vt, a: Action, b: Byte, next: State)
    requires WF(v)
    requires next == Vt52CursorXState ==> a == Vt52CursorY
    requires a == Vt52CursorX ==> v.state == Vt52CursorXState
    requires a == ParamDigit ==> '0' as int <= b
    ensures ActionOk(v, a) <==> WF(Exec(v.(state := next), a, b))
  {
    if next == Vt52CursorXState {
      hide ExecEdit, ExecSetting, DoVt52CursorX, ActionOk;
      ColumnEntered(v, b);
    } else {
      hide *;
      OtherState(v, a, next);
      ExecInvariant(v.(state := next), a, b);
    }
  }

  lemma ColumnEntered(v: Vt, b: Byte)
    requires WF(v)
    ensures ActionOk(v, Vt52CursorY) && WF(Exec(v.(state := Vt52CursorXState), Vt52CursorY, b))
  {
    assert DoVt52CursorY(v.(state := Vt52CursorXState), b) == DoVt52CursorY(v, b).(state := Vt52CursorXState);
  }

  lemma OtherState(v: Vt, a: Action, next: State)
    requires WF(v) && next != Vt52CursorXState
    ensures WF(v.(state := next)) && v.(state := next).state == next && ActionOk(v, a) == ActionOk(v.(state := next), a)
    ensures v.state == Vt52CursorXState ==> P(v.(state := next), 0) < v.(state := next).h
  {
  }

  lemma ExecInvariant(v: Vt, a: Action, b: Byte)
    requires WF(v) && v.state != Vt52CursorXState && (a == Vt52CursorX ==> P(v, 0) < v.h)
    requires a == ParamDigit ==> '0' as int <= b
    ensures ActionOk(v, a) <==> WF(Exec(v, a, b))
  {
    hide WF, P, ExecEdit, ExecCursorMove, ExecSetting;
    EditKeepsInvariant(v, a);
    if IsCursorMove(a) {
      CursorMoveInvariant(v, a, b);
    } else if !IsEdit(a) {
      SettingInvariant(v, a, b);
    }
  }

  /** One byte keeps the invariant exactly when its side condition holds. */
  lemma StepInvariant(v: Vt, drop: bool, b: Byte)
    requires WF(v)
    ensures StepOk(v, b) <==> WF(Step(v, drop, b).vt)
  {
    LookupEntry(v.state, b);
    var o := Lookup(v.state, b);
    if o.action != NormalInput {
      EnterState(v, o.action, b, o.next);
    } else {
      WrapKeepsInvariant(v);
      PutKeepsInvariant(Wrap(v), [b]);
    }
  }

  lemma {:induction false} RunInvariant(v: Vt, drop: bool, bs: seq<Byte>)
    requires WF(v) && RunOk(v, drop, bs)
    ensures WF(Run(v, drop, bs).vt)
    decreases |bs|
  {
    if bs != [] {
      StepInvariant(v, drop, bs[0]);
      var s := Step(v, drop, bs[0]);
      RunInvariant(s.vt, s.drop, bs[1..]);
    }
  }
}
