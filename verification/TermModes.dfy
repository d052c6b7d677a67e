/** What the commands for colours, modes, margins, the saved cursor, resets and reports do, and the
    VT52 commands, said of the bytes that arrive and the fields and bytes they leave. */
module TermModes {
  import opened Common
  import opened TermTypes
  import opened TermTables
  import opened TermModel
  import opened TermTheory
  import opened TermChunks
  import opened TermCodes
  import opened TermLaws
  import opened TermControls

  // A command is run on the terminal with its parameters read.
  lemma CommandRun(v: Vt, ps: seq<nat>, private: bool, final: Byte, a: Action)
    requires Waiting(v) && |ps| <= MAX_PARAMS
    requires Lookup(BracketState, final).action == a != NormalInput && Lookup(BracketState, final).next == NormalState
    ensures After(v, Sequence(ps, private, final)) == Exec(Given(v, ps, private), a, final)
    ensures !Run(v, false, Sequence(ps, private, final)).drop
  {
    SequenceIs(ps, private, final);
    hide *;
    WaitingMeans(v);
    AfterIs(v, Sequence(ps, private, final));
    if private {
      PrivateRun(v, ps, final, a);
    } else {
      CsiRun(v, ps, final, a);
    }
  }

  // With or without a question mark.
  function Sequence(ps: seq<nat>, private: bool, final: Byte): seq<Byte> {
    if private then Private(ps, final) else Csi(ps, final)
  }

  lemma SequenceIs(ps: seq<nat>, private: bool, final: Byte)
    ensures Sequence(ps, true, final) == Private(ps, final) && Sequence(ps, false, final) == Csi(ps, final)
  {
  }

  predicate IsSetting(a: Action) {
    !IsEdit(a) && !IsCursorMove(a)
  }

  lemma ExecSet(u: Vt, a: Action, b: Byte)
    requires IsSetting(a)
    ensures Exec(u, a, b) == ExecSetting(u, a, b)
  {
    hide ExecEdit, ExecCursorMove, ExecSetting;
  }

  lemma SettingKinds()
    ensures IsSetting(SetColors) && IsSetting(SetMode) && IsSetting(ClearMode)
    ensures IsSetting(KeypadNumeric) && IsSetting(KeypadApplication)
    ensures IsSetting(DeviceAttrib) && IsSetting(RequestParam) && IsSetting(StatusReport) && IsSetting(Vt52Ident)
  {
  }

  // ----- Colours -----

  predicate SetsFg(p: nat) {
    p == 0 || 30 <= p < 40
  }

  predicate SetsBg(p: nat) {
    p == 0 || 40 <= p < 50
  }

  // Code i is the last one that decides on the foreground (background).
  ghost predicate LastFg(qs: seq<nat>, i: nat) {
    i < |qs| && SetsFg(qs[i]) && forall j :: i < j < |qs| ==> !SetsFg(qs[j])
  }

  ghost predicate LastBg(qs: seq<nat>, i: nat) {
    i < |qs| && SetsBg(qs[i]) && forall j :: i < j < |qs| ==> !SetsBg(qs[j])
  }

  // Code i is p, and no 0 follows.
  ghost predicate Lasting(qs: seq<nat>, i: nat, p: nat) {
    i < |qs| && qs[i] == p && forall j :: i < j < |qs| ==> qs[j] != 0
  }

  // The codes from number n on, applied to colours fg and bg and to modes, give those of r.
  ghost predicate Foreground(fg: int, r: Vt, qs: seq<nat>, n: nat) {
    && ((forall j :: n <= j < |qs| ==> !SetsFg(qs[j])) ==> r.fg == fg)
    && forall i :: n <= i && LastFg(qs, i) ==> r.fg == if 30 <= qs[i] <= 37 then qs[i] - 30 else 7
  }

  ghost predicate Background(bg: int, r: Vt, qs: seq<nat>, n: nat) {
    && ((forall j :: n <= j < |qs| ==> !SetsBg(qs[j])) ==> r.bg == bg)
    && forall i :: n <= i && LastBg(qs, i) ==> r.bg == if 40 <= qs[i] <= 47 then qs[i] - 40 else 0
  }

  ghost predicate Styled(modes: set<Flag>, r: Vt, qs: seq<nat>, n: nat, f: Flag, p: nat) {
    f in r.modes <==> (exists i :: n <= i && Lasting(qs, i, p)) ||
                      (f in modes && forall j :: n <= j < |qs| ==> qs[j] != 0)
  }

  ghost predicate Styles(modes: set<Flag>, r: Vt, qs: seq<nat>, n: nat) {
    && Styled(modes, r, qs, n, Bold, 1) && Styled(modes, r, qs, n, Underline, 4)
    && Styled(modes, r, qs, n, Blink, 5) && Styled(modes, r, qs, n, Inverse, 7)
  }

  // Only colours, styles and messages about them have changed.
  ghost predicate OnlyBrush(v: Vt, r: Vt) {
    && r == v.(fg := r.fg, bg := r.bg, modes := r.modes, out := r.out)
    && r.modes - {Bold, Blink, Underline, Inverse} == v.modes - {Bold, Blink, Underline, Inverse}
    && |v.out| <= |r.out| && r.out[..|v.out|] == v.out
    && forall i :: |v.out| <= i < |r.out| ==> r.out[i].ModeChanged?
  }

  lemma OneColorIs(v: Vt, p: nat)
    ensures var r := OneColor(v, p);
            && OnlyBrush(v, r)
            && r.fg == (if 30 <= p <= 37 then p - 30 else if SetsFg(p) then 7 else v.fg)
            && r.bg == (if 40 <= p <= 47 then p - 40 else if SetsBg(p) then 0 else v.bg)
            && (Bold in r.modes <==> p == 1 || (Bold in v.modes && p != 0))
            && (Underline in r.modes <==> p == 4 || (Underline in v.modes && p != 0))
            && (Blink in r.modes <==> p == 5 || (Blink in v.modes && p != 0))
            && (Inverse in r.modes <==> p == 7 || (Inverse in v.modes && p != 0))
  {
  }

  lemma OnlyBrushChain(v: Vt, u: Vt, r: Vt)
    requires OnlyBrush(v, u) && OnlyBrush(u, r)
    ensures OnlyBrush(v, r)
  {
  }

  lemma MoreStyles(v: Vt, u: Vt, r: Vt, qs: seq<nat>, n: nat, f: Flag, p: nat)
    requires n < |qs| && Styled(u.modes, r, qs, n + 1, f, p) && p != 0
    requires f in u.modes <==> qs[n] == p || (f in v.modes && qs[n] != 0)
    ensures Styled(v.modes, r, qs, n, f, p)
  {
    if f in r.modes {
      if i :| n + 1 <= i && Lasting(qs, i, p) {
        assert n <= i;
      } else if qs[n] == p {
        assert Lasting(qs, n, p);
      }
    } else {
      assert !Lasting(qs, n, p);
    }
  }

  lemma MoreColors(v: Vt, u: Vt, r: Vt, qs: seq<nat>, n: nat)
    requires n < |qs| && Foreground(u.fg, r, qs, n + 1) && Background(u.bg, r, qs, n + 1)
    requires u.fg == (if 30 <= qs[n] <= 37 then qs[n] - 30 else if SetsFg(qs[n]) then 7 else v.fg)
    requires u.bg == (if 40 <= qs[n] <= 47 then qs[n] - 40 else if SetsBg(qs[n]) then 0 else v.bg)
    ensures Foreground(v.fg, r, qs, n) && Background(v.bg, r, qs, n)
  {
  }

  lemma {:induction false} ColorsLaw(v: Vt, qs: seq<nat>, n: nat)
    requires qs != [] && n <= |qs| == v.nparam + 1 && forall i :: 0 <= i < |qs| ==> P(v, i) == qs[i]
    ensures var r := ColorsFrom(v, n);
            OnlyBrush(v, r) && Foreground(v.fg, r, qs, n) && Background(v.bg, r, qs, n) && Styles(v.modes, r, qs, n)
    decreases |qs| - n
  {
    if n < |qs| {
      var u := OneColor(v, qs[n]);
      OneColorIs(v, qs[n]);
      hide OneColor, SetsFg, SetsBg;
      ColorsLaw(u, qs, n + 1);
      var r := ColorsFrom(u, n + 1);
      MoreColors(v, u, r, qs, n);
      MoreStyles(v, u, r, qs, n, Bold, 1);
      MoreStyles(v, u, r, qs, n, Underline, 4);
      MoreStyles(v, u, r, qs, n, Blink, 5);
      MoreStyles(v, u, r, qs, n, Inverse, 7);
      OnlyBrushChain(v, u, r);
    }
  }

  // No code at all means 0.
  function Codes(ps: seq<nat>): seq<nat> {
    if ps == [] then [0] else ps
  }

  lemma CodesGiven(v: Vt, ps: seq<nat>)
    requires |ps| <= MAX_PARAMS
    ensures var u, qs := Given(v, ps, false), Codes(ps);
            && qs != [] && |qs| == u.nparam + 1 && (forall i :: 0 <= i < |qs| ==> P(u, i) == qs[i])
            && u.fg == v.fg && u.bg == v.bg && u.modes == v.modes
  {
  }

  lemma NoStyle(u: Vt)
    ensures var r := LowerFlags(u, STYLE);
            && OnlyBrush(u, r) && r.modes == u.modes - {Bold, Blink, Underline, Inverse} && r.fg == u.fg && r.bg == u.bg
            && r.nparam == u.nparam && r.params == u.params
  {
  }

  lemma SetColorsIs(u: Vt, qs: seq<nat>)
    requires qs != [] && |qs| == u.nparam + 1 && forall i :: 0 <= i < |qs| ==> P(u, i) == qs[i]
    ensures var r := DoSetColors(u);
            OnlyBrush(u, r) && Foreground(u.fg, r, qs, 0) && Background(u.bg, r, qs, 0) && Styles({}, r, qs, 0)
  {
    var v := LowerFlags(u, STYLE);
    NoStyle(u);
    assert forall i :: 0 <= i < |qs| ==> P(v, i) == qs[i];
    if u.nparam == 0 && P(u, 0) == 0 {
      assert qs == [0];
    } else {
      hide LowerFlags, P, STYLE;
      ColorsLaw(v, qs, 0);
      hide Foreground, Background, ColorsFrom;
      OnlyBrushChain(u, v, ColorsFrom(v, 0));
    }
  }

  lemma OnlyBrushAside(v: Vt, u: Vt, r: Vt)
    requires u == v.(params := u.params, nparam := u.nparam, qMode := u.qMode, gotParam := u.gotParam)
    requires OnlyBrush(u, r)
    ensures OnlyBrush(v, Aside(r, v))
  {
  }

  lemma AsideBrush(v: Vt, r: Vt, qs: seq<nat>)
    requires Foreground(v.fg, r, qs, 0) && Background(v.bg, r, qs, 0) && Styles({}, r, qs, 0)
    ensures var r' := Aside(r, v);
            Foreground(v.fg, r', qs, 0) && Background(v.bg, r', qs, 0) && Styles({}, r', qs, 0)
  {
  }

  lemma ColorEntry()
    ensures Lookup(BracketState, 'm' as int) == StateOption('m' as int, SetColors, NormalState)
  {
    hide Lookup;
    Command(19, 'm' as int);
  }

  lemma ColorsDone(u: Vt, b: Byte)
    ensures Exec(u, SetColors, b) == DoSetColors(u)
  {
    SettingKinds();
    ExecSet(u, SetColors, b);
    hide Exec, DoSetColors;
  }

  /** ESC [ codes m: the last of 30 to 37 (40 to 47) sets the colour, unless a 0 follows; 1, 4, 5 and 7
      last until a 0, and no style outlives the command. */
  lemma ColorLaw(v: Vt, ps: seq<nat>)
    requires Waiting(v) && |ps| <= MAX_PARAMS
    ensures var r, qs := Aside(After(v, Csi(ps, 'm' as int)), v), Codes(ps);
            OnlyBrush(v, r) && Foreground(v.fg, r, qs, 0) && Background(v.bg, r, qs, 0) && Styles({}, r, qs, 0)
  {
    hide *;
    var u, b := Given(v, ps, false), 'm' as int;
    ColorEntry();
    GivenIs(v, ps, false);
    CodesGiven(v, ps);
    CommandRun(v, ps, false, b, SetColors);
    SequenceIs(ps, false, b);
    ColorsDone(u, b);
    SetColorsIs(u, Codes(ps));
    OnlyBrushAside(v, u, DoSetColors(u));
    AsideBrush(v, DoSetColors(u), Codes(ps));
  }

  // The place shows the cell.
  ghost predicate Shows(r: Vt, x: int, y: int, cell: Cell) {
    IsGrid(r.grid, r.w, r.h) && 0 <= y < r.h && 0 <= x < r.w && r.grid[y][x] == cell
  }

  lemma CodesOf(u: Vt)
    requires WF(u)
    ensures OnlyBrush(u, DoSetColors(u))
  {
    var qs: seq<nat> := seq(u.nparam + 1, i requires 0 <= i < u.nparam + 1 => u.params[i]);
    SetColorsIs(u, qs);
  }

  lemma ColorsKeepPlace(u: Vt)
    requires WF(u) && u.state == NormalState
    ensures var r := DoSetColors(u);
            WF(r) && r.state == NormalState && r.cx == u.cx && r.cy == u.cy && r.w == u.w && r.h == u.h
  {
    SetColorsInvariant(u);
    CodesOf(u);
    hide DoSetColors, WF;
  }

  lemma OneCode(fg: int, bg: int, r: Vt, p: nat)
    requires 30 <= p < 38 || 40 <= p < 48
    requires Foreground(fg, r, [p], 0) && Background(bg, r, [p], 0) && Styles({}, r, [p], 0)
    ensures Brush(r) == if p < 38 then Attr(p - 30, bg, {}) else Attr(fg, p - 40, {})
  {
    assert p < 38 ==> LastFg([p], 0);
    assert p >= 40 ==> LastBg([p], 0);
  }

  lemma TypedThere(v: Vt, c: Byte)
    requires WF(v) && v.state == NormalState && c > 31 && v.cx < v.w
    ensures Shows(After(v, [c]), v.cx, v.cy, Cell(c, Brush(v)))
  {
    PrintLaw(v, c);
    hide After, Brush;
  }

  lemma AfterAppend(v: Vt, s: seq<Byte>, t: seq<Byte>)
    requires !Run(v, false, s).drop
    ensures After(v, s + t) == After(After(v, s), t)
  {
    hide Run;
    RunAppend(v, false, s, t);
  }

  lemma FewCodes(p: nat)
    ensures Codes([p]) == [p] && |[p]| <= MAX_PARAMS
  {
  }

  /** After ESC [ 3 k m the next character has foreground k, after ESC [ 4 k m background k. */
  lemma NextCharacter(v: Vt, p: nat, c: Byte)
    requires Waiting(v) && (30 <= p < 38 || 40 <= p < 48) && c > 31 && v.cx < v.w
    ensures Shows(After(v, Csi([p], 'm' as int) + [c]), v.cx, v.cy,
                  Cell(c, if p < 38 then Attr(p - 30, v.bg, {}) else Attr(v.fg, p - 40, {})))
  {
    hide *;
    var u, b := Given(v, [p], false), 'm' as int;
    var r := DoSetColors(u);
    FewCodes(p);
    WaitingMeans(v);
    ColorEntry();
    GivenIs(v, [p], false);
    CodesGiven(v, [p]);
    CommandRun(v, [p], false, b, SetColors);
    SequenceIs([p], false, b);
    ColorsDone(u, b);
    SetColorsIs(u, [p]);
    OneCode(v.fg, v.bg, r, p);
    ColorsKeepPlace(u);
    TypedThere(r, c);
    AfterAppend(v, Csi([p], b), [c]);
  }

  // ----- Modes -----

  ghost predicate Switched(v: Vt, r: Vt, f: Flag, on: bool) {
    var m := if on then v.modes + {f} else v.modes - {f};
    r == v.(modes := m, out := v.out + [ModeChanged(m)])
  }

  // Mode n, with 1000 added for private modes, has been set (or cleared).
  ghost predicate ModeSet(v: Vt, r: Vt, n: int, on: bool) {
    && (n == 1007 ==> Switched(v, r, NoEolWrap, !on)) && (n == 1001 ==> Switched(v, r, CursorAppMode, on))
    && (n == 1006 ==> Switched(v, r, CursorRelative, on)) && (n == 4 ==> Switched(v, r, Insert, on))
    && (n == 20 ==> Switched(v, r, NewLine, on)) && (n == 12 ==> Switched(v, r, LocalEcho, !on))
    && (n == 1025 ==> Switched(v, r, CursorInvisible, !on))
    && (n == 1003 ==> r == v.(out := v.out + [SizeRequested(if on then 132 else 80, v.h)]))
    && (n == 1002 ==> r == if on then v else v.(state := Vt52Normal))
    && (n !in {4, 12, 20, 1001, 1002, 1003, 1006, 1007, 1025} ==> r == v)
  }

  function ModeNumber(ps: seq<nat>, private: bool): int {
    Arg(ps, 0) + if private then 1000 else 0
  }

  lemma ModesSet(u: Vt)
    ensures var n := P(u, 0) + if u.qMode then 1000 else 0;
            ModeSet(u, DoSetMode(u), n, true) && ModeSet(u, DoClearMode(u), n, false)
  {
    hide P;
  }

  lemma ModeAside(v: Vt, u: Vt, r: Vt, n: int, on: bool)
    requires u == v.(params := u.params, nparam := u.nparam, qMode := u.qMode, gotParam := u.gotParam)
    requires ModeSet(u, r, n, on)
    ensures ModeSet(v, Aside(r, v), n, on)
  {
  }

  lemma ModeEntries()
    ensures Lookup(BracketState, 'h' as int) == StateOption('h' as int, SetMode, NormalState)
    ensures Lookup(BracketState, 'l' as int) == StateOption('l' as int, ClearMode, NormalState)
  {
    hide Lookup;
    Command(8, 'h' as int);
    Command(9, 'l' as int);
  }

  lemma ModesDone(u: Vt, b: Byte)
    ensures Exec(u, SetMode, b) == DoSetMode(u) && Exec(u, ClearMode, b) == DoClearMode(u)
    ensures Exec(u, KeypadApplication, b) == RaiseFlags(u, {KeyAppMode})
    ensures Exec(u, KeypadNumeric, b) == LowerFlags(u, {KeyAppMode})
  {
    SettingKinds();
    ExecSet(u, SetMode, b);
    ExecSet(u, ClearMode, b);
    ExecSet(u, KeypadApplication, b);
    ExecSet(u, KeypadNumeric, b);
    hide Exec, DoSetMode, DoClearMode, RaiseFlags, LowerFlags;
  }

  /** ESC [ n h and l, with and without a question mark. */
  lemma ModeLaw(v: Vt, ps: seq<nat>, private: bool)
    requires Waiting(v) && |ps| <= MAX_PARAMS
    ensures ModeSet(v, Aside(After(v, Sequence(ps, private, 'h' as int)), v), ModeNumber(ps, private), true)
    ensures ModeSet(v, Aside(After(v, Sequence(ps, private, 'l' as int)), v), ModeNumber(ps, private), false)
  {
    var u := Given(v, ps, private);
    GivenIs(v, ps, private);
    var n := P(u, 0) + if u.qMode then 1000 else 0;
    assert n == ModeNumber(ps, private) by { hide Given, P, Arg, Waiting; }
    hide *;
    ModeEntries();
    ModesSet(u);
    CommandRun(v, ps, private, 'h' as int, SetMode);
    CommandRun(v, ps, private, 'l' as int, ClearMode);
    ModesDone(u, 'h' as int);
    ModesDone(u, 'l' as int);
    ModeAside(v, u, DoSetMode(u), n, true);
    ModeAside(v, u, DoClearMode(u), n, false);
  }

  /** ESC = and ESC > */
  lemma KeypadLaw(v: Vt)
    requires v.state == NormalState
    ensures Switched(v, After(v, Esc('=' as int)), KeyAppMode, true)
    ensures Switched(v, After(v, Esc('>' as int)), KeyAppMode, false)
  {
    assert Switched(v, RaiseFlags(v, {KeyAppMode}), KeyAppMode, true);
    assert Switched(v, LowerFlags(v, {KeyAppMode}), KeyAppMode, false);
    hide *;
    EscapeCommands();
    EscCommand(v, '=' as int, KeypadApplication);
    EscCommand(v, '>' as int, KeypadNumeric);
    ModesDone(v, '=' as int);
    ModesDone(v, '>' as int);
  }

  lemma EscapeCommands()
    ensures Lookup(EscState, '=' as int) == StateOption('=' as int, KeypadApplication, NormalState)
    ensures Lookup(EscState, '>' as int) == StateOption('>' as int, KeypadNumeric, NormalState)
    ensures Lookup(EscState, '7' as int) == StateOption('7' as int, SaveCursor, NormalState)
    ensures Lookup(EscState, '8' as int) == StateOption('8' as int, RestoreCursor, NormalState)
    ensures Lookup(EscState, 'c' as int) == StateOption('c' as int, Reset, NormalState)
  {
    hide Lookup;
    EscPlace(2);
    EscPlace(1);
    EscPlace(3);
    EscPlace(4);
    EscPlace(9);
  }

  // ----- The saved cursor -----

  function Saved(v: Vt): Vt {
    v.(sx := v.cx, sy := v.cy, sattr := v.modes)
  }

  // The saved place and style, other modes and the colours as they are.
  function Restored(v: Vt): Vt {
    v.(cx := v.sx, cy := v.sy,
       modes := (v.modes - {Bold, Blink, Underline, Inverse}) + (v.sattr * {Bold, Blink, Underline, Inverse}))
  }

  lemma CursorSaved(u: Vt, b: Byte)
    ensures Exec(u, SaveCursor, b) == Saved(u) && Exec(u, RestoreCursor, b) == Restored(u)
  {
    hide Exec, IsCursorMove;
    MoveKinds();
    ExecMoved(u, SaveCursor, b);
    ExecMoved(u, RestoreCursor, b);
  }

  lemma SavedAside(v: Vt, u: Vt)
    requires u == v.(params := u.params, nparam := u.nparam, qMode := u.qMode, gotParam := u.gotParam)
    ensures Aside(Saved(u), v) == Saved(v) && Aside(Restored(u), v) == Restored(v)
  {
  }

  lemma SaveEntries()
    ensures Lookup(BracketState, 's' as int) == StateOption('s' as int, SaveCursor, NormalState)
    ensures Lookup(BracketState, 'u' as int) == StateOption('u' as int, RestoreCursor, NormalState)
  {
    hide Lookup;
    Command(10, 's' as int);
    Command(11, 'u' as int);
  }

  /** ESC 7 and ESC 8, ESC [ s and ESC [ u. */
  lemma SaveLaw(v: Vt, ps: seq<nat>)
    requires Waiting(v) && |ps| <= MAX_PARAMS
    ensures After(v, Esc('7' as int)) == Saved(v) && After(v, Esc('8' as int)) == Restored(v)
    ensures Aside(After(v, Csi(ps, 's' as int)), v) == Saved(v)
    ensures Aside(After(v, Csi(ps, 'u' as int)), v) == Restored(v)
  {
    hide *;
    var u := Given(v, ps, false);
    WaitingMeans(v);
    EscapeCommands();
    EscCommand(v, '7' as int, SaveCursor);
    EscCommand(v, '8' as int, RestoreCursor);
    CursorSaved(v, '7' as int);
    CursorSaved(v, '8' as int);
    SaveEntries();
    GivenIs(v, ps, false);
    CommandRun(v, ps, false, 's' as int, SaveCursor);
    CommandRun(v, ps, false, 'u' as int, RestoreCursor);
    SequenceIs(ps, false, 's' as int);
    SequenceIs(ps, false, 'u' as int);
    CursorSaved(u, 's' as int);
    CursorSaved(u, 'u' as int);
    SavedAside(v, u);
  }

  // ----- Reset and alignment -----

  ghost predicate FilledWith(r: Vt, cell: Cell) {
    IsGrid(r.grid, r.w, r.h) && forall y, x :: 0 <= y < r.h && 0 <= x < r.w ==> r.grid[y][x] == cell
  }

  lemma ResetIs(u: Vt, b: Byte)
    ensures var r := Exec(u, Reset, b);
            var m := u.modes - {NoEolWrap, CursorAppMode, CursorRelative, NewLine, Insert, Underline, Blink,
                                KeyAppMode, CursorInvisible};
            && r == u.(cx := 0, cy := 0, top := 0, bot := u.h - 1, fg := 7, bg := 0, modes := m,
                       tabs := seq(200, i => false), state := NormalState, grid := r.grid,
                       out := u.out + [ModeChanged(m)])
            && FilledWith(r, Cell(32, Attr(7, 0, u.modes * {Bold, Inverse})))
  {
    hide Exec, IsEdit;
    EraseKinds();
    ExecEdited(u, Reset, b);
  }

  /** ESC c: everything but bold, inverse, the remaining modes and the saved cursor. */
  lemma ResetLaw(v: Vt)
    requires v.state == NormalState
    ensures var r := After(v, Esc('c' as int));
            var m := v.modes - {NoEolWrap, CursorAppMode, CursorRelative, NewLine, Insert, Underline, Blink,
                                KeyAppMode, CursorInvisible};
            && r == v.(cx := 0, cy := 0, top := 0, bot := v.h - 1, fg := 7, bg := 0, modes := m,
                       tabs := seq(200, i => false), grid := r.grid, out := v.out + [ModeChanged(m)])
            && FilledWith(r, Cell(32, Attr(7, 0, v.modes * {Bold, Inverse})))
  {
    EscapeCommands();
    EscCommand(v, 'c' as int, Reset);
    hide Exec, Lookup, FilledWith, After;
    ResetIs(v, 'c' as int);
  }

  // ESC, a character with a state of its own, and one more.
  lemma ThreeBytes(v: Vt, a: Byte, s: State, b: Byte, o: StateOption)
    requires v.state == NormalState && Lookup(EscState, a) == StateOption(a, NoAction, s)
    requires o == Lookup(s, b) && o.action != NormalInput && o.next == NormalState
    ensures After(v, [ESCAPE, a, b]) == Exec(v, o.action, b)
  {
    var u := v.(state := s);
    assert u.(state := NormalState) == v && [ESCAPE, a, b] == Esc(a) + [b] && u.state == s;
    NothingDone(u, a);
    hide *;
    AfterIs(v, [ESCAPE, a, b]);
    EscRun(v, a, StateOption(a, NoAction, s));
    RunAppend(v, false, Esc(a), [b]);
    RunByte(u, b, []);
    StepOf(u, b, o);
  }

  lemma ShiftStates()
    ensures Lookup(EscState, '(' as int) == StateOption('(' as int, NoAction, ShiftInState)
    ensures Lookup(EscState, ')' as int) == StateOption(')' as int, NoAction, ShiftOutState)
    ensures Lookup(EscState, '#' as int) == StateOption('#' as int, NoAction, HashState)
    ensures Lookup(HashState, '8' as int) == StateOption('8' as int, ScreenAlign, NormalState)
  {
    PickAt(HASH, '8' as int, 0);
    hide Lookup;
    EscPlace(10);
    EscPlace(11);
    EscPlace(12);
  }

  lemma AlignIs(u: Vt, b: Byte)
    ensures var r := Exec(u, ScreenAlign, b);
            r == u.(grid := r.grid) && FilledWith(r, Cell('E' as int, Attr(7, 0, {})))
  {
    hide Exec, IsEdit;
    EraseKinds();
    ExecEdited(u, ScreenAlign, b);
  }

  /** ESC # 8 fills the screen with the letter E. */
  lemma AlignLaw(v: Vt)
    requires v.state == NormalState
    ensures var r := After(v, [ESCAPE, '#' as int, '8' as int]);
            r == v.(grid := r.grid) && FilledWith(r, Cell('E' as int, Attr(7, 0, {})))
  {
    hide *;
    ShiftStates();
    ThreeBytes(v, '#' as int, HashState, '8' as int, StateOption('8' as int, ScreenAlign, NormalState));
    AlignIs(v, '8' as int);
  }

  lemma CharsetEntry(s: State, c: Byte)
    requires s == ShiftInState || s == ShiftOutState || (s == HashState && c != '8' as int)
    ensures Lookup(s, c).action == NoAction && Lookup(s, c).next == NormalState
  {
  }

  /** The choice of a character set is read over, and so is ESC # with another character. */
  lemma CharsetLaw(v: Vt, c: Byte)
    requires v.state == NormalState
    ensures After(v, [ESCAPE, '(' as int, c]) == v && After(v, [ESCAPE, ')' as int, c]) == v
    ensures c != '8' as int ==> After(v, [ESCAPE, '#' as int, c]) == v
  {
    CharsetEntry(ShiftInState, c);
    CharsetEntry(ShiftOutState, c);
    NothingDone(v, c);
    hide *;
    ShiftStates();
    ThreeBytes(v, '(' as int, ShiftInState, c, Lookup(ShiftInState, c));
    ThreeBytes(v, ')' as int, ShiftOutState, c, Lookup(ShiftOutState, c));
    if c != '8' as int {
      CharsetEntry(HashState, c);
      ThreeBytes(v, '#' as int, HashState, c, Lookup(HashState, c));
    }
  }

  // ----- Margins -----

  // Margins t and b, and the cursor row brought between them.
  function Margined(v: Vt, t: int, b: int): Vt {
    v.(top := t, bot := b, cy := Min(Max(v.cy, t), b))
  }

  lemma MarginsIs(u: Vt)
    ensures DoSetMargins(u)
         == Margined(u, Max(P(u, 0), 1) - 1, (if P(u, 1) < 1 then u.h as int else Min(P(u, 1), u.h)) - 1)
  {
    hide P;
  }

  lemma MarginsSet(u: Vt, b: Byte)
    ensures Exec(u, SetMargins, b) == DoSetMargins(u)
  {
    MoveKinds();
    ExecMoved(u, SetMargins, b);
    hide Exec, DoSetMargins, IsCursorMove;
  }

  function Bottom(v: Vt, ps: seq<nat>): int {
    if Arg(ps, 1) < 1 || Arg(ps, 1) > v.h then v.h as int else Arg(ps, 1)
  }

  lemma BottomIs(v: Vt, ps: seq<nat>)
    ensures Bottom(v, ps) == if Arg(ps, 1) < 1 then v.h as int else Min(Arg(ps, 1), v.h)
  {
  }

  lemma MarginedAside(v: Vt, u: Vt, t: int, b: int)
    requires u == v.(params := u.params, nparam := u.nparam, qMode := u.qMode, gotParam := u.gotParam)
    ensures Aside(Margined(u, t, b), v) == Margined(v, t, b)
  {
  }

  lemma MarginEntry()
    ensures Lookup(BracketState, 'r' as int) == StateOption('r' as int, SetMargins, NormalState)
  {
    hide Lookup;
    Command(13, 'r' as int);
  }

  /** ESC [ top ; bottom r: the top is at least row 1, the bottom at most the last row and the default. */
  lemma MarginLaw(v: Vt, ps: seq<nat>)
    requires Waiting(v) && |ps| <= MAX_PARAMS
    ensures Aside(After(v, Csi(ps, 'r' as int)), v) == Margined(v, Max(Arg(ps, 0), 1) - 1, Bottom(v, ps) - 1)
  {
    hide *;
    var u := Given(v, ps, false);
    BottomIs(v, ps);
    MarginEntry();
    GivenIs(v, ps, false);
    CommandRun(v, ps, false, 'r' as int, SetMargins);
    SequenceIs(ps, false, 'r' as int);
    MarginsSet(u, 'r' as int);
    MarginsIs(u);
    MarginedAside(v, u, Max(Arg(ps, 0), 1) - 1, Bottom(v, ps) - 1);
  }

  // ----- Reports -----

  // The terminal has sent these bytes and done nothing else.
  ghost predicate Sends(v: Vt, r: Vt, text: seq<Byte>) {
    r == v.(out := v.out + [Sent(text)])
  }

  lemma ReportsDone(u: Vt, b: Byte)
    ensures Exec(u, DeviceAttrib, b) == Say(u, DeviceAttributes())
    ensures Exec(u, RequestParam, b) == Say(u, ParameterReport(P(u, 0) + 2))
    ensures Exec(u, StatusReport, b) == DoStatusReport(u)
    ensures Exec(u, Vt52Ident, b) == Say(u, Vt52Identity())
  {
    SettingKinds();
    ExecSet(u, DeviceAttrib, b);
    ExecSet(u, RequestParam, b);
    ExecSet(u, StatusReport, b);
    ExecSet(u, Vt52Ident, b);
    hide Exec, Say, DoStatusReport, DeviceAttributes, ParameterReport, Vt52Identity, P;
  }

  lemma Texts(n: int, m: int)
    ensures DeviceAttributes() == Sent([27, 91, 63, 49, 59, 50, 99])
    ensures StatusOk() == Sent([27, 91, 48, 110])
    ensures Vt52Identity() == Sent([27, 47, 90])
    ensures CursorReport(n, m) == Sent([27, 91] + Decimal(n) + [59] + Decimal(m) + [82])
    ensures ParameterReport(n)
         == Sent([27, 91] + Decimal(n) + [59, 49, 59, 49, 59, 49, 50, 48, 59, 49, 50, 48, 59, 49, 59, 48, 120])
  {
    hide Decimal;
    assert Ascii("[?1;2c") == [91, 63, 49, 59, 50, 99];
    assert Ascii("[0n") == [91, 48, 110];
    assert Ascii("/Z") == [47, 90];
    assert Ascii(";1;1;120;120;1;0x") == [59, 49, 59, 49, 59, 49, 50, 48, 59, 49, 50, 48, 59, 49, 59, 48, 120];
  }

  lemma ReportEntries()
    ensures Lookup(BracketState, 'c' as int) == StateOption('c' as int, DeviceAttrib, NormalState)
    ensures Lookup(BracketState, 'x' as int) == StateOption('x' as int, RequestParam, NormalState)
    ensures Lookup(BracketState, 'n' as int) == StateOption('n' as int, StatusReport, NormalState)
  {
    hide Lookup;
    Command(6, 'c' as int);
    Command(12, 'x' as int);
    Command(15, 'n' as int);
  }

  lemma SaysAside(v: Vt, u: Vt)
    requires u == v.(params := u.params, nparam := u.nparam, qMode := u.qMode, gotParam := u.gotParam)
    ensures forall e :: Aside(Say(u, e), v) == v.(out := v.out + [e])
    ensures Aside(u, v) == v
  {
  }

  lemma StatusReported(u: Vt)
    ensures DoStatusReport(u) == if P(u, 0) == 5 then Say(u, StatusOk())
                                 else if P(u, 0) == 6 then Say(u, CursorReport(u.cy + 1, u.cx + 1)) else u
  {
    hide P, StatusOk, CursorReport;
  }

  /** ESC [ c: the device; ESC [ 5 n: the status; ESC [ 6 n: the cursor's row and column, from 1;
      ESC [ n x: the line parameters. */
  lemma ReportLaw(v: Vt, ps: seq<nat>)
    requires Waiting(v) && |ps| <= MAX_PARAMS
    ensures Sends(v, Aside(After(v, Csi(ps, 'c' as int)), v), [27, 91, 63, 49, 59, 50, 99])
    ensures Sends(v, Aside(After(v, Csi(ps, 'x' as int)), v), [27, 91] + Decimal(Arg(ps, 0) + 2) +
                  [59, 49, 59, 49, 59, 49, 50, 48, 59, 49, 50, 48, 59, 49, 59, 48, 120])
    ensures var r := Aside(After(v, Csi(ps, 'n' as int)), v);
            && (Arg(ps, 0) == 5 ==> Sends(v, r, [27, 91, 48, 110]))
            && (Arg(ps, 0) == 6 ==> Sends(v, r, [27, 91] + Decimal(v.cy + 1) + [59] + Decimal(v.cx + 1) + [82]))
            && (Arg(ps, 0) != 5 && Arg(ps, 0) != 6 ==> r == v)
  {
    hide Lookup, Exec, Run, Csi, Given, Aside, Decimal, Arg, P, Waiting, After, Sequence, Say, DoStatusReport,
      DeviceAttributes, ParameterReport, StatusOk, CursorReport, Vt52Identity;
    var u := Given(v, ps, false);
    ReportEntries();
    GivenIs(v, ps, false);
    CommandRun(v, ps, false, 'c' as int, DeviceAttrib);
    CommandRun(v, ps, false, 'x' as int, RequestParam);
    CommandRun(v, ps, false, 'n' as int, StatusReport);
    SequenceIs(ps, false, 'c' as int);
    SequenceIs(ps, false, 'x' as int);
    SequenceIs(ps, false, 'n' as int);
    ReportsDone(u, 'c' as int);
    ReportsDone(u, 'x' as int);
    ReportsDone(u, 'n' as int);
    StatusReported(u);
    Texts(Arg(ps, 0) + 2, 0);
    Texts(v.cy + 1, v.cx + 1);
    SaysAside(v, u);
  }

  // ----- Sequences that are read over -----

  lemma Quoted(v: Vt)
    ensures var u := Given(v, [], false).(state := BracketState);
            && u.state == BracketState
            && Given(v.(quoteMode := true), [], false).(state := BracketState) == u.(quoteMode := true)
  {
  }

  function Bracketed(rest: seq<Byte>): seq<Byte> {
    [ESCAPE, '[' as int] + rest
  }

  lemma BracketedRun(v: Vt, rest: seq<Byte>)
    requires v.state == NormalState
    ensures After(v, Bracketed(rest)) == After(Given(v, [], false).(state := BracketState), rest)
  {
    Introducer(v, rest);
    hide Run;
  }

  lemma QuoteRead(u: Vt, rest: seq<Byte>)
    requires u.state == BracketState
    ensures After(u, ['"' as int] + rest) == After(u.(quoteMode := true), rest)
  {
    hide *;
    MarkSteps(u);
    AfterIs(u, ['"' as int] + rest);
    AfterIs(u.(quoteMode := true), rest);
    RunByte(u, '"' as int, rest);
  }

  /** A quote behind ESC [ sets its flag. */
  lemma QuoteLaw(v: Vt, rest: seq<Byte>)
    requires v.state == NormalState
    ensures After(v, Bracketed(['"' as int] + rest)) == After(v.(quoteMode := true), Bracketed(rest))
  {
    hide *;
    Quoted(v);
    BracketedRun(v, ['"' as int] + rest);
    BracketedRun(v.(quoteMode := true), rest);
    QuoteRead(Given(v, [], false).(state := BracketState), rest);
  }

  // The characters that have an entry behind ESC; behind ESC [, those that end the sequence and those
  // that may stand in it.
  const ESCAPE_CHARS: set<int> := {91, 62, 61, 55, 56, 72, 68, 77, 69, 99, 40, 41, 35, 13, 10, 12, 9, 8, 7}

  const FINALS: set<int> :=
    {68, 66, 67, 65, 72, 102, 99, 80, 104, 108, 115, 117, 120, 114, 77, 110, 74, 75, 76, 109, 103, 64, 88}

  const AMID: set<int> := {63, 34, 48, 49, 50, 51, 52, 53, 54, 55, 56, 57, 59, 13, 10, 12, 9, 8, 7}

  lemma EscapeChars()
    ensures |ESC| == 20 && ESC[19] == StateOption(-1, NoAction, NormalState)
    ensures forall j :: 0 <= j < 19 ==> ESC[j].byte in ESCAPE_CHARS && ESC[j].byte != -1
  {
  }

  lemma Finals()
    ensures |BRACKET_COMMANDS| == 24 && BRACKET_COMMANDS[23] == StateOption('p' as int, NoAction, NormalState)
    ensures forall j :: 0 <= j < 23 ==> BRACKET_COMMANDS[j].byte in FINALS && 64 <= BRACKET_COMMANDS[j].byte != 112
  {
  }

  lemma UnknownEntry(b: Byte)
    requires b !in ESCAPE_CHARS
    ensures Lookup(EscState, b) == StateOption(-1, NoAction, NormalState)
  {
    EscapeChars();
    hide ESC, Pick, ESCAPE_CHARS;
    PickAt(ESC, b, 19);
  }

  lemma UnknownFinal(b: Byte)
    requires b !in FINALS && b !in AMID
    ensures Lookup(BracketState, b).action == NoAction && Lookup(BracketState, b).next == NormalState
  {
    var z := [StateOption(-1, NoAction, NormalState)];
    Finals();
    ParameterPlaces();
    ControlPlaces();
    BracketTable();
    hide BRACKET, BRACKET_PARAMETERS, BRACKET_COMMANDS, Pick, Controls, FINALS, AMID;
    var t := Controls(BracketState) + z;
    assert BRACKET == BRACKET_PARAMETERS + (BRACKET_COMMANDS + t);
    PickSkip(BRACKET_PARAMETERS, BRACKET_COMMANDS + t, b);
    if b == 'p' as int {
      PickAt(BRACKET_COMMANDS + t, b, 23);
    } else {
      PickSkip(BRACKET_COMMANDS, t, b);
      PickSkip(Controls(BracketState), z, b);
      PickAt(z, b, 0);
    }
  }

  lemma ParameterPlaces()
    ensures forall j :: 0 <= j < |BRACKET_PARAMETERS| ==>
              BRACKET_PARAMETERS[j].byte in AMID && BRACKET_PARAMETERS[j].byte != -1
  {
  }

  lemma ControlPlaces()
    ensures forall j :: 0 <= j < |Controls(BracketState)| ==>
              Controls(BracketState)[j].byte in AMID && Controls(BracketState)[j].byte != -1
  {
  }

  /** Other characters end a sequence without effect. */
  lemma UnknownLaw(v: Vt, ps: seq<nat>, b: Byte)
    requires Waiting(v) && |ps| <= MAX_PARAMS
    ensures b !in ESCAPE_CHARS ==> After(v, Esc(b)) == v
    ensures b !in FINALS && b !in AMID ==> Aside(After(v, Csi(ps, b)), v) == v
  {
    hide *;
    if b !in ESCAPE_CHARS {
      UnknownEntry(b);
      WaitingMeans(v);
      EscCommand(v, b, NoAction);
      NothingDone(v, b);
    }
    if b !in FINALS && b !in AMID {
      UnknownFinal(b);
      GivenIs(v, ps, false);
      SaysAside(v, Given(v, ps, false));
      NothingDone(Given(v, ps, false), b);
      CommandRun(v, ps, false, b, NoAction);
      SequenceIs(ps, false, b);
    }
  }
}
