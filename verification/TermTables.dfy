/** The transition tables of the VT100 and VT52 escape-sequence automaton. */
module TermTables {
  import opened Common
  import opened TermTypes

  datatype State =
    | NormalState | EscState | BracketState | ShiftInState | ShiftOutState | HashState
    | Vt52Normal | Vt52Esc | Vt52CursorYState | Vt52CursorXState

  datatype Action =
    | NoAction | NormalInput | CR | LF | FF | Tab | BS | Bell
    | SetQMode | SetQuoteMode | ClearParam | ParamDigit | NextParam
    | KeypadNumeric | KeypadApplication | SaveCursor | RestoreCursor | SetTab
    | IndexDown | IndexUp | NextLine | Reset
    | CursorLeft | CursorDown | CursorRight | CursorUp | CursorPosition
    | DeviceAttrib | DeleteChar | SetMode | ClearMode | RequestParam | SetMargins
    | DeleteLine | StatusReport | EraseDisplay | EraseLine | InsertLine | SetColors
    | ClearTab | InsertChar | ScreenAlign | EraseChar
    | Vt52CursorY | Vt52CursorX | Vt52Ident

  // byte == -1 marks the default entry that ends a table
  datatype StateOption = StateOption(byte: int, action: Action, next: State)

  // The control characters, obeyed even in the middle of a VT100 escape sequence.
  function Controls(s: State): seq<StateOption> {
    [StateOption(13, CR, s), StateOption(10, LF, s), StateOption(12, FF, s),
     StateOption(9, Tab, s), StateOption(8, BS, s), StateOption(7, Bell, s)]
  }

  const NORMAL: seq<StateOption> := Controls(NormalState) + [
    StateOption(27, NoAction, EscState),
    StateOption(-1, NormalInput, NormalState)]

  const ESC: seq<StateOption> := [
    StateOption('[' as int, ClearParam, BracketState),
    StateOption('>' as int, KeypadNumeric, NormalState),
    StateOption('=' as int, KeypadApplication, NormalState),
    StateOption('7' as int, SaveCursor, NormalState),
    StateOption('8' as int, RestoreCursor, NormalState),
    StateOption('H' as int, SetTab, NormalState),
    StateOption('D' as int, IndexDown, NormalState),
    StateOption('M' as int, IndexUp, NormalState),
    StateOption('E' as int, NextLine, NormalState),
    StateOption('c' as int, Reset, NormalState),
    StateOption('(' as int, NoAction, ShiftInState),
    StateOption(')' as int, NoAction, ShiftOutState),
    StateOption('#' as int, NoAction, HashState)] + Controls(EscState) + [StateOption(-1, NoAction, NormalState)]

  // cset_shiftin_state and cset_shiftout_state have the same entries
  const CHARSET: seq<StateOption> := [
    StateOption('A' as int, NoAction, NormalState),
    StateOption('0' as int, NoAction, NormalState),
    StateOption(-1, NoAction, NormalState)]

  const HASH: seq<StateOption> := [
    StateOption('8' as int, ScreenAlign, NormalState),
    StateOption(-1, NoAction, NormalState)]

  const BRACKET_PARAMETERS: seq<StateOption> := [
    StateOption('?' as int, SetQMode, BracketState),
    StateOption('"' as int, SetQuoteMode, BracketState),
    StateOption('0' as int, ParamDigit, BracketState),
    StateOption('1' as int, ParamDigit, BracketState),
    StateOption('2' as int, ParamDigit, BracketState),
    StateOption('3' as int, ParamDigit, BracketState),
    StateOption('4' as int, ParamDigit, BracketState),
    StateOption('5' as int, ParamDigit, BracketState),
    StateOption('6' as int, ParamDigit, BracketState),
    StateOption('7' as int, ParamDigit, BracketState),
    StateOption('8' as int, ParamDigit, BracketState),
    StateOption('9' as int, ParamDigit, BracketState),
    StateOption(';' as int, NextParam, BracketState)]

  const BRACKET_COMMANDS: seq<StateOption> := [
    StateOption('D' as int, CursorLeft, NormalState),
    StateOption('B' as int, CursorDown, NormalState),
    StateOption('C' as int, CursorRight, NormalState),
    StateOption('A' as int, CursorUp, NormalState),
    StateOption('H' as int, CursorPosition, NormalState),
    StateOption('f' as int, CursorPosition, NormalState),
    StateOption('c' as int, DeviceAttrib, NormalState),
    StateOption('P' as int, DeleteChar, NormalState),
    StateOption('h' as int, SetMode, NormalState),
    StateOption('l' as int, ClearMode, NormalState),
    StateOption('s' as int, SaveCursor, NormalState),
    StateOption('u' as int, RestoreCursor, NormalState),
    StateOption('x' as int, RequestParam, NormalState),
    StateOption('r' as int, SetMargins, NormalState),
    StateOption('M' as int, DeleteLine, NormalState),
    StateOption('n' as int, StatusReport, NormalState),
    StateOption('J' as int, EraseDisplay, NormalState),
    StateOption('K' as int, EraseLine, NormalState),
    StateOption('L' as int, InsertLine, NormalState),
    StateOption('m' as int, SetColors, NormalState),
    StateOption('g' as int, ClearTab, NormalState),
    StateOption('@' as int, InsertChar, NormalState),
    StateOption('X' as int, EraseChar, NormalState),
    StateOption('p' as int, NoAction, NormalState)]

  const BRACKET: seq<StateOption> :=
    BRACKET_PARAMETERS + BRACKET_COMMANDS + Controls(BracketState) +
    [StateOption(-1, NoAction, NormalState)]

  const VT52_NORMAL: seq<StateOption> := Controls(Vt52Normal) + [
    StateOption(27, ClearParam, Vt52Esc),
    StateOption(-1, NormalInput, Vt52Normal)]

  const VT52_ESC: seq<StateOption> := [
    StateOption('D' as int, CursorLeft, Vt52Normal),
    StateOption('B' as int, CursorDown, Vt52Normal),
    StateOption('C' as int, CursorRight, Vt52Normal),
    StateOption('A' as int, CursorUp, Vt52Normal),
    StateOption('Y' as int, NoAction, Vt52CursorYState),
    StateOption('J' as int, EraseDisplay, Vt52Normal),
    StateOption('K' as int, EraseLine, Vt52Normal),
    StateOption('H' as int, CursorPosition, Vt52Normal),
    StateOption('I' as int, IndexUp, Vt52Normal),
    StateOption('F' as int, NoAction, Vt52Normal),
    StateOption('G' as int, NoAction, Vt52Normal),
    StateOption('Z' as int, Vt52Ident, Vt52Normal),
    StateOption('<' as int, NoAction, NormalState),
    StateOption(-1, NoAction, Vt52Normal)]

  const VT52_CURSOR_Y: seq<StateOption> := [StateOption(-1, Vt52CursorY, Vt52CursorXState)]

  const VT52_CURSOR_X: seq<StateOption> := [StateOption(-1, Vt52CursorX, Vt52Normal)]

  function Table(s: State): (t: seq<StateOption>)
    ensures t != [] && t[|t| - 1].byte == -1
  {
    match s
    case NormalState => NORMAL
    case EscState => ESC
    case BracketState => BRACKET
    case ShiftInState => CHARSET
    case ShiftOutState => CHARSET
    case HashState => HASH
    case Vt52Normal => VT52_NORMAL
    case Vt52Esc => VT52_ESC
    case Vt52CursorYState => VT52_CURSOR_Y
    case Vt52CursorXState => VT52_CURSOR_X
  }

  /** The first entry for byte b: an exact match, or the default entry. */
  function Pick(t: seq<StateOption>, b: Byte): (o: StateOption)
    requires t != [] && t[|t| - 1].byte == -1
    ensures o in t && (o.byte == b || o.byte == -1)
  {
    if t[0].byte == -1 || t[0].byte == b then t[0] else Pick(t[1..], b)
  }

  function Lookup(s: State, b: Byte): StateOption {
    Pick(Table(s), b)
  }

  lemma {:induction false} PickAt(t: seq<StateOption>, b: Byte, i: nat)
    requires i < |t| && t[|t| - 1].byte == -1
    requires t[i].byte == -1 || t[i].byte == b
    requires forall j :: 0 <= j < i ==> t[j].byte != -1 && t[j].byte != b
    ensures Pick(t, b) == t[i]
  {
    if i > 0 {
      PickAt(t[1..], b, i - 1);
    }
  }

  ghost predicate IsNormal(s: State) {
    s == NormalState || s == Vt52Normal
  }

  // Printing characters in a normal state always go to normal_input and leave the state alone.
  lemma PrintableEntry(s: State, b: Byte)
    requires IsNormal(s) && b > 31
    ensures Lookup(s, b) == StateOption(-1, NormalInput, s)
  {
    PickAt(Table(s), b, 7);
  }

  /** What the tables say about the entries with a side condition: normal_input is reached only
      from a normal state and keeps it, the VT52 column state only through the action that
      stores the row, the column action only from that state, and parameter digits are the
      characters '0' to '9'. */
  ghost predicate GoodEntry(s: State, o: StateOption) {
    && (o.action == NormalInput ==> IsNormal(s) && o.next == s)
    && (o.next == Vt52CursorXState ==> o.action == Vt52CursorY)
    && (o.action == Vt52CursorX ==> s == Vt52CursorXState)
    && (o.action == ParamDigit ==> '0' as int <= o.byte <= '9' as int)
  }

  lemma TableEntry(s: State, o: StateOption)
    requires o in Table(s)
    ensures GoodEntry(s, o)
  {
    if s == BracketState {
      BracketEntry(o);
    } else if s == EscState {
      EscEntry(o);
    } else if s == Vt52Normal || s == Vt52Esc || s == Vt52CursorYState || s == Vt52CursorXState {
      Vt52Entry(s, o);
    }
  }

  lemma Vt52Entry(s: State, o: StateOption)
    requires s == Vt52Normal || s == Vt52Esc || s == Vt52CursorYState || s == Vt52CursorXState
    requires o in Table(s)
    ensures GoodEntry(s, o)
  {
  }

  lemma BracketEntry(o: StateOption)
    requires o in BRACKET
    ensures GoodEntry(BracketState, o)
  {
    CommandEntry(o);
    assert o in BRACKET_PARAMETERS || o in BRACKET_COMMANDS || o in Controls(BracketState) || o.byte == -1;
  }

  lemma EscEntry(o: StateOption)
    requires o in ESC
    ensures GoodEntry(EscState, o)
  {
  }

  lemma CommandEntry(o: StateOption)
    ensures o in BRACKET_COMMANDS ==>
              && o.next == NormalState && o.action != NormalInput
              && o.action != ParamDigit && o.action != Vt52CursorX
  {
  }

  lemma LookupEntry(s: State, b: Byte)
    ensures GoodEntry(s, Lookup(s, b))
    ensures Lookup(s, b).action == ParamDigit ==> Lookup(s, b).byte == b
  {
    TableEntry(s, Lookup(s, b));
  }
}
