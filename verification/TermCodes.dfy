/** Control sequences as byte strings, and how the automaton reads them. */
module TermCodes {
  import opened Common
  import opened TermTypes
  import opened TermTables
  import opened TermModel
  import opened TermChunks

  const ESCAPE: Byte := 27

  // The parameters of a control sequence: decimal numbers, separated by semicolons.
  function ParamText(ps: seq<nat>): seq<Byte> {
    if ps == [] then []
    else if |ps| == 1 then Digits(ps[0])
    else Digits(ps[0]) + ([';' as int] + ParamText(ps[1..]))
  }

  /** ESC [ parameters final, and the same with a question mark. */
  function Csi(ps: seq<nat>, final: Byte): seq<Byte> {
    [ESCAPE, '[' as int] + (ParamText(ps) + [final])
  }

  function Private(ps: seq<nat>, final: Byte): seq<Byte> {
    [ESCAPE, '[' as int] + (['?' as int] + (ParamText(ps) + [final]))
  }

  function Esc(final: Byte): seq<Byte> {
    [ESCAPE, final]
  }

  // A parameter that is not given is zero.
  function Arg(ps: seq<nat>, i: nat): nat {
    if i < |ps| then ps[i] else 0
  }

  // The first parameter as a count.
  function Times(ps: seq<nat>): nat {
    if Arg(ps, 0) < 1 then 1 else Arg(ps, 0)
  }

  // ----- What is stored of them -----

  function Padded(ps: seq<nat>): seq<int> {
    seq(MAX_PARAMS, i => if 0 <= i < |ps| then ps[i] else 0)
  }

  // The terminal when the final character arrives.
  function Given(v: Vt, ps: seq<nat>, private: bool): Vt {
    v.(params := Padded(ps), nparam := if ps == [] then 0 else |ps| - 1, qMode := private, gotParam := ps != [])
  }

  /** A terminal with the parameters of another. */
  function Aside(r: Vt, v: Vt): Vt {
    r.(params := v.params, nparam := v.nparam, qMode := v.qMode, gotParam := v.gotParam)
  }

  // ----- Steps -----

  lemma StepOf(v: Vt, b: Byte, o: StateOption)
    requires o == Lookup(v.state, b) && o.action != NormalInput
    ensures Step(v, false, b) == Out(Exec(v.(state := o.next), o.action, b), false)
  {
    hide Exec, Put, Wrap, Lookup;
  }

  lemma RunByte(v: Vt, b: Byte, rest: seq<Byte>)
    ensures Run(v, false, [b] + rest) == (var s := Step(v, false, b); Run(s.vt, s.drop, rest))
    ensures Run(v, false, [b]) == Step(v, false, b)
  {
    hide Step;
    assert ([b] + rest)[0] == b && ([b] + rest)[1..] == rest;
    assert [b][1..] == [];
    var s := Step(v, false, b);
    assert Run(s.vt, s.drop, []) == s;
  }

  lemma {:induction false} PickSkip(a: seq<StateOption>, t: seq<StateOption>, b: Byte)
    requires t != [] && t[|t| - 1].byte == -1
    requires forall j :: 0 <= j < |a| ==> a[j].byte != -1 && a[j].byte != b
    ensures Pick(a + t, b) == Pick(t, b)
  {
    if a == [] {
      assert a + t == t;
    } else {
      assert (a + t)[1..] == a[1..] + t;
      PickSkip(a[1..], t, b);
    }
  }

  // The entry for the command that stands in place i of the table.
  lemma Command(i: nat, b: Byte)
    requires i < |BRACKET_COMMANDS| && BRACKET_COMMANDS[i].byte == b >= 64
    requires forall j :: 0 <= j < i ==> BRACKET_COMMANDS[j].byte != b && BRACKET_COMMANDS[j].byte >= 0
    ensures Lookup(BracketState, b) == BRACKET_COMMANDS[i]
  {
    var rest := BRACKET_COMMANDS + (Controls(BracketState) + [StateOption(-1, NoAction, NormalState)]);
    assert BRACKET == BRACKET_PARAMETERS + rest;
    PickSkip(BRACKET_PARAMETERS, rest, b);
    PickAt(rest, b, i);
  }

  lemma Parameter(i: nat)
    requires i < |BRACKET_PARAMETERS|
    ensures 32 <= BRACKET_PARAMETERS[i].byte < 64
    ensures Lookup(BracketState, BRACKET_PARAMETERS[i].byte) == BRACKET_PARAMETERS[i]
  {
    assert forall j :: 0 <= j < 13 ==> BRACKET[j] == BRACKET_PARAMETERS[j];
    PickAt(BRACKET, BRACKET_PARAMETERS[i].byte, i);
  }

  lemma EscPlace(i: nat)
    requires i < 13
    ensures 32 <= ESC[i].byte < 127 && Lookup(EscState, ESC[i].byte) == ESC[i]
  {
    PickAt(ESC, ESC[i].byte, i);
  }

  lemma EscapeEntry()
    ensures Lookup(NormalState, ESCAPE) == StateOption(27, NoAction, EscState)
    ensures Lookup(Vt52Normal, ESCAPE) == StateOption(27, ClearParam, Vt52Esc)
  {
    PickAt(NORMAL, ESCAPE, 6);
    PickAt(VT52_NORMAL, ESCAPE, 6);
  }

  lemma NothingDone(v: Vt, b: Byte)
    ensures Exec(v, NoAction, b) == v
  {
  }

  // ESC and the character after it.
  lemma EscRun(v: Vt, b: Byte, o: StateOption)
    requires v.state == NormalState && o == Lookup(EscState, b) && o.action != NormalInput
    ensures Run(v, false, Esc(b)) == Out(Exec(v.(state := o.next), o.action, b), false)
  {
    hide Lookup, Exec, Run;
    EscapeEntry();
    StepOf(v, ESCAPE, StateOption(27, NoAction, EscState));
    NothingDone(v.(state := EscState), ESCAPE);
    StepOf(v.(state := EscState), b, o);
    hide *;
    assert Esc(b) == [ESCAPE] + [b];
    RunByte(v, ESCAPE, [b]);
    RunByte(v.(state := EscState), b, []);
  }

  // ----- Parameters -----

  function WithParam(v: Vt, n: nat): Vt
    requires 0 <= v.nparam < |v.params|
  {
    v.(params := v.params[v.nparam := n], gotParam := true)
  }

  lemma DigitEntry(d: nat)
    requires d < 10
    ensures Lookup(BracketState, '0' as int + d) == StateOption('0' as int + d, ParamDigit, BracketState)
  {
    hide *;
    DigitPlace(d);
    Parameter(2 + d);
  }

  lemma DigitPlace(d: nat)
    requires d < 10
    ensures |BRACKET_PARAMETERS| == 13
    ensures BRACKET_PARAMETERS[2 + d] == StateOption('0' as int + d, ParamDigit, BracketState)
  {
  }

  lemma DigitDone(v: Vt, d: nat)
    requires v.state == BracketState && 0 <= v.nparam < |v.params| && d < 10 && v.params[v.nparam] >= 0
    ensures Exec(v.(state := BracketState), ParamDigit, '0' as int + d) == WithParam(v, v.params[v.nparam] * 10 + d)
  {
    assert v.(state := BracketState) == v;
    assert Exec(v, ParamDigit, '0' as int + d) == DoParamDigit(v, '0' as int + d);
    hide Exec;
  }

  lemma DigitStep(v: Vt, d: nat)
    requires v.state == BracketState && 0 <= v.nparam < |v.params| && d < 10 && v.params[v.nparam] >= 0
    ensures Step(v, false, '0' as int + d) == Out(WithParam(v, v.params[v.nparam] * 10 + d), false)
  {
    hide *;
    DigitEntry(d);
    DigitDone(v, d);
    StepOf(v, '0' as int + d, StateOption('0' as int + d, ParamDigit, BracketState));
  }

  lemma DigitsParts(n: nat)
    ensures Digits(n) == if n < 10 then ['0' as int + n] else Digits(n / 10) + ['0' as int + n % 10]
    ensures n == n / 10 * 10 + n % 10 && 0 <= n % 10 < 10 && (n < 10 ==> n / 10 == 0 && n % 10 == n)
  {
  }

  lemma {:induction false} ReadDigits(v: Vt, n: nat)
    requires v.state == BracketState && 0 <= v.nparam < |v.params| && v.params[v.nparam] == 0
    ensures Run(v, false, Digits(n)) == Out(WithParam(v, n), false)
    decreases n
  {
    hide *;
    DigitsParts(n);
    if n < 10 {
      DigitStep(v, n);
      RunByte(v, '0' as int + n, []);
    } else {
      MoreDigits(v, n / 10, n % 10);
      ReadDigits(v, n / 10);
      RunAppend(v, false, Digits(n / 10), ['0' as int + n % 10]);
    }
  }

  lemma MoreDigits(v: Vt, q: nat, d: nat)
    requires v.state == BracketState && 0 <= v.nparam < |v.params| && d < 10
    ensures Run(WithParam(v, q), false, ['0' as int + d]) == Out(WithParam(v, q * 10 + d), false)
  {
    hide *;
    var u := WithParam(v, q);
    ParamAgain(v, q, q * 10 + d);
    DigitStep(u, d);
    RunByte(u, '0' as int + d, []);
  }

  lemma ParamAgain(v: Vt, q: nat, n: nat)
    requires v.state == BracketState && 0 <= v.nparam < |v.params|
    ensures var u := WithParam(v, q);
            && u.state == BracketState && u.nparam == v.nparam && |u.params| == |v.params| && u.params[u.nparam] == q
            && WithParam(u, n) == WithParam(v, n)
  {
    assert v.params[v.nparam := q][v.nparam := n] == v.params[v.nparam := n];
  }

  // The parameters from number k on are ps.
  function Spread(s: seq<int>, k: nat, ps: seq<nat>): seq<int> {
    seq(|s|, i requires 0 <= i < |s| => if k <= i < k + |ps| then ps[i - k] else s[i])
  }

  lemma MarkEntries()
    ensures Lookup(BracketState, ';' as int) == StateOption(';' as int, NextParam, BracketState)
    ensures Lookup(BracketState, '?' as int) == StateOption('?' as int, SetQMode, BracketState)
    ensures Lookup(BracketState, '"' as int) == StateOption('"' as int, SetQuoteMode, BracketState)
  {
    hide Lookup;
    Parameter(12);
    Parameter(0);
    Parameter(1);
  }

  lemma MarksDone(v: Vt, b: Byte)
    ensures Exec(v, NextParam, b) == v.(nparam := v.nparam + 1)
    ensures Exec(v, SetQMode, b) == v.(qMode := true)
    ensures Exec(v, SetQuoteMode, b) == v.(quoteMode := true)
  {
  }

  lemma SameState(v: Vt, s: State)
    requires v.state == s
    ensures v.(state := s) == v
  {
  }

  // What the marks among the parameters do.
  lemma MarkSteps(v: Vt)
    requires v.state == BracketState
    ensures Step(v, false, ';' as int) == Out(v.(nparam := v.nparam + 1), false)
    ensures Step(v, false, '?' as int) == Out(v.(qMode := true), false)
    ensures Step(v, false, '"' as int) == Out(v.(quoteMode := true), false)
  {
    hide *;
    SameState(v, BracketState);
    MarkEntries();
    MarksDone(v, ';' as int);
    MarksDone(v, '?' as int);
    MarksDone(v, '"' as int);
    StepOf(v, ';' as int, StateOption(';' as int, NextParam, BracketState));
    StepOf(v, '?' as int, StateOption('?' as int, SetQMode, BracketState));
    StepOf(v, '"' as int, StateOption('"' as int, SetQuoteMode, BracketState));
  }

  lemma {:induction false} ReadParams(v: Vt, ps: seq<nat>)
    requires v.state == BracketState && ps != [] && 0 <= v.nparam && v.nparam + |ps| <= |v.params|
    requires forall j :: v.nparam <= j < |v.params| ==> v.params[j] == 0
    ensures Run(v, false, ParamText(ps))
         == Out(v.(params := Spread(v.params, v.nparam, ps), nparam := v.nparam + |ps| - 1, gotParam := true), false)
    decreases |ps|
  {
    hide *;
    var u := WithParam(v, ps[0]);
    TextParts(ps);
    SpreadParts(v, ps);
    ReadDigits(v, ps[0]);
    if |ps| > 1 {
      var next := u.(nparam := u.nparam + 1);
      MarkSteps(u);
      RunAppend(v, false, Digits(ps[0]), [';' as int] + ParamText(ps[1..]));
      RunByte(u, ';' as int, ParamText(ps[1..]));
      ReadParams(next, ps[1..]);
    }
  }

  lemma TextParts(ps: seq<nat>)
    requires ps != []
    ensures ParamText(ps)
         == if |ps| == 1 then Digits(ps[0]) else Digits(ps[0]) + ([';' as int] + ParamText(ps[1..]))
  {
  }

  lemma SpreadParts(v: Vt, ps: seq<nat>)
    requires ps != [] && 0 <= v.nparam && v.nparam + |ps| <= |v.params|
    ensures var u := WithParam(v, ps[0]);
            && u.state == v.state && u.nparam == v.nparam && |u.params| == |v.params|
            && (forall j :: v.nparam < j < |v.params| ==> u.params[j] == v.params[j])
            && Spread(u.params, v.nparam + 1, ps[1..]) == Spread(v.params, v.nparam, ps)
            && u == v.(params := u.params, gotParam := true)
            && (|ps| == 1 ==> u.params == Spread(v.params, v.nparam, ps))
  {
  }

  // All parameters of a sequence.
  lemma ReadAll(v: Vt, ps: seq<nat>, private: bool)
    requires |v.params| == MAX_PARAMS && |ps| <= MAX_PARAMS
    ensures var u := Given(v, [], private).(state := BracketState);
            Run(u, false, ParamText(ps)) == Out(Given(v, ps, private).(state := BracketState), false)
  {
    var u := Given(v, [], private).(state := BracketState);
    if ps == [] {
      assert Run(u, false, []) == Out(u, false);
    } else {
      assert Spread(u.params, 0, ps) == Padded(ps);
      hide Run, ParamText, Spread, Padded;
      assert forall j :: 0 <= j < |u.params| ==> u.params[j] == 0 by { NoParams(); }
      ReadParams(u, ps);
    }
  }

  lemma NoParams()
    ensures |Padded([])| == MAX_PARAMS && forall j :: 0 <= j < MAX_PARAMS ==> Padded([])[j] == 0
  {
  }

  lemma Introducer(v: Vt, rest: seq<Byte>)
    requires v.state == NormalState
    ensures Run(v, false, [ESCAPE, '[' as int] + rest)
         == Run(Given(v, [], false).(state := BracketState), false, rest)
  {
    EscPlace(0);
    ParamsCleared(v);
    assert ESC[0] == StateOption('[' as int, ClearParam, BracketState);
    hide *;
    EscRun(v, '[' as int, ESC[0]);
    RunAppend(v, false, Esc('[' as int), rest);
    EscText();
  }

  lemma EscText()
    ensures Esc('[' as int) == [ESCAPE, '[' as int]
  {
  }

  lemma ParamsCleared(v: Vt)
    ensures Exec(v.(state := BracketState), ClearParam, '[' as int) == Given(v, [], false).(state := BracketState)
  {
    var u := v.(state := BracketState);
    assert Exec(u, ClearParam, '[' as int) == DoClearParam(u);
    hide Exec;
    assert Padded([]) == seq(MAX_PARAMS, i => 0);
  }

  lemma QuestionMark(v: Vt, rest: seq<Byte>)
    ensures Run(Given(v, [], false).(state := BracketState), false, ['?' as int] + rest)
         == Run(Given(v, [], true).(state := BracketState), false, rest)
  {
    Marked(v);
    hide *;
    var u := Given(v, [], false).(state := BracketState);
    MarkSteps(u);
    RunByte(u, '?' as int, rest);
  }

  lemma Marked(v: Vt)
    ensures Given(v, [], false).(state := BracketState).(qMode := true) == Given(v, [], true).(state := BracketState)
    ensures Given(v, [], false).(state := BracketState).state == BracketState
  {
  }

  // The parameters and the final character.
  lemma Finish(v: Vt, ps: seq<nat>, private: bool, final: Byte, a: Action)
    requires v.state == NormalState && |v.params| == MAX_PARAMS && |ps| <= MAX_PARAMS
    requires Lookup(BracketState, final).action == a != NormalInput && Lookup(BracketState, final).next == NormalState
    ensures Run(Given(v, [], private).(state := BracketState), false, ParamText(ps) + [final])
         == Out(Exec(Given(v, ps, private), a, final), false)
  {
    var u, w := Given(v, [], private).(state := BracketState), Given(v, ps, private).(state := BracketState);
    assert w.(state := NormalState) == Given(v, ps, private) && w.state == BracketState;
    hide *;
    ReadAll(v, ps, private);
    StepOf(w, final, Lookup(BracketState, final));
    RunAppend(u, false, ParamText(ps), [final]);
    RunByte(w, final, []);
  }

  /** A whole control sequence runs its command with its parameters. */
  lemma CsiRun(v: Vt, ps: seq<nat>, final: Byte, a: Action)
    requires v.state == NormalState && |v.params| == MAX_PARAMS && |ps| <= MAX_PARAMS
    requires Lookup(BracketState, final).action == a != NormalInput && Lookup(BracketState, final).next == NormalState
    ensures Run(v, false, Csi(ps, final)) == Out(Exec(Given(v, ps, false), a, final), false)
  {
    Finish(v, ps, false, final, a);
    hide Run, Exec, ParamText, Lookup;
    Introducer(v, ParamText(ps) + [final]);
  }

  lemma PrivateRun(v: Vt, ps: seq<nat>, final: Byte, a: Action)
    requires v.state == NormalState && |v.params| == MAX_PARAMS && |ps| <= MAX_PARAMS
    requires Lookup(BracketState, final).action == a != NormalInput && Lookup(BracketState, final).next == NormalState
    ensures Run(v, false, Private(ps, final)) == Out(Exec(Given(v, ps, true), a, final), false)
  {
    hide *;
    PrivateText(ps, final);
    Finish(v, ps, true, final, a);
    var rest := ParamText(ps) + [final];
    Introducer(v, ['?' as int] + rest);
    QuestionMark(v, rest);
  }

  lemma PrivateText(ps: seq<nat>, final: Byte)
    ensures Private(ps, final) == [ESCAPE, '[' as int] + (['?' as int] + (ParamText(ps) + [final]))
  {
  }
}
