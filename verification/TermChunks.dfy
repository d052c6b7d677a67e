/** How a byte stream may be cut: batches of characters against single bytes, and chunks of
    input against the whole stream. */
module TermChunks {
  import opened Common
  import opened TermTypes
  import opened TermTables
  import opened TermModel
  import opened TermTheory

  lemma {:induction false} RunAppend(v: Vt, drop: bool, a: seq<Byte>, b: seq<Byte>)
    ensures Run(v, drop, a + b) == (var r := Run(v, drop, a); Run(r.vt, r.drop, b))
    ensures RunOk(v, drop, a + b) <==> RunOk(v, drop, a) && (var r := Run(v, drop, a); RunOk(r.vt, r.drop, b))
    decreases |a|
  {
    hide Step, StepOk;
    if a == [] {
      assert a + b == b;
    } else {
      var s := Step(v, drop, a[0]);
      assert (a + b)[0] == a[0] && (a + b)[1..] == a[1..] + b;
      RunAppend(s.vt, s.drop, a[1..], b);
    }
  }

  ghost predicate Printable(bs: seq<Byte>) {
    forall i :: 0 <= i < |bs| ==> bs[i] > 31
  }

  // A byte that is not a printing character ends the run: the flag does not matter.
  lemma DropIrrelevant(v: Vt, drop: bool, bs: seq<Byte>)
    requires bs == [] || bs[0] < 32 || !IsNormal(v.state)
    ensures Run(v, drop, bs).vt == Run(v, false, bs).vt
    ensures RunOk(v, drop, bs) == RunOk(v, false, bs)
  {
    if bs != [] {
      LookupEntry(v.state, bs[0]);
      assert Step(v, drop, bs[0]) == Step(v, false, bs[0]) by { hide Exec, Put, Wrap; }
      hide Step, StepOk;
    }
  }

  lemma StepPrint(v: Vt, b: Byte)
    requires IsNormal(v.state) && b > 31
    ensures Step(v, true, b) == Out(v, true)
    ensures Step(v, false, b) == (var p := Put(Wrap(v), [b]); Out(p, NoEolWrap in p.modes && p.cx == p.w))
    ensures StepOk(v, b)
  {
    PrintableEntry(v.state, b);
    assert v.(state := v.state) == v;
    hide Put, Wrap, Exec, Lookup;
  }

  // The rest of a batch that overflowed the line changes nothing.
  lemma {:induction false} RunDropped(v: Vt, bs: seq<Byte>)
    requires IsNormal(v.state) && Printable(bs)
    ensures Run(v, true, bs) == Out(v, true) && RunOk(v, true, bs)
    decreases |bs|
  {
    if bs != [] {
      StepPrint(v, bs[0]);
      RunDropped(v, bs[1..]);
    }
  }

  lemma PutRowTwice(r: Row, cx: int, a: seq<Cell>, b: seq<Cell>, insert: bool)
    requires 0 <= cx && cx + |a| + |b| <= |r|
    ensures PutRow(PutRow(r, cx, a, insert), cx + |a|, b, insert) == PutRow(r, cx, a + b, insert)
  {
    var lhs := PutRow(PutRow(r, cx, a, insert), cx + |a|, b, insert);
    var rhs := PutRow(r, cx, a + b, insert);
    forall x | 0 <= x < |r| ensures lhs[x] == rhs[x] {
    }
  }

  lemma PutTwice(v: Vt, a: seq<Byte>, b: seq<Byte>)
    requires WF(v) && v.cx + |a| + |b| <= v.w
    ensures Put(Put(v, a), b) == Put(v, a + b)
  {
    var c := Pen(v);
    PutRowTwice(v.grid[v.cy], v.cx, Cells(a, c), Cells(b, c), Insert in v.modes);
    assert Cells(a, c) + Cells(b, c) == Cells(a + b, c);
    assert Put(v, a).modes == v.modes && Pen(Put(v, a)) == c;
    var row := PutRow(v.grid[v.cy], v.cx, Cells(a, c), Insert in v.modes);
    assert Put(v, a).grid == v.grid[v.cy := row];
    assert v.grid[v.cy := row][v.cy := PutRow(row, v.cx + |a|, Cells(b, c), Insert in v.modes)]
        == v.grid[v.cy := PutRow(row, v.cx + |a|, Cells(b, c), Insert in v.modes)];
  }

  /** A whole batch written at once equals its bytes written one at a time, also in insert
      mode, as long as it fits on the line. */
  lemma {:induction false} RunPrint(v: Vt, bs: seq<Byte>)
    requires WF(v) && IsNormal(v.state) && Printable(bs) && bs != [] && v.cx + |bs| <= v.w
    ensures Run(v, false, bs) == Out(Put(v, bs), NoEolWrap in v.modes && v.cx + |bs| == v.w)
    ensures RunOk(v, false, bs) && IsNormal(Put(v, bs).state)
    decreases |bs|
  {
    StepPrint(v, bs[0]);
    assert Wrap(v) == v;
    var v1 := Put(v, [bs[0]]);
    PutKeepsInvariant(v, [bs[0]]);
    assert [bs[0]] + bs[1..] == bs;
    if |bs| == 1 {
      assert bs == [bs[0]];
      assert Run(v1, NoEolWrap in v1.modes && v1.cx == v1.w, bs[1..]).vt == v1;
    } else {
      PutTwice(v, [bs[0]], bs[1..]);
      RunPrint(v1, bs[1..]);
    }
  }

  // Leaving the pending position first makes no difference to the characters that follow.
  lemma WrapFirst(v: Vt, bs: seq<Byte>)
    requires WF(v) && IsNormal(v.state) && Printable(bs) && bs != []
    ensures Run(Wrap(v), false, bs) == Run(v, false, bs)
    ensures RunOk(Wrap(v), false, bs) == RunOk(v, false, bs)
  {
    WrapKeepsInvariant(v);
    StepPrint(v, bs[0]);
    StepPrint(Wrap(v), bs[0]);
    hide Step, StepOk, Put, WF, DoNextLine;
  }

  /** What normal_input does with a run of printing characters, n of which fit on the line. */
  lemma RunBatch(v: Vt, bs: seq<Byte>, n: nat)
    requires WF(v) && IsNormal(v.state) && Printable(bs) && bs != []
    requires n == Min(|bs|, v.w - Wrap(v).cx) && (n < |bs| ==> NoEolWrap in v.modes)
    ensures Run(v, false, bs).vt == Put(Wrap(v), bs[..n]) && RunOk(v, false, bs)
    ensures Run(v, false, bs).drop ==> NoEolWrap in v.modes
  {
    WrapKeepsInvariant(v);
    assert n < |bs| ==> Wrap(v).cx + n == v.w && NoEolWrap in Wrap(v).modes;
    var u := Wrap(v);
    assert n >= 1 && u.cx + n <= u.w;
    hide *;
    WrapFirst(v, bs);
    PrintableParts(bs, n);
    RunPrint(u, bs[..n]);
    RunAppend(u, false, bs[..n], bs[n..]);
    if n < |bs| {
      RunDropped(Run(u, false, bs[..n]).vt, bs[n..]);
    } else {
      RunNothing(Run(u, false, bs[..n]));
    }
  }

  lemma PrintableParts(bs: seq<Byte>, n: nat)
    requires Printable(bs) && n <= |bs|
    ensures Printable(bs[..n]) && Printable(bs[n..]) && bs[..n] + bs[n..] == bs && (n == |bs| ==> bs[n..] == [])
  {
  }

  lemma RunNothing(o: Out)
    ensures Run(o.vt, o.drop, []) == o && RunOk(o.vt, o.drop, [])
  {
  }

  /** v' is the terminal after normal_input took the first `taken` bytes: a control character is
      skipped; a batch of printing characters ends where the next byte does not depend on it. */
  ghost predicate IsBatch(v: Vt, bs: seq<Byte>, taken: nat, v': Vt)
    requires 1 <= taken <= |bs|
  {
    if bs[0] < 32 then taken == 1 && v' == v
    else
      var r := Run(v, false, bs[..taken]);
      && Printable(bs[..taken]) && v' == r.vt
      && (r.drop ==> taken == |bs| || bs[taken] < 32)
  }

  lemma BatchTaken(v: Vt, bs: seq<Byte>, n: nat, taken: nat)
    requires WF(v) && IsNormal(v.state) && 1 <= taken <= |bs| && Printable(bs[..taken])
    requires n <= taken && n == Min(taken, Wrap(v).w - Wrap(v).cx)
    requires if NoEolWrap in Wrap(v).modes then taken == |bs| || bs[taken] < 32 else n == taken
    ensures IsBatch(v, bs, taken, Put(Wrap(v), bs[..n]))
  {
    WrapKeepsInvariant(v);
    hide WF, Wrap, Put, Run;
    assert bs[..taken][0] == bs[0];
    assert bs[..taken][..n] == bs[..n];
    RunBatch(v, bs[..taken], n);
  }

  lemma StepControl(v: Vt, b: Byte)
    requires Lookup(v.state, b).action == NormalInput && b < 32
    ensures Step(v, false, b) == Out(v, false)
  {
    LookupEntry(v.state, b);
    assert v.(state := v.state) == v;
    hide Lookup, Exec, Put, Wrap;
  }

  lemma ControlRound(v: Vt, bs: seq<Byte>)
    requires bs != [] && RunOk(v, false, bs) && Lookup(v.state, bs[0]).action == NormalInput && bs[0] < 32
    ensures RunOk(v, false, bs[1..]) && Run(v, false, bs[1..]).vt == Run(v, false, bs).vt
  {
    StepControl(v, bs[0]);
    hide Step, StepOk, Lookup;
  }

  lemma BatchRound(v: Vt, bs: seq<Byte>, taken: nat)
    requires WF(v) && 1 <= taken <= |bs| && RunOk(v, false, bs)
    requires Run(v, false, bs[..taken]).drop ==> taken == |bs| || bs[taken] < 32
    ensures var v' := Run(v, false, bs[..taken]).vt;
            WF(v') && RunOk(v', false, bs[taken..]) && Run(v', false, bs[taken..]).vt == Run(v, false, bs).vt
  {
    hide *;
    assert bs[..taken] + bs[taken..] == bs;
    RunAppend(v, false, bs[..taken], bs[taken..]);
    RunInvariant(v, false, bs[..taken]);
    var r := Run(v, false, bs[..taken]);
    DropIrrelevantAfter(r.vt, r.drop, bs, taken);
  }

  // After a batch, the rest of the input leads where the whole input did.
  lemma PrintRound(v: Vt, bs: seq<Byte>, taken: nat, v': Vt)
    requires WF(v) && 1 <= taken <= |bs| && RunOk(v, false, bs) && Lookup(v.state, bs[0]).action == NormalInput
    requires IsBatch(v, bs, taken, v')
    ensures WF(v') && RunOk(v', false, bs[taken..]) && Run(v', false, bs[taken..]).vt == Run(v, false, bs).vt
  {
    hide WF, Run, RunOk, Lookup, Printable;
    if bs[0] < 32 {
      ControlRound(v, bs);
    } else {
      BatchRound(v, bs, taken);
    }
  }

  lemma DropIrrelevantAfter(v: Vt, drop: bool, bs: seq<Byte>, taken: nat)
    requires taken <= |bs| && (drop ==> taken == |bs| || bs[taken] < 32)
    ensures Run(v, drop, bs[taken..]).vt == Run(v, false, bs[taken..]).vt
    ensures RunOk(v, drop, bs[taken..]) == RunOk(v, false, bs[taken..])
  {
    if drop {
      DropIrrelevant(v, drop, bs[taken..]);
    }
  }

  lemma StepOther(v: Vt, b: Byte, o: StateOption, v1: Vt)
    requires o == Lookup(v.state, b) && o.action != NormalInput && v1 == v.(state := o.next)
    ensures Step(v, false, b) == Out(Exec(v1, o.action, b), false)
    ensures StepOk(v, b) == ActionOk(v1, o.action) && (WF(v) ==> Bounds(v1))
  {
    hide Exec, Put, Wrap, Lookup;
  }

  // Any other byte is one step of the model.
  lemma OtherRound(v: Vt, bs: seq<Byte>, o: StateOption, v1: Vt)
    requires WF(v) && bs != [] && RunOk(v, false, bs)
    requires o == Lookup(v.state, bs[0]) && o.action != NormalInput && v1 == v.(state := o.next)
    ensures Bounds(v1) && ActionOk(v1, o.action)
    ensures var v' := Exec(v1, o.action, bs[0]);
            WF(v') && RunOk(v', false, bs[1..]) && Run(v', false, bs[1..]).vt == Run(v, false, bs).vt
  {
    StepInvariant(v, false, bs[0]);
    StepOther(v, bs[0], o, v1);
    hide Exec, WF, Bounds, Lookup, Step, StepOk, ActionOk;
  }

  // ----- Chunks -----

  lemma StepDropState(v: Vt, drop: bool, b: Byte)
    requires drop ==> IsNormal(v.state) && NoEolWrap in v.modes && v.cx == v.w
    ensures var r := Step(v, drop, b); r.drop ==> IsNormal(r.vt.state) && NoEolWrap in r.vt.modes && r.vt.cx == r.vt.w
  {
    LookupEntry(v.state, b);
    hide Exec, Lookup, ScrollRows, PutRow;
  }

  lemma {:induction false} DropState(v: Vt, drop: bool, bs: seq<Byte>)
    requires drop ==> IsNormal(v.state) && NoEolWrap in v.modes && v.cx == v.w
    ensures var r := Run(v, drop, bs); r.drop ==> IsNormal(r.vt.state) && NoEolWrap in r.vt.modes && r.vt.cx == r.vt.w
    decreases |bs|
  {
    if bs != [] {
      StepDropState(v, drop, bs[0]);
      var s := Step(v, drop, bs[0]);
      hide Step;
      DropState(s.vt, s.drop, bs[1..]);
    }
  }

  // The cell in the last column of the cursor row.
  function LastColumn(v: Vt): Cell {
    if 0 <= v.cy < |v.grid| && 0 < v.w <= |v.grid[v.cy]| then v.grid[v.cy][v.w - 1] else Cell(0, Pen(v))
  }

  lemma OverwriteLastColumn(v: Vt, b: Byte)
    requires WF(v) && v.cx == v.w
    ensures Put(v.(cx := v.w - 1), [b]) == v <==> LastColumn(v) == Cell(b, Pen(v))
  {
    var v1 := v.(cx := v.w - 1);
    var oldRow := v.grid[v.cy];
    var newRow := PutRow(oldRow, v.w - 1, Cells([b], Pen(v)), Insert in v.modes);
    assert Pen(v1) == Pen(v);
    assert Put(v1, [b]) == v.(grid := v.grid[v.cy := newRow]);
    assert newRow[v.w - 1] == Cell(b, Pen(v));
    if oldRow[v.w - 1] == Cell(b, Pen(v)) {
      assert newRow == oldRow;
      assert v.grid[v.cy := newRow] == v.grid;
    } else {
      assert Put(v1, [b]).grid[v.cy] == newRow;
    }
  }

  lemma CutInFullLine(v: Vt, b: seq<Byte>)
    requires WF(v) && IsNormal(v.state) && NoEolWrap in v.modes && v.cx == v.w
    requires b != [] && Printable(b)
    ensures Run(v, true, b).vt == Run(v, false, b).vt <==> LastColumn(v) == Cell(b[0], Pen(v))
  {
    RunDropped(v, b);
    StepPrint(v, b[0]);
    OverwriteLastColumn(v, b[0]);
    var p := Put(v.(cx := v.w - 1), [b[0]]);
    assert Wrap(v) == v.(cx := v.w - 1);
    assert Step(v, false, b[0]) == Out(p, true) by { hide Step, SetCursorRow; }
    hide Step, Put, WF, LastColumn, Wrap;
    RunDropped(p, b[1..]);
    assert Run(v, false, b) == Run(p, true, b[1..]);
  }

  /** Cutting the stream between a and b makes no difference. */
  ghost predicate CutAgrees(v: Vt, a: seq<Byte>, b: seq<Byte>) {
    Run(v, false, a + b).vt == Run(Run(v, false, a).vt, false, b).vt
  }

  /** Where a stream may be cut, exactly. Before a control character, and at the end, always. Before
      a printing character c, whatever follows it: unless the part before ends with wrapping off and
      a full line, for then c would be dropped as part of the same batch, but overwrites the last
      column in a batch of its own; then only if it is there already, in the same colour. */
  lemma CutAgreesExactly(v: Vt, a: seq<Byte>)
    requires WF(v) && RunOk(v, false, a)
    ensures forall b :: b == [] || b[0] < 32 ==> CutAgrees(v, a, b)
    ensures var r := Run(v, false, a);
            forall c: Byte :: c > 31 ==>
              ((forall tail :: CutAgrees(v, a, [c] + tail)) <==> !r.drop || LastColumn(r.vt) == Cell(c, Pen(r.vt)))
  {
    hide *;
    forall b | b == [] || b[0] < 32 ensures CutAgrees(v, a, b) {
      CutBeforeControl(v, a, b);
    }
    var r := Run(v, false, a);
    forall c: Byte | c > 31
      ensures (forall tail :: CutAgrees(v, a, [c] + tail)) <==> !r.drop || LastColumn(r.vt) == Cell(c, Pen(r.vt))
    {
      forall tail | !r.drop || LastColumn(r.vt) == Cell(c, Pen(r.vt)) ensures CutAgrees(v, a, [c] + tail) {
        CutBeforePrinting(v, a, c, tail);
      }
      if r.drop && LastColumn(r.vt) != Cell(c, Pen(r.vt)) {
        CutMatters(v, a, c);
      }
    }
  }

  lemma CutBeforeControl(v: Vt, a: seq<Byte>, b: seq<Byte>)
    requires b == [] || b[0] < 32
    ensures CutAgrees(v, a, b)
  {
    var r := Run(v, false, a);
    RunAppend(v, false, a, b);
    DropIrrelevant(r.vt, r.drop, b);
    hide Run;
  }

  lemma CutBeforePrinting(v: Vt, a: seq<Byte>, c: Byte, tail: seq<Byte>)
    requires WF(v) && RunOk(v, false, a) && c > 31
    requires var r := Run(v, false, a); !r.drop || LastColumn(r.vt) == Cell(c, Pen(r.vt))
    ensures CutAgrees(v, a, [c] + tail)
  {
    var r := Run(v, false, a);
    RunAppend(v, false, a, [c] + tail);
    if r.drop {
      RunInvariant(v, false, a);
      DropState(v, false, a);
      SameFirst(r.vt, c);
      hide Step;
      assert ([c] + tail)[0] == c && ([c] + tail)[1..] == tail;
    }
  }

  // Dropped, or written over itself: the same.
  lemma SameFirst(v: Vt, c: Byte)
    requires WF(v) && IsNormal(v.state) && NoEolWrap in v.modes && v.cx == v.w && c > 31
    requires LastColumn(v) == Cell(c, Pen(v))
    ensures Step(v, true, c) == Step(v, false, c)
  {
    StepPrint(v, c);
    OverwriteLastColumn(v, c);
    assert Wrap(v) == v.(cx := v.w - 1);
    hide Step, Put, WF, LastColumn, Wrap;
  }

  lemma CutMatters(v: Vt, a: seq<Byte>, c: Byte)
    requires WF(v) && RunOk(v, false, a) && c > 31
    requires var r := Run(v, false, a); r.drop && LastColumn(r.vt) != Cell(c, Pen(r.vt))
    ensures !CutAgrees(v, a, [c] + [])
  {
    var r := Run(v, false, a);
    assert [c] + [] == [c];
    RunAppend(v, false, a, [c]);
    RunInvariant(v, false, a);
    DropState(v, false, a);
    hide Run, WF, LastColumn;
    CutInFullLine(r.vt, [c]);
  }

  function Flatten(chunks: seq<seq<Byte>>): seq<Byte> {
    if chunks == [] then [] else chunks[0] + Flatten(chunks[1..])
  }

  /** One call of ProcessInput per chunk. */
  function RunChunks(v: Vt, chunks: seq<seq<Byte>>): Vt
    decreases |chunks|
  {
    if chunks == [] then v else RunChunks(Run(v, false, chunks[0]).vt, chunks[1..])
  }

  ghost predicate ChunksOk(v: Vt, chunks: seq<seq<Byte>>)
    decreases |chunks|
  {
    chunks == [] || (RunOk(v, false, chunks[0]) && ChunksOk(Run(v, false, chunks[0]).vt, chunks[1..]))
  }

  // Line wrap is on at the end of every chunk.
  ghost predicate WrapOnAtCuts(v: Vt, chunks: seq<seq<Byte>>)
    decreases |chunks|
  {
    chunks == [] ||
    (NoEolWrap !in Run(v, false, chunks[0]).vt.modes && WrapOnAtCuts(Run(v, false, chunks[0]).vt, chunks[1..]))
  }

  /** However the stream is cut, the terminal is the one reached by the stream as a whole. */
  lemma {:induction false} ChunkInvariance(v: Vt, chunks: seq<seq<Byte>>)
    requires WF(v) && WrapOnAtCuts(v, chunks)
    requires ChunksOk(v, chunks)
    ensures RunChunks(v, chunks) == Run(v, false, Flatten(chunks)).vt
    ensures RunOk(v, false, Flatten(chunks)) && WF(RunChunks(v, chunks))
    decreases |chunks|
  {
    if chunks != [] {
      var r := Run(v, false, chunks[0]);
      RunInvariant(v, false, chunks[0]);
      DropState(v, false, chunks[0]);
      RunAppend(v, false, chunks[0], Flatten(chunks[1..]));
      ChunkInvariance(r.vt, chunks[1..]);
    }
  }
}
