/** Cutting a byte stream into dpip tags, and the switch to raw mode. */
module DpipStream {
  import opened Common
  import opened Dpip
  import opened DpipAttr
  import opened DpipRoundTrip

  const TAG_END := " '>"
  const MODE_SWITCH_TAG := "cmd='start_send_page' "

  datatype ModeBit = TagMode | LastTag | RawMode | NonBlock
  datatype Status = Eagain | Error | Eof

  /** The read side of a socket handler. */
  datatype Handler = Handler(rdbuf: string, mode: set<ModeBit>, status: Status)

  // What one round of nonblocking reads brings: the bytes, and how the reading ended.
  datatype Arrival = Arrival(bytes: string, end: Status)

  // The bytes that are seen as a C string.
  function CStr(s: string): string {
    if s == "" || s[0] == '\0' then "" else [s[0]] + CStr(s[1..])
  }

  function Receive(h: Handler, a: Arrival): Handler {
    if h.status == Error || h.status == Eof then h else h.(rdbuf := h.rdbuf + a.bytes, status := a.end)
  }

  function Accepted(h: Handler, a: Arrival): string {
    if h.status == Error || h.status == Eof then "" else a.bytes
  }

  datatype Result = Result(handler: Handler, token: Option<string>)

  function SwitchMode(h: Handler): Handler {
    if LastTag in h.mode then h.(mode := {RawMode}) else h
  }

  function TakeToken(h: Handler): Result {
    if TagMode in h.mode then
      match Find(CStr(h.rdbuf), TAG_END)
      case None => Result(h, None)
      case Some(p) =>
        FindIsFirst(CStr(h.rdbuf), TAG_END);
        CStrPrefix(h.rdbuf);
        var tag := h.rdbuf[..p + 3];
        var mode := if Find(CStr(tag), MODE_SWITCH_TAG) != None then h.mode + {LastTag} else h.mode;
        Result(h.(rdbuf := h.rdbuf[p + 3..], mode := mode), Some(tag))
    else if h.rdbuf != "" then Result(h.(rdbuf := ""), Some(h.rdbuf))
    else Result(h, None)
  }

  /** One nonblocking call of a_Dpip_dsh_read_token2. */
  function ReadToken(h: Handler, a: Arrival): Result {
    TakeToken(SwitchMode(Receive(h, a)))
  }

  function Concat(pieces: seq<string>): string {
    if pieces == [] then "" else pieces[0] + Concat(pieces[1..])
  }

  lemma {:induction false} ConcatAppend(a: seq<string>, b: seq<string>)
    ensures Concat(a + b) == Concat(a) + Concat(b)
  {
    if a == [] {
      assert a + b == b;
    } else {
      assert (a + b)[1..] == a[1..] + b;
      ConcatAppend(a[1..], b);
    }
  }

  class Dsh {
    var rdbuf: string
    var mode: set<ModeBit>
    var status: Status

    function View(): Handler
      reads this
    {
      Handler(rdbuf, mode, status)
    }

    constructor (nonblock: bool)
      ensures View() == Handler("", if nonblock then {TagMode, NonBlock} else {TagMode}, Eagain)
    {
      rdbuf := "";
      mode := if nonblock then {TagMode, NonBlock} else {TagMode};
      status := Eagain;
    }

    /** Dpip_dsh_read without blocking: `pieces` are the results of the read calls, `end` says
        how the last one failed. */
    method Read(pieces: seq<string>, end: Status)
      modifies this
      ensures View() == Receive(old(View()), Arrival(Concat(pieces), end))
    {
      if status == Error || status == Eof { return; }
      var i := 0;
      while i < |pieces|
        invariant 0 <= i <= |pieces| && mode == old(mode) && status == old(status)
        invariant rdbuf + Concat(pieces[i..]) == old(rdbuf) + Concat(pieces)
      {
        assert pieces[i..][1..] == pieces[i + 1..];
        rdbuf := rdbuf + pieces[i];
        i := i + 1;
      }
      status := end;
    }

    /** a_Dpip_dsh_read_token2 with blocking off. */
    method ReadToken2(pieces: seq<string>, end: Status) returns (token: Option<string>)
      modifies this
      ensures Result(View(), token) == ReadToken(old(View()), Arrival(Concat(pieces), end))
      ensures status == if old(status) == Eagain then end else old(status)
      ensures (if token == None then "" else token.value) + rdbuf
           == old(rdbuf) + if old(status) == Eagain then Concat(pieces) else ""
    {
      StatusAfter(View(), Arrival(Concat(pieces), end));
      Read(pieces, end);
      if LastTag in mode {
        mode := {RawMode};
      }
      token := None;
      if TagMode in mode {
        var p := Find(CStr(rdbuf), TAG_END);
        if p.Some? {
          FindIsFirst(CStr(rdbuf), TAG_END);
          CStrPrefix(rdbuf);
          token := Some(rdbuf[..p.value + 3]);
          rdbuf := rdbuf[p.value + 3..];
          if Find(CStr(token.value), MODE_SWITCH_TAG) != None {
            mode := mode + {LastTag};
          }
        }
      } else if |rdbuf| > 0 {
        token := Some(rdbuf);
        rdbuf := "";
      }
    }
  }

  lemma {:induction false} CStrPrefix(s: string)
    ensures CStr(s) <= s
    ensures '\0' !in s ==> CStr(s) == s
  {
    if s != "" && s[0] != '\0' {
      CStrPrefix(s[1..]);
    }
  }

  // ----- Whole sessions -----

  datatype Session = Session(handler: Handler, tokens: seq<string>, received: string)

  function Deliver(s: Session, a: Arrival): Session {
    var r := ReadToken(s.handler, a);
    Session(r.handler, s.tokens + (if r.token == None then [] else [r.token.value]),
            s.received + Accepted(s.handler, a))
  }

  function RunSession(s: Session, arrivals: seq<Arrival>): Session
    decreases |arrivals|
  {
    if arrivals == [] then s else RunSession(Deliver(s, arrivals[0]), arrivals[1..])
  }

  function Start(nonblock: bool): Session {
    Session(Handler("", if nonblock then {TagMode, NonBlock} else {TagMode}, Eagain), [], "")
  }

  /** Conservation: what was returned, and what is still buffered, is what was received. */
  ghost predicate Conserved(s: Session) {
    s.received == Concat(s.tokens) + s.handler.rdbuf
  }

  lemma TokenIsTaken(h: Handler)
    ensures var r := TakeToken(h);
            h.rdbuf == (if r.token == None then "" else r.token.value) + r.handler.rdbuf
  {
    if TagMode in h.mode {
      FindIsFirst(CStr(h.rdbuf), TAG_END);
      CStrPrefix(h.rdbuf);
    }
  }

  /** After a call the status is how its reading ended; an error or the end of the stream is final, and
      nothing more is taken. All that was taken is returned or buffered. */
  lemma StatusAfter(h: Handler, a: Arrival)
    ensures var r := ReadToken(h, a);
            && r.handler.status == (if h.status == Eagain then a.end else h.status)
            && (if r.token == None then "" else r.token.value) + r.handler.rdbuf
            == h.rdbuf + if h.status == Eagain then a.bytes else ""
  {
    var h' := SwitchMode(Receive(h, a));
    TokenIsTaken(h');
    hide Find;
    assert h.rdbuf + "" == h.rdbuf;
  }

  lemma DeliverConserves(s: Session, a: Arrival)
    requires Conserved(s)
    ensures Conserved(Deliver(s, a))
  {
    var h := SwitchMode(Receive(s.handler, a));
    TokenIsTaken(h);
    var r := TakeToken(h);
    var added := if r.token == None then [] else [r.token.value];
    assert s.handler.rdbuf + Accepted(s.handler, a) == h.rdbuf;
    assert Concat(added) == (if r.token == None then "" else r.token.value);
    ConcatAppend(s.tokens, added);
    hide TakeToken, Concat;
    Associative(Concat(s.tokens), s.handler.rdbuf, Accepted(s.handler, a));
    Associative(Concat(s.tokens), Concat(added), r.handler.rdbuf);
  }

  lemma {:induction false} SessionConserves(s: Session, arrivals: seq<Arrival>)
    requires Conserved(s)
    ensures Conserved(RunSession(s, arrivals))
    decreases |arrivals|
  {
    if arrivals != [] {
      DeliverConserves(s, arrivals[0]);
      hide Deliver, Conserved;
      SessionConserves(Deliver(s, arrivals[0]), arrivals[1..]);
    }
  }

  // ----- What was sent -----

  // The bytes a run of calls brings.
  function AllAccepted(h: Handler, arrivals: seq<Arrival>): string
    decreases |arrivals|
  {
    if arrivals == [] then ""
    else Accepted(h, arrivals[0]) + AllAccepted(ReadToken(h, arrivals[0]).handler, arrivals[1..])
  }

  // All bytes that were sent.
  function Bytes(arrivals: seq<Arrival>): string {
    if arrivals == [] then "" else arrivals[0].bytes + Bytes(arrivals[1..])
  }

  // Every reading but the last only ran out of bytes for now.
  ghost predicate StaysOpen(arrivals: seq<Arrival>) {
    forall i :: 0 <= i < |arrivals| - 1 ==> arrivals[i].end == Eagain
  }

  /** On a connection that stays open all bytes that were sent are accepted. */
  lemma {:induction false} AllTaken(h: Handler, arrivals: seq<Arrival>)
    requires h.status == Eagain && StaysOpen(arrivals)
    ensures AllAccepted(h, arrivals) == Bytes(arrivals)
    decreases |arrivals|
  {
    if arrivals != [] {
      StatusAfter(h, arrivals[0]);
      hide ReadToken;
      if |arrivals| > 1 {
        AllTaken(ReadToken(h, arrivals[0]).handler, arrivals[1..]);
      }
    }
  }

  /** After an error or the end of the stream nothing is accepted. */
  lemma {:induction false} NothingTaken(h: Handler, arrivals: seq<Arrival>)
    requires h.status != Eagain
    ensures AllAccepted(h, arrivals) == ""
    decreases |arrivals|
  {
    if arrivals != [] {
      StatusAfter(h, arrivals[0]);
      hide ReadToken;
      NothingTaken(ReadToken(h, arrivals[0]).handler, arrivals[1..]);
    }
  }

  // What is accepted is the beginning of what was sent.
  lemma {:induction false} AcceptedPrefix(h: Handler, arrivals: seq<Arrival>)
    ensures AllAccepted(h, arrivals) <= Bytes(arrivals)
    decreases |arrivals|
  {
    if h.status != Eagain {
      NothingTaken(h, arrivals);
    } else if arrivals != [] {
      hide ReadToken;
      AcceptedPrefix(ReadToken(h, arrivals[0]).handler, arrivals[1..]);
    }
  }

  lemma {:induction false} RunReceives(s: Session, arrivals: seq<Arrival>)
    ensures RunSession(s, arrivals).received == s.received + AllAccepted(s.handler, arrivals)
    decreases |arrivals|
  {
    if arrivals == [] {
      assert s.received + "" == s.received;
    } else {
      var s1 := Deliver(s, arrivals[0]);
      RunReceives(s1, arrivals[1..]);
      Associative(s.received, Accepted(s.handler, arrivals[0]), AllAccepted(s1.handler, arrivals[1..]));
    }
  }

  /** Nothing that is sent on a connection that stays open is lost. */
  lemma NothingLost(nonblock: bool, arrivals: seq<Arrival>)
    requires StaysOpen(arrivals)
    ensures var end := RunSession(Start(nonblock), arrivals);
            Concat(end.tokens) + end.handler.rdbuf == Bytes(arrivals)
  {
    var s := Start(nonblock);
    assert Conserved(s) && s.received == "";
    SessionConserves(s, arrivals);
    RunReceives(s, arrivals);
    AllTaken(s.handler, arrivals);
    assert "" + Bytes(arrivals) == Bytes(arrivals);
  }

  // ----- Framing -----

  /** A string whose first end mark is its end. */
  ghost predicate IsFrame(t: string) {
    '\0' !in t && |t| >= 3 && Find(t, TAG_END) == Some(|t| - 3)
  }

  predicate IsSwitch(t: string) {
    Find(t, MODE_SWITCH_TAG) != None
  }

  /** In tag mode a token is the part of the buffer up to its first end mark, before any null byte. */
  lemma TokenLaw(h: Handler)
    requires TagMode in h.mode
    ensures match TakeToken(h).token
            case Some(t) => t <= h.rdbuf && IsFrame(t)
            case None => forall k :: 0 <= k <= |h.rdbuf| ==> !IsFrame(h.rdbuf[..k])
  {
    var c := CStr(h.rdbuf);
    FindIsFirst(c, TAG_END);
    CStrPrefix(h.rdbuf);
    if Find(c, TAG_END).Some? {
      FramePrefix(h.rdbuf, Find(c, TAG_END).value);
    } else {
      forall k | 0 <= k <= |h.rdbuf| ensures !IsFrame(h.rdbuf[..k]) {
        if IsFrame(h.rdbuf[..k]) {
          assert h.rdbuf == h.rdbuf[..k] + h.rdbuf[k..];
          FrameFirst(h.rdbuf[..k], h.rdbuf[k..]);
        }
      }
    }
  }

  lemma FramePrefix(s: string, p: nat)
    requires Find(CStr(s), TAG_END) == Some(p)
    ensures p + 3 <= |s| && IsFrame(s[..p + 3])
  {
    var c := CStr(s);
    CStrPrefix(s);
    CStrClean(s);
    FindIsFirst(c, TAG_END);
    hide Find, CStr;
    assert s[..p + 3] == c[..p + 3];
    FirstMark(c, p);
  }

  lemma FirstMark(c: string, p: nat)
    requires '\0' !in c && OccursAt(c, TAG_END, p) && forall k :: 0 <= k < p ==> !OccursAt(c, TAG_END, k)
    ensures IsFrame(c[..p + 3])
  {
    var t := c[..p + 3];
    assert t[p..p + 3] == c[p..p + 3];
    forall k | 0 <= k < p ensures !OccursAt(t, TAG_END, k) {
      assert t[k..k + 3] == c[k..k + 3];
      assert !OccursAt(c, TAG_END, k);
    }
    FindUnique(t, TAG_END, p);
  }

  lemma {:induction false} CStrClean(s: string)
    ensures '\0' !in CStr(s)
  {
    if s != "" && s[0] != '\0' {
      CStrClean(s[1..]);
    }
  }

  /** A stream: frames, of which at most the last switches to raw mode, and the raw bytes after
      the switch. */
  ghost predicate IsStream(frames: seq<string>, raw: string) {
    && (forall i :: 0 <= i < |frames| ==> IsFrame(frames[i]))
    && (forall i :: 0 <= i < |frames| - 1 ==> !IsSwitch(frames[i]))
    && (raw != "" ==> frames != [] && IsSwitch(frames[|frames| - 1]))
  }

  // The first end mark of a frame followed by anything is the frame's own.
  lemma FrameFirst(t: string, w: string)
    requires IsFrame(t)
    ensures Find(CStr(t + w), TAG_END) == Some(|t| - 3)
  {
    CStrFrame(t, w);
    var s := t + CStr(w);
    FindIsFirst(t, TAG_END);
    assert s[|t| - 3..|t|] == t[|t| - 3..|t|];
    forall k | 0 <= k < |t| - 3 ensures !OccursAt(s, TAG_END, k) {
      assert s[k..k + 3] == t[k..k + 3];
      assert !OccursAt(t, TAG_END, k);
    }
    FindUnique(s, TAG_END, |t| - 3);
  }

  lemma {:induction false} CStrFrame(t: string, w: string)
    requires '\0' !in t
    ensures CStr(t + w) == t + CStr(w)
  {
    if t == "" {
      assert t + w == w;
    } else {
      assert (t + w)[1..] == t[1..] + w;
      CStrFrame(t[1..], w);
    }
  }

  // An incomplete frame has no end mark.
  lemma PartialFrame(t: string, u: string)
    requires IsFrame(t) && u < t
    ensures Find(CStr(u), TAG_END) == None
  {
    CStrPrefix(u);
    FindIsFirst(u, TAG_END);
    FindIsFirst(t, TAG_END);
    if Find(u, TAG_END).Some? {
      var k := Find(u, TAG_END).value;
      assert t[k..k + 3] == u[k..k + 3];
      assert OccursAt(t, TAG_END, k);
    }
  }

  /** Where a session on the stream frames + raw stands: m frames returned, or all of them and
      some raw pieces. */
  ghost predicate OnStream(s: Session, frames: seq<string>, raw: string, m: nat, pieces: seq<string>) {
    && m <= |frames| && s.tokens == frames[..m] + pieces
    && (TagMode in s.handler.mode <==> RawMode !in s.handler.mode)
    && (RawMode in s.handler.mode ==> m == |frames| && LastTag !in s.handler.mode)
    && (TagMode in s.handler.mode ==>
          && pieces == []
          && (LastTag in s.handler.mode <==> m == |frames| && m > 0 && IsSwitch(frames[m - 1])))
    && (forall i :: 0 <= i < |pieces| ==> pieces[i] != "")
    && Conserved(s) && s.received <= Concat(frames) + raw
  }

  // What is buffered is the beginning of what is still to come.
  lemma Buffered(s: Session, frames: seq<string>, raw: string, m: nat, pieces: seq<string>)
    requires OnStream(s, frames, raw, m, pieces) && pieces == []
    ensures s.handler.rdbuf <= Concat(frames[m..]) + raw
  {
    assert frames == frames[..m] + frames[m..];
    ConcatAppend(frames[..m], frames[m..]);
    assert frames[..m] + pieces == frames[..m];
    var done := Concat(frames[..m]);
    assert Concat(frames) + raw == done + (Concat(frames[m..]) + raw);
    assert s.received[|done|..] == s.handler.rdbuf;
    assert (Concat(frames) + raw)[|done|..] == Concat(frames[m..]) + raw;
    assert s.received[|done|..] <= (Concat(frames) + raw)[|done|..];
  }

  /** Deferred mode switch: what the mode is when the next token is taken. */
  predicate TakesTag(h: Handler) {
    TagMode in h.mode && LastTag !in h.mode
  }

  lemma TakesFrame(h: Handler, t: string, w: string)
    requires TagMode in h.mode && h.rdbuf == t + w && IsFrame(t)
    ensures TakeToken(h)
         == Result(h.(rdbuf := w, mode := if IsSwitch(t) then h.mode + {LastTag} else h.mode), Some(t))
  {
    FrameFirst(t, w);
    CStrPrefix(t);
    assert (t + w)[..|t|] == t && (t + w)[|t|..] == w;
  }

  lemma TakesNothing(h: Handler, t: string)
    requires TagMode in h.mode && (h.rdbuf == "" || (IsFrame(t) && h.rdbuf < t))
    ensures TakeToken(h) == Result(h, None)
  {
    if h.rdbuf == "" {
      assert Find(CStr(""), TAG_END) == None;
    } else {
      PartialFrame(t, h.rdbuf);
    }
  }

  // The bytes have arrived; the token is still to be taken.
  function Arrived(s: Session, a: Arrival): Session {
    Session(Receive(s.handler, a), s.tokens, s.received + Accepted(s.handler, a))
  }

  lemma ArrivedOnStream(s: Session, frames: seq<string>, raw: string, m: nat, pieces: seq<string>, a: Arrival)
    requires OnStream(s, frames, raw, m, pieces)
    requires s.received + Accepted(s.handler, a) <= Concat(frames) + raw
    ensures OnStream(Arrived(s, a), frames, raw, m, pieces)
    ensures Receive(s.handler, a).rdbuf == s.handler.rdbuf + Accepted(s.handler, a)
    ensures Receive(s.handler, a).mode == s.handler.mode
  {
    hide Concat;
    Associative(Concat(s.tokens), s.handler.rdbuf, Accepted(s.handler, a));
  }

  // What is buffered against the next frame.
  lemma NextFrame(s: Session, frames: seq<string>, raw: string, m: nat)
    requires IsStream(frames, raw) && OnStream(s, frames, raw, m, []) && TakesTag(s.handler)
    ensures m == |frames| ==> s.handler.rdbuf == ""
    ensures m < |frames| && |frames[m]| <= |s.handler.rdbuf| ==>
              s.handler.rdbuf == frames[m] + s.handler.rdbuf[|frames[m]|..]
    ensures m < |frames| && |frames[m]| > |s.handler.rdbuf| ==> s.handler.rdbuf < frames[m]
  {
    Buffered(s, frames, raw, m, []);
    if m == |frames| {
      assert frames[m..] == [] && raw == "";
    } else {
      var t := frames[m];
      assert frames[m..][0] == t && frames[m..][1..] == frames[m + 1..];
      Associative(t, Concat(frames[m + 1..]), raw);
    }
  }

  // In tag mode the next call returns the next frame if it has arrived whole, and nothing
  // otherwise.
  lemma TagStep(s: Session, frames: seq<string>, raw: string, m: nat, a: Arrival)
    requires IsStream(frames, raw) && OnStream(s, frames, raw, m, []) && TakesTag(s.handler)
    requires s.received + Accepted(s.handler, a) <= Concat(frames) + raw
    ensures var whole := m < |frames| && |frames[m]| <= |s.handler.rdbuf + Accepted(s.handler, a)|;
            && OnStream(Deliver(s, a), frames, raw, if whole then m + 1 else m, [])
  {
    ArrivedOnStream(s, frames, raw, m, [], a);
    var h := Receive(s.handler, a);
    NextFrame(Arrived(s, a), frames, raw, m);
    DeliverConserves(s, a);
    assert s.tokens == frames[..m] by { assert frames[..m] + [] == frames[..m]; }
    if m < |frames| && |frames[m]| <= |h.rdbuf| {
      var t := frames[m];
      TakesFrame(h, t, h.rdbuf[|t|..]);
      hide TakeToken, Concat, Conserved, Receive, Accepted, IsSwitch;
      assert frames[..m + 1] + [] == frames[..m] + [t];
    } else {
      TakesNothing(h, if m < |frames| then frames[m] else "");
      hide TakeToken, Concat, Conserved, Receive, Accepted, IsSwitch;
      assert s.tokens + [] == s.tokens;
    }
  }

  // After the switch the next call returns all that is buffered.
  lemma RawStep(s: Session, frames: seq<string>, raw: string, m: nat, pieces: seq<string>, a: Arrival)
    requires IsStream(frames, raw) && OnStream(s, frames, raw, m, pieces) && !TakesTag(s.handler)
    requires s.received + Accepted(s.handler, a) <= Concat(frames) + raw
    ensures var got := s.handler.rdbuf + Accepted(s.handler, a);
            && m == |frames| && Deliver(s, a).handler.rdbuf == ""
            && OnStream(Deliver(s, a), frames, raw, m, if got == "" then pieces else pieces + [got])
  {
    DeliverConserves(s, a);
    RawTake(s, a);
    var got := s.handler.rdbuf + Accepted(s.handler, a);
    hide ReadToken, Deliver, Concat, Conserved, Accepted, IsStream;
    if got == "" {
      StaysOnStream(s, Deliver(s, a), frames, raw, m, pieces, []);
      assert pieces + [] == pieces;
    } else {
      StaysOnStream(s, Deliver(s, a), frames, raw, m, pieces, [got]);
    }
  }

  lemma StaysOnStream(s: Session, s': Session, frames: seq<string>, raw: string, m: nat,
                      pieces: seq<string>, more: seq<string>)
    requires OnStream(s, frames, raw, m, pieces) && !TakesTag(s.handler)
    requires s'.tokens == s.tokens + more && forall i :: 0 <= i < |more| ==> more[i] != ""
    requires s'.handler.mode == if LastTag in s.handler.mode then {RawMode} else s.handler.mode
    requires Conserved(s') && s'.received <= Concat(frames) + raw
    ensures OnStream(s', frames, raw, m, pieces + more)
  {
    hide Concat, Conserved, IsSwitch;
    Associative(frames[..m], pieces, more);
  }

  // What a call after the switch does.
  lemma RawTake(s: Session, a: Arrival)
    requires LastTag in s.handler.mode || (RawMode in s.handler.mode && TagMode !in s.handler.mode)
    ensures var got := s.handler.rdbuf + Accepted(s.handler, a);
            var d := Deliver(s, a);
            && d.tokens == s.tokens + (if got == "" then [] else [got])
            && d.received == s.received + Accepted(s.handler, a) && d.handler.rdbuf == ""
            && d.handler.mode == (if LastTag in s.handler.mode then {RawMode} else s.handler.mode)
  {
    assert s.handler.rdbuf + "" == s.handler.rdbuf;
  }

  lemma StreamStep(s: Session, frames: seq<string>, raw: string, m: nat, pieces: seq<string>, a: Arrival)
    returns (m': nat, pieces': seq<string>)
    requires IsStream(frames, raw) && OnStream(s, frames, raw, m, pieces)
    requires s.received + Accepted(s.handler, a) <= Concat(frames) + raw
    ensures OnStream(Deliver(s, a), frames, raw, m', pieces')
  {
    if TakesTag(s.handler) {
      TagStep(s, frames, raw, m, a);
      m' := if m < |frames| && |frames[m]| <= |s.handler.rdbuf + Accepted(s.handler, a)| then m + 1 else m;
      pieces' := [];
    } else {
      RawStep(s, frames, raw, m, pieces, a);
      var got := s.handler.rdbuf + Accepted(s.handler, a);
      m' := m;
      pieces' := if got == "" then pieces else pieces + [got];
    }
  }

  // The tokens against the bytes that were accepted.
  lemma {:induction false} AcceptedFraming(s: Session, frames: seq<string>, raw: string, m: nat, pieces: seq<string>,
                                           arrivals: seq<Arrival>) returns (m': nat, pieces': seq<string>)
    requires IsStream(frames, raw) && OnStream(s, frames, raw, m, pieces)
    requires s.received + AllAccepted(s.handler, arrivals) <= Concat(frames) + raw
    ensures OnStream(RunSession(s, arrivals), frames, raw, m', pieces')
    decreases |arrivals|
  {
    m', pieces' := m, pieces;
    if arrivals != [] {
      var s1 := Deliver(s, arrivals[0]);
      assert s1.handler == ReadToken(s.handler, arrivals[0]).handler;
      Associative(s.received, Accepted(s.handler, arrivals[0]), AllAccepted(s1.handler, arrivals[1..]));
      hide ReadToken, OnStream, IsStream;
      m', pieces' := StreamStep(s, frames, raw, m, pieces, arrivals[0]);
      m', pieces' := AcceptedFraming(s1, frames, raw, m', pieces', arrivals[1..]);
    }
  }

  /** Stream framing: however the stream is cut into arrivals, the tokens returned so far are
      the frames in order, and after the switching frame nonempty pieces of the raw bytes. */
  lemma Framing(s: Session, frames: seq<string>, raw: string, m: nat, pieces: seq<string>,
                arrivals: seq<Arrival>) returns (m': nat, pieces': seq<string>)
    requires IsStream(frames, raw) && OnStream(s, frames, raw, m, pieces)
    requires s.received + Bytes(arrivals) <= Concat(frames) + raw
    ensures var end := RunSession(s, arrivals);
            && OnStream(end, frames, raw, m', pieces')
            && (s.handler.status == Eagain && StaysOpen(arrivals) ==> end.received == s.received + Bytes(arrivals))
  {
    AcceptedPrefix(s.handler, arrivals);
    RunReceives(s, arrivals);
    if s.handler.status == Eagain && StaysOpen(arrivals) {
      AllTaken(s.handler, arrivals);
    }
    hide OnStream, IsStream, RunSession, Concat, Bytes, AllAccepted, StaysOpen;
    assert s.received + AllAccepted(s.handler, arrivals) <= s.received + Bytes(arrivals);
    m', pieces' := AcceptedFraming(s, frames, raw, m, pieces, arrivals);
  }

  // Calls that bring no bytes.
  ghost predicate Quiet(arrivals: seq<Arrival>) {
    forall i :: 0 <= i < |arrivals| ==> arrivals[i].bytes == ""
  }

  /** Completeness: once the whole stream has arrived, one call per frame not yet returned and
      one more return everything. */
  lemma {:induction false} Drained(s: Session, frames: seq<string>, raw: string, m: nat, pieces: seq<string>,
                                   arrivals: seq<Arrival>) returns (pieces': seq<string>)
    requires IsStream(frames, raw) && OnStream(s, frames, raw, m, pieces)
    requires s.received == Concat(frames) + raw && Quiet(arrivals) && |arrivals| > |frames| - m
    ensures var end := RunSession(s, arrivals);
            && end.tokens == frames + pieces' && Concat(pieces') == raw && end.handler.rdbuf == ""
    decreases |arrivals|
  {
    var s1 := Deliver(s, arrivals[0]);
    assert Accepted(s.handler, arrivals[0]) == "" && s.received + "" == s.received;
    if TakesTag(s.handler) {
      TagStep(s, frames, raw, m, arrivals[0]);
      WholeFrame(s, frames, raw, m);
      if m < |frames| {
        pieces' := Drained(s1, frames, raw, m + 1, [], arrivals[1..]);
      } else {
        pieces' := QuietTail(s1, frames, raw, [], arrivals[1..]);
      }
    } else {
      RawStep(s, frames, raw, m, pieces, arrivals[0]);
      var got := s.handler.rdbuf + "";
      pieces' := QuietTail(s1, frames, raw, if got == "" then pieces else pieces + [got], arrivals[1..]);
    }
  }

  // When everything has arrived, the next frame is whole.
  lemma WholeFrame(s: Session, frames: seq<string>, raw: string, m: nat)
    requires OnStream(s, frames, raw, m, []) && s.received == Concat(frames) + raw
    ensures m < |frames| ==> |frames[m]| <= |s.handler.rdbuf|
    ensures m == |frames| ==> s.handler.rdbuf == raw
  {
    assert frames == frames[..m] + frames[m..];
    ConcatAppend(frames[..m], frames[m..]);
    assert s.tokens == frames[..m];
    assert |s.handler.rdbuf| == |Concat(frames[m..])| + |raw|;
    assert s.received[|Concat(frames[..m])|..] == s.handler.rdbuf;
    assert (Concat(frames) + raw)[|Concat(frames[..m])|..] == Concat(frames[m..]) + raw;
  }

  // With all frames returned and the buffer empty, quiet calls change nothing.
  lemma {:induction false} QuietTail(s: Session, frames: seq<string>, raw: string, pieces: seq<string>,
                                     arrivals: seq<Arrival>) returns (pieces': seq<string>)
    requires IsStream(frames, raw) && OnStream(s, frames, raw, |frames|, pieces) && s.handler.rdbuf == ""
    requires s.received == Concat(frames) + raw && Quiet(arrivals)
    ensures var end := RunSession(s, arrivals);
            && end.tokens == frames + pieces' && Concat(pieces') == raw && end.handler.rdbuf == ""
    decreases |arrivals|
  {
    if arrivals == [] {
      pieces' := pieces;
      assert frames[..|frames|] == frames;
      ConcatAppend(frames, pieces);
      assert Concat(frames) + raw == Concat(frames) + Concat(pieces) + "";
      assert (Concat(frames) + raw)[|Concat(frames)|..] == raw;
      assert (Concat(frames) + Concat(pieces))[|Concat(frames)|..] == Concat(pieces);
    } else {
      var a := arrivals[0];
      assert Accepted(s.handler, a) == "" && s.received + "" == s.received && s.handler.rdbuf + "" == "";
      if TakesTag(s.handler) {
        TagStep(s, frames, raw, |frames|, a);
      } else {
        RawStep(s, frames, raw, |frames|, pieces, a);
      }
      TokenIsTaken(SwitchMode(Receive(s.handler, a)));
      pieces' := QuietTail(Deliver(s, a), frames, raw, pieces, arrivals[1..]);
    }
  }
}
