/** Reading an attribute back from a dpip tag: the five-state scanner, and the print/parse
    round trip. */
module DpipAttr {
  import opened Common
  import opened Dpip

  datatype Parsing = SeekName | MatchName | SkipValue | SkipQuote | Found

  // A C string, read at its terminator too.
  function At(s: string, i: nat): char {
    if i < |s| then s[i] else '\0'
  }

  // ----- The scanner -----

  datatype Scanner = Scanner(state: Parsing, n: nat)

  /** What the scanner does with character i of the tag. */
  function Advance(tag: string, attr: string, i: nat, s: Scanner): Scanner
    requires 1 <= i < |tag| && attr != "" && s.n <= |attr|
  {
    match s.state
    case SeekName =>
      if tag[i] == attr[0] && (tag[i - 1] == ' ' || tag[i - 1] == '<') then Scanner(MatchName, 1)
      else if tag[i] == QUOTE && tag[i - 1] == '=' then Scanner(SkipValue, s.n)
      else s
    case MatchName =>
      if s.n < |attr| && tag[i] == attr[s.n] then Scanner(MatchName, s.n + 1)
      else if tag[i] == '=' && s.n == |attr| then Scanner(Found, s.n)
      else Scanner(SeekName, s.n)
    case SkipValue =>
      if tag[i] == QUOTE then Scanner(if At(tag, i + 1) == QUOTE then SkipQuote else SeekName, s.n) else s
    case SkipQuote => Scanner(SkipValue, s.n)
    case Found => s
  }

  /** Where the value starts: two characters after the '=' of the wanted name. */
  function Scan(tag: string, size: nat, attr: string, i: nat, s: Scanner): Option<nat>
    requires 1 <= i && size <= |tag| && attr != "" && s.n <= |attr|
    decreases |tag| - i
  {
    if i >= size then None
    else if s.state == Found then Some(i + 1)
    else Scan(tag, size, attr, i + 1, Advance(tag, attr, i, s))
  }

  // strchr from position p
  function NextQuote(tag: string, p: nat): Option<nat>
    decreases |tag| - p
  {
    if p >= |tag| || tag[p] == '\0' then None
    else if tag[p] == QUOTE then Some(p)
    else NextQuote(tag, p + 1)
  }

  lemma {:induction false} NextQuoteAt(tag: string, p: nat)
    ensures match NextQuote(tag, p)
            case Some(q) =>
              && p <= q < |tag| && tag[q] == QUOTE
              && forall k :: p <= k < q ==> tag[k] != QUOTE && tag[k] != '\0'
            case None => true
    decreases |tag| - p
  {
    if p < |tag| && tag[p] != '\0' && tag[p] != QUOTE {
      NextQuoteAt(tag, p + 1);
    }
  }

  // The first quote from p on that is not one of a doubled pair.
  function ClosingQuote(tag: string, p: nat): Option<nat>
    decreases |tag| - p
  {
    NextQuoteAt(tag, p);
    match NextQuote(tag, p)
    case None => None
    case Some(q) => if At(tag, q + 1) == QUOTE then ClosingQuote(tag, q + 2) else Some(q)
  }

  function ValueAt(tag: string, start: nat): Option<string> {
    match ClosingQuote(tag, start)
    case None => None
    case Some(q) => if start <= q <= |tag| && At(tag, q + 1) == ' ' then Some(Unstuff(tag[start..q])) else None
  }

  function GetAttr(tag: string, size: nat, attr: string): Option<string>
    requires size <= |tag|
  {
    if size == 0 || attr == "" then None
    else
      match Scan(tag, size, attr, 1, Scanner(SeekName, 0))
      case None => None
      case Some(start) => ValueAt(tag, start)
  }

  // Copying so far: `done` is written, the rest of the text comes from position s.
  ghost predicate Copied(text: string, done: string, s: nat) {
    s <= |text| && done + Unstuff(text[s..]) == Unstuff(text)
  }

  lemma CopyStep(text: string, done: string, s: nat)
    requires s < |text| && Copied(text, done, s)
    ensures Copied(text, done + [text[s]],
                   if s + 1 < |text| && text[s] == QUOTE && text[s + 1] == QUOTE then s + 2 else s + 1)
  {
    assert text[s..][1..] == text[s + 1..];
    if s + 1 < |text| {
      assert text[s..][2..] == text[s + 2..];
    }
    var s' := if s + 1 < |text| && text[s] == QUOTE && text[s + 1] == QUOTE then s + 2 else s + 1;
    assert Unstuff(text[s..]) == [text[s]] + Unstuff(text[s'..]);
    Associative(done, [text[s]], Unstuff(text[s'..]));
  }

  // The copy loop that removes the stuffing in place: `r` writes, `s` reads ahead of it.
  method UnstuffInPlace(val: array<char>) returns (len: nat)
    requires val.Length > 0 && val[val.Length - 1] == '\0' && '\0' !in val[..val.Length - 1]
    modifies val
    ensures len < val.Length && val[..len] == Unstuff(old(val[..val.Length - 1])) && val[len] == '\0'
  {
    ghost var text, n := val[..val.Length - 1], val.Length - 1;
    var r, s := 0, 0;
    val[r] := val[s];
    ghost var done := "";
    assert text[0..] == text && Copied(text, done, 0);
    hide Copied;
    while val[r] != '\0'
      invariant 0 <= r <= s <= n && val[r] == (if s < n then text[s] else '\0')
      invariant forall k :: s <= k < n ==> val[k] == text[k]
      invariant s < n ==> val[n] == '\0'
      invariant |done| == r && (forall k :: 0 <= k < r ==> val[k] == done[k]) && Copied(text, done, s)
      decreases n - s
    {
      CopyStep(text, done, s);
      done := done + [text[s]];
      if val[s] == QUOTE && val[s] == val[s + 1] {
        s := s + 1;
      }
      r, s := r + 1, s + 1;
      val[r] := val[s];
    }
    CopyEnd(text, done, s);
    len := r;
  }

  lemma CopyEnd(text: string, done: string, s: nat)
    requires s == |text| && Copied(text, done, s)
    ensures done == Unstuff(text)
  {
    assert text[s..] == "";
  }

  /** a_Dpip_get_attr_l. */
  method GetAttrL(tag: string, tagsize: nat, attrname: string) returns (val: Option<string>)
    requires tagsize <= |tag| && '\0' !in tag && '\0' !in attrname
    ensures val == GetAttr(tag, tagsize, attrname)
  {
    val := None;
    if tagsize == 0 || attrname == "" { return; }
    var i, n, found, state := 1, 0, false, SeekName;
    while i < tagsize && !found
      invariant 1 <= i && n <= |attrname| && (found ==> i <= tagsize)
      invariant Scan(tag, tagsize, attrname, 1, Scanner(SeekName, 0))
             == if found then Some(i) else Scan(tag, tagsize, attrname, i, Scanner(state, n))
    {
      match state {
      case SeekName =>
        if tag[i] == attrname[0] && (tag[i - 1] == ' ' || tag[i - 1] == '<') {
          n := 1;
          state := MatchName;
        } else if tag[i] == QUOTE && tag[i - 1] == '=' {
          state := SkipValue;
        }
      case MatchName =>
        if tag[i] == At(attrname, n) {
          n := n + 1;
        } else if tag[i] == '=' && At(attrname, n) == '\0' {
          state := Found;
        } else {
          state := SeekName;
        }
      case SkipValue =>
        if tag[i] == QUOTE {
          state := if At(tag, i + 1) == QUOTE then SkipQuote else SeekName;
        }
      case SkipQuote =>
        state := SkipValue;
      case Found =>
        found := true;
      }
      i := i + 1;
    }
    if found {
      var start, p := i, i;
      NextQuoteAt(tag, p);
      var q := NextQuote(tag, p);
      while q.Some? && At(tag, q.value + 1) == QUOTE
        invariant start <= p && q == NextQuote(tag, p) && ClosingQuote(tag, start) == ClosingQuote(tag, p)
        invariant q.Some? ==> p <= q.value < |tag|
        decreases |tag| - p
      {
        p := q.value + 2;
        q := NextQuote(tag, p);
        NextQuoteAt(tag, p);
      }
      if q.Some? && At(tag, q.value + 1) == ' ' {
        var copy := new char[q.value - start + 1](k requires 0 <= k <= q.value - start =>
          if k < q.value - start then tag[start + k] else '\0');
        assert copy[..copy.Length - 1] == tag[start..q.value];
        var len := UnstuffInPlace(copy);
        val := Some(copy[..len]);
      }
    }
  }
}
