/** Escaping and unescaping: HTML entities and %XX sequences. Strings are C strings without NUL. */
module Escape {
  import opened Common

  type Text = seq<Byte>

  // ----- HTML -----

  const AMP: Byte := 38

  // unsafe_chars and unsafe_rep
  function Unsafe(k: nat): Byte
    requires k < 5
  {
    if k == 0 then AMP else if k == 1 then 60 else if k == 2 then 62 else if k == 3 then 34 else 39
  }

  function Entity(k: nat): Text
    requires k < 5
  {
    if k == 0 then [38, 97, 109, 112, 59]
    else if k == 1 then [38, 108, 116, 59]
    else if k == 2 then [38, 103, 116, 59]
    else if k == 3 then [38, 113, 117, 111, 116, 59]
    else [38, 35, 51, 57, 59]
  }

  // strchr in unsafe_chars; 5 if the character is safe
  function UnsafeIndex(c: Byte): (k: nat)
    ensures k <= 5 && (k < 5 ==> Unsafe(k) == c) && (k == 5 ==> forall j: nat :: j < 5 ==> Unsafe(j) != c)
  {
    if c == Unsafe(0) then 0
    else if c == Unsafe(1) then 1
    else if c == Unsafe(2) then 2
    else if c == Unsafe(3) then 3
    else if c == Unsafe(4) then 4
    else 5
  }

  function EscapeHtml(s: Text): Text {
    if s == [] then []
    else (if UnsafeIndex(s[0]) < 5 then Entity(UnsafeIndex(s[0])) else [s[0]]) + EscapeHtml(s[1..])
  }

  function Lower(c: Byte): Byte {
    if 65 <= c <= 90 then c + 32 else c
  }

  // dStrnAsciiCasecmp at the beginning of s
  predicate StartsWith(s: Text, e: Text) {
    |e| <= |s| && forall i :: 0 <= i < |e| ==> Lower(s[i]) == Lower(e[i])
  }

  // The first entity that s begins with; 5 if there is none.
  function EntityIndex(s: Text): (k: nat)
    ensures k <= 5 && (k < 5 ==> StartsWith(s, Entity(k)) && 4 <= |Entity(k)| <= |s|)
  {
    if StartsWith(s, Entity(0)) then 0
    else if StartsWith(s, Entity(1)) then 1
    else if StartsWith(s, Entity(2)) then 2
    else if StartsWith(s, Entity(3)) then 3
    else if StartsWith(s, Entity(4)) then 4
    else 5
  }

  function UnescapeHtml(s: Text): Text
    decreases |s|
  {
    if s == [] then []
    else if s[0] == AMP && EntityIndex(s) < 5 then
      [Unsafe(EntityIndex(s))] + UnescapeHtml(s[|Entity(EntityIndex(s))|..])
    else [s[0]] + UnescapeHtml(s[1..])
  }

  // An entity is recognized whatever follows it.
  lemma EntityFound(k: nat, rest: Text)
    requires k < 5
    ensures EntityIndex(Entity(k) + rest) == k && (Entity(k) + rest)[0] == AMP
            && (Entity(k) + rest)[|Entity(k)|..] == rest
  {
    var s := Entity(k) + rest;
    assert Lower(s[1]) == Lower(Entity(k)[1]) && Lower(s[2]) == Lower(Entity(k)[2]);
    forall j: nat | j < k ensures !StartsWith(s, Entity(j)) {
      assert Lower(s[1]) != Lower(Entity(j)[1]) || Lower(s[2]) != Lower(Entity(j)[2]);
    }
  }

  /** Unescaping inverts escaping. */
  lemma {:induction false} HtmlRoundTrip(s: Text)
    ensures UnescapeHtml(EscapeHtml(s)) == s
  {
    if s != [] {
      HtmlRoundTrip(s[1..]);
      var k, rest := UnsafeIndex(s[0]), EscapeHtml(s[1..]);
      hide Entity, StartsWith, EntityIndex;
      if k < 5 {
        EntityFound(k, rest);
      } else {
        assert Unsafe(0) != s[0];
        assert EscapeHtml(s)[0] == s[0] && EscapeHtml(s)[1..] == rest;
      }
    }
  }

  // Every & begins an entity.
  ghost predicate AmpsBegin(t: Text) {
    forall i :: 0 <= i < |t| && t[i] == AMP ==> AmpBegins(t, i)
  }

  ghost predicate AmpBegins(t: Text, i: nat)
    requires i <= |t|
  {
    exists k: nat :: k < 5 && Entity(k) <= t[i..]
  }

  lemma AmpLater(head: Text, rest: Text, i: nat)
    requires |head| <= i <= |head| + |rest|
    ensures AmpBegins(head + rest, i) == AmpBegins(rest, i - |head|)
  {
    assert (head + rest)[i..] == rest[i - |head|..];
  }

  lemma HeadSafe(c: Byte, rest: Text)
    ensures var k := UnsafeIndex(c);
            var head := if k < 5 then Entity(k) else [c];
            && (forall j: nat :: 1 <= j < 5 ==> Unsafe(j) !in head)
            && (forall i :: 0 <= i < |head| && head[i] == AMP ==> AmpBegins(head + rest, i))
  {
    var k := UnsafeIndex(c);
    if k < 5 {
      assert Entity(k) <= (Entity(k) + rest)[0..];
      assert AmpBegins(Entity(k) + rest, 0);
    } else {
      assert Unsafe(0) != c;
    }
  }

  /** Escaped text holds none of the characters < > " ', and & only to begin an entity. */
  lemma {:induction false} EscapedIsSafe(s: Text)
    ensures forall k: nat :: 1 <= k < 5 ==> Unsafe(k) !in EscapeHtml(s)
    ensures AmpsBegin(EscapeHtml(s))
  {
    if s != [] {
      EscapedIsSafe(s[1..]);
      var k, rest, all := UnsafeIndex(s[0]), EscapeHtml(s[1..]), EscapeHtml(s);
      var head := if k < 5 then Entity(k) else [s[0]];
      assert all == head + rest;
      HeadSafe(s[0], rest);
      hide EscapeHtml, Entity, AmpBegins, Unsafe;
      forall i | 0 <= i < |all| && all[i] == AMP ensures AmpBegins(all, i) {
        if i >= |head| {
          AmpLater(head, rest, i);
        }
      }
    }
  }

  // One turn of the loops, `done` being what has been written.
  lemma EscapeHtmlNext(done: Text, s: Text)
    requires s != []
    ensures done + EscapeHtml(s)
         == (done + if UnsafeIndex(s[0]) < 5 then Entity(UnsafeIndex(s[0])) else [s[0]]) + EscapeHtml(s[1..])
  {
    hide Entity, UnsafeIndex;
  }

  /** Escape_html_str. */
  method EscapeHtmlStr(str: Text) returns (r: Text)
    ensures r == EscapeHtml(str)
  {
    r := [];
    var i := 0;
    hide EscapeHtml, Entity;
    while i < |str|
      invariant i <= |str| && r + EscapeHtml(str[i..]) == EscapeHtml(str)
    {
      assert str[i..][1..] == str[i + 1..];
      EscapeHtmlNext(r, str[i..]);
      var k := UnsafeIndex(str[i]);
      r := r + if k < 5 then Entity(k) else [str[i]];
      i := i + 1;
    }
    assert str[i..] == [];
    NothingLeft();
  }

  lemma NothingLeft()
    ensures EscapeHtml([]) == [] && UnescapeHtml([]) == [] && UnescapeUri([]) == []
    ensures forall escSet :: EscapeUri([], escSet) == []
  {
  }

  // The character that stands at position i, and the position behind its entity.
  function HtmlAt(s: Text, i: nat): Byte
    requires i < |s|
  {
    if s[i] == AMP && EntityIndex(s[i..]) < 5 then Unsafe(EntityIndex(s[i..])) else s[i]
  }

  function NextHtml(s: Text, i: nat): int
    requires i < |s|
  {
    if s[i] == AMP && EntityIndex(s[i..]) < 5 then i + |Entity(EntityIndex(s[i..]))| else i + 1
  }

  // The turn of the loop: an entity is replaced as a whole.
  method UnescapeHtmlAt(str: Text, i: nat) returns (c: Byte, next: int)
    requires i < |str|
    ensures c == HtmlAt(str, i) && next == NextHtml(str, i)
  {
    hide StartsWith, Entity, Unsafe, EntityIndex;
    c, next := str[i], i;
    if str[i] == AMP {
      var k := EntityIndex(str[i..]);
      if k < 5 {
        c, next := Unsafe(k), next + |Entity(k)| - 1;
      }
    }
    next := next + 1;
  }

  // `done` is the result for the part of s before i.
  ghost predicate UnescapedTo(s: Text, i: nat, done: Text) {
    i <= |s| && done + UnescapeHtml(s[i..]) == UnescapeHtml(s)
  }

  lemma UnescapedToStart(s: Text)
    ensures UnescapedTo(s, 0, [])
  {
    assert s[0..] == s;
  }

  lemma UnescapedToEnd(s: Text, done: Text)
    requires UnescapedTo(s, |s|, done)
    ensures done == UnescapeHtml(s)
  {
    assert s[|s|..] == [];
  }

  // One turn at position i.
  lemma UnescapeHtmlTurn(s: Text, i: nat, done: Text)
    requires i < |s| && UnescapedTo(s, i, done)
    ensures i < NextHtml(s, i) <= |s| && UnescapedTo(s, NextHtml(s, i), done + [HtmlAt(s, i)])
  {
    hide *;
    FirstUnescaped(s, i);
    Regrouped(done, HtmlAt(s, i), UnescapeHtml(s[NextHtml(s, i)..]));
    TurnDone(s, i, done);
  }

  lemma Regrouped(a: Text, c: Byte, b: Text)
    ensures (a + [c]) + b == a + ([c] + b)
  {
  }

  lemma FirstUnescaped(s: Text, i: nat)
    requires i < |s|
    ensures i < NextHtml(s, i) <= |s| && UnescapeHtml(s[i..]) == [HtmlAt(s, i)] + UnescapeHtml(s[NextHtml(s, i)..])
  {
    hide StartsWith, Entity, Unsafe, EntityIndex;
    var t, n := s[i..], NextHtml(s, i) - i;
    assert t[0] == s[i] && n > 0;
    assert t[n..] == s[i + n..];
  }

  lemma TurnDone(s: Text, i: nat, done: Text)
    requires UnescapedTo(s, i, done) && i < |s| && i < NextHtml(s, i) <= |s|
    requires (done + [HtmlAt(s, i)]) + UnescapeHtml(s[NextHtml(s, i)..]) == done + UnescapeHtml(s[i..])
    ensures UnescapedTo(s, NextHtml(s, i), done + [HtmlAt(s, i)])
  {
    hide UnescapeHtml, HtmlAt, NextHtml;
  }

  /** Unescape_html_str. */
  method UnescapeHtmlStr(str: Text) returns (u: Text)
    ensures u == UnescapeHtml(str)
  {
    if AMP !in str {
      NothingEscaped(str);
      return str;
    }
    hide *;
    u := [];
    var i := 0;
    UnescapedToStart(str);
    while i < |str|
      invariant 0 <= i <= |str| && UnescapedTo(str, i, u)
    {
      UnescapeHtmlTurn(str, i, u);
      var c, next := UnescapeHtmlAt(str, i);
      u := u + [c];
      i := next;
    }
    UnescapedToEnd(str, u);
  }

  lemma {:induction false} NothingEscaped(s: Text)
    requires AMP !in s
    ensures UnescapeHtml(s) == s
    decreases |s|
  {
    if s != [] {
      NothingEscaped(s[1..]);
    }
  }

  // ----- URIs -----

  const PERCENT: Byte := 37

  /** The default set: % # : ' and the space. */
  const DEFAULT_SET: Text := [37, 35, 58, 39, 32]

  // A hex digit, as it is printed.
  function Hex(v: int): Byte
    requires 0 <= v < 16
  {
    if v < 10 then v + 48 else v + 55
  }

  predicate IsHex(c: Byte) {
    48 <= c <= 57 || 65 <= c <= 70 || 97 <= c <= 102
  }

  function HexValue(c: Byte): (v: int)
    requires IsHex(c)
    ensures 0 <= v < 16
  {
    if c <= 57 then c - 48 else if c <= 70 then c - 55 else c - 87
  }

  // Characters are signed: those from 128 on are below 0x1F, too.
  predicate MustEscape(c: Byte, escSet: Text) {
    c >= 128 || c <= 0x1F || c == 0x7F || c in escSet
  }

  function EscapeChar(c: Byte, escSet: Text): Text {
    if MustEscape(c, escSet) then [PERCENT, Hex(c / 16), Hex(c % 16)] else [c]
  }

  function EscapeUri(s: Text, escSet: Text): Text {
    if s == [] then [] else EscapeChar(s[0], escSet) + EscapeUri(s[1..], escSet)
  }

  predicate IsSequence(s: Text) {
    |s| >= 3 && s[0] == PERCENT && IsHex(s[1]) && IsHex(s[2])
  }

  function UnescapeUri(s: Text): Text {
    if s == [] then []
    else if IsSequence(s) then [HexValue(s[1]) * 16 + HexValue(s[2])] + UnescapeUri(s[3..])
    else [s[0]] + UnescapeUri(s[1..])
  }

  lemma HexPrinted(c: Byte)
    ensures var x, y := Hex(c / 16), Hex(c % 16);
            IsHex(x) && IsHex(y) && HexValue(x) * 16 + HexValue(y) == c
  {
  }

  // All hex digits are escaped themselves.
  ghost predicate DigitsEscaped(escSet: Text) {
    forall c: Byte :: IsHex(c) ==> c in escSet
  }

  // Nothing in an escaped text follows a raw % with two raw digits.
  lemma EscapedSequence(s: Text, escSet: Text)
    requires s != [] && (PERCENT in escSet || DigitsEscaped(escSet)) && !MustEscape(s[0], escSet)
    ensures !IsSequence(EscapeUri(s, escSet))
  {
    var all, rest := EscapeUri(s, escSet), EscapeUri(s[1..], escSet);
    assert all == [s[0]] + rest;
    if s[0] == PERCENT && s[1..] != [] {
      assert all[1] == rest[0] == EscapeChar(s[1], escSet)[0];
    }
  }

  lemma {:induction false} UriUnescaped(s: Text, escSet: Text)
    requires PERCENT in escSet || DigitsEscaped(escSet)
    ensures UnescapeUri(EscapeUri(s, escSet)) == s
  {
    if s != [] {
      UriUnescaped(s[1..], escSet);
      var all, rest := EscapeUri(s, escSet), EscapeUri(s[1..], escSet);
      if MustEscape(s[0], escSet) {
        HexPrinted(s[0]);
        assert all[3..] == rest;
      } else {
        EscapedSequence(s, escSet);
        assert all[1..] == rest;
      }
    }
  }

  // With a raw % and a raw digit, that digit twice behind % is taken for a sequence.
  lemma RawPercent(escSet: Text, d: Byte)
    requires PERCENT !in escSet && IsHex(d) && d !in escSet
    ensures UnescapeUri(EscapeUri([PERCENT, d, d], escSet)) != [PERCENT, d, d]
  {
    var s := [PERCENT, d, d];
    assert s[1..] == [d, d] && s[1..][1..] == [d] && s[1..][1..][1..] == [];
    assert EscapeUri([d], escSet) == [d] && EscapeUri([d, d], escSet) == [d, d] && EscapeUri(s, escSet) == s;
    assert s[3..] == [];
  }

  /** Exactly which escape sets lose nothing: unescaping inverts escaping for every string if and
      only if the set contains % (as the default set does) or all hex digits. */
  lemma UriRoundTrip(escSet: Text)
    ensures (forall s: Text :: UnescapeUri(EscapeUri(s, escSet)) == s) <==> PERCENT in escSet || DigitsEscaped(escSet)
  {
    if PERCENT in escSet || DigitsEscaped(escSet) {
      forall s: Text ensures UnescapeUri(EscapeUri(s, escSet)) == s {
        UriUnescaped(s, escSet);
      }
    } else {
      var d: Byte :| IsHex(d) && d !in escSet;
      RawPercent(escSet, d);
    }
  }

  lemma DefaultRoundTrip(s: Text)
    ensures UnescapeUri(EscapeUri(s, DEFAULT_SET)) == s
  {
    UriUnescaped(s, DEFAULT_SET);
  }

  lemma EscapeUriNext(done: Text, s: Text, escSet: Text)
    requires s != []
    ensures done + EscapeUri(s, escSet) == (done + EscapeChar(s[0], escSet)) + EscapeUri(s[1..], escSet)
  {
    hide EscapeChar;
  }

  /** Escape_uri_str. */
  method EscapeUriStr(str: Text, escSet: Text) returns (r: Text)
    ensures r == EscapeUri(str, escSet)
  {
    r := [];
    var i := 0;
    hide EscapeUri, MustEscape, Hex;
    while i < |str|
      invariant i <= |str| && r + EscapeUri(str[i..], escSet) == EscapeUri(str, escSet)
    {
      assert str[i..][1..] == str[i + 1..];
      EscapeUriNext(r, str[i..], escSet);
      ghost var was := r;
      if MustEscape(str[i], escSet) {
        r := r + [PERCENT];
        r := r + [Hex(str[i] / 16)];
        r := r + [Hex(str[i] % 16)];
      } else {
        r := r + [str[i]];
      }
      assert r == was + EscapeChar(str[i], escSet);
      i := i + 1;
    }
    assert str[i..] == [];
    NothingLeft();
  }

  lemma {:induction false} NoPercent(s: Text)
    requires PERCENT !in s
    ensures UnescapeUri(s) == s
  {
    if s != [] {
      NoPercent(s[1..]);
    }
  }

  /** Unescape_uri_str: the copy is overwritten from its start while the original is read. */
  method UnescapeUriStr(s: Text) returns (buf: array<Byte>, ghost len: nat)
    requires 0 !in s
    ensures fresh(buf) && len < buf.Length && buf[..len] == UnescapeUri(s) && buf[len] == 0
  {
    buf := new Byte[|s| + 1](k requires 0 <= k <= |s| => if k < |s| then s[k] else 0);
    if PERCENT !in s {
      NoPercent(s);
      len := |s|;
      return;
    }
    var p, i := 0, 0;
    UnescapedUriToStart(s);
    assert buf[..0] == [];
    hide *;
    while i < |s|
      invariant 0 <= p <= i <= |s| && UnescapedUriTo(s, i, buf[..p])
    {
      ghost var done := buf[..p];
      UnescapeUriTurn(s, i, done);
      var c, next := UnescapeUriAt(s, i);
      buf[p] := c;
      assert buf[..p + 1] == done + [c];
      i := next;
      p := p + 1;
    }
    UnescapedUriToEnd(s, buf[..p]);
    buf[p] := 0;
    len := p;
  }

  // The character that stands at position i, and the position behind its sequence.
  function UriAt(s: Text, i: nat): Byte
    requires i < |s|
  {
    if IsSequence(s[i..]) then HexValue(s[i + 1]) * 16 + HexValue(s[i + 2]) else s[i]
  }

  function NextUri(s: Text, i: nat): int
    requires i < |s|
  {
    if IsSequence(s[i..]) then i + 3 else i + 1
  }

  // The turn of the loop.
  method UnescapeUriAt(s: Text, i: nat) returns (c: Byte, next: int)
    requires i < |s|
    ensures c == UriAt(s, i) && next == NextUri(s, i)
  {
    c, next := s[i], i;
    if c == PERCENT && i + 2 < |s| && IsHex(s[i + 1]) && IsHex(s[i + 2]) {
      assert IsSequence(s[i..]);
      c := HexValue(s[i + 1]) * 16 + HexValue(s[i + 2]);
      next := next + 2;
    }
    next := next + 1;
  }

  // `done` is the result for the part of s before i.
  ghost predicate UnescapedUriTo(s: Text, i: nat, done: Text) {
    i <= |s| && done + UnescapeUri(s[i..]) == UnescapeUri(s)
  }

  lemma UnescapedUriToStart(s: Text)
    ensures UnescapedUriTo(s, 0, [])
  {
    assert s[0..] == s;
  }

  lemma UnescapedUriToEnd(s: Text, done: Text)
    requires UnescapedUriTo(s, |s|, done)
    ensures done == UnescapeUri(s)
  {
    assert s[|s|..] == [];
  }

  lemma UnescapeUriTurn(s: Text, i: nat, done: Text)
    requires i < |s| && UnescapedUriTo(s, i, done)
    ensures i < NextUri(s, i) <= |s| && UnescapedUriTo(s, NextUri(s, i), done + [UriAt(s, i)])
  {
    hide *;
    FirstUri(s, i);
    Regrouped(done, UriAt(s, i), UnescapeUri(s[NextUri(s, i)..]));
    UriTurnDone(s, i, done);
  }

  lemma FirstUri(s: Text, i: nat)
    requires i < |s|
    ensures i < NextUri(s, i) <= |s| && UnescapeUri(s[i..]) == [UriAt(s, i)] + UnescapeUri(s[NextUri(s, i)..])
  {
    hide HexValue, IsHex;
    var t, n := s[i..], NextUri(s, i) - i;
    assert t[0] == s[i] && n > 0 && (IsSequence(t) ==> t[1] == s[i + 1] && t[2] == s[i + 2]);
    assert t[n..] == s[i + n..];
  }

  lemma UriTurnDone(s: Text, i: nat, done: Text)
    requires UnescapedUriTo(s, i, done) && i < |s| && i < NextUri(s, i) <= |s|
    requires (done + [UriAt(s, i)]) + UnescapeUri(s[NextUri(s, i)..]) == done + UnescapeUri(s[i..])
    ensures UnescapedUriTo(s, NextUri(s, i), done + [UriAt(s, i)])
  {
    hide UnescapeUri, UriAt, NextUri;
  }
}
