/** What escaping and unescaping do to each character, in literal bytes. */
module EscapeLaws {
  import opened Common
  import opened Escape

  // What is written for a character of HTML text.
  function HtmlText(c: Byte): Text {
    if c == 38 then [38, 97, 109, 112, 59]            // &amp;
    else if c == 60 then [38, 108, 116, 59]           // &lt;
    else if c == 62 then [38, 103, 116, 59]           // &gt;
    else if c == 34 then [38, 113, 117, 111, 116, 59] // &quot;
    else if c == 39 then [38, 35, 51, 57, 59]         // &#39;
    else [c]
  }

  /** HTML escaping writes the five entities and every other character as it is. */
  lemma HtmlCharacters(c: Byte, s: Text)
    ensures EscapeHtml([]) == []
    ensures EscapeHtml([c] + s) == HtmlText(c) + EscapeHtml(s)
  {
    assert ([c] + s)[1..] == s;
  }

  // The same text, but for the case of its letters.
  ghost predicate SameLetters(s: Text, e: Text) {
    |s| == |e| && forall i :: 0 <= i < |e| ==> s[i] == e[i] || (97 <= e[i] <= 122 && s[i] == e[i] - 32)
  }

  /** An entity in letters of any case is read as its character. */
  lemma EntityRead(c: Byte, s: Text, rest: Text)
    requires c == 38 || c == 60 || c == 62 || c == 34 || c == 39
    requires SameLetters(s, HtmlText(c))
    ensures UnescapeHtml(s + rest) == [c] + UnescapeHtml(rest)
  {
    var t := s + rest;
    var k := UnsafeIndex(c);
    assert Entity(k) == HtmlText(c) && Unsafe(k) == c;
    assert t[|s|..] == rest;
    EntityIs(k, s, rest);
    hide Entity, EntityIndex, StartsWith, SameLetters;
  }

  lemma EntityIs(k: nat, s: Text, rest: Text)
    requires k < 5 && SameLetters(s, Entity(k))
    ensures (s + rest)[0] == AMP && EntityIndex(s + rest) == k
  {
    var t := s + rest;
    assert Lower(t[1]) == Lower(Entity(k)[1]) && Lower(t[2]) == Lower(Entity(k)[2]);
    forall j: nat | j < k ensures !StartsWith(t, Entity(j)) {
      assert Lower(t[1]) != Lower(Entity(j)[1]) || Lower(t[2]) != Lower(Entity(j)[2]);
    }
  }

  lemma Kept(c: Byte, rest: Text)
    requires c != AMP || EntityIndex([c] + rest) == 5
    ensures UnescapeHtml([c] + rest) == [c] + UnescapeHtml(rest)
  {
    hide EntityIndex, Entity, Unsafe;
    assert ([c] + rest)[1..] == rest;
  }

  // t begins with the entity of e.
  ghost predicate Begins(t: Text, e: Byte) {
    |HtmlText(e)| <= |t| && SameLetters(t[..|HtmlText(e)|], HtmlText(e))
  }

  /** What does not begin with an entity is read as it stands. */
  lemma CharacterRead(c: Byte, rest: Text)
    requires var t := [c] + rest;
             !Begins(t, 38) && !Begins(t, 60) && !Begins(t, 62) && !Begins(t, 34) && !Begins(t, 39)
    ensures UnescapeHtml([c] + rest) == [c] + UnescapeHtml(rest)
  {
    var t := [c] + rest;
    if EntityIndex(t) < 5 {
      EntityBegins(t, EntityIndex(t));
      assert false;
    }
    hide *;
    Kept(c, rest);
  }

  lemma EntityBegins(t: Text, k: nat)
    requires k < 5 && StartsWith(t, Entity(k))
    ensures Begins(t, Unsafe(k))
    ensures Unsafe(k) == 38 || Unsafe(k) == 60 || Unsafe(k) == 62 || Unsafe(k) == 34 || Unsafe(k) == 39
  {
    StartsSame(t, k);
    assert HtmlText(Unsafe(k)) == Entity(k);
    hide SameLetters, StartsWith;
  }

  lemma StartsSame(t: Text, k: nat)
    requires k < 5 && StartsWith(t, Entity(k))
    ensures SameLetters(t[..|Entity(k)|], Entity(k))
  {
    var e := Entity(k);
    forall i | 0 <= i < |e| ensures t[i] == e[i] || (97 <= e[i] <= 122 && t[i] == e[i] - 32) {
      assert Lower(t[i]) == Lower(e[i]) && Lower(e[i]) == e[i];
    }
  }

  // 0123456789ABCDEF
  const HEX_DIGITS: Text := [48, 49, 50, 51, 52, 53, 54, 55, 56, 57, 65, 66, 67, 68, 69, 70]

  /** URI escaping: controls, delete, every byte from 128 on and the set become % and two hex digits. */
  lemma UriCharacters(c: Byte, s: Text, escSet: Text)
    ensures EscapeUri([], escSet) == []
    ensures EscapeUri([c] + s, escSet)
         == (if c < 32 || c >= 127 || c in escSet then [37, HEX_DIGITS[c / 16], HEX_DIGITS[c % 16]] else [c])
            + EscapeUri(s, escSet)
  {
    assert ([c] + s)[1..] == s;
    HexIs(c / 16);
    HexIs(c % 16);
    hide Hex, HEX_DIGITS;
  }

  lemma HexIs(v: int)
    requires 0 <= v < 16
    ensures |HEX_DIGITS| == 16 && Hex(v) == HEX_DIGITS[v]
  {
  }

  // The value of a hex digit in either case.
  function Digit(c: Byte): int {
    if 48 <= c <= 57 then c - 48 else if 65 <= c <= 70 then c - 55 else if 97 <= c <= 102 then c - 87 else -1
  }

  predicate Coded(c: Byte, s: Text) {
    c == 37 && |s| >= 2 && Digit(s[0]) >= 0 && Digit(s[1]) >= 0
  }

  lemma SequenceIs(c: Byte, s: Text)
    ensures IsSequence([c] + s) <==> Coded(c, s)
    ensures Coded(c, s) ==> HexValue(s[0]) == Digit(s[0]) && HexValue(s[1]) == Digit(s[1])
  {
  }

  /** URI unescaping: % and two hex digits are the byte of that value, all else stands for itself. */
  lemma UriRead(c: Byte, s: Text)
    ensures UnescapeUri([]) == []
    ensures Coded(c, s) ==>
              UnescapeUri([c] + s) == [Digit(s[0]) * 16 + Digit(s[1])] + UnescapeUri(s[2..])
    ensures !Coded(c, s) ==> UnescapeUri([c] + s) == [c] + UnescapeUri(s)
  {
    var t := [c] + s;
    SequenceIs(c, s);
    assert t[1..] == s && t[0] == c;
    if Coded(c, s) {
      assert t[1] == s[0] && t[2] == s[1] && t[3..] == s[2..];
    }
    hide Coded, IsSequence, Digit, HexValue;
  }
}
