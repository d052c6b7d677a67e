/** Decoding base64 in place (data URIs), against the encoding of section 4 of RFC 4648. */
module Base64 {
  import opened Common

  // ----- The alphabet -----

  /** The decoding table: the value of a character, or -1. */
  function Value(c: Byte): int {
    if 65 <= c <= 90 then c - 65
    else if 97 <= c <= 122 then c - 71
    else if 48 <= c <= 57 then c + 4
    else if c == 43 then 62
    else if c == 47 then 63
    else -1
  }

  const PAD: Byte := 61

  // What the stripping keeps: letters, digits, and "+/=".
  predicate Legal(c: Byte) {
    Value(c) >= 0 || c == PAD
  }

  // The character for a value, as table 1 of the RFC gives it.
  function Symbol(v: int): Byte
    requires 0 <= v < 64
  {
    if v < 26 then v + 65
    else if v < 52 then v + 71
    else if v < 62 then v - 4
    else if v == 62 then 43
    else 47
  }

  /** The alphabet of table 1, and what may stand in the text: its symbols and the pad. */
  lemma AlphabetLaw(c: Byte, v: int)
    ensures 0 <= v < 26 ==> Symbol(v) == 'A' as int + v
    ensures 26 <= v < 52 ==> Symbol(v) == 'a' as int + (v - 26)
    ensures 52 <= v < 62 ==> Symbol(v) == '0' as int + (v - 52)
    ensures v == 62 ==> Symbol(v) == '+' as int
    ensures v == 63 ==> Symbol(v) == '/' as int
    ensures 0 <= v < 64 ==> (Value(c) == v <==> c == Symbol(v))
    ensures Legal(c) <==>
              || 'A' as int <= c <= 'Z' as int || 'a' as int <= c <= 'z' as int || '0' as int <= c <= '9' as int
              || c == '+' as int || c == '/' as int || c == '=' as int
  {
  }

  // ----- Encoding -----

  /** Three bytes make four symbols; one or two left over are padded. */
  function Encode(data: seq<Byte>): seq<Byte> {
    if data == [] then []
    else
      var a := data[0];
      if |data| == 1 then [Symbol(a / 4), Symbol(a % 4 * 16), PAD, PAD]
      else
        var b := data[1];
        if |data| == 2 then [Symbol(a / 4), Symbol(a % 4 * 16 + b / 16), Symbol(b % 16 * 4), PAD]
        else
          var c := data[2];
          [Symbol(a / 4), Symbol(a % 4 * 16 + b / 16), Symbol(b % 16 * 4 + c / 64), Symbol(c % 64)] + Encode(data[3..])
  }

  // ----- Decoding -----

  /** The decoder: how many symbols of the group it has seen, and the last one's value. */
  datatype Decoder = Decoder(phase: nat, dlast: int) {
    predicate Valid() {
      phase < 4 && 0 <= dlast < 64
    }
  }

  // The byte that the symbol of the given phase completes.
  function Completed(phase: nat, dlast: int, d: int): Byte
    requires 0 <= dlast < 64 && 0 <= d < 64
  {
    if phase == 1 then dlast * 4 + d / 16
    else if phase == 2 then dlast % 16 * 16 + d / 4
    else dlast % 4 * 64 + d
  }

  // What one character adds to the output, and the state after it.
  function Emit(s: Decoder, c: Byte): seq<Byte>
    requires s.Valid()
  {
    var d := Value(c);
    if d == -1 || s.phase == 0 then [] else [Completed(s.phase, s.dlast, d)]
  }

  function Next(s: Decoder, c: Byte): (r: Decoder)
    requires s.Valid()
    ensures r.Valid()
  {
    if Value(c) == -1 then s else Decoder(if s.phase == 3 then 0 else s.phase + 1, Value(c))
  }

  function Decode(s: Decoder, text: seq<Byte>): seq<Byte>
    requires s.Valid()
    decreases |text|
  {
    if text == [] then [] else Emit(s, text[0]) + Decode(Next(s, text[0]), text[1..])
  }

  // The characters that are kept.
  function Strip(text: seq<Byte>): seq<Byte> {
    if text == [] then [] else (if Legal(text[0]) then [text[0]] else []) + Strip(text[1..])
  }

  /** Test vectors of section 10 of RFC 4648: f, fo and foo are Zg==, Zm8= and Zm9v; bar behind foo is YmFy. */
  lemma Vectors(rest: seq<Byte>)
    ensures Encode([102]) == [90, 103, 61, 61] && Encode([102, 111]) == [90, 109, 56, 61]
    ensures Encode([102, 111, 111] + rest) == [90, 109, 57, 118] + Encode(rest)
    ensures Encode([98, 97, 114] + rest) == [89, 109, 70, 121] + Encode(rest)
  {
    assert ([102, 111, 111] + rest)[3..] == rest && ([98, 97, 114] + rest)[3..] == rest;
  }

  // Characters without a value are passed over, so stripping loses nothing.
  lemma {:induction false} StripIsHarmless(s: Decoder, text: seq<Byte>)
    requires s.Valid()
    ensures Decode(s, Strip(text)) == Decode(s, text)
    decreases |text|
  {
    if text != [] {
      StripIsHarmless(s, text[1..]);
      StripIsHarmless(Next(s, text[0]), text[1..]);
      if Legal(text[0]) {
        assert Strip(text)[0] == text[0] && Strip(text)[1..] == Strip(text[1..]);
      } else {
        assert Strip(text) == Strip(text[1..]);
      }
    }
  }

  lemma DecodeStep(s: Decoder, text: seq<Byte>, v: int)
    requires s.Valid() && text != [] && 0 <= v < 64 && text[0] == Symbol(v)
    ensures Decode(s, text)
         == (if s.phase == 0 then [] else [Completed(s.phase, s.dlast, v)])
            + Decode(Decoder(if s.phase == 3 then 0 else s.phase + 1, v), text[1..])
  {
    assert Value(text[0]) == v;
  }

  // Four symbols give back three bytes.
  lemma FourSymbols(s: Decoder, text: seq<Byte>, v0: int, v1: int, v2: int, v3: int)
    requires s.Valid() && s.phase == 0 && |text| >= 4
    requires 0 <= v0 < 64 && 0 <= v1 < 64 && 0 <= v2 < 64 && 0 <= v3 < 64
    requires text[0] == Symbol(v0) && text[1] == Symbol(v1) && text[2] == Symbol(v2) && text[3] == Symbol(v3)
    ensures Decode(s, text) == [Completed(1, v0, v1)] + ([Completed(2, v1, v2)] + ([Completed(3, v2, v3)]
                             + Decode(Decoder(0, v3), text[4..])))
  {
    hide Decode, Symbol, Completed;
    var t1, t2, t3 := text[1..], text[2..], text[3..];
    assert t1[1..] == t2 && t2[1..] == t3 && t3[1..] == text[4..];
    DecodeStep(s, text, v0);
    DecodeStep(Decoder(1, v0), t1, v1);
    DecodeStep(Decoder(2, v1), t2, v2);
    DecodeStep(Decoder(3, v2), t3, v3);
  }

  // The bits of three bytes, cut into four values and joined again.
  lemma GroupBits(a: Byte, b: Byte, c: Byte)
    ensures var x, y, z := a, b, c;
            var v0, v1, v2, v3 := x / 4, x % 4 * 16 + y / 16, y % 16 * 4 + z / 64, z % 64;
            && 0 <= v0 < 64 && 0 <= v1 < 64 && 0 <= v2 < 64 && 0 <= v3 < 64
            && Completed(1, v0, v1) == a && Completed(2, v1, v2) == b && Completed(3, v2, v3) == c
  {
  }

  /** Decoding inverts encoding, for every byte string. */
  lemma {:induction false} DecodeEncode(s: Decoder, data: seq<Byte>)
    requires s.Valid() && s.phase == 0
    ensures Decode(s, Encode(data)) == data
    decreases |data|
  {
    if data != [] {
      var x := data[0];
      var y := if |data| > 1 then data[1] else 0;
      var z := if |data| > 2 then data[2] else 0;
      var a, b, c := x, y, z;
      GroupBits(x, y, z);
      if |data| == 1 {
        TwoSymbols(s, Encode(data), a / 4, a % 4 * 16);
      } else if |data| == 2 {
        ThreeSymbols(s, Encode(data), a / 4, a % 4 * 16 + b / 16, b % 16 * 4);
      } else {
        DecodeEncode(Decoder(0, c % 64), data[3..]);
        EncodeGroup(data);
        hide Encode, Decode, Completed;
        FourSymbols(s, Encode(data), a / 4, a % 4 * 16 + b / 16, b % 16 * 4 + c / 64, c % 64);
        assert [x] + ([y] + ([z] + data[3..])) == data;
      }
    }
  }

  lemma EncodeGroup(data: seq<Byte>)
    requires |data| >= 3
    ensures var a, b, c := data[0], data[1], data[2];
            var text := Encode(data);
            && |text| >= 4 && text[0] == Symbol(a / 4) && text[1] == Symbol(a % 4 * 16 + b / 16)
            && text[2] == Symbol(b % 16 * 4 + c / 64) && text[3] == Symbol(c % 64) && text[4..] == Encode(data[3..])
  {
  }

  lemma TwoSymbols(s: Decoder, text: seq<Byte>, v0: int, v1: int)
    requires s.Valid() && s.phase == 0 && 0 <= v0 < 64 && 0 <= v1 < 64
    requires text == [Symbol(v0), Symbol(v1), PAD, PAD]
    ensures Decode(s, text) == [Completed(1, v0, v1)]
  {
    assert text[1..] == [Symbol(v1), PAD, PAD] && text[1..][1..] == [PAD, PAD];
    DecodeStep(s, text, v0);
    DecodeStep(Decoder(1, v0), text[1..], v1);
    assert [PAD, PAD][1..] == [PAD] && [PAD][1..] == [];
    assert Decode(Decoder(2, v1), [PAD]) == [] && Decode(Decoder(2, v1), [PAD, PAD]) == [];
  }

  lemma ThreeSymbols(s: Decoder, text: seq<Byte>, v0: int, v1: int, v2: int)
    requires s.Valid() && s.phase == 0 && 0 <= v0 < 64 && 0 <= v1 < 64 && 0 <= v2 < 64
    requires text == [Symbol(v0), Symbol(v1), Symbol(v2), PAD]
    ensures Decode(s, text) == [Completed(1, v0, v1), Completed(2, v1, v2)]
  {
    var t1, t2 := [Symbol(v1), Symbol(v2), PAD], [Symbol(v2), PAD];
    assert text[1..] == t1 && t1[1..] == t2 && t2[1..] == [PAD] && [PAD][1..] == [];
    DecodeStep(s, text, v0);
    DecodeStep(Decoder(1, v0), t1, v1);
    DecodeStep(Decoder(2, v1), t2, v2);
    assert Decode(Decoder(3, v2), [PAD]) == [];
  }

  // ----- The code -----

  // The part of a buffer before its terminator.
  ghost predicate IsString(a: array<Byte>, len: nat)
    reads a
  {
    len < a.Length && a[len] == 0 && forall k :: 0 <= k < len ==> a[k] != 0
  }

  /** b64strip_illegal_chars: the kept characters move up, the writer never overtakes the reader. */
  method StripIllegalChars(str: array<Byte>, ghost len: nat) returns (ghost n: nat)
    requires IsString(str, len)
    modifies str
    ensures n <= len && IsString(str, n) && str[..n] == Strip(old(str[..len]))
    ensures forall k :: len < k < str.Length ==> str[k] == old(str[k])
  {
    ghost var text := str[..len];
    var p, s := 0, 0;
    str[p] := str[s];
    ghost var rest := text;
    while str[p] != 0
      invariant 0 <= p <= s <= len && rest == text[s..] && str[p] == if s < len then text[s] else 0
      invariant forall k :: s < k < str.Length ==> str[k] == old(str[k])
      invariant forall k :: 0 <= k < p ==> str[k] != 0
      invariant str[..p] + Strip(rest) == Strip(text)
      decreases len - s
    {
      ghost var done := str[..p];
      if Legal(str[p]) {
        p := p + 1;
        assert str[..p] == done + [rest[0]];
        assert done + ([rest[0]] + Strip(rest[1..])) == (done + [rest[0]]) + Strip(rest[1..]);
      } else {
        assert Strip(rest) == Strip(rest[1..]);
      }
      s := s + 1;
      rest := rest[1..];
      ghost var before := str[..p];
      str[p] := str[s];
      assert str[..p] == before;
    }
    n := p;
  }

  /** b64decode: the bytes replace the text in the same buffer, the writer again never overtaking
      the reader. */
  method B64Decode(str: array<Byte>, ghost len: nat) returns (n: nat)
    requires IsString(str, len)
    modifies str
    ensures n <= len && str[..n] == Decode(Decoder(0, 0), old(str[..len])) && str[n] == 0
  {
    ghost var text := str[..len];
    hide Decode, Value, Completed;
    var w, cur, dlast, phase := 0, 0, 0, 0;
    ghost var rest := text;
    assert str[..0] == [];
    while str[cur] != 0
      invariant 0 <= w <= cur <= len && Decoder(phase, dlast).Valid() && rest == text[cur..]
      invariant forall k :: cur <= k < str.Length ==> str[k] == old(str[k])
      invariant str[..w] + Decode(Decoder(phase, dlast), rest) == Decode(Decoder(0, 0), text)
      decreases len - cur
    {
      ghost var s, done := Decoder(phase, dlast), str[..w];
      var d := Value(str[cur]);
      ValueRange(str[cur]);
      DecodeNext(done, s, rest);
      if d != -1 {
        match phase {
          case 0 =>
            phase := phase + 1;
          case 1 =>
            str[w] := Completed(1, dlast, d);
            w := w + 1;
            phase := phase + 1;
          case 2 =>
            str[w] := Completed(2, dlast, d);
            w := w + 1;
            phase := phase + 1;
          case _ =>
            str[w] := Completed(3, dlast, d);
            w := w + 1;
            phase := 0;
        }
        dlast := d;
      }
      assert str[..w] == done + Emit(s, rest[0]);
      rest := rest[1..];
      cur := cur + 1;
    }
    DecodeNothing(Decoder(phase, dlast));
    str[w] := 0;
    n := w;
  }

  lemma ValueRange(c: Byte)
    ensures -1 <= Value(c) < 64
  {
  }

  lemma DecodeNothing(s: Decoder)
    requires s.Valid()
    ensures Decode(s, []) == []
  {
  }

  // One turn of the decoding loop, `done` being the bytes written so far.
  lemma DecodeNext(done: seq<Byte>, s: Decoder, rest: seq<Byte>)
    requires s.Valid() && rest != []
    ensures done + Decode(s, rest) == (done + Emit(s, rest[0])) + Decode(Next(s, rest[0]), rest[1..])
  {
  }

  /** Any text that strips to the encoding of the data, whatever illegal characters stand in it,
      is decoded to the data. */
  method DecodeUri(str: array<Byte>, ghost len: nat, ghost data: seq<Byte>) returns (n: nat)
    requires IsString(str, len) && Strip(str[..len]) == Encode(data)
    modifies str
    ensures n == |data| < str.Length && str[..n] == data
  {
    ghost var m := StripIllegalChars(str, len);
    n := B64Decode(str, m);
    DecodeEncode(Decoder(0, 0), data);
  }

  // Between the symbols of `a`, other characters that are not kept.
  ghost predicate Interspersed(text: seq<Byte>, a: seq<Byte>) {
    if text == [] then a == []
    else if Legal(text[0]) then a != [] && text[0] == a[0] && Interspersed(text[1..], a[1..])
    else Interspersed(text[1..], a)
  }

  /** Stripping removes exactly what was interspersed. */
  lemma {:induction false} StripInterspersed(text: seq<Byte>, a: seq<Byte>)
    ensures Interspersed(text, a) <==> Strip(text) == a
    decreases |text|
  {
    if text != [] {
      if Legal(text[0]) {
        if a != [] {
          StripInterspersed(text[1..], a[1..]);
          assert Strip(text)[1..] == Strip(text[1..]);
          assert a == [a[0]] + a[1..];
        }
      } else {
        StripInterspersed(text[1..], a);
      }
    }
  }
}
