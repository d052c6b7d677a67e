/** What is printed is read back: a_Dpip_get_attr_l on a built tag. */
module DpipRoundTrip {
  import opened Common
  import opened Dpip
  import opened DpipAttr

  function LookupAttr(l: seq<Attribute>, attr: string): Option<string> {
    if l == [] then None else if l[0].name == attr then Some(l[0].value) else LookupAttr(l[1..], attr)
  }

  // The scan of a whole tag.
  function ScanAll(tag: string, attr: string, i: nat, s: Parsing): Option<nat>
    requires 1 <= i && attr != ""
  {
    Scan(tag, |tag|, attr, i, Scanner(s, 0))
  }

  // The match counter matters only while matching.
  lemma {:induction false} CounterIgnored(tag: string, attr: string, i: nat, s: Scanner)
    requires 1 <= i && attr != "" && s.n <= |attr| && s.state != MatchName
    ensures Scan(tag, |tag|, attr, i, s) == ScanAll(tag, attr, i, s.state)
    decreases |tag| - i
  {
    if i < |tag| && s.state != Found {
      var a, b := Advance(tag, attr, i, s), Advance(tag, attr, i, Scanner(s.state, 0));
      if a.state != MatchName {
        CounterIgnored(tag, attr, i + 1, a);
        CounterIgnored(tag, attr, i + 1, b);
      }
    }
  }

  /** One step of the scan. */
  lemma Step(tag: string, attr: string, i: nat, s: Parsing, s': Parsing)
    requires 1 <= i < |tag| && attr != "" && s != MatchName && s != Found
    requires Advance(tag, attr, i, Scanner(s, 0)).state == s' != MatchName
    ensures ScanAll(tag, attr, i, s) == ScanAll(tag, attr, i + 1, s')
  {
    CounterIgnored(tag, attr, i + 1, Advance(tag, attr, i, Scanner(s, 0)));
  }

  // Part of an occurrence.
  lemma OccursPart(s: string, a: string, b: string, i: nat)
    requires OccursAt(s, a + b, i)
    ensures OccursAt(s, a, i) && OccursAt(s, b, i + |a|) && i + |a| + |b| <= |s|
    ensures forall k :: 0 <= k < |a| ==> s[i + k] == a[k]
  {
    assert (a + b)[..|a|] == a && (a + b)[|a|..] == b;
    assert s[i..i + |a + b|][..|a|] == s[i..i + |a|];
    assert s[i..i + |a + b|][|a|..] == s[i + |a|..i + |a| + |b|];
    forall k | 0 <= k < |a| ensures s[i + k] == a[k] {
      assert s[i..i + |a|][k] == s[i + k];
    }
  }

  lemma OccursWhole(s: string, a: string, i: nat)
    requires OccursAt(s, a, i)
    ensures i + |a| <= |s| && forall k :: 0 <= k < |a| ==> s[i + k] == a[k]
  {
    assert a + "" == a;
    OccursPart(s, a, "", i);
  }

  // ----- Values -----

  // The first character of a stuffed value, doubled if it is a quote.
  function Lead(c: char): string {
    if c == QUOTE then [QUOTE, QUOTE] else [c]
  }

  lemma StuffLead(v: string)
    requires v != ""
    ensures Stuff(v) + "' " == Lead(v[0]) + (Stuff(v[1..]) + "' ") && |Stuff(v)| == |Lead(v[0])| + |Stuff(v[1..])|
  {
  }

  lemma EmptyValue()
    ensures Stuff("") == "" && "" + "' " == "' "
  {
  }

  // The scanner on the closing quote, and on one character of a value.
  lemma SkipClosing(tag: string, attr: string, p: nat)
    requires p >= 1 && attr != "" && OccursAt(tag, "' ", p)
    ensures ScanAll(tag, attr, p, SkipValue) == ScanAll(tag, attr, p + 1, SeekName)
  {
    OccursWhole(tag, "' ", p);
    Step(tag, attr, p, SkipValue, SeekName);
  }

  lemma SkipLead(tag: string, attr: string, p: nat, c: char, later: string)
    requires p >= 1 && attr != "" && OccursAt(tag, Lead(c) + later, p)
    ensures OccursAt(tag, later, p + |Lead(c)|)
    ensures ScanAll(tag, attr, p, SkipValue) == ScanAll(tag, attr, p + |Lead(c)|, SkipValue)
  {
    OccursPart(tag, Lead(c), later, p);
    hide OccursAt, ScanAll;
    if c == QUOTE {
      Step(tag, attr, p, SkipValue, SkipQuote);
      Step(tag, attr, p + 1, SkipQuote, SkipValue);
    } else {
      Step(tag, attr, p, SkipValue, SkipValue);
    }
  }

  /** A value is skipped up to and including its closing quote, whatever it contains. */
  lemma {:induction false} SkipStuffed(tag: string, attr: string, p: nat, v: string)
    requires p >= 1 && attr != "" && OccursAt(tag, Stuff(v) + "' ", p)
    ensures ScanAll(tag, attr, p, SkipValue) == ScanAll(tag, attr, p + |Stuff(v)| + 1, SeekName)
    decreases v
  {
    hide *;
    if v == "" {
      EmptyValue();
      SkipClosing(tag, attr, p);
    } else {
      StuffLead(v);
      SkipLead(tag, attr, p, v[0], Stuff(v[1..]) + "' ");
      SkipStuffed(tag, attr, p + |Lead(v[0])|, v[1..]);
    }
  }

  lemma ClosingHere(tag: string, p: nat)
    requires OccursAt(tag, "' ", p)
    ensures ClosingQuote(tag, p) == Some(p)
  {
    OccursWhole(tag, "' ", p);
  }

  lemma ClosingLater(tag: string, p: nat, c: char, later: string)
    requires OccursAt(tag, Lead(c) + later, p) && c != '\0'
    ensures OccursAt(tag, later, p + |Lead(c)|) && ClosingQuote(tag, p) == ClosingQuote(tag, p + |Lead(c)|)
  {
    OccursPart(tag, Lead(c), later, p);
    hide OccursAt;
    if c != QUOTE {
      assert NextQuote(tag, p) == NextQuote(tag, p + 1);
    }
  }

  /** The closing quote of a stuffed value is found, and the value comes back unstuffed. */
  lemma {:induction false} ClosingAfter(tag: string, p: nat, v: string)
    requires OccursAt(tag, Stuff(v) + "' ", p) && '\0' !in v
    ensures ClosingQuote(tag, p) == Some(p + |Stuff(v)|)
    decreases v
  {
    hide *;
    if v == "" {
      EmptyValue();
      ClosingHere(tag, p);
    } else {
      StuffLead(v);
      ClosingLater(tag, p, v[0], Stuff(v[1..]) + "' ");
      ClosingAfter(tag, p + |Lead(v[0])|, v[1..]);
    }
  }

  lemma ValueReadBack(tag: string, p: nat, v: string)
    requires OccursAt(tag, Stuff(v) + "' ", p) && '\0' !in v
    ensures ValueAt(tag, p) == Some(v)
  {
    ClosingAfter(tag, p, v);
    UnstuffStuff(v);
    StuffedText(tag, p, Stuff(v));
    hide ClosingQuote, Stuff, Unstuff, OccursAt;
  }

  lemma StuffedText(tag: string, p: nat, t: string)
    requires OccursAt(tag, t + "' ", p)
    ensures p + |t| + 2 <= |tag| && tag[p..p + |t|] == t && tag[p + |t| + 1] == ' '
  {
    OccursPart(tag, t, "' ", p);
    OccursWhole(tag, "' ", p + |t|);
  }

  // ----- Names -----

  // The rest of a name that does not match is passed over, and its value is entered.
  lemma {:induction false} SeekThrough(tag: string, attr: string, p: nat, rest: string)
    requires p >= 1 && PlainName(attr) && OccursAt(tag, rest + "='", p) && p <= |tag|
    requires QUOTE !in rest && '<' !in rest && ' ' !in rest && '=' !in rest
    requires tag[p - 1] != ' ' && tag[p - 1] != '<' && tag[p - 1] != '='
    ensures ScanAll(tag, attr, p, SeekName) == ScanAll(tag, attr, p + |rest| + 2, SkipValue)
    decreases rest
  {
    hide ScanAll;
    if rest == "" {
      assert rest + "='" == "='";
      OccursWhole(tag, "='", p);
      Step(tag, attr, p, SeekName, SeekName);
      Step(tag, attr, p + 1, SeekName, SkipValue);
    } else {
      assert rest + "='" == [rest[0]] + (rest[1..] + "='");
      hide OccursAt;
      OccursPart(tag, [rest[0]], rest[1..] + "='", p);
      Step(tag, attr, p, SeekName, SeekName);
      SeekThrough(tag, attr, p + 1, rest[1..]);
    }
  }

  lemma RestOfName(tag: string, p: nat, name: string, k: nat)
    requires OccursAt(tag, name + "='", p) && k <= |name|
    ensures OccursAt(tag, name[k..] + "='", p + k)
  {
    assert name + "='" == name[..k] + (name[k..] + "='");
    OccursPart(tag, name[..k], name[k..] + "='", p);
  }

  // After a mismatch at character k of a name, the scanner seeks on in the rest of it.
  lemma Mismatch(tag: string, attr: string, i: nat, k: nat)
    requires 1 <= i < |tag| && attr != "" && k <= |attr|
    requires !(k < |attr| && tag[i] == attr[k]) && !(tag[i] == '=' && k == |attr|)
    ensures Scan(tag, |tag|, attr, i, Scanner(MatchName, k)) == ScanAll(tag, attr, i + 1, SeekName)
  {
    CounterIgnored(tag, attr, i + 1, Scanner(SeekName, k));
  }

  /** Matching a name: it is found exactly when it is the wanted one; otherwise its value is
      entered. */
  lemma {:induction false} MatchThrough(tag: string, attr: string, p: nat, name: string, k: nat)
    requires p >= 1 && PlainName(attr) && PlainName(name) && '<' !in name && OccursAt(tag, name + "='", p)
    requires 1 <= k <= |name| && k <= |attr| && name[..k] == attr[..k]
    ensures Scan(tag, |tag|, attr, p + k, Scanner(MatchName, k))
         == if name == attr then Some(p + |name| + 2) else ScanAll(tag, attr, p + |name| + 2, SkipValue)
    decreases |name| - k
  {
    NameChars(tag, p, name, k);
    if k == |name| == |attr| {
      assert attr[..k] == attr && name[..k] == name;
      assert Advance(tag, attr, p + k, Scanner(MatchName, k)) == Scanner(Found, k);
    } else if k == |name| {
      assert name != attr;
      hide OccursAt;
      Mismatch(tag, attr, p + k, k);
      Step(tag, attr, p + k + 1, SeekName, SkipValue);
    } else if k < |attr| && name[k] == attr[k] {
      assert name[..k + 1] == name[..k] + [name[k]] && attr[..k + 1] == attr[..k] + [attr[k]];
      hide OccursAt;
      MatchThrough(tag, attr, p, name, k + 1);
    } else {
      assert name != attr;
      hide OccursAt;
      Mismatch(tag, attr, p + k, k);
      RestOfName(tag, p, name, k + 1);
      SeekThrough(tag, attr, p + k + 1, name[k + 1..]);
    }
  }

  // The characters of a name at position p, and of the "='" after it.
  lemma NameChars(tag: string, p: nat, name: string, k: nat)
    requires OccursAt(tag, name + "='", p) && k <= |name|
    ensures p + |name| + 2 <= |tag| && tag[p + |name|] == '=' && tag[p + |name| + 1] == QUOTE
    ensures k < |name| ==> tag[p + k] == name[k]
  {
    OccursWhole(tag, name + "='", p);
  }

  lemma ScanSimpleName(tag: string, attr: string, p: nat, name: string)
    requires 1 <= p <= |tag| && PlainName(attr) && PlainName(name) && '<' !in name && OccursAt(tag, name + "='", p)
    requires Boundary(tag, p)
    ensures ScanAll(tag, attr, p, SeekName)
         == if name == attr then Some(p + |name| + 2) else ScanAll(tag, attr, p + |name| + 2, SkipValue)
  {
    assert name + "='" == [name[0]] + (name[1..] + "='");
    OccursPart(tag, [name[0]], name[1..] + "='", p);
    if name[0] == attr[0] {
      assert name[..1] == attr[..1];
      MatchThrough(tag, attr, p, name, 1);
    } else {
      Step(tag, attr, p, SeekName, SeekName);
      SeekThrough(tag, attr, p + 1, name[1..]);
    }
  }

  // ----- Names with a '<' -----

  // A name may start at p.
  predicate Boundary(tag: string, p: nat) {
    1 <= p <= |tag| && (tag[p - 1] == ' ' || tag[p - 1] == '<')
  }

  // The scan from p, with n characters of the wanted name already matched.
  function MatchAt(tag: string, attr: string, p: nat, n: nat): Option<nat>
    requires p >= 1 && attr != "" && n <= |attr|
  {
    Scan(tag, |tag|, attr, p, Scanner(MatchName, n))
  }

  lemma Begin(tag: string, attr: string, p: nat)
    requires Boundary(tag, p) && attr != ""
    ensures ScanAll(tag, attr, p, SeekName) == MatchAt(tag, attr, p, 0)
  {
    if p < |tag| && tag[p] != attr[0] {
      Step(tag, attr, p, SeekName, SeekName);
    }
  }

  lemma {:induction false} MatchRun(tag: string, attr: string, p: nat, n: nat, t: string)
    requires p >= 1 && attr != "" && n + |t| <= |attr| && attr[n..n + |t|] == t && OccursAt(tag, t, p)
    ensures MatchAt(tag, attr, p, n) == MatchAt(tag, attr, p + |t|, n + |t|)
    decreases |t|
  {
    if t != "" {
      OccursWhole(tag, t, p);
      assert tag[p] == t[0] == attr[n];
      assert t == [t[0]] + t[1..];
      OccursPart(tag, [t[0]], t[1..], p);
      assert attr[n + 1..n + |t|] == t[1..];
      hide OccursAt;
      MatchRun(tag, attr, p + 1, n + 1, t[1..]);
    }
  }

  lemma EqualsSign(tag: string, attr: string, p: nat, n: nat)
    requires p >= 1 && attr != "" && '=' !in attr && n <= |attr| && OccursAt(tag, "='", p)
    ensures MatchAt(tag, attr, p, n) == if n == |attr| then Some(p + 2) else ScanAll(tag, attr, p + 2, SkipValue)
  {
    OccursWhole(tag, "='", p);
    hide OccursAt;
    if n < |attr| {
      Mismatch(tag, attr, p, n);
      Step(tag, attr, p + 1, SeekName, SkipValue);
    } else {
      assert Advance(tag, attr, p, Scanner(MatchName, n)) == Scanner(Found, n);
      assert Scan(tag, |tag|, attr, p + 1, Scanner(Found, n)) == Some(p + 2);
    }
  }

  // Without a match the scanner passes over the text up to the next '<'.
  lemma {:induction false} SeekToLess(tag: string, attr: string, p: nat, rest: string)
    requires 1 <= p <= |tag| && attr != "" && OccursAt(tag, rest + "<", p)
    requires '<' !in rest && ' ' !in rest && '=' !in rest
    requires tag[p - 1] != ' ' && tag[p - 1] != '<' && tag[p - 1] != '='
    ensures ScanAll(tag, attr, p, SeekName) == ScanAll(tag, attr, p + |rest| + 1, SeekName)
    decreases |rest|
  {
    hide ScanAll;
    if rest == "" {
      assert rest + "<" == "<";
      OccursWhole(tag, "<", p);
      Step(tag, attr, p, SeekName, SeekName);
    } else {
      assert rest + "<" == [rest[0]] + (rest[1..] + "<");
      OccursPart(tag, [rest[0]], rest[1..] + "<", p);
      hide OccursAt;
      Step(tag, attr, p, SeekName, SeekName);
      SeekToLess(tag, attr, p + 1, rest[1..]);
    }
  }

  ghost predicate BlockText(x: string) {
    '<' !in x && ' ' !in x && '=' !in x
  }

  /** A block `x<` is matched as a whole, or the scanner seeks on behind it. */
  lemma {:induction false} MatchBlock(tag: string, attr: string, p: nat, n: nat, x: string)
    requires p >= 1 && attr != "" && '=' !in attr && n <= |attr| && OccursAt(tag, x + "<", p) && BlockText(x)
    ensures !(x + "<" <= attr[n..]) ==> MatchAt(tag, attr, p, n) == ScanAll(tag, attr, p + |x| + 1, SeekName)
    decreases |x|
  {
    if x == "" {
      assert x + "<" == "<";
      OccursWhole(tag, "<", p);
      hide OccursAt;
      if !(n < |attr| && attr[n] == '<') {
        Mismatch(tag, attr, p, n);
      }
    } else {
      assert x + "<" == [x[0]] + (x[1..] + "<");
      OccursPart(tag, [x[0]], x[1..] + "<", p);
      hide OccursAt;
      if n < |attr| && attr[n] == x[0] {
        assert attr[n..] == [x[0]] + attr[n + 1..];
        MatchBlock(tag, attr, p + 1, n + 1, x[1..]);
      } else {
        Mismatch(tag, attr, p, n);
        SeekToLess(tag, attr, p + 1, x[1..]);
      }
    }
  }

  lemma BlockSkipped(tag: string, attr: string, p: nat, n: nat, x: string)
    requires p >= 1 && attr != "" && '=' !in attr && n <= |attr| && OccursAt(tag, x + "<", p) && BlockText(x)
    requires !(x + "<" <= attr[n..])
    ensures Boundary(tag, p + |x| + 1)
    ensures MatchAt(tag, attr, p, n) == ScanAll(tag, attr, p + |x| + 1, SeekName)
  {
    MatchBlock(tag, attr, p, n, x);
    OccursWhole(tag, x + "<", p);
  }

  // The block x< repeated.
  function Copies(x: string, n: nat): string {
    if n == 0 then "" else (x + "<") + Copies(x, n - 1)
  }

  lemma {:induction false} CopiesAdd(x: string, m: nat, n: nat)
    ensures Copies(x, m + n) == Copies(x, m) + Copies(x, n)
  {
    if m > 0 {
      CopiesAdd(x, m - 1, n);
      Associative(x + "<", Copies(x, m - 1), Copies(x, n));
    }
  }

  /** How a name made of equal blocks answers a query: the query must consist of the same
      blocks, and the scanner, which skips one block after each failed match, must come out
      with exactly as many blocks as the query has. */
  lemma {:induction false} BlockScan(tag: string, attr: string, p: nat, x: string, q: nat, z: string, m: nat)
    requires PlainName(attr) && attr == Copies(x, q) + z && !(x + "<" <= z) && BlockText(x)
    requires Boundary(tag, p) && OccursAt(tag, Copies(x, m) + "='", p)
    ensures ScanAll(tag, attr, p, SeekName)
         == if z == "" && Divides(q + 1, m + 1) then Some(p + |Copies(x, m)| + 2)
            else ScanAll(tag, attr, p + |Copies(x, m)| + 2, SkipValue)
    decreases m
  {
    assert m >= q ==> Divides(q + 1, m + 1) == Divides(q + 1, m - q);
    assert m <= q ==> Divides(q + 1, m + 1) == (m == q);
    assert attr != "" && '=' !in attr && p >= 1;
    hide *;
    Begin(tag, attr, p);
    if m <= q {
      BlocksEnd(tag, attr, p, x, q, z, m);
    } else {
      BlocksPassed(tag, attr, p, x, q, z, m);
      BlockScan(tag, attr, p + |Copies(x, q + 1)|, x, q, z, m - q - 1);
    }
  }

  // At most as many blocks as the query has: all are matched, then the '=' decides.
  lemma BlocksEnd(tag: string, attr: string, p: nat, x: string, q: nat, z: string, m: nat)
    requires attr != "" && '=' !in attr && attr == Copies(x, q) + z && m <= q && p >= 1
    requires OccursAt(tag, Copies(x, m) + "='", p)
    ensures MatchAt(tag, attr, p, 0)
         == if z == "" && m == q then Some(p + |Copies(x, m)| + 2)
            else ScanAll(tag, attr, p + |Copies(x, m)| + 2, SkipValue)
  {
    hide *;
    var n := |Copies(x, m)|;
    CopiesPrefix(x, q, z, m);
    OccursPart(tag, Copies(x, m), "='", p);
    MatchRun(tag, attr, p, 0, Copies(x, m));
    EqualsSign(tag, attr, p + n, n);
  }

  lemma CopiesPrefix(x: string, q: nat, z: string, m: nat)
    requires m <= q
    ensures var s, n := Copies(x, q) + z, |Copies(x, m)|;
            n <= |s| && s[0..0 + n] == Copies(x, m) && (n == |s| <==> z == "" && m == q)
  {
    hide *;
    CopiesAdd(x, m, q - m);
    CopiesLonger(x, q - m);
    HeadOfThree(Copies(x, m), Copies(x, q - m), z);
  }

  lemma HeadOfThree(a: string, b: string, c: string)
    ensures var s := (a + b) + c; |s| == |a| + |b| + |c| && s[0..0 + |a|] == a
  {
  }

  lemma CopiesLonger(x: string, n: nat)
    ensures |Copies(x, n)| >= n && (n == 0 ==> Copies(x, n) == "")
  {
  }

  // More blocks than the query has: one more block is passed over.
  lemma BlocksPassed(tag: string, attr: string, p: nat, x: string, q: nat, z: string, m: nat)
    requires attr != "" && '=' !in attr && attr == Copies(x, q) + z && !(x + "<" <= z) && BlockText(x)
    requires m > q && p >= 1 && OccursAt(tag, Copies(x, m) + "='", p)
    ensures var r := p + |Copies(x, q + 1)|;
            && Boundary(tag, r) && OccursAt(tag, Copies(x, m - q - 1) + "='", r)
            && MatchAt(tag, attr, p, 0) == ScanAll(tag, attr, r, SeekName)
            && |Copies(x, m)| == |Copies(x, q + 1)| + |Copies(x, m - q - 1)|
  {
    hide *;
    var b, later, n := x + "<", Copies(x, m - q - 1) + "='", |Copies(x, q)|;
    CopiesSplit(x, m, q);
    assert |b| == |x| + 1;
    HeadAndTail(attr, Copies(x, q), z);
    OccursPart(tag, Copies(x, q), b + later, p);
    OccursPart(tag, b, later, p + n);
    MatchRun(tag, attr, p, 0, Copies(x, q));
    BlockSkipped(tag, attr, p + n, n, x);
  }

  lemma HeadAndTail(s: string, a: string, z: string)
    requires s == a + z
    ensures s[0..0 + |a|] == a && s[|a|..] == z
  {
  }

  lemma CopiesSplit(x: string, m: nat, q: nat)
    requires m > q
    ensures Copies(x, m) + "='" == Copies(x, q) + ((x + "<") + (Copies(x, m - q - 1) + "='"))
    ensures |Copies(x, q + 1)| == |Copies(x, q)| + |x| + 1
    ensures |Copies(x, m)| == |Copies(x, q + 1)| + |Copies(x, m - q - 1)|
  {
    CopiesAdd(x, q, 1);
    CopiesAdd(x, q + 1, m - q - 1);
    assert Copies(x, 1) == x + "<";
  }

  predicate Divides(d: nat, n: nat)
    requires d > 0
  {
    n == 0 || (n >= d && Divides(d, n - d))
  }

  ghost predicate Prime(n: nat) {
    n >= 2 && forall d :: 2 <= d < n ==> !Divides(d, n)
  }

  /** The names that can be retrieved: the source forbids only the quote, but a '<' inside a
      name makes what follows it answer as a name of its own. A name with a '<' is read back
      correctly only if it is some x< repeated, one time less than a prime (see
      RetrievableNames). */
  ghost predicate Retrievable(name: string) {
    '<' !in name || exists x, r: nat :: '<' !in x && name == Copies(x, r) && Prime(r + 1)
  }

  ghost predicate GoodName(name: string) {
    PlainName(name) && Retrievable(name)
  }

  ghost predicate GoodList(l: seq<Attribute>) {
    forall i :: 0 <= i < |l| ==> GoodName(l[i].name) && '\0' !in l[i].value
  }

  // A string as blocks x< and a rest that does not start with one.
  function Strip(s: string, x: string): (r: (nat, string))
    ensures s == Copies(x, r.0) + r.1 && !(x + "<" <= r.1)
  {
    if x + "<" <= s then
      var (n, z) := Strip(s[|x| + 1..], x);
      assert s == (x + "<") + s[|x| + 1..];
      Associative(x + "<", Copies(x, n), z);
      (n + 1, z)
    else (0, s)
  }

  lemma PlainBlock(x: string, r: nat)
    requires PlainName(Copies(x, r)) && '<' !in x && r > 0
    ensures BlockText(x)
  {
    assert forall c :: c in x ==> c in Copies(x, r);
  }

  lemma ScanBlockName(tag: string, attr: string, p: nat, x: string, r: nat)
    requires PlainName(attr) && Boundary(tag, p) && BlockText(x) && Prime(r + 1)
    requires OccursAt(tag, Copies(x, r) + "='", p)
    ensures ScanAll(tag, attr, p, SeekName)
         == if Copies(x, r) == attr then Some(p + |Copies(x, r)| + 2)
            else ScanAll(tag, attr, p + |Copies(x, r)| + 2, SkipValue)
  {
    if Copies(x, r) == attr {
      assert attr == Copies(x, r) + "";
      BlockScan(tag, attr, p, x, r, "", r);
    } else {
      var (q, z) := Strip(attr, x);
      BlockScan(tag, attr, p, x, q, z, r);
      if z == "" {
        assert attr == Copies(x, q) && q > 0 && q != r;
        NoDivisor(r + 1, q + 1);
      }
    }
  }

  lemma NoDivisor(n: nat, d: nat)
    requires Prime(n) && d >= 2 && d != n
    ensures !Divides(d, n)
  {
  }

  lemma ScanName(tag: string, attr: string, p: nat, name: string)
    requires 1 <= p <= |tag| && PlainName(attr) && GoodName(name) && OccursAt(tag, name + "='", p)
    requires Boundary(tag, p)
    ensures ScanAll(tag, attr, p, SeekName)
         == if name == attr then Some(p + |name| + 2) else ScanAll(tag, attr, p + |name| + 2, SkipValue)
  {
    if '<' !in name {
      ScanSimpleName(tag, attr, p, name);
    } else {
      var x, r: nat :| '<' !in x && name == Copies(x, r) && Prime(r + 1);
      PlainBlock(x, r);
      ScanBlockName(tag, attr, p, x, r);
    }
  }

  // ----- The round trip -----

  lemma SplitItem(l: seq<Attribute>)
    requires l != []
    ensures Items(l) + "'>" == (l[0].name + "='") + ((Stuff(l[0].value) + "' ") + (Items(l[1..]) + "'>"))
    ensures |Items(l)| == |l[0].name| + |Stuff(l[0].value)| + 4 + |Items(l[1..])|
  {
    Regroup(l[0].name + "='", Stuff(l[0].value), Items(l[1..]));
  }

  lemma Regroup(a: string, v: string, r: string)
    ensures a + v + "'" + " " + r + "'>" == a + ((v + "' ") + (r + "'>"))
  {
    Associative(a + v, "'", " ");
    assert "'" + " " == "' ";
    Associative(a, v, "' ");
    Associative(a, v + "' ", r);
    Associative(a, (v + "' ") + r, "'>");
    Associative(v + "' ", r, "'>");
  }

  // The parts of an item at position p: the name, the value with its closing quote, the rest.
  lemma ItemParts(tag: string, p: nat, name: string, v: string, later: string)
    requires OccursAt(tag, (name + "='") + ((v + "' ") + later), p)
    ensures var q := p + |name| + 2;
            && OccursAt(tag, name + "='", p) && OccursAt(tag, v + "' ", q)
            && OccursAt(tag, later, q + |v| + 2) && q + |v| + 2 <= |tag|
            && tag[q + |v|] == QUOTE && tag[q + |v| + 1] == ' '
  {
    var q := p + |name| + 2;
    OccursPart(tag, name + "='", (v + "' ") + later, p);
    hide OccursAt;
    OccursPart(tag, v + "' ", later, q);
    OccursPart(tag, v, "' ", q);
    OccursWhole(tag, "' ", q + |v|);
  }

  lemma SkipSpace(tag: string, attr: string, p: nat)
    requires 1 <= p < |tag| && PlainName(attr) && tag[p] == ' '
    ensures ScanAll(tag, attr, p, SeekName) == ScanAll(tag, attr, p + 1, SeekName)
  {
    Step(tag, attr, p, SeekName, SeekName);
  }

  /** An item that is not the wanted one is passed over. */
  lemma SkipItem(tag: string, attr: string, p: nat, a: Attribute, later: string)
    requires 1 <= p <= |tag| && PlainName(attr) && GoodName(a.name) && a.name != attr
    requires OccursAt(tag, (a.name + "='") + ((Stuff(a.value) + "' ") + later), p)
    requires Boundary(tag, p)
    ensures var r := p + |a.name| + 4 + |Stuff(a.value)|;
            && Boundary(tag, r) && tag[r - 1] == ' ' && OccursAt(tag, later, r)
            && ScanAll(tag, attr, p, SeekName) == ScanAll(tag, attr, r, SeekName)
  {
    assert attr != "";
    hide *;
    var q, v := p + |a.name| + 2, Stuff(a.value);
    ItemParts(tag, p, a.name, v, later);
    ScanName(tag, attr, p, a.name);
    SkipStuffed(tag, attr, q, a.value);
    SkipSpace(tag, attr, q + |v| + 1);
    NewBoundary(tag, q + |v| + 2);
  }

  lemma NewBoundary(tag: string, p: nat)
    requires 1 <= p <= |tag| && tag[p - 1] == ' '
    ensures Boundary(tag, p)
  {
  }

  lemma FoundItem(tag: string, attr: string, p: nat, v: string, later: string)
    requires 1 <= p <= |tag| && GoodName(attr) && '\0' !in v
    requires OccursAt(tag, (attr + "='") + ((Stuff(v) + "' ") + later), p)
    requires Boundary(tag, p)
    ensures ScanAll(tag, attr, p, SeekName) == Some(p + |attr| + 2)
    ensures ValueAt(tag, p + |attr| + 2) == Some(v)
  {
    assert PlainName(attr);
    var q := p + |attr| + 2;
    hide *;
    ItemParts(tag, p, attr, Stuff(v), later);
    ScanName(tag, attr, p, attr);
    ValueReadBack(tag, q, v);
  }

  // From the start of an item, the scanner finds the first item of the wanted name.
  lemma {:induction false} ScanItems(tag: string, attr: string, p: nat, l: seq<Attribute>)
    requires 1 <= p <= |tag| && PlainName(attr) && GoodList(l)
    requires OccursAt(tag, Items(l) + "'>", p) && |tag| == p + |Items(l)| + 2
    requires tag[p - 1] == ' ' || (tag[p - 1] == '<' && l != [])
    ensures match ScanAll(tag, attr, p, SeekName)
            case None => LookupAttr(l, attr) == None
            case Some(start) => LookupAttr(l, attr) != None && ValueAt(tag, start) == LookupAttr(l, attr)
    decreases |l|
  {
    if l == [] {
      assert Items(l) + "'>" == "'>";
      OccursWhole(tag, "'>", p);
      Step(tag, attr, p, SeekName, SeekName);
      Step(tag, attr, p + 1, SeekName, SeekName);
    } else {
      SplitItem(l);
      var later := Items(l[1..]) + "'>";
      hide Items, ScanAll, Stuff;
      if l[0].name == attr {
        FoundItem(tag, attr, p, l[0].value, later);
      } else {
        hide OccursAt;
        SkipItem(tag, attr, p, l[0], later);
        ScanItems(tag, attr, p + |l[0].name| + 4 + |Stuff(l[0].value)|, l[1..]);
      }
    }
  }

  /** Print/parse round trip: for every list of attributes with retrievable names and every
      name asked for, the built tag gives the value of the first attribute of that name,
      quotes included, and nothing for an absent name. */
  lemma RoundTrip(l: seq<Attribute>, attr: string)
    requires GoodList(l) && PlainName(attr)
    ensures GetAttr(Tag(l), |Tag(l)|, attr) == LookupAttr(l, attr)
  {
    var tag := Tag(l);
    if l == [] {
      assert tag == "< '>";
      Step(tag, attr, 1, SeekName, SeekName);
      Step(tag, attr, 2, SeekName, SeekName);
      Step(tag, attr, 3, SeekName, SeekName);
    } else {
      TagText(l);
      ScanItems(tag, attr, 1, l);
    }
  }

  // ----- Exactly the retrievable names -----

  // From the last rest that does not start with the block on, the name answers for itself.
  lemma {:induction false} TailAnswers(tag: string, x: string, k: nat, z: string, p: nat)
    requires Boundary(tag, p) && BlockText(x) && z != "" && '=' !in z && !(x + "<" <= z)
    requires OccursAt(tag, Copies(x, k) + (z + "='"), p)
    ensures ScanAll(tag, z, p, SeekName) == Some(p + |Copies(x, k)| + |z| + 2)
    decreases k
  {
    if k == 0 {
      assert Copies(x, k) + (z + "='") == z + "='" && z[0..0 + |z|] == z && |Copies(x, k)| == 0;
      hide *;
      Begin(tag, z, p);
      OccursPart(tag, z, "='", p);
      MatchRun(tag, z, p, 0, z);
      EqualsSign(tag, z, p + |z|, |z|);
    } else {
      var later := Copies(x, k - 1) + (z + "='");
      FirstCopy(x, k, z + "='");
      assert z[0..] == z;
      hide *;
      OccursPart(tag, x + "<", later, p);
      Begin(tag, z, p);
      BlockSkipped(tag, z, p, 0, x);
      TailAnswers(tag, x, k - 1, z, p + |x| + 1);
    }
  }

  lemma FirstCopy(x: string, k: nat, later: string)
    requires k > 0
    ensures Copies(x, k) + later == (x + "<") + (Copies(x, k - 1) + later)
    ensures |Copies(x, k)| == |x| + 1 + |Copies(x, k - 1)| && |x + "<"| == |x| + 1
  {
    Associative(x + "<", Copies(x, k - 1), later);
  }

  lemma TagOfOne(name: string, v: string)
    requires name != ""
    ensures var tag := Tag([Attribute(name, v)]);
            && Boundary(tag, 1) && OccursAt(tag, name + "='", 1)
            && OccursAt(tag, Stuff(v) + "' ", |name| + 3)
  {
    hide *;
    var l := [Attribute(name, v)];
    TagText(l);
    SplitItem(l);
    ItemParts(Tag(l), 1, name, Stuff(v), Items(l[1..]) + "'>");
  }

  lemma TagText(l: seq<Attribute>)
    requires l != []
    ensures Boundary(Tag(l), 1) && OccursAt(Tag(l), Items(l) + "'>", 1) && |Tag(l)| == |Items(l)| + 3
  {
    var tag, rest := Tag(l), Items(l) + "'>";
    hide Items;
    assert tag == "<" + rest;
    assert tag[1..1 + |rest|] == rest;
  }

  // A shorter name that is found with the value is a wrong answer.
  lemma WrongAnswer(name: string, v: string, attr: string)
    requires name != "" && PlainName(attr) && |attr| < |name| && '\0' !in v
    requires ScanAll(Tag([Attribute(name, v)]), attr, 1, SeekName) == Some(|name| + 3)
    ensures !AnswersRight(name, v)
  {
    var l := [Attribute(name, v)];
    TagOfOne(name, v);
    ValueReadBack(Tag(l), |name| + 3, v);
    assert LookupAttr(l[1..], attr) == None;
    hide Tag, ValueAt, Stuff;
    assert GetAttr(Tag(l), |Tag(l)|, attr) != LookupAttr(l, attr);
  }

  /** Every query on the tag of this one attribute is answered correctly. */
  ghost predicate AnswersRight(name: string, v: string) {
    var l := [Attribute(name, v)];
    forall attr :: PlainName(attr) ==> GetAttr(Tag(l), |Tag(l)|, attr) == LookupAttr(l, attr)
  }

  // The part of a name up to its first '<'.
  function FirstBlock(name: string): (x: string)
    requires '<' in name
    ensures '<' !in x && x + "<" <= name
  {
    if name[0] == '<' then "" else
      var x := FirstBlock(name[1..]);
      assert name == [name[0]] + name[1..];
      [name[0]] + x
  }

  lemma PlainParts(a: string, b: string)
    requires PlainName(a + b) && a != "" && b != ""
    ensures PlainName(a) && PlainName(b)
  {
    assert forall c :: c in a ==> c in a + b;
    assert forall c :: c in b ==> c in a + b;
  }

  // x<x<...z, z not empty and not starting with x<, answers the query z.
  lemma UnevenName(x: string, k: nat, z: string, v: string)
    requires PlainName(Copies(x, k) + z) && '<' !in x && k > 0 && z != "" && !(x + "<" <= z) && '\0' !in v
    ensures !AnswersRight(Copies(x, k) + z, v)
  {
    hide *;
    UnevenParts(x, k, z);
    TagOfOne(Copies(x, k) + z, v);
    TailAnswers(Tag([Attribute(Copies(x, k) + z, v)]), x, k, z, 1);
    WrongAnswer(Copies(x, k) + z, v, z);
  }

  lemma UnevenParts(x: string, k: nat, z: string)
    requires PlainName(Copies(x, k) + z) && '<' !in x && k > 0 && z != ""
    ensures BlockText(x) && PlainName(z) && '=' !in z
    ensures |Copies(x, k) + z| == |Copies(x, k)| + |z| && |Copies(x, k)| > 0
    ensures (Copies(x, k) + z) + "='" == Copies(x, k) + (z + "='")
  {
    CopiesLonger(x, k);
    PlainParts(Copies(x, k), z);
    PlainBlock(x, k);
    Associative(Copies(x, k), z, "='");
  }

  lemma FewerCopies(x: string, q: nat, r: nat)
    requires 0 < q < r && PlainName(Copies(x, r))
    ensures PlainName(Copies(x, q)) && |Copies(x, q)| < |Copies(x, r)| && Copies(x, r) != ""
  {
    CopiesAdd(x, q, r - q);
    CopiesLonger(x, q);
    CopiesLonger(x, r - q);
    assert forall c :: c in Copies(x, q) ==> c in Copies(x, r);
  }

  // So does x< repeated r times, if q + 1 divides r + 1: it answers the query of q copies.
  lemma CompositeName(x: string, r: nat, q: nat, v: string)
    requires PlainName(Copies(x, r)) && '<' !in x && 0 < q < r && Divides(q + 1, r + 1) && '\0' !in v
    ensures !AnswersRight(Copies(x, r), v)
  {
    var name, attr := Copies(x, r), Copies(x, q);
    FewerCopies(x, q, r);
    PlainBlock(x, r);
    assert !(x + "<" <= "");
    hide *;
    TagOfOne(name, v);
    assert attr == attr + "";
    BlockScan(Tag([Attribute(name, v)]), attr, 1, x, q, "", r);
    WrongAnswer(name, v, attr);
  }

  /** Exactly which names can be retrieved: every query on the tag of one attribute is answered
      correctly if and only if its name contains no '<', or is x< repeated r times for an x
      without '<' and a prime r + 1. For instance a<b, a<b< and <<< fail;
      a<, a<a< and <<<< do not. */
  lemma RetrievableNames(name: string, v: string)
    requires PlainName(name) && '\0' !in v
    ensures AnswersRight(name, v) <==> Retrievable(name)
  {
    if Retrievable(name) {
      var l := [Attribute(name, v)];
      forall attr | PlainName(attr) ensures GetAttr(Tag(l), |Tag(l)|, attr) == LookupAttr(l, attr) {
        RoundTrip(l, attr);
      }
    } else {
      var x := FirstBlock(name);
      var (k, z) := Strip(name, x);
      assert k > 0;
      if z != "" {
        UnevenName(x, k, z, v);
      } else {
        assert name == Copies(x, k);
        var d :| 2 <= d < k + 1 && Divides(d, k + 1);
        CompositeName(x, k, d - 1, v);
      }
    }
  }
}
