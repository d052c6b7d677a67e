/** The dpip tag: printing attribute lists with quote stuffing, and reading attributes back. */
module Dpip {
  import opened Common

  const QUOTE := '\''

  // ----- Strings -----

  /** strstr: the index of the first occurrence of p. */
  function Find(s: string, p: string): Option<nat> {
    if p <= s then Some(0)
    else if s == "" then None
    else
      match Find(s[1..], p)
      case None => None
      case Some(i) => Some(i + 1)
  }

  predicate OccursAt(s: string, p: string, i: nat) {
    i + |p| <= |s| && s[i..i + |p|] == p
  }

  lemma {:induction false} FindIsFirst(s: string, p: string)
    ensures match Find(s, p)
            case Some(i) => OccursAt(s, p, i) && forall k :: 0 <= k < i ==> !OccursAt(s, p, k)
            case None => forall k :: 0 <= k ==> !OccursAt(s, p, k)
  {
    if p <= s {
      assert s[0..|p|] == p;
    } else {
      assert !OccursAt(s, p, 0);
      if s != "" {
        FindIsFirst(s[1..], p);
        forall k | 1 <= k && k + |p| <= |s|
          ensures s[1..][k - 1..k - 1 + |p|] == s[k..k + |p|]
          ensures OccursAt(s, p, k) == OccursAt(s[1..], p, k - 1)
        {
        }
      }
    }
  }

  lemma FindUnique(s: string, p: string, i: nat)
    requires OccursAt(s, p, i) && forall k :: 0 <= k < i ==> !OccursAt(s, p, k)
    ensures Find(s, p) == Some(i)
  {
    FindIsFirst(s, p);
  }

  // ----- Printing -----

  // Every quote is doubled.
  function Stuff(v: string): string {
    if v == "" then ""
    else if v[0] == QUOTE then [QUOTE, QUOTE] + Stuff(v[1..])
    else [v[0]] + Stuff(v[1..])
  }

  function Unstuff(v: string): string {
    if v == "" then ""
    else if |v| >= 2 && v[0] == QUOTE && v[1] == QUOTE then [QUOTE] + Unstuff(v[2..])
    else [v[0]] + Unstuff(v[1..])
  }

  lemma {:induction false} UnstuffStuff(v: string)
    ensures Unstuff(Stuff(v)) == v
  {
    if v != "" {
      UnstuffStuff(v[1..]);
      if v[0] == QUOTE {
        assert ([QUOTE, QUOTE] + Stuff(v[1..]))[2..] == Stuff(v[1..]);
      } else {
        assert ([v[0]] + Stuff(v[1..]))[1..] == Stuff(v[1..]);
      }
    }
  }

  // The number of %s in a format.
  function Slots(format: string): nat
    decreases |format|
  {
    match Find(format, "%s")
    case None => 0
    case Some(i) =>
      FindIsFirst(format, "%s");
      1 + Slots(format[i + 2..])
  }

  // A literal part of the format, and the argument after it.
  function Quoted(literal: string, arg: string): string {
    literal + [QUOTE] + Stuff(arg) + [QUOTE]
  }

  /** The format with every %s replaced by the quoted, stuffed argument. */
  function Expand(format: string, args: seq<string>): string
    requires Slots(format) <= |args|
    decreases |format|
  {
    match Find(format, "%s")
    case None => format
    case Some(i) =>
      FindIsFirst(format, "%s");
      Quoted(format[..i], args[0]) + Expand(format[i + 2..], args[1..])
  }

  // The stuff-copy loop.
  method AppendStuffed(cmd: string, s: string) returns (r: string)
    ensures r == cmd + Stuff(s)
  {
    r := cmd;
    var k := 0;
    while k < |s|
      invariant 0 <= k <= |s| && r + Stuff(s[k..]) == cmd + Stuff(s)
    {
      assert s[k..][1..] == s[k + 1..];
      r := r + [s[k]];
      if s[k] == QUOTE {
        r := r + [s[k]];
      }
      k := k + 1;
    }
    assert s[k..] == "";
  }

  // The format's part is copied, then the quoted argument.
  method AppendQuoted(cmd: string, literal: string, arg: string) returns (r: string)
    ensures r == cmd + Quoted(literal, arg)
  {
    r := cmd + literal;
    r := r + [QUOTE];
    r := AppendStuffed(r, arg);
    r := r + [QUOTE];
  }

  lemma Associative<T>(a: seq<T>, b: seq<T>, c: seq<T>)
    ensures (a + b) + c == a + (b + c)
  {
  }

  // What is still to be printed at position q of the format, from argument number arg on.
  ghost predicate Rest(format: string, args: seq<string>, q: int, arg: int, text: string) {
    && 0 <= q <= |format| && 0 <= arg <= |args|
    && Slots(format[q..]) <= |args| - arg
    && text == Expand(format[q..], args[arg..])
  }

  lemma RestAtStart(format: string, args: seq<string>)
    requires Slots(format) <= |args|
    ensures Rest(format, args, 0, 0, Expand(format, args))
  {
    assert format[0..] == format && args[0..] == args;
  }

  // Without a further %s the text is the format's own, and nothing is left after it.
  lemma RestAtEnd(format: string, args: seq<string>, q: int, arg: int, text: string)
    requires Rest(format, args, q, arg, text) && Find(format[q..], "%s") == None
    ensures text == format[q..] && Rest(format, args, |format|, arg, "")
  {
    assert format[|format|..] == "";
  }

  lemma RestDone(format: string, args: seq<string>, q: int, arg: int, text: string)
    requires Rest(format, args, q, arg, text) && q == |format|
    ensures text == ""
  {
    assert format[q..] == "";
  }

  lemma RestAtSlot(format: string, args: seq<string>, q: int, arg: int, text: string, i: nat)
    requires Rest(format, args, q, arg, text) && Find(format[q..], "%s") == Some(i)
    ensures q + i + 2 <= |format| && arg < |args|
    ensures var later := Expand(format[q..][i + 2..], args[arg..][1..]);
            && Rest(format, args, q + i + 2, arg + 1, later)
            && text == Quoted(format[q..q + i], args[arg]) + later
  {
    FindIsFirst(format[q..], "%s");
    assert format[q..][i + 2..] == format[q + i + 2..] && format[q..][..i] == format[q..q + i];
    assert args[arg..][1..] == args[arg + 1..];
  }

  /** a_Dpip_build_cmd. */
  method BuildCmd(format: string, args: seq<string>) returns (r: Option<string>)
    requires Slots(format) <= |args|
    ensures QUOTE in format ==> r == None
    ensures QUOTE !in format ==> r == Some("<" + Expand(format, args) + " '>")
  {
    if QUOTE in format {
      return None;
    }
    var cmd := "<";
    var q, arg := 0, 0;
    ghost var text := Expand(format, args);
    RestAtStart(format, args);
    hide *;
    while q < |format|
      invariant Rest(format, args, q, arg, text) && cmd + text == "<" + Expand(format, args)
      invariant 0 <= q <= |format| && 0 <= arg <= |args|
      decreases |format| - q
    {
      match Find(format[q..], "%s")
      case None =>
        RestAtEnd(format, args, q, arg, text);
        cmd := cmd + format[q..];
        q := |format|;
        text := "";
      case Some(i) =>
        RestAtSlot(format, args, q, arg, text, i);
        ghost var later := Expand(format[q..][i + 2..], args[arg..][1..]);
        Associative(cmd, Quoted(format[q..q + i], args[arg]), later);
        cmd := AppendQuoted(cmd, format[q..q + i], args[arg]);
        text := later;
        q := q + i + 2;
        arg := arg + 1;
    }
    RestDone(format, args, q, arg, text);
    assert cmd == "<" + Expand(format, args);
    cmd := cmd + " '>";
    r := Some(cmd);
  }

  // ----- Attribute lists -----

  datatype Attribute = Attribute(name: string, value: string)

  // name=%s, as it appears in a tag
  function Item(a: Attribute): string {
    a.name + "='" + Stuff(a.value) + "'"
  }

  /** The text between < and '>: the items, each followed by a space. */
  function Items(l: seq<Attribute>): string {
    if l == [] then "" else Item(l[0]) + " " + Items(l[1..])
  }

  function Tag(l: seq<Attribute>): string {
    "<" + (if l == [] then " " else Items(l)) + "'>"
  }

  function FormatOf(l: seq<Attribute>): string {
    if l == [] then "" else if |l| == 1 then l[0].name + "=%s" else l[0].name + "=%s " + FormatOf(l[1..])
  }

  function Values(l: seq<Attribute>): seq<string> {
    seq(|l|, i requires 0 <= i < |l| => l[i].value)
  }

  ghost predicate PlainName(name: string) {
    && name != "" && '\0' !in name && QUOTE !in name && ' ' !in name && '=' !in name
  }

  ghost predicate Formattable(l: seq<Attribute>) {
    forall i :: 0 <= i < |l| ==> PlainName(l[i].name) && Find(l[i].name, "%s") == None
  }

  lemma FirstSlot(name: string, rest: string)
    requires PlainName(name) && Find(name, "%s") == None
    ensures Find(name + "=%s" + rest, "%s") == Some(|name| + 1)
  {
    var s := name + "=%s" + rest;
    FindIsFirst(name, "%s");
    assert s[|name| + 1..|name| + 3] == "%s";
    forall k | 0 <= k < |name| + 1 ensures !OccursAt(s, "%s", k) {
      assert !OccursAt(name, "%s", k);
      assert k + 2 <= |name| ==> name[k..k + 2] == s[k..k + 2];
      assert s[k..k + 2][0] == s[k] && s[k..k + 2][1] == s[k + 1];
      assert k + 2 > |name| ==> s[k] == '=' || s[k + 1] == '=';
    }
    FindUnique(s, "%s", |name| + 1);
  }

  // The first item of a format is expanded on its own.
  lemma ExpandFirst(a: Attribute, rest: string, args: seq<string>)
    requires PlainName(a.name) && Find(a.name, "%s") == None
    requires args != [] && args[0] == a.value && Slots(rest) <= |args| - 1
    ensures Slots(a.name + "=%s" + rest) == 1 + Slots(rest)
    ensures Expand(a.name + "=%s" + rest, args) == Item(a) + Expand(rest, args[1..])
  {
    var f := a.name + "=%s" + rest;
    FirstSlot(a.name, rest);
    assert f[..|a.name| + 1] == a.name + "=" && f[|a.name| + 3..] == rest;
    assert Quoted(a.name + "=", a.value) == Item(a);
  }

  lemma {:induction false} FormatHasNoQuote(l: seq<Attribute>)
    requires Formattable(l)
    ensures QUOTE !in FormatOf(l)
  {
    if l != [] {
      FormatHasNoQuote(l[1..]);
    }
  }

  // The last item, and one more item in front.
  lemma ExpandOne(a: Attribute)
    requires PlainName(a.name) && Find(a.name, "%s") == None
    ensures Slots(a.name + "=%s") == 1 && Expand(a.name + "=%s", [a.value]) == Item(a)
  {
    assert Find("", "%s") == None && Slots("") == 0;
    assert a.name + "=%s" + "" == a.name + "=%s";
    ExpandFirst(a, "", [a.value]);
    assert Expand("", [a.value][1..]) == "";
  }

  lemma ExpandMore(a: Attribute, f: string, args: seq<string>)
    requires PlainName(a.name) && Find(a.name, "%s") == None && Slots(f) == |args|
    ensures Slots(a.name + "=%s " + f) == 1 + |args|
    ensures Expand(a.name + "=%s " + f, [a.value] + args) == Item(a) + " " + Expand(f, args)
  {
    LeadingSpace(f, args);
    assert a.name + "=%s " + f == a.name + "=%s" + (" " + f);
    assert ([a.value] + args)[1..] == args;
    hide Expand, Slots, Find;
    ExpandFirst(a, " " + f, [a.value] + args);
  }

  /** Expanding `name=%s` items separated by single spaces. */
  lemma {:induction false} ExpandItems(l: seq<Attribute>)
    requires Formattable(l)
    ensures Slots(FormatOf(l)) == |l|
    ensures l != [] ==> Expand(FormatOf(l), Values(l)) + " " == Items(l)
  {
    if |l| == 1 {
      ExpandOne(l[0]);
      assert Values(l) == [l[0].value] && Items(l[1..]) == "";
    } else if l != [] {
      ExpandItems(l[1..]);
      assert Values(l) == [l[0].value] + Values(l[1..]);
      hide Expand, Slots, Find;
      ExpandMore(l[0], FormatOf(l[1..]), Values(l[1..]));
    }
  }

  lemma FindLeading(f: string)
    ensures Find(" " + f, "%s") == match Find(f, "%s") case None => None case Some(i) => Some(i + 1)
  {
    var s := " " + f;
    assert s[1..] == f && s[0] == ' ';
    assert !("%s" <= s);
  }

  lemma LeadingSpace(f: string, args: seq<string>)
    ensures Slots(" " + f) == Slots(f)
    ensures Slots(f) <= |args| ==> Expand(" " + f, args) == " " + Expand(f, args)
  {
    FindLeading(f);
    match Find(f, "%s") {
      case None =>
      case Some(i) =>
        SplitSlot(f, args, i);
        SplitSlot(" " + f, args, i + 1);
        assert (" " + f)[i + 3..] == f[i + 2..] && (" " + f)[..i + 1] == " " + f[..i];
        hide Expand, Slots, Find, Stuff, Quoted;
        if Slots(f) <= |args| {
          QuotedSpace(f[..i], args[0]);
          Associative(" ", Quoted(f[..i], args[0]), Expand(f[i + 2..], args[1..]));
        }
    }
  }

  lemma QuotedSpace(literal: string, arg: string)
    ensures Quoted(" " + literal, arg) == " " + Quoted(literal, arg)
  {
  }

  lemma SplitSlot(f: string, args: seq<string>, i: nat)
    requires Find(f, "%s") == Some(i)
    ensures i + 2 <= |f| && Slots(f) == 1 + Slots(f[i + 2..])
    ensures Slots(f) <= |args| ==>
              Expand(f, args) == Quoted(f[..i], args[0]) + Expand(f[i + 2..], args[1..])
  {
    FindIsFirst(f, "%s");
  }

  /** a_Dpip_build_cmd on such a format returns the tag of the attribute list. */
  lemma BuiltTag(l: seq<Attribute>)
    requires Formattable(l)
    ensures QUOTE !in FormatOf(l) && Slots(FormatOf(l)) == |Values(l)|
    ensures "<" + Expand(FormatOf(l), Values(l)) + " '>" == Tag(l)
  {
    ExpandItems(l);
    FormatHasNoQuote(l);
    if l != [] {
      assert "<" + Expand(FormatOf(l), Values(l)) + " '>" == "<" + (Expand(FormatOf(l), Values(l)) + " ") + "'>";
    }
  }
}
