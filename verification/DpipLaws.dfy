/** What a tag looks like, character by character, and what a query may answer on any text. */
module DpipLaws {
  import opened Common
  import opened Dpip
  import opened DpipAttr
  import opened DpipRoundTrip

  /** Stuffing doubles each quote and leaves every other character alone. */
  lemma {:induction false} StuffLaw(c: char, v: string)
    ensures Stuff("") == ""
    ensures Stuff([c] + v) == (if c == '\'' then "''" else [c]) + Stuff(v)
  {
    assert ([c] + v)[1..] == v;
  }

  lemma {:induction false} ItemsEnd(l: seq<Attribute>, a: Attribute)
    ensures Items(l + [a]) == Items(l) + (a.name + "='" + Stuff(a.value) + "' ")
  {
    var z := a.name + "='" + Stuff(a.value) + "' ";
    if l == [] {
      assert l + [a] == [a];
    } else {
      assert (l + [a])[1..] == l[1..] + [a];
      ItemsEnd(l[1..], a);
      Associative(Item(l[0]) + " ", Items(l[1..]), z);
    }
  }

  /** A tag: name='value' for each attribute, each with a space behind it, between < and '>. */
  lemma TagLaw(l: seq<Attribute>, a: Attribute)
    ensures Tag([]) == "< '>"
    ensures Tag([a]) == "<" + (a.name + "='" + Stuff(a.value) + "' ") + "'>"
    ensures l != [] ==> |Tag(l)| >= 2 &&
                        Tag(l + [a]) == Tag(l)[..|Tag(l)| - 2] + (a.name + "='" + Stuff(a.value) + "' ") + "'>"
  {
    var z := a.name + "='" + Stuff(a.value) + "' ";
    ItemsEnd([], a);
    ItemsEnd(l, a);
    assert [] + [a] == [a];
    hide Items, Stuff;
    if l != [] {
      var t := "<" + Items(l);
      assert Tag(l) == t + "'>" && Tag(l)[..|Tag(l)| - 2] == t;
      Associative("<", Items(l), z);
    }
  }

  /** A format: text before the first %s stays, and the %s becomes the quoted, stuffed argument. */
  lemma FormatLaw(text: string, arg: string, later: string, args: seq<string>)
    requires forall k :: 0 <= k ==> !OccursAt(text, "%s", k)
    ensures Slots(text) == 0 && Expand(text, args) == text
    ensures Slots(text + "%s" + later) == 1 + Slots(later)
    ensures Slots(later) <= |args| ==>
              Expand(text + "%s" + later, [arg] + args) == text + "'" + Stuff(arg) + "'" + Expand(later, args)
  {
    FindIsFirst(text, "%s");
    var f := text + "%s" + later;
    FirstSlot(text, later);
    assert f[..|text|] == text && f[|text| + 2..] == later && ([arg] + args)[1..] == args;
    hide Find, OccursAt, Stuff;
  }

  lemma FirstSlot(text: string, later: string)
    requires forall k :: 0 <= k ==> !OccursAt(text, "%s", k)
    ensures Find(text + "%s" + later, "%s") == Some(|text|)
  {
    var f := text + "%s" + later;
    assert f[|text|..|text| + 2] == "%s";
    forall k | 0 <= k < |text| ensures !OccursAt(f, "%s", k) {
      if k + 2 <= |text| {
        assert f[k..k + 2] == text[k..k + 2];
        assert !OccursAt(text, "%s", k);
      } else {
        assert f[k..k + 2][1] == '%';
      }
    }
    FindUnique(f, "%s", |text|);
  }

  /** A query means the first attribute of that name. */
  lemma {:induction false} LookupLaw(l: seq<Attribute>, attr: string)
    ensures match LookupAttr(l, attr)
            case Some(v) => exists i :: 0 <= i < |l| && l[i] == Attribute(attr, v) &&
                                        forall j :: 0 <= j < i ==> l[j].name != attr
            case None => forall i :: 0 <= i < |l| ==> l[i].name != attr
  {
    if l != [] && l[0].name != attr {
      var r := l[1..];
      LookupLaw(r, attr);
      if LookupAttr(r, attr).Some? {
        var i :| 0 <= i < |r| && r[i] == Attribute(attr, LookupAttr(r, attr).value) &&
                 forall j :: 0 <= j < i ==> r[j].name != attr;
        assert l[i + 1] == r[i] && forall j :: 0 < j < i + 1 ==> l[j] == r[j - 1];
      } else {
        assert forall i :: 0 < i < |l| ==> l[i] == r[i - 1];
      }
    } else if l != [] {
      assert l[0] == Attribute(attr, l[0].value);
    }
  }

  // ----- Any text -----

  // The first n characters of the name stand before position i, behind a space or a '<'.
  ghost predicate Named(tag: string, attr: string, i: nat, n: nat) {
    && n <= |attr| && n < i <= |tag| && tag[i - n..i] == attr[..n]
    && (tag[i - n - 1] == ' ' || tag[i - n - 1] == '<')
  }

  // A value begins here: the name, '=' and one more character stand before it.
  ghost predicate ValueBegins(tag: string, attr: string, start: nat) {
    start >= 2 && start - 2 < |tag| && tag[start - 2] == '=' && Named(tag, attr, start - 2, |attr|)
  }

  ghost predicate ScanKnows(tag: string, attr: string, i: nat, s: Scanner) {
    && (s.state == MatchName ==> 1 <= s.n && Named(tag, attr, i, s.n))
    && (s.state == Found ==> ValueBegins(tag, attr, i + 1))
  }

  lemma ScanStep(tag: string, attr: string, i: nat, s: Scanner)
    requires 1 <= i < |tag| && attr != "" && s.n <= |attr| && ScanKnows(tag, attr, i, s) && s.state != Found
    ensures ScanKnows(tag, attr, i + 1, Advance(tag, attr, i, s))
  {
    if s.state == MatchName && s.n < |attr| && tag[i] == attr[s.n] {
      assert tag[i - s.n..i + 1] == tag[i - s.n..i] + [tag[i]];
      assert attr[..s.n + 1] == attr[..s.n] + [attr[s.n]];
    }
  }

  lemma {:induction false} ScanSound(tag: string, size: nat, attr: string, i: nat, s: Scanner)
    requires 1 <= i && size <= |tag| && attr != "" && s.n <= |attr| && ScanKnows(tag, attr, i, s)
    ensures var r := Scan(tag, size, attr, i, s); r.Some? ==> ValueBegins(tag, attr, r.value)
    decreases |tag| - i
  {
    if i < size && s.state != Found {
      ScanStep(tag, attr, i, s);
      hide ScanKnows, ValueBegins;
      ScanSound(tag, size, attr, i + 1, Advance(tag, attr, i, s));
    }
  }

  lemma {:induction false} ClosingSound(tag: string, p: nat)
    ensures var r := ClosingQuote(tag, p);
            r.Some? ==> p <= r.value < |tag| && tag[r.value] == '\'' && At(tag, r.value + 1) != '\''
    decreases |tag| - p
  {
    NextQuoteAt(tag, p);
    var q := NextQuote(tag, p);
    if q.Some? && At(tag, q.value + 1) == QUOTE {
      ClosingSound(tag, q.value + 2);
    }
  }

  /** On any text an answer stands behind the name and '=', up to a quote with a space behind it. */
  lemma GetAttrSound(tag: string, size: nat, attr: string)
    requires size <= |tag|
    ensures var r := GetAttr(tag, size, attr);
            r.Some? ==> attr != "" && exists start: nat, q: nat ::
              && ValueBegins(tag, attr, start) && start <= q && q + 1 < |tag|
              && tag[q] == '\'' && tag[q + 1] == ' ' && r.value == Unstuff(tag[start..q])
  {
    if size > 0 && attr != "" {
      ScanSound(tag, size, attr, 1, Scanner(SeekName, 0));
      var s := Scan(tag, size, attr, 1, Scanner(SeekName, 0));
      if s.Some? {
        ClosingSound(tag, s.value);
        var q := ClosingQuote(tag, s.value);
        assert q.Some? && At(tag, q.value + 1) == ' ' ==> q.value + 1 < |tag|;
      }
    }
  }
}
