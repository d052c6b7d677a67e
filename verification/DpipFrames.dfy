/** Built tags frame a stream: their first end mark is their end, and they switch the mode
    exactly when they carry the start_send_page command. */
module DpipFrames {
  import opened Common
  import opened Dpip
  import opened DpipAttr
  import opened DpipRoundTrip
  import opened DpipStream

  // ----- The end mark -----

  // How much of the end mark has just been read: nothing, " ", " '", or all of it somewhere.
  function Next(e: nat, c: char): nat {
    if e == 3 then 3
    else if c == ' ' then 1
    else if c == QUOTE && e == 1 then 2
    else if c == '>' && e == 2 then 3
    else 0
  }

  function EndState(e: nat, s: string): nat
    decreases |s|
  {
    if s == "" then e else EndState(Next(e, s[0]), s[1..])
  }

  lemma {:induction false} EndStateAppend(e: nat, a: string, b: string)
    ensures EndState(e, a + b) == EndState(EndState(e, a), b)
    decreases |a|
  {
    if a == "" {
      assert a + b == b;
    } else {
      assert (a + b)[0] == a[0] && (a + b)[1..] == a[1..] + b;
      EndStateAppend(Next(e, a[0]), a[1..], b);
    }
  }

  lemma EndStateOne(e: nat, c: char)
    ensures EndState(e, [c]) == Next(e, c)
  {
    assert [c][1..] == "";
  }

  // While the mark has not been read there is none, and the state says how the text ends.
  lemma {:induction false} EndStateMeaning(s: string)
    requires EndState(0, s) != 3
    ensures forall k :: 0 <= k ==> !OccursAt(s, TAG_END, k)
    ensures EndState(0, s) == 1 <==> s != "" && s[|s| - 1] == ' '
    ensures EndState(0, s) == 2 <==> |s| >= 2 && s[|s| - 2] == ' ' && s[|s| - 1] == QUOTE
    decreases |s|
  {
    if s != "" {
      var n := |s| - 1;
      var u, c := s[..n], s[n];
      assert s == u + [c];
      EndStateAppend(0, u, [c]);
      EndStateOne(EndState(0, u), c);
      hide EndState, OccursAt;
      EndStateMeaning(u);
      NoMarkAdded(u, c);
    }
  }

  lemma NoMarkAdded(u: string, c: char)
    requires forall k :: 0 <= k ==> !OccursAt(u, TAG_END, k)
    requires c == '>' ==> !(|u| >= 2 && u[|u| - 2] == ' ' && u[|u| - 1] == QUOTE)
    ensures forall k :: 0 <= k ==> !OccursAt(u + [c], TAG_END, k)
  {
    var s := u + [c];
    forall k | 0 <= k ensures !OccursAt(s, TAG_END, k) {
      if OccursAt(s, TAG_END, k) {
        var m := s[k..k + 3];
        assert m[0] == s[k] && m[1] == s[k + 1] && m[2] == s[k + 2];
        if k + 3 <= |u| {
          assert u[k..k + 3] == m;
          assert OccursAt(u, TAG_END, k);
        }
        assert false;
      }
    }
  }

  // Inside a stuffed value no mark begins to form beyond a space.
  lemma {:induction false} EndStateStuffed(e: nat, v: string)
    requires e <= 1
    ensures EndState(e, Stuff(v)) <= 1
    decreases v
  {
    if v != "" {
      var rest := Stuff(v[1..]);
      EndStateStuffed(0, v[1..]);
      EndStateStuffed(1, v[1..]);
      if v[0] == QUOTE {
        EndStateAppend(e, [QUOTE, QUOTE], rest);
        assert [QUOTE, QUOTE][1..] == [QUOTE];
        EndStateOne(Next(e, QUOTE), QUOTE);
      } else {
        EndStateAppend(e, [v[0]], rest);
        EndStateOne(e, v[0]);
      }
    }
  }

  lemma {:induction false} EndStateName(e: nat, name: string)
    requires QUOTE !in name && ' ' !in name && name != "" && e <= 1
    ensures EndState(e, name) == 0
    decreases |name|
  {
    if |name| == 1 {
      assert name == [name[0]];
      EndStateOne(e, name[0]);
    } else {
      EndStateName(Next(e, name[0]), name[1..]);
    }
  }

  lemma EndStateItem(e: nat, a: Attribute)
    requires e <= 1 && PlainName(a.name)
    ensures EndState(e, Item(a) + " ") == 1
  {
    var v := Stuff(a.value);
    EndStateName(e, a.name);
    EndStateAppend(e, a.name, "='");
    assert "='"[1..] == "'" && "'"[1..] == "";
    assert EndState(e, a.name + "='") == 0;
    EndStateAppend(e, a.name + "='", v);
    EndStateStuffed(0, a.value);
    EndStateAppend(e, a.name + "='" + v, "'");
    EndStateOne(EndState(0, v), QUOTE);
    EndStateAppend(e, Item(a), " ");
    EndStateOne(EndState(e, Item(a)), ' ');
  }

  lemma {:induction false} EndStateItems(e: nat, l: seq<Attribute>)
    requires e <= 1 && GoodList(l)
    ensures EndState(e, Items(l)) == if l == [] then e else 1
    decreases |l|
  {
    if l != [] {
      EndStateItem(e, l[0]);
      EndStateAppend(e, Item(l[0]) + " ", Items(l[1..]));
      EndStateItems(1, l[1..]);
    }
  }

  lemma {:induction false} StuffNoNul(v: string)
    requires '\0' !in v
    ensures '\0' !in Stuff(v)
  {
    if v != "" {
      StuffNoNul(v[1..]);
    }
  }

  lemma {:induction false} ItemsNoNul(l: seq<Attribute>)
    requires GoodList(l)
    ensures '\0' !in Items(l)
  {
    if l != [] {
      StuffNoNul(l[0].value);
      ItemsNoNul(l[1..]);
    }
  }

  /** The end mark space-quote-> occurs first at the very end of a built tag. */
  lemma TagIsFrame(l: seq<Attribute>)
    requires GoodList(l)
    ensures IsFrame(Tag(l))
  {
    var body := if l == [] then " " else Items(l);
    var u := "<" + body + "'";
    ItemsNoNul(l);
    EndStateOne(0, '<');
    EndStateAppend(0, "<", body);
    EndStateItems(0, l);
    EndStateOne(0, ' ');
    assert EndState(0, "<" + body) == 1;
    EndStateAppend(0, "<" + body, "'");
    EndStateOne(1, QUOTE);
    EndStateMeaning(u);
    var t := Tag(l);
    assert t == u + ">";
    forall k | 0 <= k < |t| - 3 ensures !OccursAt(t, TAG_END, k) {
      assert t[k..k + 3] == u[k..k + 3];
      assert !OccursAt(u, TAG_END, k);
    }
    assert t[|t| - 3] == u[|u| - 2] && t[|t| - 2] == u[|u| - 1];
    assert t[|t| - 3..|t|] == TAG_END;
    FindUnique(t, TAG_END, |t| - 3);
  }

  // ----- The mode switch -----

  predicate EndsIn(name: string, end: string) {
    |end| <= |name| && name[|name| - |end|..] == end
  }

  /** Some attribute whose name ends in "cmd" has the value start_send_page. */
  ghost predicate Switches(l: seq<Attribute>) {
    exists i :: 0 <= i < |l| && EndsIn(l[i].name, "cmd") && l[i].value == "start_send_page"
  }

  // In a stuffed value, a quote after another character is doubled or closes the value.
  lemma {:induction false} QuoteAfter(v: string, j: nat)
    requires j + 1 <= |Stuff(v)|
    ensures var w := Stuff(v) + "' ";
            w[j] != QUOTE && w[j + 1] == QUOTE ==> w[j + 2] == QUOTE || w[j + 2] == ' '
    decreases v
  {
    if v != "" {
      var w, w' := Stuff(v) + "' ", Stuff(v[1..]) + "' ";
      if v[0] == QUOTE {
        assert w == [QUOTE, QUOTE] + w';
        if j >= 2 { QuoteAfter(v[1..], j - 2); }
      } else {
        assert w == [v[0]] + w';
        if j >= 1 {
          QuoteAfter(v[1..], j - 1);
        } else if v[1..] != "" && v[1] == QUOTE {
          assert w' == [QUOTE, QUOTE] + (Stuff(v[2..]) + "' ");
        }
      }
    }
  }

  // A stuffed value that begins like a quote-free text up to its closing quote is that text.
  lemma {:induction false} SameText(v: string, later: string, w: string)
    requires QUOTE !in w && w + "' " <= Stuff(v) + "' " + later
    ensures v == w
    decreases v
  {
    var s, t := Stuff(v) + "' " + later, w + "' ";
    assert t[0] == s[0] && t[1] == s[1];
    if v != "" && w != "" {
      assert s[1..] == Stuff(v[1..]) + "' " + later;
      assert t[1..] == w[1..] + "' " <= s[1..];
      SameText(v[1..], later, w[1..]);
    }
  }

  // A '=' and a quote directly inside a value are followed by a quote or the closing space.
  lemma NotInValue(v: string, later: string, j: nat)
    requires j < |Stuff(v)| + 2
    ensures var s := (Stuff(v) + "' ") + later;
            s[j] == '=' && j + 1 < |s| && s[j + 1] == QUOTE ==> j + 2 < |s| && s[j + 2] != 's'
  {
    if j < |Stuff(v)| {
      QuoteAfter(v, j);
    }
  }

  lemma SwitchText(s: string, k: nat)
    requires OccursAt(s, MODE_SWITCH_TAG, k)
    ensures OccursAt(s, "start_send_page" + "' ", k + 5) && k + 22 <= |s|
    ensures s[k..k + 3] == "cmd" && s[k] == 'c' && s[k + 1] == 'm' && s[k + 2] == 'd'
    ensures s[k + 3] == '=' && s[k + 4] == QUOTE && s[k + 5] == 's'
  {
    var a, b := "cmd='", "start_send_page" + "' ";
    assert MODE_SWITCH_TAG == a + b;
    OccursPart(s, a, b, k);
    OccursWhole(s, b, k + 5);
    assert s[k] == a[0] && s[k + 1] == a[1] && s[k + 2] == a[2] && s[k + 3] == a[3] && s[k + 4] == a[4];
    assert s[k + 5 + 0] == b[0];
  }

  // An occurrence whose '=' is the first item's own: the name ends in cmd, the value is the
  // whole command.
  lemma SwitchHere(name: string, v: string, later: string, k: nat)
    requires PlainName(name) && k + 3 < |name| + 2
    requires OccursAt((name + "='") + ((Stuff(v) + "' ") + later), MODE_SWITCH_TAG, k)
    ensures EndsIn(name, "cmd") && v == "start_send_page"
  {
    var rest := (Stuff(v) + "' ") + later;
    var s := (name + "='") + rest;
    SwitchText(s, k);
    assert s[k + 3] == (name + "='")[k + 3] && '=' !in name;
    hide Stuff, PlainName, OccursAt;
    assert name[k..] == s[k..k + 3];
    OccursPrefix(name + "='", rest, "start_send_page" + "' ");
    SameText(v, later, "start_send_page");
  }

  lemma OccursPrefix(a: string, b: string, w: string)
    requires OccursAt(a + b, w, |a|)
    ensures w <= b
  {
    assert (a + b)[|a|..] == b;
    assert (a + b)[|a|..|a| + |w|] == b[..|w|];
  }

  // Otherwise it lies after the item: its '=' is not inside the value, and it contains no space
  // before the end of the command.
  lemma SwitchLater(item: string, v: string, later: string, k: nat)
    requires k + 3 >= |item| && OccursAt(item + ((Stuff(v) + "' ") + later), MODE_SWITCH_TAG, k)
    ensures k >= |item| + |Stuff(v)| + 2 && OccursAt(later, MODE_SWITCH_TAG, k - |item| - |Stuff(v)| - 2)
  {
    var n, rest := |item|, (Stuff(v) + "' ") + later;
    var s := item + rest;
    SwitchText(s, k);
    hide Stuff;
    assert s[k + 3] == rest[k + 3 - n] && s[k + 4] == rest[k + 4 - n] && s[k + 5] == rest[k + 5 - n];
    if k + 3 - n < |Stuff(v)| + 2 {
      NotInValue(v, later, k + 3 - n);
    }
    var m := n + |Stuff(v)| + 2;
    assert s[m - 1] == ' ';
    assert s == (item + (Stuff(v) + "' ")) + later;
    assert s[k..k + 22] == later[k - m..k - m + 22];
  }

  lemma {:induction false} SwitchOccurs(l: seq<Attribute>, k: nat) returns (i: nat)
    requires GoodList(l) && OccursAt(Items(l) + "'>", MODE_SWITCH_TAG, k)
    ensures i < |l| && EndsIn(l[i].name, "cmd") && l[i].value == "start_send_page"
    decreases |l|
  {
    SplitItem(l);
    if k < |l[0].name| - 1 {
      SwitchHere(l[0].name, l[0].value, Items(l[1..]) + "'>", k);
      i := 0;
    } else {
      SwitchLater(l[0].name + "='", l[0].value, Items(l[1..]) + "'>", k);
      i := SwitchOccurs(l[1..], k - |l[0].name| - |Stuff(l[0].value)| - 4);
      i := i + 1;
    }
  }

  lemma {:induction false} StuffPlain(v: string)
    requires QUOTE !in v
    ensures Stuff(v) == v
  {
    if v != "" {
      StuffPlain(v[1..]);
    }
  }

  lemma OccursShift(a: string, b: string, p: string, k: nat)
    requires OccursAt(b, p, k)
    ensures OccursAt(a + b, p, |a| + k)
  {
    assert (a + b)[|a| + k..|a| + k + |p|] == b[k..k + |p|];
  }

  lemma OccursInside(a: string, p: string, b: string)
    ensures OccursAt(a + (p + b), p, |a|)
  {
    assert (a + (p + b))[|a|..|a| + |p|] == p;
  }

  lemma SwitchItem(name: string, v: string, later: string) returns (k: nat)
    requires EndsIn(name, "cmd") && v == "start_send_page"
    ensures OccursAt((name + "='") + ((Stuff(v) + "' ") + later), MODE_SWITCH_TAG, k)
  {
    assert MODE_SWITCH_TAG == "cmd='" + (v + "' ");
    StuffPlain(v);
    k := |name| - 3;
    var a := name[..k];
    assert name + "='" == a + "cmd='";
    hide *;
    OccursInside(a, MODE_SWITCH_TAG, later);
    Associative("cmd='", v + "' ", later);
    Associative(a, "cmd='", (v + "' ") + later);
  }

  lemma {:induction false} SwitchesOccur(l: seq<Attribute>, i: nat) returns (k: nat)
    requires i < |l| && EndsIn(l[i].name, "cmd") && l[i].value == "start_send_page"
    ensures OccursAt(Items(l) + "'>", MODE_SWITCH_TAG, k)
    decreases |l|
  {
    var later := Items(l[1..]) + "'>";
    SplitItem(l);
    hide OccursAt, Stuff, Items;
    if i == 0 {
      k := SwitchItem(l[0].name, l[0].value, later);
    } else {
      k := SwitchesOccur(l[1..], i - 1);
      var item := (l[0].name + "='") + (Stuff(l[0].value) + "' ");
      OccursShift(item, later, MODE_SWITCH_TAG, k);
      Associative(l[0].name + "='", Stuff(l[0].value) + "' ", later);
      k := |item| + k;
    }
  }

  lemma IsSwitchMeans(t: string)
    ensures IsSwitch(t) <==> exists k: nat :: OccursAt(t, MODE_SWITCH_TAG, k)
  {
    FindIsFirst(t, MODE_SWITCH_TAG);
  }

  lemma TagOccurs(l: seq<Attribute>, k: nat)
    requires l != [] && OccursAt(Items(l) + "'>", MODE_SWITCH_TAG, k)
    ensures OccursAt(Tag(l), MODE_SWITCH_TAG, 1 + k)
  {
    var u := Items(l) + "'>";
    Associative("<", Items(l), "'>");
    hide OccursAt;
    OccursShift("<", u, MODE_SWITCH_TAG, k);
  }

  lemma OccursInTag(l: seq<Attribute>, k: nat)
    requires OccursAt(Tag(l), MODE_SWITCH_TAG, k)
    ensures l != [] && k >= 1 && OccursAt(Items(l) + "'>", MODE_SWITCH_TAG, k - 1)
  {
    SwitchText(Tag(l), k);
    var u := Items(l) + "'>";
    assert l != [] && Tag(l) == "<" + u;
    assert Tag(l)[k..k + 22] == u[k - 1..k - 1 + 22];
  }

  /** A built tag switches the mode exactly when one of its attributes, whose name ends in cmd,
      has the value start_send_page; no other value can imitate it. */
  lemma TagSwitches(l: seq<Attribute>)
    requires GoodList(l)
    ensures IsSwitch(Tag(l)) <==> Switches(l)
  {
    hide OccursAt, Items, Tag, IsSwitch;
    IsSwitchMeans(Tag(l));
    if k: nat :| OccursAt(Tag(l), MODE_SWITCH_TAG, k) {
      OccursInTag(l, k);
      var i := SwitchOccurs(l, k - 1);
    }
    if Switches(l) {
      var i :| 0 <= i < |l| && EndsIn(l[i].name, "cmd") && l[i].value == "start_send_page";
      var k := SwitchesOccur(l, i);
      TagOccurs(l, k);
    }
  }

  // ----- From attribute lists to attribute values -----

  function Tags(lists: seq<seq<Attribute>>): seq<string> {
    seq(|lists|, i requires 0 <= i < |lists| => Tag(lists[i]))
  }

  /** What a sender may write: tags, then raw bytes only behind a switching tag. */
  ghost predicate Sendable(lists: seq<seq<Attribute>>, raw: string) {
    && (forall i :: 0 <= i < |lists| ==> GoodList(lists[i]))
    && (forall i :: 0 <= i < |lists| - 1 ==> !Switches(lists[i]))
    && (raw != "" ==> lists != [] && Switches(lists[|lists| - 1]))
  }

  lemma StartOnStream(frames: seq<string>, raw: string, nonblock: bool)
    ensures OnStream(Start(nonblock), frames, raw, 0, [])
  {
    hide IsSwitch;
  }

  lemma GoodTag(l: seq<Attribute>)
    requires GoodList(l)
    ensures IsFrame(Tag(l)) && (IsSwitch(Tag(l)) <==> Switches(l))
  {
    hide *;
    TagIsFrame(l);
    TagSwitches(l);
  }

  lemma SendableIsStream(lists: seq<seq<Attribute>>, raw: string, nonblock: bool)
    requires Sendable(lists, raw)
    ensures IsStream(Tags(lists), raw) && OnStream(Start(nonblock), Tags(lists), raw, 0, [])
  {
    hide OnStream, Tag, IsFrame, IsSwitch, Switches, GoodList;
    StartOnStream(Tags(lists), raw, nonblock);
    forall i | 0 <= i < |lists| ensures IsFrame(Tag(lists[i])) && (IsSwitch(Tag(lists[i])) <==> Switches(lists[i])) {
      GoodTag(lists[i]);
    }
  }

  /** However the stream is cut into arrivals, the tokens so far are built tags in order, then
      nonempty pieces of the raw bytes, and on a connection that stays open nothing is lost. */
  lemma TagsFrame(lists: seq<seq<Attribute>>, raw: string, nonblock: bool, arrivals: seq<Arrival>)
    returns (m: nat, pieces: seq<string>)
    requires Sendable(lists, raw)
    requires Bytes(arrivals) <= Concat(Tags(lists)) + raw
    ensures var end := RunSession(Start(nonblock), arrivals);
            && OnStream(end, Tags(lists), raw, m, pieces)
            && (StaysOpen(arrivals) ==> end.received == Bytes(arrivals))
  {
    SendableIsStream(lists, raw, nonblock);
    assert "" + Bytes(arrivals) == Bytes(arrivals);
    hide OnStream, IsStream, Sendable, StaysOpen;
    m, pieces := Framing(Start(nonblock), Tags(lists), raw, 0, [], arrivals);
  }

  /** End to end: once everything has been sent, on a connection that stays open, and enough calls were
      made, the tokens are one per attribute list, each answering every query with the value that was
      sent, and the rest of the tokens concatenate to the raw bytes. */
  lemma EndToEnd(lists: seq<seq<Attribute>>, raw: string, nonblock: bool,
                 arrivals: seq<Arrival>, quiet: seq<Arrival>)
    requires Sendable(lists, raw)
    requires StaysOpen(arrivals) && Bytes(arrivals) == Concat(Tags(lists)) + raw
    requires Quiet(quiet) && |quiet| > |lists|
    ensures var end := RunSession(RunSession(Start(nonblock), arrivals), quiet);
            && |end.tokens| >= |lists| && Concat(end.tokens[|lists|..]) == raw && end.handler.rdbuf == ""
            && forall i, attr :: 0 <= i < |lists| && PlainName(attr) ==>
                 GetAttr(end.tokens[i], |end.tokens[i]|, attr) == LookupAttr(lists[i], attr)
  {
    var m, pieces := TagsFrame(lists, raw, nonblock, arrivals);
    var s := RunSession(Start(nonblock), arrivals);
    SendableIsStream(lists, raw, nonblock);
    hide StaysOpen, Bytes;
    var pieces' := Drained(s, Tags(lists), raw, m, pieces, quiet);
    var end := RunSession(s, quiet);
    assert end.tokens[|lists|..] == pieces';
    hide GetAttr, Tag;
    forall i, attr | 0 <= i < |lists| && PlainName(attr)
      ensures GetAttr(end.tokens[i], |end.tokens[i]|, attr) == LookupAttr(lists[i], attr)
    {
      RoundTrip(lists[i], attr);
      assert end.tokens[i] == Tag(lists[i]);
    }
  }
}
