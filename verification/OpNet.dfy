/** The connection graph of an OpDesk. A link is stored in three places: in the desk's list and in
    the lists of both buttons. */
module OpNet {

  /** The identity of a button: its box, whether it is an input, and its place among the box's
      inputs or outputs. */
  datatype Button = Button(box: nat, isInput: bool, index: nat)

  datatype Link = Link(src: Button, dst: Button)

  // ----- Lists -----

  function Remove<T>(s: seq<T>, gone: set<T>): seq<T> {
    if s == [] then [] else if s[0] in gone then Remove(s[1..], gone) else [s[0]] + Remove(s[1..], gone)
  }

  lemma HeadInList<T>(s: seq<T>)
    ensures s == [] || s[0] in s
  {
  }

  // One turn of an erasing loop, `done` being what has been kept so far.
  lemma RemoveNext<T>(done: seq<T>, s: seq<T>, gone: set<T>)
    requires s != []
    ensures done + Remove(s, gone) == (if s[0] in gone then done else done + [s[0]]) + Remove(s[1..], gone)
  {
    if s[0] !in gone {
      assert done + ([s[0]] + Remove(s[1..], gone)) == (done + [s[0]]) + Remove(s[1..], gone);
    }
  }

  lemma {:induction false} RemoveMembers<T>(s: seq<T>, gone: set<T>)
    ensures forall x :: x in Remove(s, gone) <==> x in s && x !in gone
    ensures |Remove(s, gone)| <= |s|
  {
    if s != [] {
      RemoveMembers(s[1..], gone);
      assert forall x :: x in s <==> x == s[0] || x in s[1..];
    }
  }

  lemma {:induction false} RemoveAppend<T>(a: seq<T>, b: seq<T>, gone: set<T>)
    ensures Remove(a + b, gone) == Remove(a, gone) + Remove(b, gone)
  {
    if a == [] {
      assert a + b == b;
    } else {
      assert (a + b)[1..] == a[1..] + b;
      RemoveAppend(a[1..], b, gone);
    }
  }

  // Only what is in the list matters.
  lemma {:induction false} RemoveSame<T>(s: seq<T>, a: set<T>, b: set<T>)
    requires forall x :: x in s ==> (x in a <==> x in b)
    ensures Remove(s, a) == Remove(s, b)
  {
    if s != [] {
      RemoveSame(s[1..], a, b);
    }
  }

  lemma {:induction false} RemoveTwice<T>(s: seq<T>, a: set<T>, b: set<T>)
    ensures Remove(Remove(s, a), b) == Remove(s, a + b)
  {
    if s != [] {
      RemoveTwice(s[1..], a, b);
    }
  }

  lemma {:induction false} RemoveNone<T>(s: seq<T>)
    ensures Remove(s, {}) == s
  {
    if s != [] {
      RemoveNone(s[1..]);
    }
  }

  ghost predicate Distinct<T>(s: seq<T>) {
    forall i, j :: 0 <= i < j < |s| ==> s[i] != s[j]
  }

  lemma {:induction false} RemoveDistinct<T>(s: seq<T>, gone: set<T>)
    requires Distinct(s)
    ensures Distinct(Remove(s, gone))
  {
    if s != [] {
      RemoveDistinct(s[1..], gone);
      RemoveMembers(s[1..], gone);
      assert forall x :: x in s[1..] ==> x != s[0];
    }
  }

  // ----- The graph as a value -----

  /** The desk's links, and for every button the buttons it lists. */
  datatype Net = Net(connects: seq<Link>, lists: map<Button, seq<Button>>)

  // The link by which button b would list c.
  ghost function LinkOf(b: Button, c: Button): Link {
    if b.isInput then Link(c, b) else Link(b, c)
  }

  // AreConnected
  ghost function Between(a: Button, b: Button): set<Link> {
    {Link(a, b), Link(b, a)}
  }

  ghost function Dropped(b: Button, list: seq<Button>, drop: set<Link>): set<Button> {
    set c | c in list && LinkOf(b, c) in drop
  }

  ghost function Kept(b: Button, list: seq<Button>, drop: set<Link>): seq<Button> {
    Remove(list, Dropped(b, list, drop))
  }

  /** The net without some links; nothing is reordered. */
  ghost function Restrict(net: Net, drop: set<Link>): Net {
    Net(Remove(net.connects, drop), map b | b in net.lists :: Kept(b, net.lists[b], drop))
  }

  /** The net with one more link, listed last everywhere. */
  ghost function Add(net: Net, src: Button, dst: Button): Net
    requires src in net.lists && dst in net.lists
  {
    Net(net.connects + [Link(src, dst)],
        map b | b in net.lists ::
          net.lists[b] + (if b == src then [dst] else []) + (if b == dst then [src] else []))
  }

  ghost predicate Closed(net: Net) {
    && (forall l :: l in net.connects ==> l.src in net.lists && l.dst in net.lists)
    && (forall b, c :: b in net.lists && c in net.lists[b] ==> c in net.lists)
  }

  ghost predicate Typed(net: Net) {
    forall l :: l in net.connects ==> !l.src.isInput && l.dst.isInput
  }

  // What a button lists is a link of the desk.
  ghost predicate Linked(net: Net) {
    forall b, c :: b in net.lists && c in net.lists[b] ==> c.isInput != b.isInput && LinkOf(b, c) in net.connects
  }

  // The buttons of a link list each other.
  ghost predicate Listed(net: Net)
    requires Closed(net)
  {
    forall l :: l in net.connects ==> l.dst in net.lists[l.src] && l.src in net.lists[l.dst]
  }

  ghost predicate Single(net: Net) {
    && Distinct(net.connects)
    && forall b :: b in net.lists ==> Distinct(net.lists[b]) && (b.isInput ==> |net.lists[b]| <= 1)
  }

  /** Consistency: links go from an output to an input, each once; a link is on the desk exactly if
      each of its buttons lists the other; no button lists another twice, and an input lists at
      most one. */
  ghost predicate Consistent(net: Net) {
    Closed(net) && Typed(net) && Linked(net) && Listed(net) && Single(net)
  }

  // What is left of one list.
  lemma KeptMembers(b: Button, list: seq<Button>, drop: set<Link>)
    ensures forall c :: c in Kept(b, list, drop) <==> c in list && LinkOf(b, c) !in drop
    ensures |Kept(b, list, drop)| <= |list| && (Distinct(list) ==> Distinct(Kept(b, list, drop)))
  {
    RemoveMembers(list, Dropped(b, list, drop));
    if Distinct(list) {
      RemoveDistinct(list, Dropped(b, list, drop));
    }
  }

  lemma RestrictMembers(net: Net, drop: set<Link>)
    ensures forall b :: b in Restrict(net, drop).lists <==> b in net.lists
    ensures forall l :: l in Restrict(net, drop).connects <==> l in net.connects && l !in drop
    ensures forall b, c :: b in net.lists ==>
              (c in Restrict(net, drop).lists[b] <==> c in net.lists[b] && LinkOf(b, c) !in drop)
  {
    RemoveMembers(net.connects, drop);
    forall b | b in net.lists
      ensures forall c :: c in Restrict(net, drop).lists[b] <==> c in net.lists[b] && LinkOf(b, c) !in drop
    {
      KeptMembers(b, net.lists[b], drop);
    }
  }

  lemma RestrictSingle(net: Net, drop: set<Link>)
    requires Single(net)
    ensures Single(Restrict(net, drop))
  {
    RemoveDistinct(net.connects, drop);
    forall b | b in net.lists
      ensures Distinct(Kept(b, net.lists[b], drop)) && |Kept(b, net.lists[b], drop)| <= |net.lists[b]|
    {
      KeptMembers(b, net.lists[b], drop);
    }
  }

  /** Removing links keeps the three records consistent. */
  lemma RestrictConsistent(net: Net, drop: set<Link>)
    requires Consistent(net)
    ensures Consistent(Restrict(net, drop))
  {
    RestrictMembers(net, drop);
    RestrictSingle(net, drop);
    hide Restrict, Single;
    RestrictListed(net, drop);
  }

  lemma RestrictListed(net: Net, drop: set<Link>)
    requires Closed(net) && Typed(net) && Listed(net)
    ensures Closed(Restrict(net, drop)) && Listed(Restrict(net, drop))
  {
    RestrictMembers(net, drop);
    var net' := Restrict(net, drop);
    hide Restrict;
    forall l | l in net'.connects ensures l.dst in net'.lists[l.src] && l.src in net'.lists[l.dst] {
      assert LinkOf(l.src, l.dst) == l == LinkOf(l.dst, l.src);
    }
  }

  lemma RestrictTwice(net: Net, a: set<Link>, b: set<Link>)
    ensures Restrict(Restrict(net, a), b) == Restrict(net, a + b)
  {
    RemoveTwice(net.connects, a, b);
    forall x | x in net.lists ensures Restrict(Restrict(net, a), b).lists[x] == Restrict(net, a + b).lists[x] {
      KeptTwice(x, net.lists[x], a, b);
    }
  }

  lemma KeptTwice(x: Button, list: seq<Button>, a: set<Link>, b: set<Link>)
    ensures Kept(x, Kept(x, list, a), b) == Kept(x, list, a + b)
  {
    var da, kept := Dropped(x, list, a), Kept(x, list, a);
    KeptMembers(x, list, a);
    RemoveSame(kept, Dropped(x, kept, b), Dropped(x, list, b));
    RemoveTwice(list, da, Dropped(x, list, b));
    RemoveSame(list, da + Dropped(x, list, b), Dropped(x, list, a + b));
  }

  lemma RestrictNone(net: Net, drop: set<Link>)
    requires drop == {}
    ensures Restrict(net, drop) == net
  {
    RemoveNone(net.connects);
    forall k | k in net.lists ensures Kept(k, net.lists[k], drop) == net.lists[k] {
      assert Dropped(k, net.lists[k], drop) == {};
      RemoveNone(net.lists[k]);
    }
  }

  // Links that are nowhere in the net do not matter.
  lemma RestrictSame(net: Net, a: set<Link>, b: set<Link>)
    requires forall l :: l in net.connects ==> (l in a <==> l in b)
    requires forall x, c :: x in net.lists && c in net.lists[x] ==> (LinkOf(x, c) in a <==> LinkOf(x, c) in b)
    ensures Restrict(net, a) == Restrict(net, b)
  {
    RemoveSame(net.connects, a, b);
    forall x | x in net.lists ensures Kept(x, net.lists[x], a) == Kept(x, net.lists[x], b) {
      RemoveSame(net.lists[x], Dropped(x, net.lists[x], a), Dropped(x, net.lists[x], b));
    }
  }

  /** A new link from an output to a free input keeps the records consistent. */
  lemma AddConsistent(net: Net, src: Button, dst: Button)
    requires Consistent(net) && src in net.lists && dst in net.lists
    requires !src.isInput && dst.isInput && net.lists[dst] == []
    ensures Consistent(Add(net, src, dst))
  {
    var net' := Add(net, src, dst);
    assert Link(src, dst) !in net.connects && dst !in net.lists[src];
    forall b, c | b in net.lists
      ensures c in net'.lists[b] <==> c in net.lists[b] || (b == src && c == dst) || (b == dst && c == src)
    {
    }
    forall l ensures l in net'.connects <==> l in net.connects || l == Link(src, dst) {
    }
  }

  // ----- Connecting -----

  ghost function BetweenAll(b: Button, others: set<Button>): set<Link> {
    set c, l | c in others && l in Between(b, c) :: l
  }

  ghost predicate Refused(net: Net, src: Button, dst: Button, connecting: (Button, Button) -> bool) {
    src.isInput == dst.isInput || !connecting(src, dst) || !connecting(dst, src)
  }

  /** Fl_OpDesk::Connect: 1 if the link exists, -1 if it is refused (nothing changes), 0 if it was
      made, replacing what the input was connected to. */
  ghost function Connected(net: Net, a: Button, b: Button, connecting: (Button, Button) -> bool): (Net, int)
    requires a in net.lists && b in net.lists
  {
    var (src, dst) := if a.isInput then (b, a) else (a, b);
    if Link(src, dst) in net.connects || Link(dst, src) in net.connects then (net, 1)
    else if Refused(net, src, dst, connecting) then (net, -1)
    else (Add(Restrict(net, BetweenAll(dst, set c | c in net.lists[dst])), src, dst), 0)
  }

  // The new set of links: those into the input are replaced by the new one.
  ghost predicate Rewired(net: Net, net': Net, src: Button, dst: Button) {
    forall l :: l in net'.connects <==> l == Link(src, dst) || (l in net.connects && l.dst != dst)
  }

  /** What a connection answers and does. 1 is for a link that exists, -1 for one that is refused: two
      buttons of the same kind, or one of the two does not accept the other; both change nothing. 0 is
      for all others: the links into the input are replaced by the new one, listed last, all others stay. */
  ghost predicate Answered(net: Net, a: Button, b: Button, connecting: (Button, Button) -> bool, net': Net, r: int) {
    var (src, dst) := if a.isInput then (b, a) else (a, b);
    var linked := Link(src, dst) in net.connects || Link(dst, src) in net.connects;
    var refused := src.isInput == dst.isInput || !connecting(src, dst) || !connecting(dst, src);
    && r == (if linked then 1 else if refused then -1 else 0)
    && (r != 0 ==> net' == net)
    && (r == 0 ==>
          && Rewired(net, net', src, dst)
          && |net'.connects| > 0 && net'.connects[|net'.connects| - 1..] == [Link(src, dst)])
  }

  /** Connecting answers so, and the records stay consistent. */
  lemma ConnectedLinks(net: Net, a: Button, b: Button, connecting: (Button, Button) -> bool)
    requires Consistent(net) && a in net.lists && b in net.lists
    ensures var (net', r) := Connected(net, a, b, connecting);
            && Consistent(net') && (forall x :: x in net'.lists <==> x in net.lists)
            && Answered(net, a, b, connecting, net', r)
  {
    var (src, dst) := if a.isInput then (b, a) else (a, b);
    NeverBackwards(net, src, dst);
    hide Consistent, Rewired, Restrict, BetweenAll, Add;
    if !Refused(net, src, dst, connecting) && Link(src, dst) !in net.connects {
      Replaced(net, src, dst);
    }
  }

  lemma NeverBackwards(net: Net, src: Button, dst: Button)
    requires Consistent(net)
    ensures Link(dst, src) in net.connects ==> src.isInput && !dst.isInput
  {
  }

  // The new link instead of those into the input.
  lemma Replaced(net: Net, src: Button, dst: Button)
    requires Consistent(net) && src in net.lists && dst in net.lists && !src.isInput && dst.isInput
    ensures var rest := Restrict(net, BetweenAll(dst, set c | c in net.lists[dst]));
            && src in rest.lists && dst in rest.lists
            && var net' := Add(rest, src, dst);
               && Consistent(net') && (forall x :: x in net'.lists <==> x in net.lists)
               && Rewired(net, net', src, dst) && |net'.connects| > 0
               && net'.connects[|net'.connects| - 1..] == [Link(src, dst)]
  {
    var rest := Restrict(net, BetweenAll(dst, set c | c in net.lists[dst]));
    Freed(net, dst);
    hide Restrict, Consistent, BetweenAll, Add;
    AddConsistent(rest, src, dst);
    AddMembers(rest, src, dst);
  }

  lemma AddMembers(net: Net, src: Button, dst: Button)
    requires src in net.lists && dst in net.lists
    ensures var net' := Add(net, src, dst);
            && (forall b :: b in net'.lists <==> b in net.lists)
            && (forall l :: l in net'.connects <==> l in net.connects || l == Link(src, dst))
            && |net'.connects| > 0 && net'.connects[|net'.connects| - 1..] == [Link(src, dst)]
  {
  }

  // Dropping what an input is connected to.
  lemma Freed(net: Net, dst: Button)
    requires Consistent(net) && dst in net.lists && dst.isInput
    ensures var rest := Restrict(net, BetweenAll(dst, set c | c in net.lists[dst]));
            && Consistent(rest) && (forall b :: b in rest.lists <==> b in net.lists) && rest.lists[dst] == []
            && forall l :: l in rest.connects <==> l in net.connects && l.dst != dst
  {
    var drop := BetweenAll(dst, set c | c in net.lists[dst]);
    LinksInto(net, dst);
    RestrictMembers(net, drop);
    RestrictConsistent(net, drop);
    hide BetweenAll, Restrict, Consistent;
    HeadInList(Restrict(net, drop).lists[dst]);
  }

  lemma LinksInto(net: Net, dst: Button)
    requires Consistent(net) && dst in net.lists && dst.isInput
    ensures var drop := BetweenAll(dst, set c | c in net.lists[dst]);
            && (forall c :: c in net.lists[dst] ==> LinkOf(dst, c) in drop)
            && (forall l :: l in net.connects ==> (l in drop <==> l.dst == dst))
  {
    var drop := BetweenAll(dst, set c | c in net.lists[dst]);
    forall c | c in net.lists[dst] ensures Link(c, dst) in drop {
      assert Link(c, dst) in Between(dst, c);
    }
    forall l | l in net.connects ensures l in drop <==> l.dst == dst {
      if l.dst == dst {
        assert l.src in net.lists[dst];
      }
    }
  }

  // The steps of connecting: the desk notes the link, then each button lists the other.
  ghost function WithLink(net: Net, src: Button, dst: Button): Net {
    net.(connects := net.connects + [Link(src, dst)])
  }

  ghost function Half(net: Net, b: Button, c: Button): Net
    requires b in net.lists
  {
    net.(lists := net.lists[b := net.lists[b] + [c]])
  }

  lemma RestrictHalf(net: Net, src: Button, dst: Button, drop: set<Link>)
    requires src in net.lists && Link(src, dst) !in drop && !src.isInput
    ensures Restrict(Half(WithLink(net, src, dst), src, dst), drop)
         == Half(WithLink(Restrict(net, drop), src, dst), src, dst)
  {
    RemoveAppend(net.connects, [Link(src, dst)], drop);
    var list := net.lists[src];
    RemoveAppend(list, [dst], Dropped(src, list + [dst], drop));
    RemoveSame(list, Dropped(src, list + [dst], drop), Dropped(src, list, drop));
    assert Kept(src, list + [dst], drop) == Kept(src, list, drop) + [dst];
  }

  lemma HalvesAdd(net: Net, src: Button, dst: Button)
    requires src in net.lists && dst in net.lists && src != dst
    ensures Half(Half(WithLink(net, src, dst), src, dst), dst, src) == Add(net, src, dst)
  {
    var x, y := Half(Half(WithLink(net, src, dst), src, dst), dst, src).lists, Add(net, src, dst).lists;
    forall b | b in net.lists ensures x[b] == y[b] {
      assert net.lists[b] + [] == net.lists[b];
    }
    assert x == y;
  }

  /** Noting the link first, the source's list next and the destination's last, after it was
      freed, makes the net that Connected describes. */
  lemma ConnectSteps(net: Net, src: Button, dst: Button)
    requires Consistent(net) && src in net.lists && dst in net.lists
    requires !src.isInput && dst.isInput && Link(src, dst) !in net.connects
    ensures var drop := BetweenAll(dst, set c | c in net.lists[dst]);
            Half(Restrict(Half(WithLink(net, src, dst), src, dst), drop), dst, src)
              == Add(Restrict(net, drop), src, dst)
  {
    var drop := BetweenAll(dst, set c | c in net.lists[dst]);
    assert src !in net.lists[dst] by {
      assert LinkOf(dst, src) == Link(src, dst);
    }
    assert Link(src, dst) !in drop;
    RestrictHalf(net, src, dst, drop);
    RestrictMembers(net, drop);
    hide Restrict, BetweenAll, Consistent, Half, WithLink, Add;
    HalvesAdd(Restrict(net, drop), src, dst);
  }

  // Dropping one more entry of a button's list, until it is empty.
  lemma DropNext(net: Net, b: Button, done: set<Button>)
    requires b in net.lists
    ensures var drop := BetweenAll(b, done);
            && (forall c :: Disconnected(Restrict(net, drop), b, c) == Restrict(net, BetweenAll(b, done + {c})))
            && (forall c :: c in net.lists[b] && c in done ==> c !in Restrict(net, drop).lists[b])
            && (Restrict(net, drop).lists[b] == [] && done <= (set c | c in net.lists[b]) ==>
                  done == set c | c in net.lists[b])
  {
    var drop := BetweenAll(b, done);
    forall c ensures Disconnected(Restrict(net, drop), b, c) == Restrict(net, BetweenAll(b, done + {c})) {
      RestrictTwice(net, drop, Between(b, c));
      assert drop + Between(b, c) == BetweenAll(b, done + {c});
    }
    RestrictMembers(net, drop);
    forall c ensures LinkOf(b, c) in drop <==> c in done {
      if c in done {
        assert LinkOf(b, c) in Between(b, c);
      }
    }
  }

  // ----- Disconnecting -----

  /** Fl_OpDesk::Disconnect and Fl_OpButton::Disconnect. */
  ghost function Disconnected(net: Net, a: Button, b: Button): Net {
    Restrict(net, Between(a, b))
  }

  /** Fl_OpButton::DisconnectAll. */
  ghost function ButtonDisconnected(net: Net, b: Button): Net
    requires b in net.lists
  {
    Restrict(net, BetweenAll(b, set c | c in net.lists[b]))
  }

  // Links with an end at the box.
  ghost function Touching(net: Net, box: nat): set<Link> {
    set l | l in net.connects && (l.src.box == box || l.dst.box == box)
  }

  lemma TouchingLinks(net: Net, box: nat)
    ensures forall l :: l in Touching(net, box) ==> l in net.connects
    ensures BoxDisconnected(net, box) == Restrict(net, Touching(net, box))
  {
  }

  // The first t links have no end at the box.
  ghost predicate Apart(links: seq<Link>, t: nat, box: nat) {
    t <= |links| && forall k :: 0 <= k < t ==> links[k].src.box != box && links[k].dst.box != box
  }

  // The next link is apart too, or it touches the box and differs from those before it.
  lemma ApartNext(net: Net, links: seq<Link>, t: nat, box: nat)
    requires Apart(links, t, box) && t < |links| && forall l :: l in links ==> l in net.connects
    ensures if links[t].src.box == box || links[t].dst.box == box
            then links[t] in Touching(net, box) && forall k :: 0 <= k < t ==> links[k] != links[t]
            else Apart(links, t + 1, box)
  {
    assert links[t] in links;
  }

  lemma ApartPrefix(links: seq<Link>, links': seq<Link>, t: nat, box: nat)
    requires Apart(links, t, box) && links[..t] <= links'
    ensures Apart(links', t, box)
  {
    forall k | 0 <= k < t ensures links'[k] == links[k] {
      assert links'[k] == links[..t][k];
    }
  }

  lemma AllApart(net: Net, links: seq<Link>, box: nat)
    requires Apart(links, |links|, box)
    ensures forall l :: l in links ==> l !in Touching(net, box)
  {
  }

  /** Fl_OpDesk::Disconnect of a box. */
  ghost function BoxDisconnected(net: Net, box: nat): Net {
    Restrict(net, Touching(net, box))
  }

  /** Fl_OpDesk::DisconnectAll. */
  ghost function AllDisconnected(net: Net): Net {
    Restrict(net, set l | l in net.connects)
  }

  // Pulling one link after another.
  lemma PulledOne(net: Net, drop: set<Link>, src: Button, dst: Button)
    requires Consistent(net) && Link(src, dst) in Restrict(net, drop).connects
    ensures Disconnected(Restrict(net, drop), src, dst) == Restrict(net, drop + {Link(src, dst)})
    ensures |Restrict(net, drop + {Link(src, dst)}).connects| < |Restrict(net, drop).connects|
  {
    RestrictTwice(net, drop, Between(src, dst));
    RestrictMembers(net, drop);
    RestrictSame(net, drop + Between(src, dst), drop + {Link(src, dst)});
    RemoveLess(Restrict(net, drop).connects, Between(src, dst), Link(src, dst));
  }

  // When the kept links no longer touch the box, exactly the touching ones have been dropped.
  lemma PulledAll(net: Net, drop: set<Link>, gone: set<Link>)
    requires drop <= gone && (forall l :: l in gone ==> l in net.connects)
    requires forall l :: l in Restrict(net, drop).connects ==> l !in gone
    ensures drop == gone
  {
    RestrictMembers(net, drop);
    assert forall l :: l in gone ==> l in drop;
  }

  lemma RemoveKeepsPrefix<T>(s: seq<T>, t: nat, gone: set<T>)
    requires t <= |s| && forall x :: x in s[..t] ==> x !in gone
    ensures s[..t] <= Remove(s, gone)
  {
    assert s == s[..t] + s[t..];
    RemoveAppend(s[..t], s[t..], gone);
    RemoveSame(s[..t], gone, {});
    RemoveNone(s[..t]);
  }

  lemma {:induction false} RemoveLess<T>(s: seq<T>, gone: set<T>, x: T)
    requires x in s && x in gone
    ensures |Remove(s, gone)| < |s|
  {
    RemoveMembers(s[1..], gone);
    if s[0] !in gone {
      RemoveLess(s[1..], gone, x);
    }
  }

  // ----- Runs -----

  datatype Op =
    | NewButton(b: Button)
    | DeleteBox(box: nat)
    | Connect(a: Button, b: Button)
    | Disconnect(a: Button, b: Button)
    | DisconnectButton(b: Button)
    | DisconnectBox(box: nat)
    | DisconnectAll

  /** One operation of the desk or of a button; those that name a button or box it does not have do
      nothing, and a button is added only if it is new. */
  ghost function Step(net: Net, op: Op, connecting: (Button, Button) -> bool): Net {
    match op
    case NewButton(b) => if b in net.lists then net else WithButton(net, b)
    case DeleteBox(box) => WithoutBox(BoxDisconnected(net, box), box)
    case Connect(a, b) => if a in net.lists && b in net.lists then Connected(net, a, b, connecting).0 else net
    case Disconnect(a, b) => Disconnected(net, a, b)
    case DisconnectButton(b) => if b in net.lists then ButtonDisconnected(net, b) else net
    case DisconnectBox(box) => BoxDisconnected(net, box)
    case DisconnectAll => AllDisconnected(net)
  }

  ghost function WithButton(net: Net, b: Button): Net {
    Net(net.connects, net.lists[b := []])
  }

  ghost function WithoutBox(net: Net, box: nat): Net {
    Net(net.connects, map b | b in net.lists && b.box != box :: net.lists[b])
  }

  ghost function Run(net: Net, ops: seq<Op>, connecting: (Button, Button) -> bool): Net
    decreases |ops|
  {
    if ops == [] then net else Run(Step(net, ops[0], connecting), ops[1..], connecting)
  }

  lemma ButtonAdded(net: Net, b: Button)
    requires Consistent(net) && b !in net.lists
    ensures Consistent(WithButton(net, b))
  {
  }

  // A box without links can go.
  lemma WithoutBoxConsistent(net: Net, box: nat)
    requires Consistent(net) && forall l :: l in net.connects ==> l.src.box != box && l.dst.box != box
    ensures Consistent(WithoutBox(net, box))
  {
    var net' := WithoutBox(net, box);
    forall b, c | b in net'.lists && c in net'.lists[b] ensures c in net'.lists {
      assert LinkOf(b, c) in net.connects;
    }
    assert Closed(net') && Typed(net') && Linked(net') && Single(net');
    hide Linked, Single, Typed, LinkOf;
  }

  ghost function WithoutButton(net: Net, b: Button): Net {
    Net(net.connects, map k | k in net.lists && k != b :: net.lists[k])
  }

  /** A button deleted on its own, as its destructor does it, leaves the records consistent if and
      only if it was connected to nothing. */
  lemma ButtonDeleted(net: Net, b: Button)
    requires Consistent(net) && b in net.lists
    ensures Consistent(WithoutButton(net, b)) <==> net.lists[b] == []
  {
    var net' := WithoutButton(net, b);
    if net.lists[b] == [] {
      forall k, c | k in net'.lists && c in net'.lists[k] ensures c in net'.lists {
        assert LinkOf(k, c) in net.connects;
      }
      forall l | l in net.connects ensures l.src != b && l.dst != b {
      }
      assert Closed(net') && Typed(net') && Linked(net') && Single(net');
      hide Linked, Single, Typed, LinkOf;
    } else {
      var c := net.lists[b][0];
      assert c in net.lists[b] && LinkOf(b, c) in net'.connects;
      assert !Closed(net');
    }
  }

  lemma BoxDeleted(net: Net, box: nat)
    requires Consistent(net)
    ensures Consistent(WithoutBox(BoxDisconnected(net, box), box))
  {
    var drop := Touching(net, box);
    RestrictConsistent(net, drop);
    RestrictMembers(net, drop);
    hide Restrict, WithoutBox, Consistent;
    WithoutBoxConsistent(Restrict(net, drop), box);
  }

  // ----- What disconnecting and deleting leave -----

  /** Removing from a list: the others stay, in order. */
  lemma {:induction false} RemoveLaw<T>(s: seq<T>, x: T, gone: set<T>)
    ensures Remove([], gone) == []
    ensures Remove(s + [x], gone) == Remove(s, gone) + if x in gone then [] else [x]
  {
    RemoveAppend(s, [x], gone);
    assert Remove([x], gone) == if x in gone then [] else [x];
  }

  /** Disconnecting two buttons removes the link between them, in either direction, and nothing else. */
  lemma DisconnectedLinks(net: Net, a: Button, b: Button)
    requires Consistent(net)
    ensures var net' := Disconnected(net, a, b);
            && Consistent(net') && (forall x :: x in net'.lists <==> x in net.lists)
            && forall l :: l in net'.connects <==>
                 l in net.connects && !(l.src == a && l.dst == b) && !(l.src == b && l.dst == a)
  {
    RestrictConsistent(net, Between(a, b));
    RestrictMembers(net, Between(a, b));
    hide Restrict, Consistent;
  }

  /** Disconnecting a button removes exactly the links it is an end of. */
  lemma ButtonDisconnectedLinks(net: Net, b: Button)
    requires Consistent(net) && b in net.lists
    ensures var net' := ButtonDisconnected(net, b);
            && Consistent(net') && (forall x :: x in net'.lists <==> x in net.lists)
            && forall l :: l in net'.connects <==> l in net.connects && l.src != b && l.dst != b
  {
    var drop := BetweenAll(b, set c | c in net.lists[b]);
    forall l | l in net.connects ensures l in drop <==> l.src == b || l.dst == b {
      if l.src == b {
        assert l in Between(b, l.dst) && l.dst in net.lists[b];
      } else if l.dst == b {
        assert l in Between(b, l.src) && l.src in net.lists[b];
      }
    }
    RestrictConsistent(net, drop);
    RestrictMembers(net, drop);
    hide Restrict, Consistent, BetweenAll;
  }

  /** Disconnecting a box removes exactly the links that have an end at it; deleting it, its buttons too. */
  lemma BoxDeletedLinks(net: Net, box: nat)
    requires Consistent(net)
    ensures var net' := BoxDisconnected(net, box);
            && Consistent(net') && (forall x :: x in net'.lists <==> x in net.lists)
            && forall l :: l in net'.connects <==> l in net.connects && l.src.box != box && l.dst.box != box
    ensures var net' := WithoutBox(BoxDisconnected(net, box), box);
            && Consistent(net') && (forall x :: x in net'.lists <==> x in net.lists && x.box != box)
            && forall l :: l in net'.connects <==> l in net.connects && l.src.box != box && l.dst.box != box
  {
    BoxDeleted(net, box);
    RestrictConsistent(net, Touching(net, box));
    RestrictMembers(net, Touching(net, box));
    hide Restrict, Consistent;
  }

  /** A new button is connected to nothing and changes nothing else. */
  lemma ButtonAddedLinks(net: Net, b: Button)
    requires Consistent(net) && b !in net.lists
    ensures var net' := WithButton(net, b);
            && Consistent(net') && net'.connects == net.connects && net'.lists.Keys == net.lists.Keys + {b}
            && net'.lists[b] == [] && forall x :: x in net.lists ==> net'.lists[x] == net.lists[x]
  {
    ButtonAdded(net, b);
    hide Consistent;
  }

  /** After disconnecting all nothing is connected. */
  lemma AllGone(net: Net)
    requires Consistent(net)
    ensures var net' := AllDisconnected(net);
            net'.connects == [] && forall b :: b in net.lists ==> b in net'.lists && net'.lists[b] == []
  {
    var drop := set l | l in net.connects;
    RestrictMembers(net, drop);
    var net' := AllDisconnected(net);
    hide Restrict;
    HeadInList(net'.connects);
    forall b | b in net.lists ensures net'.lists[b] == [] {
      HeadInList(net'.lists[b]);
    }
  }

  /** Every run of the desk's operations keeps the three records of every link consistent. */
  lemma {:induction false} RunConsistent(net: Net, ops: seq<Op>, connecting: (Button, Button) -> bool)
    requires Consistent(net)
    ensures Consistent(Run(net, ops, connecting))
    decreases |ops|
  {
    if ops != [] {
      StepConsistent(net, ops[0], connecting);
      hide Step, Consistent;
      RunConsistent(Step(net, ops[0], connecting), ops[1..], connecting);
    }
  }

  lemma StepConsistent(net: Net, op: Op, connecting: (Button, Button) -> bool)
    requires Consistent(net)
    ensures Consistent(Step(net, op, connecting))
  {
    hide Consistent, Restrict, Add, Connected;
    match op
    case NewButton(b) =>
      if b !in net.lists {
        ButtonAdded(net, b);
      }
    case DeleteBox(box) => BoxDeleted(net, box);
    case Connect(a, b) =>
      if a in net.lists && b in net.lists {
        ConnectedLinks(net, a, b, connecting);
      }
    case Disconnect(a, b) => RestrictConsistent(net, Between(a, b));
    case DisconnectButton(b) =>
      if b in net.lists {
        RestrictConsistent(net, BetweenAll(b, set c | c in net.lists[b]));
      }
    case DisconnectBox(box) => RestrictConsistent(net, Touching(net, box));
    case DisconnectAll => RestrictConsistent(net, set l | l in net.connects);
  }
}
