/** Buttons, boxes and the desk: objects that tell each other about connections. */
module OpDesks {
  import opened OpNet

  function Ids(s: seq<OpButton>): seq<Button> {
    seq(|s|, i requires 0 <= i < |s| => s[i].id)
  }

  function Links(s: seq<OpConnect>): seq<Link> {
    seq(|s|, i requires 0 <= i < |s| => Link(s[i].src.id, s[i].dst.id))
  }

  lemma LinksPop(s: seq<OpConnect>, links: seq<Link>, l: Link)
    requires Links(s) == links + [l]
    ensures s != [] && Links(s[..|s| - 1]) == links
  {
    assert |Links(s)| == |s|;
    assert Links(s[..|s| - 1]) == Links(s)[..|s| - 1];
  }

  // The buttons of a list are those the desk knows under their identities.
  ghost predicate Known(at: map<Button, OpButton>, s: seq<OpButton>) {
    forall i :: 0 <= i < |s| ==> s[i].id in at && at[s[i].id] == s[i]
  }

  ghost predicate KnownLinks(at: map<Button, OpButton>, s: seq<OpConnect>) {
    forall i :: 0 <= i < |s| ==> Known(at, [s[i].src, s[i].dst])
  }

  datatype OpConnect = OpConnect(src: OpButton, dst: OpButton)

  lemma RemoveEmpty<T>(gone: set<T>)
    ensures Remove([], gone) == []
  {
  }

  class OpButton {
    const id: Button
    const name: string
    const box: OpBox
    const desk: OpDesk
    var connectedTo: seq<OpButton>

    constructor (id: Button, name: string, box: OpBox, desk: OpDesk)
      ensures this.id == id && this.name == name && this.box == box && this.desk == desk && connectedTo == []
    {
      this.id, this.name, this.box, this.desk, connectedTo := id, name, box, desk, [];
    }

    // _RemoveConnect and _DisconnectOnly: every entry for the other button is erased.
    method DisconnectOnly(but: OpButton, ghost at: map<Button, OpButton>)
      requires Known(at, connectedTo) && Known(at, [but])
      modifies this`connectedTo
      ensures Known(at, connectedTo) && Ids(connectedTo) == Remove(old(Ids(connectedTo)), {but.id})
    {
      hide Remove;
      ghost var was := connectedTo;
      var t := 0;
      ghost var rest := was;
      assert Ids(connectedTo[..0]) == [];
      assert [but][0] == but;
      while t < |connectedTo|
        invariant t <= |connectedTo| && rest == connectedTo[t..] && Known(at, connectedTo)
        invariant Ids(connectedTo[..t]) + Remove(Ids(rest), {but.id}) == Remove(Ids(was), {but.id})
        decreases |connectedTo| - t
      {
        assert Ids(rest)[1..] == Ids(rest[1..]);
        RemoveNext(Ids(connectedTo[..t]), Ids(rest), {but.id});
        if connectedTo[t] == but {
          connectedTo := connectedTo[..t] + connectedTo[t + 1..];
        } else {
          assert Ids(connectedTo[..t + 1]) == Ids(connectedTo[..t]) + [connectedTo[t].id];
          t := t + 1;
        }
        rest := rest[1..];
      }
      RemoveEmpty({but.id});
      assert connectedTo[..t] == connectedTo && Ids(rest) == [];
    }

    /** Disconnect: both buttons and the desk forget the link. */
    method Disconnect(but: OpButton)
      requires desk.Valid() && desk.Owns(this) && desk.Owns(but)
      modifies desk`connects, desk.at.Values
      ensures desk.Valid() && desk.at == old(desk.at)
      ensures desk.View() == Disconnected(old(desk.View()), id, but.id)
    {
      hide Remove, Ids;
      ghost var net := desk.View();
      DisconnectOnly(but, desk.at);
      but.DisconnectOnly(this, desk.at);
      var _ := desk.DisconnectOnly(this, but);
      DisconnectIsRestrict(net, desk.View(), id, but.id);
    }

    /** DisconnectAll: the list is emptied, all other buttons and the desk are told. */
    method DisconnectAll()
      requires desk.Valid() && desk.Owns(this)
      modifies desk`connects, desk.at.Values
      ensures desk.Valid() && desk.at == old(desk.at)
      ensures desk.View() == ButtonDisconnected(old(desk.View()), id)
    {
      hide Remove;
      ghost var net := desk.View();
      ghost var done: set<Button> := {};
      RestrictNone(net, BetweenAll(id, {}));
      while |connectedTo| > 0
        invariant desk.Valid() && desk.at == old(desk.at)
        invariant done <= (set c | c in net.lists[id])
        invariant desk.View() == Restrict(net, BetweenAll(id, done))
        decreases |connectedTo|
      {
        var c := connectedTo[0];
        ghost var before := desk.View();
        assert before.lists[id] == Ids(connectedTo) && before.lists[id][0] == c.id;
        DropNext(net, id, done);
        RestrictMembers(net, BetweenAll(id, done));
        Disconnect(c);
        DropShorter(before, id, c.id);
        done := done + {c.id};
      }
      DropNext(net, id, done);
      assert desk.View().lists[id] == Ids(connectedTo) == [];
    }

    // connected_to.push_back
    method Append(but: OpButton)
      requires desk.Valid() && desk.Owns(this) && desk.Owns(but)
      modifies this`connectedTo
      ensures desk.Valid() && desk.View() == Half(old(desk.View()), id, but.id)
    {
      ghost var net := desk.View();
      assert Ids(connectedTo + [but]) == Ids(connectedTo) + [but.id];
      connectedTo := connectedTo + [but];
    }

    /** _ConnectToOnly: an input drops what it was connected to. */
    method ConnectToOnly(but: OpButton) returns (r: int)
      requires desk.Valid() && desk.Owns(this) && desk.Owns(but)
      modifies desk`connects, desk.at.Values
      ensures desk.Valid() && desk.at == old(desk.at)
      ensures var net := old(desk.View());
              var refused := but.id.isInput == id.isInput || !desk.connecting(id, but.id);
              var freed := if id.isInput then Restrict(net, BetweenAll(id, set c | c in net.lists[id])) else net;
              && r == (if refused then -1 else 0)
              && desk.View() == if refused then net else Half(freed, id, but.id)
    {
      if but.id.isInput == id.isInput { return -1; }
      if !desk.connecting(id, but.id) { return -1; }
      if id.isInput {
        DisconnectAll();
      }
      Append(but);
      r := 0;
    }

    /** ConnectTo, as the desk calls it once it has noted the new link. */
    method ConnectTo(but: OpButton, ghost net: Net) returns (r: int)
      requires desk.Valid() && desk.Owns(this) && desk.Owns(but) && Consistent(net)
      requires !id.isInput || but.id.isInput
      requires Link(id, but.id) !in net.connects && Link(but.id, id) !in net.connects
      requires desk.View() == WithLink(net, id, but.id)
      modifies desk`connects, desk.at.Values
      ensures desk.Valid() && desk.at == old(desk.at)
      ensures Refused(net, id, but.id, desk.connecting) ==> r == -1 && desk.View() == old(desk.View())
      ensures !Refused(net, id, but.id, desk.connecting) ==>
                r == 0 && desk.View() ==
                  Add(Restrict(net, BetweenAll(but.id, set c | c in net.lists[but.id])), id, but.id)
    {
      hide Restrict, BetweenAll, Consistent, Remove;
      r := ConnectToOnly(but);
      if r < 0 { return -1; }
      r := but.ConnectToOnly(this);
      if r < 0 {
        Undone(net, id, but.id);
        DisconnectOnly(but, desk.at);
        return -1;
      }
      ConnectSteps(net, id, but.id);
      Noted(net, id, but.id);
      r := desk.ConnectOnly(this, but);
      assert r == 1;  // the desk has the link, so it cannot refuse
      r := 0;
    }
  }

  // The entry just made is erased again.
  lemma Undone(net: Net, src: Button, dst: Button)
    requires Consistent(net) && src in net.lists && Link(src, dst) !in net.connects && !src.isInput
    ensures Remove(net.lists[src] + [dst], {dst}) == net.lists[src]
  {
    assert dst !in net.lists[src];
    RemoveAppend(net.lists[src], [dst], {dst});
    RemoveSame(net.lists[src], {dst}, {});
    RemoveNone(net.lists[src]);
  }

  lemma Noted(net: Net, src: Button, dst: Button)
    requires src in net.lists && dst in net.lists
    ensures Link(src, dst) in Add(Restrict(net, BetweenAll(dst, set c | c in net.lists[dst])), src, dst).connects
  {
  }

  lemma DropShorter(net: Net, b: Button, c: Button)
    requires b in net.lists && c in net.lists[b]
    ensures |Disconnected(net, b, c).lists[b]| < |net.lists[b]|
  {
    RemoveLess(net.lists[b], Dropped(b, net.lists[b], Between(b, c)), c);
  }

  ghost function Forgotten(s: seq<Button>, yes: bool, b: Button): seq<Button> {
    if yes then Remove(s, {b}) else s
  }

  class OpBox {
    const num: nat
    var inputs: seq<OpButton>
    var outputs: seq<OpButton>
    var traversed: bool  // used by the application when it orders the boxes

    constructor (num: nat)
      ensures this.num == num && inputs == [] && outputs == [] && !traversed
    {
      this.num, inputs, outputs, traversed := num, [], [], false;
    }

    function Buttons(): seq<OpButton>
      reads this`inputs, this`outputs
    {
      inputs + outputs
    }

    // The buttons of the box are the desk's buttons with its number, in order.
    ghost predicate OnDesk(at: map<Button, OpButton>)
      reads this`inputs, this`outputs
    {
      && Known(at, inputs) && (forall k :: 0 <= k < |inputs| ==> inputs[k].id == Button(num, true, k))
      && Known(at, outputs) && (forall k :: 0 <= k < |outputs| ==> outputs[k].id == Button(num, false, k))
      && (forall b :: b in at && b.box == num ==> b.index < if b.isInput then |inputs| else |outputs|)
    }

    // _AddInputButton and _AddOutputButton
    method AddButton(b: OpButton, ghost at: map<Button, OpButton>, ghost at': map<Button, OpButton>)
      requires OnDesk(at) && at' == at[b.id := b] && b.id !in at
      requires b.id == Button(num, b.id.isInput, if b.id.isInput then |inputs| else |outputs|)
      modifies this`inputs, this`outputs
      ensures OnDesk(at')
      ensures inputs == if b.id.isInput then old(inputs) + [b] else old(inputs)
      ensures outputs == if b.id.isInput then old(outputs) else old(outputs) + [b]
    {
      if b.id.isInput {
        inputs := inputs + [b];
      } else {
        outputs := outputs + [b];
      }
    }

    ghost predicate UniqueNames()
      reads this
    {
      forall i, j :: 0 <= i < j < |Buttons()| ==> Buttons()[i].name != Buttons()[j].name
    }

    /** The buttons of two boxes bear the same names in the same order. */
    ghost predicate Mirrors(copy: OpBox)
      reads this, copy
    {
      && |copy.inputs| == |inputs| && |copy.outputs| == |outputs|
      && (forall k :: 0 <= k < |inputs| ==> copy.inputs[k].name == inputs[k].name)
      && (forall k :: 0 <= k < |outputs| ==> copy.outputs[k].name == outputs[k].name)
    }

    /** FindButtonByLabel: the first button of that name. */
    method FindButtonByLabel(name: string) returns (r: OpButton?)
      ensures r != null ==> exists i :: 0 <= i < |Buttons()| && Buttons()[i] == r && r.name == name
                                        && forall j :: 0 <= j < i ==> Buttons()[j].name != name
      ensures r == null ==> forall i :: 0 <= i < |Buttons()| ==> Buttons()[i].name != name
    {
      var t, all := 0, inputs + outputs;
      while t < |all|
        invariant t <= |all| && forall j :: 0 <= j < t ==> all[j].name != name
      {
        if all[t].name == name {
          assert Buttons()[t] == all[t];
          return all[t];
        }
        t := t + 1;
      }
      r := null;
    }
  }

  // Without the first entry for x.
  function Erased<T(==)>(s: seq<T>, x: T): seq<T> {
    if s == [] then [] else if s[0] == x then s[1..] else [s[0]] + Erased(s[1..], x)
  }

  method IndexOf<T(==)>(s: seq<T>, x: T) returns (t: nat)
    ensures t <= |s| && (t < |s| ==> s[t] == x) && forall k :: 0 <= k < t ==> s[k] != x
  {
    t := 0;
    while t < |s| && s[t] != x
      invariant t <= |s| && forall k :: 0 <= k < t ==> s[k] != x
    {
      t := t + 1;
    }
  }

  lemma {:induction false} ErasedAt<T>(s: seq<T>, x: T, t: nat)
    requires t <= |s| && (t < |s| ==> s[t] == x) && forall k :: 0 <= k < t ==> s[k] != x
    ensures Erased(s, x) == if t < |s| then s[..t] + s[t + 1..] else s
  {
    if t > 0 {
      ErasedAt(s[1..], x, t - 1);
      if t < |s| {
        assert s[1..][..t - 1] == s[1..t] && s[..t] == [s[0]] + s[1..t] && s[1..][t..] == s[t + 1..];
      }
    }
  }

  // After its links have gone nothing touches the box.
  lemma BoxApart(net: Net, box: nat)
    requires Consistent(net)
    ensures Consistent(BoxDisconnected(net, box))
    ensures forall l :: l in BoxDisconnected(net, box).connects ==> l.src.box != box && l.dst.box != box
  {
    RestrictConsistent(net, Touching(net, box));
    RestrictMembers(net, Touching(net, box));
    hide Restrict, Consistent;
  }

  // Both lists and the desk's list without the pair.
  lemma DisconnectIsRestrict(net: Net, net': Net, a: Button, b: Button)
    requires net'.connects == Remove(net.connects, Between(a, b)) && net'.lists.Keys == net.lists.Keys
    requires forall k :: k in net.lists ==>
               k in net'.lists && net'.lists[k] == Forgotten(Forgotten(net.lists[k], k == a, b), k == b, a)
    ensures net' == Disconnected(net, a, b)
  {
    forall k | k in net.lists ensures net'.lists[k] == Kept(k, net.lists[k], Between(a, b)) {
      var s := net.lists[k];
      var x, y := if k == a then {b} else {}, if k == b then {a} else {};
      RemoveNone(s);
      RemoveNone(Remove(s, x));
      assert Forgotten(Forgotten(s, k == a, b), k == b, a) == Remove(Remove(s, x), y);
      RemoveTwice(s, x, y);
      RemoveSame(s, x + y, Dropped(k, s, Between(a, b)));
    }
  }

  class OpDesk {
    var connects: seq<OpConnect>
    var boxes: seq<OpBox>
    var clipboard: seq<OpBox>
    ghost var at: map<Button, OpButton>

    // What the Connecting methods of the buttons answer.
    const connecting: (Button, Button) -> bool

    ghost predicate Owns(b: OpButton)
      reads this`at
    {
      b.id in at && at[b.id] == b
    }

    ghost predicate Valid()
      reads this`connects, this`at, at.Values
    {
      && (forall k :: k in at ==> at[k].id == k && at[k].desk == this && Known(at, at[k].connectedTo))
      && KnownLinks(at, connects)
    }

    ghost function View(): Net
      reads this`connects, this`at, at.Values
    {
      Net(Links(connects), map k | k in at :: Ids(at[k].connectedTo))
    }

    constructor (connecting: (Button, Button) -> bool)
      ensures Valid() && View() == Net([], map[]) && Consistent(View()) && this.connecting == connecting
    {
      this.connecting, connects, at := connecting, [], map[];
      boxes, clipboard := [], [];
    }

    // _AddBox
    method AddBox(box: OpBox)
      modifies this`boxes
      ensures boxes == old(boxes) + [box]
    {
      boxes := boxes + [box];
    }

    // _RemoveBox: the first entry for the box goes, on the desk and on the clipboard.
    method RemoveBox(box: OpBox)
      modifies this`boxes, this`clipboard
      ensures boxes == Erased(old(boxes), box) && clipboard == Erased(old(clipboard), box)
    {
      var t := IndexOf(boxes, box);
      ErasedAt(boxes, box, t);
      if t < |boxes| {
        boxes := boxes[..t] + boxes[t + 1..];
      }
      t := IndexOf(clipboard, box);
      ErasedAt(clipboard, box, t);
      if t < |clipboard| {
        clipboard := clipboard[..t] + clipboard[t + 1..];
      }
    }

    /** DeleteBox: the links at the box go, then the box and its buttons. */
    method DeleteBox(box: OpBox)
      requires Valid() && Consistent(View())
      modifies this`connects, this`at, this`boxes, this`clipboard, at.Values
      ensures Valid() && Consistent(View()) && View() == WithoutBox(BoxDisconnected(old(View()), box.num), box.num)
      ensures at == map k | k in old(at) && k.box != box.num :: old(at)[k]
      ensures boxes == Erased(old(boxes), box) && clipboard == Erased(old(clipboard), box)
    {
      hide *;
      ghost var net := View();
      var _ := DisconnectBox(box.num);
      BoxDeleted(net, box.num);
      BoxApart(net, box.num);
      Unregister(box.num);
      RemoveBox(box);
    }

    ghost method Unregister(box: nat)
      requires Valid() && Consistent(View())
      requires forall l :: l in View().connects ==> l.src.box != box && l.dst.box != box
      modifies this`at
      ensures Valid() && at == (map k | k in old(at) && k.box != box :: old(at)[k])
      ensures View() == WithoutBox(old(View()), box)
    {
      hide Consistent;
      ghost var net := View();
      ghost var rest := map k | k in at && k.box != box :: at[k];
      forall k | k in rest ensures Known(rest, rest[k].connectedTo) {
        StaysKnown(net, box, k);
      }
      forall i | 0 <= i < |connects| ensures Known(rest, [connects[i].src, connects[i].dst]) {
        assert Links(connects)[i] in net.connects;
        assert [connects[i].src, connects[i].dst][0] == connects[i].src;
        assert [connects[i].src, connects[i].dst][1] == connects[i].dst;
      }
      at := rest;
      assert View().lists == WithoutBox(net, box).lists;
    }

    // What a button of another box lists is not of this one.
    lemma StaysKnown(net: Net, box: nat, k: Button)
      requires Valid() && net == View() && Consistent(net) && k in at && k.box != box
      requires forall l :: l in net.connects ==> l.src.box != box && l.dst.box != box
      ensures forall i :: 0 <= i < |at[k].connectedTo| ==> at[k].connectedTo[i].id.box != box
    {
      forall i | 0 <= i < |at[k].connectedTo| ensures at[k].connectedTo[i].id.box != box {
        var c := at[k].connectedTo[i].id;
        assert net.lists[k][i] == c;
        assert LinkOf(k, c) in net.connects;
      }
    }

    /** A new button joins its box unconnected, behind the box's other inputs or outputs. */
    method NewButton(box: OpBox, isInput: bool, name: string) returns (b: OpButton)
      requires Valid() && Consistent(View()) && box.OnDesk(at)
      modifies this`at, box`inputs, box`outputs
      ensures Valid() && Consistent(View()) && box.OnDesk(at) && fresh(b)
      ensures b.id == Button(box.num, isInput, old(if isInput then |box.inputs| else |box.outputs|))
      ensures b.id !in old(at) && at == old(at)[b.id := b] && b.name == name && b.box == box
      ensures View() == WithButton(old(View()), b.id)
    {
      hide *;
      var id := Button(box.num, isInput, if isInput then |box.inputs| else |box.outputs|);
      ghost var net := View();
      NextIdFree(net, box, id);
      b := new OpButton(id, name, box, this);
      ghost var was := at;
      Register(b);
      box.AddButton(b, was, at);
      ButtonAdded(net, id);
    }

    lemma NextIdFree(net: Net, box: OpBox, id: Button)
      requires box.OnDesk(at) && id == Button(box.num, id.isInput, if id.isInput then |box.inputs| else |box.outputs|)
      requires net == View()
      ensures id !in at && id !in net.lists
    {
    }

    ghost method Register(b: OpButton)
      requires Valid() && b.id !in at && b.connectedTo == [] && b.desk == this
      modifies this`at
      ensures Valid() && at == old(at)[b.id := b]
      ensures View() == WithButton(old(View()), b.id)
    {
      ghost var net := View();
      at := at[b.id := b];
      assert Ids(b.connectedTo) == [];
      forall k | k in at ensures View().lists[k] == net.lists[b.id := []][k] {
      }
      assert View().lists == net.lists[b.id := []];
    }

    // _DisconnectOnly
    method DisconnectOnly(a: OpButton, b: OpButton) returns (count: nat)
      requires KnownLinks(at, connects) && Owns(a) && Owns(b)
      modifies this`connects
      ensures KnownLinks(at, connects) && Links(connects) == Remove(old(Links(connects)), Between(a.id, b.id))
      ensures count == old(|connects|) - |connects|
    {
      count := 0;
      hide Remove;
      ghost var was := connects;
      var t := 0;
      ghost var rest := was;
      assert Links(connects[..0]) == [];
      while t < |connects|
        invariant t <= |connects| && rest == connects[t..] && KnownLinks(at, connects)
        invariant Links(connects[..t]) + Remove(Links(rest), Between(a.id, b.id))
               == Remove(Links(was), Between(a.id, b.id))
        invariant count + |connects| == |was|
        decreases |connects| - t
      {
        var c := connects[t];
        assert Links(rest)[1..] == Links(rest[1..]);
        RemoveNext(Links(connects[..t]), Links(rest), Between(a.id, b.id));
        assert [c.src, c.dst][0] == c.src && [c.src, c.dst][1] == c.dst;
        if (c.src == a && c.dst == b) || (c.src == b && c.dst == a) {
          connects := connects[..t] + connects[t + 1..];
          count := count + 1;
        } else {
          assert Links(connects[..t + 1]) == Links(connects[..t]) + [Link(c.src.id, c.dst.id)];
          t := t + 1;
        }
        rest := rest[1..];
      }
      RemoveEmpty(Between(a.id, b.id));
      assert connects[..t] == connects && Links(rest) == [];
    }

    // _ConnectOnly
    method ConnectOnly(src: OpButton, dst: OpButton) returns (r: int)
      requires Valid() && Owns(src) && Owns(dst)
      modifies this`connects
      ensures Valid()
      ensures var net := old(View());
              if Link(src.id, dst.id) in net.connects || Link(dst.id, src.id) in net.connects
              then r == 1 && View() == net
              else r == 0 && View() == WithLink(net, src.id, dst.id)
    {
      var t := 0;
      while t < |connects|
        invariant t <= |connects| && connects == old(connects) && Valid()
        invariant forall k :: 0 <= k < t ==>
                    Links(connects)[k] != Link(src.id, dst.id) && Links(connects)[k] != Link(dst.id, src.id)
      {
        var c := connects[t];
        assert Links(connects)[t] == Link(c.src.id, c.dst.id);
        assert [c.src, c.dst][0] == c.src && [c.src, c.dst][1] == c.dst;
        if (c.src == src && c.dst == dst) || (c.src == dst && c.dst == src) {
          return 1;
        }
        t := t + 1;
      }
      assert Links(connects + [OpConnect(src, dst)]) == Links(connects) + [Link(src.id, dst.id)];
      connects := connects + [OpConnect(src, dst)];
      r := 0;
    }

    /** Connect, in the form that is given two buttons. */
    method Connect(srcbut: OpButton, dstbut: OpButton) returns (r: int)
      requires Valid() && Owns(srcbut) && Owns(dstbut) && Consistent(View())
      modifies this`connects, at.Values
      ensures Valid() && at == old(at)
      ensures (View(), r) == Connected(old(View()), srcbut.id, dstbut.id, connecting)
      ensures Answered(old(View()), srcbut.id, dstbut.id, connecting, View(), r) && Consistent(View())
    {
      hide Consistent, Restrict, BetweenAll, Answered;
      ConnectedLinks(View(), srcbut.id, dstbut.id, connecting);
      var src, dst := srcbut, dstbut;
      if srcbut.id.isInput {
        src, dst := dstbut, srcbut;
      }
      ghost var net := View();
      r := ConnectOnly(src, dst);
      if r == 1 { return 1; }
      r := src.ConnectTo(dst, net);
      if r < 0 {
        LinksPop(connects, net.connects, Link(src.id, dst.id));
        ghost var lists := View().lists;
        connects := connects[..|connects| - 1];
        assert View().lists == lists;
        return -1;
      }
      r := 0;
    }

    /** Disconnect two buttons. */
    method Disconnect(a: OpButton, b: OpButton) returns (count: nat)
      requires Valid() && Owns(a) && Owns(b)
      modifies this`connects, at.Values
      ensures Valid() && at == old(at) && View() == Disconnected(old(View()), a.id, b.id)
      ensures count == old(|connects|) - |connects|
    {
      hide Remove, Ids;
      ghost var net := View();
      count := DisconnectOnly(a, b);
      a.DisconnectOnly(b, at);
      b.DisconnectOnly(a, at);
      DisconnectIsRestrict(net, View(), a.id, b.id);
    }

    // One link is pulled out at position t; what stands before it stays.
    method Pull(t: nat, ghost net: Net, ghost drop: set<Link>) returns (ghost drop': set<Link>)
      requires Valid() && Consistent(net) && View() == Restrict(net, drop) && t < |connects|
      requires forall k :: 0 <= k < t ==> Links(connects)[k] != Links(connects)[t]
      modifies this`connects, at.Values
      ensures Valid() && at == old(at) && View() == Restrict(net, drop')
      ensures drop' == drop + {old(Links(connects))[t]}
      ensures |Links(connects)| == |connects| < old(|connects|) && old(Links(connects))[..t] <= Links(connects)
      ensures View().connects == Links(connects)
    {
      hide Remove, Consistent;
      var src, dst := connects[t].src, connects[t].dst;
      ghost var was, link := View(), Link(src.id, dst.id);
      assert [connects[t].src, connects[t].dst][0] == src && [connects[t].src, connects[t].dst][1] == dst;
      assert was.connects[t] == link;
      PulledOne(net, drop, src.id, dst.id);
      PrefixStays(net, drop, t);
      drop' := drop + {link};
      var _ := Disconnect(src, dst);
    }

    /** Disconnect all links at a box. The count the source returns stays 0. */
    method DisconnectBox(box: nat) returns (count: nat)
      requires Valid() && Consistent(View())
      modifies this`connects, at.Values
      ensures Valid() && at == old(at) && View() == BoxDisconnected(old(View()), box) && count == 0
    {
      count := 0;
      ghost var net, drop := View(), {};
      RestrictNone(net, drop);
      var t := 0;
      assert Apart(Links(connects), 0, box);
      hide *;
      while t < |connects|
        invariant Valid() && at == old(at) && View() == Restrict(net, drop) && drop <= Touching(net, box)
        invariant View().connects == Links(connects)
        invariant t <= |connects| == |Links(connects)| && Apart(Links(connects), t, box)
        decreases |connects| - t
      {
        var c := connects[t];
        ghost var before := Links(connects);
        assert before[t] == Link(c.src.id, c.dst.id) by { LinkAt(connects, t); }
        RestrictMembers(net, drop);
        ApartNext(net, before, t, box);
        if c.src.id.box == box || c.dst.id.box == box {
          drop := Pull(t, net, drop);
          ApartPrefix(before, Links(connects), t, box);
        } else {
          t := t + 1;
        }
      }
      AllApart(net, Links(connects), box);
      TouchingLinks(net, box);
      PulledAll(net, drop, Touching(net, box));
    }

    /** DisconnectAll of the desk. */
    method DisconnectAll()
      requires Valid() && Consistent(View())
      modifies this`connects, at.Values
      ensures Valid() && at == old(at) && View() == AllDisconnected(old(View()))
    {
      hide Restrict, Consistent;
      ghost var net, drop := View(), {};
      RestrictNone(net, drop);
      ghost var all := set l | l in net.connects;
      while |connects| > 0
        invariant Valid() && at == old(at) && View() == Restrict(net, drop) && drop <= all
        decreases |connects|
      {
        RestrictMembers(net, drop);
        assert Links(connects)[0] in View().connects;
        drop := Pull(0, net, drop);
      }
      PulledAll(net, drop, all);
    }
  }

  lemma LinkAt(s: seq<OpConnect>, t: nat)
    requires t < |s|
    ensures t < |Links(s)| && Links(s)[t] == Link(s[t].src.id, s[t].dst.id)
  {
  }

  lemma PrefixStays(net: Net, drop: set<Link>, t: nat)
    requires Consistent(net) && t < |Restrict(net, drop).connects|
    ensures var s := Restrict(net, drop).connects;
            s[..t] <= Disconnected(Restrict(net, drop), s[t].src, s[t].dst).connects
  {
    RestrictMembers(net, drop);
    RestrictSingle(net, drop);
    var s := Restrict(net, drop).connects;
    assert s[t] in s;
    forall x | x in s[..t] ensures x !in Between(s[t].src, s[t].dst) {
      assert x in s;
      var k :| 0 <= k < t && s[k] == x;
    }
    RemoveKeepsPrefix(s, t, Between(s[t].src, s[t].dst));
  }
}
