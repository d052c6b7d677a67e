/** Pasting: connecting the copies of boxes as the originals are connected. */
module OpPaste {
  import opened OpNet
  import opened OpDesks

  // ----- Copies as a renumbering of boxes -----

  /** Which box is the copy of which. */
  ghost predicate Injective(copyOf: map<nat, nat>) {
    forall x, y :: x in copyOf && y in copyOf && copyOf[x] == copyOf[y] ==> x == y
  }

  function Copied(b: Button, copyOf: map<nat, nat>): Button
    requires b.box in copyOf
  {
    b.(box := copyOf[b.box])
  }

  predicate Inside(l: Link, copyOf: map<nat, nat>) {
    l.src.box in copyOf && l.dst.box in copyOf
  }

  function Image(l: Link, copyOf: map<nat, nat>): Link
    requires Inside(l, copyOf)
  {
    Link(Copied(l.src, copyOf), Copied(l.dst, copyOf))
  }

  ghost predicate Accepted(l: Link, connecting: (Button, Button) -> bool) {
    connecting(l.src, l.dst) && connecting(l.dst, l.src)
  }

  /** The copies are on the desk, apart from the originals, and nothing is connected to them. */
  ghost predicate FreshCopies(net: Net, copyOf: map<nat, nat>) {
    && Injective(copyOf)
    && (forall x, y :: x in copyOf && y in copyOf ==> copyOf[x] != y)
    && (forall b :: b in net.lists && b.box in copyOf ==> Copied(b, copyOf) in net.lists)
    && (forall b :: b in net.lists && b.box in copyOf.Values ==> net.lists[b] == [])
  }

  // ----- Progress of the paste -----

  // After the links in `done` have been treated: their images have been added, where accepted,
  // and nothing else has changed.
  ghost predicate Pasted(net: Net, net': Net, copyOf: map<nat, nat>, done: set<Link>,
                         connecting: (Button, Button) -> bool)
  {
    && Consistent(net') && (forall b :: b in net'.lists <==> b in net.lists)
    && net.connects <= net'.connects
    && (forall l :: l in done ==> l in net.connects && Inside(l, copyOf))
    && (forall l :: l in net'.connects ==> l in net.connects || ImageOfSome(l, copyOf, done))
    && (forall l :: l in done && Accepted(Image(l, copyOf), connecting) ==> Image(l, copyOf) in net'.connects)
    && (forall b :: b in net.lists && b.box !in copyOf.Values ==> net'.lists[b] == net.lists[b])
    && (forall l :: l in net'.connects ==> l in net.connects || Accepted(l, connecting))
  }

  ghost predicate ImageOfSome(l: Link, copyOf: map<nat, nat>, done: set<Link>) {
    exists l0 :: l0 in done && Inside(l0, copyOf) && l == Image(l0, copyOf)
  }

  // The copy of an input whose link has not been copied yet is still free.
  lemma StillFree(net: Net, net': Net, copyOf: map<nat, nat>, done: set<Link>,
                  connecting: (Button, Button) -> bool, l: Link)
    requires Consistent(net) && FreshCopies(net, copyOf) && Pasted(net, net', copyOf, done, connecting)
    requires l in net.connects && Inside(l, copyOf) && Image(l, copyOf) !in net'.connects
    ensures Copied(l.dst, copyOf) in net'.lists && net'.lists[Copied(l.dst, copyOf)] == []
  {
    var dst := Copied(l.dst, copyOf);
    HeadInList(net'.lists[dst]);
    if net'.lists[dst] != [] {
      var l1 := LinkOf(dst, net'.lists[dst][0]);
      assert l1 in net'.connects && l1.dst == dst;
      CopyNotLinked(net, copyOf, l1);
      var l0 :| l0 in done && Inside(l0, copyOf) && l1 == Image(l0, copyOf);
      OneLinkInto(net, l0, l);
    }
  }

  lemma CopyNotLinked(net: Net, copyOf: map<nat, nat>, l: Link)
    requires Consistent(net) && FreshCopies(net, copyOf) && l.dst.box in copyOf.Values
    ensures l !in net.connects
  {
  }

  lemma OneLinkInto(net: Net, a: Link, b: Link)
    requires Consistent(net) && a in net.connects && b in net.connects && a.dst == b.dst
    ensures a == b
  {
    var list := net.lists[a.dst];
    assert a.src in list && b.src in list && |list| <= 1;
  }

  // The image exists already or is refused.
  lemma PasteSkips(net: Net, net': Net, copyOf: map<nat, nat>, done: set<Link>,
                   connecting: (Button, Button) -> bool, l: Link)
    requires Pasted(net, net', copyOf, done, connecting) && l in net.connects && Inside(l, copyOf)
    requires Image(l, copyOf) in net'.connects || !Accepted(Image(l, copyOf), connecting)
    ensures Pasted(net, net', copyOf, done + {l}, connecting)
  {
    hide Consistent, Accepted, Image;
    MoreImages(copyOf, done, l);
  }

  lemma MoreImages(copyOf: map<nat, nat>, done: set<Link>, l: Link)
    requires Inside(l, copyOf)
    ensures forall x :: ImageOfSome(x, copyOf, done) ==> ImageOfSome(x, copyOf, done + {l})
    ensures ImageOfSome(Image(l, copyOf), copyOf, done + {l})
  {
    forall x | ImageOfSome(x, copyOf, done) ensures ImageOfSome(x, copyOf, done + {l}) {
      var l0 :| l0 in done && Inside(l0, copyOf) && x == Image(l0, copyOf);
      assert l0 in done + {l};
    }
    assert l in done + {l};
  }

  lemma AddKeeps(net: Net, src: Button, dst: Button)
    requires src in net.lists && dst in net.lists
    ensures var net' := Add(net, src, dst);
            && (forall b :: b in net'.lists <==> b in net.lists) && net.connects <= net'.connects
            && (forall b :: b in net.lists && b != src && b != dst ==> net'.lists[b] == net.lists[b])
            && (forall l :: l in net'.connects <==> l in net.connects || l == Link(src, dst))
  {
    assert forall b :: b in net.lists ==> net.lists[b] + [] + [] == net.lists[b];
  }

  // The image is added.
  lemma PasteAdds(net: Net, net': Net, copyOf: map<nat, nat>, done: set<Link>,
                  connecting: (Button, Button) -> bool, l: Link)
    requires Consistent(net) && FreshCopies(net, copyOf) && Pasted(net, net', copyOf, done, connecting)
    requires l in net.connects && Inside(l, copyOf)
    requires Image(l, copyOf) !in net'.connects && Accepted(Image(l, copyOf), connecting)
    ensures var i := Image(l, copyOf);
            && i.src in net'.lists && i.dst in net'.lists && net'.lists[i.dst] == []
            && Pasted(net, Add(net', i.src, i.dst), copyOf, done + {l}, connecting)
  {
    var i := Image(l, copyOf);
    StillFree(net, net', copyOf, done, connecting, l);
    AddConsistent(net', i.src, i.dst);
    AddKeeps(net', i.src, i.dst);
    MoreImages(copyOf, done, l);
    hide Consistent, Accepted, Add, ImageOfSome;
  }

  /** One connection between originals, seen from either end, leads to its image or to nothing. */
  lemma PasteOne(net: Net, net': Net, copyOf: map<nat, nat>, done: set<Link>,
                 connecting: (Button, Button) -> bool, b: Button, c: Button)
    requires Consistent(net) && FreshCopies(net, copyOf) && Pasted(net, net', copyOf, done, connecting)
    requires b in net.lists && c in net.lists[b] && b.box in copyOf && c.box in copyOf
    ensures Copied(b, copyOf) in net'.lists && Copied(c, copyOf) in net'.lists
    ensures Pasted(net, Connected(net', Copied(b, copyOf), Copied(c, copyOf), connecting).0, copyOf,
                   done + {LinkOf(b, c)}, connecting)
  {
    var l := LinkOf(b, c);
    var i := Image(l, copyOf);
    assert l in net.connects && b.isInput != c.isInput;
    assert Typed(net');
    if i in net'.connects || !Accepted(i, connecting) {
      PasteSkips(net, net', copyOf, done, connecting, l);
      hide Pasted, Consistent;
    } else {
      PasteAdds(net, net', copyOf, done, connecting, l);
      hide Pasted, Consistent;
      NothingToDrop(net', i.dst);
      hide Add, BetweenAll, Restrict;
    }
  }

  lemma NothingToDrop(net: Net, dst: Button)
    requires dst in net.lists && net.lists[dst] == []
    ensures Restrict(net, BetweenAll(dst, set c | c in net.lists[dst])) == net
  {
    var drop := BetweenAll(dst, set c | c in net.lists[dst]);
    assert drop == {};
    RestrictNone(net, drop);
  }

  // The links between originals.
  ghost function Inner(net: Net, copyOf: map<nat, nat>): set<Link> {
    set l | l in net.connects && Inside(l, copyOf)
  }

  /** A finished paste: what it means for any two original buttons, and for all others. */
  lemma PasteMeans(net: Net, net': Net, copyOf: map<nat, nat>, connecting: (Button, Button) -> bool)
    requires Consistent(net) && FreshCopies(net, copyOf)
    requires Pasted(net, net', copyOf, Inner(net, copyOf), connecting)
    ensures forall l :: l in net'.connects <==>
              l in net.connects || (ImageOfSome(l, copyOf, Inner(net, copyOf)) && Accepted(l, connecting))
    ensures forall l :: Inside(l, copyOf) ==>
              (Image(l, copyOf) in net'.connects <==> l in net.connects && Accepted(Image(l, copyOf), connecting))
  {
    forall l | Inside(l, copyOf)
      ensures Image(l, copyOf) in net'.connects <==> l in net.connects && Accepted(Image(l, copyOf), connecting)
    {
      var i := Image(l, copyOf);
      CopyNotLinked(net, copyOf, i);
      if i in net'.connects {
        var l0 :| l0 in Inner(net, copyOf) && Inside(l0, copyOf) && i == Image(l0, copyOf);
        assert l0.src == l.src && l0.dst == l.dst;
      }
    }
  }

  /** If every copy is accepted, copying is an isomorphism: two copies list each other exactly if
      their originals do. */
  lemma PasteIsIsomorphism(net: Net, net': Net, copyOf: map<nat, nat>, connecting: (Button, Button) -> bool,
                           b: Button, c: Button)
    requires Consistent(net) && FreshCopies(net, copyOf)
    requires Pasted(net, net', copyOf, Inner(net, copyOf), connecting)
    requires forall l :: l in Inner(net, copyOf) ==> Accepted(Image(l, copyOf), connecting)
    requires b in net.lists && c in net.lists && b.box in copyOf && c.box in copyOf
    ensures Copied(b, copyOf) in net'.lists
    ensures Copied(c, copyOf) in net'.lists[Copied(b, copyOf)] <==> c in net.lists[b]
  {
    PasteMeans(net, net', copyOf, connecting);
    var l, b', c' := LinkOf(b, c), Copied(b, copyOf), Copied(c, copyOf);
    assert LinkOf(b', c') == Image(l, copyOf);
    ListsIff(net, b, c);
    ListsIff(net', b', c');
    hide Consistent;
  }

  // In a consistent net a button lists another of the other kind exactly if the link is there.
  lemma ListsIff(net: Net, b: Button, c: Button)
    requires Consistent(net) && b in net.lists && c in net.lists
    ensures c in net.lists[b] <==> LinkOf(b, c) in net.connects && b.isInput != c.isInput
    ensures LinkOf(b, c) in net.connects ==> b.isInput != c.isInput
  {
  }

  // ----- CopyConnections -----

  // orig and copies are boxes of the desk, the copies mirroring the originals, each box with
  // distinct names; copyOf tells which is whose copy.
  ghost predicate Pairing(desk: OpDesk, orig: seq<OpBox>, copies: seq<OpBox>, copyOf: map<nat, nat>)
    reads desk`at, orig, copies
  {
    && |orig| == |copies|
    && (forall i :: 0 <= i < |orig| ==> orig[i].OnDesk(desk.at) && orig[i].num in copyOf)
    && (forall i :: 0 <= i < |orig| ==>
          copies[i].OnDesk(desk.at) && copies[i].num == copyOf[orig[i].num] && copies[i].UniqueNames()
          && orig[i].Mirrors(copies[i]))
    && (forall x :: x in copyOf ==> exists i :: 0 <= i < |orig| && orig[i].num == x)
  }

  // Where the paste stands: the desk against what it was.
  ghost predicate Progress(desk: OpDesk, net: Net, copyOf: map<nat, nat>, done: set<Link>)
    reads desk, desk.at.Values
  {
    desk.Valid() && Pasted(net, desk.View(), copyOf, done, desk.connecting)
  }

  // The two searches through the boxes for the box with a number.
  method IndexOf(boxes: seq<OpBox>, num: nat) returns (found: bool, i: nat)
    ensures found <==> exists k :: 0 <= k < |boxes| && boxes[k].num == num
    ensures found ==> i < |boxes| && boxes[i].num == num
  {
    found, i := false, 0;
    var k := 0;
    while k < |boxes|
      invariant k <= |boxes| && (found <==> exists j :: 0 <= j < k && boxes[j].num == num)
      invariant found ==> i < |boxes| && boxes[i].num == num
    {
      if boxes[k].num == num {
        found, i := true, k;
      }
      k := k + 1;
    }
  }

  // The button of an identity is the one in its place in the box.
  lemma InBox(desk: OpDesk, box: OpBox, b: Button)
    requires box.OnDesk(desk.at) && b in desk.at && b.box == box.num
    ensures if b.isInput then b.index < |box.inputs| && desk.at[b] == box.inputs[b.index]
            else b.index < |box.outputs| && desk.at[b] == box.outputs[b.index]
  {
    assert if b.isInput then box.inputs[b.index].id == b else box.outputs[b.index].id == b;
  }

  // In the mirrored box the name of a button finds its copy.
  method FindCopy(desk: OpDesk, box: OpBox, copy: OpBox, but: OpButton) returns (r: OpButton?)
    requires box.OnDesk(desk.at) && copy.OnDesk(desk.at) && copy.UniqueNames() && box.Mirrors(copy)
    requires desk.Owns(but) && but.id.box == box.num
    ensures r != null && desk.Owns(r) && r.id == but.id.(box := copy.num)
  {
    InBox(desk, box, but.id);
    r := copy.FindButtonByLabel(but.name);
    ghost var k := if but.id.isInput then but.id.index else |copy.inputs| + but.id.index;
    assert copy.Buttons()[k].name == but.name;
    assert r == copy.Buttons()[k];
    assert r == if but.id.isInput then copy.inputs[but.id.index] else copy.outputs[but.id.index];
  }

  method ConnectCopies(desk: OpDesk, srcCopy: OpButton, dstCopy: OpButton, ghost net: Net,
                       ghost copyOf: map<nat, nat>, ghost done: set<Link>, ghost b: Button, ghost c: Button)
    requires Consistent(net) && FreshCopies(net, copyOf) && Progress(desk, net, copyOf, done)
    requires desk.Owns(srcCopy) && desk.Owns(dstCopy)
    requires b in net.lists && c in net.lists[b] && b.box in copyOf && c.box in copyOf
    requires srcCopy.id == b.(box := copyOf[b.box]) && dstCopy.id == c.(box := copyOf[c.box])
    modifies desk`connects, desk.at.Values
    ensures Progress(desk, net, copyOf, done + {LinkOf(b, c)}) && desk.at == old(desk.at)
  {
    PasteOne(net, desk.View(), copyOf, done, desk.connecting, b, c);
    assert Consistent(desk.View());
    hide Connected, Consistent, FreshCopies, Pasted;
    var _ := desk.Connect(srcCopy, dstCopy);
  }

  lemma PairingAt(desk: OpDesk, orig: seq<OpBox>, copies: seq<OpBox>, copyOf: map<nat, nat>, i: nat)
    requires Pairing(desk, orig, copies, copyOf) && i < |orig|
    ensures |copies| == |orig| && orig[i].OnDesk(desk.at) && copies[i].OnDesk(desk.at)
    ensures copies[i].UniqueNames() && orig[i].Mirrors(copies[i])
    ensures orig[i].num in copyOf && copies[i].num == copyOf[orig[i].num]
  {
  }

  lemma PairingHas(desk: OpDesk, orig: seq<OpBox>, copies: seq<OpBox>, copyOf: map<nat, nat>, num: nat)
    requires Pairing(desk, orig, copies, copyOf)
    ensures num in copyOf <==> exists i :: 0 <= i < |orig| && orig[i].num == num
  {
  }

  method CopyConnection(desk: OpDesk, orig: seq<OpBox>, copies: seq<OpBox>, src: OpButton, dst: OpButton,
                        ghost net: Net, ghost copyOf: map<nat, nat>, ghost done: set<Link>)
    returns (ghost done': set<Link>)
    requires Pairing(desk, orig, copies, copyOf) && Consistent(net) && FreshCopies(net, copyOf)
    requires Progress(desk, net, copyOf, done) && desk.Owns(src) && desk.Owns(dst)
    requires src.id in net.lists && dst.id in net.lists[src.id] && src.id.box in copyOf
    modifies desk`connects, desk.at.Values
    ensures Progress(desk, net, copyOf, done') && desk.at == old(desk.at)
    ensures done' == if dst.id.box in copyOf then done + {LinkOf(src.id, dst.id)} else done
  {
    hide *;
    done' := done;
    PairingHas(desk, orig, copies, copyOf, src.id.box);
    PairingHas(desk, orig, copies, copyOf, dst.id.box);
    var found, d := IndexOf(orig, dst.id.box);
    if !found { return; }
    var _, s := IndexOf(orig, src.id.box);
    PairingAt(desk, orig, copies, copyOf, s);
    PairingAt(desk, orig, copies, copyOf, d);
    assert desk.Owns(src) && desk.Owns(dst);
    var srcCopy := FindCopy(desk, orig[s], copies[s], src);
    var dstCopy := FindCopy(desk, orig[d], copies[d], dst);
    ConnectCopies(desk, srcCopy, dstCopy, net, copyOf, done, src.id, dst.id);
    done' := done + {LinkOf(src.id, dst.id)};
  }

  // All links of a button to originals have been treated.
  ghost predicate Covered(net: Net, copyOf: map<nat, nat>, done: set<Link>, b: Button)
    requires b in net.lists
  {
    forall i :: 0 <= i < |net.lists[b]| && net.lists[b][i].box in copyOf ==> LinkOf(b, net.lists[b][i]) in done
  }

  // The buttons a source lists are, while its copies are being connected, what they were.
  lemma SourceUnchanged(desk: OpDesk, net: Net, copyOf: map<nat, nat>, done: set<Link>, src: OpButton)
    requires FreshCopies(net, copyOf) && Progress(desk, net, copyOf, done)
    requires desk.Owns(src) && src.id.box in copyOf
    ensures src.id in net.lists && Ids(src.connectedTo) == net.lists[src.id] && Known(desk.at, src.connectedTo)
    ensures |src.connectedTo| == |net.lists[src.id]|
  {
    assert src.id in desk.View().lists;
    assert |Ids(src.connectedTo)| == |src.connectedTo|;
  }

  method CopyButton(desk: OpDesk, orig: seq<OpBox>, copies: seq<OpBox>, srcbut: OpButton,
                    ghost net: Net, ghost copyOf: map<nat, nat>, ghost done: set<Link>)
    returns (ghost done': set<Link>)
    requires Pairing(desk, orig, copies, copyOf) && Consistent(net) && FreshCopies(net, copyOf)
    requires Progress(desk, net, copyOf, done) && desk.Owns(srcbut) && srcbut.id.box in copyOf
    modifies desk`connects, desk.at.Values
    ensures Progress(desk, net, copyOf, done') && desk.at == old(desk.at) && done <= done'
    ensures srcbut.id in net.lists && Covered(net, copyOf, done', srcbut.id)
  {
    hide Pairing, Progress, Consistent, FreshCopies, Ids;
    done' := done;
    var ci := 0;
    SourceUnchanged(desk, net, copyOf, done', srcbut);
    while ci < |srcbut.connectedTo|
      invariant Progress(desk, net, copyOf, done') && desk.at == old(desk.at) && done <= done'
      invariant Pairing(desk, orig, copies, copyOf) && Ids(srcbut.connectedTo) == net.lists[srcbut.id]
      invariant ci <= |srcbut.connectedTo| == |net.lists[srcbut.id]| && Known(desk.at, srcbut.connectedTo)
      invariant forall i :: 0 <= i < ci && net.lists[srcbut.id][i].box in copyOf ==>
                  LinkOf(srcbut.id, net.lists[srcbut.id][i]) in done'
      decreases |net.lists[srcbut.id]| - ci
    {
      var dstbut := srcbut.connectedTo[ci];
      assert dstbut.id == net.lists[srcbut.id][ci] by { IdAt(srcbut.connectedTo, ci); }
      done' := CopyConnection(desk, orig, copies, srcbut, dstbut, net, copyOf, done');
      SourceUnchanged(desk, net, copyOf, done', srcbut);
      ci := ci + 1;
    }
  }

  lemma IdAt(s: seq<OpButton>, i: nat)
    requires i < |s|
    ensures i < |Ids(s)| && Ids(s)[i] == s[i].id
  {
  }

  method CopyBox(desk: OpDesk, orig: seq<OpBox>, copies: seq<OpBox>, box: OpBox,
                 ghost net: Net, ghost copyOf: map<nat, nat>, ghost done: set<Link>)
    returns (ghost done': set<Link>)
    requires Pairing(desk, orig, copies, copyOf) && Consistent(net) && FreshCopies(net, copyOf)
    requires Progress(desk, net, copyOf, done) && box.OnDesk(desk.at) && box.num in copyOf
    modifies desk`connects, desk.at.Values
    ensures Progress(desk, net, copyOf, done') && desk.at == old(desk.at) && done <= done'
    ensures forall b :: b in net.lists && b.box == box.num ==> Covered(net, copyOf, done', b)
  {
    hide Pairing, Progress, Consistent, FreshCopies, Covered;
    done' := done;
    var buttons := box.Buttons();
    var ibut := 0;
    while ibut < |buttons|
      invariant Progress(desk, net, copyOf, done') && desk.at == old(desk.at) && done <= done'
      invariant Pairing(desk, orig, copies, copyOf) && ibut <= |buttons| && box.OnDesk(desk.at)
      invariant forall k :: 0 <= k < ibut ==> buttons[k].id in net.lists && Covered(net, copyOf, done', buttons[k].id)
    {
      ghost var before := done';
      done' := CopyButton(desk, orig, copies, buttons[ibut], net, copyOf, done');
      forall k | 0 <= k < ibut ensures Covered(net, copyOf, done', buttons[k].id) {
        CoveredStays(net, copyOf, before, done', buttons[k].id);
      }
      ibut := ibut + 1;
    }
    SameButtons(desk, net, copyOf, done');
    forall b | b in net.lists && b.box == box.num ensures Covered(net, copyOf, done', b) {
      InBox(desk, box, b);
      var k := if b.isInput then b.index else |box.inputs| + b.index;
      assert buttons[k].id == b;
    }
  }

  lemma CoveredStays(net: Net, copyOf: map<nat, nat>, done: set<Link>, done': set<Link>, b: Button)
    requires b in net.lists && Covered(net, copyOf, done, b) && done <= done'
    ensures Covered(net, copyOf, done', b)
  {
  }

  lemma SameButtons(desk: OpDesk, net: Net, copyOf: map<nat, nat>, done: set<Link>)
    requires Progress(desk, net, copyOf, done)
    ensures forall b :: b in net.lists <==> b in desk.at
  {
    assert forall b :: b in desk.View().lists <==> b in desk.at;
  }

  // The buttons of the first n boxes are covered.
  ghost predicate BoxesCovered(net: Net, copyOf: map<nat, nat>, done: set<Link>, orig: seq<OpBox>, n: nat) {
    n <= |orig|
    && forall i, b :: 0 <= i < n && b in net.lists && b.box == orig[i].num ==> Covered(net, copyOf, done, b)
  }

  lemma OneMoreBox(net: Net, copyOf: map<nat, nat>, done: set<Link>, done': set<Link>, orig: seq<OpBox>, n: nat)
    requires BoxesCovered(net, copyOf, done, orig, n) && n < |orig| && done <= done'
    requires forall b :: b in net.lists && b.box == orig[n].num ==> Covered(net, copyOf, done', b)
    ensures BoxesCovered(net, copyOf, done', orig, n + 1)
  {
    hide Covered;
    forall i, b | 0 <= i < n && b in net.lists && b.box == orig[i].num ensures Covered(net, copyOf, done', b) {
      CoveredStays(net, copyOf, done, done', b);
    }
  }

  lemma NothingPasted(desk: OpDesk, copyOf: map<nat, nat>)
    requires desk.Valid() && Consistent(desk.View())
    ensures Progress(desk, desk.View(), copyOf, {})
  {
  }

  // The loop over the boxes.
  method CopyBoxes(desk: OpDesk, orig: seq<OpBox>, copies: seq<OpBox>, ghost copyOf: map<nat, nat>, ghost net: Net)
    returns (ghost done: set<Link>)
    requires Consistent(net) && Progress(desk, net, copyOf, {})
    requires Pairing(desk, orig, copies, copyOf) && FreshCopies(net, copyOf)
    modifies desk`connects, desk.at.Values
    ensures desk.at == old(desk.at) && Progress(desk, net, copyOf, done)
    ensures BoxesCovered(net, copyOf, done, orig, |orig|)
  {
    hide Progress, Pairing, Consistent, FreshCopies, Covered;
    done := {};
    var ibox := 0;
    while ibox < |orig|
      invariant Progress(desk, net, copyOf, done) && desk.at == old(desk.at) && ibox <= |orig|
      invariant Pairing(desk, orig, copies, copyOf) && BoxesCovered(net, copyOf, done, orig, ibox)
    {
      ghost var before := done;
      PairingAt(desk, orig, copies, copyOf, ibox);
      done := CopyBox(desk, orig, copies, orig[ibox], net, copyOf, done);
      OneMoreBox(net, copyOf, before, done, orig, ibox);
      ibox := ibox + 1;
    }
  }

  /** CopyConnections: exactly the images of the links among the originals are added, as far as
      they are accepted, and nothing else changes; lists of different length are ignored. */
  method CopyConnections(desk: OpDesk, orig: seq<OpBox>, copies: seq<OpBox>, ghost copyOf: map<nat, nat>)
    requires desk.Valid() && Consistent(desk.View())
    requires |orig| == |copies| ==> Pairing(desk, orig, copies, copyOf) && FreshCopies(desk.View(), copyOf)
    modifies desk`connects, desk.at.Values
    ensures desk.Valid() && desk.at == old(desk.at)
    ensures |orig| != |copies| ==> desk.View() == old(desk.View())
    ensures |orig| == |copies| ==>
              Pasted(old(desk.View()), desk.View(), copyOf, Inner(old(desk.View()), copyOf), desk.connecting)
  {
    if |orig| != |copies| { return; }
    hide *;
    ghost var net := desk.View();
    NothingPasted(desk, copyOf);
    ghost var done := CopyBoxes(desk, orig, copies, copyOf, net);
    AllCovered(desk, net, orig, copies, copyOf, done);
  }

  lemma AllCovered(desk: OpDesk, net: Net, orig: seq<OpBox>, copies: seq<OpBox>, copyOf: map<nat, nat>, done: set<Link>)
    requires Consistent(net) && Progress(desk, net, copyOf, done)
    requires Pairing(desk, orig, copies, copyOf) && BoxesCovered(net, copyOf, done, orig, |orig|)
    ensures desk.Valid() && Pasted(net, desk.View(), copyOf, Inner(net, copyOf), desk.connecting)
  {
    forall l | l in Inner(net, copyOf) ensures l in done {
      PairingHas(desk, orig, copies, copyOf, l.src.box);
      assert l.dst in net.lists[l.src] && Covered(net, copyOf, done, l.src);
      var i :| 0 <= i < |net.lists[l.src]| && net.lists[l.src][i] == l.dst;
      assert LinkOf(l.src, l.dst) == l;
    }
    assert done == Inner(net, copyOf);
  }
}
