/** The order of boxes for code generation: a depth-first walk up the connection graph. */
module OpOrder {
  import opened OpNet
  import opened OpDesks

  // ----- The graph of boxes -----

  /** An output of box x is connected to an input of box y. */
  ghost predicate Feeds(net: Net, x: nat, y: nat) {
    exists l :: l in net.connects && l.src.box == x && l.dst.box == y
  }

  /** Nothing is connected to the box's outputs. */
  ghost predicate Sink(net: Net, x: nat) {
    forall l :: l in net.connects ==> l.src.box != x
  }

  lemma LinkFeeds(net: Net, l: Link)
    requires l in net.connects
    ensures Feeds(net, l.src.box, l.dst.box)
  {
  }

  ghost predicate Walk(net: Net, w: seq<nat>) {
    forall i :: 0 <= i < |w| - 1 ==> Feeds(net, w[i], w[i + 1])
  }

  ghost predicate ClosedWalk(net: Net, w: seq<nat>) {
    |w| >= 2 && w[0] == w[|w| - 1] && Walk(net, w)
  }

  /** No box feeds itself, directly or through others. */
  ghost predicate Acyclic(net: Net) {
    forall w :: !ClosedWalk(net, w)
  }

  /** Each box in the list comes after all boxes that feed it. */
  ghost predicate Ordered(net: Net, order: seq<nat>) {
    forall x, j :: 0 <= j < |order| && Feeds(net, x, order[j]) ==> x in order[..j]
  }

  // What feeds the first box of a walk is not on it.
  lemma NotOnWalk(net: Net, w: seq<nat>, x: nat)
    requires Acyclic(net) && Walk(net, w) && w != [] && Feeds(net, x, w[0])
    ensures x !in w
  {
    if x in w {
      var k :| 0 <= k < |w| && w[k] == x;
      assert ClosedWalk(net, [x] + w[..k + 1]);
    }
  }

  lemma LongerWalk(net: Net, w: seq<nat>, x: nat)
    requires Walk(net, w) && (w != [] ==> Feeds(net, x, w[0]))
    ensures Walk(net, [x] + w)
  {
  }

  lemma OrderedNext(net: Net, order: seq<nat>, y: nat)
    requires Ordered(net, order) && forall x :: Feeds(net, x, y) ==> x in order
    ensures Ordered(net, order + [y])
  {
    var longer := order + [y];
    forall x, j | 0 <= j < |longer| && Feeds(net, x, longer[j]) ensures x in longer[..j] {
      if j < |order| {
        assert longer[..j] == order[..j] && longer[j] == order[j];
      } else {
        assert longer[..j] == order;
      }
    }
  }

  // Positions grow along a walk through an ordered list.
  lemma {:induction false} WalkForward(net: Net, order: seq<nat>, w: seq<nat>, j: nat) returns (i: nat)
    requires Ordered(net, order) && Distinct(order) && Walk(net, w) && w != []
    requires j < |order| && order[j] == w[|w| - 1]
    ensures i < |order| && order[i] == w[0] && (|w| >= 2 ==> i < j)
    decreases |w|
  {
    if |w| == 1 {
      i := j;
    } else {
      var n := |w| - 2;
      assert Feeds(net, w[n], w[n + 1]);
      var k :| 0 <= k < |order[..j]| && order[..j][k] == w[n];
      i := WalkForward(net, order, w[..n + 1], k);
    }
  }

  /** A complete ordered list exists only if there is no cycle. */
  lemma OrderedIsAcyclic(net: Net, order: seq<nat>)
    requires Ordered(net, order) && Distinct(order)
    requires forall l :: l in net.connects ==> l.src.box in order && l.dst.box in order
    ensures Acyclic(net)
  {
    forall w ensures !ClosedWalk(net, w) {
      if ClosedWalk(net, w) {
        assert Feeds(net, w[|w| - 2], w[|w| - 1]);
        var j :| 0 <= j < |order| && order[j] == w[|w| - 1];
        var i := WalkForward(net, order, w, j);
      }
    }
  }

  lemma Grown(net: Net, w: seq<nat>, y: nat)
    requires Walk(net, w) && w != [] && Feeds(net, w[|w| - 1], y)
    ensures Walk(net, w + [y])
  {
  }

  // Following connections forwards from a box outside the list never ends.
  lemma {:induction false} NeverEnds(net: Net, boxes: set<nat>, order: seq<nat>, w: seq<nat>)
    requires Acyclic(net) && Ordered(net, order)
    requires forall l :: l in net.connects ==> l.src.box in boxes && l.dst.box in boxes
    requires forall x :: x in boxes && Sink(net, x) ==> x in order
    requires w != [] && Walk(net, w) && Distinct(w) && forall x :: x in w ==> x in boxes && x !in order
    ensures false
    decreases |boxes| - |w|
  {
    DistinctFits(w, boxes);
    hide Feeds;
    var x := w[|w| - 1];
    assert x in w && !Sink(net, x);
    var l :| l in net.connects && l.src.box == x;
    var y := l.dst.box;
    LinkFeeds(net, l);
    Grown(net, w, y);
    FedBefore(net, order, x, y);
    NoWayBack(net, w, y);
    NeverEnds(net, boxes, order, w + [y]);
  }

  lemma FedBefore(net: Net, order: seq<nat>, x: nat, y: nat)
    requires Ordered(net, order) && Feeds(net, x, y)
    ensures y in order ==> x in order
  {
    if y in order {
      var j :| 0 <= j < |order| && order[j] == y;
      assert x in order[..j];
    }
  }

  lemma NoWayBack(net: Net, w: seq<nat>, y: nat)
    requires Acyclic(net) && Walk(net, w) && w != [] && Feeds(net, w[|w| - 1], y)
    ensures y !in w
  {
    if y in w {
      var k :| 0 <= k < |w| && w[k] == y;
      Grown(net, w[k..], y);
      assert ClosedWalk(net, w[k..] + [y]);
    }
  }

  lemma {:induction false} DistinctFits(w: seq<nat>, boxes: set<nat>)
    requires Distinct(w) && forall x :: x in w ==> x in boxes
    ensures |w| <= |boxes|
    decreases w
  {
    if w != [] {
      assert forall x :: x in w[1..] ==> x != w[0];
      DistinctFits(w[1..], boxes - {w[0]});
    }
  }

  /** Without cycles every box leads to one that feeds nothing, so a list that is ordered and has
      those has all. */
  lemma OrderedIsComplete(net: Net, boxes: set<nat>, order: seq<nat>)
    requires Acyclic(net) && Ordered(net, order)
    requires forall l :: l in net.connects ==> l.src.box in boxes && l.dst.box in boxes
    requires forall x :: x in boxes && Sink(net, x) ==> x in order
    ensures forall x :: x in boxes ==> x in order
  {
    forall x | x in boxes ensures x in order {
      if x !in order {
        NeverEnds(net, boxes, order, [x]);
      }
    }
  }

  // ----- The walk -----

  function Nums(s: seq<OpBox>): seq<nat> {
    seq(|s|, i requires 0 <= i < |s| => s[i].num)
  }

  // `all` are the boxes of the desk, connected as `net` says.
  ghost predicate World(desk: OpDesk, buttons: set<OpButton>, all: seq<OpBox>, net: Net)
    reads desk, buttons, all`inputs, all`outputs
  {
    && buttons == desk.at.Values && desk.Valid() && desk.View() == net && Consistent(net)
    && (forall i :: 0 <= i < |all| ==> all[i].OnDesk(desk.at))
    && (forall i, j :: 0 <= i < j < |all| ==> all[i].num != all[j].num)
    && (forall b :: b in desk.at ==> desk.at[b].box in all && desk.at[b].box.num == b.box)
  }

  ghost function Marked(all: seq<OpBox>): set<nat>
    reads all`traversed
  {
    set i | 0 <= i < |all| && all[i].traversed :: all[i].num
  }

  // The marked boxes are those listed and those still being worked on.
  ghost predicate Listing(net: Net, marked: set<nat>, order: seq<nat>, busy: set<nat>) {
    && Distinct(order) && marked == (set x | x in order) + busy && (forall x :: x in busy ==> x !in order)
    && (Acyclic(net) ==> Ordered(net, order))
  }

  method SetTraversed(all: seq<OpBox>, box: OpBox, t: bool)
    requires box in all && forall i, j :: 0 <= i < j < |all| ==> all[i].num != all[j].num
    modifies box`traversed
    ensures Marked(all) == if t then old(Marked(all)) + {box.num} else old(Marked(all)) - {box.num}
    ensures box.traversed == t
  {
    box.traversed := t;
  }

  ghost function NumSet(all: seq<OpBox>): set<nat> {
    set i | 0 <= i < |all| :: all[i].num
  }

  ghost predicate Among(r: seq<OpBox>, all: seq<OpBox>) {
    forall i :: 0 <= i < |r| ==> r[i] in all
  }

  method GetOutputBoxes(but: OpButton) returns (outboxes: seq<OpBox>)
    ensures |outboxes| == |but.connectedTo|
    ensures forall k :: 0 <= k < |outboxes| ==> outboxes[k] == but.connectedTo[k].box
  {
    outboxes := [];
    var t := 0;
    while t < |but.connectedTo|
      invariant t == |outboxes| <= |but.connectedTo|
      invariant forall k :: 0 <= k < t ==> outboxes[k] == but.connectedTo[k].box
    {
      outboxes := outboxes + [but.connectedTo[t].box];
      t := t + 1;
    }
  }

  // A box that is being worked on cannot, without a cycle, be met again.
  lemma MetAgain(net: Net, marked: set<nat>, order: seq<nat>, walk: seq<nat>, x: nat)
    requires Listing(net, marked, order, set y | y in walk) && x in marked
    requires Walk(net, walk) && (walk != [] ==> Feeds(net, x, walk[0]))
    ensures Acyclic(net) ==> x in order
  {
    if Acyclic(net) && walk != [] {
      NotOnWalk(net, walk, x);
    }
  }

  // The box is started.
  lemma ListingStarts(net: Net, marked: set<nat>, order: seq<nat>, walk: seq<nat>, x: nat)
    requires Listing(net, marked, order, set y | y in walk) && x !in marked
    ensures Listing(net, marked + {x}, order, set y | y in [x] + walk)
  {
    assert forall y :: y in [x] + walk <==> y == x || y in walk;
  }

  // The box is finished.
  lemma ListingEnds(net: Net, marked: set<nat>, order: seq<nat>, walk: seq<nat>, x: nat)
    requires Listing(net, marked, order, set y | y in [x] + walk) && x !in walk
    requires Acyclic(net) ==> forall y :: Feeds(net, y, x) ==> y in order
    ensures Listing(net, marked, order + [x], set y | y in walk)
  {
    assert forall y :: y in [x] + walk <==> y == x || y in walk;
    assert (set y | y in order + [x]) == (set y | y in order) + {x};
    assert x in set y | y in [x] + walk;
    if Acyclic(net) {
      OrderedNext(net, order, x);
    }
  }

  // ----- Inputs and what feeds them -----

  // The boxes of the first n buttons that b lists are in the order.
  ghost predicate Fed(net: Net, b: Button, n: nat, order: seq<nat>) {
    b in net.lists && n <= |net.lists[b]| && forall k :: 0 <= k < n ==> net.lists[b][k].box in order
  }

  ghost predicate AllFed(net: Net, b: Button, order: seq<nat>) {
    b in net.lists && Fed(net, b, |net.lists[b]|, order)
  }

  lemma NumsGrow(boxes: seq<OpBox>, boxes': seq<OpBox>)
    requires boxes <= boxes'
    ensures forall x :: x in Nums(boxes) ==> x in Nums(boxes')
  {
    assert forall i :: 0 <= i < |boxes| ==> Nums(boxes')[i] == Nums(boxes)[i];
  }

  lemma FedMore(net: Net, b: Button, n: nat, boxes: seq<OpBox>, boxes': seq<OpBox>)
    requires boxes <= boxes' && b in net.lists && n < |net.lists[b]|
    ensures Fed(net, b, n, Nums(boxes)) && net.lists[b][n].box in Nums(boxes') ==> Fed(net, b, n + 1, Nums(boxes'))
    ensures Fed(net, b, |net.lists[b]|, Nums(boxes')) ==> AllFed(net, b, Nums(boxes'))
  {
    NumsGrow(boxes, boxes');
  }

  // Entry j of an input's list: its box is on the desk and feeds the input's box.
  lemma Feeder(desk: OpDesk, buttons: set<OpButton>, all: seq<OpBox>, net: Net, inbut: OpButton, j: nat)
    requires World(desk, buttons, all, net) && desk.Owns(inbut) && inbut.id.isInput && j < |inbut.connectedTo|
    ensures var c := inbut.connectedTo[j];
            && c.box in all && Feeds(net, c.box.num, inbut.id.box)
            && inbut.id in net.lists && |net.lists[inbut.id]| == |inbut.connectedTo|
            && net.lists[inbut.id][j].box == c.box.num
  {
    var c := inbut.connectedTo[j];
    assert |Ids(inbut.connectedTo)| == |inbut.connectedTo|;
    assert net.lists[inbut.id][j] == c.id;
    assert c.id in net.lists[inbut.id] && LinkOf(inbut.id, c.id) in net.connects;
    hide Consistent;
    LinkFeeds(net, Link(c.id, inbut.id));
  }

  lemma NoFeeder(desk: OpDesk, buttons: set<OpButton>, all: seq<OpBox>, net: Net, inbut: OpButton,
                 order: seq<nat>)
    requires World(desk, buttons, all, net) && desk.Owns(inbut)
    ensures inbut.id in net.lists && |net.lists[inbut.id]| == |inbut.connectedTo|
    ensures Fed(net, inbut.id, 0, order) && (net.lists[inbut.id] == [] ==> AllFed(net, inbut.id, order))
  {
    assert |Ids(inbut.connectedTo)| == |inbut.connectedTo|;
  }

  // Whatever feeds a box is listed by one of its inputs.
  lemma FeedersListed(desk: OpDesk, buttons: set<OpButton>, all: seq<OpBox>, net: Net, box: OpBox, y: nat,
                      order: seq<nat>)
    requires World(desk, buttons, all, net) && box in all && Feeds(net, y, box.num)
    requires forall t :: 0 <= t < |box.inputs| ==> AllFed(net, box.inputs[t].id, order)
    ensures y in order
  {
    var l := ListedFeeder(net, y, box.num);
    assert box.OnDesk(desk.at) && l.dst in desk.at;
    hide Consistent, World, Feeds, Known;
    assert box.inputs[l.dst.index].id == l.dst;
  }

  lemma ListedFeeder(net: Net, y: nat, x: nat) returns (l: Link)
    requires Consistent(net) && Feeds(net, y, x)
    ensures l.dst in net.lists && l.dst.isInput && l.dst.box == x && l.src in net.lists[l.dst] && l.src.box == y
  {
    l :| l in net.connects && l.src.box == y && l.dst.box == x;
  }

  lemma InputOwned(desk: OpDesk, buttons: set<OpButton>, all: seq<OpBox>, net: Net, box: OpBox, t: nat)
    requires World(desk, buttons, all, net) && box in all && t < |box.inputs|
    ensures desk.Owns(box.inputs[t]) && box.inputs[t].id.isInput && box.inputs[t].id.box == box.num
  {
    assert box.OnDesk(desk.at);
  }

  lemma AllFedStay(net: Net, boxes: seq<OpBox>, boxes': seq<OpBox>)
    requires boxes <= boxes'
    ensures forall b :: AllFed(net, b, Nums(boxes)) ==> AllFed(net, b, Nums(boxes'))
  {
    NumsGrow(boxes, boxes');
  }

  // ----- The walk itself -----

  // `boxes` is the result so far, `walk` the boxes being worked on, the current one first.
  ghost predicate Walking(net: Net, marked: set<nat>, all: seq<OpBox>, boxes: seq<OpBox>, walk: seq<nat>) {
    Among(boxes, all) && Walk(net, walk) && Listing(net, marked, Nums(boxes), set x | x in walk)
  }

  lemma WalkingMeans(net: Net, marked: set<nat>, all: seq<OpBox>, boxes: seq<OpBox>, walk: seq<nat>)
    requires Walking(net, marked, all, boxes, walk)
    ensures Walk(net, walk) && Listing(net, marked, Nums(boxes), set x | x in walk)
  {
  }

  // All boxes that feed one input of the current box.
  method VisitInput(desk: OpDesk, ghost buttons: set<OpButton>, all: seq<OpBox>, boxes: seq<OpBox>, inbut: OpButton,
                    ghost net: Net, ghost walk: seq<nat>) returns (r: seq<OpBox>)
    requires World(desk, buttons, all, net) && Walking(net, Marked(all), all, boxes, walk) && walk != []
    requires desk.Owns(inbut) && inbut.id.isInput && inbut.id.box == walk[0]
    modifies all`traversed
    ensures World(desk, buttons, all, net)
    ensures Walking(net, Marked(all), all, r, walk) && boxes <= r && old(Marked(all)) <= Marked(all)
    ensures Acyclic(net) ==> AllFed(net, inbut.id, Nums(r))
    decreases NumSet(all) - Marked(all), 1
  {
    hide *;
    r := boxes;
    var outboxes := GetOutputBoxes(inbut);
    var j := 0;
    NoFeeder(desk, buttons, all, net, inbut, Nums(r));
    while j < |outboxes|
      invariant World(desk, buttons, all, net) && Walking(net, Marked(all), all, r, walk) && boxes <= r
                && old(Marked(all)) <= Marked(all)
      invariant j <= |outboxes| == |inbut.connectedTo| == |net.lists[inbut.id]|
      invariant Acyclic(net) ==> Fed(net, inbut.id, j, Nums(r)) && (j == |outboxes| ==> AllFed(net, inbut.id, Nums(r)))
    {
      ghost var before := r;
      Feeder(desk, buttons, all, net, inbut, j);
      r := GetBoxesSorted(desk, buttons, all, r, outboxes[j], net, walk);
      FedMore(net, inbut.id, j, before, r);
      j := j + 1;
    }
  }

  /** GetBoxesSorted: the box and everything above it that is not listed yet is appended; without
      cycles each box comes after all that feed it. It always ends. */
  method GetBoxesSorted(desk: OpDesk, ghost buttons: set<OpButton>, all: seq<OpBox>, boxes: seq<OpBox>, box: OpBox,
                        ghost net: Net, ghost walk: seq<nat>) returns (r: seq<OpBox>)
    requires World(desk, buttons, all, net) && Walking(net, Marked(all), all, boxes, walk) && box in all
    requires walk != [] ==> Feeds(net, box.num, walk[0])
    modifies all`traversed
    ensures World(desk, buttons, all, net)
    ensures Walking(net, Marked(all), all, r, walk) && boxes <= r && old(Marked(all)) <= Marked(all)
    ensures box.num in Marked(all) && (Acyclic(net) ==> box.num in Nums(r))
    decreases NumSet(all) - Marked(all), 0
  {
    hide *;
    MarkedIff(desk, buttons, all, net, box);
    if box.traversed {
      WalkingMeans(net, Marked(all), all, boxes, walk);
      MetAgain(net, Marked(all), Nums(boxes), walk, box.num);
      return boxes;
    }
    r := StartBox(desk, buttons, all, boxes, box, net, walk);
    ghost var longer := [box.num] + walk;
    var t := 0;
    while t < |box.inputs|
      invariant World(desk, buttons, all, net) && Walking(net, Marked(all), all, r, longer) && boxes <= r
                && t <= |box.inputs|
      invariant old(Marked(all)) + {box.num} <= Marked(all)
      invariant Acyclic(net) ==> forall i :: 0 <= i < t ==> AllFed(net, box.inputs[i].id, Nums(r))
    {
      ghost var before := r;
      InputOwned(desk, buttons, all, net, box, t);
      r := VisitInput(desk, buttons, all, r, box.inputs[t], net, longer);
      AllFedStay(net, before, r);
      t := t + 1;
    }
    FinishBox(desk, buttons, all, Marked(all), r, box, net, walk);
    r := r + [box];
  }

  lemma MarkedIff(desk: OpDesk, buttons: set<OpButton>, all: seq<OpBox>, net: Net, box: OpBox)
    requires World(desk, buttons, all, net) && box in all
    ensures box.num in NumSet(all) && (box.num in Marked(all) <==> box.traversed)
  {
  }

  method StartBox(desk: OpDesk, ghost buttons: set<OpButton>, all: seq<OpBox>, boxes: seq<OpBox>, box: OpBox,
                  ghost net: Net, ghost walk: seq<nat>) returns (r: seq<OpBox>)
    requires World(desk, buttons, all, net) && Walking(net, Marked(all), all, boxes, walk) && box in all
             && !box.traversed
    requires walk != [] ==> Feeds(net, box.num, walk[0])
    modifies box`traversed
    ensures World(desk, buttons, all, net)
    ensures r == boxes && Walking(net, Marked(all), all, r, [box.num] + walk)
            && Marked(all) == old(Marked(all)) + {box.num}
    ensures Walk(net, walk) && box.num !in walk
  {
    r := boxes;
    MarkedIff(desk, buttons, all, net, box);
    assert forall x :: x in walk ==> x in Marked(all);
    ListingStarts(net, Marked(all), Nums(boxes), walk, box.num);
    LongerWalk(net, walk, box.num);
    SetTraversed(all, box, true);
  }

  lemma FinishBox(desk: OpDesk, buttons: set<OpButton>, all: seq<OpBox>, marked: set<nat>, r: seq<OpBox>, box: OpBox,
                  net: Net, walk: seq<nat>)
    requires World(desk, buttons, all, net) && Walking(net, marked, all, r, [box.num] + walk) && box in all
             && box.num !in walk
    requires Walk(net, walk)
    requires Acyclic(net) ==> forall t :: 0 <= t < |box.inputs| ==> AllFed(net, box.inputs[t].id, Nums(r))
    ensures Walking(net, marked, all, r + [box], walk) && box.num in Nums(r + [box])
  {
    if Acyclic(net) {
      forall y | Feeds(net, y, box.num) ensures y in Nums(r) {
        FeedersListed(desk, buttons, all, net, box, y, Nums(r));
      }
    }
    ListingEnds(net, marked, Nums(r), walk, box.num);
    assert Nums(r + [box]) == Nums(r) + [box.num];
    assert Nums(r + [box])[|r|] == box.num;
  }

  // ----- All boxes -----

  // The links at the outputs of a box.
  method TotalOutputs(desk: OpDesk, ghost buttons: set<OpButton>, all: seq<OpBox>, box: OpBox, ghost net: Net)
    returns (tconnects: nat)
    requires World(desk, buttons, all, net) && box in all
    ensures Sink(net, box.num) ==> tconnects == 0
  {
    tconnects := 0;
    hide *;
    var j := 0;
    while j < |box.outputs|
      invariant j <= |box.outputs| && (Sink(net, box.num) ==> tconnects == 0)
    {
      SinkOutput(desk, buttons, all, net, box, j);
      tconnects := tconnects + |box.outputs[j].connectedTo|;
      j := j + 1;
    }
  }

  lemma SinkOutput(desk: OpDesk, buttons: set<OpButton>, all: seq<OpBox>, net: Net, box: OpBox, j: nat)
    requires World(desk, buttons, all, net) && box in all && j < |box.outputs|
    ensures Sink(net, box.num) ==> box.outputs[j].connectedTo == []
  {
    assert box.OnDesk(desk.at);
    var out := box.outputs[j];
    assert |Ids(out.connectedTo)| == |out.connectedTo| && net.lists[out.id] == Ids(out.connectedTo);
    if out.connectedTo != [] {
      assert net.lists[out.id][0] in net.lists[out.id];
      assert LinkOf(out.id, net.lists[out.id][0]) in net.connects;
    }
  }

  lemma LinksAmong(desk: OpDesk, buttons: set<OpButton>, all: seq<OpBox>, net: Net)
    requires World(desk, buttons, all, net)
    ensures forall l :: l in net.connects ==> l.src.box in NumSet(all) && l.dst.box in NumSet(all)
  {
    forall b | b in net.lists ensures b.box in NumSet(all) {
      assert b in desk.at;
    }
  }

  method Unmark(desk: OpDesk, ghost buttons: set<OpButton>, all: seq<OpBox>, ghost net: Net)
    requires World(desk, buttons, all, net)
    modifies all`traversed
    ensures World(desk, buttons, all, net) && Marked(all) == {}
  {
    hide *;
    var i := 0;
    while i < |all|
      invariant World(desk, buttons, all, net) && i <= |all|
      invariant forall k :: 0 <= k < i ==> !all[k].traversed
    {
      all[i].traversed := false;
      i := i + 1;
    }
    NoneMarked(all);
  }

  lemma NoneMarked(all: seq<OpBox>)
    requires forall k :: 0 <= k < |all| ==> !all[k].traversed
    ensures Marked(all) == {}
  {
  }

  // The boxes of the first n that feed nothing have been listed.
  ghost predicate SinksListed(net: Net, all: seq<OpBox>, n: nat, order: seq<nat>) {
    n <= |all| && forall i :: 0 <= i < n && Sink(net, all[i].num) ==> all[i].num in order
  }

  lemma SinksMore(net: Net, all: seq<OpBox>, n: nat, boxes: seq<OpBox>, boxes': seq<OpBox>)
    requires SinksListed(net, all, n, Nums(boxes)) && boxes <= boxes' && n < |all|
    requires Sink(net, all[n].num) ==> all[n].num in Nums(boxes')
    ensures SinksListed(net, all, n + 1, Nums(boxes'))
  {
    NumsGrow(boxes, boxes');
  }

  ghost predicate Complete(all: seq<OpBox>, order: seq<nat>) {
    forall i :: 0 <= i < |all| ==> all[i].num in order
  }

  /** GetBoxesSortedLeftToRight always ends with boxes of the desk, none twice. They are all the
      boxes, each after those that feed it, exactly if the connections have no cycle. */
  method GetBoxesSortedLeftToRight(desk: OpDesk, ghost buttons: set<OpButton>, all: seq<OpBox>, ghost net: Net)
    returns (boxes: seq<OpBox>)
    requires World(desk, buttons, all, net)
    modifies all`traversed
    ensures Among(boxes, all) && Distinct(Nums(boxes))
    ensures Ordered(net, Nums(boxes)) && Complete(all, Nums(boxes)) <==> Acyclic(net)
  {
    hide *;
    Unmark(desk, buttons, all, net);
    boxes := [];
    StartWalk(net, all);
    var i := 0;
    while i < |all|
      invariant World(desk, buttons, all, net) && Walking(net, Marked(all), all, boxes, [])
      invariant i <= |all| && (Acyclic(net) ==> SinksListed(net, all, i, Nums(boxes)))
    {
      ghost var before := boxes;
      var tconnects := TotalOutputs(desk, buttons, all, all[i], net);
      if tconnects == 0 {
        boxes := GetBoxesSorted(desk, buttons, all, boxes, all[i], net, []);
      }
      if Acyclic(net) {
        SinksMore(net, all, i, before, boxes);
      }
      i := i + 1;
    }
    EndWalk(desk, buttons, all, net, Marked(all), boxes);
  }

  lemma StartWalk(net: Net, all: seq<OpBox>)
    ensures Walking(net, {}, all, [], []) && SinksListed(net, all, 0, Nums([]))
  {
  }

  lemma EndWalk(desk: OpDesk, buttons: set<OpButton>, all: seq<OpBox>, net: Net, marked: set<nat>, boxes: seq<OpBox>)
    requires World(desk, buttons, all, net) && Walking(net, marked, all, boxes, [])
    requires Acyclic(net) ==> SinksListed(net, all, |all|, Nums(boxes))
    ensures Among(boxes, all) && Distinct(Nums(boxes))
    ensures Ordered(net, Nums(boxes)) && Complete(all, Nums(boxes)) <==> Acyclic(net)
  {
    LinksAmong(desk, buttons, all, net);
    hide World, Sink, Acyclic, Ordered;
    if Acyclic(net) {
      OrderedIsComplete(net, NumSet(all), Nums(boxes));
    } else if Ordered(net, Nums(boxes)) && Complete(all, Nums(boxes)) {
      OrderedIsAcyclic(net, Nums(boxes));
    }
  }
}
