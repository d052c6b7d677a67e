/** The bookmark and section lists of the bookmarks plugin, and the renumbering of sections. */
module Bookmarks {
  import opened Escape

  datatype BmRec = BmRec(key: int, section: int, url: Text, title: Text)
  datatype BmSec = BmSec(section: int, title: Text, oSec: int)

  const QUOTE: Text := [39]

  // "Unclassified"
  const UNCLASSIFIED: Text := [85, 110, 99, 108, 97, 115, 115, 105, 102, 105, 101, 100]

  // ----- The lists as values -----

  /** Sections ascend, from 0 on, and stay below the next number to be given. */
  ghost predicate Ascending(secs: seq<BmSec>, secKey: int) {
    && (forall i, j :: 0 <= i < j < |secs| ==> secs[i].section < secs[j].section)
    && (forall i :: 0 <= i < |secs| ==> 0 <= secs[i].section < secKey) && 0 <= secKey
  }

  /** Keys ascend and do not exceed the last one given. */
  ghost predicate Keyed(bms: seq<BmRec>, bmKey: int) {
    && (forall i, j :: 0 <= i < j < |bms| ==> bms[i].key < bms[j].key)
    && (forall i :: 0 <= i < |bms| ==> bms[i].key <= bmKey)
  }

  // The place of section number x; the number itself if there is no such section.
  function NewNumber(secs: seq<BmSec>, x: int): int {
    if secs == [] then x
    else if secs[|secs| - 1].section == x then |secs| - 1
    else NewNumber(secs[..|secs| - 1], x)
  }

  predicate Exists(secs: seq<BmSec>, x: int) {
    exists i :: 0 <= i < |secs| && secs[i].section == x
  }

  lemma {:induction false} NewNumberIs(secs: seq<BmSec>, secKey: int, x: int)
    requires Ascending(secs, secKey)
    ensures forall i :: 0 <= i < |secs| && secs[i].section == x ==> NewNumber(secs, x) == i
    ensures !Exists(secs, x) ==> NewNumber(secs, x) == x
  {
    if secs != [] {
      var n := |secs| - 1;
      NewNumberIs(secs[..n], secKey, x);
      if secs[n].section != x {
        assert forall i :: 0 <= i < n ==> secs[..n][i] == secs[i];
        assert Exists(secs[..n], x) ==> Exists(secs, x);
      }
    }
  }

  /** Renumbering one section after the other never moves a bookmark twice: what a section gives
      to its bookmarks is not the old number of a later one. */
  lemma NextSection(secs: seq<BmSec>, secKey: int, i: nat, x: int)
    requires Ascending(secs, secKey) && i < |secs|
    ensures NewNumber(secs[..i + 1], x)
         == if NewNumber(secs[..i], x) == secs[i].section then i else NewNumber(secs[..i], x)
  {
    var before, now := secs[..i], secs[..i + 1];
    assert now[..i] == before && now[i] == secs[i];
    assert Ascending(before, secKey);
    NewNumberIs(before, secKey, x);
    AtLeastPlace(secs, secKey, i);
    if Exists(before, x) {
      var p :| 0 <= p < i && before[p].section == x;
      assert secs[p].section < secs[i].section;
    }
  }

  lemma {:induction false} AtLeastPlace(secs: seq<BmSec>, secKey: int, i: nat)
    requires Ascending(secs, secKey) && i < |secs|
    ensures secs[i].section >= i
  {
    if i > 0 {
      AtLeastPlace(secs, secKey, i - 1);
    }
  }

  function Renumbered(secs: seq<BmSec>): seq<BmSec> {
    seq(|secs|, i requires 0 <= i < |secs| => BmSec(i, secs[i].title, secs[i].section))
  }

  function Moved(secs: seq<BmSec>, bms: seq<BmRec>): seq<BmRec> {
    seq(|bms|, j requires 0 <= j < |bms| => bms[j].(section := NewNumber(secs, bms[j].section)))
  }

  /** What renumbering means: a bookmark of an existing section stays in that section, and no
      bookmark without one joins a section unless its number is that of a place in the list. */
  lemma StaysInSection(secs: seq<BmSec>, secKey: int, b: BmRec, i: nat)
    requires Ascending(secs, secKey) && i < |secs|
    ensures var b' := b.(section := NewNumber(secs, b.section));
            b'.section == Renumbered(secs)[i].section <==>
              b.section == secs[i].section || (b.section == i && !Exists(secs, b.section))
  {
    NewNumberIs(secs, secKey, b.section);
    if Exists(secs, b.section) {
      var p :| 0 <= p < |secs| && secs[p].section == b.section;
      assert p != i ==> secs[p].section != secs[i].section;
    }
  }

  /** Renumbering keeps every bookmark in its section, and out of the others, if and only if the
      number of each bookmark that has no section is too large to be that of a place. */
  lemma MembershipExactly(secs: seq<BmSec>, secKey: int, bms: seq<BmRec>)
    requires Ascending(secs, secKey)
    ensures (forall j, i :: 0 <= j < |bms| && 0 <= i < |secs| ==>
               (Moved(secs, bms)[j].section == Renumbered(secs)[i].section <==> bms[j].section == secs[i].section))
            <==> forall j :: 0 <= j < |bms| ==> Exists(secs, bms[j].section) || !(0 <= bms[j].section < |secs|)
  {
    forall j, i | 0 <= j < |bms| && 0 <= i < |secs|
      ensures Moved(secs, bms)[j].section == Renumbered(secs)[i].section <==>
              bms[j].section == secs[i].section || (bms[j].section == i && !Exists(secs, bms[j].section))
    {
      StaysInSection(secs, secKey, bms[j], i);
    }
    forall j | 0 <= j < |bms| && !Exists(secs, bms[j].section) && 0 <= bms[j].section < |secs|
      ensures Moved(secs, bms)[j].section == Renumbered(secs)[bms[j].section].section
           && bms[j].section != secs[bms[j].section].section
    {
    }
    hide NewNumber;
  }

  /** The input on which it fails: section 1 has been deleted, a bookmark is moved to it all the same,
      and the next renumbering puts the bookmark into what was section 2. */
  lemma StaleTarget(b: BmRec, first: Text, last: Text)
    requires b.section == 1
    ensures var secs := [BmSec(0, first, 0), BmSec(2, last, 2)];
            && Ascending(secs, 3) && !Exists(secs, b.section)
            && Moved(secs, [b])[0].section == Renumbered(secs)[1].section && Renumbered(secs)[1].title == last
  {
    var secs := [BmSec(0, first, 0), BmSec(2, last, 2)];
    assert !Exists(secs, 1);
    NewNumberIs(secs, 3, 1);
  }

  /** Renumbering is idempotent on the sections and leaves bookmarks where they are the second
      time. */
  lemma NormalizedTwice(secs: seq<BmSec>, secKey: int, bms: seq<BmRec>)
    requires Ascending(secs, secKey)
    ensures Moved(Renumbered(secs), Moved(secs, bms)) == Moved(secs, bms)
  {
    var again := Renumbered(secs);
    assert Ascending(again, |again|);
    forall j | 0 <= j < |bms| ensures Moved(again, Moved(secs, bms))[j] == Moved(secs, bms)[j] {
      var x := Moved(secs, bms)[j].section;
      NewNumberIs(again, |again|, x);
      if Exists(again, x) {
        var p :| 0 <= p < |again| && again[p].section == x;
      }
    }
  }

  // ----- Removing -----

  function WithoutSection(bms: seq<BmRec>, section: int): seq<BmRec> {
    if bms == [] then []
    else (if bms[0].section == section then [] else [bms[0]]) + WithoutSection(bms[1..], section)
  }

  /** Exactly the bookmarks of the section are left out, the others stay in order. */
  lemma {:induction false} WithoutSectionLaw(bms: seq<BmRec>, b: BmRec, section: int)
    ensures WithoutSection([], section) == []
    ensures WithoutSection(bms + [b], section)
         == WithoutSection(bms, section) + if b.section == section then [] else [b]
  {
    if bms == [] {
      assert bms + [b] == [b];
    } else {
      assert (bms + [b])[1..] == bms[1..] + [b];
      WithoutSectionLaw(bms[1..], b, section);
    }
  }

  // dList_find_custom with one of the compare functions: the first entry of that number.
  function FindBy<T>(s: seq<T>, number: T -> int, x: int): (i: nat)
    ensures i <= |s| && (i < |s| ==> number(s[i]) == x)
    ensures forall k :: 0 <= k < i ==> number(s[k]) != x
  {
    if s == [] || number(s[0]) == x then 0 else FindBy(s[1..], number, x) + 1
  }

  function KeyOf(b: BmRec): int {
    b.key
  }

  function SectionOf(b: BmRec): int {
    b.section
  }

  function NumberOf(s: BmSec): int {
    s.section
  }

  // Deleting the first bookmark of a section, until none is left.
  lemma {:induction false} RemoveFirst(bms: seq<BmRec>, section: int, i: nat)
    requires i < |bms| && bms[i].section == section && forall k :: 0 <= k < i ==> bms[k].section != section
    ensures WithoutSection(bms[..i] + bms[i + 1..], section) == WithoutSection(bms, section)
  {
    var r := bms[..i] + bms[i + 1..];
    if i == 0 {
      assert r == bms[1..];
      assert WithoutSection(bms, section) == WithoutSection(bms[1..], section);
    } else {
      assert r[0] == bms[0] && r[1..] == bms[1..][..i - 1] + bms[1..][i..];
      RemoveFirst(bms[1..], section, i - 1);
    }
  }

  lemma {:induction false} NoneInSection(bms: seq<BmRec>, section: int)
    requires forall k :: 0 <= k < |bms| ==> bms[k].section != section
    ensures WithoutSection(bms, section) == bms
  {
    if bms != [] {
      NoneInSection(bms[1..], section);
    }
  }

  // A key finds its own bookmark only.
  lemma KeyFinds(bms: seq<BmRec>, bmKey: int, i: nat)
    requires Keyed(bms, bmKey) && i < |bms|
    ensures FindBy(bms, KeyOf, bms[i].key) == i
  {
  }

  // ----- The plugin's state -----

  class Store {
    var bms: seq<BmRec>
    var bmKey: int
    var secs: seq<BmSec>
    var secKey: int

    ghost predicate Valid()
      reads this
    {
      && Ascending(secs, secKey) && Keyed(bms, bmKey) && bmKey >= 0
      && (secs == [] ==> secKey == 0)
    }

    constructor ()
      ensures Valid() && bms == [] && secs == [] && bmKey == 0 && secKey == 0
    {
      bms, bmKey, secs, secKey := [], 0, [], 0;
    }

    /** Bms_add: the address is stored with its quotes escaped, the title with its entities. */
    method Add(section: int, url: Text, title: Text)
      requires Valid()
      modifies this`bms, this`bmKey
      ensures Valid()
      ensures bms == old(bms) + [BmRec(old(bmKey) + 1, section, EscapeUri(url, QUOTE), EscapeHtml(title))]
      ensures bmKey == old(bmKey) + 1
    {
      var u := EscapeUriStr(url, QUOTE);
      var t := EscapeHtmlStr(title);
      bmKey := bmKey + 1;
      bms := bms + [BmRec(bmKey, section, u, t)];
    }

    /** Bms_sec_add. */
    method SecAdd(title: Text)
      requires Valid()
      modifies this`secs, this`secKey
      ensures Valid() && |secs| == |old(secs)| + 1 && secs[..|old(secs)|] == old(secs)
      ensures secs[|old(secs)|] == BmSec(old(secKey), EscapeHtml(title), old(secKey)) && secKey == old(secKey) + 1
    {
      var t := EscapeHtmlStr(title);
      secs := secs + [BmSec(secKey, t, secKey)];
      secKey := secKey + 1;
    }

    /** Bms_del: exactly the bookmark of the key goes, if there is one. */
    method Del(key: int)
      requires Valid()
      modifies this`bms, this`bmKey
      ensures Valid()
      ensures var i := FindBy(old(bms), KeyOf, key);
              bms == if i < |old(bms)| then old(bms)[..i] + old(bms)[i + 1..] else old(bms)
      ensures bmKey == if bms == [] then 0 else old(bmKey)
    {
      var i := FindBy(bms, KeyOf, key);
      if i < |bms| {
        bms := bms[..i] + bms[i + 1..];
      }
      if |bms| == 0 {
        bmKey := 0;
      }
    }

    /** Bms_sec_del: the section goes with exactly its bookmarks. The numbers begin again at 0 once the
        last section, or the last bookmark, has been deleted. */
    method SecDel(section: int)
      requires Valid()
      modifies this
      ensures Valid()
      ensures var i := FindBy(old(secs), NumberOf, section);
              && secs == (if i < |old(secs)| then old(secs)[..i] + old(secs)[i + 1..] else old(secs))
              && bms == if i < |old(secs)| then WithoutSection(old(bms), section) else old(bms)
      ensures secKey == if secs == [] then 0 else old(secKey)
      ensures bmKey == if bms == [] && old(bms) != [] then 0 else old(bmKey)
    {
      var i := FindBy(secs, NumberOf, section);
      if i < |secs| {
        secs := secs[..i] + secs[i + 1..];
        if |secs| == 0 {
          secKey := 0;
        }
        DelAll(section);
      }
      if |secs| == 0 {
        secKey := 0;
      }
    }

    // The loop that deletes the bookmarks of a section by their keys.
    method DelAll(section: int)
      requires Valid()
      modifies this`bms, this`bmKey
      ensures Valid() && bms == WithoutSection(old(bms), section)
      ensures bmKey == if bms == [] && old(bms) != [] then 0 else old(bmKey)
    {
      var i := FindBy(bms, SectionOf, section);
      while i < |bms|
        invariant Valid() && i == FindBy(bms, SectionOf, section)
        invariant WithoutSection(bms, section) == WithoutSection(old(bms), section)
        invariant bmKey == if bms == [] && old(bms) != [] then 0 else old(bmKey)
        decreases |bms|
      {
        KeyFinds(bms, bmKey, i);
        RemoveFirst(bms, section, i);
        Del(bms[i].key);
        i := FindBy(bms, SectionOf, section);
      }
      NoneInSection(bms, section);
    }

    /** Bms_move. */
    method Move(key: int, target: int)
      requires Valid()
      modifies this`bms
      ensures Valid()
      ensures var i := FindBy(old(bms), KeyOf, key);
              bms == if i < |old(bms)| then old(bms)[i := old(bms)[i].(section := target)] else old(bms)
    {
      var i := FindBy(bms, KeyOf, key);
      if i < |bms| {
        bms := bms[i := bms[i].(section := target)];
      }
    }

    /** Bms_normalize: the sections become 0, 1, 2, ... in their order, and each bookmark's section
        number is replaced by the new one at once, though the code goes section by section. */
    method Normalize()
      requires Valid()
      modifies this
      ensures Valid() && |secs| >= 1
      ensures old(secs) != [] ==> secs == Renumbered(old(secs)) && bms == Moved(old(secs), old(bms))
      ensures old(secs) == [] ==> secs == [BmSec(0, EscapeHtml(UNCLASSIFIED), 0)] && bms == old(bms)
      ensures bmKey == old(bmKey) && secKey == if old(secs) == [] then 1 else old(secKey)
    {
      hide *;
      if |secs| == 0 {
        AddUnclassified();
        OnlySection(secs, bms);
      }
      Renumber();
    }

    // We need at least one section.
    method AddUnclassified()
      requires Valid() && secs == []
      modifies this`secs, this`secKey
      ensures Valid() && secs == [BmSec(0, EscapeHtml(UNCLASSIFIED), 0)] && secKey == 1
    {
      hide EscapeHtml, Keyed;
      SecAdd(UNCLASSIFIED);
    }

    // The two loops: the sections get their places as numbers, and take their bookmarks along.
    method Renumber()
      requires Valid() && secs != []
      modifies this
      ensures Valid() && |secs| >= 1 && secs == Renumbered(old(secs)) && bms == Moved(old(secs), old(bms))
      ensures bmKey == old(bmKey) && secKey == old(secKey)
    {
      hide *;
      ghost var was, recs := secs, bms;
      MovedNone(was, recs);
      ValidMeans();
      Number();
      var i := 0;
      while i < |secs|
        invariant i <= |secs| == |was| && secs == Renumbered(was) && bms == Moved(was[..i], recs)
        invariant secKey == old(secKey) >= |was| && bmKey == old(bmKey) && Ascending(was, secKey)
      {
        ghost var before := bms;
        RenumberedAt(was, i);
        if secs[i].section != secs[i].oSec {
          MoveSection(secs[i].oSec, secs[i].section);
        }
        MovedNext(was, secKey, recs, i, before, bms);
        i := i + 1;
      }
      assert was[..i] == was;
      StaysValid(was, recs);
    }

    lemma ValidMeans()
      requires Valid()
      ensures Ascending(secs, secKey) && Keyed(bms, bmKey) && bmKey >= 0 && |Renumbered(secs)| == |secs|
    {
    }

    lemma StaysValid(was: seq<BmSec>, recs: seq<BmRec>)
      requires secs == Renumbered(was) && bms == Moved(was, recs) && |was| >= 1 && secKey >= |was|
      requires Keyed(recs, bmKey) && bmKey >= 0
      ensures Valid() && |secs| >= 1
    {
    }

    // The loop that gives the sections their places as numbers.
    method Number()
      requires Valid()
      modifies this`secs
      ensures secs == Renumbered(old(secs)) && secKey >= |secs|
    {
      var i := 0;
      while i < |secs|
        invariant i <= |secs| == |old(secs)|
        invariant forall k :: 0 <= k < |secs| ==> secs[k] == if k < i then Renumbered(old(secs))[k] else old(secs)[k]
      {
        secs := secs[i := secs[i].(oSec := secs[i].section)];
        secs := secs[i := secs[i].(section := i)];
        i := i + 1;
      }
      if |secs| > 0 {
        AtLeastPlace(old(secs), secKey, |secs| - 1);
      }
    }

    // The loop that moves the bookmarks of one section.
    method MoveSection(oSec: int, section: int)
      modifies this`bms
      ensures |bms| == |old(bms)|
      ensures forall j :: 0 <= j < |bms| ==>
                bms[j] == if old(bms)[j].section == oSec then old(bms)[j].(section := section) else old(bms)[j]
    {
      var j := 0;
      while j < |bms|
        invariant j <= |bms| == |old(bms)|
        invariant forall k :: 0 <= k < |bms| ==>
                    bms[k] == if k < j && old(bms)[k].section == oSec
                              then old(bms)[k].(section := section) else old(bms)[k]
      {
        if bms[j].section == oSec {
          bms := bms[j := bms[j].(section := section)];
        }
        j := j + 1;
      }
    }
  }

  lemma OnlySection(secs: seq<BmSec>, bms: seq<BmRec>)
    requires |secs| == 1 && secs[0].section == 0 == secs[0].oSec
    ensures Renumbered(secs) == secs && Moved(secs, bms) == bms
  {
    MovedByOne(secs, bms);
    hide Moved;
  }

  lemma MovedByOne(secs: seq<BmSec>, bms: seq<BmRec>)
    requires |secs| == 1 && secs[0].section == 0
    ensures Moved(secs, bms) == bms
  {
    assert secs[..0] == [];
    forall j | 0 <= j < |bms| ensures Moved(secs, bms)[j] == bms[j] {
      assert NewNumber(secs, bms[j].section) == bms[j].section;
    }
  }

  lemma MovedNone(secs: seq<BmSec>, bms: seq<BmRec>)
    ensures Moved(secs[..0], bms) == bms
  {
    assert secs[..0] == [];
  }

  lemma RenumberedAt(secs: seq<BmSec>, i: nat)
    requires i < |secs|
    ensures |Renumbered(secs)| == |secs|
    ensures Renumbered(secs)[i].section == i && Renumbered(secs)[i].oSec == secs[i].section
  {
  }

  // Moving the bookmarks of section i brings its number into the new numbering.
  lemma MovedNext(secs: seq<BmSec>, secKey: int, bms: seq<BmRec>, i: nat, before: seq<BmRec>, after: seq<BmRec>)
    requires i < |secs| && Ascending(secs, secKey) && before == Moved(secs[..i], bms) && |after| == |before|
    requires forall j :: 0 <= j < |after| ==>
               after[j] == if before[j].section == secs[i].section then before[j].(section := i) else before[j]
    ensures after == Moved(secs[..i + 1], bms)
  {
    forall j | 0 <= j < |bms| ensures after[j] == Moved(secs[..i + 1], bms)[j] {
      NextSection(secs, secKey, i, bms[j].section);
    }
  }
}
