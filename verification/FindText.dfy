/** Incremental text search: the KMP table, one forward search, and search sessions with restart. */
module FindText {
  import opened Common

  // ----- Characters (dillo/dw/findtext.hh) -----

  function ToLower(c: char): char {
    if 'A' <= c <= 'Z' then (c as int + 32) as char else c
  }

  predicate IsSpace(c: char) {
    c == ' ' || '\t' <= c <= '\r'
  }

  predicate CharsEqual(c1: char, c2: char, caseSens: bool) {
    if caseSens then c1 == c2 else ToLower(c1) == ToLower(c2) || (IsSpace(c1) && IsSpace(c2))
  }

  /** The comparison is an equivalence: any two characters equal to a third are equal. The search
      skips positions on the strength of it. */
  lemma CharsEqualEuclidean(a: char, b: char, c: char, caseSens: bool)
    requires CharsEqual(a, b, caseSens) && CharsEqual(a, c, caseSens)
    ensures CharsEqual(b, c, caseSens) && CharsEqual(c, b, caseSens) && CharsEqual(b, a, caseSens)
  {
  }

  // The white-space characters: space, tab, line feed, vertical tab, form feed, return.
  const WHITE: set<int> := {32, 9, 10, 11, 12, 13}

  // Two characters that are taken for one another when case is ignored.
  predicate Alike(a: char, b: char) {
    || a == b
    || ('A' <= a <= 'Z' && b as int == a as int + 32)
    || ('A' <= b <= 'Z' && a as int == b as int + 32)
    || (a as int in WHITE && b as int in WHITE)
  }

  /** With case-sensitivity characters agree only if they are the same; without it also a letter and
      its other case, and any two white-space characters. */
  lemma CharsAgree(a: char, b: char)
    ensures CharsEqual(a, b, true) <==> a == b
    ensures CharsEqual(a, b, false) <==> Alike(a, b)
  {
  }

  // ----- Occurrences and borders -----

  // The first n characters of the key stand at position p of the text.
  predicate Matches(text: string, key: string, caseSens: bool, p: int, n: int) {
    && 0 <= p && 0 <= n <= |key| && p + n <= |text|
    && forall i :: 0 <= i < n ==> CharsEqual(text[p + i], key[i], caseSens)
  }

  predicate OccursAt(text: string, key: string, caseSens: bool, p: int) {
    Matches(text, key, caseSens, p, |key|)
  }

  // The key stands at position p of the text.
  ghost predicate StandsAt(text: string, key: string, caseSens: bool, p: int) {
    && 0 <= p && p + |key| <= |text|
    && if caseSens then text[p..p + |key|] == key else forall i :: 0 <= i < |key| ==> Alike(text[p + i], key[i])
  }

  lemma OccursMeans(text: string, key: string, caseSens: bool, p: int)
    ensures OccursAt(text, key, caseSens, p) <==> StandsAt(text, key, caseSens, p)
  {
    if 0 <= p && p + |key| <= |text| {
      forall i | 0 <= i < |key|
        ensures CharsEqual(text[p + i], key[i], caseSens)
                <==> if caseSens then text[p + i] == key[i] else Alike(text[p + i], key[i])
      {
        CharsAgree(text[p + i], key[i]);
      }
      hide CharsEqual, Alike;
      var here := text[p..p + |key|];
      assert forall i :: 0 <= i < |key| ==> here[i] == text[p + i];
    }
  }

  // The first m of the first i characters of the key are also the last m of them.
  predicate Border(key: string, caseSens: bool, i: int, m: int) {
    0 <= m < i <= |key| && Matches(key, key, caseSens, i - m, m)
  }

  ghost predicate NoneLonger(key: string, caseSens: bool, i: int, m: int) {
    forall m' :: m < m' < i ==> !Border(key, caseSens, i, m')
  }

  ghost predicate LongestBorder(key: string, caseSens: bool, i: int, m: int) {
    Border(key, caseSens, i, m) && NoneLonger(key, caseSens, i, m)
  }

  ghost predicate IsNexttab(t: seq<int>, key: string, caseSens: bool) {
    && |t| == |key| + 1 && t[0] == -1
    && forall i :: 0 < i < |key| ==> LongestBorder(key, caseSens, i, t[i])
  }

  // Two stretches that match the key at the same place of the text match each other.
  lemma BorderFromMatches(text: string, key: string, caseSens: bool, p: int, j: int, m: int)
    requires 0 <= m < j && Matches(text, key, caseSens, p, j) && Matches(text, key, caseSens, p + j - m, m)
    ensures Border(key, caseSens, j, m)
  {
    forall i | 0 <= i < m ensures CharsEqual(key[j - m + i], key[i], caseSens) {
      assert CharsEqual(text[p + j - m + i], key[i], caseSens);
      assert CharsEqual(text[p + (j - m + i)], key[j - m + i], caseSens);
      CharsEqualEuclidean(text[p + j - m + i], key[j - m + i], key[i], caseSens);
    }
  }

  lemma MatchesFewer(text: string, key: string, caseSens: bool, p: int, j: int, m: int)
    requires 0 <= m <= j && Matches(text, key, caseSens, p, j)
    ensures Matches(text, key, caseSens, p, m)
  {
  }

  // Where the text ends like the key's first j characters, it ends like each border of them.
  lemma MatchesBorder(text: string, key: string, caseSens: bool, p: int, j: int, m: int)
    requires Matches(text, key, caseSens, p, j) && Border(key, caseSens, j, m)
    ensures Matches(text, key, caseSens, p + j - m, m)
  {
    forall i | 0 <= i < m ensures CharsEqual(text[p + j - m + i], key[i], caseSens) {
      var c := key[j - m + i];
      assert CharsEqual(text[p + (j - m + i)], c, caseSens);
      assert CharsEqual(c, key[i], caseSens);
      CharsEqualEuclidean(text[p + j - m + i], c, c, caseSens);
      CharsEqualEuclidean(c, text[p + j - m + i], key[i], caseSens);
    }
  }

  // ----- The table (dillo/dw/findtext.cc) -----

  // Every border of the next prefix that is longer than j + 1 has been ruled out.
  ghost predicate Candidate(key: string, caseSens: bool, i: int, j: int) {
    && -1 <= j < i < |key| && (j >= 0 ==> Border(key, caseSens, i, j))
    && NoneLonger(key, caseSens, i + 1, j + 1)
  }

  // A border of i + 1 is a border of i and one more character.
  lemma BorderStep(key: string, caseSens: bool, i: int, m: int)
    requires 0 <= i < |key|
    ensures 0 <= m < i ==>
              (Border(key, caseSens, i + 1, m + 1)
               <==> Border(key, caseSens, i, m) && CharsEqual(key[i], key[m], caseSens))
  {
    if 0 <= m < i {
      hide CharsEqual;
      assert Border(key, caseSens, i + 1, m + 1) ==> CharsEqual(key[(i - m) + m], key[m], caseSens);
    }
  }

  // On a mismatch at j only the borders of the first j characters remain.
  lemma OnlyBordersOfBorder(key: string, caseSens: bool, i: int, j: int, m: int)
    requires Candidate(key, caseSens, i, j) && j >= 0 && !CharsEqual(key[i], key[j], caseSens)
    requires 0 <= m < i && Border(key, caseSens, i + 1, m + 1)
    ensures m < j && Border(key, caseSens, j, m)
  {
    BorderStep(key, caseSens, i, m);
    hide Matches, CharsEqual;
    if m < j {
      BorderFromMatches(key, key, caseSens, i - j, j, m);
    }
  }

  lemma FallBack(key: string, caseSens: bool, i: int, j: int, next: int)
    requires Candidate(key, caseSens, i, j) && j >= 0 && !CharsEqual(key[i], key[j], caseSens)
    requires if j == 0 then next == -1 else LongestBorder(key, caseSens, j, next)
    ensures Candidate(key, caseSens, i, next) && next < j
  {
    hide Matches, CharsEqual;
    if next >= 0 {
      MatchesBorder(key, key, caseSens, i - j, j, next);
    }
    var n := i + 1;
    forall m | next + 1 < m < n ensures !Border(key, caseSens, n, m) {
      if Border(key, caseSens, n, m) {
        OnlyBordersOfBorder(key, caseSens, i, j, m - 1);
      }
    }
  }

  // A match extends the candidate, which then is the longest border.
  lemma Extend(key: string, caseSens: bool, i: int, j: int)
    requires Candidate(key, caseSens, i, j) && (j == -1 || CharsEqual(key[i], key[j], caseSens))
    ensures LongestBorder(key, caseSens, i + 1, j + 1)
    ensures i + 1 < |key| ==> Candidate(key, caseSens, i + 1, j + 1)
  {
    if j >= 0 {
      BorderStep(key, caseSens, i, j);
    }
    if i + 1 < |key| {
      var n := i + 2;
      forall m | j + 2 < m < n ensures !Border(key, caseSens, n, m) {
        BorderStep(key, caseSens, i + 1, m - 1);
      }
    }
  }

  /** createNexttab, forwards: entry i (0 < i < length) is the longest proper border of the first
      i characters, found in linearly many steps. */
  method CreateNexttab(key: string, caseSens: bool) returns (nexttab: array<int>, ghost steps: nat)
    requires key != ""
    ensures fresh(nexttab) && IsNexttab(nexttab[..], key, caseSens) && steps <= 2 * |key|
  {
    var i, j, l := 0, -1, |key|;
    nexttab := new int[l + 1];
    nexttab[0] := -1;
    steps := 0;
    hide Matches, Border, NoneLonger, CharsEqual;
    while true
      invariant 0 <= i < l && nexttab[0] == -1
      invariant forall k :: 0 < k <= i ==> LongestBorder(key, caseSens, k, nexttab[k])
      invariant Candidate(key, caseSens, i, j)
      invariant i == 0 || i < l - 1
      invariant steps <= 2 * i - j - 1
      decreases l - i, j
    {
      steps := steps + 1;
      if j == -1 || CharsEqual(key[i], key[j], caseSens) {
        Extend(key, caseSens, i, j);
        i := i + 1;
        j := j + 1;
        nexttab[i] := j;
      } else {
        FallBack(key, caseSens, i, j, nexttab[j]);
        j := nexttab[j];
      }
      if !(i < l - 1) { break; }
    }
  }

  // ----- One search -----

  /** The leftmost occurrence at or after `from`. */
  function First(text: string, key: string, caseSens: bool, from: nat): Option<nat>
    decreases |text| - from
  {
    if from + |key| > |text| then None
    else if OccursAt(text, key, caseSens, from) then Some(from)
    else First(text, key, caseSens, from + 1)
  }

  lemma {:induction false} FirstIsLeftmost(text: string, key: string, caseSens: bool, from: nat)
    ensures match First(text, key, caseSens, from)
            case Some(p) =>
              from <= p && OccursAt(text, key, caseSens, p)
              && forall q :: from <= q < p ==> !OccursAt(text, key, caseSens, q)
            case None => forall q :: from <= q ==> !OccursAt(text, key, caseSens, q)
    decreases |text| - from
  {
    if from + |key| <= |text| && !OccursAt(text, key, caseSens, from) {
      hide Matches;
      FirstIsLeftmost(text, key, caseSens, from + 1);
    }
  }

  lemma FirstExists(text: string, key: string, caseSens: bool, p: nat)
    requires OccursAt(text, key, caseSens, p)
    ensures First(text, key, caseSens, 0) != None
  {
    FirstIsLeftmost(text, key, caseSens, 0);
  }

  // The search stands at `it` with j characters matched: nothing before it - j was missed.
  ghost predicate Scanned(text: string, key: string, caseSens: bool, from: int, it: int, j: int) {
    && -1 <= j <= |key| && 0 <= from <= it - j && it <= |text|
    && (j >= 0 ==> Matches(text, key, caseSens, it - j, j))
    && NoneBetween(text, key, caseSens, from, it - j)
  }

  ghost predicate NoneBetween(text: string, key: string, caseSens: bool, from: int, to: int) {
    forall p :: from <= p < to ==> !OccursAt(text, key, caseSens, p)
  }

  // After a mismatch every start that the table skips is hopeless.
  lemma Shift(text: string, key: string, caseSens: bool, from: int, it: int, j: int, next: int)
    requires Scanned(text, key, caseSens, from, it, j) && 0 <= j < |key| && it < |text|
    requires !CharsEqual(text[it], key[j], caseSens)
    requires if j == 0 then next == -1 else LongestBorder(key, caseSens, j, next)
    ensures Scanned(text, key, caseSens, from, it, next) && next < j
  {
    forall p | from <= p < it - next ensures !OccursAt(text, key, caseSens, p) {
      if p >= it - j && OccursAt(text, key, caseSens, p) {
        Hopeless(text, key, caseSens, it, j, next, p);
      }
    }
    if next >= 0 {
      hide Matches;
      MatchesBorder(text, key, caseSens, it - j, j, next);
    }
  }

  lemma Hopeless(text: string, key: string, caseSens: bool, it: int, j: int, next: int, p: int)
    requires 0 <= j < |key| && 0 <= it < |text| && Matches(text, key, caseSens, it - j, j)
    requires !CharsEqual(text[it], key[j], caseSens)
    requires if j == 0 then next == -1 else LongestBorder(key, caseSens, j, next)
    requires it - j <= p < it - next
    ensures !OccursAt(text, key, caseSens, p)
  {
    if OccursAt(text, key, caseSens, p) {
      var m := it - p;
      assert CharsEqual(text[p + m], key[m], caseSens);
      MatchesFewer(text, key, caseSens, p, |key|, m);
      hide Matches;
      assert m < j;
      BorderFromMatches(text, key, caseSens, it - j, j, m);
    }
  }

  lemma Advanced(text: string, key: string, caseSens: bool, from: int, it: int, j: int)
    requires Scanned(text, key, caseSens, from, it, j) && j < |key| && it < |text|
    requires j == -1 || CharsEqual(text[it], key[j], caseSens)
    ensures Scanned(text, key, caseSens, from, it + 1, j + 1)
  {
  }

  // At the end of the text no start is left.
  lemma Exhausted(text: string, key: string, caseSens: bool, from: nat, j: int)
    requires Scanned(text, key, caseSens, from, |text|, j) && j < |key|
    ensures First(text, key, caseSens, from) == None
  {
    FirstIsLeftmost(text, key, caseSens, from);
  }

  lemma FoundHere(text: string, key: string, caseSens: bool, from: nat, it: int)
    requires Scanned(text, key, caseSens, from, it, |key|)
    ensures First(text, key, caseSens, from) == Some(it - |key|)
    ensures OccursAt(text, key, caseSens, it - |key|)
  {
    FirstIsLeftmost(text, key, caseSens, from);
    hide Matches;
    assert OccursAt(text, key, caseSens, it - |key|);
  }

  /** A position in the text of a widget: before it (-1), at a character, or at its end. */
  class CharIterator {
    const text: string
    var pos: int

    ghost predicate Valid()
      reads this
    {
      -1 <= pos <= |text|
    }

    constructor (text: string)
      ensures Valid() && this.text == text && pos == -1
    {
      this.text := text;
      pos := -1;
    }

    constructor Clone(other: CharIterator)
      ensures text == other.text && pos == other.pos
    {
      text := other.text;
      pos := other.pos;
    }

    method Next() returns (more: bool)
      requires Valid()
      modifies this
      ensures pos == (if old(pos) < |text| then old(pos) + 1 else old(pos)) && more == (pos < |text|)
    {
      if pos < |text| {
        pos := pos + 1;
      }
      more := pos < |text|;
    }

    method Prev() returns (more: bool)
      requires Valid()
      modifies this
      ensures pos == (if old(pos) >= 0 then old(pos) - 1 else old(pos)) && more == (pos >= 0)
    {
      if pos >= 0 {
        pos := pos - 1;
      }
      more := pos >= 0;
    }

    method Back(n: nat)
      requires Valid() && n <= pos + 1
      modifies this
      ensures pos == old(pos) - n
    {
      for i := 0 to n
        invariant pos == old(pos) - i
      {
        var _ := Prev();
      }
    }
  }

  /** search0, forwards: it succeeds exactly if the key occurs at or after the iterator, leaves
      the iterator at the leftmost such occurrence (or at the end), and takes linearly many
      steps. */
  method Search0(iter: CharIterator, key: string, caseSens: bool, nexttab: array<int>)
    returns (found: bool, ghost steps: nat)
    requires key != "" && IsNexttab(nexttab[..], key, caseSens) && 0 <= iter.pos <= |iter.text|
    modifies iter
    ensures match First(iter.text, key, caseSens, old(iter.pos))
            case Some(p) => found && iter.pos == p
            case None => !found && iter.pos == |iter.text|
    ensures found ==> OccursAt(iter.text, key, caseSens, iter.pos)
    ensures steps <= 2 * (|iter.text| - old(iter.pos)) + 1
  {
    steps := 0;
    if iter.pos == |iter.text| {
      return false, steps;
    }
    ghost var from, text := iter.pos, iter.text;
    var j, nextit, l := 0, true, |key|;
    hide Matches, CharsEqual, LongestBorder, NoneBetween, First;
    assert Scanned(text, key, caseSens, from, from, 0) by { Started(text, key, caseSens, from); }
    while true
      invariant Scanned(text, key, caseSens, from, iter.pos, j)
      invariant nextit && j < l && iter.pos < |text|
      invariant steps <= 2 * (iter.pos - from) - j
      decreases |text| - iter.pos, j
    {
      steps := steps + 1;
      if j == -1 || CharsEqual(iter.text[iter.pos], key[j], caseSens) {
        Advanced(text, key, caseSens, from, iter.pos, j);
        j := j + 1;
        nextit := iter.Next();
      } else {
        assert nexttab[..][j] == nexttab[j];
        Shift(text, key, caseSens, from, iter.pos, j, nexttab[j]);
        j := nexttab[j];
      }
      if !(nextit && j < l) { break; }
    }
    if j >= l {
      FoundHere(text, key, caseSens, from, iter.pos);
      iter.Back(l);
      found := true;
    } else {
      Exhausted(text, key, caseSens, from, j);
      found := false;
    }
  }

  lemma Started(text: string, key: string, caseSens: bool, from: nat)
    requires from <= |text|
    ensures Scanned(text, key, caseSens, from, from, 0)
  {
  }

  // ----- Search sessions -----

  datatype Result = Success | Restart | NotFound

  /** What is remembered between searches: the key and, when it was found, where. */
  datatype Session = Fresh | Found(key: string, caseSens: bool, at: nat) | Absent(key: string, caseSens: bool)

  /** The next search, as the user sees it. */
  function Searched(text: string, s: Session, key: string, caseSens: bool): (Session, Result) {
    if key == "" then (s, NotFound)
    else
      var again := s.Found? && s.key == key && s.caseSens == caseSens;
      match First(text, key, caseSens, if again then s.at + 1 else 0)
      case Some(p) => (Found(key, caseSens, p), Success)
      case None =>
        match First(text, key, caseSens, 0)
        case Some(p) => (Found(key, caseSens, p), Restart)
        case None => (Absent(key, caseSens), NotFound)
  }

  // What a search from `from` leads to; when it is not the first trial the key is known to occur.
  function Outcome(text: string, key: string, caseSens: bool, from: nat, firstTrial: bool): (Session, Result) {
    match First(text, key, caseSens, from)
    case Some(p) => (Found(key, caseSens, p), Success)
    case None =>
      if firstTrial then (Absent(key, caseSens), NotFound)
      else
        match First(text, key, caseSens, 0)
        case Some(p) => (Found(key, caseSens, p), Restart)
        case None => (Absent(key, caseSens), NotFound)
  }

  // The leftmost place at or after `from`.
  ghost predicate Leftmost(text: string, key: string, caseSens: bool, from: nat, p: nat) {
    && from <= p && StandsAt(text, key, caseSens, p)
    && forall q :: from <= q < p ==> !StandsAt(text, key, caseSens, q)
  }

  ghost predicate Nowhere(text: string, key: string, caseSens: bool, from: nat) {
    forall q :: from <= q ==> !StandsAt(text, key, caseSens, q)
  }

  /** What a search answers: the leftmost place behind the remembered one, or else the leftmost place of
      all, or else that there is none. */
  ghost predicate Answers(text: string, s: Session, key: string, caseSens: bool, s': Session, result: Result) {
    var from := if s.Found? && s.key == key && s.caseSens == caseSens then s.at + 1 else 0;
    match result
    case Success => s' == Found(key, caseSens, Place(s')) && Leftmost(text, key, caseSens, from, Place(s'))
    case Restart =>
      && s' == Found(key, caseSens, Place(s')) && Nowhere(text, key, caseSens, from)
      && Leftmost(text, key, caseSens, 0, Place(s'))
    case NotFound => s' == Absent(key, caseSens) && Nowhere(text, key, caseSens, 0)
  }

  function Place(s: Session): nat {
    if s.Found? then s.at else 0
  }

  lemma FirstMeans(text: string, key: string, caseSens: bool, from: nat)
    ensures match First(text, key, caseSens, from)
            case Some(p) => Leftmost(text, key, caseSens, from, p)
            case None => Nowhere(text, key, caseSens, from)
  {
    FirstIsLeftmost(text, key, caseSens, from);
    hide First, OccursAt, StandsAt;
    forall q ensures OccursAt(text, key, caseSens, q) <==> StandsAt(text, key, caseSens, q) {
      OccursMeans(text, key, caseSens, q);
    }
  }

  lemma SearchedMeans(text: string, s: Session, key: string, caseSens: bool)
    requires key != ""
    ensures var r := Searched(text, s, key, caseSens); Answers(text, s, key, caseSens, r.0, r.1)
  {
    hide First, Leftmost, Nowhere;
    FirstMeans(text, key, caseSens, if s.Found? && s.key == key && s.caseSens == caseSens then s.at + 1 else 0);
    FirstMeans(text, key, caseSens, 0);
  }

  lemma NothingAtEnd(text: string, key: string, caseSens: bool)
    requires key != ""
    ensures First(text, key, caseSens, |text|) == None
  {
  }

  class FindtextState {
    var key: Option<string>
    var caseSens: bool
    var nexttab: array?<int>
    var widget: Option<string>
    var iter: CharIterator?
    var hlIter: CharIterator?

    // A search for the remembered key can run.
    ghost predicate Ready()
      reads this, nexttab, iter, hlIter
    {
      && (hlIter != null ==> key.Some?)
      && (key.Some? ==>
            && key.value != "" && widget.Some? && nexttab != null && IsNexttab(nexttab[..], key.value, caseSens)
            && iter != null && iter.text == widget.value && 0 <= iter.pos <= |iter.text|)
    }

    // The highlight ends behind the found text, or on the last character of the widget.
    ghost predicate Valid()
      reads this, nexttab, iter, hlIter
    {
      && Ready()
      && (key.Some? && hlIter == null ==>
            iter.pos == |iter.text| && First(iter.text, key.value, caseSens, 0) == None)
      && (hlIter != null ==>
            && hlIter != iter && hlIter.text == iter.text && iter.pos > 0
            && OccursAt(iter.text, key.value, caseSens, iter.pos - 1)
            && var end := iter.pos - 1 + |key.value|;
               hlIter.pos == if end < |iter.text| then end else end - 1)
    }

    ghost function View(): Session
      requires Valid()
      reads this, nexttab, iter, hlIter
    {
      if key == None then Fresh
      else if hlIter == null then Absent(key.value, caseSens)
      else Found(key.value, caseSens, iter.pos - 1)
    }

    // The remembered key, which occurs, is to be searched from the beginning again.
    ghost predicate Restarting(key: string, caseSens: bool)
      reads this, nexttab, iter, hlIter
    {
      && Ready() && hlIter == null && this.key == Some(key) && this.caseSens == caseSens
      && iter.pos == 0 && First(iter.text, key, caseSens, 0) != None
    }

    constructor ()
      ensures Valid() && View() == Fresh && widget == None
    {
      key, caseSens, nexttab, widget, iter, hlIter := None, false, null, None, null, null;
    }

    method SetWidget(widget: string)
      modifies this
      ensures Valid() && View() == Fresh && this.widget == Some(widget)
    {
      this.widget := Some(widget);
      key, nexttab, iter, hlIter := None, null, null, null;
    }

    method ResetSearch()
      requires Valid()
      modifies this
      ensures Valid() && View() == Fresh && widget == old(widget)
    {
      var _, _ := Unhighlight();
      key := None;
    }

    /** Takes the highlight off; the region covers all of the found text. */
    method Unhighlight() returns (was: bool, region: Option<(int, int)>)
      requires Ready() && (Valid() || hlIter == null)
      modifies this`hlIter
      ensures Ready() && hlIter == null && was == (old(hlIter) != null) && was == region.Some?
      ensures was ==> region.value.0 <= iter.pos - 1 && iter.pos - 1 + |key.value| <= region.value.1 + 1
    {
      if hlIter != null {
        var start := new CharIterator.Clone(hlIter);
        start.Back(|key.value|);
        was, region := true, Some((start.pos, hlIter.pos));
        hlIter := null;
      } else {
        was, region := false, None;
      }
    }

    // CharIterator::highlight: the end iterator is moved back from the end of the text.
    method Highlight(end: CharIterator)
      requires 0 <= end.pos <= |end.text|
      modifies end
      ensures end.pos == if old(end.pos) == |end.text| then old(end.pos) - 1 else old(end.pos)
    {
      if end.pos == |end.text| {
        var _ := end.Prev();
      }
    }

    // A found key is highlighted, and the search will go on behind its first character.
    method Mark()
      requires Ready() && key.Some? && hlIter == null && OccursAt(iter.text, key.value, caseSens, iter.pos)
      modifies this`hlIter, iter
      ensures Valid() && View() == Found(key.value, caseSens, old(iter.pos))
    {
      var end := new CharIterator.Clone(iter);
      for i := 0 to |key.value|
        invariant end.pos == iter.pos + i && iter.pos == old(iter.pos)
      {
        var _ := end.Next();
      }
      Highlight(end);
      hlIter := end;
      var _ := iter.Next();
    }

    // A new key: the table is built and the iterator stands at the first character.
    method NewKey(key: string, caseSens: bool)
      requires key != "" && widget.Some? && hlIter == null
      modifies this
      ensures Ready() && this.key == Some(key) && this.caseSens == caseSens && hlIter == null
      ensures iter != null && fresh(iter) && iter.pos == 0 && widget == old(widget)
    {
      this.key, this.caseSens := Some(key), caseSens;
      var table, _ := CreateNexttab(key, caseSens);
      nexttab := table;
      Rewind();
    }

    method Rewind()
      requires widget.Some?
      modifies this`iter
      ensures iter != null && fresh(iter) && iter.text == widget.value && iter.pos == 0
    {
      iter := new CharIterator(widget.value);
      var _ := iter.Next();
    }

    // The highlight is taken off, and a changed key is taken over.
    method Prepare(key: string, caseSens: bool) returns (firstTrial: bool)
      requires widget.Some? && key != "" && (Valid() || Restarting(key, caseSens))
      modifies this
      ensures Ready() && hlIter == null && this.key == Some(key) && this.caseSens == caseSens
      ensures widget == old(widget) && (iter == old(iter) || fresh(iter))
      ensures old(Valid()) ==>
                Searched(widget.value, old(View()), key, caseSens)
                  == Outcome(iter.text, key, caseSens, iter.pos, firstTrial)
      ensures !firstTrial ==> First(iter.text, key, caseSens, 0) != None
      ensures old(Restarting(key, caseSens)) ==> firstTrial && iter.pos == 0
    {
      hide First, Matches;
      if hlIter != null {
        FirstExists(iter.text, this.key.value, this.caseSens, iter.pos - 1);
      } else {
        NothingAtEnd(widget.value, key, caseSens);
      }
      var wasHighlighted, _ := Unhighlight();
      var newKey := this.key != Some(key) || this.caseSens != caseSens;
      if newKey {
        NewKey(key, caseSens);
      }
      firstTrial := !wasHighlighted || newKey;
    }

    /** search, forwards. The recursive call made after the last occurrence never fails. */
    method Search(key: string, caseSens: bool) returns (result: Result)
      requires Valid() || Restarting(key, caseSens)
      modifies this, iter
      ensures Valid() && widget == old(widget)
      ensures widget == None || key == "" ==> result == NotFound && View() == old(View())
      ensures widget.Some? && old(Valid()) ==>
                (View(), result) == Searched(widget.value, old(View()), key, caseSens)
      ensures widget.Some? && key != "" && old(Valid()) ==>
                Answers(widget.value, old(View()), key, caseSens, View(), result)
      ensures old(Restarting(key, caseSens)) ==>
                result == Success && (View(), Success) == Searched(widget.value, Fresh, key, caseSens)
      decreases hlIter != null
    {
      if widget == None || key == "" { return NotFound; }
      hide Matches, First, IsNexttab, Answers, Searched, Outcome;
      if Valid() {
        SearchedMeans(widget.value, View(), key, caseSens);
      }
      var firstTrial := Prepare(key, caseSens);
      var found, _ := Search0(iter, key, caseSens, nexttab);
      if found {
        Mark();
        return Success;
      } else if firstTrial {
        return NotFound;
      } else {
        Rewind();
        var result2 := Search(key, caseSens);
        assert result2 == Success;
        return Restart;
      }
    }
  }

  // ----- What the user sees over a whole session -----

  /** Where the key occurs, overlapping occurrences included. */
  function Occurrences(text: string, key: string, caseSens: bool, from: nat): seq<nat>
    decreases |text| - from
  {
    if from + |key| > |text| then []
    else (if OccursAt(text, key, caseSens, from) then [from] else []) + Occurrences(text, key, caseSens, from + 1)
  }

  lemma {:induction false} OccurrencesExact(text: string, key: string, caseSens: bool, from: nat)
    ensures var occ := Occurrences(text, key, caseSens, from);
            && (forall i, j :: 0 <= i < j < |occ| ==> occ[i] < occ[j])
            && (forall p: nat :: p in occ <==> from <= p && OccursAt(text, key, caseSens, p))
    decreases |text| - from
  {
    hide Matches;
    if from + |key| <= |text| {
      OccurrencesExact(text, key, caseSens, from + 1);
      var rest := Occurrences(text, key, caseSens, from + 1);
      assert forall j :: 0 <= j < |rest| ==> rest[j] in rest;
    } else {
      TooLate(text, key, caseSens, from);
    }
  }

  lemma TooLate(text: string, key: string, caseSens: bool, from: nat)
    requires from + |key| > |text|
    ensures forall p :: from <= p ==> !OccursAt(text, key, caseSens, p)
  {
  }

  lemma OccurrencesMean(text: string, key: string, caseSens: bool)
    ensures var occ := Occurrences(text, key, caseSens, 0);
            && (forall i, j :: 0 <= i < j < |occ| ==> occ[i] < occ[j])
            && (forall p: nat :: p in occ <==> StandsAt(text, key, caseSens, p))
  {
    OccurrencesExact(text, key, caseSens, 0);
    hide Occurrences, OccursAt, StandsAt;
    forall p: nat ensures OccursAt(text, key, caseSens, p) <==> StandsAt(text, key, caseSens, p) {
      OccursMeans(text, key, caseSens, p);
    }
  }

  // The leftmost occurrence behind number i is number i + 1.
  lemma FirstInList(text: string, key: string, caseSens: bool, from: nat, i: nat)
    requires var occ := Occurrences(text, key, caseSens, 0);
             && i <= |occ| && (i == 0 ==> from == 0) && (i > 0 ==> from == occ[i - 1] + 1)
    ensures var occ := Occurrences(text, key, caseSens, 0);
            First(text, key, caseSens, from) == if i < |occ| then Some(occ[i]) else None
  {
    hide Matches;
    OccurrencesExact(text, key, caseSens, 0);
    FirstIsLeftmost(text, key, caseSens, from);
    var occ := Occurrences(text, key, caseSens, 0);
    var first := First(text, key, caseSens, from);
    if i < |occ| {
      assert occ[i] in occ;
      assert first.Some? && first.value <= occ[i];
    }
    if first.Some? {
      assert first.value in occ;
      var j :| 0 <= j < |occ| && occ[j] == first.value;
      assert j >= i;
    }
  }

  /** The outcome of the n-th search (from 1) for the same key. */
  function Outcomes(text: string, s: Session, key: string, caseSens: bool, n: nat): (Session, Result)
    requires n >= 1
  {
    Searched(text, if n == 1 then s else Outcomes(text, s, key, caseSens, n - 1).0, key, caseSens)
  }

  lemma NextInCycle(n: nat, k: nat)
    requires k > 0
    ensures (n + 1) % k == if n % k == k - 1 then 0 else n % k + 1
  {
    assert n == (n / k) * k + n % k;
    if n % k == k - 1 {
      assert n + 1 == (n / k + 1) * k;
      Remainder(n + 1, k, n / k + 1, 0);
    } else {
      Remainder(n + 1, k, n / k, n % k + 1);
    }
  }

  lemma Remainder(n: nat, k: nat, q: int, r: nat)
    requires r < k && n == q * k + r
    ensures n % k == r
  {
    var d := n / k - q;
    assert d * k == r - n % k;
    assert (d >= 1 ==> d * k >= k) && (d <= -1 ==> d * k <= -1 * k);
  }

  lemma SearchedFirst(text: string, s: Session, key: string, caseSens: bool)
    requires key != "" && !(s.Found? && s.key == key && s.caseSens == caseSens)
    ensures var occ := Occurrences(text, key, caseSens, 0);
            Searched(text, s, key, caseSens) == if occ == [] then (Absent(key, caseSens), NotFound)
                                                else (Found(key, caseSens, occ[0]), Success)
  {
    hide First, Occurrences;
    FirstInList(text, key, caseSens, 0, 0);
  }

  lemma SearchedNext(text: string, key: string, caseSens: bool, i: nat)
    requires key != "" && i < |Occurrences(text, key, caseSens, 0)|
    ensures var occ := Occurrences(text, key, caseSens, 0);
            Searched(text, Found(key, caseSens, occ[i]), key, caseSens)
              == if i + 1 < |occ| then (Found(key, caseSens, occ[i + 1]), Success)
                 else (Found(key, caseSens, occ[0]), Restart)
  {
    hide First, Occurrences;
    FirstInList(text, key, caseSens, 0, 0);
    FirstInList(text, key, caseSens, Occurrences(text, key, caseSens, 0)[i] + 1, i + 1);
  }

  /** A find session: searching n times for a key on fixed text succeeds at every occurrence in
      increasing order, then restarts at the first one, and so on round; if there is none every
      search says so. */
  lemma {:induction false} FindSession(text: string, s: Session, key: string, caseSens: bool, n: nat)
    requires key != "" && n >= 1 && !(s.Found? && s.key == key && s.caseSens == caseSens)
    ensures var occ := Occurrences(text, key, caseSens, 0);
            Outcomes(text, s, key, caseSens, n)
              == if occ == [] then (Absent(key, caseSens), NotFound)
                 else (Found(key, caseSens, occ[(n - 1) % |occ|]),
                       if n > 1 && (n - 1) % |occ| == 0 then Restart else Success)
    ensures var occ := Occurrences(text, key, caseSens, 0);
            && (forall i, j :: 0 <= i < j < |occ| ==> occ[i] < occ[j])
            && (forall p: nat :: p in occ <==> StandsAt(text, key, caseSens, p))
  {
    hide Searched, Occurrences, StandsAt;
    OccurrencesMean(text, key, caseSens);
    var k := |Occurrences(text, key, caseSens, 0)|;
    if n == 1 {
      SearchedFirst(text, s, key, caseSens);
      assert k > 0 ==> 0 % k == 0;
    } else {
      FindSession(text, s, key, caseSens, n - 1);
      if k > 0 {
        NextInCycle(n - 2, k);
        SearchedNext(text, key, caseSens, (n - 2) % k);
      } else {
        SearchedFirst(text, Absent(key, caseSens), key, caseSens);
      }
    }
  }
}
