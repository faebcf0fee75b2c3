/** CyclicContainer: an ordered collection with a current element and cyclic navigation over
    the selectable elements.  Iterators are positions; the end iterator is the element count. */
module CyclicContainers {
  import opened Options
  import opened Ring

  // ---------------------------------------------------------------- navigation by value

  /** Which positions may be chosen. */
  function Choices<T>(elements: seq<T>, isSelectable: T -> bool): (ok: seq<bool>)
    ensures |ok| == |elements|
  {
    seq(|elements|, i requires 0 <= i < |elements| => isSelectable(elements[i]))
  }

  /** The first place of the current element, or the end. */
  function PlaceOf<T(==)>(elements: seq<T>, current: Option<T>): (c: nat)
    ensures c <= |elements| && (c < |elements| ==> Some(elements[c]) == current)
    ensures forall e :: 0 <= e < c ==> Some(elements[e]) != current
  {
    if elements == [] || Some(elements[0]) == current then 0 else 1 + PlaceOf(elements[1..], current)
  }

  /** The next selectable place round the ring; without a current element the first one. */
  function NextPlace<T(==)>(elements: seq<T>, isSelectable: T -> bool, current: Option<T>): (k: nat)
    ensures k <= |elements|
  {
    var ok, c := Choices(elements, isSelectable), PlaceOf(elements, current);
    if c < |elements| then NextOk(ok, c) else FirstOk(ok, 0)
  }

  /** The previous selectable place round the ring; without a current element the last one. */
  function PreviousPlace<T(==)>(elements: seq<T>, isSelectable: T -> bool, current: Option<T>): (k: nat)
    ensures k <= |elements|
  {
    var ok, c := Choices(elements, isSelectable), PlaceOf(elements, current);
    if c < |elements| then PrevOk(ok, c)
    else
      var last := LastOk(ok, |elements|);
      if last == 0 then |elements| else last - 1
  }

  /** The current element after setCurrent( next() ). */
  function Advance<T(==)>(elements: seq<T>, isSelectable: T -> bool, current: Option<T>): Option<T> {
    var k := NextPlace(elements, isSelectable, current);
    if k < |elements| then Some(elements[k]) else current
  }

  /** The current element after setCurrent( previous() ). */
  function Recede<T(==)>(elements: seq<T>, isSelectable: T -> bool, current: Option<T>): Option<T> {
    var k := PreviousPlace(elements, isSelectable, current);
    if k < |elements| then Some(elements[k]) else current
  }

  function AdvanceTimes<T(==)>(elements: seq<T>, isSelectable: T -> bool, current: Option<T>, k: nat): Option<T>
    decreases k
  {
    if k == 0 then current else AdvanceTimes(elements, isSelectable, Advance(elements, isSelectable, current), k - 1)
  }

  ghost predicate Unique<T>(elements: seq<T>) {
    forall i, j :: 0 <= i < j < |elements| ==> elements[i] != elements[j]
  }

  /** Element i is current, and may be. */
  ghost predicate At<T>(elements: seq<T>, isSelectable: T -> bool, current: Option<T>, i: nat) {
    i < |elements| && current == Some(elements[i]) && isSelectable(elements[i])
  }

  lemma MovesAt<T>(elements: seq<T>, isSelectable: T -> bool, current: Option<T>, i: nat)
    requires Unique(elements) && At(elements, isSelectable, current, i)
    ensures var ok := Choices(elements, isSelectable);
      && At(elements, isSelectable, Advance(elements, isSelectable, current), NextOk(ok, i))
      && At(elements, isSelectable, Recede(elements, isSelectable, current), PrevOk(ok, i))
  {
    var ok := Choices(elements, isSelectable);
    var c := PlaceOf(elements, current);
    assert c == i;
    NextPrevInverse(ok, i);
  }

  /** From a selectable current element, going on and going back undo each other. */
  lemma AdvanceRecedeInverse<T>(elements: seq<T>, isSelectable: T -> bool, current: Option<T>, i: nat)
    requires Unique(elements) && At(elements, isSelectable, current, i)
    ensures Recede(elements, isSelectable, Advance(elements, isSelectable, current)) == current
    ensures Advance(elements, isSelectable, Recede(elements, isSelectable, current)) == current
  {
    var ok := Choices(elements, isSelectable);
    MovesAt(elements, isSelectable, current, i);
    NextPrevInverse(ok, i);
    MovesAt(elements, isSelectable, Advance(elements, isSelectable, current), NextOk(ok, i));
    MovesAt(elements, isSelectable, Recede(elements, isSelectable, current), PrevOk(ok, i));
  }

  lemma {:induction false} AdvanceTimesAt<T>(elements: seq<T>, isSelectable: T -> bool, current: Option<T>, i: nat, k: nat)
    requires Unique(elements) && At(elements, isSelectable, current, i)
    ensures At(elements, isSelectable, AdvanceTimes(elements, isSelectable, current, k), NextTimes(Choices(elements, isSelectable), i, k))
    decreases k
  {
    if k > 0 {
      MovesAt(elements, isSelectable, current, i);
      AdvanceTimesAt(elements, isSelectable, Advance(elements, isSelectable, current), NextOk(Choices(elements, isSelectable), i), k - 1);
    }
  }

  /** Fewer than m steps make element j current. */
  ghost predicate Meets<T>(elements: seq<T>, isSelectable: T -> bool, current: Option<T>, m: nat, j: nat)
    requires j < |elements|
  {
    exists k :: 0 <= k < m && AdvanceTimes(elements, isSelectable, current, k) == Some(elements[j])
  }

  /** Going on from a selectable element makes every selectable element current, and comes back to it
      after exactly as many steps as there are selectable elements. */
  lemma AdvanceVisitsAll<T>(elements: seq<T>, isSelectable: T -> bool, current: Option<T>, i: nat)
    requires Unique(elements) && At(elements, isSelectable, current, i)
    ensures var m := Rank(Choices(elements, isSelectable), |elements|);
      && AdvanceTimes(elements, isSelectable, current, m) == current
      && (forall k :: 0 < k < m ==> AdvanceTimes(elements, isSelectable, current, k) != current)
      && (forall j :: 0 <= j < |elements| && isSelectable(elements[j]) ==> Meets(elements, isSelectable, current, m, j))
  {
    var ok := Choices(elements, isSelectable);
    var m := Rank(ok, |ok|);
    NextVisitsAll(ok, i);
    AdvanceTimesAt(elements, isSelectable, current, i, m);
    forall k | 0 < k < m ensures AdvanceTimes(elements, isSelectable, current, k) != current {
      AdvanceTimesAt(elements, isSelectable, current, i, k);
      assert NextTimes(ok, i, k) != i;
    }
    forall j | 0 <= j < |elements| && isSelectable(elements[j]) ensures Meets(elements, isSelectable, current, m, j) {
      assert Reaches(ok, i, j);
      var k :| 0 <= k < m && NextTimes(ok, i, k) == j;
      AdvanceTimesAt(elements, isSelectable, current, i, k);
    }
  }

  // ---------------------------------------------------------------- the container

  class CyclicContainer<T(==)> {
    var elements: seq<T>
    var current: Option<T>

    constructor ()
      ensures elements == [] && current == None
    {
      elements, current := [], None;
    }

    method Clear()
      modifies this
      ensures elements == [] && current == None
    {
      elements := [];
      current := None;
    }

    method Add(element: T)
      modifies this
      ensures elements == old(elements) + [element] && current == old(current)
    {
      elements := elements + [element];
    }

    /** The end iterator leaves the current element alone. */
    method SetCurrent(element: nat)
      requires element <= |elements|
      modifies this`current
      ensures current == if element < |elements| then Some(elements[element]) else old(current)
    {
      if element != |elements| {
        current := Some(elements[element]);
      }
    }

    // --------------------------------------------------------------- searches

    ghost predicate Distinct()
      reads this
    {
      Unique(elements)
    }

    ghost function Selectable(isSelectable: T -> bool): seq<bool>
      reads this
    {
      Choices(elements, isSelectable)
    }

    /** std::find. */
    method Find(element: Option<T>) returns (k: nat)
      ensures k == PlaceOf(elements, element)
    {
      k := 0;
      while k < |elements| && Some(elements[k]) != element
        invariant k <= |elements|
        invariant forall e :: 0 <= e < k ==> Some(elements[e]) != element
      {
        k := k + 1;
      }
    }

    method Current() returns (k: nat)
      ensures k == PlaceOf(elements, current)
      ensures k < |elements| ==> current == Some(elements[k])
      ensures forall e :: 0 <= e < k ==> Some(elements[e]) != current
    {
      k := Find(current);
    }

    method FindNext(isSelectable: T -> bool, begin: nat) returns (k: nat)
      requires begin <= |elements|
      ensures k == FirstOk(Selectable(isSelectable), begin)
    {
      k := begin;
      while k < |elements| && !isSelectable(elements[k])
        invariant begin <= k <= |elements|
        invariant FirstOk(Selectable(isSelectable), k) == FirstOk(Selectable(isSelectable), begin)
      {
        k := k + 1;
      }
    }

    /** A reverse iterator k stands in front of element k - 1; 0 is rend(). */
    method FindPrevious(isSelectable: T -> bool, rbegin: nat) returns (k: nat)
      requires rbegin <= |elements|
      ensures k == LastOk(Selectable(isSelectable), rbegin)
    {
      k := rbegin;
      while k > 0 && !isSelectable(elements[k - 1])
        invariant k <= rbegin
        invariant LastOk(Selectable(isSelectable), k) == LastOk(Selectable(isSelectable), rbegin)
      {
        k := k - 1;
      }
    }

    /** Without a current element the first selectable one; otherwise the next selectable one
        round the ring, which is the current one itself only when no other is. */
    method Next(isSelectable: T -> bool) returns (k: nat)
      ensures k <= |elements| && k == NextPlace(elements, isSelectable, current)
    {
      var cur := Current();
      if cur == |elements| {
        k := FindNext(isSelectable, 0);
        return;
      }
      k := FindNext(isSelectable, cur + 1);
      if k == |elements| {
        k := FindNext(isSelectable, 0);
      }
    }

    /** The previous selectable element round the ring, without a current element the last one; it is
        looked up again from the front, so of equal elements the first place is found. */
    method Previous(isSelectable: T -> bool) returns (k: nat)
      ensures k <= |elements|
      ensures var p := PreviousPlace(elements, isSelectable, current);
        && k == (if p < |elements| then PlaceOf(elements, Some(elements[p])) else p)
        && (Distinct() ==> k == p)
    {
      var rbegin := Current();
      var prev := FindPrevious(isSelectable, rbegin);
      if prev == 0 && rbegin != |elements| {
        prev := FindPrevious(isSelectable, |elements|);
      }
      if prev == 0 {
        return |elements|;
      }
      k := Find(Some(elements[prev - 1]));
    }

    /** setCurrent( next() ), the way a menu bar moves to its next menu. */
    method SelectNext(isSelectable: T -> bool)
      modifies this`current
      ensures current == Advance(elements, isSelectable, old(current))
    {
      var k := Next(isSelectable);
      SetCurrent(k);
    }

    /** setCurrent( previous() ). */
    method SelectPrevious(isSelectable: T -> bool)
      modifies this`current
      ensures current == Recede(elements, isSelectable, old(current))
    {
      var k := Previous(isSelectable);
      SetCurrent(k);
    }
  }
}
