/** Searching a ring of n positions, some of which qualify, for the next or the previous
    qualifying one.  Menus and the focus of a dialog both move this way. */
module Ring {

  /** d steps forward from i. */
  function Forward(n: nat, i: nat, d: nat): (j: nat)
    requires i < n && d <= n
    ensures j < n
  {
    if i + d < n then i + d else i + d - n
  }

  /** d steps backward from i. */
  function Backward(n: nat, i: nat, d: nat): (j: nat)
    requires i < n && d <= n
    ensures j < n
  {
    if d <= i then i - d else i + n - d
  }

  /** The first qualifying position after i is d steps ahead; d == n is i itself. */
  ghost predicate FirstAfter(ok: seq<bool>, i: nat, d: nat)
    requires i < |ok|
  {
    && 1 <= d <= |ok| && ok[Forward(|ok|, i, d)]
    && forall e :: 1 <= e < d ==> !ok[Forward(|ok|, i, e)]
  }

  ghost predicate FirstBefore(ok: seq<bool>, i: nat, d: nat)
    requires i < |ok|
  {
    && 1 <= d <= |ok| && ok[Backward(|ok|, i, d)]
    && forall e :: 1 <= e < d ==> !ok[Backward(|ok|, i, e)]
  }

  /** Looking back from where a search ended finds where it started, if that qualifies; and the
      other way round. */
  lemma SearchesInvert(ok: seq<bool>, i: nat, d: nat)
    requires i < |ok| && ok[i]
    ensures FirstAfter(ok, i, d) ==> FirstBefore(ok, Forward(|ok|, i, d), d)
    ensures FirstBefore(ok, i, d) ==> FirstAfter(ok, Backward(|ok|, i, d), d)
  {
    var n := |ok|;
    if FirstAfter(ok, i, d) {
      var j := Forward(n, i, d);
      forall e | 1 <= e < d ensures !ok[Backward(n, j, e)] {
        assert Backward(n, j, e) == Forward(n, i, d - e);
      }
    }
    if FirstBefore(ok, i, d) {
      var j := Backward(n, i, d);
      forall e | 1 <= e < d ensures !ok[Forward(n, j, e)] {
        assert Forward(n, j, e) == Backward(n, i, d - e);
      }
    }
  }

  // ---------------------------------------------------------------- linear searches

  /** Least qualifying position from `from` on, or |ok|. */
  function FirstOk(ok: seq<bool>, from: nat): (k: nat)
    requires from <= |ok|
    ensures from <= k <= |ok| && (k < |ok| ==> ok[k])
    ensures forall e :: from <= e < k ==> !ok[e]
    decreases |ok| - from
  {
    if from == |ok| || ok[from] then from else FirstOk(ok, from + 1)
  }

  /** One past the greatest qualifying position below `to`, or 0. */
  function LastOk(ok: seq<bool>, to: nat): (k: nat)
    requires to <= |ok|
    ensures k <= to && (k > 0 ==> ok[k - 1])
    ensures forall e :: k <= e < to ==> !ok[e]
  {
    if to == 0 || ok[to - 1] then to else LastOk(ok, to - 1)
  }

  /** Search behind i, then from the front; |ok| when nothing qualifies. */
  function NextOk(ok: seq<bool>, i: nat): (k: nat)
    requires i < |ok|
    ensures k <= |ok|
  {
    var k := FirstOk(ok, i + 1);
    if k == |ok| then FirstOk(ok, 0) else k
  }

  /** Search before i, then from the back; |ok| when nothing qualifies. */
  function PrevOk(ok: seq<bool>, i: nat): (k: nat)
    requires i < |ok|
    ensures k <= |ok|
  {
    var k := LastOk(ok, i);
    var k' := if k == 0 then LastOk(ok, |ok|) else k;
    if k' == 0 then |ok| else k' - 1
  }

  /** The two-part search is the cyclic one. */
  lemma NextOkIsFirstAfter(ok: seq<bool>, i: nat, j: nat)
    requires i < |ok| && j < |ok|
    ensures NextOk(ok, i) == j <==> FirstAfter(ok, i, if i < j then j - i else j - i + |ok|)
  {
    var n := |ok|;
    var k := FirstOk(ok, i + 1);
    var d := if i < j then j - i else j - i + n;
    assert Forward(n, i, d) == j;
    if NextOk(ok, i) == j {
      forall e | 1 <= e < d ensures !ok[Forward(n, i, e)] {
        if k == n && i + e >= n {
          assert Forward(n, i, e) == i + e - n < FirstOk(ok, 0);
        }
      }
    }
    if FirstAfter(ok, i, d) {
      if i < j {
        assert forall e :: i + 1 <= e < j ==> !ok[e] by {
          forall e | i + 1 <= e < j ensures !ok[e] { assert Forward(n, i, e - i) == e; }
        }
        assert k == j;
      } else {
        forall e | i + 1 <= e < n ensures !ok[e] { assert Forward(n, i, e - i) == e; }
        forall e | 0 <= e < j ensures !ok[e] { assert Forward(n, i, e - i + n) == e; }
        assert k == n && FirstOk(ok, 0) == j;
      }
    }
  }

  lemma PrevOkIsFirstBefore(ok: seq<bool>, i: nat, j: nat)
    requires i < |ok| && j < |ok|
    ensures PrevOk(ok, i) == j <==> FirstBefore(ok, i, if j < i then i - j else i - j + |ok|)
  {
    var n := |ok|;
    var k := LastOk(ok, i);
    var d := if j < i then i - j else i - j + n;
    assert Backward(n, i, d) == j;
    if PrevOk(ok, i) == j {
      forall e | 1 <= e < d ensures !ok[Backward(n, i, e)] {
        if k == 0 && e > i {
          assert Backward(n, i, e) == i + n - e >= LastOk(ok, n);
        }
      }
    }
    if FirstBefore(ok, i, d) {
      if j < i {
        forall e | j < e < i ensures !ok[e] { assert Backward(n, i, i - e) == e; }
        assert k == j + 1;
      } else {
        forall e | 0 <= e < i ensures !ok[e] { assert Backward(n, i, i - e) == e; }
        forall e | j < e < n ensures !ok[e] { assert Backward(n, i, i - e + n) == e; }
        assert k == 0 && LastOk(ok, n) == j + 1;
      }
    }
  }

  /** From a qualifying position, next and previous undo each other. */
  lemma NextPrevInverse(ok: seq<bool>, i: nat)
    requires i < |ok| && ok[i]
    ensures NextOk(ok, i) < |ok| && PrevOk(ok, i) < |ok|
    ensures PrevOk(ok, NextOk(ok, i)) == i && NextOk(ok, PrevOk(ok, i)) == i
  {
    var n := |ok|;
    assert FirstOk(ok, 0) <= i < LastOk(ok, n);
    var j, h := NextOk(ok, i), PrevOk(ok, i);
    NextOkIsFirstAfter(ok, i, j);
    PrevOkIsFirstBefore(ok, i, h);
    SearchesInvert(ok, i, if i < j then j - i else j - i + n);
    SearchesInvert(ok, i, if h < i then i - h else i - h + n);
    PrevOkIsFirstBefore(ok, j, i);
    NextOkIsFirstAfter(ok, h, i);
  }

  // ---------------------------------------------------------------- going all the way round

  /** Number of qualifying positions before i. */
  function Rank(ok: seq<bool>, i: nat): nat
    requires i <= |ok|
  {
    if i == 0 then 0 else Rank(ok, i - 1) + if ok[i - 1] then 1 else 0
  }

  lemma {:induction false} RankSkips(ok: seq<bool>, a: nat, b: nat)
    requires a <= b <= |ok| && forall e :: a <= e < b ==> !ok[e]
    ensures Rank(ok, b) == Rank(ok, a)
  {
    if a < b { RankSkips(ok, a, b - 1); }
  }

  lemma {:induction false} RankGrows(ok: seq<bool>, a: nat, b: nat)
    requires a < b <= |ok| && ok[a]
    ensures Rank(ok, a) < Rank(ok, b)
  {
    if a + 1 < b { RankGrows(ok, a, b - 1); }
  }

  lemma RankInjective(ok: seq<bool>, i: nat, j: nat)
    requires i < |ok| && j < |ok| && ok[i] && ok[j] && Rank(ok, i) == Rank(ok, j)
    ensures i == j
  {
    if i < j { RankGrows(ok, i, j); } else if j < i { RankGrows(ok, j, i); }
  }

  /** A step of next moves to the following rank, from the last rank to the first. */
  lemma NextOkRank(ok: seq<bool>, i: nat)
    requires i < |ok| && ok[i]
    ensures NextOk(ok, i) < |ok| && ok[NextOk(ok, i)]
    ensures var m, r := Rank(ok, |ok|), Rank(ok, i);
      r < m && Rank(ok, NextOk(ok, i)) == if r + 1 < m then r + 1 else 0
  {
    NextPrevInverse(ok, i);
    var n := |ok|;
    RankGrows(ok, i, n);
    var k := FirstOk(ok, i + 1);
    RankSkips(ok, i + 1, k);
    if k == n {
      RankSkips(ok, 0, FirstOk(ok, 0));
    } else {
      RankGrows(ok, k, n);
    }
  }

  function NextTimes(ok: seq<bool>, i: nat, k: nat): nat
    requires i < |ok| && ok[i]
    decreases k
  {
    if k == 0 then i else NextOkRank(ok, i); NextTimes(ok, NextOk(ok, i), k - 1)
  }

  lemma {:induction false} NextTimesRank(ok: seq<bool>, i: nat, k: nat)
    requires i < |ok| && ok[i] && k <= Rank(ok, |ok|)
    ensures var j := NextTimes(ok, i, k); j < |ok| && ok[j]
    ensures var m, r := Rank(ok, |ok|), Rank(ok, i);
      Rank(ok, NextTimes(ok, i, k)) == if r + k < m then r + k else r + k - m
    decreases k
  {
    NextOkRank(ok, i);
    if k > 0 {
      NextTimesRank(ok, NextOk(ok, i), k - 1);
    }
  }

  /** Fewer steps of next than there are qualifying positions lead from i to j. */
  ghost predicate Reaches(ok: seq<bool>, i: nat, j: nat)
    requires i < |ok| && ok[i]
  {
    exists k :: 0 <= k < Rank(ok, |ok|) && NextTimes(ok, i, k) == j
  }

  /** Repeating next from a qualifying position comes back after exactly as many steps as there
      are qualifying positions, and meets every one of them on the way. */
  lemma NextVisitsAll(ok: seq<bool>, i: nat)
    requires i < |ok| && ok[i]
    ensures NextTimes(ok, i, Rank(ok, |ok|)) == i
    ensures forall k :: 0 < k < Rank(ok, |ok|) ==> NextTimes(ok, i, k) != i
    ensures forall j :: 0 <= j < |ok| && ok[j] ==> Reaches(ok, i, j)
  {
    var m, r := Rank(ok, |ok|), Rank(ok, i);
    NextOkRank(ok, i);
    NextTimesRank(ok, i, m);
    RankInjective(ok, NextTimes(ok, i, m), i);
    forall k | 0 < k < m ensures NextTimes(ok, i, k) != i {
      NextTimesRank(ok, i, k);
    }
    forall j | 0 <= j < |ok| && ok[j] ensures Reaches(ok, i, j) {
      RankGrows(ok, j, |ok|);
      var s := Rank(ok, j);
      var k := if r <= s then s - r else s + m - r;
      NextTimesRank(ok, i, k);
      RankInjective(ok, NextTimes(ok, i, k), j);
      assert 0 <= k < m && NextTimes(ok, i, k) == j;
    }
  }
}
