/** Lexicographic order on strings and on tuples of strings, and stable sorting by a key:
    what std::string comparison, std::list::sort and std::set iteration provide. */
module Ordering {

  predicate Less(a: string, b: string) {
    b != "" && (a == "" || a[0] < b[0] || (a[0] == b[0] && Less(a[1..], b[1..])))
  }

  /** Up to place k the strings agree, and there a has the smaller character. */
  ghost predicate SmallerAt(a: string, b: string, k: nat) {
    k < |a| && k < |b| && (forall i :: 0 <= i < k ==> a[i] == b[i]) && a[k] < b[k]
  }

  lemma SmallerInTail(a: string, b: string, k: nat)
    requires a != "" && b != "" && a[0] == b[0]
    ensures SmallerAt(a[1..], b[1..], k) <==> SmallerAt(a, b, k + 1)
  {
    if SmallerAt(a[1..], b[1..], k) {
      forall i | 0 <= i < k + 1 ensures a[i] == b[i] {
        assert i > 0 ==> a[1..][i - 1] == b[1..][i - 1];
      }
    }
    if SmallerAt(a, b, k + 1) {
      forall i | 0 <= i < k ensures a[1..][i] == b[1..][i] {
        assert a[i + 1] == b[i + 1];
      }
    }
  }

  lemma {:induction false} LessIsSmaller(a: string, b: string)
    ensures Less(a, b) <==> a < b || exists k: nat :: SmallerAt(a, b, k)
  {
    if a == "" || b == "" {
    } else if a[0] != b[0] {
      assert a[0] < b[0] ==> SmallerAt(a, b, 0);
    } else {
      LessIsSmaller(a[1..], b[1..]);
      assert a < b <==> a[1..] < b[1..] by {
        assert a == [a[0]] + a[1..] && b == [b[0]] + b[1..];
      }
      forall k: nat ensures SmallerAt(a[1..], b[1..], k) <==> SmallerAt(a, b, k + 1) {
        SmallerInTail(a, b, k);
      }
      if k: nat :| SmallerAt(a, b, k) {
        assert k > 0 && SmallerAt(a[1..], b[1..], k - 1);
      }
    }
  }

  /** What std::string's operator< means: a is a proper beginning of b, or at the first place where
      they differ a has the smaller character. */
  lemma LessMeaning(a: string, b: string)
    ensures Less(a, b) <==> a < b || exists k :: 0 <= k < |a| && k < |b| && a[..k] == b[..k] && a[k] < b[k]
  {
    LessIsSmaller(a, b);
    forall k | 0 <= k < |a| && k < |b| ensures SmallerAt(a, b, k) <==> a[..k] == b[..k] && a[k] < b[k] {
      SmallerAfterPrefix(a, b, k);
    }
  }

  lemma SmallerAfterPrefix(a: string, b: string, k: nat)
    requires k < |a| && k < |b|
    ensures SmallerAt(a, b, k) <==> a[..k] == b[..k] && a[k] < b[k]
  {
    if a[..k] == b[..k] {
      forall i | 0 <= i < k ensures a[i] == b[i] {
        assert a[..k][i] == b[..k][i];
      }
    }
  }

  lemma {:induction false} LessTrichotomy(a: string, b: string)
    ensures Less(a, b) || Less(b, a) || a == b
    ensures !(Less(a, b) && Less(b, a)) && (a == b ==> !Less(a, b))
  {
    if a != "" && b != "" {
      LessTrichotomy(a[1..], b[1..]);
      assert a == [a[0]] + a[1..] && b == [b[0]] + b[1..];
    }
  }

  lemma {:induction false} LessTransitive(a: string, b: string, c: string)
    requires Less(a, b) && Less(b, c)
    ensures Less(a, c)
  {
    if a != "" && a[0] == b[0] == c[0] {
      LessTransitive(a[1..], b[1..], c[1..]);
    }
  }

  /** Tuples of equal length, first difference decides. */
  predicate TupleLess(a: seq<string>, b: seq<string>) {
    a != [] && b != [] && (Less(a[0], b[0]) || (a[0] == b[0] && TupleLess(a[1..], b[1..])))
  }

  lemma {:induction false} TupleTrichotomy(a: seq<string>, b: seq<string>)
    requires |a| == |b|
    ensures TupleLess(a, b) || TupleLess(b, a) || a == b
    ensures !(TupleLess(a, b) && TupleLess(b, a)) && (a == b ==> !TupleLess(a, b))
  {
    if a != [] {
      LessTrichotomy(a[0], b[0]);
      TupleTrichotomy(a[1..], b[1..]);
      assert a == [a[0]] + a[1..] && b == [b[0]] + b[1..];
    }
  }

  lemma {:induction false} TupleTransitive(a: seq<string>, b: seq<string>, c: seq<string>)
    requires |a| == |b| == |c| && TupleLess(a, b) && TupleLess(b, c)
    ensures TupleLess(a, c)
  {
    LessTrichotomy(a[0], b[0]);
    LessTrichotomy(b[0], c[0]);
    if a[0] == b[0] == c[0] {
      TupleTransitive(a[1..], b[1..], c[1..]);
    } else if Less(a[0], b[0]) && Less(b[0], c[0]) {
      LessTransitive(a[0], b[0], c[0]);
    }
  }

  lemma TupleOfTwo(a: string, b: string, c: string, d: string)
    ensures TupleLess([a, b], [c, d]) <==> if a != c then Less(a, c) else Less(b, d)
  {
    LessTrichotomy(a, c);
    assert [a, b][1..] == [b] && [c, d][1..] == [d];
    assert TupleLess([b], [d]) <==> Less(b, d) by { assert [b][1..] == [] && [d][1..] == []; }
  }

  lemma {:induction false} TupleConcat(p: seq<string>, q: seq<string>, r: seq<string>, s: seq<string>)
    requires |p| == |q|
    ensures TupleLess(p + r, q + s) <==> TupleLess(p, q) || (p == q && TupleLess(r, s))
  {
    if p == [] {
      assert p + r == r && q + s == s;
    } else {
      assert (p + r)[1..] == p[1..] + r && (q + s)[1..] == q[1..] + s;
      TupleConcat(p[1..], q[1..], r, s);
      assert p == [p[0]] + p[1..] && q == [q[0]] + q[1..];
    }
  }

  // ---------------------------------------------------------------- sorting indices by key

  /** Every index has a key of the same width. */
  ghost predicate Keyed(keys: seq<seq<string>>, width: nat) {
    forall i :: 0 <= i < |keys| ==> |keys[i]| == width
  }

  /** The stable order: by key, equal keys in order of index. */
  predicate Before(keys: seq<seq<string>>, i: nat, j: nat)
    requires i < |keys| && j < |keys|
  {
    TupleLess(keys[i], keys[j]) || (keys[i] == keys[j] && i < j)
  }

  ghost predicate InRange(keys: seq<seq<string>>, s: seq<nat>) {
    forall k :: 0 <= k < |s| ==> s[k] < |keys|
  }

  ghost predicate Sorted(keys: seq<seq<string>>, s: seq<nat>)
    requires InRange(keys, s)
  {
    forall k, l :: 0 <= k < l < |s| ==> Before(keys, s[k], s[l])
  }

  lemma BeforeStrict(keys: seq<seq<string>>, width: nat, i: nat, j: nat)
    requires Keyed(keys, width) && i < |keys| && j < |keys|
    ensures !(Before(keys, i, j) && Before(keys, j, i)) && (i == j ==> !Before(keys, i, j))
    ensures i == j || Before(keys, i, j) || Before(keys, j, i)
  {
    TupleTrichotomy(keys[i], keys[j]);
  }

  lemma BeforeTransitive(keys: seq<seq<string>>, width: nat, i: nat, j: nat, k: nat)
    requires Keyed(keys, width) && i < |keys| && j < |keys| && k < |keys|
    requires Before(keys, i, j) && Before(keys, j, k)
    ensures Before(keys, i, k)
  {
    if TupleLess(keys[i], keys[j]) && TupleLess(keys[j], keys[k]) {
      TupleTransitive(keys[i], keys[j], keys[k]);
    }
  }

  ghost predicate Ascending(xs: seq<nat>) {
    forall k, l :: 0 <= k < l < |xs| ==> xs[k] < xs[l]
  }

  lemma AscendingSnoc(xs: seq<nat>, x: nat)
    requires Ascending(xs) && forall k :: 0 <= k < |xs| ==> xs[k] < x
    ensures Ascending(xs + [x])
  {
  }

  /** Insertion behind every element whose key is not greater. */
  function Insert(keys: seq<seq<string>>, x: nat, s: seq<nat>): (r: seq<nat>)
    requires x < |keys| && InRange(keys, s)
    ensures InRange(keys, r)
  {
    if s == [] then [x]
    else if TupleLess(keys[x], keys[s[0]]) then [x] + s
    else [s[0]] + Insert(keys, x, s[1..])
  }

  /** std::list::sort: the stable sort. */
  function SortStable(keys: seq<seq<string>>, xs: seq<nat>): (r: seq<nat>)
    requires InRange(keys, xs)
    ensures InRange(keys, r)
  {
    if xs == [] then [] else Insert(keys, xs[|xs| - 1], SortStable(keys, xs[..|xs| - 1]))
  }

  lemma {:induction false} InsertPermutes(keys: seq<seq<string>>, x: nat, s: seq<nat>)
    requires x < |keys| && InRange(keys, s)
    ensures multiset(Insert(keys, x, s)) == multiset(s) + multiset{x}
  {
    if s != [] {
      assert s == [s[0]] + s[1..];
      InsertPermutes(keys, x, s[1..]);
    }
  }

  lemma {:induction false} SortPermutes(keys: seq<seq<string>>, xs: seq<nat>)
    requires InRange(keys, xs)
    ensures multiset(SortStable(keys, xs)) == multiset(xs)
  {
    if xs != [] {
      var front, x := xs[..|xs| - 1], xs[|xs| - 1];
      assert xs == front + [x];
      SortPermutes(keys, front);
      InsertPermutes(keys, x, SortStable(keys, front));
    }
  }

  lemma SortMembers(keys: seq<seq<string>>, xs: seq<nat>, i: nat)
    requires InRange(keys, xs)
    ensures i in SortStable(keys, xs) <==> i in xs
  {
    SortPermutes(keys, xs);
    assert i in xs <==> i in multiset(xs);
    assert i in SortStable(keys, xs) <==> i in multiset(SortStable(keys, xs));
  }

  lemma SortedCons(keys: seq<seq<string>>, x: nat, s: seq<nat>)
    requires x < |keys| && InRange(keys, s) && Sorted(keys, s)
    requires forall k :: 0 <= k < |s| ==> Before(keys, x, s[k])
    ensures InRange(keys, [x] + s) && Sorted(keys, [x] + s)
  {
  }

  lemma {:induction false} InsertSorted(keys: seq<seq<string>>, width: nat, x: nat, s: seq<nat>)
    requires Keyed(keys, width) && x < |keys| && InRange(keys, s) && Sorted(keys, s)
    requires forall k :: 0 <= k < |s| ==> s[k] < x
    ensures Sorted(keys, Insert(keys, x, s))
  {
    if s != [] {
      TupleTrichotomy(keys[x], keys[s[0]]);
      if TupleLess(keys[x], keys[s[0]]) {
        forall k | 0 <= k < |s| ensures Before(keys, x, s[k]) {
          if k > 0 { BeforeTransitive(keys, width, x, s[0], s[k]); }
        }
        SortedCons(keys, x, s);
      } else {
        var rest := s[1..];
        assert forall k :: 0 <= k < |rest| ==> rest[k] == s[k + 1];
        InsertSorted(keys, width, x, rest);
        InsertPermutes(keys, x, rest);
        var r := Insert(keys, x, rest);
        forall k | 0 <= k < |r| ensures Before(keys, s[0], r[k]) {
          assert r[k] in multiset(r);
          assert r[k] == x || r[k] in rest;
        }
        SortedCons(keys, s[0], r);
      }
    }
  }

  /** Sorting indices given in ascending order yields the stable order. */
  lemma {:induction false} SortStableSorted(keys: seq<seq<string>>, width: nat, xs: seq<nat>)
    requires Keyed(keys, width) && InRange(keys, xs)
    requires Ascending(xs)
    ensures Sorted(keys, SortStable(keys, xs))
  {
    if xs != [] {
      var front, x := xs[..|xs| - 1], xs[|xs| - 1];
      SortStableSorted(keys, width, front);
      var s := SortStable(keys, front);
      forall k | 0 <= k < |s| ensures s[k] < x {
        SortMembers(keys, front, s[k]);
      }
      InsertSorted(keys, width, x, s);
    }
  }

  /** A sorted arrangement holds every element once and is determined by its elements. */
  lemma {:induction false} SortedUnique(keys: seq<seq<string>>, width: nat, a: seq<nat>, b: seq<nat>)
    requires Keyed(keys, width) && InRange(keys, a) && InRange(keys, b)
    requires Sorted(keys, a) && Sorted(keys, b)
    requires forall x :: x in a <==> x in b
    ensures a == b
  {
    assert b != [] ==> b[0] in a;
    if a != [] {
      assert a[0] in b;
      FirstIsLeast(keys, a, b[0]);
      FirstIsLeast(keys, b, a[0]);
      BeforeStrict(keys, width, a[0], b[0]);
      FirstOnce(keys, width, a);
      FirstOnce(keys, width, b);
      forall x ensures x in a[1..] <==> x in b[1..] {
        assert x in a[1..] <==> x in a && x != a[0];
        assert x in b[1..] <==> x in b && x != b[0];
      }
      SortedUnique(keys, width, a[1..], b[1..]);
      assert a == [a[0]] + a[1..] && b == [b[0]] + b[1..];
    }
  }

  lemma FirstIsLeast(keys: seq<seq<string>>, a: seq<nat>, x: nat)
    requires InRange(keys, a) && Sorted(keys, a) && x in a
    ensures a[0] == x || Before(keys, a[0], x)
  {
    var k :| 0 <= k < |a| && a[k] == x;
  }

  lemma FirstOnce(keys: seq<seq<string>>, width: nat, a: seq<nat>)
    requires Keyed(keys, width) && a != [] && InRange(keys, a) && Sorted(keys, a)
    ensures forall x :: x in a[1..] <==> x in a && x != a[0]
  {
    assert a == [a[0]] + a[1..];
    forall k | 1 <= k < |a| ensures a[k] != a[0] {
      BeforeStrict(keys, width, a[0], a[k]);
    }
  }
}
