/** tnode: the widget tree of a dialog and its pre-order walk.  A node is named by its path of
    child numbers from the root.  Next and Prev climb and descend; they are proved to step
    through one numbering of all nodes, in opposite directions: with restart they are the steps
    Forward and Backward of module Ring. */
module WidgetTree {
  import opened Options
  import opened Ring

  datatype Tree = Node(kids: seq<Tree>)
  type Path = seq<nat>

  predicate In(t: Tree, p: Path) {
    p == [] || (p[0] < |t.kids| && In(t.kids[p[0]], p[1..]))
  }

  function Sub(t: Tree, p: Path): Tree
    requires In(t, p)
  {
    if p == [] then t else Sub(t.kids[p[0]], p[1..])
  }

  function Size(t: Tree): (n: nat)
    ensures n > 0
    decreases t, 0
  {
    1 + SizeTo(t.kids, |t.kids|)
  }

  /** Number of nodes below the first i children. */
  function SizeTo(kids: seq<Tree>, i: nat): nat
    requires i <= |kids|
    decreases kids, i
  {
    if i == 0 then 0 else SizeTo(kids, i - 1) + Size(kids[i - 1])
  }

  /** Position of a node in pre-order. */
  function Index(t: Tree, p: Path): nat
    requires In(t, p)
    decreases |p|
  {
    if p == [] then 0 else 1 + SizeTo(t.kids, p[0]) + Index(t.kids[p[0]], p[1..])
  }

  lemma {:induction false} SizeToMonotone(kids: seq<Tree>, i: nat, j: nat)
    requires i < j <= |kids|
    ensures SizeTo(kids, i) + Size(kids[i]) <= SizeTo(kids, j)
    decreases j
  {
    if i + 1 < j { SizeToMonotone(kids, i, j - 1); }
  }

  /** A subtree occupies a stretch of the numbering. */
  lemma {:induction false} IndexBound(t: Tree, p: Path)
    requires In(t, p)
    ensures Index(t, p) + Size(Sub(t, p)) <= Size(t)
    decreases |p|
  {
    if p != [] {
      IndexBound(t.kids[p[0]], p[1..]);
      SizeToMonotone(t.kids, p[0], |t.kids|);
    }
  }

  lemma {:induction false} IndexInjective(t: Tree, p: Path, q: Path)
    requires In(t, p) && In(t, q) && Index(t, p) == Index(t, q)
    ensures p == q
    decreases |p|
  {
    if p != [] && q != [] {
      var a, b := p[0], q[0];
      IndexBound(t.kids[a], p[1..]);
      IndexBound(t.kids[b], q[1..]);
      if a < b { SizeToMonotone(t.kids, a, b); }
      if b < a { SizeToMonotone(t.kids, b, a); }
      IndexInjective(t.kids[a], p[1..], q[1..]);
      assert p == [a] + p[1..] && q == [b] + q[1..];
    }
  }

  /** Every number below the size belongs to a node. */
  lemma {:induction false} IndexSurjective(t: Tree, k: nat) returns (p: Path)
    requires k < Size(t)
    ensures In(t, p) && Index(t, p) == k
    decreases t
  {
    if k == 0 { return []; }
    var i := ChildAt(t.kids, k - 1, |t.kids|);
    var q := IndexSurjective(t.kids[i], k - 1 - SizeTo(t.kids, i));
    p := [i] + q;
    assert p[1..] == q;
  }

  lemma {:induction false} ChildAt(kids: seq<Tree>, k: nat, n: nat) returns (i: nat)
    requires n <= |kids| && k < SizeTo(kids, n)
    ensures i < n && SizeTo(kids, i) <= k < SizeTo(kids, i) + Size(kids[i])
    decreases n
  {
    if k < SizeTo(kids, n - 1) { i := ChildAt(kids, k, n - 1); } else { i := n - 1; }
  }

  lemma {:induction false} Child(t: Tree, p: Path, i: nat)
    requires In(t, p) && i < |Sub(t, p).kids|
    ensures In(t, p + [i]) && Sub(t, p + [i]) == Sub(t, p).kids[i]
    ensures Index(t, p + [i]) == Index(t, p) + 1 + SizeTo(Sub(t, p).kids, i)
    decreases |p|
  {
    if p == [] {
      assert [] + [i] == [i] && [i][1..] == [];
    } else {
      assert (p + [i])[1..] == p[1..] + [i];
      Child(t.kids[p[0]], p[1..], i);
    }
  }

  lemma {:induction false} Parent(t: Tree, p: Path)
    requires In(t, p) && p != []
    ensures In(t, p[..|p| - 1]) && p[|p| - 1] < |Sub(t, p[..|p| - 1]).kids|
    ensures Sub(t, p) == Sub(t, p[..|p| - 1]).kids[p[|p| - 1]]
    ensures Index(t, p) == Index(t, p[..|p| - 1]) + 1 + SizeTo(Sub(t, p[..|p| - 1]).kids, p[|p| - 1])
    decreases |p|
  {
    if |p| == 1 {
      assert p[1..] == [];
    } else {
      assert p[..|p| - 1][1..] == p[1..][..|p| - 2];
      Parent(t.kids[p[0]], p[1..]);
    }
  }

  function Up(p: Path): Path
    requires p != []
  {
    p[..|p| - 1]
  }

  function Last(p: Path): nat
    requires p != []
  {
    p[|p| - 1]
  }

  /** Has a following sibling. */
  predicate HasNext(t: Tree, p: Path)
    requires In(t, p)
  {
    p != [] && (Parent(t, p); Last(p) + 1 < |Sub(t, Up(p)).kids|)
  }

  /** The sibling behind a subtree comes right after it. */
  lemma NextSibling(t: Tree, p: Path)
    requires In(t, p) && HasNext(t, p)
    ensures var q := Up(p) + [Last(p) + 1];
      In(t, q) && Index(t, q) == Index(t, p) + Size(Sub(t, p)) < Size(t)
  {
    Parent(t, p);
    Child(t, Up(p), Last(p) + 1);
    IndexBound(t, Up(p) + [Last(p) + 1]);
  }

  /** The subtree of a last child ends where its parent's does. */
  lemma LastChildEnds(t: Tree, p: Path)
    requires In(t, p) && p != [] && !HasNext(t, p)
    ensures In(t, Up(p)) && Index(t, Up(p)) + Size(Sub(t, Up(p))) == Index(t, p) + Size(Sub(t, p))
  {
    Parent(t, p);
  }

  lemma LastChild(t: Tree, p: Path)
    requires In(t, p) && Sub(t, p).kids != []
    ensures var q := p + [|Sub(t, p).kids| - 1];
      && In(t, q) && Index(t, p) < Index(t, q) < Size(t)
      && Index(t, q) + Size(Sub(t, q)) == Index(t, p) + Size(Sub(t, p))
  {
    Child(t, p, |Sub(t, p).kids| - 1);
    IndexBound(t, p + [|Sub(t, p).kids| - 1]);
  }

  lemma FirstChild(t: Tree, p: Path)
    requires In(t, p) && Sub(t, p).kids != []
    ensures In(t, p + [0]) && Index(t, p + [0]) == Index(t, p) + 1 < Size(t)
  {
    Child(t, p, 0);
    assert SizeTo(Sub(t, p).kids, 0) == 0;
    IndexBound(t, p + [0]);
  }

  /** The next node: down first, then the nearest following sibling on the way up. */
  method Next(t: Tree, p: Path, restart: bool) returns (q: Option<Path>)
    requires In(t, p)
    ensures Index(t, p) + 1 < Size(t) ==> q.Some? && In(t, q.value) && Index(t, q.value) == Index(t, p) + 1
    ensures Index(t, p) + 1 == Size(t) ==> q == if restart then Some([]) else None
    ensures Index(t, p) < Size(t)
    ensures restart ==> q.Some? && In(t, q.value) && Index(t, q.value) == Forward(Size(t), Index(t, p), 1)
  {
    IndexBound(t, p);
    if Sub(t, p).kids != [] {
      FirstChild(t, p);
      return Some(p + [0]);
    }
    var l: Path := p;
    while !HasNext(t, l)
      invariant In(t, l) && Index(t, l) + Size(Sub(t, l)) == Index(t, p) + 1
      decreases |l|
    {
      if l == [] {
        return if restart then Some([]) else None;
      }
      LastChildEnds(t, l);
      l := Up(l);
    }
    NextSibling(t, l);
    return Some(Up(l) + [Last(l) + 1]);
  }

  /** The previous node: the parent of a first child, otherwise the last node below the
      preceding sibling; from the root the last node of all. */
  method Prev(t: Tree, p: Path, restart: bool) returns (q: Option<Path>)
    requires In(t, p)
    ensures Index(t, p) > 0 ==> q.Some? && In(t, q.value) && Index(t, q.value) == Index(t, p) - 1
    ensures Index(t, p) == 0 && restart ==> q.Some? && In(t, q.value) && Index(t, q.value) == Size(t) - 1
    ensures Index(t, p) == 0 && !restart ==> q == None
    ensures Index(t, p) < Size(t)
    ensures restart ==> q.Some? && In(t, q.value) && Index(t, q.value) == Backward(Size(t), Index(t, p), 1)
  {
    IndexBound(t, p);
    var l: Path := p;
    if p != [] {
      Parent(t, p);
      if Last(p) == 0 {
        assert SizeTo(Sub(t, Up(p)).kids, 0) == 0;
        return Some(Up(p));
      }
      Child(t, Up(p), Last(p) - 1);
      l := Up(p) + [Last(p) - 1];
    } else if !restart {
      return None;
    }
    q := LastBelow(t, l);
  }

  /** The last node of a subtree. */
  method LastBelow(t: Tree, p: Path) returns (q: Option<Path>)
    requires In(t, p)
    ensures q.Some? && In(t, q.value) && Index(t, q.value) + 1 == Index(t, p) + Size(Sub(t, p))
  {
    var l: Path := p;
    while Sub(t, l).kids != []
      invariant In(t, l) && Index(t, l) + Size(Sub(t, l)) == Index(t, p) + Size(Sub(t, p))
      decreases Size(t) - Index(t, l)
    {
      LastChild(t, l);
      l := l + [|Sub(t, l).kids| - 1];
    }
    return Some(l);
  }

  /** Walking forward and then back, or back and then forward, returns to the same node. */
  lemma WalksInvert(t: Tree, p: Path, q: Path, r: Path)
    requires In(t, p) && In(t, q) && In(t, r)
    requires Index(t, q) == (if Index(t, p) + 1 < Size(t) then Index(t, p) + 1 else 0)
    requires Index(t, r) == (if Index(t, q) > 0 then Index(t, q) - 1 else Size(t) - 1)
    ensures r == p
  {
    IndexBound(t, p);
    IndexInjective(t, p, r);
  }
}
