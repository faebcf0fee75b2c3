/** NCPkgFilterPattern::fillPatternList: the pattern list is filled by grouping the pool by
    category, sorting every group, and walking the groups through an index set.  The result
    is proved to be one stable sort of the visible patterns.  Pool positions stand for the
    pool's selectables. */
module PatternList {
  import opened Ordering

  datatype Selectable = Selectable(isPattern: bool, userVisible: bool, category: string, order: string, name: string)

  predicate Shown(s: Selectable) { s.isPattern && s.userVisible }

  function Category(s: Selectable): string { if s.category == "" then "other" else s.category }

  predicate InCategory(s: Selectable, cat: string) { Shown(s) && Category(s) == cat }

  /** The shown patterns of a category among the first n pool entries, in pool order. */
  function Members(pool: seq<Selectable>, cat: string, n: nat): (r: seq<nat>)
    requires n <= |pool|
    ensures forall k :: 0 <= k < |r| ==> r[k] < n
  {
    if n == 0 then []
    else if InCategory(pool[n - 1], cat) then Members(pool, cat, n - 1) + [n - 1]
    else Members(pool, cat, n - 1)
  }

  lemma {:induction false} MembersExact(pool: seq<Selectable>, cat: string, n: nat, i: nat)
    requires n <= |pool|
    ensures i in Members(pool, cat, n) <==> i < n && InCategory(pool[i], cat)
  {
    if n > 0 {
      MembersExact(pool, cat, n - 1, i);
    }
  }

  lemma {:induction false} MembersAscend(pool: seq<Selectable>, cat: string, n: nat)
    requires n <= |pool|
    ensures Ascending(Members(pool, cat, n))
  {
    if n > 0 {
      MembersAscend(pool, cat, n - 1);
      AscendingSnoc(Members(pool, cat, n - 1), n - 1);
    }
  }

  /** All shown patterns, in pool order. */
  function ShownIn(pool: seq<Selectable>, n: nat): (r: seq<nat>)
    requires n <= |pool|
    ensures forall k :: 0 <= k < |r| ==> r[k] < n
  {
    if n == 0 then []
    else if Shown(pool[n - 1]) then ShownIn(pool, n - 1) + [n - 1]
    else ShownIn(pool, n - 1)
  }

  lemma {:induction false} ShownExact(pool: seq<Selectable>, n: nat, i: nat)
    requires n <= |pool|
    ensures i in ShownIn(pool, n) <==> i < n && Shown(pool[i])
  {
    if n > 0 {
      ShownExact(pool, n - 1, i);
    }
  }

  lemma {:induction false} ShownAscend(pool: seq<Selectable>, n: nat)
    requires n <= |pool|
    ensures Ascending(ShownIn(pool, n))
  {
    if n > 0 {
      ShownAscend(pool, n - 1);
      AscendingSnoc(ShownIn(pool, n - 1), n - 1);
    }
  }

  // ---------------------------------------------------------------- the two comparisons

  /** orderPattern: by order, then by name. */
  predicate OrderPattern(a: Selectable, b: Selectable) {
    a.isPattern && b.isPattern && if a.order != b.order then Less(a.order, b.order) else Less(a.name, b.name)
  }

  function OrderKey(s: Selectable): seq<string> { [s.order, s.name] }

  function OrderKeys(pool: seq<Selectable>): seq<seq<string>> {
    seq(|pool|, i requires 0 <= i < |pool| => OrderKey(pool[i]))
  }

  lemma OrderPatternIsKeyOrder(a: Selectable, b: Selectable)
    requires a.isPattern && b.isPattern
    ensures OrderPattern(a, b) <==> TupleLess(OrderKey(a), OrderKey(b))
  {
    TupleOfTwo(a.order, a.name, b.order, b.name);
  }

  /** An entry of the index set: category name and its lowest order. */
  datatype IndexEntry = IndexEntry(name: string, order: string)

  /** paircmp: by order, then by category name. */
  predicate PairCmp(a: IndexEntry, b: IndexEntry) {
    if a.order != b.order then Less(a.order, b.order) else Less(a.name, b.name)
  }

  function IndexKey(e: IndexEntry): seq<string> { [e.order, e.name] }

  lemma PairCmpIsKeyOrder(a: IndexEntry, b: IndexEntry)
    ensures PairCmp(a, b) <==> TupleLess(IndexKey(a), IndexKey(b))
  {
    TupleOfTwo(a.order, a.name, b.order, b.name);
  }

  lemma PairCmpStrict(a: IndexEntry, b: IndexEntry)
    ensures PairCmp(a, b) || PairCmp(b, a) || a == b
  {
    LessTrichotomy(a.order, b.order);
    LessTrichotomy(a.name, b.name);
  }

  ghost predicate IndexSorted(index: seq<IndexEntry>) {
    forall k, l :: 0 <= k < l < |index| ==> PairCmp(index[k], index[l])
  }

  /** std::set::insert under paircmp. */
  function InsertEntry(index: seq<IndexEntry>, e: IndexEntry): (r: seq<IndexEntry>)
    ensures forall x :: x in r ==> x in index || x == e
    ensures forall x :: x in index ==> x in r
  {
    if index == [] then [e]
    else if PairCmp(e, index[0]) then [e] + index
    else if PairCmp(index[0], e) then
      var r := [index[0]] + InsertEntry(index[1..], e);
      assert index == [index[0]] + index[1..];
      r
    else index
  }

  lemma {:induction false} InsertEntrySorted(index: seq<IndexEntry>, e: IndexEntry)
    requires IndexSorted(index)
    ensures IndexSorted(InsertEntry(index, e)) && e in InsertEntry(index, e)
  {
    if index != [] {
      PairCmpStrict(e, index[0]);
      if PairCmp(e, index[0]) {
        forall k | 1 <= k < |index| ensures PairCmp(e, index[k]) {
          PairCmpIsKeyOrder(e, index[0]);
          PairCmpIsKeyOrder(index[0], index[k]);
          PairCmpIsKeyOrder(e, index[k]);
          TupleTransitive(IndexKey(e), IndexKey(index[0]), IndexKey(index[k]));
        }
      } else if PairCmp(index[0], e) {
        InsertEntrySorted(index[1..], e);
        forall x | x in InsertEntry(index[1..], e) ensures PairCmp(index[0], x) {
          if x != e {
            var k :| 1 <= k < |index| && index[k] == x;
          }
        }
      }
    }
  }

  // ---------------------------------------------------------------- the single sort

  /** The lowest order found in a non-empty list of pool positions. */
  function MinOrder(pool: seq<Selectable>, xs: seq<nat>): string
    requires xs != [] && forall k :: 0 <= k < |xs| ==> xs[k] < |pool|
  {
    var last := pool[xs[|xs| - 1]].order;
    if |xs| == 1 then last
    else
      var m := MinOrder(pool, xs[..|xs| - 1]);
      if Less(last, m) then last else m
  }

  lemma {:induction false} MinOrderIsLeast(pool: seq<Selectable>, xs: seq<nat>)
    requires xs != [] && forall k :: 0 <= k < |xs| ==> xs[k] < |pool|
    ensures exists k :: 0 <= k < |xs| && pool[xs[k]].order == MinOrder(pool, xs)
    ensures forall k :: 0 <= k < |xs| ==> !Less(pool[xs[k]].order, MinOrder(pool, xs))
  {
    var n := |xs| - 1;
    var last := pool[xs[n]].order;
    LessTrichotomy(last, last);
    if n == 0 {
      assert pool[xs[0]].order == MinOrder(pool, xs);
    } else {
      var front := xs[..n];
      MinOrderIsLeast(pool, front);
      var m := MinOrder(pool, front);
      var w :| 0 <= w < n && pool[front[w]].order == m;
      assert pool[xs[w]].order == m;
      forall k | 0 <= k < |xs| ensures !Less(pool[xs[k]].order, MinOrder(pool, xs)) {
        if k < n {
          assert pool[front[k]] == pool[xs[k]];
          if Less(last, m) && Less(pool[xs[k]].order, last) {
            LessTransitive(pool[xs[k]].order, last, m);
          }
        }
      }
      if Less(last, m) {
        assert pool[xs[n]].order == MinOrder(pool, xs);
      }
    }
  }

  /** A category's entry in the index set. */
  function EntryOf(pool: seq<Selectable>, cat: string): IndexEntry {
    var ms := Members(pool, cat, |pool|);
    IndexEntry(cat, if ms == [] then "" else MinOrder(pool, ms))
  }

  /** The key of the single sort: lowest order in the category, category, order, name. */
  function FullKey(pool: seq<Selectable>, i: nat): seq<string>
    requires i < |pool|
  {
    IndexKey(EntryOf(pool, Category(pool[i]))) + OrderKey(pool[i])
  }

  function FullKeys(pool: seq<Selectable>): seq<seq<string>> {
    seq(|pool|, i requires 0 <= i < |pool| => FullKey(pool, i))
  }

  function OneSort(pool: seq<Selectable>): seq<nat> {
    SortStable(FullKeys(pool), ShownIn(pool, |pool|))
  }

  lemma OneSortIsSorted(pool: seq<Selectable>)
    ensures Sorted(FullKeys(pool), OneSort(pool))
  {
    ShownAscend(pool, |pool|);
    SortStableSorted(FullKeys(pool), 4, ShownIn(pool, |pool|));
  }

  // ---------------------------------------------------------------- groups

  function SortedGroup(pool: seq<Selectable>, cat: string): seq<nat> {
    SortStable(OrderKeys(pool), Members(pool, cat, |pool|))
  }

  lemma SortedGroupSorted(pool: seq<Selectable>, cat: string)
    ensures Sorted(OrderKeys(pool), SortedGroup(pool, cat))
  {
    MembersAscend(pool, cat, |pool|);
    SortStableSorted(OrderKeys(pool), 2, Members(pool, cat, |pool|));
  }

  lemma GroupMember(pool: seq<Selectable>, cat: string, i: nat)
    ensures i in SortedGroup(pool, cat) <==> i < |pool| && InCategory(pool[i], cat)
  {
    MembersExact(pool, cat, |pool|, i);
    SortMembers(OrderKeys(pool), Members(pool, cat, |pool|), i);
  }

  lemma HeadHasLowestOrder(pool: seq<Selectable>, cat: string)
    requires Members(pool, cat, |pool|) != []
    ensures SortedGroup(pool, cat) != []
    ensures pool[SortedGroup(pool, cat)[0]].order == EntryOf(pool, cat).order
  {
    var ms, g := Members(pool, cat, |pool|), SortedGroup(pool, cat);
    MinOrderIsLeast(pool, ms);
    var w :| 0 <= w < |ms| && pool[ms[w]].order == MinOrder(pool, ms);
    SortMembers(OrderKeys(pool), ms, ms[w]);
    SortedGroupSorted(pool, cat);
    FirstIsLeast(OrderKeys(pool), g, ms[w]);
    SortMembers(OrderKeys(pool), ms, g[0]);
    var h :| 0 <= h < |ms| && ms[h] == g[0];
    var a, b := pool[g[0]], pool[ms[w]];
    TupleOfTwo(a.order, a.name, b.order, b.name);
    LessTrichotomy(a.order, b.order);
  }

  /** Two patterns compare by their categories' index entries first, and inside one category
      exactly as the stable sort of that category orders them. */
  lemma FullOrder(pool: seq<Selectable>, i: nat, j: nat)
    requires i < |pool| && j < |pool|
    ensures Category(pool[i]) == Category(pool[j]) && Before(OrderKeys(pool), i, j) ==> Before(FullKeys(pool), i, j)
    ensures PairCmp(EntryOf(pool, Category(pool[i])), EntryOf(pool, Category(pool[j]))) ==> Before(FullKeys(pool), i, j)
  {
    var ei, ej := EntryOf(pool, Category(pool[i])), EntryOf(pool, Category(pool[j]));
    PairCmpIsKeyOrder(ei, ej);
    TupleConcat(IndexKey(ei), IndexKey(ej), OrderKey(pool[i]), OrderKey(pool[j]));
  }

  // ---------------------------------------------------------------- filling the list

  ghost predicate Grouped(pool: seq<Selectable>, groups: map<string, seq<nat>>, n: nat)
    requires n <= |pool|
  {
    && (forall c :: c in groups <==> Members(pool, c, n) != [])
    && (forall c :: c in groups ==> groups[c] == Members(pool, c, n))
  }

  /** First loop: every shown pattern is appended to the list of its category. */
  method GroupByCategory(pool: seq<Selectable>) returns (groups: map<string, seq<nat>>)
    ensures Grouped(pool, groups, |pool|)
  {
    groups := map[];
    for i := 0 to |pool|
      invariant Grouped(pool, groups, i)
    {
      GroupStep(pool, groups, i);
      if pool[i].isPattern && pool[i].userVisible {
        var cat := pool[i].category;
        if cat == "" {
          cat := "other";
        }
        groups := AddTo(groups, cat, i);
      }
    }
  }

  function AddTo(groups: map<string, seq<nat>>, cat: string, i: nat): map<string, seq<nat>> {
    groups[cat := if cat in groups then groups[cat] + [i] else [i]]
  }

  lemma GroupStep(pool: seq<Selectable>, groups: map<string, seq<nat>>, i: nat)
    requires i < |pool| && Grouped(pool, groups, i)
    ensures Grouped(pool, if Shown(pool[i]) then AddTo(groups, Category(pool[i]), i) else groups, i + 1)
  {
    var more := if Shown(pool[i]) then AddTo(groups, Category(pool[i]), i) else groups;
    forall c ensures (c in more <==> Members(pool, c, i + 1) != []) && (c in more ==> more[c] == Members(pool, c, i + 1)) {
      MembersStep(pool, c, i);
      assert c in groups <==> Members(pool, c, i) != [];
    }
  }

  lemma MembersStep(pool: seq<Selectable>, c: string, i: nat)
    requires i < |pool|
    ensures Members(pool, c, i + 1) == if InCategory(pool[i], c) then Members(pool, c, i) + [i] else Members(pool, c, i)
  {
  }

  /** The index set once the categories in done have been entered. */
  ghost predicate Indexed(pool: seq<Selectable>, index: seq<IndexEntry>, done: set<string>) {
    && IndexSorted(index)
    && (forall e :: e in index ==> e.name in done && e == EntryOf(pool, e.name))
    && (forall c :: c in done ==> EntryOf(pool, c) in index)
  }

  /** The groups once all but the categories in todo have been sorted. */
  ghost predicate PartlySorted(pool: seq<Selectable>, groups: map<string, seq<nat>>, sorted: map<string, seq<nat>>, todo: set<string>) {
    && todo <= groups.Keys == sorted.Keys
    && forall c :: c in sorted ==> sorted[c] == if c in todo then groups[c] else SortedGroup(pool, c)
  }

  lemma SortedGrows(pool: seq<Selectable>, groups: map<string, seq<nat>>, sorted: map<string, seq<nat>>, todo: set<string>, c: string)
    requires PartlySorted(pool, groups, sorted, todo) && c in todo
    ensures PartlySorted(pool, groups, sorted[c := SortedGroup(pool, c)], todo - {c})
  {
  }

  lemma IndexGrows(pool: seq<Selectable>, index: seq<IndexEntry>, done: set<string>, c: string)
    requires Indexed(pool, index, done)
    ensures Indexed(pool, InsertEntry(index, EntryOf(pool, c)), done + {c})
  {
    InsertEntrySorted(index, EntryOf(pool, c));
  }

  lemma SortStep(pool: seq<Selectable>, groups: map<string, seq<nat>>, sorted: map<string, seq<nat>>,
                 index: seq<IndexEntry>, todo: set<string>, c: string)
    requires Grouped(pool, groups, |pool|) && PartlySorted(pool, groups, sorted, todo) && c in todo
    requires Indexed(pool, index, groups.Keys - todo)
    ensures c in sorted && sorted[c] == Members(pool, c, |pool|)
    ensures var g := SortedGroup(pool, c);
      && g != [] && g[0] < |pool| && IndexEntry(c, pool[g[0]].order) == EntryOf(pool, c)
      && PartlySorted(pool, groups, sorted[c := g], todo - {c})
    ensures Indexed(pool, InsertEntry(index, EntryOf(pool, c)), groups.Keys - (todo - {c}))
  {
    assert c in groups;
    HeadHasLowestOrder(pool, c);
    SortedGrows(pool, groups, sorted, todo, c);
    IndexGrows(pool, index, groups.Keys - todo, c);
    assert groups.Keys - (todo - {c}) == groups.Keys - todo + {c};
  }

  /** Second loop: every category is sorted and entered into the index set under the order of
      its first pattern.  The categories are visited in any order. */
  method SortGroups(pool: seq<Selectable>, groups: map<string, seq<nat>>)
    returns (sorted: map<string, seq<nat>>, index: seq<IndexEntry>)
    requires Grouped(pool, groups, |pool|)
    ensures PartlySorted(pool, groups, sorted, {})
    ensures Indexed(pool, index, groups.Keys)
  {
    sorted, index := groups, [];
    var todo := groups.Keys;
    while todo != {}
      invariant PartlySorted(pool, groups, sorted, todo)
      invariant Indexed(pool, index, groups.Keys - todo)
    {
      var name :| name in todo;
      SortStep(pool, groups, sorted, index, todo, name);
      var slbList := SortStable(OrderKeys(pool), sorted[name]);
      sorted := sorted[name := slbList];
      index := InsertEntry(index, IndexEntry(name, pool[slbList[0]].order));
      todo := todo - {name};
    }
    assert groups.Keys - todo == groups.Keys;
  }

  /** The list after the categories in done: in the final order, and complete for them. */
  ghost predicate Filled(pool: seq<Selectable>, done: seq<IndexEntry>, lines: seq<nat>) {
    && InRange(FullKeys(pool), lines) && Sorted(FullKeys(pool), lines)
    && (forall i :: i in lines ==> i < |pool| && Shown(pool[i]) && EntryOf(pool, Category(pool[i])) in done)
    && (forall i: nat :: i < |pool| && Shown(pool[i]) && EntryOf(pool, Category(pool[i])) in done ==> i in lines)
  }

  lemma GroupInFullOrder(pool: seq<Selectable>, cat: string)
    ensures InRange(FullKeys(pool), SortedGroup(pool, cat)) && Sorted(FullKeys(pool), SortedGroup(pool, cat))
  {
    var g := SortedGroup(pool, cat);
    SortedGroupSorted(pool, cat);
    forall k, l | 0 <= k < l < |g| ensures Before(FullKeys(pool), g[k], g[l]) {
      GroupMember(pool, cat, g[k]);
      GroupMember(pool, cat, g[l]);
      assert Before(OrderKeys(pool), g[k], g[l]);
      FullOrder(pool, g[k], g[l]);
    }
  }

  lemma SortedAppend(keys: seq<seq<string>>, a: seq<nat>, b: seq<nat>)
    requires InRange(keys, a) && InRange(keys, b) && Sorted(keys, a) && Sorted(keys, b)
    requires forall k, l :: 0 <= k < |a| && 0 <= l < |b| ==> Before(keys, a[k], b[l])
    ensures InRange(keys, a + b) && Sorted(keys, a + b)
  {
  }

  lemma GroupAppended(pool: seq<Selectable>, done: seq<IndexEntry>, e: IndexEntry, lines: seq<nat>)
    requires Filled(pool, done, lines) && e == EntryOf(pool, e.name)
    requires forall k :: 0 <= k < |done| ==> PairCmp(done[k], e)
    ensures Filled(pool, done + [e], lines + SortedGroup(pool, e.name))
  {
    var g := SortedGroup(pool, e.name);
    GroupInFullOrder(pool, e.name);
    forall k, l | 0 <= k < |lines| && 0 <= l < |g| ensures Before(FullKeys(pool), lines[k], g[l]) {
      GroupMember(pool, e.name, g[l]);
      assert lines[k] in lines;
      FullOrder(pool, lines[k], g[l]);
    }
    SortedAppend(FullKeys(pool), lines, g);
    forall i | i in g ensures i < |pool| && Shown(pool[i]) && Category(pool[i]) == e.name {
      GroupMember(pool, e.name, i);
    }
    forall i: nat | i < |pool| && Shown(pool[i]) && EntryOf(pool, Category(pool[i])) == e ensures i in g {
      GroupMember(pool, e.name, i);
    }
  }

  lemma OneSortMember(pool: seq<Selectable>, i: nat)
    ensures i in OneSort(pool) <==> i < |pool| && Shown(pool[i])
  {
    SortMembers(FullKeys(pool), ShownIn(pool, |pool|), i);
    ShownExact(pool, |pool|, i);
  }

  /** Once every category is in, the list is the single sort. */
  lemma FilledIsOneSort(pool: seq<Selectable>, done: seq<IndexEntry>, lines: seq<nat>)
    requires Filled(pool, done, lines)
    requires forall c :: Members(pool, c, |pool|) != [] ==> EntryOf(pool, c) in done
    ensures lines == OneSort(pool)
  {
    OneSortIsSorted(pool);
    forall i: nat ensures i in lines <==> i in OneSort(pool) {
      OneSortMember(pool, i);
      if i < |pool| && Shown(pool[i]) {
        MembersExact(pool, Category(pool[i]), |pool|, i);
        assert EntryOf(pool, Category(pool[i])) in done;
      }
    }
    SortedUnique(FullKeys(pool), 4, lines, OneSort(pool));
  }

  lemma FillStep(pool: seq<Selectable>, index: seq<IndexEntry>, cats: set<string>, k: nat, lines: seq<nat>)
    requires Indexed(pool, index, cats) && k < |index| && Filled(pool, index[..k], lines)
    ensures index[k].name in cats
    ensures Filled(pool, index[..k + 1], lines + SortedGroup(pool, index[k].name))
  {
    assert index[k] in index;
    assert index[..k + 1] == index[..k] + [index[k]];
    GroupAppended(pool, index[..k], index[k], lines);
  }

  lemma FillEnd(pool: seq<Selectable>, groups: map<string, seq<nat>>, index: seq<IndexEntry>, lines: seq<nat>)
    requires Grouped(pool, groups, |pool|) && Indexed(pool, index, groups.Keys)
    requires Filled(pool, index[..|index|], lines)
    ensures lines == OneSort(pool)
  {
    assert index[..|index|] == index;
    FilledIsOneSort(pool, index, lines);
  }

  method AddLines(lines: seq<nat>, slbList: seq<nat>) returns (r: seq<nat>)
    ensures r == lines + slbList
  {
    r := lines;
    for l := 0 to |slbList|
      invariant r == lines + slbList[..l]
    {
      r := r + [slbList[l]];
    }
  }

  /** Filling the list by groups is one stable sort of all visible patterns by lowest order in
      the category, category name, pattern order and pattern name. */
  method FillPatternList(pool: seq<Selectable>) returns (lines: seq<nat>)
    ensures lines == OneSort(pool)
  {
    var groups := GroupByCategory(pool);
    var patterns, index := SortGroups(pool, groups);
    lines := [];
    for k := 0 to |index|
      invariant Filled(pool, index[..k], lines)
    {
      FillStep(pool, index, groups.Keys, k, lines);
      var slbList := patterns[index[k].name];
      lines := AddLines(lines, slbList);
    }
    FillEnd(pool, groups, index, lines);
  }

  /** `order` is the lowest order of the visible patterns of a category, where no category counts as
      "other". */
  ghost predicate IsLowest(pool: seq<Selectable>, cat: string, order: string) {
    && (exists i :: 0 <= i < |pool| && Belongs(pool[i], cat) && pool[i].order == order)
    && (forall i :: 0 <= i < |pool| && Belongs(pool[i], cat) ==> !Less(pool[i].order, order))
  }

  ghost predicate Belongs(s: Selectable, cat: string) {
    s.isPattern && s.userVisible && (s.category == cat || (s.category == "" && cat == "other"))
  }

  lemma LowestIsEntry(pool: seq<Selectable>, cat: string, order: string)
    requires cat != "" && IsLowest(pool, cat, order)
    ensures EntryOf(pool, cat).order == order
  {
    var ms := Members(pool, cat, |pool|);
    var w :| 0 <= w < |pool| && Belongs(pool[w], cat) && pool[w].order == order;
    MembersExact(pool, cat, |pool|, w);
    assert w in ms;
    MinOrderIsLeast(pool, ms);
    var m := MinOrder(pool, ms);
    var u :| 0 <= u < |ms| && pool[ms[u]].order == m;
    MembersExact(pool, cat, |pool|, ms[u]);
    assert ms[u] in ms;
    var v :| 0 <= v < |ms| && ms[v] == w;
    LessTrichotomy(order, m);
  }

  /** The order of the list, in terms of the patterns.  In one category a pattern comes before another
      by order, then name, then place in the pool; categories come by their lowest order, then name. */
  lemma ListOrder(pool: seq<Selectable>, k: nat, l: nat, ci: string, cj: string, oi: string, oj: string)
    requires k < l < |OneSort(pool)| && OneSort(pool)[k] < |pool| && OneSort(pool)[l] < |pool|
    requires ci != "" && Belongs(pool[OneSort(pool)[k]], ci) && IsLowest(pool, ci, oi)
    requires cj != "" && Belongs(pool[OneSort(pool)[l]], cj) && IsLowest(pool, cj, oj)
    ensures var i, j := OneSort(pool)[k], OneSort(pool)[l];
      var a, b := pool[i], pool[j];
      if ci == cj then
        || Less(a.order, b.order)
        || (a.order == b.order && (Less(a.name, b.name) || (a.name == b.name && i < j)))
      else Less(oi, oj) || (oi == oj && Less(ci, cj))
  {
    var i, j := OneSort(pool)[k], OneSort(pool)[l];
    OneSortIsSorted(pool);
    LowestIsEntry(pool, ci, oi);
    LowestIsEntry(pool, cj, oj);
    assert Before(FullKeys(pool), i, j);
    TupleConcat([oi, ci], [oj, cj], OrderKey(pool[i]), OrderKey(pool[j]));
    TupleOfTwo(oi, ci, oj, cj);
    TupleOfTwo(pool[i].order, pool[i].name, pool[j].order, pool[j].name);
    KeyParts(pool, i, oi, ci);
    KeyParts(pool, j, oj, cj);
    LessTrichotomy(oi, oi);
    LessTrichotomy(ci, ci);
  }

  lemma KeyParts(pool: seq<Selectable>, i: nat, order: string, cat: string)
    requires i < |pool| && cat != "" && Belongs(pool[i], cat) && EntryOf(pool, cat).order == order
    ensures FullKeys(pool)[i] == [order, cat] + [pool[i].order, pool[i].name]
  {
    assert Category(pool[i]) == cat;
  }

  /** The list holds every visible pattern exactly once and nothing else. */
  lemma EveryPatternOnce(pool: seq<Selectable>)
    ensures forall i: nat :: i in OneSort(pool) <==> i < |pool| && pool[i].isPattern && pool[i].userVisible
    ensures forall k, l :: 0 <= k < l < |OneSort(pool)| ==> OneSort(pool)[k] != OneSort(pool)[l]
  {
    forall i: nat ensures i in OneSort(pool) <==> i < |pool| && Shown(pool[i]) {
      OneSortMember(pool, i);
    }
    OneSortIsSorted(pool);
    var r := OneSort(pool);
    forall k, l | 0 <= k < l < |r| ensures r[k] != r[l] {
      BeforeStrict(FullKeys(pool), 4, r[k], r[l]);
    }
  }
}
