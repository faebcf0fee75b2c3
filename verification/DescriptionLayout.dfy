/** Which block of the page each line of a description ends up in, said by the places of the lines
    alone: what a bullet line is, which lines belong to its item, and where a block begins.  The
    document the translator writes is proved to be the one described here. */
module DescriptionLayout {
  import opened DescriptionHtml
  import opened Markup

  predicate BulletLine(l: string) { |l| >= 2 && (l[0] == '-' || l[0] == '*') && l[1] == ' ' }
  predicate BlankLed(l: string) { |l| >= 2 && l[0] == ' ' && l[1] == ' ' }

  /** Line b is a bullet line and only lines led by two blanks follow it, up to line k. */
  ghost predicate ItemRun(lines: seq<string>, b: nat, k: nat)
    requires b <= k < |lines|
  {
    BulletLine(lines[b]) && forall j :: b < j <= k ==> BlankLed(lines[j])
  }

  /** Line k is part of a list item. */
  ghost predicate Itemised(lines: seq<string>, k: nat)
    requires k < |lines|
  {
    exists b :: 0 <= b <= k && ItemRun(lines, b, k)
  }

  /** A block begins at an empty line, and where list items begin or end. */
  ghost predicate NewBlock(lines: seq<string>, k: nat)
    requires k < |lines|
  {
    lines[k] == "" || Itemised(lines, k) != (k > 0 && Itemised(lines, k - 1))
  }

  /** How many blocks have begun in the first m lines, after block 0. */
  ghost function BlockNo(lines: seq<string>, m: nat): nat
    requires m <= |lines|
  {
    if m == 0 then 0 else BlockNo(lines, m - 1) + if NewBlock(lines, m - 1) then 1 else 0
  }

  /** The block of line k. */
  ghost function BlockOf(lines: seq<string>, k: nat): nat
    requires k < |lines|
  {
    BlockNo(lines, k + 1)
  }

  /** How many bullet lines block n has among the first m lines. */
  ghost function Bullets(lines: seq<string>, n: nat, m: nat): nat
    requires m <= |lines|
  {
    if m == 0 then 0
    else Bullets(lines, n, m - 1) + if BlockNo(lines, m) == n && BulletLine(lines[m - 1]) then 1 else 0
  }

  /** A line of a paragraph is set off by a blank, unless it begins with two. */
  function ParaLine(l: string): string { if l == "" || BlankLed(l) then l else " " + l }

  /** The lines of block n among the first m. */
  ghost function ParaText(lines: seq<string>, n: nat, m: nat): string
    requires m <= |lines|
  {
    if m == 0 then ""
    else ParaText(lines, n, m - 1) + if BlockNo(lines, m) == n then ParaLine(lines[m - 1]) else ""
  }

  // ---------------------------------------------------------------- line by line

  lemma ItemisedStep(lines: seq<string>, k: nat)
    requires k < |lines|
    ensures Itemised(lines, k) <==>
      BulletLine(lines[k]) || (BlankLed(lines[k]) && k > 0 && Itemised(lines, k - 1))
  {
    if BulletLine(lines[k]) {
      assert ItemRun(lines, k, k);
    }
    if BlankLed(lines[k]) && k > 0 && Itemised(lines, k - 1) {
      var b :| 0 <= b <= k - 1 && ItemRun(lines, b, k - 1);
      assert ItemRun(lines, b, k);
    }
    if Itemised(lines, k) && !BulletLine(lines[k]) {
      var b :| 0 <= b <= k && ItemRun(lines, b, k);
      assert ItemRun(lines, b, k - 1);
    }
  }

  lemma {:induction false} BlockNoGrows(lines: seq<string>, m: nat, n: nat)
    requires m <= n <= |lines|
    ensures BlockNo(lines, m) <= BlockNo(lines, n)
    decreases n
  {
    if m < n {
      BlockNoGrows(lines, m, n - 1);
    }
  }

  lemma {:induction false} BulletsGrow(lines: seq<string>, n: nat, k: nat, m: nat)
    requires k <= m <= |lines|
    ensures Bullets(lines, n, k) <= Bullets(lines, n, m)
    decreases m
  {
    if k < m {
      BulletsGrow(lines, n, k, m - 1);
    }
  }

  /** No line has been in a block that has not begun. */
  lemma {:induction false} NothingYet(lines: seq<string>, n: nat, m: nat)
    requires m <= |lines| && n > BlockNo(lines, m)
    ensures Bullets(lines, n, m) == 0 && ParaText(lines, n, m) == ""
  {
    if m > 0 {
      NothingYet(lines, n, m - 1);
    }
  }

  /** Lines led by blanks begin no block. */
  lemma BlankLedStays(lines: seq<string>, k: nat)
    requires k < |lines| && BlankLed(lines[k])
    ensures !NewBlock(lines, k)
  {
    ItemisedStep(lines, k);
  }

  // ---------------------------------------------------------------- the text of an item

  /** The first line from j on, among the first m, that is not led by blanks, or m. */
  function RunEnd(lines: seq<string>, j: nat, m: nat): (e: nat)
    requires j <= m <= |lines|
    ensures j <= e <= m && (e < m ==> !BlankLed(lines[e]))
    ensures forall i :: j <= i < e ==> BlankLed(lines[i])
    decreases m - j
  {
    if j == m || !BlankLed(lines[j]) then j else RunEnd(lines, j + 1, m)
  }

  /** The item of bullet line k, as far as the first m lines go. */
  function ItemText(lines: seq<string>, k: nat, m: nat): string
    requires k < m <= |lines| && BulletLine(lines[k])
  {
    lines[k][2..] + Concat(lines[k + 1..RunEnd(lines, k + 1, m)])
  }

  /** Another line belongs to an item exactly if it is led by blanks and so are all since the bullet. */
  lemma ItemTextStep(lines: seq<string>, k: nat, m: nat)
    requires k < m < |lines| && BulletLine(lines[k])
    ensures ItemText(lines, k, m + 1) ==
      if ItemRun(lines, k, m) then ItemText(lines, k, m) + lines[m] else ItemText(lines, k, m)
  {
    var e, e' := RunEnd(lines, k + 1, m), RunEnd(lines, k + 1, m + 1);
    if ItemRun(lines, k, m) {
      assert e == m && e' == m + 1;
      assert lines[k + 1..m + 1] == lines[k + 1..m] + [lines[m]];
      ConcatSnoc(lines[k + 1..m], lines[m]);
      assert lines[k][2..] + (Concat(lines[k + 1..m]) + lines[m]) == lines[k][2..] + Concat(lines[k + 1..m]) + lines[m];
    } else {
      assert e' == e;
    }
  }

  lemma {:induction false} RunStays(lines: seq<string>, k: nat, m: nat)
    requires k <= m < |lines| && ItemRun(lines, k, m)
    ensures BlockNo(lines, m + 1) == BlockOf(lines, k)
    ensures Bullets(lines, BlockOf(lines, k), m + 1) == Bullets(lines, BlockOf(lines, k), k) + 1
    decreases m
  {
    if k < m {
      assert ItemRun(lines, k, m - 1);
      RunStays(lines, k, m - 1);
      BlankLedStays(lines, m);
    }
  }

  lemma BulletCounted(lines: seq<string>, b: nat)
    requires b < |lines| && BulletLine(lines[b])
    ensures Bullets(lines, BlockOf(lines, b), b + 1) == Bullets(lines, BlockOf(lines, b), b) + 1
  {
  }

  lemma TwoBullets(lines: seq<string>, n: nat, k: nat, b: nat, m: nat)
    requires k < b < m <= |lines| && BulletLine(lines[k]) && BulletLine(lines[b])
    requires BlockOf(lines, k) == BlockOf(lines, b) == n
    ensures Bullets(lines, n, k) + 1 < Bullets(lines, n, m)
  {
    BulletCounted(lines, k);
    BulletsGrow(lines, n, k + 1, b);
    BulletCounted(lines, b);
    BulletsGrow(lines, n, b + 1, m);
  }

  /** A bullet line that its block's items have gone past is not the last one of them. */
  lemma LaterBullet(lines: seq<string>, k: nat, m: nat)
    requires k < m < |lines| && BulletLine(lines[k]) && !ItemRun(lines, k, m - 1)
    requires BlockOf(lines, k) == BlockNo(lines, m) && Itemised(lines, m - 1)
    ensures Bullets(lines, BlockNo(lines, m), k) + 1 < Bullets(lines, BlockNo(lines, m), m)
  {
    var b := LastBullet(lines, m - 1);
    RunFrom(lines, b, k, m - 1);
    Between(lines, k, b, m);
    TwoBullets(lines, BlockNo(lines, m), k, b, m);
  }

  /** A line between two of a block is in it. */
  lemma Between(lines: seq<string>, k: nat, b: nat, m: nat)
    requires k < b < m <= |lines| && BlockOf(lines, k) == BlockNo(lines, m)
    ensures BlockOf(lines, b) == BlockNo(lines, m)
  {
    BlockNoGrows(lines, k + 1, b + 1);
    BlockNoGrows(lines, b + 1, m);
  }

  /** A run that goes past another bullet line begins behind it. */
  lemma RunFrom(lines: seq<string>, b: nat, k: nat, m: nat)
    requires b <= m < |lines| && k <= m && ItemRun(lines, b, m) && BulletLine(lines[k]) && !ItemRun(lines, k, m)
    ensures k < b
  {
  }

  lemma LastBullet(lines: seq<string>, k: nat) returns (b: nat)
    requires k < |lines| && Itemised(lines, k)
    ensures b <= k && ItemRun(lines, b, k)
  {
    b :| 0 <= b <= k && ItemRun(lines, b, k);
  }

  // ---------------------------------------------------------------- the draft

  /** Block n of the document holds what the first m lines put there. */
  ghost predicate Fits(b: Block, lines: seq<string>, n: nat, m: nat)
    requires m <= |lines|
  {
    && (b.Para? ==> b.text == ParaText(lines, n, m))
    && (b.List? ==> |b.items| == Bullets(lines, n, m) && ItemsFit(b.items, lines, n, m))
    && KindFits(b.List?, lines, n, m)
  }

  ghost predicate KindFits(list: bool, lines: seq<string>, n: nat, m: nat)
    requires m <= |lines|
  {
    forall k :: 0 <= k < m && BlockOf(lines, k) == n ==> (Itemised(lines, k) <==> list)
  }

  ghost predicate ItemsFit(items: seq<string>, lines: seq<string>, n: nat, m: nat)
    requires m <= |lines|
  {
    forall k :: 0 <= k < m && BlockOf(lines, k) == n && BulletLine(lines[k]) ==>
      Bullets(lines, n, k) < |items| && items[Bullets(lines, n, k)] == ItemText(lines, k, m)
  }

  ghost predicate Placed(d: Draft, lines: seq<string>, m: nat)
    requires m <= |lines|
  {
    && |d.done| == BlockNo(lines, m)
    && (d.cur.List? <==> m > 0 && Itemised(lines, m - 1))
    && (forall n :: 0 <= n < |d.done| ==> Fits(d.done[n], lines, n, m))
    && Fits(d.cur, lines, |d.done|, m)
  }

  /** A block that has ended stays as it is. */
  lemma FitsOn(b: Block, lines: seq<string>, n: nat, m: nat)
    requires m < |lines| && n < BlockNo(lines, m + 1) && Fits(b, lines, n, m)
    ensures Fits(b, lines, n, m + 1)
  {
    if b.List? {
      ItemsFitOn(b.items, lines, n, m);
    }
  }

  lemma ItemsFitOn(items: seq<string>, lines: seq<string>, n: nat, m: nat)
    requires m < |lines| && n < BlockNo(lines, m + 1) && ItemsFit(items, lines, n, m)
    ensures ItemsFit(items, lines, n, m + 1)
  {
    forall k | 0 <= k < m + 1 && BlockOf(lines, k) == n && BulletLine(lines[k])
      ensures Bullets(lines, n, k) < |items| && items[Bullets(lines, n, k)] == ItemText(lines, k, m + 1)
    {
      if ItemRun(lines, k, m) {
        RunStays(lines, k, m);
      }
      ItemTextStep(lines, k, m);
    }
  }

  lemma LineKinds(l: string)
    ensures IsBullet(l) <==> BulletLine(l)
    ensures IsIndented(l) <==> BlankLed(l)
  {
    PrefixOfTwo(l, '-', ' ');
    PrefixOfTwo(l, '*', ' ');
    PrefixOfTwo(l, ' ', ' ');
  }

  /** A line that begins a block. */
  lemma BeginFits(b: Block, lines: seq<string>, m: nat)
    requires m < |lines| && NewBlock(lines, m)
    requires b == if BulletLine(lines[m]) then List([lines[m][2..]]) else Para(ParaLine(lines[m]))
    ensures Fits(b, lines, BlockNo(lines, m + 1), m + 1)
  {
    var n := BlockNo(lines, m + 1);
    NothingYet(lines, n, m);
    ItemisedStep(lines, m);
    if BlankLed(lines[m]) {
      BlankLedStays(lines, m);
    }
    forall k | 0 <= k < m ensures BlockOf(lines, k) < n {
      BlockNoGrows(lines, k + 1, m);
    }
    if BulletLine(lines[m]) {
      assert RunEnd(lines, m + 1, m + 1) == m + 1 && lines[m + 1..m + 1] == [];
      assert ItemText(lines, m, m + 1) == lines[m][2..] + "" == lines[m][2..];
    } else {
      assert "" + ParaLine(lines[m]) == ParaLine(lines[m]);
    }
  }

  /** Another line of a paragraph. */
  lemma ParaGoesOn(b: Block, lines: seq<string>, m: nat)
    requires m < |lines| && !NewBlock(lines, m) && b.Para? && Fits(b, lines, BlockNo(lines, m), m)
    requires !(m > 0 && Itemised(lines, m - 1))
    ensures Fits(Para(b.text + ParaLine(lines[m])), lines, BlockNo(lines, m), m + 1)
  {
  }

  lemma NewItem(lines: seq<string>, m: nat)
    requires m < |lines| && BulletLine(lines[m])
    ensures ItemText(lines, m, m + 1) == lines[m][2..]
  {
    assert lines[m + 1..m + 1] == [];
    assert lines[m][2..] + "" == lines[m][2..];
  }

  lemma ItemOrNew(lines: seq<string>, k: nat, m: nat)
    requires k <= m < |lines| && BulletLine(lines[k]) && BulletLine(lines[m])
    ensures ItemText(lines, k, m + 1) == if k < m then ItemText(lines, k, m) else lines[m][2..]
  {
    if k < m {
      assert !ItemRun(lines, k, m);
      ItemTextStep(lines, k, m);
    } else {
      NewItem(lines, m);
    }
  }

  lemma ItemsAndOne(items: seq<string>, lines: seq<string>, m: nat)
    requires m < |lines| && !NewBlock(lines, m) && Fits(List(items), lines, BlockNo(lines, m), m)
    requires BulletLine(lines[m])
    ensures ItemsFit(items + [lines[m][2..]], lines, BlockNo(lines, m), m + 1)
  {
    var n := BlockNo(lines, m);
    var more := items + [lines[m][2..]];
    forall k | 0 <= k < m + 1 && BlockOf(lines, k) == n && BulletLine(lines[k])
      ensures Bullets(lines, n, k) < |more| && more[Bullets(lines, n, k)] == ItemText(lines, k, m + 1)
    {
      ItemOrNew(lines, k, m);
    }
  }

  /** Another item. */
  lemma ListGoesOn(b: Block, lines: seq<string>, m: nat)
    requires m < |lines| && !NewBlock(lines, m) && b.List? && Fits(b, lines, BlockNo(lines, m), m)
    requires BulletLine(lines[m])
    ensures Fits(List(b.items + [lines[m][2..]]), lines, BlockNo(lines, m), m + 1)
  {
    ItemisedStep(lines, m);
    ItemsAndOne(b.items, lines, m);
  }

  /** Another line of the last item, seen from bullet line k of the list. */
  lemma ItemGoesOnAt(items: seq<string>, lines: seq<string>, m: nat, k: nat)
    requires k < m < |lines| && BlankLed(lines[m]) && Itemised(lines, m - 1)
    requires BulletLine(lines[k]) && BlockOf(lines, k) == BlockNo(lines, m)
    requires |items| == Bullets(lines, BlockNo(lines, m), m) && Bullets(lines, BlockNo(lines, m), k) < |items|
    requires items[Bullets(lines, BlockNo(lines, m), k)] == ItemText(lines, k, m)
    ensures var i, last := Bullets(lines, BlockNo(lines, m), k), |items| - 1;
      ItemText(lines, k, m + 1) == if i == last then items[last] + lines[m] else items[i]
  {
    ItemTextStep(lines, k, m);
    if ItemRun(lines, k, m - 1) {
      RunStays(lines, k, m - 1);
      assert ItemRun(lines, k, m);
    } else {
      assert !ItemRun(lines, k, m);
      LaterBullet(lines, k, m);
    }
  }

  lemma ItemsGoOn(items: seq<string>, lines: seq<string>, m: nat)
    requires 0 < m < |lines| && items != [] && Fits(List(items), lines, BlockNo(lines, m), m)
    requires BlankLed(lines[m]) && Itemised(lines, m - 1)
    ensures ItemsFit(items[..|items| - 1] + [items[|items| - 1] + lines[m]], lines, BlockNo(lines, m), m + 1)
  {
    var n := BlockNo(lines, m);
    var more := items[..|items| - 1] + [items[|items| - 1] + lines[m]];
    forall k | 0 <= k < m + 1 && BlockOf(lines, k) == n && BulletLine(lines[k])
      ensures Bullets(lines, n, k) < |more| && more[Bullets(lines, n, k)] == ItemText(lines, k, m + 1)
    {
      ItemGoesOnAt(items, lines, m, k);
    }
  }

  lemma ItemGoesOn(b: Block, lines: seq<string>, m: nat)
    requires 0 < m < |lines| && b.List? && b.items != [] && Fits(b, lines, BlockNo(lines, m), m)
    requires BlankLed(lines[m]) && Itemised(lines, m - 1)
    ensures Fits(Continue(b, lines[m]), lines, BlockNo(lines, m), m + 1)
  {
    BlankLedStays(lines, m);
    ItemisedStep(lines, m);
    ItemsGoOn(b.items, lines, m);
  }

  lemma CurrentFits(d: Draft, lines: seq<string>, m: nat)
    requires m < |lines| && Placed(d, lines, m)
    ensures var d' := AddLine(d, lines[m]);
      && |d'.done| == BlockNo(lines, m + 1) && (d'.cur.List? <==> Itemised(lines, m))
      && d'.done == (if NewBlock(lines, m) then d.done + [d.cur] else d.done)
      && Fits(d'.cur, lines, |d'.done|, m + 1)
  {
    LineKinds(lines[m]);
    ItemisedStep(lines, m);
    if NewBlock(lines, m) {
      BeginFits(AddLine(d, lines[m]).cur, lines, m);
    } else if d.cur.Para? {
      ParaGoesOn(d.cur, lines, m);
    } else if BulletLine(lines[m]) {
      ListGoesOn(d.cur, lines, m);
    } else {
      ItemGoesOn(d.cur, lines, m);
    }
  }

  lemma PlacedStep(d: Draft, lines: seq<string>, m: nat)
    requires m < |lines| && Placed(d, lines, m)
    ensures Placed(AddLine(d, lines[m]), lines, m + 1)
  {
    var d' := AddLine(d, lines[m]);
    CurrentFits(d, lines, m);
    forall n | 0 <= n < |d'.done| ensures Fits(d'.done[n], lines, n, m + 1) {
      assert Fits(d'.done[n], lines, n, m);
      FitsOn(d'.done[n], lines, n, m);
    }
  }

  lemma {:induction false} DraftPlaced(lines: seq<string>, m: nat)
    requires m <= |lines|
    ensures Placed(DraftOf(lines[..m]), lines, m)
  {
    if m > 0 {
      DraftPlaced(lines, m - 1);
      assert lines[..m][..m - 1] == lines[..m - 1];
      PlacedStep(DraftOf(lines[..m - 1]), lines, m - 1);
    }
  }

  lemma TypesetFits(lines: seq<string>, n: nat)
    requires n <= BlockNo(lines, |lines|)
    ensures |Typeset(lines)| == BlockNo(lines, |lines|) + 1
    ensures Fits(Typeset(lines)[n], lines, n, |lines|)
  {
    DraftPlaced(lines, |lines|);
    assert lines[..|lines|] == lines;
  }

  // ---------------------------------------------------------------- the document

  /** The blocks are those that begin at the lines; a line is in a list exactly if it is part of an
      item; a paragraph holds its lines in order; a list has one item per bullet line of it. */
  lemma TypesetByPlace(lines: seq<string>)
    ensures |Typeset(lines)| == BlockNo(lines, |lines|) + 1
    ensures forall k :: 0 <= k < |lines| ==>
      BlockOf(lines, k) < |Typeset(lines)| && (Typeset(lines)[BlockOf(lines, k)].List? <==> Itemised(lines, k))
    ensures forall n :: 0 <= n < |Typeset(lines)| ==>
      match Typeset(lines)[n]
      case Para(x) => x == ParaText(lines, n, |lines|)
      case List(items) => |items| == Bullets(lines, n, |lines|)
  {
    TypesetFits(lines, 0);
    forall n | 0 <= n < |Typeset(lines)|
      ensures Fits(Typeset(lines)[n], lines, n, |lines|)
    {
      TypesetFits(lines, n);
    }
    forall k | 0 <= k < |lines| ensures BlockOf(lines, k) < |Typeset(lines)| {
      BlockNoGrows(lines, k + 1, |lines|);
    }
  }

  /** The item of bullet line b: what follows its marker, and exactly the lines led by two blanks up to
      the next line that is not.  It stands in its list behind the items of the bullet lines before. */
  lemma ItemByPlace(lines: seq<string>, b: nat, e: nat)
    requires b < e <= |lines| && |lines[b]| >= 2 && (lines[b][0] == '-' || lines[b][0] == '*') && lines[b][1] == ' '
    requires forall j :: b < j < e ==> |lines[j]| >= 2 && lines[j][0] == ' ' && lines[j][1] == ' '
    requires e == |lines| || !(|lines[e]| >= 2 && lines[e][0] == ' ' && lines[e][1] == ' ')
    ensures var n := BlockOf(lines, b);
      && n < |Typeset(lines)| && Typeset(lines)[n].List? && Bullets(lines, n, b) < |Typeset(lines)[n].items|
      && Typeset(lines)[n].items[Bullets(lines, n, b)] == lines[b][2..] + Concat(lines[b + 1..e])
  {
    BlockNoGrows(lines, b + 1, |lines|);
    TypesetFits(lines, BlockOf(lines, b));
    ItemisedStep(lines, b);
    RunEndIs(lines, b + 1, e);
  }

  lemma RunEndIs(lines: seq<string>, j: nat, e: nat)
    requires j <= e <= |lines| && (forall i :: j <= i < e ==> BlankLed(lines[i])) && (e == |lines| || !BlankLed(lines[e]))
    ensures RunEnd(lines, j, |lines|) == e
  {
  }

  /** Of two bullet lines the first has its item before that of the second: in an earlier list, or
      earlier in the same one. */
  lemma ItemsInOrder(lines: seq<string>, a: nat, b: nat)
    requires a < b < |lines| && BulletLine(lines[a]) && BulletLine(lines[b])
    ensures var m, n := BlockOf(lines, a), BlockOf(lines, b);
      m < n || (m == n && Bullets(lines, m, a) < Bullets(lines, n, b))
  {
    BlockNoGrows(lines, a + 1, b + 1);
    BulletsGrow(lines, BlockOf(lines, a), a + 1, b);
  }

  /** A list begins exactly at a bullet line whose predecessor is in no item. */
  lemma ListsBegin(lines: seq<string>, k: nat)
    requires k < |lines|
    ensures BlockOf(lines, k) < |Typeset(lines)|
    ensures BlockOf(lines, k) != BlockNo(lines, k) && Typeset(lines)[BlockOf(lines, k)].List? <==>
      |lines[k]| >= 2 && (lines[k][0] == '-' || lines[k][0] == '*') && lines[k][1] == ' ' && !(k > 0 && Itemised(lines, k - 1))
  {
    TypesetByPlace(lines);
    ItemisedStep(lines, k);
  }

  /** A paragraph begins exactly at an empty line, and at a line in no item that follows one in an
      item. */
  lemma ParagraphsBegin(lines: seq<string>, k: nat)
    requires k < |lines|
    ensures BlockOf(lines, k) < |Typeset(lines)|
    ensures BlockOf(lines, k) != BlockNo(lines, k) && Typeset(lines)[BlockOf(lines, k)].Para? <==>
      lines[k] == "" || (k > 0 && Itemised(lines, k - 1) && !Itemised(lines, k))
  {
    TypesetByPlace(lines);
    ItemisedStep(lines, k);
  }
}
