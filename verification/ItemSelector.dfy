/** NCItemSelector: items of different heights flattened to the lines of a pad.  The cursor moves
    by lines; the keys are proved to move it by items. */
module ItemSelector {

  datatype Item = Item(name: string, description: string)
  datatype Line = Separator | Label(k: nat) | Desc(text: string)

  /** boost::split at newlines: always at least one piece. */
  function Split(s: string): (r: seq<string>)
    ensures r != []
  {
    if s == "" then [""]
    else
      var r := Split(s[1..]);
      if s[0] == '\n' then [""] + r else [[s[0]] + r[0]] + r[1..]
  }

  function Join(pieces: seq<string>): string
    requires pieces != []
  {
    if |pieces| == 1 then pieces[0] else pieces[0] + "\n" + Join(pieces[1..])
  }

  /** The pieces are what stands between the newlines. */
  lemma {:induction false} SplitMeaning(s: string)
    ensures Join(Split(s)) == s
    ensures forall i :: 0 <= i < |Split(s)| ==> '\n' !in Split(s)[i]
  {
    if s != "" {
      var r := Split(s[1..]);
      SplitMeaning(s[1..]);
      assert s == [s[0]] + s[1..];
      if s[0] == '\n' {
        assert ([""] + r)[1..] == r;
        assert "" + "\n" + Join(r) == s;
      } else {
        var q := [[s[0]] + r[0]] + r[1..];
        assert q[1..] == r[1..];
        if |r| == 1 {
          assert Join(q) == [s[0]] + r[0];
        } else {
          assert [s[0]] + r[0] + "\n" + Join(r[1..]) == [s[0]] + (r[0] + "\n" + Join(r[1..]));
        }
      }
    }
  }

  function DescLines(texts: seq<string>): (r: seq<Line>)
    ensures |r| == |texts| && forall i :: 0 <= i < |r| ==> r[i] == Desc(texts[i])
  {
    seq(|texts|, i requires 0 <= i < |texts| => Desc(texts[i]))
  }

  // ---------------------------------------------------------------- the layout

  /** How many lines item k takes: a separator unless it is the first, its label, its
      description. */
  function BlockHeight(k: nat, item: Item): nat {
    (if k > 0 then 1 else 0) + 1 + |Split(item.description)|
  }

  function Block(k: nat, item: Item): (r: seq<Line>)
    ensures |r| == BlockHeight(k, item)
  {
    (if k > 0 then [Separator] else []) + [Label(k)] + DescLines(Split(item.description))
  }

  /** The lines of the first n items, and how many they are. */
  function LayoutTo(items: seq<Item>, n: nat): (r: seq<Line>)
    requires n <= |items|
    ensures |r| == Height(items, n)
  {
    if n == 0 then [] else LayoutTo(items, n - 1) + Block(n - 1, items[n - 1])
  }

  function Height(items: seq<Item>, n: nat): nat
    requires n <= |items|
  {
    if n == 0 then 0 else Height(items, n - 1) + BlockHeight(n - 1, items[n - 1])
  }

  function Layout(items: seq<Item>): seq<Line> { LayoutTo(items, |items|) }

  /** The line of the label of item k. */
  function LabelLine(items: seq<Item>, k: nat): nat
    requires k < |items|
  {
    Height(items, k) + if k > 0 then 1 else 0
  }

  /** Where the stretch of lines from label k to the line before the next label ends. */
  function LineEnd(items: seq<Item>, k: nat): nat
    requires k < |items|
  {
    if k + 1 < |items| then LabelLine(items, k + 1) else Height(items, |items|)
  }

  lemma {:induction false} LayoutPrefix(items: seq<Item>, k: nat, n: nat)
    requires k <= n <= |items|
    ensures LayoutTo(items, k) <= LayoutTo(items, n) && Height(items, k) <= Height(items, n)
  {
    if k < n {
      LayoutPrefix(items, k, n - 1);
    }
  }

  lemma {:induction false} LayoutOfFront(items: seq<Item>, item: Item, n: nat)
    requires n <= |items|
    ensures LayoutTo(items + [item], n) == LayoutTo(items, n)
  {
    if n > 0 {
      LayoutOfFront(items, item, n - 1);
    }
  }

  lemma BlockLine(k: nat, item: Item, j: nat)
    requires j < BlockHeight(k, item)
    ensures var sep := if k > 0 then 1 else 0;
      Block(k, item)[j].Label? == (j == sep) && (j == sep ==> Block(k, item)[j] == Label(k))
  {
  }

  /** The lines of item k follow those of the items before it. */
  lemma BlockAt(items: seq<Item>, k: nat, l: nat)
    requires k < |items| && Height(items, k) <= l < Height(items, k + 1)
    ensures l < Height(items, |items|)
    ensures Layout(items)[l].Label? == (l == LabelLine(items, k))
    ensures l == LabelLine(items, k) ==> Layout(items)[l] == Label(k)
  {
    LayoutPrefix(items, k + 1, |items|);
    var at := Height(items, k);
    assert Layout(items)[l] == LayoutTo(items, k + 1)[l] == Block(k, items[k])[l - at];
    BlockLine(k, items[k], l - at);
  }

  lemma LabelAt(items: seq<Item>, k: nat)
    requires k < |items|
    ensures LabelLine(items, k) + 1 < Height(items, k + 1) <= |Layout(items)|
    ensures Layout(items)[LabelLine(items, k)] == Label(k)
    ensures k > 0 ==> !Layout(items)[Height(items, k)].Label?
  {
    LayoutPrefix(items, k + 1, |items|);
    BlockAt(items, k, LabelLine(items, k));
    BlockAt(items, k, Height(items, k));
  }

  lemma NoLabelBetween(items: seq<Item>, k: nat, l: nat)
    requires k < |items| && LabelLine(items, k) < l < LineEnd(items, k)
    ensures l < |Layout(items)| && !Layout(items)[l].Label?
  {
    if l < Height(items, k + 1) {
      BlockAt(items, k, l);
    } else {
      LabelAt(items, k + 1);
    }
  }

  /** Where item k stands: its label, then only description lines and a separator, at least one
      of them, up to the next label. */
  lemma ItemLines(items: seq<Item>, k: nat)
    requires k < |items|
    ensures LabelLine(items, k) + 1 < LineEnd(items, k) <= |Layout(items)|
    ensures Layout(items)[LabelLine(items, k)] == Label(k)
    ensures forall l :: LabelLine(items, k) < l < LineEnd(items, k) ==> !Layout(items)[l].Label?
    ensures k == 0 ==> LabelLine(items, k) == 0
    ensures k + 1 < |items| ==> LineEnd(items, k) + 1 < |Layout(items)|
  {
    LabelAt(items, k);
    if k + 1 < |items| {
      LabelAt(items, k + 1);
    }
    forall l | LabelLine(items, k) < l < LineEnd(items, k) ensures !Layout(items)[l].Label? {
      NoLabelBetween(items, k, l);
    }
  }

  lemma ItemBounds(items: seq<Item>, k: nat)
    requires k < |items|
    ensures LabelLine(items, k) + 1 < LineEnd(items, k) <= |Layout(items)|
    ensures k + 1 < |items| ==> LineEnd(items, k) + 1 < |Layout(items)|
    ensures Layout(items)[0].Label?
  {
    ItemLines(items, k);
    ItemLines(items, 0);
  }

  /** Line l belongs to item k. */
  ghost predicate InItem(items: seq<Item>, k: nat, l: nat) {
    k < |items| && LabelLine(items, k) <= l < LineEnd(items, k)
  }

  /** The last of the first n items whose label is not below line l. */
  function ItemAt(items: seq<Item>, l: nat, n: nat): (k: nat)
    requires 0 < n <= |items|
    ensures k < n
  {
    if n == 1 || LabelLine(items, n - 1) <= l then n - 1 else ItemAt(items, l, n - 1)
  }

  lemma {:induction false} ItemAtFrom(items: seq<Item>, l: nat, n: nat)
    requires 0 < n <= |items| && l < LineEnd(items, n - 1)
    ensures InItem(items, ItemAt(items, l, n), l)
    decreases n
  {
    ItemLines(items, 0);
    if n > 1 && l < LabelLine(items, n - 1) {
      ItemAtFrom(items, l, n - 1);
    }
  }

  /** Every line belongs to exactly one item. */
  lemma ItemOfLine(items: seq<Item>, l: nat)
    requires l < |Layout(items)|
    ensures InItem(items, ItemAt(items, l, |items|), l)
    ensures forall k :: InItem(items, k, l) ==> k == ItemAt(items, l, |items|)
  {
    ItemAtFrom(items, l, |items|);
    var j := ItemAt(items, l, |items|);
    forall k | InItem(items, k, l) ensures k == j {
      if j < k { LabelsAscend(items, j, k); } else if k < j { LabelsAscend(items, k, j); }
    }
  }

  lemma {:induction false} LabelsAscend(items: seq<Item>, j: nat, k: nat)
    requires j < k < |items|
    ensures LineEnd(items, j) <= LabelLine(items, k)
    decreases k
  {
    if j + 1 < k {
      LabelsAscend(items, j, k - 1);
      ItemLines(items, k - 1);
    }
  }

  lemma DescOfBlock(k: nat, item: Item, i: nat)
    requires i < |Split(item.description)|
    ensures var sep := if k > 0 then 1 else 0;
      && sep + 1 + i < |Block(k, item)| && Block(k, item)[sep + 1 + i] == Desc(Split(item.description)[i])
      && (k > 0 ==> Block(k, item)[0] == Separator)
  {
  }

  lemma LineOfBlock(items: seq<Item>, k: nat, j: nat)
    requires k < |items| && j < BlockHeight(k, items[k])
    ensures Height(items, k) + j < |Layout(items)| && Layout(items)[Height(items, k) + j] == Block(k, items[k])[j]
  {
    LayoutPrefix(items, k + 1, |items|);
    assert LayoutTo(items, k + 1) == LayoutTo(items, k) + Block(k, items[k]);
  }

  /** What stands on the lines of item k: a separator in front unless it is the first, then its label,
      then its description line by line. */
  lemma LinesOfItem(items: seq<Item>, k: nat, i: nat)
    requires k < |items| && i < |Split(items[k].description)|
    ensures LabelLine(items, k) + 1 + i < |Layout(items)|
    ensures Layout(items)[LabelLine(items, k) + 1 + i] == Desc(Split(items[k].description)[i])
    ensures k > 0 ==> LabelLine(items, k) > 0 && Layout(items)[LabelLine(items, k) - 1] == Separator
    ensures k + 1 < |items| ==> LabelLine(items, k + 1) == LabelLine(items, k) + |Split(items[k].description)| + 2
  {
    DescOfBlock(k, items[k], i);
    LineOfBlock(items, k, (if k > 0 then 1 else 0) + 1 + i);
    LineOfBlock(items, k, 0);
  }

  // ---------------------------------------------------------------- the scrolling loops

  /** The nearest label at or above line l. */
  function UpTo(pad: seq<Line>, l: nat): (r: nat)
    requires l < |pad| && pad[0].Label?
    ensures r <= l && pad[r].Label?
  {
    if pad[l].Label? then l else UpTo(pad, l - 1)
  }

  /** The nearest label at or below line l; from the last line, the nearest above. */
  function DownTo(pad: seq<Line>, l: nat): (r: nat)
    requires l < |pad| && pad[0].Label?
    ensures r < |pad| && pad[r].Label?
    decreases |pad| - l
  {
    if l == |pad| - 1 then UpTo(pad, l) else if pad[l].Label? then l else DownTo(pad, l + 1)
  }

  lemma {:induction false} UpStretch(pad: seq<Line>, a: nat, l: nat)
    requires a <= l < |pad| && pad[0].Label? && pad[a].Label? && forall x :: a < x <= l ==> !pad[x].Label?
    ensures UpTo(pad, l) == a
    decreases l
  {
    if a < l { UpStretch(pad, a, l - 1); }
  }

  lemma {:induction false} DownStretch(pad: seq<Line>, l: nat, e: nat)
    requires l <= e < |pad| - 1 && pad[0].Label? && pad[e].Label? && forall x :: l <= x < e ==> !pad[x].Label?
    ensures DownTo(pad, l) == e
    decreases e - l
  {
    if l < e { DownStretch(pad, l + 1, e); }
  }

  lemma {:induction false} DownEnd(pad: seq<Line>, a: nat, l: nat)
    requires a < l < |pad| && pad[0].Label? && pad[a].Label? && forall x :: a < x < |pad| ==> !pad[x].Label?
    ensures DownTo(pad, l) == a
    decreases |pad| - l
  {
    if l == |pad| - 1 { UpStretch(pad, a, l); } else { DownEnd(pad, a, l + 1); }
  }

  lemma UpFindsItem(items: seq<Item>, k: nat, l: nat)
    requires InItem(items, k, l)
    ensures |Layout(items)| > l && Layout(items)[0].Label?
    ensures UpTo(Layout(items), l) == LabelLine(items, k)
  {
    ItemLines(items, k);
    ItemLines(items, 0);
    UpStretch(Layout(items), LabelLine(items, k), l);
  }

  /** Scrolling down from a line of item k, not its label, ends on the next label, or on label k if
      there is none. */
  lemma DownFindsNext(items: seq<Item>, k: nat, l: nat)
    requires InItem(items, k, l) && l > LabelLine(items, k)
    ensures l < |Layout(items)| && Layout(items)[0].Label?
    ensures DownTo(Layout(items), l) == LabelLine(items, Following(items, k))
  {
    ItemLines(items, k);
    ItemLines(items, 0);
    if k + 1 < |items| {
      LabelAt(items, k + 1);
      DownStretch(Layout(items), l, LineEnd(items, k));
    } else {
      DownEnd(Layout(items), LabelLine(items, k), l);
    }
  }

  /** One line up, then up to a label. */
  lemma UpKeyLands(items: seq<Item>, k: nat, l: nat)
    requires InItem(items, k, l)
    ensures l < |Layout(items)| && Layout(items)[0].Label?
    ensures UpTo(Layout(items), if l > 0 then l - 1 else 0) ==
      if l > LabelLine(items, k) || k == 0 then LabelLine(items, k) else LabelLine(items, k - 1)
  {
    UpFindsItem(items, k, l);
    ItemLines(items, 0);
    if l > LabelLine(items, k) {
      UpFindsItem(items, k, l - 1);
    } else if k > 0 {
      ItemLines(items, k - 1);
      UpFindsItem(items, k - 1, l - 1);
    }
  }

  /** One line down, then down to a label. */
  lemma DownKeyLands(items: seq<Item>, k: nat, l: nat)
    requires InItem(items, k, l)
    ensures l < |Layout(items)| && Layout(items)[0].Label?
    ensures DownTo(Layout(items), if l + 1 < |Layout(items)| then l + 1 else l) == LabelLine(items, Following(items, k))
  {
    ItemBounds(items, k);
    if l + 1 < LineEnd(items, k) {
      DownFindsNext(items, k, l + 1);
    } else if k + 1 < |items| {
      LabelAt(items, k + 1);
      DownStretch(Layout(items), l + 1, l + 1);
    } else {
      DownFindsNext(items, k, l);
    }
  }

  /** From the last line up to a label. */
  lemma EndKeyLands(items: seq<Item>)
    requires items != []
    ensures Layout(items) != [] && Layout(items)[0].Label?
    ensures UpTo(Layout(items), |Layout(items)| - 1) == LabelLine(items, |items| - 1)
  {
    ItemLines(items, |items| - 1);
    UpFindsItem(items, |items| - 1, |Layout(items)| - 1);
  }

  function Following(items: seq<Item>, k: nat): nat { if k + 1 < |items| then k + 1 else k }

  // ---------------------------------------------------------------- what the keys do, by items

  datatype Key = KeyUp | KeyDown | KeyEnd | KeyLineDown | KeyLineUp | KeySpace | KeyPlus | KeyMinus | KeyHot(hit: int)

  /** The state of a selector: cursor line and selection. */
  datatype State = State(line: nat, selected: seq<bool>)

  function Only(n: nat, k: nat): (r: seq<bool>)
    ensures |r| == n && forall i :: 0 <= i < n ==> r[i] == (i == k)
  {
    seq(n, i => i == k)
  }

  function Cycle(single: bool, selected: seq<bool>, k: nat): (r: seq<bool>)
    requires k < |selected|
    ensures |r| == |selected|
  {
    if single then Only(|selected|, k) else selected[k := !selected[k]]
  }

  /** What a key does when the cursor line belongs to item k. */
  function Handle(items: seq<Item>, single: bool, s: State, k: nat, key: Key): State
    requires k < |items| == |s.selected|
  {
    var here, next := LabelLine(items, k), LabelLine(items, Following(items, k));
    match key
    case KeyUp => s.(line := if s.line > here || k == 0 then here else LabelLine(items, k - 1))
    case KeyDown => s.(line := next)
    case KeyEnd => s.(line := LabelLine(items, |items| - 1))
    case KeyLineDown => s.(line := if s.line + 1 < |Layout(items)| then s.line + 1 else s.line)
    case KeyLineUp => s.(line := if s.line > 0 then s.line - 1 else 0)
    case KeySpace => State(here, Cycle(single, s.selected, k))
    case KeyPlus => State(if single then here else next,
                          if s.selected[k] then s.selected else Cycle(single, s.selected, k))
    case KeyMinus => State(if single then here else next,
                           if s.selected[k] && !single then s.selected[k := false] else s.selected)
    case KeyHot(j) => if 0 <= j < |items| then State(LabelLine(items, j), Cycle(single, s.selected, j)) else s
  }

  ghost predicate AtMostOne(selected: seq<bool>) {
    forall i, j :: 0 <= i < j < |selected| ==> !(selected[i] && selected[j])
  }

  /** In single-selection mode no key selects a second item, and none takes the selection away. */
  lemma HandleKeepsSingle(items: seq<Item>, s: State, k: nat, key: Key)
    requires k < |items| == |s.selected| && AtMostOne(s.selected)
    ensures AtMostOne(Handle(items, true, s, k, key).selected)
    ensures true in s.selected ==> true in Handle(items, true, s, k, key).selected
  {
    var r := Handle(items, true, s, k, key).selected;
    if r != s.selected {
      var j := if key.KeyHot? then key.hit else k;
      assert r[j];
    }
  }

  /** What the status keys do when any number of items may be selected.  Space and a hotkey flip their
      item, plus selects it, minus deselects it; all other items stay as they are.  Space and the hotkey
      leave the cursor on the item, plus and minus move it to the next. */
  lemma StatusKeysMulti(items: seq<Item>, s: State, k: nat, j: nat)
    requires k < |items| == |s.selected| && j < |items|
    ensures var space := Handle(items, false, s, k, KeySpace);
      && |space.selected| == |items| && space.line == LabelLine(items, k)
      && forall i :: 0 <= i < |items| ==> space.selected[i] == if i == k then !s.selected[i] else s.selected[i]
    ensures var hot := Handle(items, false, s, k, KeyHot(j));
      && |hot.selected| == |items| && hot.line == LabelLine(items, j)
      && forall i :: 0 <= i < |items| ==> hot.selected[i] == if i == j then !s.selected[i] else s.selected[i]
    ensures var plus, minus := Handle(items, false, s, k, KeyPlus), Handle(items, false, s, k, KeyMinus);
      && |plus.selected| == |minus.selected| == |items|
      && plus.line == minus.line == LabelLine(items, if k + 1 < |items| then k + 1 else k)
      && forall i :: 0 <= i < |items| ==>
           && plus.selected[i] == (i == k || s.selected[i])
           && minus.selected[i] == (i != k && s.selected[i])
  {
  }

  /** With single selection space, plus and a hotkey leave exactly their item selected, unless plus finds
      it selected already; minus changes nothing.  The cursor stays on the item. */
  lemma StatusKeysSingle(items: seq<Item>, s: State, k: nat, j: nat)
    requires k < |items| == |s.selected| && j < |items|
    ensures var space, hot := Handle(items, true, s, k, KeySpace), Handle(items, true, s, k, KeyHot(j));
      && |space.selected| == |hot.selected| == |items|
      && space.line == LabelLine(items, k) && hot.line == LabelLine(items, j)
      && forall i :: 0 <= i < |items| ==> space.selected[i] == (i == k) && hot.selected[i] == (i == j)
    ensures var plus, minus := Handle(items, true, s, k, KeyPlus), Handle(items, true, s, k, KeyMinus);
      && |plus.selected| == |items| && plus.line == minus.line == LabelLine(items, k) && minus.selected == s.selected
      && forall i :: 0 <= i < |items| ==> plus.selected[i] == if s.selected[k] then s.selected[i] else i == k
  {
  }

  /** Pressing space or a hotkey twice restores a multi-selection, wherever the cursor stood. */
  lemma TwiceRestores(items: seq<Item>, s: State, j: nat)
    requires items != [] && |s.selected| == |items| && s.line < |Layout(items)| && j < |items|
    ensures HandleAll(items, false, s, [KeySpace, KeySpace]).selected == s.selected
    ensures HandleAll(items, false, s, [KeyHot(j), KeyHot(j)]).selected == s.selected
  {
    var k := ItemAt(items, s.line, |items|);
    ItemOfLine(items, s.line);
    OneKey(items, s, KeySpace);
    OneKey(items, s, KeyHot(j));
    assert [KeySpace, KeySpace][..1] == [KeySpace] && [KeyHot(j), KeyHot(j)][..1] == [KeyHot(j)];
    ItemLines(items, k);
    ItemOfLine(items, LabelLine(items, k));
    assert InItem(items, k, LabelLine(items, k));
  }

  lemma OneKey(items: seq<Item>, s: State, key: Key)
    requires items != [] && |s.selected| == |items|
    ensures HandleAll(items, false, s, [key]) == Handle(items, false, s, ItemAt(items, s.line, |items|), key)
  {
    assert [key][..0] == [];
  }

  /** A run of keys, each taken where the cursor stands. */
  function HandleAll(items: seq<Item>, single: bool, s: State, keys: seq<Key>): (r: State)
    requires items != [] && |s.selected| == |items|
    ensures |r.selected| == |items|
  {
    if keys == [] then s
    else
      var t := HandleAll(items, single, s, keys[..|keys| - 1]);
      Handle(items, single, t, ItemAt(items, t.line, |items|), keys[|keys| - 1])
  }

  lemma HandleStaysInPad(items: seq<Item>, single: bool, s: State, k: nat, key: Key)
    requires k < |items| == |s.selected| && s.line < |Layout(items)|
    ensures Handle(items, single, s, k, key).line < |Layout(items)|
  {
    forall j | 0 <= j < |items| ensures LabelLine(items, j) < |Layout(items)| {
      LabelAt(items, j);
    }
    assert Handle(items, single, s, k, key).line == s.line + 1 < |Layout(items)|
        || Handle(items, single, s, k, key).line <= s.line
        || exists j :: 0 <= j < |items| && Handle(items, single, s, k, key).line == LabelLine(items, j);
  }

  /** Whatever keys are pressed, the cursor stays on the pad; and in single-selection mode a
      selection, once made, stays the only one. */
  lemma {:induction false} HandleAllKeeps(items: seq<Item>, single: bool, s: State, keys: seq<Key>)
    requires items != [] && |s.selected| == |items| && s.line < |Layout(items)|
    ensures HandleAll(items, single, s, keys).line < |Layout(items)|
    ensures single && AtMostOne(s.selected) ==>
      && AtMostOne(HandleAll(items, single, s, keys).selected)
      && (true in s.selected ==> true in HandleAll(items, single, s, keys).selected)
  {
    if keys != [] {
      var front, key := keys[..|keys| - 1], keys[|keys| - 1];
      HandleAllKeeps(items, single, s, front);
      var t := HandleAll(items, single, s, front);
      var k := ItemAt(items, t.line, |items|);
      HandleStaysInPad(items, single, t, k, key);
      if single && AtMostOne(s.selected) {
        HandleKeepsSingle(items, t, k, key);
      }
    }
  }

  /** Walking with the arrow keys from a label is item arithmetic.  This only reads it off Handle;
      that the line-by-line loops do what Handle says is the contract of HandleInput. */
  lemma ArrowsFromLabel(items: seq<Item>, single: bool, s: State, k: nat)
    requires k < |items| == |s.selected| && s.line == LabelLine(items, k)
    ensures Handle(items, single, s, k, KeyDown).line == LabelLine(items, if k + 1 < |items| then k + 1 else |items| - 1)
    ensures Handle(items, single, s, k, KeyUp).line == LabelLine(items, if k > 0 then k - 1 else 0)
    ensures Handle(items, single, s, k, KeyEnd).line == LabelLine(items, |items| - 1)
  {
  }

  // ---------------------------------------------------------------- the widget

  class Selector {
    var items: seq<Item>
    var pad: seq<Line>
    var line: nat
    var selected: seq<bool>
    var visibleItems: int
    var prefSize: Size
    var prefSizeDirty: bool
    ghost var sizedFor: seq<Item>  // the items prefSize was computed for
    const single: bool
    const selectorWidth: nat := |"|[x] |"|

    /** The pad holds the lines of the items. */
    ghost predicate Laid()
      reads this
    {
      pad == Layout(items) && |selected| == |items| && (items != [] ==> pad != [] && pad[0].Label?)
    }

    ghost predicate Valid()
      reads this
    {
      Laid() && if items == [] then line == 0 else line < |pad|
    }

    /** A size that is not dirty is that of the items it was computed for, which are still there or
        have all been deleted. */
    ghost predicate SizeKnown()
      reads this
    {
      && visibleItems >= 1
      && (!prefSizeDirty ==> prefSize == SizeOf(sizedFor, visibleItems, selectorWidth) && (items == sizedFor || items == []))
    }

    constructor (single: bool)
      ensures Valid() && SizeKnown() && items == [] && this.single == single && prefSizeDirty
    {
      items, pad, line, selected := [], [], 0, [];
      visibleItems, prefSize, prefSizeDirty, sizedFor := 3, Size(50, 5), true, [];
      this.single := single;
    }

    /** The item of a line, if it is a label. */
    function CurrentItem(): (k: int)
      requires pad == [] || line < |pad|
      reads this
      ensures k >= 0 <==> pad != [] && pad[line].Label?
      ensures k >= 0 ==> pad[line] == Label(k)
    {
      if pad == [] then -1 else match pad[line] case Label(k) => k case _ => -1
    }

    /** addItem: a selected item of a single-selection widget gets the cursor and takes the
        selection.  A cursor that was left below the pad is on it again exactly when it is moved to
        the new item, or the lines have reached it. */
    method AddItem(item: Item, sel: bool)
      requires Laid()
      modifies this`items, this`pad, this`line, this`selected, this`prefSizeDirty
      ensures Laid() && items == old(items) + [item] && prefSizeDirty
      ensures Valid() <==> (single && sel) || old(line) < Height(items, |items|)
      ensures old(Valid()) ==> Valid()
      ensures selected == if single && sel then Only(|items|, |items| - 1) else old(selected) + [sel]
      ensures line == if single && sel then LabelLine(items, |items| - 1) else old(line)
    {
      if single && sel {
        selected := seq(|selected|, _ => false);
      }
      selected := selected + [sel];
      NewItemLines(items, item);
      items := items + [item];
      CreateItemWidget(|items| - 1, item, sel);
      assert single && sel ==> selected == Only(|items|, |items| - 1);
    }

    method CreateItemWidget(k: nat, item: Item, sel: bool)
      requires pad == [] <==> k == 0
      modifies this`pad, this`line, this`prefSizeDirty
      ensures prefSizeDirty
      ensures pad == old(pad) + Block(k, item)
      ensures line == if single && sel then |old(pad)| + (if k > 0 then 1 else 0) else old(line)
    {
      prefSizeDirty := true;
      if |pad| > 0 {
        pad := pad + [Separator];
      }
      var lineNo := |pad|;
      pad := pad + [Label(k)];
      if single && sel {
        line := lineNo;
      }
      AppendDescription(Split(item.description));
      assert pad == old(pad) + Block(k, item);
    }

    method AppendDescription(texts: seq<string>)
      modifies this`pad
      ensures pad == old(pad) + DescLines(texts)
    {
      for i := 0 to |texts|
        invariant pad == old(pad) + DescLines(texts[..i])
      {
        assert DescLines(texts[..i + 1]) == DescLines(texts[..i]) + [Desc(texts[i])];
        pad := pad + [Desc(texts[i])];
      }
      assert texts[..|texts|] == texts;
    }

    /** The items go; the cursor stays where it was, and the size is not marked dirty. */
    method DeleteAllItems()
      modifies this`items, this`pad, this`selected
      ensures items == [] && pad == [] && selected == [] && Laid()
      ensures old(SizeKnown()) ==> SizeKnown()
      ensures Valid() <==> line == 0
    {
      items, pad, selected := [], [], [];
    }

    method ScrlBy(d: int)
      modifies this`line
      ensures pad == [] ==> line == old(line)
      ensures pad != [] ==> line == var t := old(line) + d; if t < 0 then 0 else if t >= |pad| then |pad| - 1 else t
    {
      if pad != [] {
        line := if line + d < 0 then 0 else if line + d >= |pad| then |pad| - 1 else line + d;
      }
    }

    /** A redraw sets the position again, which pulls a cursor below the pad up to its last line. */
    method Redraw()
      requires Laid()
      modifies this`line
      ensures Laid() && (items != [] || old(Valid()) ==> Valid())
      ensures old(Valid()) ==> line == old(line)
      ensures pad != [] && old(line) >= |pad| ==> line == |pad| - 1
    {
      ScrlBy(0);
    }

    method ScrlToLastLine()
      modifies this`line
      ensures pad == [] ==> line == old(line)
      ensures pad != [] ==> line == |pad| - 1
    {
      ScrlBy(|pad|);
    }

    method ScrollUpToPreviousItem() returns (k: int)
      requires if pad == [] then line == 0 else line < |pad| && pad[0].Label?
      modifies this`line
      ensures pad == [] ==> k == -1 && line == 0
      ensures pad != [] ==> line == UpTo(pad, old(line)) && k >= 0 && pad[line] == Label(k)
    {
      while true
        invariant if pad == [] then line == 0 else line <= old(line) && UpTo(pad, line) == UpTo(pad, old(line))
        decreases line
      {
        k := CurrentItem();
        if k >= 0 {
          return;
        }
        if line == 0 {
          return;
        }
        ScrlBy(-1);
      }
    }

    method ScrollDownToNextItem() returns (k: int)
      requires if pad == [] then line == 0 else line < |pad| && pad[0].Label?
      modifies this`line
      ensures pad == [] ==> k == -1 && line == 0
      ensures pad != [] ==> line == DownTo(pad, old(line)) && k >= 0 && pad[line] == Label(k)
    {
      while line < |pad| - 1
        invariant if pad == [] then line == 0 else line < |pad| && DownTo(pad, line) == DownTo(pad, old(line))
        decreases |pad| - line
      {
        k := CurrentItem();
        if k >= 0 {
          return;
        }
        ScrlBy(1);
      }
      k := ScrollUpToPreviousItem();
    }

    method CycleCurrentItemStatus()
      requires Valid()
      modifies this`selected
      ensures pad == [] || !pad[line].Label? ==> selected == old(selected)
      ensures pad != [] && pad[line].Label? ==> pad[line].k < |items| && selected == Cycle(single, old(selected), pad[line].k)
    {
      var k := CurrentItem();
      if k >= 0 {
        LabelIsItem(items, line);
        if single {
          SelectItem(k, true);
          DeselectAllItemsExcept(k);
        } else {
          SelectItem(k, !selected[k]);
        }
      }
    }

    method SelectItem(k: nat, on: bool)
      requires k < |selected|
      modifies this`selected
      ensures selected == old(selected)[k := on]
    {
      selected := selected[k := on];
    }

    method DeselectAllItemsExcept(k: nat)
      modifies this`selected
      ensures |selected| == |old(selected)|
      ensures forall i :: 0 <= i < |selected| ==> selected[i] == (i == k && old(selected)[i])
    {
      for i := 0 to |selected|
        invariant |selected| == |old(selected)|
        invariant forall j :: 0 <= j < |selected| ==>
          selected[j] == if j < i then j == k && old(selected)[j] else old(selected)[j]
      {
        if i != k {
          selected := selected[i := false];
        }
      }
    }

    method FindItemLine(j: nat) returns (lineNo: int)
      requires Valid()
      ensures lineNo == if j < |items| then LabelLine(items, j) else -1
    {
      lineNo := 0;
      while lineNo < |pad|
        invariant 0 <= lineNo <= |pad|
        invariant forall l :: 0 <= l < lineNo ==> pad[l] != Label(j)
      {
        if pad[lineNo] == Label(j) {
          LabelIsItem(items, lineNo);
          return;
        }
        lineNo := lineNo + 1;
      }
      if j < |items| {
        ItemLines(items, j);
        assert false;
      }
      lineNo := -1;
    }

    predicate StatusChangeAllowed(from: int, to: int) {
      if from == to then false else if to < 0 || to > 1 then false else if single then to == 1 else true
    }

    /** wHandleInput. */
    method HandleInput(key: Key)
      requires Valid()
      modifies this`line, this`selected
      ensures Valid()
      ensures items == [] ==> line == 0
      ensures items != [] ==>
        State(line, selected) == Handle(items, single, old(State(line, selected)), ItemAt(items, old(line), |items|), key)
    {
      if items == [] {
        HandleEmpty(key);
        return;
      }
      ghost var k := ItemAt(items, line, |items|);
      ItemOfLine(items, line);
      match key {
        case KeySpace =>
          ChangeStatus(key, k);
        case KeyPlus =>
          ChangeStatus(key, k);
        case KeyMinus =>
          ChangeStatus(key, k);
        case KeyHot(hit) =>
          if 0 <= hit < |items| {
            CycleByHotkey(hit);
          }
        case _ =>
          MoveCursor(key, k);
      }
    }

    /** The keys that only move the cursor. */
    method MoveCursor(key: Key, ghost k: nat)
      requires Valid() && items != [] && InItem(items, k, line) && key in {KeyUp, KeyDown, KeyEnd, KeyLineDown, KeyLineUp}
      modifies this`line
      ensures Valid() && State(line, selected) == Handle(items, single, old(State(line, selected)), k, key)
    {
      match key {
        case KeyUp =>
          UpOneItem(k);
        case KeyDown =>
          DownOneItem(k);
        case KeyEnd =>
          ToLastItem();
        case KeyLineDown =>
          ScrlBy(1);
        case KeyLineUp =>
          ScrlBy(-1);
      }
    }

    method UpOneItem(ghost k: nat)
      requires Valid() && items != [] && InItem(items, k, line)
      modifies this`line
      ensures Valid()
      ensures line == if old(line) > LabelLine(items, k) || k == 0 then LabelLine(items, k) else LabelLine(items, k - 1)
    {
      UpKeyLands(items, k, line);
      ScrlBy(-1);
      var _ := ScrollUpToPreviousItem();
    }

    method DownOneItem(ghost k: nat)
      requires Valid() && items != [] && InItem(items, k, line)
      modifies this`line
      ensures Valid() && line == LabelLine(items, Following(items, k))
    {
      DownKeyLands(items, k, line);
      ScrlBy(1);
      var _ := ScrollDownToNextItem();
    }

    method ToLastItem()
      requires Valid() && items != []
      modifies this`line
      ensures Valid() && line == LabelLine(items, |items| - 1)
    {
      EndKeyLands(items);
      ScrlToLastLine();
      var _ := ScrollUpToPreviousItem();
    }

    method CycleByHotkey(hit: nat)
      requires Valid() && hit < |items|
      modifies this`line, this`selected
      ensures Valid() && line == LabelLine(items, hit) && selected == Cycle(single, old(selected), hit)
    {
      var lineNo := FindItemLine(hit);
      ItemLines(items, hit);
      line := lineNo;
      CycleCurrentItemStatus();
    }

    /** The keys that change the status of the current item. */
    method ChangeStatus(key: Key, ghost k: nat)
      requires Valid() && items != [] && InItem(items, k, line) && key in {KeySpace, KeyPlus, KeyMinus}
      modifies this`line, this`selected
      ensures Valid() && State(line, selected) == Handle(items, single, old(State(line, selected)), k, key)
    {
      UpFindsItem(items, k, line);
      ItemLines(items, k);
      var cur := CurrentItem();
      if cur < 0 {
        cur := ScrollUpToPreviousItem();
      }
      assert line == LabelLine(items, k) && cur == k;
      var status := if selected[cur] then 1 else 0;
      match key {
        case KeySpace =>
          CycleCurrentItemStatus();
        case KeyPlus =>
          if status != 1 && StatusChangeAllowed(status, 1) {
            CycleCurrentItemStatus();
          }
          NextUnlessSingle(k);
        case KeyMinus =>
          if status > 0 && StatusChangeAllowed(status, 0) {
            SelectItem(cur, false);
          }
          NextUnlessSingle(k);
      }
    }

    method NextUnlessSingle(ghost k: nat)
      requires Valid() && k < |items| && line == LabelLine(items, k)
      modifies this`line
      ensures Valid() && line == if single then old(line) else LabelLine(items, Following(items, k))
    {
      if !single {
        ItemLines(items, k);
        DownOneItem(k);
      }
    }

    /** Without items the keys find nothing to scroll to. */
    method HandleEmpty(key: Key)
      requires Valid() && items == []
      modifies this`line, this`selected
      ensures Valid() && line == 0
    {
      match key {
        case KeyUp =>
          ScrlBy(-1);
          var _ := ScrollUpToPreviousItem();
        case KeyDown =>
          ScrlBy(1);
          var _ := ScrollDownToNextItem();
        case KeyHot(_) =>
        case KeyLineUp =>
          ScrlBy(-1);
        case KeyLineDown =>
          ScrlBy(1);
        case _ =>
          var _ := ScrollUpToPreviousItem();
      }
    }

    method SetVisibleItems(newVal: int)
      modifies this`visibleItems, this`prefSizeDirty
      ensures visibleItems == (if newVal < 1 then 1 else newVal) && prefSizeDirty && SizeKnown()
    {
      prefSizeDirty := true;
      visibleItems := if newVal < 1 then 1 else newVal;
    }

    /** preferredSize.  It is the size of the items as they are exactly when it is computed anew, or
        has been computed for these items, or is the least size anyway. */
    method PreferredSize() returns (size: Size)
      requires SizeKnown()
      modifies this`prefSize, this`prefSizeDirty, this`sizedFor
      ensures SizeKnown() && !prefSizeDirty && size == prefSize
      ensures !old(prefSizeDirty) ==> size == old(prefSize) == SizeOf(old(sizedFor), visibleItems, selectorWidth)
      ensures size == SizeOf(items, visibleItems, selectorWidth) <==>
        old(prefSizeDirty) || items == old(sizedFor) || LeastSize(old(sizedFor), visibleItems, selectorWidth)
    {
      if prefSizeDirty {
        prefSize := ComputeSize();
        sizedFor := items;
        prefSizeDirty := false;
      } else {
        StaleSize(sizedFor, visibleItems, selectorWidth);
      }
      size := prefSize;
    }

    /** The size of the visible items: a separator, a label and a description for each. */
    method ComputeSize() returns (size: Size)
      requires visibleItems >= 1
      ensures size == SizeOf(items, visibleItems, selectorWidth)
    {
      var visible := if |items| < visibleItems then |items| else visibleItems;
      var h, w := 0, 0;
      for i := 0 to visible
        invariant h == Height(items, i) && w == Widest(items, i, selectorWidth) && h >= 2 * i
      {
        if h > i {
          h := h + 1;
        }
        h := h + 1;
        var lines := Split(items[i].description);
        h := h + |lines|;
        w := WidenBy(lines, selectorWidth, w);
      }
      size := Size(MaxOf(h + 2, 5), MaxOf(w, 20));
    }
  }

  datatype Size = Size(h: int, w: int)

  function Shown(items: seq<Item>, visible: int): (m: nat)
    requires visible >= 1
    ensures m <= |items| && (m == 0 <==> items == [])
  {
    if |items| < visible then |items| else visible
  }

  /** The height of the lines of the visible items, with the frame, and the width of their longest
      description line, with the selector. */
  function SizeOf(items: seq<Item>, visible: int, selectorWidth: nat): Size
    requires visible >= 1
  {
    var m := Shown(items, visible);
    Size(MaxOf(5, 2 + |LayoutTo(items, m)|), MaxOf(20, Widest(items, m, selectorWidth)))
  }

  /** Items that need no more room than none: no more than three lines, none of them too wide. */
  predicate LeastSize(items: seq<Item>, visible: int, selectorWidth: nat)
    requires visible >= 1
  {
    var m := Shown(items, visible);
    Height(items, m) <= 3 && Widest(items, m, selectorWidth) <= 20
  }

  lemma StaleSize(items: seq<Item>, visible: int, selectorWidth: nat)
    requires visible >= 1
    ensures SizeOf(items, visible, selectorWidth) == SizeOf([], visible, selectorWidth) <==> LeastSize(items, visible, selectorWidth)
  {
    assert Shown([], visible) == 0;
  }

  /** Two items are already more than that: their size outlives them. */
  lemma TwoItemsOutgrow(a: Item, b: Item, visible: int, selectorWidth: nat)
    requires visible >= 2
    ensures !LeastSize([a, b], visible, selectorWidth)
    ensures SizeOf([a, b], visible, selectorWidth).h >= 7 && SizeOf([], visible, selectorWidth).h == 5
  {
    var items := [a, b];
    assert Height(items, 1) == BlockHeight(0, a) && Height(items, 2) == Height(items, 1) + BlockHeight(1, b);
    assert Shown(items, visible) == 2;
  }

  method WidenBy(lines: seq<string>, extra: nat, least: int) returns (w: int)
    ensures w == WidestOf(lines, extra, least)
  {
    w := least;
    for j := 0 to |lines|
      invariant w == WidestOf(lines[..j], extra, least)
    {
      assert lines[..j + 1][..j] == lines[..j];
      w := MaxOf(w, |lines[j]| + extra);
    }
    assert lines[..|lines|] == lines;
  }

  function MaxOf(a: int, b: int): int { if a > b then a else b }

  function WidestOf(lines: seq<string>, extra: nat, least: int): int {
    if lines == [] then least else MaxOf(WidestOf(lines[..|lines| - 1], extra, least), |lines[|lines| - 1]| + extra)
  }

  /** The width of the longest description line of the first n items. */
  function Widest(items: seq<Item>, n: nat, extra: nat): int
    requires n <= |items|
  {
    if n == 0 then 0 else WidestOf(Split(items[n - 1].description), extra, Widest(items, n - 1, extra))
  }

  /** The greatest width of a description line of the first n items, with the selector; 0 without
      items. */
  lemma {:induction false} WidestIsGreatest(items: seq<Item>, n: nat, extra: nat)
    requires n <= |items|
    ensures Widest(items, n, extra) >= 0
    ensures forall k, i :: 0 <= k < n && 0 <= i < |Split(items[k].description)| ==>
      |Split(items[k].description)[i]| + extra <= Widest(items, n, extra)
    ensures n > 0 ==> exists k, i :: (
      0 <= k < n && 0 <= i < |Split(items[k].description)| && |Split(items[k].description)[i]| + extra == Widest(items, n, extra))
  {
    if n > 0 {
      WidestIsGreatest(items, n - 1, extra);
      var lines, before := Split(items[n - 1].description), Widest(items, n - 1, extra);
      WidestOfIsGreatest(lines, extra, before);
      if Widest(items, n, extra) == before && n == 1 {
        assert |lines[0]| + extra == before;
      }
    }
  }

  lemma {:induction false} WidestOfIsGreatest(lines: seq<string>, extra: nat, least: int)
    ensures WidestOf(lines, extra, least) >= least
    ensures forall i :: 0 <= i < |lines| ==> |lines[i]| + extra <= WidestOf(lines, extra, least)
    ensures WidestOf(lines, extra, least) == least ||
      exists i :: 0 <= i < |lines| && |lines[i]| + extra == WidestOf(lines, extra, least)
  {
    if lines != [] {
      WidestOfIsGreatest(lines[..|lines| - 1], extra, least);
    }
  }

  // ---------------------------------------------------------------- when scrolling up does not end

  /** Where the scroll-up loop has stopped after at most `turns` turns; -1 while it still runs. */
  function UpAfter(pad: seq<Line>, line: nat, turns: nat): int
    requires pad == [] || line < |pad|
    decreases turns
  {
    if turns == 0 then -1
    else if pad != [] && pad[line].Label? then line
    else if line == 0 then 0
    else UpAfter(pad, if pad == [] then line else line - 1, turns - 1)
  }

  /** On a laid-out pad the loop stops, within as many turns as there are lines to go.  On an empty
      pad, where scrolling moves nothing, it stops exactly when the cursor is on line 0; deleting
      all items leaves the cursor where it was. */
  lemma {:induction false} ScrollUpEndsExactly(pad: seq<Line>, line: nat, turns: nat)
    requires if pad == [] then true else line < |pad| && pad[0].Label?
    ensures pad != [] && turns > line ==> UpAfter(pad, line, turns) == UpTo(pad, line)
    ensures pad == [] && turns > 0 ==> (UpAfter(pad, line, turns) >= 0 <==> line == 0)
    decreases turns
  {
    if turns > 0 && line > 0 && !(pad != [] && pad[line].Label?) {
      ScrollUpEndsExactly(pad, if pad == [] then line else line - 1, turns - 1);
    }
  }

  /** What adding an item does to the layout. */
  lemma NewItemLines(items: seq<Item>, item: Item)
    ensures Layout(items) == [] <==> items == []
    ensures var more := items + [item];
      && Layout(more) == Layout(items) + Block(|items|, item)
      && Layout(more)[0].Label? && |Layout(items)| < |Layout(more)|
      && LabelLine(more, |items|) == |Layout(items)| + (if items == [] then 0 else 1) < |Layout(more)|
  {
    var more := items + [item];
    LayoutOfFront(items, item, |items|);
    LabelAt(more, 0);
    LabelAt(more, |items|);
  }

  /** A label line names the item it belongs to. */
  lemma LabelIsItem(items: seq<Item>, l: nat)
    requires l < |Layout(items)| && Layout(items)[l].Label?
    ensures Layout(items)[l].k < |items| && l == LabelLine(items, Layout(items)[l].k)
  {
    ItemOfLine(items, l);
    ItemLines(items, ItemAt(items, l, |items|));
  }
}
