/** NCPad: a virtual window seen through a destination window.  A pad higher than curses can hold
    is paged: only the visible lines are drawn, just before they are copied.  Lines are always
    drawn whole, so a line of the curses pad is described by the virtual line it holds, and a line
    of the destination by the virtual line and the columns of it that were copied there. */
module ScrollPad {
  import opened Options

  const PAD_PAGESIZE := 1024

  datatype Pair = Pair(a: int, b: int)
  datatype Win = Win(id: nat, h: nat, w: nat)

  function MinOf(x: int, y: int): int { if x < y then x else y }
  function MaxOf(x: int, y: int): int { if x > y then x else y }
  function Between(x: int, lo: int, hi: int): int { MinOf(MaxOf(x, lo), hi) }

  // ---------------------------------------------------------------- the viewport

  /** Virtual size, destination and position of the visible part. */
  datatype Port = Port(h: nat, w: nat, dest: Option<Win>, line: int, col: int)

  function VisH(v: Port): nat { if v.dest.None? then 0 else MinOf(v.h, v.dest.value.h) }
  function VisW(v: Port): nat { if v.dest.None? then 0 else MinOf(v.w, v.dest.value.w) }
  function MaxLine(v: Port): nat { if v.dest.None? then 0 else v.h - VisH(v) }
  function MaxCol(v: Port): nat { if v.dest.None? then 0 else v.w - VisW(v) }

  function MoveTo(v: Port, line: int, col: int): Port {
    v.(line := Between(line, 0, MaxLine(v)), col := Between(col, 0, MaxCol(v)))
  }

  function Attach(v: Port, dest: Option<Win>): Port {
    if dest == v.dest then v else v.(dest := dest, line := 0, col := 0)
  }

  function Resize(v: Port, h: nat, w: nat): Port {
    if h == v.h && w == v.w then v
    else if v.dest.None? then v.(h := h, w := w)
    else v.(h := h, w := w, line := 0, col := 0)
  }

  datatype Op = OpAttach(dest: Option<Win>) | OpResize(h: nat, w: nat) | OpTo(line: int, col: int) | OpBy(lines: int, cols: int)

  function Do(v: Port, op: Op): Port {
    match op
    case OpAttach(d) => Attach(v, d)
    case OpResize(h, w) => Resize(v, h, w)
    case OpTo(l, c) => MoveTo(v, l, c)
    case OpBy(l, c) => MoveTo(v, v.line + l, v.col + c)
  }

  function Run(v: Port, ops: seq<Op>): Port {
    if ops == [] then v else Do(Run(v, ops[..|ops| - 1]), ops[|ops| - 1])
  }

  /** The visible rectangle lies inside the pad. */
  ghost predicate Inside(v: Port) {
    && 0 <= v.line && v.line + VisH(v) <= v.h && 0 <= v.col && v.col + VisW(v) <= v.w
    && (v.dest.None? ==> v.line == 0 && v.col == 0)
  }

  /** Every sequence of scrolls, resizes and re-attachments keeps it there. */
  lemma {:induction false} RunStaysInside(v: Port, ops: seq<Op>)
    requires Inside(v)
    ensures Inside(Run(v, ops))
  {
    if ops != [] {
      RunStaysInside(v, ops[..|ops| - 1]);
    }
  }

  /** The visible rectangle is as large as pad and destination allow. */
  lemma VisibleIsMost(v: Port)
    requires v.dest.Some?
    ensures VisH(v) <= v.h && VisH(v) <= v.dest.value.h && (VisH(v) == v.h || VisH(v) == v.dest.value.h)
    ensures VisW(v) <= v.w && VisW(v) <= v.dest.value.w && (VisW(v) == v.w || VisW(v) == v.dest.value.w)
  {
  }

  /** A move goes where it was told, or to the edge it would have passed. */
  lemma MoveMeans(v: Port, line: int, col: int)
    requires v.dest.Some?
    ensures var u := MoveTo(v, line, col);
      && u.line == (if line < 0 then 0 else if line + VisH(v) > v.h then v.h - VisH(v) else line)
      && u.col == (if col < 0 then 0 else if col + VisW(v) > v.w then v.w - VisW(v) else col)
      && u.dest == v.dest && u.h == v.h && u.w == v.w
  {
  }

  /** A new destination, and a new size of an attached pad, are shown from the origin; the same
      destination and the same size change nothing. */
  lemma FreshFromOrigin(v: Port, dest: Option<Win>, h: nat, w: nat)
    ensures var u := Do(v, OpAttach(dest));
      u.dest == dest && u.h == v.h && u.w == v.w && if dest == v.dest then u == v else u.line == 0 && u.col == 0
    ensures var u := Do(v, OpResize(h, w));
      u.h == h && u.w == w && u.dest == v.dest &&
      if v.dest.None? || (h == v.h && w == v.w) then u.line == v.line && u.col == v.col else u.line == 0 && u.col == 0
  {
  }

  /** A move by d from x is undone by the move back: the way out hit no edge, or started at one. */
  predicate Undone(x: int, d: int, max: int) { 0 <= x + d <= max || (d > 0 && x == 0) || (d < 0 && x == max) }

  lemma BackAgain(x: int, d: int, max: int)
    requires 0 <= x <= max
    ensures Between(Between(x + d, 0, max) - d, 0, max) == x <==> Undone(x, d, max)
  {
  }

  /** Scrolling back by as much as was scrolled returns to the same place exactly when the way out
      hit no edge, or the place was itself at the opposite edge. */
  lemma ScrollBackExactly(v: Port, lines: int, cols: int)
    requires Inside(v)
    ensures Do(Do(v, OpBy(lines, cols)), OpBy(-lines, -cols)) == v <==>
      Undone(v.line, lines, MaxLine(v)) && Undone(v.col, cols, MaxCol(v))
  {
    BackAgain(v.line, lines, MaxLine(v));
    BackAgain(v.col, cols, MaxCol(v));
  }

  /** Every line can be brought into view, and scrolling down by the height shows the last one. */
  lemma EveryLineReachable(v: Port, line: nat)
    requires Inside(v) && VisH(v) > 0 && line < v.h
    ensures var u := Do(v, OpTo(line, v.col)); u.line <= line < u.line + VisH(u)
    ensures var u := Do(v, OpBy(v.h, 0)); u.line + VisH(u) == v.h
  {
  }

  // ---------------------------------------------------------------- what is shown

  /** A destination line: so many columns of a virtual line, from a column on, then blanks. */
  datatype Strip = Strip(line: int, col: int, width: nat)

  const BLANK := Strip(-1, 0, 0)
  const NOTHING := -1

  function VisibleStrip(v: Port, r: nat): Strip {
    if r < VisH(v) then Strip(v.line + r, v.col, VisW(v)) else BLANK
  }

  /** The destination holds the visible part of the virtual contents, and blanks around it. */
  ghost predicate Shows(v: Port, screen: seq<Strip>) {
    v.dest.Some? ==>
      |screen| == v.dest.value.h && forall r :: 0 <= r < |screen| ==> screen[r] == VisibleStrip(v, r)
  }

  function CharOf(cell: (int, int) -> char, s: Strip, c: nat): char {
    if c < s.width then cell(s.line, s.col + c) else ' '
  }

  /** Character by character: whatever the virtual contents, each destination cell shows the
      virtual cell at its place in the visible rectangle, or a blank outside it. */
  lemma ShowsCharacters(cell: (int, int) -> char, v: Port, screen: seq<Strip>, r: nat, c: nat)
    requires v.dest.Some? && Shows(v, screen) && r < v.dest.value.h && c < v.dest.value.w
    ensures CharOf(cell, screen[r], c) ==
      if r < VisH(v) && c < VisW(v) then cell(v.line + r, v.col + c) else ' '
  {
    assert screen[r] == VisibleStrip(v, r);
  }

  /** copywin onto the first h lines of dst: w columns from column col of the lines of src from
      `line` on.  The lines written to were blank or are covered. */
  function CopyWin(src: seq<int>, dst: seq<Strip>, line: int, col: int, h: int, w: nat): (r: seq<Strip>)
    requires 0 <= line && 0 <= h <= |dst| && line + h <= |src|
    ensures |r| == |dst|
    ensures forall k :: 0 <= k < |dst| ==> r[k] == if k < h then Strip(src[line + k], col, w) else dst[k]
  {
    seq(|dst|, k requires 0 <= k < |dst| => if k < h then Strip(src[line + k], col, w) else dst[k])
  }

  function Blank(h: nat): (s: seq<Strip>)
    ensures |s| == h && forall k :: 0 <= k < h ==> s[k] == BLANK
  {
    seq(h, _ => BLANK)
  }

  // ---------------------------------------------------------------- the pad

  class Pad {
    const maxPad: nat         // greatest height a curses pad can have
    var height: nat           // of the curses pad
    var width: nat
    var vheight0: nat         // the virtual height of a truncated pad, otherwise 0
    var surface: seq<int>     // the virtual line each line of the curses pad holds
    var dest: Option<Win>
    var screen: seq<Strip>    // the destination window
    var srectPos: Pair
    var srectSze: Pair
    var maxdpos: Pair
    var maxspos: Pair
    var dclear: bool
    var dirty: bool

    function VHeight(): nat
      reads this
    {
      if vheight0 != 0 then vheight0 else height
    }

    predicate Paging()
      reads this
    {
      vheight0 != 0
    }

    ghost function View(): Port
      reads this
    {
      Port(VHeight(), width, dest, srectPos.a, srectPos.b)
    }

    /** A pad is paged exactly when it is too high for curses.  A paged pad is one page high; any
        other holds all its lines. */
    ghost predicate ValidPad()
      reads this
    {
      && |surface| == height && (Paging() <==> VHeight() > maxPad)
      && if Paging() then height == PAD_PAGESIZE
         else forall r :: 0 <= r < height ==> surface[r] == r
    }

    ghost predicate ValidRects()
      reads this
    {
      match dest
      case None => srectPos == srectSze == maxdpos == maxspos == Pair(0, 0)
      case Some(d) =>
        && srectSze == Pair(VisH(View()), VisW(View()))
        && maxdpos == Pair(srectSze.a - 1, srectSze.b - 1)
        && maxspos == Pair(MaxLine(View()), MaxCol(View()))
        && dclear == (srectSze != Pair(d.h, d.w))
        && |screen| == d.h
    }

    /** A page is high enough for the destination. */
    ghost predicate PageFits()
      reads this
    {
      Paging() && dest.Some? ==> dest.value.h <= PAD_PAGESIZE
    }

    ghost predicate Valid()
      reads this
    {
      ValidPad() && ValidRects() && PageFits() && Inside(View())
    }

    constructor (maxPad: nat, lines: nat, cols: nat)
      ensures Valid() && View() == Port(lines, cols, None, 0, 0) && this.maxPad == maxPad
    {
      this.maxPad := maxPad;
      dest, screen := None, [];
      srectPos, srectSze, maxdpos, maxspos := Pair(0, 0), Pair(0, 0), Pair(0, 0), Pair(0, 0);
      dclear, dirty := false, false;
      width := cols;
      height := if lines > maxPad then PAD_PAGESIZE else lines;
      vheight0 := if lines > maxPad then lines else 0;
      surface := Drawn(lines, lines > maxPad);
    }

    /** Draws the visible part.  Whether the pad is paged or not, the destination ends up the
        same. */
    method Update()
      requires Valid()
      modifies this`surface, this`screen, this`dirty, this`srectPos
      ensures Valid() && View() == old(View())
      ensures Shows(View(), screen)
      decreases dirty, 0
    {
      if dest.None? {
        return;
      }
      if dirty {
        dirty := false;
        SetPos(srectPos);
        return;
      }
      Redraw();
    }

    method Redraw()
      requires Valid() && dest.Some?
      modifies this`surface, this`screen
      ensures Valid() && Shows(View(), screen)
    {
      if dclear {
        screen := Blank(dest.value.h);
      }
      if !Paging() {
        screen := CopyWin(surface, screen, srectPos.a, srectPos.b, maxdpos.a + 1, maxdpos.b + 1);
        return;
      }
      PrepareLines();
      screen := CopyWin(surface, screen, 0, srectPos.b, maxdpos.a + 1, maxdpos.b + 1);
    }

    /** Draws the visible lines of a paged pad at its top, none of them past the end. */
    method PrepareLines()
      requires Valid() && dest.Some? && Paging()
      modifies this`surface
      ensures |surface| == height && forall r :: 0 <= r < VisH(View()) ==> surface[r] == srectPos.a + r
    {
      var i := 0;
      while i <= maxdpos.a
        invariant 0 <= i <= maxdpos.a + 1 && |surface| == height
        invariant forall r :: 0 <= r < i ==> surface[r] == srectPos.a + r
      {
        DirectDraw(i, srectPos.a + i);
        i := i + 1;
      }
    }

    /** Only lines that exist are drawn, and only onto lines the curses pad has. */
    method DirectDraw(at: nat, lineno: nat)
      requires |surface| == height && at < height && lineno < VHeight()
      modifies this`surface
      ensures surface == old(surface)[at := lineno]
    {
      surface := surface[at := lineno];
    }

    method SetPos(newpos: Pair)
      requires ValidPad() && ValidRects() && PageFits()
      modifies this`surface, this`screen, this`dirty, this`srectPos
      ensures Valid() && View() == MoveTo(old(View()), newpos.a, newpos.b)
      ensures Shows(View(), screen)
      decreases dirty, 1
    {
      srectPos := Pair(Between(newpos.a, 0, maxspos.a), Between(newpos.b, 0, maxspos.b));
      Update();
    }

    method AdjPos(lines: int, cols: int)
      requires Valid()
      modifies this`surface, this`screen, this`dirty, this`srectPos
      ensures Valid() && View() == Do(old(View()), OpBy(lines, cols)) && Shows(View(), screen)
    {
      SetPos(Pair(srectPos.a + lines, srectPos.b + cols));
    }

    /** A destination with what is on it now, or None to detach. */
    method Destwin(dwin: Option<Win>, contents: seq<Strip>)
      requires Valid()
      requires dwin.Some? ==> |contents| == dwin.value.h
      requires dwin.Some? && Paging() ==> dwin.value.h <= PAD_PAGESIZE
      modifies this
      ensures Valid() && View() == Attach(old(View()), dwin)
      ensures dwin != old(dest) ==> Shows(View(), screen)
    {
      if dwin != dest {
        dest := dwin;
        match dest {
          case Some(d) =>
            screen := contents;
            srectPos := Pair(0, 0);
            srectSze := Pair(MinOf(VHeight(), d.h), MinOf(width, d.w));
            maxdpos := Pair(srectSze.a - 1, srectSze.b - 1);
            maxspos := Pair(VHeight() - srectSze.a, width - srectSze.b);
            dclear := Pair(d.h, d.w) != srectSze;
            SetPos(srectPos);
          case None =>
            srectPos, srectSze, maxdpos, maxspos := Pair(0, 0), Pair(0, 0), Pair(0, 0), Pair(0, 0);
        }
      }
    }

    /** The size asked for, which a pad widget may already have enlarged to fill its window. */
    method SetSize(h: nat, w: nat)
      requires Valid()
      requires dest.Some? && h > maxPad ==> dest.value.h <= PAD_PAGESIZE
      modifies this
      ensures Valid() && View() == Resize(old(View()), h, w)
      ensures (h, w) != (old(VHeight()), old(width)) ==> Shows(View(), screen)
    {
      if h != VHeight() || w != width {
        var odest, ocontents := dest, screen;
        if odest.Some? {
          Destwin(None, []);
        }
        if h > maxPad {
          height, width := PAD_PAGESIZE, w;
          vheight0 := h;
        } else {
          height, width := h, w;
          vheight0 := 0;
        }
        surface := Drawn(h, h > maxPad);
        if odest.Some? {
          Destwin(odest, ocontents);
        }
      }
    }
  }

  /** A new curses pad: empty if it is paged, otherwise drawn in full. */
  function Drawn(lines: nat, paged: bool): (s: seq<int>)
    ensures |s| == (if paged then PAD_PAGESIZE else lines) && (!paged ==> forall r :: 0 <= r < lines ==> s[r] == r)
  {
    if paged then seq(PAD_PAGESIZE, _ => NOTHING) else seq(lines, r => r)
  }
}
