/** What NCInputField and NCInputTextBase share: how far the cursor may go, how the visible part
    of the buffer follows it, and how the field is drawn.  A buffer holds no NUL character. */
module LineEdit {

  /** A key code after decoding: Char is a printable character, Other any code the default branch
      of the key switch rejects. */
  datatype Key = Backspace | Delete | Home | End | Left | Right | Return | Hotkey | Char(c: char) | Other

  datatype Text = Text(buffer: string, curpos: nat)

  predicate IsDigit(c: char) { '0' <= c <= '9' }

  predicate BufferFull(maxInput: nat, buffer: string) { maxInput != 0 && |buffer| == maxInput }

  function MaxCursor(maxInput: nat, buffer: string): nat {
    if BufferFull(maxInput, buffer) then |buffer| - 1 else |buffer|
  }

  function Min(a: nat, b: nat): nat { if a < b then a else b }

  /** The first visible position for a field of the given width. */
  function Scroll(width: nat, maxc: nat, curpos: nat, fldstart: nat): nat
    requires width >= 1
  {
    if maxc < width then 0
    else
      var s := if curpos <= fldstart then (if curpos > 0 then curpos - 1 else 0) else fldstart;
      if curpos >= s + width - 1 then curpos + (if curpos == maxc then 1 else 2) - width else s
  }

  /** Text hidden to the left, and to the right, is announced by an arrow in the outermost cell. */
  predicate LeftArrow(buffer: string, start: nat) { start < |buffer| && start > 0 }
  predicate RightArrow(width: nat, maxc: nat, start: nat) { start + width <= maxc }

  predicate CursorShown(width: nat, maxc: nat, buffer: string, curpos: nat, start: nat) {
    && start <= curpos < start + width
    && !(LeftArrow(buffer, start) && curpos == start)
    && !(RightArrow(width, maxc, start) && curpos == start + width - 1)
  }

  /** Whatever was visible before, a field at least three wide shows its cursor, in a cell that no
      arrow covers.  A narrower field does exactly when the text fits, or at the ends: with two
      cells in the first or the last place, with one cell in the last place of a buffer that is
      not full. */
  lemma CursorShownExactly(width: nat, maxInput: nat, buffer: string, curpos: nat, fldstart: nat)
    requires width >= 1 && curpos <= MaxCursor(maxInput, buffer)
    ensures var maxc := MaxCursor(maxInput, buffer);
      CursorShown(width, maxc, buffer, curpos, Scroll(width, maxc, curpos, fldstart)) <==>
        || width >= 3 || maxc < width
        || (width == 2 && (curpos == 0 || curpos == maxc))
        || (width == 1 && curpos == maxc && !BufferFull(maxInput, buffer))
  {
  }

  /** How the visible part follows the cursor.  A text that fits is shown from its start.  Otherwise a
      cursor well inside moves nothing; one at the left edge, or past it, shows one character before it;
      one at the right edge, or past it, stands in the last cell behind the text and otherwise in the
      last but one. */
  lemma ScrollMeans(width: nat, maxc: nat, curpos: nat, fldstart: nat)
    requires width >= 3 && curpos <= maxc
    ensures var start := Scroll(width, maxc, curpos, fldstart);
      && (maxc < width ==> start == 0)
      && (maxc >= width && fldstart < curpos < fldstart + width - 1 ==> start == fldstart)
      && (maxc >= width && curpos <= fldstart ==>
            start == if curpos == 0 then 0 else curpos - 1)
      && (maxc >= width && curpos >= fldstart + width - 1 ==>
            curpos == start + if curpos == maxc then width - 1 else width - 2)
  {
  }

  datatype Cell = LeftHint | RightHint | Data(c: char) | Star | Board

  /** The cell at place j of a drawn field. */
  function CellAt(passwd: bool, width: nat, maxc: nat, buffer: string, start: nat, j: nat): Cell {
    if j == 0 && LeftArrow(buffer, start) then LeftHint
    else if j == width - 1 && RightArrow(width, maxc, start) then RightHint
    else if start + j < |buffer| then (if passwd then Star else Data(buffer[start + j]))
    else Board
  }

  /** What a drawn field shows.  An arrow at the left exactly if text is hidden there, one at the right
      exactly if the cursor could go further; a star for every character of a password, and in any
      other field the character itself; the rest is filling. */
  lemma CellsMean(passwd: bool, width: nat, maxc: nat, buffer: string, start: nat, j: nat)
    requires j < width && width >= 2
    ensures var cell := CellAt(passwd, width, maxc, buffer, start, j);
      && (cell == LeftHint <==> j == 0 && 0 < start < |buffer|)
      && (cell == RightHint <==> j == width - 1 && start + width <= maxc)
      && (passwd ==> !cell.Data?)
      && (cell != LeftHint && cell != RightHint ==>
            if start + j >= |buffer| then cell == Board
            else if passwd then cell == Star else cell == Data(buffer[start + j]))
  {
  }

  /** The data cells between the arrows are the visible slice of the buffer. */
  lemma CellsShowSlice(width: nat, maxInput: nat, buffer: string, start: nat, cells: seq<Cell>)
    requires width >= 2 && |cells| == width && start <= |buffer|
    requires forall j :: 0 <= j < width ==> cells[j] == CellAt(false, width, MaxCursor(maxInput, buffer), buffer, start, j)
    ensures var first := if 0 < start < |buffer| then 1 else 0;
      var end := if start + width <= MaxCursor(maxInput, buffer) then width - 1 else Min(width, |buffer| - start);
      && first <= end <= width && start + end <= |buffer|
      && (forall j :: 0 <= j < width ==> (cells[j].Data? <==> first <= j < end))
      && (forall j :: first <= j < end ==> cells[j] == Data(buffer[start..start + end][j]))
  {
  }

  /** The drawing part of tUpdate.  Exactly the cells of the field are written, each with what
      belongs there; only a field of one cell with text hidden on both sides gets one too many. */
  method Draw(passwd: bool, width: nat, maxc: nat, buffer: string, start: nat) returns (cells: seq<Cell>)
    requires width >= 1 && start <= |buffer|
    ensures |cells| == width + if width == 1 && LeftArrow(buffer, start) && RightArrow(width, maxc, start) then 1 else 0
    ensures |cells| == width ==> forall j :: 0 <= j < width ==> cells[j] == CellAt(passwd, width, maxc, buffer, start, j)
  {
    cells := [];
    var i, end, cp := 0, width, start;
    if cp < |buffer| && start > 0 {
      cells := cells + [LeftHint];
      i, cp := i + 1, cp + 1;
    }
    if start + width <= maxc {
      end := end - 1;
    }
    while cp < |buffer| && i < end
      invariant |cells| == i && cp == start + i && cp <= |buffer|
      invariant i <= end || (i == 1 && end == 0 && LeftArrow(buffer, start))
      invariant LeftArrow(buffer, start) ==> i >= 1 && cells[0] == LeftHint
      invariant forall j :: 0 <= j < i && j < end ==> cells[j] == CellAt(passwd, width, maxc, buffer, start, j)
      decreases end - i
    {
      cells := cells + [if passwd then Star else Data(buffer[cp])];
      cp := cp + 1;
      i := i + 1;
    }
    while i < end
      invariant |cells| == i && (cp >= |buffer| || i >= end) && start + i >= cp
      invariant i <= end || (i == 1 && end == 0 && LeftArrow(buffer, start))
      invariant LeftArrow(buffer, start) ==> i >= 1 && cells[0] == LeftHint
      invariant forall j :: 0 <= j < i && j < end ==> cells[j] == CellAt(passwd, width, maxc, buffer, start, j)
      decreases end - i
    {
      cells := cells + [Board];
      i := i + 1;
    }
    if end < width {
      cells := cells + [RightHint];
    }
  }
}
