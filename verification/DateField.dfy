/** NCDateField: a date edited in place, digit by digit.  Which strings are dates is decided
    elsewhere; here it is an arbitrary predicate. */
module DateFields {
  import opened LineEdit

  const FIELD_LENGTH := 10

  function MaxCur(buffer: string): nat { MaxCursor(FIELD_LENGTH, buffer) }

  /** erase(i, 1) followed by insert(i, 1, c). */
  function Overwrite(s: string, i: nat, c: char): string
    requires i <= |s|
  {
    s[..i] + [c] + if i < |s| then s[i + 1..] else ""
  }

  /** One place to the left or right, stepping over the dashes. */
  function StepLeft(i: nat): nat { if i == 5 || i == 8 then i - 2 else if i > 0 then i - 1 else 0 }
  function StepRight(i: nat, max: nat): nat { if i == 3 || i == 6 then i + 2 else if i < max then i + 1 else i }

  function Clamp(t: Text): Text { t.(curpos := Min(t.curpos, MaxCur(t.buffer))) }

  /** A text cut to the length of the field, the cursor behind it. */
  function Filled(text: string): Text {
    var b := if |text| > FIELD_LENGTH then text[..FIELD_LENGTH] else text;
    Text(b, |b|)
  }

  /** setValue: only a date is taken, and the cursor goes to the end. */
  function Reset(valid: string -> bool, t: Text, text: string): Text {
    if valid(text) then Clamp(Filled(text)) else t
  }

  /** A digit that does not make a date is refused by setting the old text again, which is itself
      refused when the old text is no date. */
  function Press(valid: string -> bool, t: Text, key: Key): Text
    requires t.curpos <= |t.buffer|
  {
    match key
    case Backspace => Clamp(Text(Overwrite(t.buffer, t.curpos, '0'), StepLeft(t.curpos)))
    case Delete => if t.curpos < |t.buffer| then Clamp(t.(buffer := Overwrite(t.buffer, t.curpos, '0'))) else t
    case Home => if t.curpos > 0 then Clamp(t.(curpos := 0)) else t
    case End => if t.curpos < MaxCur(t.buffer) then t.(curpos := MaxCur(t.buffer)) else t
    case Left => if t.curpos > 0 then Clamp(t.(curpos := StepLeft(t.curpos))) else t
    case Right =>
      if t.curpos == 3 || t.curpos == 6 || t.curpos < MaxCur(t.buffer)
      then Clamp(t.(curpos := StepRight(t.curpos, MaxCur(t.buffer)))) else t
    case Char(c) =>
      if !IsDigit(c) then t
      else
        var b := Overwrite(t.buffer, t.curpos, c);
        if valid(b) then Clamp(Text(b, StepRight(t.curpos, MaxCur(b))))
        else Reset(valid, t.(buffer := b), t.buffer)
    case _ => t
  }

  // ---------------------------------------------------------------- the shape of a date

  ghost predicate Shape(b: string) {
    |b| == FIELD_LENGTH && forall i :: 0 <= i < |b| ==> if i == 4 || i == 7 then b[i] == '-' else IsDigit(b[i])
  }

  /** Text shaped like a date, the cursor on one of its digits. */
  ghost predicate Shaped(t: Text) {
    Shape(t.buffer) && t.curpos < FIELD_LENGTH && t.curpos != 4 && t.curpos != 7
  }

  lemma OverwriteKeepsShape(b: string, i: nat, c: char)
    requires Shape(b) && i < |b| && i != 4 && i != 7 && IsDigit(c)
    ensures Shape(Overwrite(b, i, c))
  {
  }

  lemma PressKeepsShape(valid: string -> bool, t: Text, key: Key)
    requires Shaped(t)
    ensures Shaped(Press(valid, t, key))
  {
    OverwriteKeepsShape(t.buffer, t.curpos, '0');
    if key.Char? && IsDigit(key.c) {
      OverwriteKeepsShape(t.buffer, t.curpos, key.c);
    }
  }

  function PressAll(valid: string -> bool, t: Text, keys: seq<Key>): Text
    requires Shaped(t)
    decreases |keys|
  {
    if keys == [] then t
    else PressKeepsShape(valid, t, keys[0]); PressAll(valid, Press(valid, t, keys[0]), keys[1..])
  }

  /** Whatever is typed, the field keeps the shape of a date and the cursor stays on a digit; and
      as long as nothing is zeroed with backspace or delete, it also stays a date. */
  lemma {:induction false} PressAllKeepsShape(valid: string -> bool, t: Text, keys: seq<Key>)
    requires Shaped(t)
    ensures Shaped(PressAll(valid, t, keys))
    ensures valid(t.buffer) && (forall k :: 0 <= k < |keys| ==> !keys[k].Backspace? && !keys[k].Delete?) ==>
      valid(PressAll(valid, t, keys).buffer)
    decreases |keys|
  {
    if keys != [] {
      var t1 := Press(valid, t, keys[0]);
      PressKeepsShape(valid, t, keys[0]);
      PressAllKeepsShape(valid, t1, keys[1..]);
      assert t.buffer[..] == t.buffer;
      assert valid(t.buffer) && !keys[0].Backspace? && !keys[0].Delete? ==> valid(t1.buffer);
    }
  }

  /** `next` is the digit place after `place`, stepping over a dash; the last one has none after it. */
  predicate NextDigit(place: nat, next: nat) {
    next < 10 && next != 4 && next != 7 && (next == place + 1 || (next == place + 2 && (place + 1 == 4 || place + 1 == 7)))
  }

  /** Only place c of the text may differ, and it holds d. */
  ghost predicate Replaced(before: string, after: string, c: nat, d: char) {
    |after| == |before| && forall i :: 0 <= i < |before| ==> after[i] == if i == c then d else before[i]
  }

  /** A digit that makes a date stands at the cursor, with all else unchanged, and the cursor is on the
      next digit place, or stays on the last. */
  lemma AcceptedDigitMeans(valid: string -> bool, t: Text, c: char, b: string)
    requires Shaped(t) && '0' <= c <= '9' && Replaced(t.buffer, b, t.curpos, c) && valid(b)
    ensures var r := Press(valid, t, Char(c));
      r.buffer == b && if t.curpos == 9 then r.curpos == 9 else NextDigit(t.curpos, r.curpos)
  {
    assert Overwrite(t.buffer, t.curpos, c) == b;
  }

  /** Backspace and delete put a zero at the cursor and leave all else; backspace then goes to the
      digit place before it, if there is one. */
  lemma ZeroingMeans(valid: string -> bool, t: Text)
    requires Shaped(t)
    ensures Replaced(t.buffer, Press(valid, t, Backspace).buffer, t.curpos, '0')
    ensures var r := Press(valid, t, Backspace); if t.curpos == 0 then r.curpos == 0 else NextDigit(r.curpos, t.curpos)
    ensures Replaced(t.buffer, Press(valid, t, Delete).buffer, t.curpos, '0') && Press(valid, t, Delete).curpos == t.curpos
  {
    PressKeepsShape(valid, t, Backspace);
  }

  /** The cursor keys leave the text alone and go from digit place to digit place; left and right undo
      each other away from the ends.  Any other key does nothing. */
  lemma CursorKeysMean(valid: string -> bool, t: Text, key: Key)
    requires Shaped(t)
    ensures Press(valid, t, Home) == Text(t.buffer, 0) && Press(valid, t, End) == Text(t.buffer, 9)
    ensures var l := Press(valid, t, Left);
      l.buffer == t.buffer && if t.curpos == 0 then l.curpos == 0 else NextDigit(l.curpos, t.curpos)
    ensures var r := Press(valid, t, Right);
      r.buffer == t.buffer && if t.curpos == 9 then r.curpos == 9 else NextDigit(t.curpos, r.curpos)
    ensures key in {Return, Hotkey, Other} || (key.Char? && !('0' <= key.c <= '9')) ==> Press(valid, t, key) == t
  {
  }

  lemma LeftRightInverse(valid: string -> bool, t: Text)
    requires Shaped(t)
    ensures t.curpos > 0 ==> Shaped(Press(valid, t, Left)) && Press(valid, Press(valid, t, Left), Right) == t
    ensures t.curpos < 9 ==> Shaped(Press(valid, t, Right)) && Press(valid, Press(valid, t, Right), Left) == t
  {
    PressKeepsShape(valid, t, Left);
    PressKeepsShape(valid, t, Right);
  }

  /** A refused digit leaves the text as it was exactly when that text was a date, or already had
      the digit; a restored text has its cursor on the last digit. */
  lemma RefusedDigitExactly(valid: string -> bool, t: Text, c: char)
    requires Shaped(t) && IsDigit(c) && !valid(Overwrite(t.buffer, t.curpos, c))
    ensures Press(valid, t, Char(c)).buffer == t.buffer <==> valid(t.buffer) || t.buffer[t.curpos] == c
    ensures valid(t.buffer) ==> Press(valid, t, Char(c)) == Text(t.buffer, 9)
    ensures !valid(t.buffer) ==> Press(valid, t, Char(c)) == Text(Overwrite(t.buffer, t.curpos, c), t.curpos)
  {
    var b := Overwrite(t.buffer, t.curpos, c);
    assert b[t.curpos] == c;
    if t.buffer[t.curpos] == c {
      assert b == t.buffer;
    }
  }

  // ---------------------------------------------------------------- the field

  class DateField {
    var buffer: string
    var curpos: nat
    var fldstart: nat
    var win: bool         // whether the field has its window
    var width: nat        // of the window
    var cells: seq<Cell>  // what the window shows
    const valid: string -> bool

    ghost function View(): Text
      reads this
    {
      Text(buffer, curpos)
    }

    ghost predicate Sized()
      reads this
    {
      win ==> width >= 1
    }

    /** Without a window yet, so the cursor is still behind the date. */
    constructor (valid: string -> bool)
      ensures View() == (if valid("2000-01-01") then Text("2000-01-01", 10) else Text("", 0))
      ensures !win && this.valid == valid
    {
      buffer, curpos, fldstart, win, width, cells := "", 0, 0, false, 0, [];
      this.valid := valid;
      new;
      SetValue("2000-01-01");
    }

    /** The field gets its window and is drawn: the cursor is in reach, on the last digit of a date
        that was just set. */
    method Relocate(newWidth: nat)
      requires newWidth >= 1
      modifies this`win, this`width, this`curpos, this`fldstart, this`cells
      ensures win && width == newWidth && View() == Clamp(old(View()))
      ensures Shape(buffer) && old(curpos) == FIELD_LENGTH ==> Shaped(View()) && curpos == 9
    {
      win, width := true, newWidth;
      TUpdate();
    }

    method TUpdate()
      requires Sized()
      modifies this`curpos, this`fldstart, this`cells
      ensures !win ==> curpos == old(curpos) && fldstart == old(fldstart) && cells == old(cells)
      ensures win ==> View() == Clamp(old(View())) && fldstart == Scroll(width, MaxCur(buffer), curpos, old(fldstart))
      ensures win && width >= 3 ==>
        && CursorShown(width, MaxCur(buffer), buffer, curpos, fldstart)
        && |cells| == width && !(cells[curpos - fldstart] in {LeftHint, RightHint})
        && forall j :: 0 <= j < width ==> cells[j] == CellAt(false, width, MaxCur(buffer), buffer, fldstart, j)
    {
      if !win {
        return;
      }
      AdjustView();
      cells := Draw(false, width, MaxCur(buffer), buffer, fldstart);
    }

    /** The first part of tUpdate. */
    method AdjustView()
      requires width >= 1
      modifies this`curpos, this`fldstart
      ensures View() == Clamp(old(View())) && fldstart <= |buffer|
      ensures fldstart == Scroll(width, MaxCur(buffer), curpos, old(fldstart))
      ensures width >= 3 ==> CursorShown(width, MaxCur(buffer), buffer, curpos, fldstart)
    {
      var maxc := MaxCur(buffer);
      if curpos > maxc {
        curpos := maxc;
      }
      if maxc < width {
        fldstart := 0;
      } else {
        if curpos <= fldstart {
          fldstart := if curpos > 0 then curpos - 1 else 0;
        }
        if curpos >= fldstart + width - 1 {
          fldstart := curpos + (if curpos == maxc then 1 else 2) - width;
        }
      }
      CursorShownExactly(width, FIELD_LENGTH, buffer, curpos, old(fldstart));
    }

    method SetValue(ntext: string)
      requires Sized()
      modifies this`buffer, this`curpos, this`fldstart, this`cells
      ensures win ==> View() == Reset(valid, old(View()), ntext)
      ensures !win ==> View() == if valid(ntext) then Filled(ntext) else old(View())
    {
      if valid(ntext) {
        buffer := ntext;
        if |buffer| > FIELD_LENGTH {
          buffer := buffer[..FIELD_LENGTH];
        }
        fldstart := 0;
        curpos := |buffer|;
        TUpdate();
      }
    }

    method HandleInput(key: Key)
      requires win && Sized() && curpos <= |buffer|
      modifies this`buffer, this`curpos, this`fldstart, this`cells
      ensures View() == Press(valid, old(View()), key)
    {
      var update := true;
      match key {
        case Backspace =>
          buffer := Overwrite(buffer, curpos, '0');
          if curpos == 5 || curpos == 8 {
            curpos := curpos - 2;
          } else if curpos > 0 {
            curpos := curpos - 1;
          }
        case Delete =>
          if curpos < |buffer| {
            buffer := Overwrite(buffer, curpos, '0');
          } else {
            update := false;
          }
        case Home =>
          if curpos > 0 {
            curpos := 0;
          } else {
            update := false;
          }
        case End =>
          if curpos < MaxCur(buffer) {
            curpos := MaxCur(buffer);
          } else {
            update := false;
          }
        case Left =>
          if curpos == 5 || curpos == 8 {
            curpos := curpos - 2;
          } else if curpos > 0 {
            curpos := curpos - 1;
          } else {
            update := false;
          }
        case Right =>
          if curpos == 3 || curpos == 6 {
            curpos := curpos + 2;
          } else if curpos < MaxCur(buffer) {
            curpos := curpos + 1;
          } else {
            update := false;
          }
        case Char(c) =>
          if IsDigit(c) {
            var buf := buffer;
            buffer := Overwrite(buffer, curpos, c);
            if valid(buffer) {
              if curpos == 3 || curpos == 6 {
                curpos := curpos + 2;
              } else if curpos < MaxCur(buffer) {
                curpos := curpos + 1;
              }
            } else {
              update := false;
              SetValue(buf);
            }
          } else {
            update := false;
          }
        case _ =>
          update := false;
      }
      if update {
        TUpdate();
      }
    }
  }
}
