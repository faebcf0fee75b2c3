/** NCInputField: a one-line editor with an optional maximal length, whose cursor may not stand
    behind the last character of a full buffer. */
module InputFields {
  import opened LineEdit

  /** What does not change while keys are handled.  limit < 0 means no limit. */
  datatype Config = Config(maxInput: nat, limit: int, number: bool, validChars: string)

  predicate ValidKey(cfg: Config, c: char) { cfg.validChars == "" || c in cfg.validChars }

  function MaxCur(cfg: Config, t: Text): nat { MaxCursor(cfg.maxInput, t.buffer) }
  predicate Full(cfg: Config, t: Text) { BufferFull(cfg.maxInput, t.buffer) }

  function EraseAt(s: string, i: nat): string
    requires i < |s|
  {
    s[..i] + s[i + 1..]
  }

  function InsertAt(s: string, i: nat, c: char): string
    requires i <= |s|
  {
    s[..i] + [c] + s[i..]
  }

  // ---------------------------------------------------------------- the effect of a key

  /** A character goes in at position at, and the cursor moves on if it can. */
  function Inserted(cfg: Config, t: Text, at: nat, c: char): Text
    requires at <= |t.buffer|
  {
    var t1 := t.(buffer := InsertAt(t.buffer, at, c));
    if t1.curpos < MaxCur(cfg, t1) then t1.(curpos := t1.curpos + 1) else t1
  }

  predicate LimitReached(cfg: Config, t: Text) { 0 <= cfg.limit <= |t.buffer| }

  /** A key the field takes, as opposed to one it answers with a beep or ignores. */
  predicate Accepts(cfg: Config, t: Text, key: Key)
    requires t.curpos <= |t.buffer|
  {
    match key
    case Backspace => (Full(cfg, t) && t.curpos == MaxCur(cfg, t)) || t.curpos > 0
    case Delete => t.curpos < |t.buffer|
    case Home => t.curpos > 0
    case End => t.curpos < MaxCur(cfg, t)
    case Left => t.curpos > 0
    case Right => t.curpos < MaxCur(cfg, t)
    case Return => false
    case Hotkey => false
    case Other => false
    case Char(c) =>
      var minus := t.buffer != "" && t.buffer[0] == '-';
      if LimitReached(cfg, t) then false
      else if !cfg.number then !Full(cfg, t) && ValidKey(cfg, c)
      else if c == '+' then minus
      else if Full(cfg, t) then false
      else if c == '-' then !minus
      else IsDigit(c) && (t.curpos > 0 || !minus)
  }

  /** What the key switch does to buffer and cursor. */
  function Edit(cfg: Config, t: Text, key: Key): Text
    requires t.curpos <= |t.buffer|
  {
    if !Accepts(cfg, t, key) then t
    else match key
      case Backspace =>
        if Full(cfg, t) && t.curpos == MaxCur(cfg, t) then t.(buffer := EraseAt(t.buffer, t.curpos))
        else Text(EraseAt(t.buffer, t.curpos - 1), t.curpos - 1)
      case Delete => t.(buffer := EraseAt(t.buffer, t.curpos))
      case Home => t.(curpos := 0)
      case End => t.(curpos := MaxCur(cfg, t))
      case Left => t.(curpos := t.curpos - 1)
      case Right => t.(curpos := t.curpos + 1)
      case Char(c) =>
        if cfg.number && c == '+' then Text(EraseAt(t.buffer, 0), if t.curpos > 0 then t.curpos - 1 else 0)
        else Inserted(cfg, t, if cfg.number && c == '-' then 0 else t.curpos, c)
      case _ => t
  }

  /** A key that is taken also redraws the field, which pulls the cursor back within its reach. */
  function Press(cfg: Config, t: Text, key: Key): Text
    requires t.curpos <= |t.buffer|
  {
    var t1 := Edit(cfg, t, key);
    if Accepts(cfg, t, key) then t1.(curpos := Min(t1.curpos, MaxCur(cfg, t1))) else t1
  }

  // ---------------------------------------------------------------- what every key keeps

  ghost predicate Conforming(cfg: Config, t: Text) {
    (cfg.maxInput != 0 ==> |t.buffer| <= cfg.maxInput) && t.curpos <= MaxCur(cfg, t)
  }

  /** An optional minus, then only digits. */
  ghost predicate IsNumber(s: string) {
    forall i :: 0 <= i < |s| ==> IsDigit(s[i]) || (i == 0 && s[i] == '-')
  }

  lemma EditConforms(cfg: Config, t: Text, key: Key)
    requires Conforming(cfg, t)
    ensures Conforming(cfg, Edit(cfg, t, key))
  {
  }

  lemma EditKeepsNumber(cfg: Config, t: Text, key: Key)
    requires t.curpos <= |t.buffer| && cfg.number && IsNumber(t.buffer)
    ensures IsNumber(Edit(cfg, t, key).buffer)
  {
    if Accepts(cfg, t, key) {
      match key
      case Backspace => EraseKeepsNumber(t.buffer, if t.curpos < |t.buffer| then t.curpos else 0);
                        EraseKeepsNumber(t.buffer, if t.curpos > 0 then t.curpos - 1 else 0);
      case Delete => EraseKeepsNumber(t.buffer, t.curpos);
      case Char(c) =>
        if c == '+' { EraseKeepsNumber(t.buffer, 0); }
        else { InsertKeepsNumber(t.buffer, if c == '-' then 0 else t.curpos, c); }
      case _ =>
    }
  }

  lemma EraseKeepsNumber(s: string, i: nat)
    requires IsNumber(s) && i < |s|
    ensures IsNumber(EraseAt(s, i))
  {
  }

  lemma InsertKeepsNumber(s: string, i: nat, c: char)
    requires IsNumber(s) && i <= |s| && (if c == '-' then i == 0 else IsDigit(c))
    requires s != "" && s[0] == '-' ==> i > 0
    ensures IsNumber(InsertAt(s, i, c))
  {
  }

  lemma PressKeeps(cfg: Config, t: Text, key: Key)
    requires Conforming(cfg, t)
    ensures Conforming(cfg, Press(cfg, t, key)) && Press(cfg, t, key) == Edit(cfg, t, key)
    ensures cfg.number && IsNumber(t.buffer) ==> IsNumber(Press(cfg, t, key).buffer)
  {
    EditConforms(cfg, t, key);
    if cfg.number && IsNumber(t.buffer) {
      EditKeepsNumber(cfg, t, key);
    }
  }

  /** A limit set with setInputMaxLength is never exceeded by typing. */
  lemma PressKeepsLimit(cfg: Config, t: Text, key: Key)
    requires Conforming(cfg, t) && cfg.limit >= 0
    ensures |Press(cfg, t, key).buffer| <= if |t.buffer| > cfg.limit then |t.buffer| else cfg.limit
  {
  }

  function PressAll(cfg: Config, t: Text, keys: seq<Key>): Text
    requires Conforming(cfg, t)
    decreases |keys|
  {
    if keys == [] then t
    else PressKeeps(cfg, t, keys[0]); PressAll(cfg, Press(cfg, t, keys[0]), keys[1..])
  }

  /** Every key sequence keeps the buffer within its length, the cursor within its reach, and a
      number a number. */
  lemma {:induction false} PressAllKeeps(cfg: Config, t: Text, keys: seq<Key>)
    requires Conforming(cfg, t)
    ensures Conforming(cfg, PressAll(cfg, t, keys))
    ensures cfg.number && IsNumber(t.buffer) ==> IsNumber(PressAll(cfg, t, keys).buffer)
    decreases |keys|
  {
    if keys != [] {
      PressKeeps(cfg, t, keys[0]);
      PressAllKeeps(cfg, Press(cfg, t, keys[0]), keys[1..]);
    }
  }

  // ---------------------------------------------------------------- what single keys do

  /** How far right the cursor may go: behind the text, but onto the last character of a full buffer. */
  lemma ReachMeans(cfg: Config, t: Text)
    requires Conforming(cfg, t)
    ensures MaxCur(cfg, t) == if cfg.maxInput != 0 && |t.buffer| == cfg.maxInput then |t.buffer| - 1 else |t.buffer|
  {
  }

  /** Delete removes exactly the character at the cursor; without one nothing happens. */
  lemma DeleteMeans(cfg: Config, t: Text)
    requires Conforming(cfg, t)
    ensures Press(cfg, t, Delete) ==
      if t.curpos < |t.buffer| then Text(t.buffer[..t.curpos] + t.buffer[t.curpos + 1..], t.curpos) else t
  {
  }

  /** The cursor keys leave the text alone and move the cursor: to the first place, to the last one, or
      by one place where there is one. */
  lemma CursorKeysMean(cfg: Config, t: Text)
    requires Conforming(cfg, t)
    ensures Press(cfg, t, Home) == Text(t.buffer, 0)
    ensures Press(cfg, t, End) ==
      Text(t.buffer, if cfg.maxInput != 0 && |t.buffer| == cfg.maxInput then |t.buffer| - 1 else |t.buffer|)
    ensures Press(cfg, t, Left) == Text(t.buffer, if t.curpos > 0 then t.curpos - 1 else 0)
    ensures Press(cfg, t, Right) == if t == Press(cfg, t, End) then t else Text(t.buffer, t.curpos + 1)
  {
  }

  /** Left and right undo each other, away from the ends. */
  lemma LeftRightInverse(cfg: Config, t: Text)
    requires Conforming(cfg, t)
    ensures t.curpos > 0 ==> Press(cfg, Press(cfg, t, Left), Right) == t
    ensures t != Press(cfg, t, End) ==>
      Press(cfg, t, Right).curpos <= |t.buffer| && Press(cfg, Press(cfg, t, Right), Left) == t
  {
  }

  /** A plain field takes a character exactly when the limit is not reached, the buffer is not full and
      the character is among the valid ones, if such are given.  It goes in at the cursor, which moves
      behind it; a character that fills the buffer at its end keeps the cursor. */
  lemma TypingMeans(cfg: Config, t: Text, c: char)
    requires Conforming(cfg, t) && !cfg.number
    ensures Press(cfg, t, Char(c)) ==
      if (cfg.limit >= 0 && |t.buffer| >= cfg.limit) || (cfg.maxInput != 0 && |t.buffer| == cfg.maxInput) ||
         (cfg.validChars != "" && c !in cfg.validChars)
      then t
      else Text(t.buffer[..t.curpos] + [c] + t.buffer[t.curpos..],
                if |t.buffer| + 1 == cfg.maxInput && t.curpos == |t.buffer| then t.curpos else t.curpos + 1)
  {
  }

  /** In a number field a digit goes in like any character, but not in front of the minus. */
  lemma DigitMeans(cfg: Config, t: Text, c: char)
    requires Conforming(cfg, t) && cfg.number && '0' <= c <= '9'
    ensures Press(cfg, t, Char(c)) ==
      if (cfg.limit >= 0 && |t.buffer| >= cfg.limit) || (cfg.maxInput != 0 && |t.buffer| == cfg.maxInput) ||
         (t.curpos == 0 && "-" <= t.buffer)
      then t
      else Text(t.buffer[..t.curpos] + [c] + t.buffer[t.curpos..],
                if |t.buffer| + 1 == cfg.maxInput && t.curpos == |t.buffer| then t.curpos else t.curpos + 1)
  {
  }

  /** Minus puts the sign in front, once; plus takes it away.  No other character but a digit is taken. */
  lemma SignsMean(cfg: Config, t: Text, c: char)
    requires Conforming(cfg, t) && cfg.number
    ensures Press(cfg, t, Char('-')).buffer ==
      if (cfg.limit >= 0 && |t.buffer| >= cfg.limit) || (cfg.maxInput != 0 && |t.buffer| == cfg.maxInput) || "-" <= t.buffer
      then t.buffer else "-" + t.buffer
    ensures Press(cfg, t, Char('+')).buffer ==
      if "-" <= t.buffer && !(cfg.limit >= 0 && |t.buffer| >= cfg.limit) then t.buffer[1..] else t.buffer
    ensures !('0' <= c <= '9') && c != '-' && c != '+' ==> Press(cfg, t, Char(c)) == t
  {
    if t.buffer != "" {
      assert "-" <= t.buffer <==> t.buffer[0] == '-';
    }
    assert InsertAt(t.buffer, 0, '-') == "-" + t.buffer;
  }

  /** An accepted minus: the sign in front, and the cursor on the same character as before, unless it
      stood behind the text and the buffer is full now. */
  lemma MinusMeans(cfg: Config, t: Text)
    requires Conforming(cfg, t) && cfg.number && Accepts(cfg, t, Char('-'))
    ensures Press(cfg, t, Char('-')) ==
      Text("-" + t.buffer, if |t.buffer| + 1 == cfg.maxInput && t.curpos == |t.buffer| then t.curpos else t.curpos + 1)
  {
    assert InsertAt(t.buffer, 0, '-') == "-" + t.buffer;
  }

  /** An accepted plus: the sign gone, and the cursor on the same character as before. */
  lemma PlusMeans(cfg: Config, t: Text)
    requires Conforming(cfg, t) && cfg.number
    ensures Press(cfg, t, Char('+')) ==
      if "-" <= t.buffer && !(cfg.limit >= 0 && |t.buffer| >= cfg.limit)
      then Text(t.buffer[1..], if t.curpos > 0 then t.curpos - 1 else 0) else t
  {
    if t.buffer != "" {
      assert "-" <= t.buffer <==> t.buffer[0] == '-';
      assert EraseAt(t.buffer, 0) == t.buffer[1..];
    }
  }

  /** Plus undoes an accepted minus, text and cursor, unless the minus reaches the limit, so that plus is
      refused, or fills the buffer with the cursor behind its text, where the cursor cannot follow. */
  lemma PlusUndoesMinusExactly(cfg: Config, t: Text)
    requires Conforming(cfg, t) && cfg.number && Accepts(cfg, t, Char('-'))
    ensures Press(cfg, t, Char('-')).curpos <= |Press(cfg, t, Char('-')).buffer|
    ensures Press(cfg, Press(cfg, t, Char('-')), Char('+')) == t <==>
      && !(cfg.limit >= 0 && |t.buffer| + 1 >= cfg.limit)
      && !(|t.buffer| + 1 == cfg.maxInput && t.curpos == |t.buffer| && t.buffer != "")
  {
    PressKeeps(cfg, t, Char('-'));
    MinusMeans(cfg, t);
    var t1 := Press(cfg, t, Char('-'));
    PlusMeans(cfg, t1);
    assert t1.buffer[1..] == t.buffer && |t1.buffer| == |t.buffer| + 1;
  }

  // ---------------------------------------------------------------- undoing a character

  /** The character fills the buffer while the cursor stands on the last one. */
  predicate FillsBeforeLast(cfg: Config, t: Text) {
    t.buffer != "" && |t.buffer| + 1 == cfg.maxInput && t.curpos == |t.buffer| - 1
  }

  /** Backspace undoes an accepted character of a plain field, or digit of a number field, text and
      cursor, in every state but one kind; there it deletes the character behind the new one. */
  lemma BackspaceUndoesExactly(cfg: Config, t: Text, c: char)
    requires Conforming(cfg, t) && (cfg.number ==> IsDigit(c)) && Accepts(cfg, t, Char(c))
    ensures Press(cfg, t, Char(c)).curpos <= |Press(cfg, t, Char(c)).buffer|
    ensures Press(cfg, Press(cfg, t, Char(c)), Backspace) == t <==> !FillsBeforeLast(cfg, t)
    ensures FillsBeforeLast(cfg, t) ==>
      Press(cfg, Press(cfg, t, Char(c)), Backspace) == Text(t.buffer[..t.curpos] + [c], t.curpos + 1)
  {
    PressKeeps(cfg, t, Char(c));
    var b, k := t.buffer, t.curpos;
    var b1 := InsertAt(b, k, c);
    assert EraseAt(b1, k) == b;
    if k < |b| {
      assert EraseAt(b1, k + 1) == b[..k] + [c] + b[k + 1..];
      if k == |b| - 1 {
        assert b[k + 1..] == "";
      }
    }
  }

  // ---------------------------------------------------------------- the field

  class InputField {
    var buffer: string
    var curpos: nat
    var fldstart: nat
    var limit: int
    var win: bool         // whether the field has its window
    var width: nat        // of the window
    var cells: seq<Cell>  // what the window shows
    const passwd: bool
    const maxInput: nat
    const number: bool
    const validChars: string

    ghost function Cfg(): Config
      reads this
    {
      Config(maxInput, limit, number, validChars)
    }

    ghost function View(): Text
      reads this
    {
      Text(buffer, curpos)
    }

    /** A window is at least one cell wide. */
    ghost predicate Sized()
      reads this
    {
      win ==> width >= 1
    }

    /** A field without a window, as it is made. */
    constructor (passwd: bool, maxInput: nat, number: bool, validChars: string)
      ensures View() == Text("", 0) && fldstart == 0 && Cfg() == Config(maxInput, -1, number, validChars)
      ensures !win && this.passwd == passwd
    {
      buffer, curpos, fldstart, limit, cells := "", 0, 0, -1, [];
      win, width := false, 0;
      this.passwd, this.maxInput := passwd, maxInput;
      this.number, this.validChars := number, validChars;
    }

    /** The field gets its window and is drawn for the first time, or anew: the cursor is in reach from
        then on. */
    method Relocate(newWidth: nat)
      requires newWidth >= 1 && (maxInput != 0 ==> |buffer| <= maxInput)
      modifies this`win, this`width, this`curpos, this`fldstart, this`cells
      ensures win && width == newWidth && Conforming(Cfg(), View())
      ensures curpos == Min(old(curpos), MaxCursor(maxInput, buffer))
    {
      win, width := true, newWidth;
      TUpdate();
    }

    /** Without a window nothing happens.  Otherwise a redraw pulls the cursor into reach, moves the
        visible part after it, and draws the field.  From three cells on, every cell gets what belongs
        there and the cursor's is no arrow. */
    method TUpdate()
      requires Sized()
      modifies this`curpos, this`fldstart, this`cells
      ensures !win ==> curpos == old(curpos) && fldstart == old(fldstart) && cells == old(cells)
      ensures win ==>
        && curpos == Min(old(curpos), MaxCursor(maxInput, buffer))
        && fldstart == Scroll(width, MaxCursor(maxInput, buffer), curpos, old(fldstart))
      ensures win && width >= 3 ==>
        && CursorShown(width, MaxCursor(maxInput, buffer), buffer, curpos, fldstart)
        && |cells| == width && !(cells[curpos - fldstart] in {LeftHint, RightHint})
        && forall j :: 0 <= j < width ==>
             cells[j] == CellAt(passwd, width, MaxCursor(maxInput, buffer), buffer, fldstart, j)
    {
      if !win {
        return;
      }
      AdjustView();
      cells := Draw(passwd, width, MaxCursor(maxInput, buffer), buffer, fldstart);
    }

    /** The first part of tUpdate. */
    method AdjustView()
      requires width >= 1
      modifies this`curpos, this`fldstart
      ensures curpos == Min(old(curpos), MaxCursor(maxInput, buffer)) && fldstart <= |buffer|
      ensures fldstart == Scroll(width, MaxCursor(maxInput, buffer), curpos, old(fldstart))
      ensures width >= 3 ==> CursorShown(width, MaxCursor(maxInput, buffer), buffer, curpos, fldstart)
    {
      var maxc := MaxCursor(maxInput, buffer);
      if curpos > maxc {
        curpos := maxc;
      }
      if maxc < width {
        fldstart := 0;
      } else {
        if curpos <= fldstart {
          fldstart := if curpos > 0 then curpos - 1 else 0;
        }
        if curpos >= fldstart + width - 1 {
          fldstart := curpos + (if curpos == maxc then 1 else 2) - width;
        }
      }
      CursorShownExactly(width, maxInput, buffer, curpos, old(fldstart));
    }

    /** The cursor is put behind the text; only a redraw pulls it into reach, so without a window it
        is out of reach exactly on a full buffer. */
    method SetValue(ntext: string)
      requires Sized()
      modifies this`buffer, this`curpos, this`fldstart, this`cells
      ensures buffer == if maxInput != 0 && |ntext| > maxInput then ntext[..maxInput] else ntext
      ensures curpos == if win then MaxCursor(maxInput, buffer) else |buffer|
      ensures Conforming(Cfg(), View()) <==> win || !BufferFull(maxInput, buffer)
    {
      buffer := ntext;
      if maxInput != 0 && |buffer| > maxInput {
        buffer := buffer[..maxInput];
      }
      fldstart := 0;
      curpos := |buffer|;
      TUpdate();
    }

    /** The key switch; keys go to fields with a window only. */
    method HandleInput(key: Key)
      requires win && Sized() && curpos <= |buffer|
      modifies this`buffer, this`curpos, this`fldstart, this`cells
      ensures View() == Press(old(Cfg()), old(View()), key)
      ensures fldstart == if Accepts(old(Cfg()), old(View()), key)
                          then Scroll(width, MaxCursor(maxInput, buffer), curpos, old(fldstart)) else old(fldstart)
    {
      var update := true;
      match key {
        case Backspace =>
          if BufferFull(maxInput, buffer) && curpos == MaxCursor(maxInput, buffer) {
            buffer := EraseAt(buffer, curpos);
          } else if curpos > 0 {
            curpos := curpos - 1;
            buffer := EraseAt(buffer, curpos);
          } else {
            update := false;
          }
        case Delete =>
          if curpos < |buffer| {
            buffer := EraseAt(buffer, curpos);
          } else {
            update := false;
          }
        case Home =>
          if curpos > 0 {
            curpos := 0;
          } else {
            update := false;
          }
        case End =>
          if curpos < MaxCursor(maxInput, buffer) {
            curpos := MaxCursor(maxInput, buffer);
          } else {
            update := false;
          }
        case Left =>
          if curpos > 0 {
            curpos := curpos - 1;
          } else {
            update := false;
          }
        case Right =>
          if curpos < MaxCursor(maxInput, buffer) {
            curpos := curpos + 1;
          } else {
            update := false;
          }
        case Char(c) =>
          update := Type(c);
        case _ =>
          update := false;
      }
      if update {
        TUpdate();
      }
    }

    /** The default branch: a printable character. */
    method Type(c: char) returns (update: bool)
      requires curpos <= |buffer|
      modifies this`buffer, this`curpos
      ensures update == Accepts(old(Cfg()), old(View()), Char(c))
      ensures View() == Edit(old(Cfg()), old(View()), Char(c))
    {
      if limit >= 0 && limit <= |buffer| {
        return false;
      }
      if number {
        if BufferFull(maxInput, buffer) && c != '+' {
          return false;
        }
        if IsDigit(c) {
          if curpos > 0 || buffer == "" || buffer[0] != '-' {
            buffer := InsertAt(buffer, curpos, c);
            if curpos < MaxCursor(maxInput, buffer) {
              curpos := curpos + 1;
            }
            return true;
          }
          return false;
        } else if c == '+' {
          if buffer != "" && buffer[0] == '-' {
            buffer := EraseAt(buffer, 0);
            if curpos > 0 {
              curpos := curpos - 1;
            }
            return true;
          }
          return false;
        } else if c == '-' {
          if buffer == "" || buffer[0] != '-' {
            buffer := InsertAt(buffer, 0, '-');
            if curpos < MaxCursor(maxInput, buffer) {
              curpos := curpos + 1;
            }
            return true;
          }
          return false;
        }
        return false;
      }
      if BufferFull(maxInput, buffer) || !(validChars == "" || c in validChars) {
        return false;
      }
      buffer := InsertAt(buffer, curpos, c);
      if curpos < MaxCursor(maxInput, buffer) {
        curpos := curpos + 1;
      }
      return true;
    }

    /** Cuts the text to n characters, but to n + 1 if the buffer was full: the number of characters
        erased is counted from the last cursor place.  The cursor is put behind the text without
        regard to how far it may go. */
    method SetInputMaxLength(n: int)
      requires Sized() && (maxInput != 0 ==> |buffer| <= maxInput)
      modifies this`buffer, this`curpos, this`fldstart, this`cells, this`limit
      ensures limit == n
      ensures n < 0 || |old(buffer)| <= n ==> View() == old(View())
      ensures 0 <= n < |old(buffer)| ==>
        && curpos == |buffer|
        && buffer == if BufferFull(maxInput, old(buffer))
                     then old(buffer)[..n] + old(buffer)[|old(buffer)| - 1..] else old(buffer)[..n]
      ensures n >= 0 ==> (|buffer| <= n <==> !(|old(buffer)| > n && BufferFull(maxInput, old(buffer))))
      ensures 0 <= n < |old(buffer)| ==> (Conforming(Cfg(), View()) <==> !BufferFull(maxInput, buffer))
    {
      if n >= 0 && |buffer| > n {
        buffer := buffer[..n] + buffer[MaxCursor(maxInput, buffer)..];
        TUpdate();
        curpos := |buffer|;
      }
      limit := n;
    }

    /** setCurPos does not look at the buffer. */
    method SetCurPos(pos: nat)
      modifies this`curpos
      ensures curpos == pos
      ensures old(Conforming(Cfg(), View())) ==> (Conforming(Cfg(), View()) <==> pos <= MaxCursor(maxInput, buffer))
    {
      curpos := pos;
    }
  }
}
