/** The two text utilities the description translator rests on: boost's replace_all and the
    line splitting of NCtext. */
module TextLines {
  import opened Markup
  import opened Options

  // ---------------------------------------------------------------- replace_all

  /** One left-to-right pass; after a match the search resumes behind it. */
  function ReplaceAll(s: string, pat: string, rep: string): string
    requires pat != ""
  {
    if s == "" then ""
    else if pat <= s then rep + ReplaceAll(s[|pat|..], pat, rep)
    else [s[0]] + ReplaceAll(s[1..], pat, rep)
  }

  /** Text in which the pattern starts nowhere is copied. */
  lemma {:induction false} ReplaceSkips(a: string, b: string, pat: string, rep: string)
    requires pat != ""
    requires forall i :: 0 <= i < |a| ==> !(pat <= (a + b)[i..])
    ensures ReplaceAll(a + b, pat, rep) == a + ReplaceAll(b, pat, rep)
  {
    if a == "" {
      assert a + b == b;
    } else {
      var s := a + b;
      assert s[0..] == s;
      assert s[1..] == a[1..] + b;
      forall i | 0 <= i < |a[1..]| ensures !(pat <= (a[1..] + b)[i..]) {
        assert (a[1..] + b)[i..] == s[i + 1..];
      }
      ReplaceSkips(a[1..], b, pat, rep);
    }
  }

  lemma ReplaceCharStep(s: string, c: char, rep: string)
    requires s != ""
    ensures ReplaceAll(s, [c], rep) == (if s[0] == c then rep else [s[0]]) + ReplaceAll(s[1..], [c], rep)
  {
    assert s[..1] == [s[0]];
  }

  lemma {:induction false} ReplaceCharConcat(a: string, b: string, c: char, rep: string)
    ensures ReplaceAll(a + b, [c], rep) == ReplaceAll(a, [c], rep) + ReplaceAll(b, [c], rep)
  {
    if a == "" {
      assert a + b == b;
    } else {
      assert (a + b)[1..] == a[1..] + b;
      ReplaceCharStep(a, c, rep);
      ReplaceCharStep(a + b, c, rep);
      ReplaceCharConcat(a[1..], b, c, rep);
    }
  }

  lemma {:induction false} ReplaceCharAbsent(s: string, c: char, rep: string)
    requires c !in s
    ensures ReplaceAll(s, [c], rep) == s
  {
    if s != "" {
      ReplaceCharStep(s, c, rep);
      ReplaceCharAbsent(s[1..], c, rep);
    }
  }

  function ThreePasses(s: string): string {
    ReplaceAll(ReplaceAll(ReplaceAll(s, "&", "&amp;"), "<", "&lt;"), ">", "&gt;")
  }

  lemma ThreePassesOnChar(c: char)
    ensures ThreePasses([c]) == Entity(c)
  {
    ReplaceCharStep([c], '&', "&amp;");
    ReplaceCharStep([c], '<', "&lt;");
    ReplaceCharStep([c], '>', "&gt;");
    var s1 := ReplaceAll([c], "&", "&amp;");
    assert s1 == if c == '&' then "&amp;" else [c];
    var s2 := ReplaceAll(s1, "<", "&lt;");
    assert s2 == if c == '<' then "&lt;" else s1 by {
      if c != '<' { ReplaceCharAbsent(s1, '<', "&lt;"); }
    }
    if c != '>' { ReplaceCharAbsent(s2, '>', "&gt;"); }
  }

  /** Replacing '&', then '<', then '>' in the whole text escapes every character once: no
      later pass touches what an earlier one wrote. */
  lemma {:induction false} ThreePassesEscape(s: string)
    ensures ThreePasses(s) == Escape(s)
  {
    if s != "" {
      var a, b := [s[0]], s[1..];
      assert s == a + b;
      ReplaceCharConcat(a, b, '&', "&amp;");
      var a1, b1 := ReplaceAll(a, "&", "&amp;"), ReplaceAll(b, "&", "&amp;");
      ReplaceCharConcat(a1, b1, '<', "&lt;");
      ReplaceCharConcat(ReplaceAll(a1, "<", "&lt;"), ReplaceAll(b1, "<", "&lt;"), '>', "&gt;");
      ThreePassesOnChar(s[0]);
      ThreePassesEscape(b);
    }
  }

  const EMPTY_PARA := "</p><p></p>"

  lemma EmptyParaAtFront(ts: seq<Token>)
    ensures EMPTY_PARA <= Write(ts) <==> [Close(P), Open(P), Close(P)] <= ts
    ensures [Close(P), Open(P), Close(P)] <= ts ==> Write(ts)[|EMPTY_PARA|..] == Write(ts[3..])
  {
    if [Close(P), Open(P), Close(P)] <= ts {
      EmptyParaWritten(ts[3..]);
      assert ts == [Close(P), Open(P), Close(P)] + ts[3..];
    } else if EMPTY_PARA <= Write(ts) {
      EmptyParaRead(ts);
    }
  }

  lemma EmptyParaWritten(rest: seq<Token>)
    ensures Write([Close(P), Open(P), Close(P)] + rest) == EMPTY_PARA + Write(rest)
  {
    var ts := [Close(P), Open(P), Close(P)];
    assert ts[1..] == [Open(P), Close(P)] && ts[1..][1..] == [Close(P)] && ts[1..][1..][1..] == [];
    assert Write(ts) == "</p>" + ("<p>" + ("</p>" + "")) == EMPTY_PARA;
    WriteConcat(ts, rest);
  }

  lemma EmptyParaRead(ts: seq<Token>)
    requires EMPTY_PARA <= Write(ts)
    ensures [Close(P), Open(P), Close(P)] <= ts
  {
    var tail := Write(ts)[|EMPTY_PARA|..];
    assert Write(ts) == EMPTY_PARA + tail;
    EmptyParaSpelled(tail);
    ThreeSpelled(ts, Close(P), Open(P), Close(P), tail);
  }

  lemma EmptyParaSpelled(tail: string)
    ensures EMPTY_PARA + tail == Spell(Close(P)) + (Spell(Open(P)) + (Spell(Close(P)) + tail))
  {
    assert EMPTY_PARA == Spell(Close(P)) + (Spell(Open(P)) + Spell(Close(P)));
  }

  lemma ThreeSpelled(ts: seq<Token>, a: Token, b: Token, c: Token, tail: string)
    requires Write(ts) == Spell(a) + (Spell(b) + (Spell(c) + tail))
    ensures [a, b, c] <= ts
  {
    StripToken(ts, a, Spell(b) + (Spell(c) + tail));
    StripToken(ts[1..], b, Spell(c) + tail);
    StripToken(ts[1..][1..], c, tail);
    assert |ts| >= 3 && ts[1] == b && ts[2] == c;
  }

  lemma StripToken(ts: seq<Token>, t: Token, rest: string)
    requires Write(ts) == Spell(t) + rest
    ensures ts != [] && ts[0] == t && Write(ts[1..]) == rest
  {
    HeadOfSpelling(t, rest);
    HeadOfSpelling(ts[0], Write(ts[1..]));
    assert (Spell(t) + rest)[|Spell(t)|..] == rest;
    assert (Spell(t) + Write(ts[1..]))[|Spell(t)|..] == Write(ts[1..]);
  }

  /** On a written page the text replacement is the token replacement: the pattern can only
      match at a tag boundary, because escaped text holds no '<'. */
  lemma {:induction false} ReplaceIsSqueeze(ts: seq<Token>)
    ensures ReplaceAll(Write(ts), EMPTY_PARA, "</p>") == Write(Squeeze(ts))
    decreases |ts|
  {
    EmptyParaAtFront(ts);
    if ts != [] {
      var s := Write(ts);
      if [Close(P), Open(P), Close(P)] <= ts {
        ReplaceIsSqueeze(ts[3..]);
        assert Squeeze(ts)[1..] == Squeeze(ts[3..]);
      } else {
        var a, b := Spell(ts[0]), Write(ts[1..]);
        forall i | 0 <= i < |a| ensures !(EMPTY_PARA <= (a + b)[i..]) {
          assert (a + b)[0..] == s;
          if i > 0 {
            assert (a + b)[i..][0] == a[i] != '<' == EMPTY_PARA[0];
          }
        }
        ReplaceSkips(a, b, EMPTY_PARA, "</p>");
        ReplaceIsSqueeze(ts[1..]);
        assert Squeeze(ts)[1..] == Squeeze(ts[1..]);
      }
    }
  }

  // ---------------------------------------------------------------- lines

  function Erase(s: string, c: char): string {
    if s == "" then "" else (if s[0] == c then "" else [s[0]]) + Erase(s[1..], c)
  }

  /** Index of the first c at or after from, or |s|. */
  function Find(s: string, c: char, from: nat): (i: nat)
    requires from <= |s|
    ensures from <= i <= |s|
    decreases |s| - from
  {
    if from == |s| || s[from] == c then from else Find(s, c, from + 1)
  }

  lemma {:induction false} FindIsFirst(s: string, c: char, from: nat)
    requires from <= |s|
    ensures Find(s, c, from) < |s| ==> s[Find(s, c, from)] == c
    ensures forall k :: from <= k < Find(s, c, from) ==> s[k] != c
    decreases |s| - from
  {
    if !(from == |s| || s[from] == c) {
      FindIsFirst(s, c, from + 1);
    }
  }

  /** The lines of s; the newline ends a line, so a final newline opens no further line. */
  function Lines(s: string): (r: seq<string>)
    ensures s != "" ==> r != []
  {
    if s == "" then []
    else if s[0] == '\n' then [""] + Lines(s[1..])
    else Glue([s[0]], Lines(s[1..]))
  }

  /** Text put in front of the first line. */
  function Glue(e: string, r: seq<string>): seq<string> {
    if r == [] then [e] else [e + r[0]] + r[1..]
  }

  lemma GlueGlue(a: string, b: string, r: seq<string>)
    ensures Glue(a, Glue(b, r)) == Glue(a + b, r)
  {
    if r != [] {
      assert a + (b + r[0]) == (a + b) + r[0];
    }
  }

  lemma {:induction false} LinesPrefix(e: string, s: string)
    requires e != "" && forall k :: 0 <= k < |e| ==> e[k] != '\n'
    ensures Lines(e + s) == Glue(e, Lines(s))
  {
    if |e| == 1 {
      assert (e + s)[1..] == s && e == [e[0]];
    } else {
      assert (e + s)[1..] == e[1..] + s && e == [e[0]] + e[1..];
      LinesPrefix(e[1..], s);
      GlueGlue([e[0]], e[1..], Lines(s));
    }
  }

  lemma LinesCons(a: string, b: string)
    requires forall k :: 0 <= k < |a| ==> a[k] != '\n'
    ensures Lines(a + ("\n" + b)) == [a] + Lines(b)
  {
    assert ("\n" + b)[1..] == b;
    assert a + "" == a;
    if a == "" {
      assert a + ("\n" + b) == "\n" + b;
    } else {
      LinesPrefix(a, "\n" + b);
    }
  }

  lemma LinesSingle(a: string)
    requires a != "" && forall k :: 0 <= k < |a| ==> a[k] != '\n'
    ensures Lines(a) == [a]
  {
    LinesPrefix(a, "");
    assert a + "" == a;
  }

  /** Every line, with the newline that ends it. */
  function Ended(ls: seq<string>): string {
    if ls == [] then "" else ls[0] + "\n" + Ended(ls[1..])
  }

  lemma EndedCons(l: string, ls: seq<string>)
    ensures Ended([l] + ls) == l + "\n" + Ended(ls)
  {
    assert ([l] + ls)[1..] == ls;
  }

  lemma EndedGlue(e: string, r: seq<string>)
    ensures Ended(Glue(e, r)) == if r == [] then e + "\n" else e + Ended(r)
  {
    if r == [] {
      EndedCons(e, []);
      assert [e] + [] == [e] && e + "\n" + "" == e + "\n";
    } else {
      EndedCons(e + r[0], r[1..]);
      assert e + r[0] + "\n" + Ended(r[1..]) == e + (r[0] + "\n" + Ended(r[1..]));
    }
  }

  /** The lines are what stands between the newlines; the last one need not be ended by one. */
  lemma {:induction false} LinesMeaning(s: string)
    ensures forall i :: 0 <= i < |Lines(s)| ==> '\n' !in Lines(s)[i]
    ensures Ended(Lines(s)) == if s == "" || s[|s| - 1] == '\n' then s else s + "\n"
  {
    if s != "" {
      var t := s[1..];
      LinesMeaning(t);
      assert s == [s[0]] + t && s + "\n" == [s[0]] + (t + "\n");
      if s[0] == '\n' {
        EndedCons("", Lines(t));
        assert "" + "\n" + Ended(Lines(t)) == [s[0]] + Ended(Lines(t));
      } else {
        EndedGlue([s[0]], Lines(t));
      }
    }
  }

  /** Erasing drops every c and keeps all else in order. */
  lemma {:induction false} EraseMeaning(s: string, c: char)
    ensures c !in Erase(s, c) && (c !in s ==> Erase(s, c) == s)
    ensures forall x :: x != c ==> multiset(Erase(s, c))[x] == multiset(s)[x]
  {
    if s != "" {
      EraseMeaning(s[1..], c);
      assert s == [s[0]] + s[1..];
    }
  }

  /** The lines an NCtext holds: carriage returns are dropped and there is at least one line. */
  function TextLinesOf(s: string): seq<string> {
    var t := Erase(s, '\r');
    if t == "" then [""] else Lines(t)
  }

  /** No line holds a carriage return or a newline, and a text without carriage returns is its lines,
      each ended by a newline, the last one at will. */
  lemma TextLinesMeaning(s: string)
    ensures forall i :: 0 <= i < |TextLinesOf(s)| ==> '\r' !in TextLinesOf(s)[i] && '\n' !in TextLinesOf(s)[i]
    ensures '\r' !in s ==> Ended(TextLinesOf(s)) == if s != "" && s[|s| - 1] == '\n' then s else s + "\n"
  {
    var t := Erase(s, '\r');
    EraseMeaning(s, '\r');
    LinesMeaning(t);
    if t == "" {
      EndedCons("", []);
      assert [""] + [] == [""] && "" + "\n" + "" == "\n" && "" + "\n" == "\n";
    }
    forall i | 0 <= i < |Lines(t)| ensures '\r' !in Lines(t)[i] {
      LinesFrom(t, '\r', i);
    }
  }

  /** Lines hold only what is in the text. */
  lemma {:induction false} LinesFrom(s: string, c: char, i: nat)
    requires c !in s && i < |Lines(s)|
    ensures c !in Lines(s)[i]
  {
    if s != "" {
      var r := Lines(s[1..]);
      if s[0] == '\n' {
        if i > 0 {
          LinesFrom(s[1..], c, i - 1);
        }
      } else if r != [] {
        LinesFrom(s[1..], c, i);
      }
    }
  }

  function ExtendLast(m: seq<string>, x: string): seq<string>
    requires m != []
  {
    m[..|m| - 1] + [m[|m| - 1] + x]
  }

  lemma ExtendFresh(m: seq<string>, x: string)
    ensures ExtendLast(m + [""], x) == m + [x]
  {
    assert "" + x == x;
  }

  /** The lines cut so far, with the first one present from the start, and the rest of the text. */
  ghost predicate Cut(text: string, spos: nat, sawnl: bool, done: seq<string>, mtext: seq<string>) {
    && spos <= |text|
    && mtext == (if sawnl then done else done + [""])
    && (sawnl <==> done != []) && (!sawnl ==> spos == 0)
    && done + Lines(text[spos..]) == Lines(text)
  }

  /** Cutting the next line off the rest of the text. */
  lemma CutNext(text: string, spos: nat, sawnl: bool, done: seq<string>, mtext: seq<string>)
    requires Cut(text, spos, sawnl, done, mtext) && Find(text, '\n', spos) < |text|
    ensures var cpos := Find(text, '\n', spos);
      Cut(text, cpos + 1, true, done + [text[spos..cpos]], Extend(mtext, sawnl, text[spos..cpos]))
  {
    var cpos := Find(text, '\n', spos);
    CutLine(text, spos);
    ExtendFresh(done, text[spos..cpos]);
    Regroup(done, [text[spos..cpos]], Lines(text[cpos + 1..]));
  }

  lemma Regroup(a: seq<string>, b: seq<string>, c: seq<string>)
    ensures a + b + c == a + (b + c)
  {
  }

  lemma CutLine(text: string, spos: nat)
    requires spos <= |text| && Find(text, '\n', spos) < |text|
    ensures var cpos := Find(text, '\n', spos);
      Lines(text[spos..]) == [text[spos..cpos]] + Lines(text[cpos + 1..])
  {
    var cpos := Find(text, '\n', spos);
    FindIsFirst(text, '\n', spos);
    LinesCons(text[spos..cpos], text[cpos + 1..]);
    assert text[spos..] == text[spos..cpos] + ("\n" + text[cpos + 1..]);
  }

  /** What is left after the last newline. */
  lemma CutLast(text: string, spos: nat, sawnl: bool, done: seq<string>, mtext: seq<string>)
    requires Cut(text, spos, sawnl, done, mtext) && Find(text, '\n', spos) == |text|
    ensures (if spos < |text| then Extend(mtext, sawnl, text[spos..]) else mtext) == if text == "" then [""] else Lines(text)
  {
    if spos < |text| {
      FindIsFirst(text, '\n', spos);
      LinesSingle(text[spos..]);
      ExtendFresh(done, text[spos..]);
    } else {
      assert text[spos..] == "" && done + [] == done;
    }
  }

  /** After a newline a new line is opened; text goes to the last line. */
  function Extend(mtext: seq<string>, sawnl: bool, x: string): seq<string>
    requires sawnl || mtext != []
  {
    ExtendLast(if sawnl then mtext + [""] else mtext, x)
  }

  lemma CutStart(text: string)
    ensures Cut(text, 0, false, [], [""])
  {
    assert text[0..] == text;
  }

  /** The loop of NCtext::lset. */
  method CutLines(text: string) returns (mtext: seq<string>)
    ensures mtext == if text == "" then [""] else Lines(text)
  {
    mtext := [""];
    var spos, sawnl := 0, false;
    var cpos := Find(text, '\n', spos);
    ghost var done: seq<string> := [];
    CutStart(text);
    while cpos < |text|
      invariant Cut(text, spos, sawnl, done, mtext) && cpos == Find(text, '\n', spos)
      decreases |text| - spos
    {
      CutNext(text, spos, sawnl, done, mtext);
      mtext := Extend(mtext, sawnl, text[spos..cpos]);
      done := done + [text[spos..cpos]];
      sawnl := true;
      spos := cpos + 1;
      cpos := Find(text, '\n', spos);
    }
    CutLast(text, spos, sawnl, done, mtext);
    if spos < |text| {
      mtext := Extend(mtext, sawnl, text[spos..]);
    }
  }

  /** NCtext::lset. */
  method SplitText(s: string) returns (mtext: seq<string>)
    ensures mtext == TextLinesOf(s)
  {
    if s == "" {
      return [""];
    }
    mtext := CutLines(Erase(s, '\r'));
  }

  // ---------------------------------------------------------------- lines of escaped text

  lemma {:induction false} EscapeConcat(a: string, b: string)
    ensures Escape(a + b) == Escape(a) + Escape(b)
  {
    if a == "" {
      assert a + b == b;
    } else {
      assert (a + b)[1..] == a[1..] + b;
      EscapeConcat(a[1..], b);
    }
  }

  lemma {:induction false} EscapeErases(s: string, c: char)
    requires c == '\r'
    ensures Erase(Escape(s), c) == Escape(Erase(s, c))
  {
    if s != "" {
      EraseConcat(Entity(s[0]), Escape(s[1..]), c);
      EscapeErases(s[1..], c);
      EraseEntity(s[0], c);
      EscapeConcat(if s[0] == c then "" else [s[0]], Erase(s[1..], c));
    }
  }

  lemma EraseEntity(x: char, c: char)
    requires c == '\r'
    ensures Erase(Entity(x), c) == if x == c then "" else Entity(x)
  {
    if x != c {
      EraseAbsent(Entity(x), c);
    }
  }

  lemma {:induction false} EraseAbsent(s: string, c: char)
    requires c !in s
    ensures Erase(s, c) == s
  {
    if s != "" {
      EraseAbsent(s[1..], c);
    }
  }

  lemma {:induction false} EraseConcat(a: string, b: string, c: char)
    ensures Erase(a + b, c) == Erase(a, c) + Erase(b, c)
  {
    if a == "" {
      assert a + b == b;
    } else {
      assert (a + b)[1..] == a[1..] + b;
      EraseConcat(a[1..], b, c);
    }
  }

  function EscapeAll(ls: seq<string>): (r: seq<string>)
    ensures |r| == |ls| && forall i :: 0 <= i < |ls| ==> r[i] == Escape(ls[i])
  {
    if ls == [] then [] else [Escape(ls[0])] + EscapeAll(ls[1..])
  }

  lemma EscapeGlue(e: string, r: seq<string>)
    ensures EscapeAll(Glue(e, r)) == Glue(Escape(e), EscapeAll(r))
  {
    if r != [] {
      EscapeConcat(e, r[0]);
      assert Glue(e, r)[1..] == r[1..];
    }
  }

  lemma {:induction false} LinesOfEscape(s: string)
    ensures Lines(Escape(s)) == EscapeAll(Lines(s))
  {
    if s != "" {
      LinesOfEscape(s[1..]);
      if s[0] == '\n' {
        assert Escape(s)[1..] == Escape(s[1..]);
        assert ([""] + Lines(s[1..]))[1..] == Lines(s[1..]);
      } else {
        LinesPrefix(Entity(s[0]), Escape(s[1..]));
        EscapeGlue([s[0]], Lines(s[1..]));
        assert [s[0]][1..] == "" && Entity(s[0]) + "" == Entity(s[0]);
      }
    }
  }

  /** Escaping before splitting into lines is the same as escaping every line. */
  lemma TextLinesOfEscape(s: string)
    ensures TextLinesOf(Escape(s)) == EscapeAll(TextLinesOf(s))
  {
    EscapeErases(s, '\r');
    LinesOfEscape(Erase(s, '\r'));
  }
}
