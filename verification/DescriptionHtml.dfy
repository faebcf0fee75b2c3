/** NCPkgPackageDetails::createHtmlText: a plain-text package description becomes paragraphs
    and bullet lists.  The translator writes tags as it goes; what is proved is that the page
    it writes reads back as the document the lines stand for. */
module DescriptionHtml {
  import opened Markup
  import opened Options
  import opened TextLines

  const DOCTYPE_TAG := "<!-- DT:Rich -->"

  predicate Contains(s: string, pat: string) {
    pat <= s || (s != "" && Contains(s[1..], pat))
  }

  lemma {:induction false} ContainsMeaning(s: string, pat: string)
    ensures Contains(s, pat) <==> exists i :: 0 <= i <= |s| && pat <= s[i..]
  {
    assert s[0..] == s;
    if s != "" {
      ContainsMeaning(s[1..], pat);
      forall i | 1 <= i <= |s| ensures s[i..] == s[1..][i - 1..] {
      }
      if i :| 0 <= i <= |s[1..]| && pat <= s[1..][i..] {
        assert s[i + 1..] == s[1..][i..];
      }
    }
  }

  // ---------------------------------------------------------------- what the lines mean

  predicate IsBullet(line: string) { "- " <= line || "* " <= line }
  predicate IsIndented(line: string) { "  " <= line }

  /** The document so far: finished blocks and the block still open.  An open list has at
      least one item. */
  datatype RawDraft = Draft(done: seq<Block>, cur: Block)
  type Draft = d: RawDraft | d.cur.List? ==> d.cur.items != [] witness Draft([], Para(""))

  /** A blank line ends the block.  A bullet line adds an item, opening a list if none is
      open.  An indented line continues whatever is open.  Any other line is paragraph text,
      set off by one blank, and ends an open list. */
  function AddLine(d: Draft, line: string): Draft {
    if line == "" then Draft(d.done + [d.cur], Para(""))
    else if IsBullet(line) then
      if d.cur.List? then d.(cur := List(d.cur.items + [line[2..]]))
      else Draft(d.done + [d.cur], List([line[2..]]))
    else if IsIndented(line) then d.(cur := Continue(d.cur, line))
    else if d.cur.List? then Draft(d.done + [d.cur], Para(" " + line))
    else d.(cur := Para(d.cur.text + (" " + line)))
  }

  function Continue(b: Block, text: string): (r: Block)
    requires b.List? ==> b.items != []
    ensures r.List? ==> r.items != []
  {
    match b
    case Para(x) => Para(x + text)
    case List(items) => List(items[..|items| - 1] + [items[|items| - 1] + text])
  }

  function DraftOf(lines: seq<string>): Draft {
    if lines == [] then Draft([], Para("")) else AddLine(DraftOf(lines[..|lines| - 1]), lines[|lines| - 1])
  }

  function Typeset(lines: seq<string>): seq<Block> {
    var d := DraftOf(lines);
    d.done + [d.cur]
  }

  // ---------------------------------------------------------------- the text of a document

  function Concat(ss: seq<string>): string {
    if ss == [] then "" else Concat(ss[..|ss| - 1]) + ss[|ss| - 1]
  }

  function BlockText(b: Block): string {
    match b
    case Para(x) => x
    case List(items) => Concat(items)
  }

  function Text(doc: seq<Block>): string {
    if doc == [] then "" else Text(doc[..|doc| - 1]) + BlockText(doc[|doc| - 1])
  }

  /** What a line contributes: a bullet loses its marker, a plain line gains one blank. */
  function LineText(line: string): string {
    if line == "" then "" else if IsBullet(line) then line[2..] else if IsIndented(line) then line else " " + line
  }

  function LinesText(lines: seq<string>): string {
    if lines == [] then "" else LinesText(lines[..|lines| - 1]) + LineText(lines[|lines| - 1])
  }

  lemma TextSnoc(doc: seq<Block>, b: Block)
    ensures Text(doc + [b]) == Text(doc) + BlockText(b)
  {
    assert (doc + [b])[..|doc|] == doc;
  }

  lemma ConcatSnoc(ss: seq<string>, s: string)
    ensures Concat(ss + [s]) == Concat(ss) + s
  {
    assert (ss + [s])[..|ss|] == ss;
  }

  lemma BlockTextContinue(b: Block, text: string)
    requires b.List? ==> b.items != []
    ensures BlockText(Continue(b, text)) == BlockText(b) + text
  {
    if b.List? {
      var front, last := b.items[..|b.items| - 1], b.items[|b.items| - 1];
      ConcatSnoc(front, last + text);
      assert Concat(front) + (last + text) == (Concat(front) + last) + text;
    }
  }

  function DraftText(d: Draft): string { Text(d.done) + BlockText(d.cur) }

  lemma ClosedText(d: Draft, b: Block)
    ensures Text(d.done + [d.cur]) + BlockText(b) == DraftText(d) + BlockText(b)
  {
    TextSnoc(d.done, d.cur);
  }

  lemma ExtendedText(d: Draft, b: Block, more: string)
    requires BlockText(b) == BlockText(d.cur) + more
    ensures Text(d.done) + BlockText(b) == DraftText(d) + more
  {
  }

  lemma AddLineText(d: Draft, line: string)
    ensures DraftText(AddLine(d, line)) == DraftText(d) + LineText(line)
  {
    var b := AddLine(d, line).cur;
    if line == "" {
      ClosedText(d, b);
    } else if IsBullet(line) {
      if d.cur.List? {
        ConcatSnoc(d.cur.items, line[2..]);
        ExtendedText(d, b, line[2..]);
      } else {
        ClosedText(d, b);
        ConcatSnoc([], line[2..]);
        assert [] + [line[2..]] == [line[2..]] && "" + line[2..] == line[2..];
      }
    } else if IsIndented(line) {
      BlockTextContinue(d.cur, line);
      ExtendedText(d, b, line);
    } else if d.cur.Para? {
      ExtendedText(d, b, " " + line);
    } else {
      ClosedText(d, b);
    }
  }

  /** No text is lost, added or reordered by typesetting. */
  lemma {:induction false} TypesetText(lines: seq<string>)
    ensures Text(Typeset(lines)) == LinesText(lines)
  {
    TextSnoc(DraftOf(lines).done, DraftOf(lines).cur);
    if lines == [] {
      assert Text([]) == "";
    } else {
      var front := lines[..|lines| - 1];
      TypesetText(front);
      TextSnoc(DraftOf(front).done, DraftOf(front).cur);
      AddLineText(DraftOf(front), lines[|lines| - 1]);
    }
  }

  lemma {:induction false} VisibleText(doc: seq<Block>)
    ensures Text(Visible(doc)) == Text(doc)
  {
    if doc != [] {
      var front, b := doc[..|doc| - 1], doc[|doc| - 1];
      assert doc == front + [b];
      VisibleConcat(front, [b]);
      VisibleText(front);
      if b == Para("") {
        assert Visible([b]) == [] && Visible(front) + [] == Visible(front);
        assert Text(front) + "" == Text(front);
      } else {
        TextSnoc(Visible(front), b);
      }
    }
  }

  // ---------------------------------------------------------------- what is written

  /** Where a reader of the page stands after a draft has been written out. */
  function PlaceOf(d: Draft): Place {
    match d.cur
    case Para(x) => InPara(d.done, x)
    case List(items) => InItem(d.done, items[..|items| - 1], items[|items| - 1])
  }

  const LIST_END := [Close(Li), Close(Ul), Open(P)]

  /** The tokens written for one line. */
  function LineTokens(inList: bool, line: string): seq<Token> {
    if line == "" then (if inList then LIST_END else [Close(P), Open(P)])
    else if IsBullet(line) then
      (if inList then [Close(Li), Open(Li)] else [Close(P), Open(Ul), Open(Li)]) + Glyphs(line[2..])
    else if IsIndented(line) then Glyphs(line)
    else (if inList then LIST_END else []) + Glyphs(" " + line)
  }

  lemma Run2(p: Place, a: Token, b: Token)
    ensures Run(p, [a, b]) ==
      if Step(p, a).None? then None else Step(Step(p, a).value, b)
  {
    assert [a, b][1..] == [b];
    var q := Step(p, a);
    if q.Some? {
      assert [b][1..] == [];
      assert Run(q.value, [b]) == if Step(q.value, b).None? then None else Run(Step(q.value, b).value, []);
    }
  }

  lemma Run3(p: Place, a: Token, b: Token, c: Token)
    ensures Run(p, [a, b, c]) ==
      if Step(p, a).None? then None else Run(Step(p, a).value, [b, c])
  {
    assert [a, b, c][1..] == [b, c];
  }

  lemma RunListEnd(p: Place)
    requires p.InItem?
    ensures Run(p, LIST_END) == Some(InPara(p.doc + [List(p.items + [p.text])], ""))
  {
    Run3(p, Close(Li), Close(Ul), Open(P));
    Run2(InList(p.doc, p.items + [p.text]), Close(Ul), Open(P));
  }

  lemma RunParaBreak(p: Place)
    requires p.InPara?
    ensures Run(p, [Close(P), Open(P)]) == Some(InPara(p.doc + [Para(p.text)], ""))
  {
    Run2(p, Close(P), Open(P));
  }

  lemma RunNewItem(p: Place)
    requires p.InItem? || p.InPara?
    ensures p.InItem? ==> Run(p, [Close(Li), Open(Li)]) == Some(InItem(p.doc, p.items + [p.text], ""))
    ensures p.InPara? ==> Run(p, [Close(P), Open(Ul), Open(Li)]) == Some(InItem(p.doc + [Para(p.text)], [], ""))
  {
    if p.InItem? {
      Run2(p, Close(Li), Open(Li));
    } else {
      Run3(p, Close(P), Open(Ul), Open(Li));
      Run2(Outside(p.doc + [Para(p.text)]), Open(Ul), Open(Li));
    }
  }

  /** Reading the tokens of a line does to the reader what the line does to the draft. */
  lemma LineTokensBuild(d: Draft, line: string)
    ensures Run(PlaceOf(d), LineTokens(d.cur.List?, line)) == Some(PlaceOf(AddLine(d, line)))
  {
    var p := PlaceOf(d);
    assert p.InItem? ==> p.items + [p.text] == d.cur.items;
    if line == "" {
      if p.InItem? { RunListEnd(p); } else { RunParaBreak(p); }
    } else if IsBullet(line) {
      RunNewItem(p);
      var open := if p.InItem? then [Close(Li), Open(Li)] else [Close(P), Open(Ul), Open(Li)];
      RunConcat(p, open, Glyphs(line[2..]));
      RunGlyphs(Run(p, open).value, line[2..]);
      assert "" + line[2..] == line[2..];
      if p.InItem? {
        assert (d.cur.items + [line[2..]])[..|d.cur.items|] == d.cur.items;
      }
    } else if IsIndented(line) {
      RunGlyphs(p, line);
    } else {
      if p.InItem? {
        RunListEnd(p);
        RunConcat(p, LIST_END, Glyphs(" " + line));
        RunGlyphs(Run(p, LIST_END).value, " " + line);
        assert "" + (" " + line) == " " + line;
      } else {
        assert [] + Glyphs(" " + line) == Glyphs(" " + line);
        RunGlyphs(p, " " + line);
      }
    }
  }

  // ---------------------------------------------------------------- the tests on escaped lines

  /** A two-character prefix without markup characters is in the escaped line exactly when it
      is in the line, and what follows it is the escaped rest. */
  lemma PrefixEscaped(line: string, a: char, b: char)
    requires Entity(a) == [a] && Entity(b) == [b]
    ensures [a, b] <= Escape(line) <==> [a, b] <= line
    ensures [a, b] <= line ==> Escape(line)[2..] == Escape(line[2..])
  {
    if line != "" && Entity(line[0]) == [line[0]] && line[1..] != "" && Entity(line[1]) == [line[1]] {
      EscapePlain(line);
      EscapePlain(line[1..]);
      assert Escape(line) == [line[0]] + ([line[1]] + Escape(line[1..][1..])) && line[1..][1..] == line[2..];
      assert Escape(line)[..2] == line[..2] && Escape(line)[2..] == Escape(line[2..]);
    } else {
      NotEscapedPrefix(line, a, b);
    }
  }

  lemma EscapePlain(line: string)
    requires line != "" && Entity(line[0]) == [line[0]]
    ensures Escape(line) == [line[0]] + Escape(line[1..])
  {
  }

  lemma NotEscapedPrefix(line: string, a: char, b: char)
    requires Entity(a) == [a] && Entity(b) == [b]
    requires line == "" || Entity(line[0]) != [line[0]] || line[1..] == "" || Entity(line[1]) != [line[1]]
    ensures !([a, b] <= Escape(line)) && !([a, b] <= line)
  {
    PrefixOfTwo(Escape(line), a, b);
    PrefixOfTwo(line, a, b);
    if line != "" {
      EscapeHead(line);
      if Entity(line[0]) == [line[0]] {
        EscapePlain(line);
        if line[1..] == "" {
          assert |Escape(line)| == 1;
        } else {
          EscapeHead(line[1..]);
        }
      }
    }
  }

  lemma EscapeHead(s: string)
    requires s != ""
    ensures Escape(s) != "" && Escape(s)[0] == if Entity(s[0]) == [s[0]] then s[0] else '&'
  {
    assert Entity(s[0])[0] == if Entity(s[0]) == [s[0]] then s[0] else '&';
  }

  lemma PrefixOfTwo(s: string, a: char, b: char)
    ensures [a, b] <= s <==> |s| >= 2 && s[0] == a && s[1] == b
  {
  }

  lemma TestsOnEscaped(line: string)
    ensures Escape(line) == "" <==> line == ""
    ensures IsBullet(Escape(line)) <==> IsBullet(line)
    ensures IsIndented(Escape(line)) <==> IsIndented(line)
    ensures IsBullet(line) ==> Escape(line)[2..] == Escape(line[2..])
  {
    PrefixEscaped(line, '-', ' ');
    PrefixEscaped(line, '*', ' ');
    PrefixEscaped(line, ' ', ' ');
    assert "- " == ['-', ' '] && "* " == ['*', ' '] && "  " == [' ', ' '];
  }

  // ---------------------------------------------------------------- the translator

  lemma WriteTags(a: Token, b: Token)
    ensures Write([a, b]) == Spell(a) + Spell(b)
  {
    assert [a, b][1..] == [b] && [b][1..] == [];
    assert Write([b]) == Spell(b) + "" == Spell(b);
  }

  lemma WriteTags3(a: Token, b: Token, c: Token)
    ensures Write([a, b, c]) == Spell(a) + (Spell(b) + Spell(c))
  {
    assert [a, b, c][1..] == [b, c];
    WriteTags(b, c);
  }

  /** The tag fragments of the translator are the spellings of their tokens. */
  lemma Fragments()
    ensures Write([Open(P)]) == "<p>" && Write([Close(P)]) == "</p>"
    ensures Write([Close(P), Open(P)]) == "</p><p>"
    ensures Write([Close(Li), Open(Li)]) == "</li><li>"
    ensures Write([Close(Li), Close(Ul)]) == "</li></ul>"
    ensures Write(LIST_END) == "</li></ul><p>"
    ensures Write([Close(P), Open(Ul), Open(Li)]) == "</p><ul><li>"
  {
    assert [Open(P)][1..] == [] && [Close(P)][1..] == [];
    WriteTags(Close(P), Open(P));
    WriteTags(Close(Li), Open(Li));
    WriteTags(Close(Li), Close(Ul));
    LongFragments();
  }

  lemma LongFragments()
    ensures Write(LIST_END) == "</li></ul><p>"
    ensures Write([Close(P), Open(Ul), Open(Li)]) == "</p><ul><li>"
  {
    WriteTags3(Close(Li), Close(Ul), Open(P));
    WriteTags3(Close(P), Open(Ul), Open(Li));
    assert "</li>" + ("</ul>" + "<p>") == "</li></ul><p>";
    assert "</p>" + ("<ul>" + "<li>") == "</p><ul><li>";
  }

  lemma RegroupText(a: string, b: string, c: string)
    ensures a + b + c == a + (b + c)
  {
  }

  /** Text appended after tags is the text of its glyphs. */
  lemma TextWritten(html: seq<string>, before: string, tags: seq<Token>, raw: string)
    requires Concat(html) == before + Write(tags)
    ensures Concat(html + [Escape(raw)]) == before + Write(tags + Glyphs(raw))
  {
    calc {
      Concat(html + [Escape(raw)]);
      { ConcatSnoc(html, Escape(raw)); }
      before + Write(tags) + Escape(raw);
      { RegroupText(before, Write(tags), Escape(raw)); }
      before + (Write(tags) + Escape(raw));
      { WriteGlyphs(raw); WriteConcat(tags, Glyphs(raw)); }
      before + Write(tags + Glyphs(raw));
    }
  }

  /** The list flag after a line. */
  predicate InListAfter(inList: bool, line: string) {
    line != "" && (IsBullet(line) || (IsIndented(line) && inList))
  }

  lemma TagsWritten(html: seq<string>, frag: string, tags: seq<Token>)
    requires Write(tags) == frag
    ensures Concat(html + [frag]) == Concat(html) + Write(tags)
  {
    ConcatSnoc(html, frag);
  }

  /** The loop body for one line: the fragments appended for it, and the new list flags. */
  method AppendLine(html: seq<string>, ul_found: bool, ul_begin: bool, curr: string, ghost line: string)
    returns (html': seq<string>, found: bool, begin: bool)
    requires curr == Escape(line) && ul_found == ul_begin
    ensures Concat(html') == Concat(html) + Write(LineTokens(ul_found, line))
    ensures found == begin == InListAfter(ul_found, line)
  {
    TestsOnEscaped(line);
    if curr == "" {
      html' := AppendBreak(html, ul_found);
      found, begin := false, false;
    } else if IsBullet(curr) {
      html' := AppendBullet(html, ul_begin, curr[2..], line[2..]);
      found, begin := true, true;
    } else if IsIndented(curr) {
      TextWritten(html, Concat(html), [], line);
      assert [] + Glyphs(line) == Glyphs(line);
      html', found, begin := html + [curr], ul_found, ul_begin;
    } else {
      html' := AppendPlain(html, ul_found, curr, line);
      found, begin := false, false;
    }
  }

  /** An empty line. */
  method AppendBreak(html: seq<string>, found: bool) returns (html': seq<string>)
    ensures Concat(html') == Concat(html) + Write(if found then LIST_END else [Close(P), Open(P)])
  {
    Fragments();
    if found {
      TagsWritten(html, "</li></ul><p>", LIST_END);
      html' := html + ["</li></ul><p>"];
    } else {
      TagsWritten(html, "</p><p>", [Close(P), Open(P)]);
      html' := html + ["</p><p>"];
    }
  }

  /** A list item. */
  method AppendBullet(html: seq<string>, begin: bool, text: string, ghost raw: string) returns (html': seq<string>)
    requires text == Escape(raw)
    ensures Concat(html') == Concat(html) +
      Write((if begin then [Close(Li), Open(Li)] else [Close(P), Open(Ul), Open(Li)]) + Glyphs(raw))
  {
    Fragments();
    ghost var tags;
    if !begin {
      tags := [Close(P), Open(Ul), Open(Li)];
      TagsWritten(html, "</p><ul><li>", tags);
      html' := html + ["</p><ul><li>"];
    } else {
      tags := [Close(Li), Open(Li)];
      TagsWritten(html, "</li><li>", tags);
      html' := html + ["</li><li>"];
    }
    TextWritten(html', Concat(html), tags, raw);
    html' := html' + [text];
  }

  /** A line of paragraph text. */
  method AppendPlain(html: seq<string>, found: bool, curr: string, ghost line: string) returns (html': seq<string>)
    requires curr == Escape(line)
    ensures Concat(html') == Concat(html) + Write((if found then LIST_END else []) + Glyphs(" " + line))
  {
    html' := html;
    ghost var tags := [];
    if found {
      Fragments();
      tags := LIST_END;
      TagsWritten(html, "</li></ul><p>", LIST_END);
      html' := html + ["</li></ul><p>"];
    }
    TextWritten(html', Concat(html), tags, " " + line);
    assert (" " + line)[1..] == line;
    html' := html' + [" " + curr];
  }

  method Join(html: seq<string>) returns (description: string)
    ensures description == Concat(html)
  {
    description := "";
    for i := 0 to |html|
      invariant description == Concat(html[..i])
    {
      assert html[..i + 1][..i] == html[..i];
      description := description + html[i];
    }
    assert html[..|html|] == html;
  }

  /** The pass over the lines, up to and including the closing tags. */
  method TranslateLines(descr: seq<string>, ghost lines: seq<string>)
    returns (html: seq<string>, ghost ts: seq<Token>)
    requires descr == EscapeAll(lines)
    ensures Run(Outside([]), ts) == Some(PlaceOf(DraftOf(lines)))
    ensures Concat(html) == Write(ts + PageEnd(DraftOf(lines)))
  {
    html, ts := ["<p>"], [Open(P)];
    var ul_begin, ul_found := false, false;
    Fragments();
    ConcatSnoc([], "<p>");
    assert [] + ["<p>"] == ["<p>"] && "" + "<p>" == "<p>" && [Open(P)][1..] == [];
    for i := 0 to |descr|
      invariant Concat(html) == Write(ts)
      invariant Run(Outside([]), ts) == Some(PlaceOf(DraftOf(lines[..i])))
      invariant ul_found == ul_begin == DraftOf(lines[..i]).cur.List?
    {
      assert lines[..i + 1][..i] == lines[..i];
      ghost var more := LineTokens(ul_found, lines[i]);
      LineTokensBuild(DraftOf(lines[..i]), lines[i]);
      RunConcat(Outside([]), ts, more);
      WriteConcat(ts, more);
      html, ul_found, ul_begin := AppendLine(html, ul_found, ul_begin, descr[i], lines[i]);
      ts := ts + more;
    }
    assert lines[..|descr|] == lines;
    WriteConcat(ts, PageEnd(DraftOf(lines)));
    ConcatSnoc(html, Write(PageEnd(DraftOf(lines))));
    if ul_found {
      html := html + ["</li></ul>"];
    } else {
      html := html + ["</p>"];
    }
  }

  function PageEnd(d: Draft): seq<Token> {
    if d.cur.List? then [Close(Li), Close(Ul)] else [Close(P)]
  }

  /** A page whose tokens lead the reader to the end of a draft is, once squeezed, readable, and is
      that draft, thinned of empty paragraphs. */
  lemma FinishedPage(ts: seq<Token>, d: Draft, page: string)
    requires Run(Outside([]), ts) == Some(PlaceOf(d))
    requires page == Write(ts + PageEnd(d))
    ensures var out := Read(ReplaceAll(page, EMPTY_PARA, "</p>"));
            out == Some(Thin(d.done + [d.cur], false)) && Visible(out.value) == Visible(d.done + [d.cur])
  {
    var p := PlaceOf(d);
    var end := PageEnd(d);
    RunConcat(Outside([]), ts, end);
    if d.cur.List? {
      Run2(p, Close(Li), Close(Ul));
      assert p.items + [p.text] == d.cur.items;
    } else {
      assert [Close(P)][1..] == [];
    }
    assert Run(Outside([]), ts + end) == Some(Outside(d.done + [d.cur]));
    ReplaceIsSqueeze(ts + end);
    SqueezeExactly(ts + end, d.done + [d.cur]);
    VisibleThin(d.done + [d.cur], false);
    LexOfWrite(Squeeze(ts + end));
  }

  /** Rich text is passed through.  Any other description becomes a well-formed page that is the
      document its lines stand for, less every other one of several empty paragraphs, and whose
      text, tags stripped and entities decoded, is the text of the lines in order. */
  method CreateHtmlText(value: string) returns (description: string)
    ensures Contains(value, "<!-- DT:Rich -->") ==> description == value
    ensures !Contains(value, "<!-- DT:Rich -->") ==>
              && Read(description) == Some(Thin(Typeset(TextLinesOf(value)), false))
              && Visible(Read(description).value) == Visible(Typeset(TextLinesOf(value)))
              && Text(Read(description).value) == LinesText(TextLinesOf(value))
  {
    if Contains(value, DOCTYPE_TAG) {
      return value;
    }
    var escaped := ReplaceAll(value, "&", "&amp;");
    escaped := ReplaceAll(escaped, "<", "&lt;");
    escaped := ReplaceAll(escaped, ">", "&gt;");
    ThreePassesEscape(value);
    TextLinesOfEscape(value);
    ghost var lines := TextLinesOf(value);

    var descr := SplitText(escaped);
    var html, ts := TranslateLines(descr, lines);
    description := Join(html);
    FinishedPage(ts, DraftOf(lines), description);
    description := ReplaceAll(description, EMPTY_PARA, "</p>");
    TypesetText(lines);
    VisibleText(Typeset(lines));
    VisibleText(Read(description).value);
  }
}
