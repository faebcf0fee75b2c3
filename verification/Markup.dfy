/** The markup a package description is shown in: its tokens, their spelling, and a reader
    that accepts a string only when every tag is closed in nesting order.  The reader is the
    meaning of a generated page; it knows nothing about how pages are generated. */
module Markup {
  import opened Options

  datatype Tag = P | Ul | Li
  datatype Token = Open(tag: Tag) | Close(tag: Tag) | Glyph(c: char)

  function Entity(c: char): string {
    if c == '&' then "&amp;" else if c == '<' then "&lt;" else if c == '>' then "&gt;" else [c]
  }

  function Spell(t: Token): (s: string)
    ensures s != ""
  {
    match t
    case Open(P) => "<p>"
    case Open(Ul) => "<ul>"
    case Open(Li) => "<li>"
    case Close(P) => "</p>"
    case Close(Ul) => "</ul>"
    case Close(Li) => "</li>"
    case Glyph(c) => Entity(c)
  }

  /** The spellings, character by character. */
  lemma SpellingsAreHtml(c: char)
    ensures Spell(Open(P)) == "<p>" && Spell(Close(P)) == "</p>"
    ensures Spell(Open(Ul)) == "<ul>" && Spell(Close(Ul)) == "</ul>"
    ensures Spell(Open(Li)) == "<li>" && Spell(Close(Li)) == "</li>"
    ensures Spell(Glyph('&')) == "&amp;" && Spell(Glyph('<')) == "&lt;" && Spell(Glyph('>')) == "&gt;"
    ensures c != '&' && c != '<' && c != '>' ==> Spell(Glyph(c)) == [c]
  {
  }

  function Write(ts: seq<Token>): string {
    if ts == [] then "" else Spell(ts[0]) + Write(ts[1..])
  }

  function Glyphs(s: string): seq<Token> {
    seq(|s|, i requires 0 <= i < |s| => Glyph(s[i]))
  }

  /** Each character on its own, markup characters replaced by entities. */
  function Escape(s: string): string {
    if s == "" then "" else Entity(s[0]) + Escape(s[1..])
  }

  // ---------------------------------------------------------------- reading tokens

  /** The token at the front of s; None for a stray '<', '>' or '&'. */
  function Head(s: string): (t: Option<Token>)
    requires s != ""
    ensures t.Some? ==> |Spell(t.value)| <= |s|
  {
    if s[0] == '<' then
      if "<p>" <= s then Some(Open(P))
      else if "<ul>" <= s then Some(Open(Ul))
      else if "<li>" <= s then Some(Open(Li))
      else if "</p>" <= s then Some(Close(P))
      else if "</ul>" <= s then Some(Close(Ul))
      else if "</li>" <= s then Some(Close(Li))
      else None
    else if s[0] == '&' then
      if "&amp;" <= s then Some(Glyph('&'))
      else if "&lt;" <= s then Some(Glyph('<'))
      else if "&gt;" <= s then Some(Glyph('>'))
      else None
    else if s[0] == '>' then None
    else Some(Glyph(s[0]))
  }

  function Lex(s: string): Option<seq<Token>> {
    if s == "" then Some([])
    else
      var t := Head(s);
      if t.None? then None
      else
        var rest := Lex(s[|Spell(t.value)|..]);
        if rest.None? then None else Some([t.value] + rest.value)
  }

  lemma HeadOfSpelling(t: Token, rest: string)
    ensures Head(Spell(t) + rest) == Some(t)
  {
    var s := Spell(t) + rest;
    match t
    case Open(P) => assert s[..3] == "<p>";
    case Open(Ul) => assert s[..4] == "<ul>" && s[1] == 'u';
    case Open(Li) => assert s[..4] == "<li>" && s[1] == 'l';
    case Close(P) => assert s[..4] == "</p>" && s[1] == '/';
    case Close(Ul) => assert s[..5] == "</ul>" && s[1] == '/' && s[2] == 'u';
    case Close(Li) => assert s[..5] == "</li>" && s[1] == '/' && s[2] == 'l';
    case Glyph(c) =>
      if c == '&' { assert s[..5] == "&amp;"; }
      else if c == '<' { assert s[..4] == "&lt;"; assert s[1] == 'l'; }
      else if c == '>' { assert s[..4] == "&gt;"; assert s[1] == 'g'; }
  }

  /** Reading is a left inverse of writing, so no two token sequences share a spelling. */
  lemma {:induction false} LexOfWrite(ts: seq<Token>)
    ensures Lex(Write(ts)) == Some(ts)
  {
    if ts != [] {
      var t, rest := ts[0], Write(ts[1..]);
      HeadOfSpelling(t, rest);
      assert (Spell(t) + rest)[|Spell(t)|..] == rest;
      LexOfWrite(ts[1..]);
      assert [t] + ts[1..] == ts;
    }
  }

  lemma {:induction false} WriteConcat(a: seq<Token>, b: seq<Token>)
    ensures Write(a + b) == Write(a) + Write(b)
  {
    if a == [] {
      assert a + b == b;
    } else {
      assert (a + b)[1..] == a[1..] + b;
      WriteConcat(a[1..], b);
    }
  }

  lemma {:induction false} WriteGlyphs(s: string)
    ensures Write(Glyphs(s)) == Escape(s)
  {
    if s != "" {
      assert Glyphs(s)[1..] == Glyphs(s[1..]);
      WriteGlyphs(s[1..]);
    }
  }

  /** Escaped text read back is the text itself. */
  lemma EscapeRoundTrip(s: string)
    ensures Lex(Escape(s)) == Some(Glyphs(s))
  {
    WriteGlyphs(s);
    LexOfWrite(Glyphs(s));
  }

  // ---------------------------------------------------------------- reading documents

  datatype Block = Para(text: string) | List(items: seq<string>)

  /** Where the reader stands: the finished blocks and the one being filled. */
  datatype Place =
    | Outside(doc: seq<Block>)
    | InPara(doc: seq<Block>, text: string)
    | InList(doc: seq<Block>, items: seq<string>)
    | InItem(doc: seq<Block>, items: seq<string>, text: string)

  function Step(p: Place, t: Token): Option<Place> {
    match p
    case Outside(d) =>
      if t == Open(P) then Some(InPara(d, ""))
      else if t == Open(Ul) then Some(InList(d, []))
      else None
    case InPara(d, x) =>
      if t.Glyph? then Some(InPara(d, x + [t.c]))
      else if t == Close(P) then Some(Outside(d + [Para(x)]))
      else None
    case InList(d, items) =>
      if t == Open(Li) then Some(InItem(d, items, ""))
      else if t == Close(Ul) then Some(Outside(d + [List(items)]))
      else None
    case InItem(d, items, x) =>
      if t.Glyph? then Some(InItem(d, items, x + [t.c]))
      else if t == Close(Li) then Some(InList(d, items + [x]))
      else None
  }

  function Run(p: Place, ts: seq<Token>): Option<Place>
    decreases |ts|
  {
    if ts == [] then Some(p)
    else
      var next := Step(p, ts[0]);
      if next.None? then None else Run(next.value, ts[1..])
  }

  /** The document a string denotes; None unless every tag is closed, in nesting order, with
      no paragraph inside a list and text only inside a paragraph or a list item. */
  function Read(s: string): Option<seq<Block>> {
    var ts := Lex(s);
    if ts.None? then None
    else
      var end := Run(Outside([]), ts.value);
      if end.Some? && end.value.Outside? then Some(end.value.doc) else None
  }

  lemma {:induction false} RunConcat(p: Place, a: seq<Token>, b: seq<Token>)
    ensures Run(p, a + b) == if Run(p, a).None? then None else Run(Run(p, a).value, b)
    decreases |a|
  {
    if a == [] {
      assert a + b == b;
    } else {
      assert (a + b)[1..] == a[1..] + b;
      var next := Step(p, a[0]);
      if next.Some? {
        RunConcat(next.value, a[1..], b);
      }
    }
  }

  lemma {:induction false} RunGlyphs(p: Place, s: string)
    requires p.InPara? || p.InItem?
    ensures Run(p, Glyphs(s)) == Some(p.(text := p.text + s))
    decreases |s|
  {
    if s == "" {
      assert p.text + s == p.text;
    } else {
      assert Glyphs(s)[1..] == Glyphs(s[1..]);
      assert p.text + s == (p.text + [s[0]]) + s[1..];
      RunGlyphs(p.(text := p.text + [s[0]]), s[1..]);
    }
  }

  // ---------------------------------------------------------------- empty paragraphs

  /** The blocks a reader sees: an empty paragraph shows nothing. */
  function Visible(doc: seq<Block>): seq<Block> {
    if doc == [] then []
    else (if doc[0] == Para("") then [] else [doc[0]]) + Visible(doc[1..])
  }

  lemma {:induction false} VisibleConcat(a: seq<Block>, b: seq<Block>)
    ensures Visible(a + b) == Visible(a) + Visible(b)
  {
    if a == [] {
      assert a + b == b;
    } else {
      assert (a + b)[1..] == a[1..] + b;
      VisibleConcat(a[1..], b);
    }
  }

  /** The token form of replacing "</p><p></p>" by "</p>" in one left-to-right pass. */
  function Squeeze(ts: seq<Token>): seq<Token> {
    if ts == [] then []
    else if [Close(P), Open(P), Close(P)] <= ts then [Close(P)] + Squeeze(ts[3..])
    else [ts[0]] + Squeeze(ts[1..])
  }

  /** Two places that differ at most in empty paragraphs already finished. */
  ghost predicate Similar(p: Place, q: Place) {
    && Visible(p.doc) == Visible(q.doc)
    && q.(doc := p.doc) == p
  }

  lemma StepSimilar(p: Place, q: Place, t: Token)
    requires Similar(p, q)
    ensures Step(p, t).Some? ==> Step(q, t).Some? && Similar(Step(p, t).value, Step(q, t).value)
  {
    if p.InPara? {
      VisibleConcat(p.doc, [Para(p.text)]);
      VisibleConcat(q.doc, [Para(p.text)]);
    } else if p.InList? {
      VisibleConcat(p.doc, [List(p.items)]);
      VisibleConcat(q.doc, [List(p.items)]);
    }
  }

  /** Squeezing a page keeps it readable and keeps everything visible on it. */
  lemma {:induction false} SqueezeKeepsMeaning(p: Place, q: Place, ts: seq<Token>)
    requires Similar(p, q) && Run(p, ts).Some?
    ensures Run(q, Squeeze(ts)).Some? && Similar(Run(p, ts).value, Run(q, Squeeze(ts)).value)
    decreases |ts|
  {
    if ts != [] {
      StepSimilar(p, q, ts[0]);
      var p1, q1 := Step(p, ts[0]).value, Step(q, ts[0]).value;
      if [Close(P), Open(P), Close(P)] <= ts {
        var p3 := Outside(p1.doc + [Para("")]);
        assert Step(p1, ts[1]) == Some(InPara(p1.doc, ""));
        assert Step(InPara(p1.doc, ""), ts[2]) == Some(p3);
        assert ts[1..][1..] == ts[2..] && ts[2..][1..] == ts[3..];
        assert Run(p, ts) == Run(p1, ts[1..]) == Run(InPara(p1.doc, ""), ts[2..]) == Run(p3, ts[3..]);
        VisibleConcat(p1.doc, [Para("")]);
        SqueezeKeepsMeaning(p3, q1, ts[3..]);
        assert Squeeze(ts)[1..] == Squeeze(ts[3..]);
      } else {
        SqueezeKeepsMeaning(p1, q1, ts[1..]);
        assert Squeeze(ts)[1..] == Squeeze(ts[1..]);
      }
    }
  }

  // ---------------------------------------------------------------- which empty paragraphs go

  function ItemTokens(items: seq<string>): seq<Token> {
    if items == [] then []
    else ItemTokens(items[..|items| - 1]) + ([Open(Li)] + Glyphs(items[|items| - 1]) + [Close(Li)])
  }

  function BlockTokens(b: Block): seq<Token> {
    match b
    case Para(x) => [Open(P)] + Glyphs(x) + [Close(P)]
    case List(items) => [Open(Ul)] + ItemTokens(items) + [Close(Ul)]
  }

  function DocTokens(doc: seq<Block>): seq<Token> {
    if doc == [] then [] else BlockTokens(doc[0]) + DocTokens(doc[1..])
  }

  /** The tokens that lead a reader to a place. */
  function PlaceTokens(p: Place): seq<Token> {
    match p
    case Outside(d) => DocTokens(d)
    case InPara(d, x) => DocTokens(d) + ([Open(P)] + Glyphs(x))
    case InList(d, items) => DocTokens(d) + ([Open(Ul)] + ItemTokens(items))
    case InItem(d, items, x) => DocTokens(d) + ([Open(Ul)] + ItemTokens(items) + ([Open(Li)] + Glyphs(x)))
  }

  lemma {:induction false} DocSnoc(d: seq<Block>, b: Block)
    ensures DocTokens(d + [b]) == DocTokens(d) + BlockTokens(b)
  {
    if d == [] {
      assert d + [b] == [b] && [b][1..] == [];
    } else {
      assert (d + [b])[1..] == d[1..] + [b];
      DocSnoc(d[1..], b);
    }
  }

  lemma GlyphsSnoc(x: string, c: char)
    ensures Glyphs(x + [c]) == Glyphs(x) + [Glyph(c)]
  {
  }

  lemma StepTokens(p: Place, t: Token)
    requires Step(p, t).Some?
    ensures PlaceTokens(Step(p, t).value) == PlaceTokens(p) + [t]
  {
    match p
    case Outside(d) =>
      assert Glyphs("") == [];
    case InPara(d, x) =>
      StepInPara(d, x, t);
    case InList(d, items) =>
      StepInList(d, items, t);
    case InItem(d, items, x) =>
      StepInItem(d, items, x, t);
  }

  lemma StepInPara(d: seq<Block>, x: string, t: Token)
    requires Step(InPara(d, x), t).Some?
    ensures PlaceTokens(Step(InPara(d, x), t).value) == PlaceTokens(InPara(d, x)) + [t]
  {
    if t.Glyph? {
      GlyphsSnoc(x, t.c);
    } else {
      DocSnoc(d, Para(x));
    }
  }

  lemma StepInList(d: seq<Block>, items: seq<string>, t: Token)
    requires Step(InList(d, items), t).Some?
    ensures PlaceTokens(Step(InList(d, items), t).value) == PlaceTokens(InList(d, items)) + [t]
  {
    if t == Close(Ul) {
      DocSnoc(d, List(items));
    } else {
      assert Glyphs("") == [];
    }
  }

  lemma StepInItem(d: seq<Block>, items: seq<string>, x: string, t: Token)
    requires Step(InItem(d, items, x), t).Some?
    ensures PlaceTokens(Step(InItem(d, items, x), t).value) == PlaceTokens(InItem(d, items, x)) + [t]
  {
    var open := [Open(Li)] + Glyphs(x);
    RegroupTokens(DocTokens(d), [Open(Ul)] + ItemTokens(items) + open, [t]);
    RegroupTokens([Open(Ul)] + ItemTokens(items), open, [t]);
    if t.Glyph? {
      GlyphsSnoc(x, t.c);
      RegroupTokens([Open(Li)], Glyphs(x), [t]);
    } else {
      assert (items + [x])[..|items|] == items;
      RegroupTokens([Open(Ul)], ItemTokens(items), open + [t]);
    }
  }

  /** A reader that knows where it stands knows what it has read. */
  lemma {:induction false} RunTokens(ts: seq<Token>)
    requires Run(Outside([]), ts).Some?
    ensures PlaceTokens(Run(Outside([]), ts).value) == ts
  {
    if ts != [] {
      var front, t := ts[..|ts| - 1], ts[|ts| - 1];
      assert ts == front + [t];
      RunConcat(Outside([]), front, [t]);
      RunTokens(front);
      var q := Run(Outside([]), front).value;
      assert Run(q, [t]) == Step(q, t);
      StepTokens(q, t);
    }
  }

  /** What the replacement leaves of a document: of empty paragraphs right after a paragraph, every
      other one. */
  function Thin(doc: seq<Block>, afterPara: bool): seq<Block>
    decreases |doc|
  {
    if doc == [] then []
    else if afterPara && doc[0] == Para("") then Thin(doc[1..], false)
    else [doc[0]] + Thin(doc[1..], doc[0].Para?)
  }

  function Empties(k: nat): (r: seq<Block>)
    ensures |r| == k
  {
    if k == 0 then [] else [Para("")] + Empties(k - 1)
  }

  lemma ThinCons(b: Block, doc: seq<Block>, afterPara: bool)
    ensures Thin([b] + doc, afterPara) ==
      if afterPara && b == Para("") then Thin(doc, false) else [b] + Thin(doc, b.Para?)
  {
    assert ([b] + doc)[1..] == doc;
  }

  lemma RegroupBlocks(a: seq<Block>, b: seq<Block>, c: seq<Block>)
    ensures a + (b + c) == a + b + c
  {
  }

  /** k empty paragraphs in a row after a paragraph become k / 2. */
  lemma {:induction false} ThinHalves(k: nat, rest: seq<Block>)
    requires rest == [] || rest[0] != Para("")
    ensures Thin(Empties(k) + rest, true) == Empties(k / 2) + Thin(rest, false)
  {
    var e := [Para("")];
    if k == 0 {
      assert Empties(k) + rest == rest;
    } else if k == 1 {
      assert Empties(k) + rest == e + rest;
      ThinCons(Para(""), rest, true);
    } else {
      var more := Empties(k - 2) + rest;
      RegroupBlocks(e, Empties(k - 1), rest);
      RegroupBlocks(e, Empties(k - 2), rest);
      ThinCons(Para(""), e + more, true);
      ThinCons(Para(""), more, false);
      ThinHalves(k - 2, rest);
      RegroupBlocks(e, Empties(k / 2 - 1), Thin(rest, false));
    }
  }

  lemma {:induction false} VisibleThin(doc: seq<Block>, afterPara: bool)
    ensures Visible(Thin(doc, afterPara)) == Visible(doc)
    decreases |doc|
  {
    if doc != [] {
      VisibleThin(doc[1..], if afterPara && doc[0] == Para("") then false else doc[0].Para?);
    }
  }

  /** Tokens without a closing paragraph tag are copied. */
  lemma {:induction false} SqueezeSkips(a: seq<Token>, b: seq<Token>)
    requires Close(P) !in a
    ensures Squeeze(a + b) == a + Squeeze(b)
  {
    if a == [] {
      assert a + b == b;
    } else {
      assert (a + b)[0] == a[0] && (a + b)[1..] == a[1..] + b;
      SqueezeSkips(a[1..], b);
      RegroupTokens([a[0]], a[1..], Squeeze(b));
      assert [a[0]] + a[1..] == a;
    }
  }

  lemma RegroupTokens(a: seq<Token>, b: seq<Token>, c: seq<Token>)
    ensures a + (b + c) == a + b + c
  {
  }

  lemma {:induction false} ItemsWithoutClose(items: seq<string>)
    ensures Close(P) !in ItemTokens(items)
  {
    if items != [] {
      ItemsWithoutClose(items[..|items| - 1]);
    }
  }

  lemma DocCons(b: Block, doc: seq<Block>)
    ensures DocTokens([b] + doc) == BlockTokens(b) + DocTokens(doc)
  {
    assert ([b] + doc)[1..] == doc;
  }

  lemma SqueezePara(x: string, tail: seq<Token>)
    ensures Squeeze(BlockTokens(Para(x)) + tail) == [Open(P)] + Glyphs(x) + Squeeze([Close(P)] + tail)
  {
    var open := [Open(P)] + Glyphs(x);
    assert BlockTokens(Para(x)) + tail == open + ([Close(P)] + tail);
    SqueezeSkips(open, [Close(P)] + tail);
  }

  lemma SqueezeList(items: seq<string>, tail: seq<Token>)
    ensures Squeeze(BlockTokens(List(items)) + tail) == BlockTokens(List(items)) + Squeeze(tail)
  {
    ItemsWithoutClose(items);
    SqueezeSkips(BlockTokens(List(items)), tail);
  }

  /** A closing tag takes an empty paragraph after it along, and nothing else. */
  lemma SqueezeAfterClose(b: Block, tail: seq<Token>)
    ensures var ts := BlockTokens(b) + tail;
      Squeeze([Close(P)] + ts) == [Close(P)] + if b == Para("") then Squeeze(tail) else Squeeze(ts)
  {
    var ts := BlockTokens(b) + tail;
    var all := [Close(P)] + ts;
    assert all[1..] == ts;
    if b == Para("") {
      assert all == [Close(P), Open(P), Close(P)] + tail;
      assert all[3..] == tail;
    } else {
      AfterOpen(b, tail);
      assert all[1] == ts[0] && all[2] == ts[1];
    }
  }

  lemma AfterOpen(b: Block, tail: seq<Token>)
    requires b != Para("")
    ensures |BlockTokens(b) + tail| >= 2
    ensures (BlockTokens(b) + tail)[0] != Open(P) || (BlockTokens(b) + tail)[1] != Close(P)
  {
    if b.Para? {
      assert BlockTokens(b)[1] == Glyph(b.text[0]);
    }
  }

  lemma SqueezeBlock(b: Block, tail: seq<Token>, thin: seq<Token>)
    requires if b.Para? then Squeeze([Close(P)] + tail) == [Close(P)] + thin else Squeeze(tail) == thin
    ensures Squeeze(BlockTokens(b) + tail) == BlockTokens(b) + thin
  {
    match b
    case Para(x) =>
      SqueezePara(x, tail);
      RegroupTokens([Open(P)] + Glyphs(x), [Close(P)], thin);
    case List(items) =>
      SqueezeList(items, tail);
  }

  /** The replacement, block by block, at the start of a page and behind a paragraph. */
  lemma {:induction false} SqueezeDoc(doc: seq<Block>)
    ensures Squeeze(DocTokens(doc)) == DocTokens(Thin(doc, false))
    ensures Squeeze([Close(P)] + DocTokens(doc)) == [Close(P)] + DocTokens(Thin(doc, true))
  {
    if doc == [] {
      assert [Close(P)] + DocTokens(doc) == [Close(P)] && [Close(P)][1..] == [];
    } else {
      var b, rest := doc[0], doc[1..];
      SqueezeDoc(rest);
      SqueezeBlock(b, DocTokens(rest), DocTokens(Thin(rest, b.Para?)));
      DocCons(b, Thin(rest, b.Para?));
      SqueezeAfterClose(b, DocTokens(rest));
    }
  }

  lemma {:induction false} RunItems(d: seq<Block>, items: seq<string>)
    ensures Run(InList(d, []), ItemTokens(items)) == Some(InList(d, items))
  {
    if items != [] {
      var front, x := items[..|items| - 1], items[|items| - 1];
      RunItems(d, front);
      RunConcat(InList(d, []), ItemTokens(front), [Open(Li)] + Glyphs(x) + [Close(Li)]);
      RunItem(InList(d, front), x);
      assert front + [x] == items;
    }
  }

  lemma RunItem(p: Place, x: string)
    requires p.InList?
    ensures Run(p, [Open(Li)] + Glyphs(x) + [Close(Li)]) == Some(InList(p.doc, p.items + [x]))
  {
    var inside := InItem(p.doc, p.items, "");
    var ts := [Open(Li)] + Glyphs(x) + [Close(Li)];
    assert ts[1..] == Glyphs(x) + [Close(Li)];
    RunConcat(inside, Glyphs(x), [Close(Li)]);
    RunGlyphs(inside, x);
    assert "" + x == x;
  }

  lemma RunThen(p: Place, q: Place, a: seq<Token>, b: seq<Token>)
    requires Run(p, a) == Some(q)
    ensures Run(p, a + b) == Run(q, b)
  {
    RunConcat(p, a, b);
  }

  lemma RunPara(d: seq<Block>, x: string)
    ensures Run(Outside(d), BlockTokens(Para(x))) == Some(Outside(d + [Para(x)]))
  {
    var inside := InPara(d, "");
    assert BlockTokens(Para(x))[1..] == Glyphs(x) + [Close(P)];
    RunGlyphs(inside, x);
    assert "" + x == x;
    RunThen(inside, InPara(d, x), Glyphs(x), [Close(P)]);
  }

  lemma RunList(d: seq<Block>, items: seq<string>)
    ensures Run(Outside(d), BlockTokens(List(items))) == Some(Outside(d + [List(items)]))
  {
    var inside := InList(d, []);
    assert BlockTokens(List(items))[1..] == ItemTokens(items) + [Close(Ul)];
    RunItems(d, items);
    RunThen(inside, InList(d, items), ItemTokens(items), [Close(Ul)]);
  }

  lemma RunBlock(d: seq<Block>, b: Block)
    ensures Run(Outside(d), BlockTokens(b)) == Some(Outside(d + [b]))
  {
    match b
    case Para(x) =>
      RunPara(d, x);
    case List(items) =>
      RunList(d, items);
  }

  /** Every document can be written down and read back. */
  lemma {:induction false} RunDoc(doc: seq<Block>)
    ensures Run(Outside([]), DocTokens(doc)) == Some(Outside(doc))
  {
    if doc != [] {
      var front, b := doc[..|doc| - 1], doc[|doc| - 1];
      assert doc == front + [b];
      DocSnoc(front, b);
      RunDoc(front);
      RunBlock(front, b);
      RunThen(Outside([]), Outside(front), DocTokens(front), BlockTokens(b));
    }
  }

  /** A squeezed page reads as the thinned document. */
  lemma SqueezeExactly(ts: seq<Token>, doc: seq<Block>)
    requires Run(Outside([]), ts) == Some(Outside(doc))
    ensures Run(Outside([]), Squeeze(ts)) == Some(Outside(Thin(doc, false)))
  {
    RunTokens(ts);
    SqueezeDoc(doc);
    RunDoc(Thin(doc, false));
  }
}
