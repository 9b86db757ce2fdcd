/**
 * Concrete templates and what the tokenizer and `ParsedTemplate` make of
 * them. Templates are written as byte sequences, the text in a comment.
 */
module Examples {
  import opened Slices
  import opened Parse
  import opened Lexing
  import opened Template

  const SPACE: byte := 0x20
  const LF: byte := 0x0A

  /** No byte of `s` can begin or end a delimiter. */
  predicate NoDelimiterBytes(s: seq<byte>)
  {
    forall k :: 0 <= k < |s| ==> s[k] != LBRACE && s[k] != RBRACE && s[k] != PERCENT && s[k] != HASH
  }

  /** Non-empty text without delimiter bytes is a plain run, whatever follows it. */
  lemma PlainTextOf(text: seq<byte>, after: seq<byte>)
    requires |text| > 0 && NoDelimiterBytes(text)
    ensures PlainText(text, after)
  {
    forall k | 0 <= k < |text|
      ensures !SeparatorAt(text + after, k)
    {
      assert (text + after)[k] == text[k];
    }
  }

  /** A body without the first byte of the closer ends at the closer that follows it. */
  lemma FirstCloserOf(kind: Kind, raw: seq<byte>)
    requires forall k :: 0 <= k < |raw| ==> raw[k] != Closer(kind)[0]
    ensures FirstCloser(kind, raw)
  {
    forall k | 0 <= k < |raw|
      ensures !OccursAt(Closer(kind), raw + Closer(kind), k)
    {
      assert (raw + Closer(kind))[k] == raw[k];
    }
  }

  /** A lone tag is a valid lexing of its extent. */
  lemma TagAlone(kind: Kind, raw: seq<byte>)
    requires FirstCloser(kind, raw)
    ensures ValidLexing(Extent(TagLex(kind, raw)), [TagLex(kind, raw)])
  {
    var l := TagLex(kind, raw);
    ValidLexingCons(Extent(l), l, [], []);
    assert [l] + [] == [l];
  }

  // "Hello {{ world }}"
  const HELLO: seq<byte> := [0x48, 0x65, 0x6C, 0x6C, 0x6F, SPACE]
  const WORLD: seq<byte> := [0x77, 0x6F, 0x72, 0x6C, 0x64]

  /** `Hello {{ world }}` is instantiated as `Hello world`. */
  lemma HelloWorld()
    ensures var t := ParsedTemplate.New(HELLO + [LBRACE, LBRACE, SPACE] + WORLD + [SPACE, RBRACE, RBRACE]);
            t.Some? && Output(t.value.parsed) == HELLO + WORLD
  {
    var raw := [SPACE] + WORLD + [SPACE];
    var template := HELLO + [LBRACE, LBRACE, SPACE] + WORLD + [SPACE, RBRACE, RBRACE];
    var ls := [PlainLex(HELLO), TagLex(Curly, raw)];
    HelloLexing(template, raw);
    HelloRendered(raw);
    NewOfLexing(template, ls);
  }

  /** The lexemes of the template of `HelloWorld`. */
  lemma HelloLexing(template: seq<byte>, raw: seq<byte>)
    requires raw == [SPACE] + WORLD + [SPACE]
    requires template == HELLO + [LBRACE, LBRACE, SPACE] + WORLD + [SPACE, RBRACE, RBRACE]
    ensures ValidLexing(template, [PlainLex(HELLO), TagLex(Curly, raw)])
  {
    var tag := TagLex(Curly, raw);
    assert template == HELLO + Extent(tag);
    FirstCloserOf(Curly, raw);
    TagAlone(Curly, raw);
    PlainTextOf(HELLO, Extent(tag));
    ValidLexingCons(template, PlainLex(HELLO), [tag], Extent(tag));
    assert [PlainLex(HELLO)] + [tag] == [PlainLex(HELLO), tag];
  }

  /** What the lexemes of `HelloWorld` render to. */
  lemma HelloRendered(raw: seq<byte>)
    requires raw == [SPACE] + WORLD + [SPACE]
    ensures Rendered([PlainLex(HELLO), TagLex(Curly, raw)]) == HELLO + WORLD
  {
    RenderedPair(PlainLex(HELLO), TagLex(Curly, raw));
    TrimAsciiIsSlice(raw, 1, 6);
    assert raw[1..6] == WORLD;
  }

  /** Two lexemes render one after the other. */
  lemma RenderedPair(a: Lexeme, b: Lexeme)
    ensures Rendered([a, b]) == RenderedLexeme(a) + RenderedLexeme(b)
  {
    assert [a, b][1..] == [b] && [b][1..] == [];
    assert Rendered([b]) == RenderedLexeme(b) + [];
  }

  /** A closer where a block should start: `}} hi` is rejected. */
  lemma StrayCloser()
    ensures ParsedTemplate.New([RBRACE, RBRACE, SPACE, 0x68, 0x69]).None?
  {
    StrayCloserAborts(NumberedInput(0, [RBRACE, RBRACE, SPACE, 0x68, 0x69]), Curly);
  }

  /** An opener that is never closed: `{{ abc` is rejected. */
  lemma Unterminated()
    ensures ParsedTemplate.New([LBRACE, LBRACE, SPACE, 0x61, 0x62, 0x63]).None?
  {
    UnterminatedTagAborts(NumberedInput(0, [LBRACE, LBRACE, SPACE, 0x61, 0x62, 0x63]), Curly);
  }

  /** `{%}` is not a tag: the closer may not share the opener's `%`. */
  lemma OverlappingDelimiters()
    ensures ParsedTemplate.New([LBRACE, PERCENT, RBRACE]).None?
  {
    UnterminatedTagAborts(NumberedInput(0, [LBRACE, PERCENT, RBRACE]), Percent);
  }

  /** Tags do not nest: in `{% {{ %}` the opener `{{` is part of the body. */
  lemma SeparatorInTag()
    ensures var t := ParsedTemplate.New([LBRACE, PERCENT, SPACE, LBRACE, LBRACE, SPACE, PERCENT, RBRACE]);
            t.Some? && t.value.parsed == [NumberedBlock(0, Special(TagPercent([LBRACE, LBRACE])))]
  {
    var raw := [SPACE, LBRACE, LBRACE, SPACE];
    assert [LBRACE, PERCENT, SPACE, LBRACE, LBRACE, SPACE, PERCENT, RBRACE] == Extent(TagLex(Percent, raw));
    FirstCloserOf(Percent, raw);
    TrimAsciiIsSlice(raw, 1, 3);
    assert raw[1..3] == [LBRACE, LBRACE];
    LoneTag(Percent, raw);
  }

  /** A template that is one tag holds one block, on line 0, with the trimmed body. */
  lemma LoneTag(kind: Kind, raw: seq<byte>)
    requires FirstCloser(kind, raw)
    ensures var t := ParsedTemplate.New(Extent(TagLex(kind, raw)));
            t.Some? && t.value.parsed == [NumberedBlock(0, Special(MakeSpecial(kind, TrimAscii(raw))))]
  {
    var tag := TagLex(kind, raw);
    TagAlone(kind, raw);
    NumberedCons([tag], 0, CountNewlines(Extent(tag)));
    assert [tag][1..] == [];
    NewOfLexing(Extent(tag), [tag]);
  }

  // "\n\nbar{{\n bar \n}}\n\nfoo"
  const BAR: seq<byte> := [0x62, 0x61, 0x72]
  const FOO: seq<byte> := [0x66, 0x6F, 0x6F]

  /** In `\n\nbar{{\n bar \n}}\n\nfoo` the blocks start on lines 0, 2 and 4. */
  lemma Newlines()
    ensures var t := ParsedTemplate.New([LF, LF] + BAR + [LBRACE, LBRACE, LF, SPACE] + BAR + [SPACE, LF, RBRACE, RBRACE, LF, LF] + FOO);
            && t.Some?
            && t.value.parsed == [
                 NumberedBlock(0, Plain([LF, LF] + BAR)),
                 NumberedBlock(2, Special(TagCurly(BAR))),
                 NumberedBlock(4, Plain([LF, LF] + FOO))]
  {
    var first := [LF, LF] + BAR;
    var raw := [LF, SPACE] + BAR + [SPACE, LF];
    var last := [LF, LF] + FOO;
    var template := [LF, LF] + BAR + [LBRACE, LBRACE, LF, SPACE] + BAR + [SPACE, LF, RBRACE, RBRACE, LF, LF] + FOO;
    var ls := [PlainLex(first), TagLex(Curly, raw), PlainLex(last)];
    NewlinesLexing(template, first, raw, last);
    NewlinesBlocks(first, raw);
    NumberedLines(first, raw, last);
    NewOfLexing(template, ls);
  }

  /** The lexemes of the template of `Newlines`. */
  lemma NewlinesLexing(template: seq<byte>, first: seq<byte>, raw: seq<byte>, last: seq<byte>)
    requires first == [LF, LF] + BAR && raw == [LF, SPACE] + BAR + [SPACE, LF] && last == [LF, LF] + FOO
    requires template == [LF, LF] + BAR + [LBRACE, LBRACE, LF, SPACE] + BAR + [SPACE, LF, RBRACE, RBRACE, LF, LF] + FOO
    ensures ValidLexing(template, [PlainLex(first), TagLex(Curly, raw), PlainLex(last)])
  {
    var tag := TagLex(Curly, raw);
    assert template == first + (Extent(tag) + last);
    FirstCloserOf(Curly, raw);
    PlainTextOf(last, []);
    PlainTextOf(first, Extent(tag) + last);
    assert ValidLexing(last, [PlainLex(last)]);
    ValidLexingCons(Extent(tag) + last, tag, [PlainLex(last)], last);
    ValidLexingCons(template, PlainLex(first), [tag, PlainLex(last)], Extent(tag) + last);
    assert [PlainLex(first)] + [tag, PlainLex(last)] == [PlainLex(first), tag, PlainLex(last)];
  }

  /** The trimmed body and the newline counts of the lexemes of `Newlines`. */
  lemma NewlinesBlocks(first: seq<byte>, raw: seq<byte>)
    requires first == [LF, LF] + BAR && raw == [LF, SPACE] + BAR + [SPACE, LF]
    ensures TrimAscii(raw) == BAR
    ensures CountNewlines(first) == 2 && CountNewlines(raw) == 2
  {
    TrimAsciiIsSlice(raw, 2, 5);
    assert raw[2..5] == BAR;
    CountNewlinesAppend([LF, LF], BAR);
    CountNewlinesAppend([LF, SPACE] + BAR, [SPACE, LF]);
    CountNewlinesAppend([LF, SPACE], BAR);
  }

  /** The line numbers of the three blocks in `Newlines`. */
  lemma NumberedLines(first: seq<byte>, raw: seq<byte>, last: seq<byte>)
    requires CountNewlines(first) == 2 && CountNewlines(raw) == 2
    ensures var a, b, c := PlainLex(first), TagLex(Curly, raw), PlainLex(last);
            Numbered([a, b, c], 0) == [Cook(a, 0), Cook(b, 2), Cook(c, 4)]
  {
    var a, b, c := PlainLex(first), TagLex(Curly, raw), PlainLex(last);
    assert Numbered([b, c], 2) == [Cook(b, 2), Cook(c, 4)] by {
      TagExtentNewlines(Curly, raw);
      NumberedTail(b, c, 2, 4);
    }
    assert Numbered([a, b, c], 0) == [Cook(a, 0)] + Numbered([b, c], 2) by {
      NumberedCons([a, b, c], 0, 2);
      assert [a, b, c][1..] == [b, c];
    }
  }

  /** The line numbers of the last two blocks in `Newlines`. */
  lemma NumberedTail(b: Lexeme, c: Lexeme, line: nat, next: nat)
    requires next == line + CountNewlines(Extent(b))
    ensures Numbered([b, c], line) == [Cook(b, line), Cook(c, next)]
  {
    NumberedLast(c, next);
    NumberedCons([b, c], line, next);
    assert [b, c][1..] == [c];
  }

  /** A single lexeme is numbered with the line it starts on. */
  lemma NumberedLast(c: Lexeme, line: nat)
    ensures Numbered([c], line) == [Cook(c, line)]
  {
    NumberedAt([c], line, 0);
    assert [c][..0] == [];
  }
}
