/**
 * A declarative description of what the tokenizer accepts, independent of
 * the parser's control flow: a template is a sequence of lexemes (tags with
 * their delimiters and raw bodies, and plain runs) that tile the input. The
 * parser succeeds exactly on the inputs that have such a tiling, and then
 * returns its blocks with the line numbers of their first bytes.
 */
module Lexing {
  import opened Slices
  import opened Parse

  /** A block as it stands in the input: a tag with its untrimmed body, or plain bytes. */
  datatype Lexeme = TagLex(kind: Kind, raw: seq<byte>) | PlainLex(text: seq<byte>)

  /** The input bytes a lexeme covers. */
  function Extent(l: Lexeme): seq<byte>
  {
    match l
    case TagLex(kind, raw) => Opener(kind) + raw + Closer(kind)
    case PlainLex(text) => text
  }

  function Concat(ls: seq<Lexeme>): seq<byte>
  {
    if ls == [] then [] else Extent(ls[0]) + Concat(ls[1..])
  }

  /** The tag's closer is the first one after its opener: the body holds no complete closer. */
  predicate FirstCloser(kind: Kind, raw: seq<byte>)
  {
    forall k :: 0 <= k < |raw| ==> !OccursAt(Closer(kind), raw + Closer(kind), k)
  }

  /** `text`, followed by `after`, is non-empty and no separator starts inside it. */
  predicate PlainText(text: seq<byte>, after: seq<byte>)
  {
    |text| > 0 && forall k :: 0 <= k < |text| ==> !SeparatorAt(text + after, k)
  }

  /**
   * `ls` tiles `s`: every tag ends at its first closer, every plain run is
   * free of separators, and a plain run is followed by a tag or by the end.
   */
  predicate ValidLexing(s: seq<byte>, ls: seq<Lexeme>)
    decreases |ls|
  {
    if ls == [] then s == []
    else
      var e := Extent(ls[0]);
      && |e| <= |s| && s[..|e|] == e
      && (match ls[0]
          case TagLex(kind, raw) => FirstCloser(kind, raw)
          case PlainLex(text) => PlainText(text, s[|e|..]) && (|ls| > 1 ==> ls[1].TagLex?))
      && ValidLexing(s[|e|..], ls[1..])
  }

  /** The block the parser makes of a lexeme: a tag's body is trimmed, plain bytes are kept. */
  function BlockOf(l: Lexeme): Block
  {
    match l
    case TagLex(kind, raw) => Special(MakeSpecial(kind, TrimAscii(raw)))
    case PlainLex(text) => Plain(text)
  }

  /** The block the parser makes of a lexeme found on line `line`. */
  function Cook(l: Lexeme, line: nat): NumberedBlock
  {
    NumberedBlock(line, BlockOf(l))
  }

  /** The number of newlines in the bytes of `ls`. */
  function NewlinesIn(ls: seq<Lexeme>): nat
  {
    if ls == [] then 0 else CountNewlines(Extent(ls[0])) + NewlinesIn(ls[1..])
  }

  /**
   * The blocks of `ls` when the first starts on line `line`: block `k` is on
   * `line` plus the number of newlines in the lexemes before it.
   */
  function Numbered(ls: seq<Lexeme>, line: nat): (r: seq<NumberedBlock>)
    ensures |r| == |ls|
  {
    seq(|ls|, k requires 0 <= k < |ls| => Cook(ls[k], line + NewlinesIn(ls[..k])))
  }

  /** Coverage: the lexemes of a valid lexing, put back together, are the input. */
  lemma {:induction false} Coverage(s: seq<byte>, ls: seq<Lexeme>)
    requires ValidLexing(s, ls)
    ensures Concat(ls) == s
  {
    if ls != [] {
      var e := Extent(ls[0]);
      Coverage(s[|e|..], ls[1..]);
      assert s == s[..|e|] + s[|e|..];
    }
  }

  lemma {:induction false} ConcatAppend(a: seq<Lexeme>, b: seq<Lexeme>)
    ensures Concat(a + b) == Concat(a) + Concat(b)
  {
    if a == [] {
      assert a + b == b;
    } else {
      assert (a + b)[1..] == a[1..] + b;
      ConcatAppend(a[1..], b);
    }
  }

  lemma NumberedAt(ls: seq<Lexeme>, line: nat, k: nat)
    requires k < |ls|
    ensures Numbered(ls, line)[k] == Cook(ls[k], line + NewlinesIn(ls[..k]))
  {
  }

  /** Numbering the tail from past the first lexeme's newlines gives each later block the same line. */
  lemma {:induction false} LineShift(ls: seq<Lexeme>, tail: seq<Lexeme>, line: nat, next: nat, k: nat, j: nat)
    requires 0 < k < |ls| && tail == ls[1..] && j == k - 1
    requires next == line + CountNewlines(Extent(ls[0]))
    ensures line + NewlinesIn(ls[..k]) == next + NewlinesIn(tail[..j])
  {
    assert ls[..k][0] == ls[0];
    assert ls[..k][1..] == tail[..j];
  }

  /**
   * A solver hint only: it states congruence for `Cook` on arguments written
   * differently, which keeps the proofs that use it cheap.
   */
  lemma CookSame(l: Lexeme, l': Lexeme, line: nat, line': nat)
    requires l == l' && line == line'
    ensures Cook(l, line) == Cook(l', line')
  {
  }

  /** The first lexeme's block, then the rest starting past its newlines. */
  lemma {:induction false} NumberedCons(ls: seq<Lexeme>, line: nat, next: nat)
    requires ls != [] && next == line + CountNewlines(Extent(ls[0]))
    ensures Numbered(ls, line) == [Cook(ls[0], line)] + Numbered(ls[1..], next)
  {
    var tail := ls[1..];
    var lhs := Numbered(ls, line);
    var rhs := [Cook(ls[0], line)] + Numbered(tail, next);
    forall k | 0 <= k < |lhs|
      ensures lhs[k] == rhs[k]
    {
      if k == 0 {
        NumberedHead(ls, line);
      } else {
        NumberedShift(ls, tail, line, next, k);
        assert rhs[k] == Numbered(tail, next)[k - 1];
      }
    }
  }

  /** The first lexeme is numbered with the starting line. */
  lemma NumberedHead(ls: seq<Lexeme>, line: nat)
    requires ls != []
    ensures Numbered(ls, line)[0] == Cook(ls[0], line)
  {
    NumberedAt(ls, line, 0);
    assert ls[..0] == [];
    CookSame(ls[0], ls[0], line + NewlinesIn(ls[..0]), line);
  }

  /** A later lexeme is numbered as in the tail, which starts after the first lexeme's newlines. */
  lemma NumberedShift(ls: seq<Lexeme>, tail: seq<Lexeme>, line: nat, next: nat, k: nat)
    requires 0 < k < |ls| && tail == ls[1..]
    requires next == line + CountNewlines(Extent(ls[0]))
    ensures Numbered(ls, line)[k] == Numbered(tail, next)[k - 1]
  {
    NumberedAt(ls, line, k);
    NumberedAt(tail, next, k - 1);
    LineShift(ls, tail, line, next, k, k - 1);
    CookSame(ls[k], tail[k - 1], line + NewlinesIn(ls[..k]), next + NewlinesIn(tail[..k - 1]));
  }

  /**
   * In a valid lexing of `s`, lexeme `k` starts at offset `|Concat(ls[..k])|`,
   * and its block's line number is the number of newlines before that offset.
   */
  lemma {:induction false} BlockLineNumber(s: seq<byte>, ls: seq<Lexeme>, k: nat)
    requires ValidLexing(s, ls) && k < |ls|
    ensures var start := |Concat(ls[..k])|;
            && start + |Extent(ls[k])| <= |s|
            && s[start..start + |Extent(ls[k])|] == Extent(ls[k])
            && |Numbered(ls, 0)| == |ls|
            && Numbered(ls, 0)[k] == Cook(ls[k], CountNewlines(s[..start]))
  {
    Coverage(s, ls);
    ConcatLineNumber(s, ls, k);
  }

  /** `BlockLineNumber` for any lexemes whose bytes make up `s`. */
  lemma {:induction false} ConcatLineNumber(s: seq<byte>, ls: seq<Lexeme>, k: nat)
    requires Concat(ls) == s && k < |ls|
    ensures var start := |Concat(ls[..k])|;
            && start + |Extent(ls[k])| <= |s|
            && s[start..start + |Extent(ls[k])|] == Extent(ls[k])
            && |Numbered(ls, 0)| == |ls|
            && Numbered(ls, 0)[k] == Cook(ls[k], CountNewlines(s[..start]))
  {
    ConcatSplit(ls, k);
    var before := Concat(ls[..k]);
    var e := Extent(ls[k]);
    assert s == before + e + Concat(ls[k + 1..]);
    assert s[..|before|] == before;
    assert s[|before|..|before| + |e|] == e;
    NumberedAt(ls, 0, k);
    NewlinesInConcat(ls[..k]);
    CookSame(ls[k], ls[k], 0 + NewlinesIn(ls[..k]), CountNewlines(s[..|before|]));
  }

  /** `NewlinesIn` counts the newlines of the lexemes' bytes. */
  lemma {:induction false} NewlinesInConcat(ls: seq<Lexeme>)
    ensures NewlinesIn(ls) == CountNewlines(Concat(ls))
  {
    if ls != [] {
      NewlinesInConcat(ls[1..]);
      CountNewlinesAppend(Extent(ls[0]), Concat(ls[1..]));
    }
  }

  /** The bytes of `ls` are those of the lexemes before `k`, of lexeme `k`, and of those after. */
  lemma {:induction false} ConcatSplit(ls: seq<Lexeme>, k: nat)
    requires k < |ls|
    ensures Concat(ls) == Concat(ls[..k]) + Extent(ls[k]) + Concat(ls[k + 1..])
  {
    assert ls == ls[..k] + ([ls[k]] + ls[k + 1..]);
    ConcatAppend(ls[..k], [ls[k]] + ls[k + 1..]);
    assert ([ls[k]] + ls[k + 1..])[1..] == ls[k + 1..];
  }

  // ---------------------------------------------------------------------
  // Completeness: the parser finds every valid lexing.

  /** Whatever starts with a tag opener starts with a separator. */
  lemma {:induction false} OpenerIsSeparator(kind: Kind, s: seq<byte>)
    requires |s| >= 2 && s[..2] == Opener(kind)
    ensures SeparatorAt(s, 0)
  {
    assert s[0] == s[..2][0] && s[1] == s[..2][1];
  }

  /** A tag that ends at its first closer is what the parser of its kind returns. */
  lemma {:induction false} TagStep(kind: Kind, raw: seq<byte>, rest: seq<byte>, line: nat)
    requires FirstCloser(kind, raw)
    ensures var r := SpecialParser(kind, NumberedInput(line, Opener(kind) + raw + Closer(kind) + rest));
            && r.Ok?
            && r.rest == NumberedInput(line + CountNewlines(raw), rest)
            && r.value == Cook(TagLex(kind, raw), line)
  {
    var input := Opener(kind) + raw + Closer(kind) + rest;
    SpecialWithSeparatorMatch(Opener(kind), Closer(kind), raw, rest);
    SpecialParserOk(kind, NumberedInput(line, input), raw, rest);
  }

  /** A plain run followed by the end or a separator is what `plain_parser` returns. */
  lemma {:induction false} PlainStep(text: seq<byte>, rest: seq<byte>, line: nat)
    requires PlainText(text, rest)
    requires rest == [] || SeparatorAt(rest, 0)
    ensures var r := BlockParser(NumberedInput(line, text + rest));
            && r.Ok?
            && r.rest == NumberedInput(line + CountNewlines(text), rest)
            && r.value == Cook(PlainLex(text), line)
  {
    var s := text + rest;
    var ni := NumberedInput(line, s);
    assert !SeparatorAt(s, 0);
    forall kind: Kind
      ensures SpecialParser(kind, ni).Error?
    {
      if OccursAt(Opener(kind), s, 0) {
        OpenerIsSeparator(kind, s);
      }
    }
    assert rest != [] ==> SeparatorAt(s, |text|);
    PlainLenUnique(s, |text|);
    assert s[..|text|] == text && s[|text|..] == rest;
  }

  /** A lexeme that fits the rules, followed by `rest`, is the block the parser finds first. */
  lemma {:induction false} LexemeStep(l: Lexeme, rest: seq<byte>, line: nat)
    requires l.TagLex? ==> FirstCloser(l.kind, l.raw)
    requires l.PlainLex? ==> PlainText(l.text, rest) && (rest == [] || SeparatorAt(rest, 0))
    ensures var r := BlockParser(NumberedInput(line, Extent(l) + rest));
            && r.Ok?
            && r.rest == NumberedInput(line + CountNewlines(Extent(l)), rest)
            && r.value == Cook(l, line)
  {
    match l
    case TagLex(kind, raw) =>
      TagStep(kind, raw, rest, line);
      var ni := NumberedInput(line, Extent(l) + rest);
      assert ni.i[..2] == Opener(kind);
      forall other: Kind | other != kind
        ensures SpecialParser(other, ni).Error?
      {
        OtherKindsFail(kind, other, ni);
      }
      TagExtentNewlines(kind, raw);
    case PlainLex(text) =>
      PlainStep(text, rest, line);
  }

  /** The first lexeme of a valid lexing is the block the parser finds first. */
  lemma {:induction false} StepComplete(s: seq<byte>, ls: seq<Lexeme>, line: nat)
    requires ValidLexing(s, ls) && ls != []
    ensures var e := Extent(ls[0]);
            var r := BlockParser(NumberedInput(line, s));
            && r.Ok?
            && r.rest == NumberedInput(line + CountNewlines(e), s[|e|..])
            && r.value == Cook(ls[0], line)
  {
    var e := Extent(ls[0]);
    var rest := s[|e|..];
    assert s == e + rest;
    if ls[0].PlainLex? && rest != [] {
      assert |ls| > 1;
      var next := Extent(ls[1]);
      assert rest[..|next|] == next;
      assert rest[..2] == Opener(ls[1].kind);
      OpenerIsSeparator(ls[1].kind, rest);
    }
    LexemeStep(ls[0], rest, line);
  }

  /** A tag's delimiters hold no newline. */
  lemma {:induction false} TagExtentNewlines(kind: Kind, raw: seq<byte>)
    ensures CountNewlines(Extent(TagLex(kind, raw))) == CountNewlines(raw)
  {
    CountNewlinesAppend(Opener(kind) + raw, Closer(kind));
    CountNewlinesAppend(Opener(kind), raw);
  }

  /** Completeness: on an input with a valid lexing, the parser returns exactly its blocks. */
  lemma {:induction false} Complete(s: seq<byte>, ls: seq<Lexeme>, line: nat)
    requires ValidLexing(s, ls)
    ensures var r := ParseBlocks(NumberedInput(line, s));
            r.Ok? && r.value == Numbered(ls, line)
  {
    var ni := NumberedInput(line, s);
    if ls == [] {
      ParseBlocksStop(ni);
    } else {
      var e := Extent(ls[0]);
      StepComplete(s, ls, line);
      var rest := NumberedInput(line + CountNewlines(e), s[|e|..]);
      Complete(rest.i, ls[1..], rest.lineNumber);
      ParseBlocksCons(ni, rest, Cook(ls[0], line), Numbered(ls[1..], rest.lineNumber));
      NumberedCons(ls, line, rest.lineNumber);
    }
  }

  // ---------------------------------------------------------------------
  // Soundness: what the parser accepts has a valid lexing.

  /** The untrimmed body a successful tag parser consumed. */
  function RawBody(kind: Kind, ni: NumberedInput): seq<byte>
    requires SpecialParser(kind, ni).Ok?
  {
    ni.i[2..|ni.i| - |SpecialParser(kind, ni).rest.i| - 2]
  }

  /** The lexeme behind the block the parser found first. */
  function StepLexeme(ni: NumberedInput): Lexeme
    requires BlockParser(ni).Ok?
  {
    if SpecialParser(Percent, ni).Ok? then TagLex(Percent, RawBody(Percent, ni))
    else if SpecialParser(Curly, ni).Ok? then TagLex(Curly, RawBody(Curly, ni))
    else if SpecialParser(Hash, ni).Ok? then TagLex(Hash, RawBody(Hash, ni))
    else PlainLex(PlainRun(ni).value.i)
  }

  /** A tag parser's match, read as a lexeme. */
  lemma {:induction false} TagSound(kind: Kind, ni: NumberedInput)
    requires SpecialParser(kind, ni).Ok?
    ensures var r := SpecialParser(kind, ni);
            var l := TagLex(kind, RawBody(kind, ni));
            && ni.i == Extent(l) + r.rest.i
            && r.value == Cook(l, ni.lineNumber)
            && r.rest.lineNumber == ni.lineNumber + CountNewlines(Extent(l))
            && FirstCloser(kind, l.raw)
  {
    TagExtentNewlines(kind, RawBody(kind, ni));
  }

  /**
   * The first step of the parser, read as a lexeme: it covers a prefix of
   * the input, makes the block, advances the line number by its newlines,
   * and satisfies the lexing rules; a plain run stops at the end or at a
   * separator.
   */
  lemma {:induction false} StepSound(ni: NumberedInput)
    requires BlockParser(ni).Ok?
    ensures var r := BlockParser(ni);
            var l := StepLexeme(ni);
            && ni.i == Extent(l) + r.rest.i
            && r.value == Cook(l, ni.lineNumber)
            && r.rest.lineNumber == ni.lineNumber + CountNewlines(Extent(l))
            && (l.TagLex? ==> FirstCloser(l.kind, l.raw))
            && (l.PlainLex? ==> PlainText(l.text, r.rest.i) && (r.rest.i == [] || SeparatorAt(r.rest.i, 0)))
            && (l.PlainLex? ==> !SeparatorAt(ni.i, 0))
  {
    if SpecialParser(Percent, ni).Ok? {
      TagSound(Percent, ni);
    } else if SpecialParser(Curly, ni).Ok? {
      TagSound(Curly, ni);
    } else if SpecialParser(Hash, ni).Ok? {
      TagSound(Hash, ni);
    }
  }

  /** The lexemes behind a successful parse from `ni`. */
  ghost function Lexemes(ni: NumberedInput): seq<Lexeme>
    requires ParseBlocks(ni).Ok?
    decreases |ni.i|
  {
    if BlockParser(ni).Error? then []
    else [StepLexeme(ni)] + Lexemes(BlockParser(ni).rest)
  }

  /** One turn of `Lexemes`: the first step's lexeme, then the lexemes from where it stopped. */
  lemma LexemesCons(ni: NumberedInput, rest: NumberedInput)
    requires ParseBlocks(ni).Ok? && BlockParser(ni).Ok? && BlockParser(ni).rest == rest
    ensures |rest.i| < |ni.i| && ParseBlocks(rest).Ok?
    ensures Lexemes(ni) == [StepLexeme(ni)] + Lexemes(rest)
  {
  }

  /** A lexing extended at the front by a lexeme that fits the rules. */
  lemma ValidLexingCons(s: seq<byte>, l: Lexeme, tail: seq<Lexeme>, after: seq<byte>)
    requires s == Extent(l) + after
    requires l.TagLex? ==> FirstCloser(l.kind, l.raw)
    requires l.PlainLex? ==> PlainText(l.text, after) && (tail != [] ==> tail[0].TagLex?)
    requires ValidLexing(after, tail)
    ensures ValidLexing(s, [l] + tail)
  {
    var ls := [l] + tail;
    assert ls[0] == l && ls[1..] == tail;
    assert s[..|Extent(l)|] == Extent(l) && s[|Extent(l)|..] == after;
  }

  /** After a plain run the parser, if it goes on at all, goes on with a tag. */
  lemma AfterPlain(rest: NumberedInput)
    requires ParseBlocks(rest).Ok? && rest.i != [] && SeparatorAt(rest.i, 0)
    ensures Lexemes(rest) != [] && Lexemes(rest)[0].TagLex?
  {
    var r := BlockParser(rest);
    LexemesCons(rest, r.rest);
    StepSound(rest);
  }

  /**
   * Soundness: a successful parse tiles its input with a valid lexing and
   * returns exactly that lexing's blocks.
   */
  lemma {:induction false} Sound(ni: NumberedInput)
    requires ParseBlocks(ni).Ok?
    decreases |ni.i|
    ensures ValidLexing(ni.i, Lexemes(ni))
    ensures ParseBlocks(ni).value == Numbered(Lexemes(ni), ni.lineNumber)
  {
    if BlockParser(ni).Error? {
      ParseBlocksStop(ni);
    } else {
      var rest := BlockParser(ni).rest;
      LexemesCons(ni, rest);
      Sound(rest);
      StepSound(ni);
      var l := StepLexeme(ni);
      var tail := Lexemes(rest);
      if l.PlainLex? && rest.i != [] {
        AfterPlain(rest);
      }
      ValidLexingCons(ni.i, l, tail, rest.i);
      ParseBlocksCons(ni, rest, Cook(l, ni.lineNumber), Numbered(tail, rest.lineNumber));
      NumberedCons([l] + tail, ni.lineNumber, rest.lineNumber);
    }
  }

  /** The bytes of `l` occur in `s` at offset `start`. */
  ghost predicate LexemeAt(s: seq<byte>, start: nat, l: Lexeme)
  {
    start + |Extent(l)| <= |s| && s[start..start + |Extent(l)|] == Extent(l)
  }

  /**
   * Block `k` of a successful parse from line 0 comes from the lexeme at
   * offset `start` of the input, and its line number is the number of
   * newlines before that offset.
   */
  lemma {:induction false} ParsedBlockLine(s: seq<byte>, k: nat)
    requires ParseBlocks(NumberedInput(0, s)).Ok?
    requires k < |ParseBlocks(NumberedInput(0, s)).value|
    ensures var ls := Lexemes(NumberedInput(0, s));
            var v := ParseBlocks(NumberedInput(0, s)).value;
            k < |ls| &&
            var start := |Concat(ls[..k])|;
            && LexemeAt(s, start, ls[k])
            && v[k].lineNumber == CountNewlines(s[..start])
            && v[k].block == BlockOf(ls[k])
  {
    var ni := NumberedInput(0, s);
    var ls, v := Lexemes(ni), ParseBlocks(ni).value;
    assert ValidLexing(s, ls) && v == Numbered(ls, 0) by {
      Sound(ni);
    }
    ParsedBlockLineOf(s, ls, v, k);
  }

  /** `ParsedBlockLine` with the lexemes and the blocks passed in. */
  lemma ParsedBlockLineOf(s: seq<byte>, ls: seq<Lexeme>, v: seq<NumberedBlock>, k: nat)
    requires ValidLexing(s, ls) && v == Numbered(ls, 0) && k < |v|
    ensures k < |ls| &&
            var start := |Concat(ls[..k])|;
            && LexemeAt(s, start, ls[k])
            && v[k].lineNumber == CountNewlines(s[..start])
            && v[k].block == BlockOf(ls[k])
  {
    BlockLineNumber(s, ls, k);
  }

  /** The parser succeeds exactly on the inputs that have a valid lexing. */
  lemma {:induction false} ParseSucceedsIffLexing(s: seq<byte>, line: nat)
    ensures ParseBlocks(NumberedInput(line, s)).Ok? <==> exists ls :: ValidLexing(s, ls)
  {
    var ni := NumberedInput(line, s);
    if ParseBlocks(ni).Ok? {
      Sound(ni);
      var w := Lexemes(ni);
      assert ValidLexing(s, w);
      assert exists ls :: ValidLexing(s, ls);
    }
    if exists ls :: ValidLexing(s, ls) {
      var ls :| ValidLexing(s, ls);
      Complete(s, ls, line);
      assert ParseBlocks(ni).Ok?;
    }
  }
}
