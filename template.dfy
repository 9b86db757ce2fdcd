/**
 * `ParsedTemplate`: a template parsed once, then instantiated by writing
 * its blocks to a sink. Plain blocks are written as they stand and tags as
 * their trimmed bodies; delimiters are never written.
 */
module Template {
  import opened Slices
  import opened Nom
  import opened Parse
  import opened Lexing

  /** The bytes `instantiate` writes for one block. */
  function Content(b: Block): seq<byte>
  {
    match b
    case Plain(text) => text
    case Special(s) => s.body
  }

  /** Everything `instantiate` writes for `blocks`, in order. */
  function Output(blocks: seq<NumberedBlock>): seq<byte>
  {
    if blocks == [] then [] else Content(blocks[0].block) + Output(blocks[1..])
  }

  /** Writing the blocks of `a + b` writes those of `a`, then those of `b`. */
  lemma {:induction false} OutputAppend(a: seq<NumberedBlock>, b: seq<NumberedBlock>)
    ensures Output(a + b) == Output(a) + Output(b)
  {
    if a == [] {
      assert a + b == b;
    } else {
      assert (a + b)[1..] == a[1..] + b;
      OutputAppend(a[1..], b);
    }
  }

  /** Writing one more block appends its content. */
  lemma OutputSnoc(blocks: seq<NumberedBlock>, n: nat)
    requires n < |blocks|
    ensures Output(blocks[..n + 1]) == Output(blocks[..n]) + Content(blocks[n].block)
  {
    assert blocks[..n + 1] == blocks[..n] + [blocks[n]];
    OutputAppend(blocks[..n], [blocks[n]]);
    assert [blocks[n]][1..] == [];
  }

  /** A byte sink (`impl Write`); writes never fail in this model. */
  class Sink {
    var written: seq<byte>

    constructor ()
      ensures written == []
    {
      written := [];
    }

    /** `write_all`: appends all of `x`. */
    method WriteAll(x: seq<byte>)
      modifies this
      ensures written == old(written) + x
    {
      written := written + x;
    }
  }

  datatype ParsedTemplate = ParsedTemplate(parsed: seq<NumberedBlock>)
  {
    /**
     * `ParsedTemplate::new`: the blocks of a successful parse that left
     * nothing over. Since a successful parse always uses up its input, the
     * template is kept exactly when the parse does not fail.
     */
    static function New(template: seq<byte>): (r: Option<ParsedTemplate>)
      ensures r.Some? <==> ParseBlocks(NumberedInput(0, template)).Ok?
      ensures r.Some? ==> r.value.parsed == ParseBlocks(NumberedInput(0, template)).value
    {
      match ParseBlocks(NumberedInput(0, template))
      case Ok(rest, parsed) => if |rest.i| == 0 then Some(ParsedTemplate(parsed)) else None
      case Error => None
      case Failure => None
    }

    /** `instantiate`: writes each block's content to `wr`, in order. */
    method Instantiate(wr: Sink)
      modifies wr
      ensures wr.written == old(wr.written) + Output(parsed)
    {
      for n := 0 to |parsed|
        invariant wr.written == old(wr.written) + Output(parsed[..n])
      {
        var b := parsed[n].block;
        match b {
          case Plain(x) =>
            wr.WriteAll(x);
          case Special(s) =>
            match s {
              case TagPercent(x) => wr.WriteAll(x);
              case TagCurly(x) => wr.WriteAll(x);
              case TagHash(x) => wr.WriteAll(x);
            }
        }
        OutputSnoc(parsed, n);
      }
      assert parsed[..|parsed|] == parsed;
    }
  }

  // ---------------------------------------------------------------------
  // What a template renders to, in terms of its lexemes.

  /** The bytes a lexeme renders to: plain text as is, a tag's body trimmed. */
  function RenderedLexeme(l: Lexeme): seq<byte>
  {
    match l
    case PlainLex(text) => text
    case TagLex(_, raw) => TrimAscii(raw)
  }

  function Rendered(ls: seq<Lexeme>): seq<byte>
  {
    if ls == [] then [] else RenderedLexeme(ls[0]) + Rendered(ls[1..])
  }

  /** The number of tags among `ls`. */
  function TagCount(ls: seq<Lexeme>): nat
  {
    if ls == [] then 0 else (if ls[0].TagLex? then 1 else 0) + TagCount(ls[1..])
  }

  /** Writing the blocks of a lexing renders its lexemes, whatever line it starts on. */
  lemma {:induction false} OutputOfLexing(ls: seq<Lexeme>, line: nat)
    ensures Output(Numbered(ls, line)) == Rendered(ls)
  {
    if ls != [] {
      var next := line + CountNewlines(Extent(ls[0]));
      NumberedCons(ls, line, next);
      OutputOfLexing(ls[1..], next);
      assert Content(BlockOf(ls[0])) == RenderedLexeme(ls[0]);
    }
  }

  /**
   * Rendering drops each tag's two delimiters and its surrounding
   * whitespace: the output is shorter than the input by at least four bytes
   * per tag, and is the input itself when there are no tags.
   */
  lemma {:induction false} RenderedShorter(ls: seq<Lexeme>)
    ensures |Rendered(ls)| + 4 * TagCount(ls) <= |Concat(ls)|
    ensures TagCount(ls) == 0 ==> Rendered(ls) == Concat(ls)
  {
    if ls != [] {
      RenderedShorter(ls[1..]);
      match ls[0]
      case TagLex(kind, raw) =>
        assert |Extent(ls[0])| == |raw| + 4;
        assert |TrimAscii(raw)| <= |raw|;
      case PlainLex(_) =>
    }
  }

  /** `new` accepts exactly the templates that have a valid lexing. */
  lemma NewIffLexing(template: seq<byte>)
    ensures ParsedTemplate.New(template).Some? <==> exists ls :: ValidLexing(template, ls)
  {
    ParseSucceedsIffLexing(template, 0);
  }

  /**
   * On a template with a valid lexing, `new` keeps that lexing's blocks,
   * numbered from line 0, and instantiating it writes the rendered lexemes.
   */
  lemma {:induction false} NewOfLexing(template: seq<byte>, ls: seq<Lexeme>)
    requires ValidLexing(template, ls)
    ensures var r := ParsedTemplate.New(template);
            && r.Some?
            && r.value.parsed == Numbered(ls, 0)
            && Output(r.value.parsed) == Rendered(ls)
            && |Output(r.value.parsed)| + 4 * TagCount(ls) <= |template|
  {
    Complete(template, ls, 0);
    OutputOfLexing(ls, 0);
    RenderedShorter(ls);
    Coverage(template, ls);
  }

  /** Instantiating whatever `new` returns writes no more bytes than the template holds. */
  lemma NewOutputBound(template: seq<byte>)
    requires ParsedTemplate.New(template).Some?
    ensures |Output(ParsedTemplate.New(template).value.parsed)| <= |template|
  {
    NewIffLexing(template);
    var ls :| ValidLexing(template, ls);
    NewOfLexing(template, ls);
  }
}
