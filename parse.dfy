/**
 * The template tokenizer (`mod parse`): splits template bytes into numbered
 * blocks, each a tag (`{% %}`, `{{ }}`, `{# #}`) or a run of plain text.
 */
module Parse {
  import opened Slices
  import opened Nom

  /** The input still to parse and the line number (counted from 0) it starts on. */
  datatype NumberedInput = NumberedInput(lineNumber: nat, i: seq<byte>)

  /** A tag's trimmed body, by delimiter kind. */
  datatype Special =
    | TagPercent(body: seq<byte>) // {% %}
    | TagCurly(body: seq<byte>)   // {{ }}
    | TagHash(body: seq<byte>)    // {# #}

  datatype Block = Special(special: Special) | Plain(text: seq<byte>)

  /** A block and the line its first byte is on. */
  datatype NumberedBlock = NumberedBlock(lineNumber: nat, block: Block)

  /** The three tag kinds, in the order the block parser tries them. */
  datatype Kind = Percent | Curly | Hash

  const LBRACE: byte := 0x7B  // {
  const RBRACE: byte := 0x7D  // }
  const PERCENT: byte := 0x25 // %
  const HASH: byte := 0x23    // #

  function Opener(kind: Kind): (r: seq<byte>)
    ensures |r| == 2 && r[0] == LBRACE
  {
    match kind
    case Percent => [LBRACE, PERCENT]
    case Curly => [LBRACE, LBRACE]
    case Hash => [LBRACE, HASH]
  }

  function Closer(kind: Kind): (r: seq<byte>)
    ensures |r| == 2 && r[1] == RBRACE
  {
    match kind
    case Percent => [PERCENT, RBRACE]
    case Curly => [RBRACE, RBRACE]
    case Hash => [HASH, RBRACE]
  }

  /** The `Special` constructor the parser of `kind` is built with. */
  function MakeSpecial(kind: Kind, body: seq<byte>): Special
  {
    match kind
    case Percent => TagPercent(body)
    case Curly => TagCurly(body)
    case Hash => TagHash(body)
  }

  /** `a b` is one of the six separators `{{ {% {# }} %} #}`. */
  predicate IsSeparatorPair(a: byte, b: byte)
  {
    (a == LBRACE && (b == LBRACE || b == PERCENT || b == HASH))
    || (b == RBRACE && (a == RBRACE || a == PERCENT || a == HASH))
  }

  /** A separator starts at offset `i` of `s`. */
  predicate SeparatorAt(s: seq<byte>, i: int)
  {
    0 <= i && i + 1 < |s| && IsSeparatorPair(s[i], s[i + 1])
  }

  /**
   * `parse_special_with_separator`: `leftSep`, then everything up to the
   * FIRST later occurrence of `rightSep`, then `rightSep`; the value is the
   * untrimmed body between them. Delimiters do not nest.
   */
  function ParseSpecialWithSeparator(leftSep: seq<byte>, rightSep: seq<byte>, input: seq<byte>)
    : (r: Outcome<seq<byte>, seq<byte>>)
    ensures r.Ok? <==>
              OccursAt(leftSep, input, 0) && exists k :: OccursAt(rightSep, input[|leftSep|..], k)
    ensures r.Ok? ==> input == leftSep + r.value + rightSep + r.rest
    ensures r.Ok? ==> forall k :: 0 <= k < |r.value| ==> !OccursAt(rightSep, r.value + rightSep, k)
    ensures !r.Failure?
  {
    var left := Tag(leftSep, input);
    if !left.Ok? then left
    else
      assert left.rest == input[|leftSep|..];
      var body := TakeUntil(rightSep, left.rest);
      if !body.Ok? then body
      else
        FirstOccurrence(rightSep, body.value, body.rest);
        var right := Tag(rightSep, body.rest);
        Reassemble(input, leftSep, body.value, rightSep, right.rest, left.rest, body.rest);
        Ok(right.rest, body.value)
  }

  /** Three successive splits of `input` put it back together. */
  lemma Reassemble<T>(input: seq<T>, a: seq<T>, b: seq<T>, c: seq<T>, d: seq<T>, bcd: seq<T>, cd: seq<T>)
    requires input == a + bcd && bcd == b + cd && cd == c + d
    ensures input == a + b + c + d
  {
    assert a + (b + (c + d)) == a + b + c + d;
  }

  /** `take_until` stops at the first occurrence: none lies inside the body followed by the separator. */
  lemma FirstOccurrence(t: seq<byte>, value: seq<byte>, rest: seq<byte>)
    requires OccursAt(t, rest, 0)
    requires forall k :: 0 <= k < |value| ==> !OccursAt(t, value + rest, k)
    ensures forall k :: 0 <= k < |value| ==> !OccursAt(t, value + t, k)
  {
    assert value + rest == (value + t) + rest[|t|..] by {
      assert rest == t + rest[|t|..];
    }
    forall k | 0 <= k < |value| {
      OccursAtPrefix(t, value + t, rest[|t|..], k);
    }
  }

  /**
   * `make_special_parser`: the tag parser of one kind. The block keeps the
   * incoming line number and the trimmed body; the line number after it
   * advances by the newlines of the raw body.
   */
  function SpecialParser(kind: Kind, ni: NumberedInput): (r: Outcome<NumberedInput, NumberedBlock>)
    ensures r.Ok? <==>
              OccursAt(Opener(kind), ni.i, 0) && exists k :: OccursAt(Closer(kind), ni.i[2..], k)
    ensures r.Ok? ==>
              4 <= |ni.i| - |r.rest.i| &&
              var raw := ni.i[2..|ni.i| - |r.rest.i| - 2];
              && ni.i == Opener(kind) + raw + Closer(kind) + r.rest.i
              && (forall k :: 0 <= k < |raw| ==> !OccursAt(Closer(kind), raw + Closer(kind), k))
              && r.value == NumberedBlock(ni.lineNumber, Special(MakeSpecial(kind, TrimAscii(raw))))
              && r.rest.lineNumber == ni.lineNumber + CountNewlines(raw)
    ensures !r.Failure?
  {
    var m := ParseSpecialWithSeparator(Opener(kind), Closer(kind), ni.i);
    if !m.Ok? then (if m.Error? then Error else Failure)
    else
      TagBody(kind, ni.i, m.value, m.rest);
      Ok(NumberedInput(ni.lineNumber + CountNewlines(m.value), m.rest),
         NumberedBlock(ni.lineNumber, Special(MakeSpecial(kind, TrimAscii(m.value)))))
  }

  /** `make_special_parser` once `parse_special_with_separator` has matched `body`. */
  lemma SpecialParserOk(kind: Kind, ni: NumberedInput, body: seq<byte>, rest: seq<byte>)
    requires var m := ParseSpecialWithSeparator(Opener(kind), Closer(kind), ni.i);
             m.Ok? && m.rest == rest && m.value == body
    ensures var r := SpecialParser(kind, ni);
            && r.Ok?
            && r.rest == NumberedInput(ni.lineNumber + CountNewlines(body), rest)
            && r.value == NumberedBlock(ni.lineNumber, Special(MakeSpecial(kind, TrimAscii(body))))
  {
  }

  /** The body between a tag's delimiters, as offsets into the input. */
  lemma TagBody(kind: Kind, input: seq<byte>, body: seq<byte>, rest: seq<byte>)
    requires input == Opener(kind) + body + Closer(kind) + rest
    ensures 4 <= |input| - |rest| && input[2..|input| - |rest| - 2] == body
    ensures input[2..] == body + Closer(kind) + rest
  {
  }

  /** A tag whose body holds no complete closer is matched up to that closer. */
  lemma SpecialWithSeparatorMatch(leftSep: seq<byte>, rightSep: seq<byte>, body: seq<byte>, rest: seq<byte>)
    requires forall k :: 0 <= k < |body| ==> !OccursAt(rightSep, body + rightSep, k)
    ensures var m := ParseSpecialWithSeparator(leftSep, rightSep, leftSep + body + rightSep + rest);
            m.Ok? && m.rest == rest && m.value == body
  {
    var input := leftSep + body + rightSep + rest;
    assert OccursAt(leftSep, input, 0) by {
      assert input[..|leftSep|] == leftSep;
    }
    assert input[|leftSep|..] == body + rightSep + rest;
    TakeUntilFirst(rightSep, body, rest);
    assert OccursAt(rightSep, rightSep + rest, 0) by {
      assert (rightSep + rest)[..|rightSep|] == rightSep;
    }
    assert (rightSep + rest)[|rightSep|..] == rest;
  }

  /** `any_separator`: one of `{{ {% {# }} %} #}`, tried in that order. */
  function AnySeparator(input: seq<byte>): (r: Outcome<seq<byte>, seq<byte>>)
    ensures r.Ok? <==> SeparatorAt(input, 0)
    ensures r.Ok? ==> |r.value| == 2 && input == r.value + r.rest
    ensures !r.Failure?
  {
    Or(Tag(Opener(Curly), input),
    Or(Tag(Opener(Percent), input),
    Or(Tag(Opener(Hash), input),
    Or(Tag(Closer(Curly), input),
    Or(Tag(Closer(Percent), input),
       Tag(Closer(Hash), input))))))
  }

  /** The length of the longest prefix of `s` at no offset of which a separator starts. */
  function PlainLen(s: seq<byte>): (n: nat)
    ensures n <= |s|
    ensures forall k :: 0 <= k < n ==> !SeparatorAt(s, k)
    ensures n == |s| || SeparatorAt(s, n)
  {
    if s == [] || SeparatorAt(s, 0) then 0
    else
      var n := PlainLen(s[1..]);
      assert forall k :: 1 <= k <= 1 + n ==> SeparatorAt(s[1..], k - 1) == SeparatorAt(s, k);
      1 + n
  }

  /** The plain prefix ends exactly at the first separator, or at the end of the input. */
  lemma PlainLenUnique(s: seq<byte>, n: nat)
    requires n <= |s|
    requires forall k :: 0 <= k < n ==> !SeparatorAt(s, k)
    requires n == |s| || SeparatorAt(s, n)
    ensures PlainLen(s) == n
  {
  }

  /** The outcome of `plain`: the plain-text run at the start of the input. */
  function PlainRun(input: NumberedInput): (r: Outcome<NumberedInput, NumberedInput>)
    ensures r.Error? <==> input.i == []
    ensures r.Failure? <==> SeparatorAt(input.i, 0)
    ensures r.Ok? ==> 0 < |r.value.i| && input.i == r.value.i + r.rest.i
    ensures r.Ok? ==> forall k :: 0 <= k < |r.value.i| ==> !SeparatorAt(input.i, k)
    ensures r.Ok? ==> forall k :: 0 <= k < |r.value.i| ==> !SeparatorAt(r.value.i, k)
    ensures r.Ok? ==> r.rest.i == [] || SeparatorAt(r.rest.i, 0)
    ensures r.Ok? ==> r.value.lineNumber == input.lineNumber
    ensures r.Ok? ==> r.rest.lineNumber == input.lineNumber + CountNewlines(r.value.i)
  {
    if SeparatorAt(input.i, 0) then Failure
    else if input.i == [] then Error
    else
      var n := PlainLen(input.i);
      assert forall k :: 0 <= k < n ==> SeparatorAt(input.i[..n], k) ==> SeparatorAt(input.i, k);
      Ok(NumberedInput(input.lineNumber + CountNewlines(input.i[..n]), input.i[n..]),
         NumberedInput(input.lineNumber, input.i[..n]))
  }

  /**
   * `plain`: scans byte by byte for a separator, counting newlines as it
   * goes. A separator at offset 0 is a fatal failure; empty input is a
   * recoverable error.
   */
  method ParsePlain(input: NumberedInput) returns (r: Outcome<NumberedInput, NumberedInput>)
    ensures r == PlainRun(input)
  {
    var lineNumber := input.lineNumber;
    for i := 0 to |input.i|
      invariant forall k :: 0 <= k < i ==> !SeparatorAt(input.i, k)
      invariant lineNumber == input.lineNumber + CountNewlines(input.i[..i])
    {
      if AnySeparator(input.i[i..]).Ok? {
        if i == 0 {
          return Failure;
        }
        PlainRunEnds(input, i, lineNumber);
        return Ok(NumberedInput(lineNumber, input.i[i..]), NumberedInput(input.lineNumber, input.i[..i]));
      }
      CountNewlinesSnoc(input.i, i);
      if input.i[i] == NEWLINE {
        lineNumber := lineNumber + 1;
      }
    }
    if |input.i| == 0 {
      return Error;
    }
    PlainRunEnds(input, |input.i|, lineNumber);
    return Ok(NumberedInput(lineNumber, input.i[|input.i|..]), NumberedInput(input.lineNumber, input.i[..|input.i|]));
  }

  /** The run found by `plain` when the first separator (or the end) is at `n`. */
  lemma PlainRunEnds(input: NumberedInput, n: nat, line: nat)
    requires 0 < n <= |input.i|
    requires forall k :: 0 <= k < n ==> !SeparatorAt(input.i, k)
    requires n == |input.i| || SeparatorAt(input.i, n)
    requires line == input.lineNumber + CountNewlines(input.i[..n])
    ensures PlainRun(input) == Ok(NumberedInput(line, input.i[n..]), NumberedInput(input.lineNumber, input.i[..n]))
  {
    PlainLenUnique(input.i, n);
  }

  /** `plain_parser`: `plain` with its run turned into a `Plain` block. */
  function PlainParser(ni: NumberedInput): (r: Outcome<NumberedInput, NumberedBlock>)
    ensures r.Error? <==> ni.i == []
    ensures r.Failure? <==> SeparatorAt(ni.i, 0)
    ensures r.Ok? ==> r.value.lineNumber == ni.lineNumber && r.value.block.Plain?
    ensures r.Ok? ==> 0 < |r.value.block.text| && ni.i == r.value.block.text + r.rest.i
    ensures r.Ok? ==> forall k :: 0 <= k < |r.value.block.text| ==> !SeparatorAt(ni.i, k)
    ensures r.Ok? ==> r.rest.i == [] || SeparatorAt(r.rest.i, 0)
    ensures r.Ok? ==> r.rest.lineNumber == ni.lineNumber + CountNewlines(r.value.block.text)
  {
    match PlainRun(ni)
    case Ok(rest, x) => Ok(rest, NumberedBlock(x.lineNumber, Plain(x.i)))
    case Error => Error
    case Failure => Failure
  }

  /**
   * `block_parser`, `alt((percent, curly, hash, plain_parser))`. It fails
   * recoverably only on empty input, fatally only where a separator starts
   * and no tag matches, and every success consumes at least one byte.
   */
  function BlockParser(ni: NumberedInput): (r: Outcome<NumberedInput, NumberedBlock>)
    ensures r.Error? <==> ni.i == []
    ensures r.Failure? <==>
              && SeparatorAt(ni.i, 0)
              && SpecialParser(Percent, ni).Error?
              && SpecialParser(Curly, ni).Error?
              && SpecialParser(Hash, ni).Error?
    ensures r.Ok? ==> |r.rest.i| < |ni.i| && ni.i[|ni.i| - |r.rest.i|..] == r.rest.i
    ensures r.Ok? ==> r.value.lineNumber == ni.lineNumber
  {
    Or(SpecialParser(Percent, ni),
    Or(SpecialParser(Curly, ni),
    Or(SpecialParser(Hash, ni),
       PlainParser(ni))))
  }

  /** The block parser as the tokenizer runs it, with the imperative `plain`. */
  method ParseBlock(ni: NumberedInput) returns (r: Outcome<NumberedInput, NumberedBlock>)
    ensures r == BlockParser(ni)
  {
    r := SpecialParser(Percent, ni);
    if r.Error? {
      r := SpecialParser(Curly, ni);
    }
    if r.Error? {
      r := SpecialParser(Hash, ni);
    }
    if r.Error? {
      var p := ParsePlain(ni);
      match p
      case Ok(rest, x) => r := Ok(rest, NumberedBlock(x.lineNumber, Plain(x.i)));
      case Error => r := Error;
      case Failure => r := Failure;
    }
  }

  /**
   * `many0(block_parser)` from `ni`: blocks until the block parser fails
   * recoverably; a fatal failure aborts the whole parse. Success therefore
   * always means the input was used up.
   */
  function ParseBlocks(ni: NumberedInput): (r: Outcome<NumberedInput, seq<NumberedBlock>>)
    decreases |ni.i|
    ensures !r.Error?
    ensures r.Ok? ==> r.rest.i == [] && r.rest.lineNumber == ni.lineNumber + CountNewlines(ni.i)
  {
    match BlockParser(ni)
    case Error => Ok(ni, [])
    case Failure => Failure
    case Ok(rest, b) =>
      match ParseBlocks(rest)
      case Ok(end, bs) =>
        var consumed := ni.i[..|ni.i| - |rest.i|];
        assert ni.i == consumed + rest.i;
        CountNewlinesAppend(consumed, rest.i);
        ConsumedNewlines(ni, rest, b);
        Ok(end, [b] + bs)
      case Error => Error
      case Failure => Failure
  }

  /** A block advances the line number by the newlines of the bytes it consumes. */
  lemma ConsumedNewlines(ni: NumberedInput, rest: NumberedInput, b: NumberedBlock)
    requires BlockParser(ni) == Ok(rest, b)
    ensures |rest.i| <= |ni.i|
    ensures rest.lineNumber == ni.lineNumber + CountNewlines(ni.i[..|ni.i| - |rest.i|])
  {
    var consumed := ni.i[..|ni.i| - |rest.i|];
    if SpecialParser(Percent, ni).Ok? {
      TagNewlines(Percent, ni);
    } else if SpecialParser(Curly, ni).Ok? {
      TagNewlines(Curly, ni);
    } else if SpecialParser(Hash, ni).Ok? {
      TagNewlines(Hash, ni);
    }
  }

  /** The newlines of a whole tag are those of its raw body: delimiters hold none. */
  lemma TagNewlines(kind: Kind, ni: NumberedInput)
    requires SpecialParser(kind, ni).Ok?
    ensures var rest := SpecialParser(kind, ni).rest;
            rest.lineNumber == ni.lineNumber + CountNewlines(ni.i[..|ni.i| - |rest.i|])
  {
    var rest := SpecialParser(kind, ni).rest;
    var raw := ni.i[2..|ni.i| - |rest.i| - 2];
    var consumed := ni.i[..|ni.i| - |rest.i|];
    assert consumed == Opener(kind) + raw + Closer(kind);
    CountNewlinesAppend(Opener(kind) + raw, Closer(kind));
    CountNewlinesAppend(Opener(kind), raw);
  }

  /** The result of the accumulating loop: blocks gathered so far in front of the rest. */
  function Prepend(acc: seq<NumberedBlock>, o: Outcome<NumberedInput, seq<NumberedBlock>>)
    : Outcome<NumberedInput, seq<NumberedBlock>>
  {
    match o
    case Ok(rest, bs) => Ok(rest, acc + bs)
    case Error => Error
    case Failure => Failure
  }

  /** `parse_template`: `many0` over the block parser, from line 0. */
  method ParseTemplate(input: seq<byte>) returns (r: Outcome<NumberedInput, seq<NumberedBlock>>)
    ensures r == ParseBlocks(NumberedInput(0, input))
  {
    var acc: seq<NumberedBlock> := [];
    var cur := NumberedInput(0, input);
    PrependNothing(ParseBlocks(cur));
    while true
      invariant ParseBlocks(NumberedInput(0, input)) == Prepend(acc, ParseBlocks(cur))
      decreases |cur.i|
    {
      var b := ParseBlock(cur);
      match b
      case Error =>
        ParseBlocksStop(cur);
        assert acc + [] == acc;
        return Ok(cur, acc);
      case Failure =>
        ParseBlocksStop(cur);
        return Failure;
      case Ok(rest, blk) =>
        ParseBlocksStep(cur);
        PrependPrepend(acc, [blk], ParseBlocks(rest));
        acc := acc + [blk];
        cur := rest;
    }
  }

  /** One turn of `many0`: a parsed block goes in front of the blocks parsed after it. */
  lemma ParseBlocksStep(ni: NumberedInput)
    requires BlockParser(ni).Ok?
    ensures ParseBlocks(ni) == Prepend([BlockParser(ni).value], ParseBlocks(BlockParser(ni).rest))
  {
  }

  /** `many0` puts the first block in front of the blocks parsed after it. */
  lemma ParseBlocksCons(ni: NumberedInput, rest: NumberedInput, b: NumberedBlock, bs: seq<NumberedBlock>)
    requires BlockParser(ni).Ok? && BlockParser(ni).rest == rest && BlockParser(ni).value == b
    requires ParseBlocks(rest).Ok? && ParseBlocks(rest).value == bs
    ensures var r := ParseBlocks(ni);
            r.Ok? && r.value == [b] + bs
  {
  }

  /** `many0` stops where the block parser fails: successfully if recoverably, fatally otherwise. */
  lemma ParseBlocksStop(ni: NumberedInput)
    requires !BlockParser(ni).Ok?
    ensures BlockParser(ni).Error? ==> ParseBlocks(ni) == Ok(ni, [])
    ensures BlockParser(ni).Failure? ==> ParseBlocks(ni) == Failure
  {
  }

  lemma PrependNothing(o: Outcome<NumberedInput, seq<NumberedBlock>>)
    ensures Prepend([], o) == o
  {
    if o.Ok? {
      assert [] + o.value == o.value;
    }
  }

  lemma PrependPrepend(a: seq<NumberedBlock>, b: seq<NumberedBlock>, o: Outcome<NumberedInput, seq<NumberedBlock>>)
    ensures Prepend(a, Prepend(b, o)) == Prepend(a + b, o)
  {
    if o.Ok? {
      assert a + (b + o.value) == (a + b) + o.value;
    }
  }

  /** Only the parser of the input's own opener can match. */
  lemma {:induction false} OtherKindsFail(kind: Kind, other: Kind, ni: NumberedInput)
    requires |ni.i| >= 2 && ni.i[..2] == Opener(kind) && other != kind
    ensures SpecialParser(other, ni).Error?
  {
    assert ni.i[1] == ni.i[..2][1] == Opener(kind)[1] != Opener(other)[1];
    assert ni.i[0..2] != Opener(other);
  }

  /** A closing delimiter where a block should start aborts the whole parse. */
  lemma StrayCloserAborts(ni: NumberedInput, kind: Kind)
    requires OccursAt(Closer(kind), ni.i, 0)
    ensures ParseBlocks(ni).Failure?
  {
    assert ni.i[0] == ni.i[..2][0] == Closer(kind)[0] != LBRACE;
    assert SeparatorAt(ni.i, 0) by {
      assert ni.i[1] == ni.i[..2][1] == RBRACE;
    }
    assert BlockParser(ni).Failure?;
  }

  /** An opening delimiter whose closer never follows aborts the whole parse. */
  lemma UnterminatedTagAborts(ni: NumberedInput, kind: Kind)
    requires OccursAt(Opener(kind), ni.i, 0)
    requires forall k :: !OccursAt(Closer(kind), ni.i[2..], k)
    ensures ParseBlocks(ni).Failure?
  {
    assert ni.i[..2] == Opener(kind);
    forall other | other != kind
      ensures SpecialParser(other, ni).Error?
    {
      OtherKindsFail(kind, other, ni);
    }
    assert SpecialParser(kind, ni).Error?;
    assert SeparatorAt(ni.i, 0) by {
      assert ni.i[0] == ni.i[..2][0] == LBRACE;
      assert ni.i[1] == ni.i[..2][1];
    }
    assert BlockParser(ni).Failure?;
  }
}
