# Template tokenizer and `ParsedTemplate`, modelled in Dafny

The library splits template source bytes into an ordered list of numbered
blocks and later writes them back out. There are two kinds of block:

- **Tags**: `{% … %}`, `{{ … }}` and `{# … #}`. A tag's body runs up to the
  first closer of its own kind after the opener. Tags do not nest. The body
  is stored with ASCII whitespace trimmed from both ends.
- **Plain runs**: maximal runs of bytes in which none of the six two-byte
  separators `{{ {% {# }} %} #}` starts.

Each block carries the line its first byte is on. Lines are counted from 0.
The count advances by the `\n` bytes consumed, including those inside a tag's
raw body.

The tokenizer is a nom pipeline, `many0(alt((percent, curly, hash, plain)))`.
A nom result is modelled as `Outcome`, which has three cases:

- `Ok(rest, value)`.
- A recoverable `Error`: `alt` moves on to the next alternative, and `many0`
  stops successfully.
- A fatal `Failure`: both combinators pass it on.

`plain` fails fatally when a separator sits at offset 0. This is how a stray
closer, or an opener whose closer never comes, aborts the whole parse.

`ParsedTemplate::new` keeps the blocks when the parse succeeded and consumed
everything. `instantiate` writes each plain run and each trimmed tag body to
a sink, in order. It never writes the delimiters.

The project has six modules:

- `Slices`: bytes, newline counting, `trim_ascii`, and first-occurrence search.
- `Nom`: `Outcome`, `alt`, `tag` and `take_until`.
- `Parse`: the tokenizer. Functions define it, and methods implement the
  loops of `plain` and `many0` and are proved equal to those functions.
- `Lexing`: a declarative description of the templates the tokenizer
  accepts. A template is accepted when it is tiled by *lexemes*: tags with
  their raw bodies, and plain runs. Two proofs relate this description to the
  parser. Completeness: the parser finds every valid tiling. Soundness: every
  successful parse is one.
- `Template`: `ParsedTemplate`, with `New` and `Instantiate` over a byte sink.
- `Examples`: four templates from the crate's tests (`src/lib.rs:216`, `222`,
  `250`, `295`) and three malformed ones (`}} hi`, `{{ abc`, `{%}`), with
  their outcomes derived from the model.

Three details of the code worth stating plainly:

- Line numbers start at 0 (`src/lib.rs:83`).
- A tag advances the line number by the newlines of its raw body
  (`src/lib.rs:39`). That equals the newlines of the whole tag, because
  delimiters hold no newline (`Lexing.TagExtentNewlines`).
- `instantiate` writes the trimmed tag bodies (`src/lib.rs:44`, `273-277`).

## Model

| member | source | states |
|---|---|---|
| Slices.CountNewlines | src/lib.rs:39 | the newline count of a slice is at most its length, and is 0 exactly when the slice holds no `\n` |
| Slices.CountNewlinesAppend | src/lib.rs:39 | counting newlines distributes over concatenation |
| Slices.TrimAsciiStart | src/lib.rs:44 | `trim_ascii_start` returns a suffix, drops only ASCII whitespace, and leaves no leading whitespace |
| Slices.TrimAsciiEnd | src/lib.rs:44 | `trim_ascii_end` returns a prefix, drops only ASCII whitespace, and leaves no trailing whitespace |
| Slices.TrimAscii | src/lib.rs:44 | the stored tag body neither starts nor ends with ASCII whitespace |
| Slices.TrimAsciiIsSlice | src/lib.rs:44 | independent characterisation of trimming: the slice between whitespace-only borders, with non-whitespace ends, is what `trim_ascii` returns |
| Slices.TrimAsciiIdempotent | src/lib.rs:44 | trimming a trimmed body changes nothing |
| Slices.FindFirst | src/lib.rs:114 | the search behind `take_until` finds an occurrence with none before it, or reports that none exists |
| Nom.Or | src/lib.rs:80 | `alt` over two alternatives: the result is a success exactly when the first succeeds or fails recoverably and the second succeeds, a fatal failure exactly when the first fails fatally or fails recoverably and the second fails fatally, and a recoverable error only when both are; a success is the first alternative's when it succeeded |
| Nom.Tag | src/lib.rs:114 | `tag(t)` succeeds exactly when the input starts with `t`; it splits off `t`, and it never fails fatally |
| Nom.TakeUntil | src/lib.rs:114 | `take_until(t)` succeeds exactly when `t` occurs; the value holds no occurrence, and the rest starts with `t` |
| Nom.TakeUntilFirst | src/lib.rs:114 | on `body + t + rest`, where `t` does not occur earlier, `take_until` returns `body` and leaves `t + rest` |
| Parse.ParseSpecialWithSeparator | src/lib.rs:109-117 | succeeds exactly when the input starts with the opener and the closer occurs later; the input is opener + body + closer + rest; the body has no earlier closer; it never fails fatally |
| Parse.SpecialWithSeparatorMatch | src/lib.rs:109-117 | a body without a complete closer, framed by the delimiters, is matched with exactly that body and rest |
| Parse.SpecialParser | src/lib.rs:28-66 | `make_special_parser`: same success condition as above. On success the block keeps the incoming line and the trimmed body, and the line after it advances by the raw body's newlines. Errors are recoverable only |
| Parse.OtherKindsFail | src/lib.rs:71-73 | at an opener of one kind, the parsers of the other two kinds fail recoverably |
| Parse.AnySeparator | src/lib.rs:120-129 | `any_separator` succeeds exactly where one of the six separators starts, splits it off, and never fails fatally |
| Parse.PlainLen | src/lib.rs:132-158 | the plain prefix has no separator at any of its offsets, and is followed by the end or by a separator |
| Parse.PlainLenUnique | src/lib.rs:132-158 | that prefix length is the only one with these properties |
| Parse.PlainRun | src/lib.rs:132-173 | `plain`: empty input is a recoverable error; a separator at offset 0 is a fatal failure. Otherwise it returns a non-empty separator-free prefix, followed by the end or a separator; the block keeps the incoming line, and the rest's line advances by the prefix's newlines |
| Parse.ParsePlain | src/lib.rs:132-173 | the byte-by-byte loop with its running line counter returns exactly `PlainRun` |
| Parse.PlainParser | src/lib.rs:75-78 | `plain.map(..)`: a plain run becomes a `Plain` block on the run's first line; the run is non-empty, separator-free and followed by the end or a separator; empty input is a recoverable error and a separator at offset 0 a fatal one |
| Parse.BlockParser | src/lib.rs:75-80 | `alt((percent, curly, hash, plain_parser))` fails recoverably exactly on empty input, and fatally exactly where a separator starts and no tag matches; every success consumes at least one byte and keeps the incoming line |
| Parse.ParseBlock | src/lib.rs:80 | trying the four alternatives in order, with the imperative `plain`, returns exactly `BlockParser` |
| Parse.ConsumedNewlines | src/lib.rs:36-41 | a block advances the line number by the newlines of all the bytes it consumed |
| Parse.TagNewlines | src/lib.rs:36-41 | a tag advances the line number by the newlines of the whole tag |
| Parse.ParseBlocks | src/lib.rs:68-86 | `many0(block_parser)` never ends in a recoverable error; when it succeeds, the input is used up and the final line is the start line plus every newline |
| Parse.ParseTemplate | src/lib.rs:68-86 | the accumulating loop from line 0 returns exactly `ParseBlocks`: it stops with the blocks gathered so far on a recoverable error and aborts on a fatal one |
| Parse.StrayCloserAborts | src/lib.rs:137-141 | a closer where a block should start makes the whole parse fail fatally |
| Parse.UnterminatedTagAborts | src/lib.rs:137-141 | an opener whose closer never follows makes the whole parse fail fatally |
| Lexing.Coverage | src/lib.rs:68-86 | the lexemes of a valid tiling, put back together, are the input |
| Lexing.BlockLineNumber | src/lib.rs:82-85 | in a valid tiling, each lexeme lies in the input right after the bytes of the lexemes before it, and its block's line is the number of newlines before its first byte |
| Lexing.ParsedBlockLine | src/lib.rs:82-85 | block `k` of a successful parse from line 0 comes from a lexeme whose bytes lie in the input at the offset after the earlier lexemes, and its line number is the number of newlines before that offset |
| Lexing.NumberedCons | src/lib.rs:36-41 | the first lexeme's block is on the start line, and the rest are numbered from past its newlines |
| Lexing.TagExtentNewlines | src/lib.rs:36-41 | a tag's delimiters hold no newline |
| Lexing.TagStep | src/lib.rs:28-66 | a tag that ends at its first closer is exactly what the parser of its kind returns |
| Lexing.PlainStep | src/lib.rs:132-173 | a separator-free run followed by the end or a separator is exactly what the block parser returns |
| Lexing.LexemeStep | src/lib.rs:80 | a lexeme that fits the tiling rules is the block `alt` finds first |
| Lexing.StepComplete | src/lib.rs:80 | the first lexeme of a valid tiling is the first block parsed |
| Lexing.Complete | src/lib.rs:68-86 | completeness: on any input with a valid tiling, the parse succeeds with that tiling's numbered blocks |
| Lexing.TagSound | src/lib.rs:28-66 | a tag parser's match is a tag lexeme whose body holds no earlier closer |
| Lexing.StepSound | src/lib.rs:75-80 | the first block parsed is a lexeme that covers a prefix and fits the tiling rules; a plain run stops at the end or at a separator |
| Lexing.Sound | src/lib.rs:68-86 | soundness: a successful parse tiles its input validly and returns exactly that tiling's numbered blocks |
| Lexing.ParseSucceedsIffLexing | src/lib.rs:68-86 | the parse succeeds if and only if the input has a valid tiling |
| Template.ParsedTemplate.New | src/lib.rs:263-268 | `new` returns a template exactly when the parse does not fail, and then keeps the parsed blocks |
| Template.ParsedTemplate.Instantiate | src/lib.rs:270-282 | the sink receives exactly the content of every block, in order, appended to what it held |
| Template.OutputAppend | src/lib.rs:271-280 | writing the blocks of `a + b` writes those of `a`, then those of `b` |
| Template.OutputOfLexing | src/lib.rs:270-282 | the blocks of a tiling write the plain runs as they stand and the tag bodies trimmed |
| Template.RenderedShorter | src/lib.rs:270-282 | output is at least four bytes shorter per tag than the input, and is the input itself when there are no tags |
| Template.NewIffLexing | src/lib.rs:263-268 | `new` accepts exactly the templates that have a valid tiling |
| Template.NewOfLexing | src/lib.rs:263-282 | on a valid tiling, `new` keeps its blocks numbered from line 0, and instantiating writes the rendered lexemes |
| Template.NewOutputBound | src/lib.rs:263-282 | whatever `new` accepts instantiates to no more bytes than the template holds |
| Examples.HelloWorld | src/lib.rs:293-297 | `Hello {{ world }}` is accepted and instantiates to `Hello world` |
| Examples.StrayCloser | src/lib.rs:137-141 | `}} hi` is rejected by `new` |
| Examples.Unterminated | src/lib.rs:137-141 | `{{ abc` is rejected by `new` |
| Examples.OverlappingDelimiters | src/lib.rs:109-117 | `{%}` is not a tag, and is rejected by `new` |
| Examples.SeparatorInTag | src/lib.rs:222 | `{% {{ %}` is one `{%` tag whose body is `{{` |
| Examples.LoneTag | src/lib.rs:216 | a template that is one tag holds one block, on line 0, with the trimmed body |
| Examples.Newlines | src/lib.rs:250 | in `\n\nbar{{\n bar \n}}\n\nfoo` the blocks are on lines 0, 2 and 4, and the tag body is `bar` |

## Left out

- I/O: `io::Write` errors in `instantiate` are not modelled. The sink (`Template.Sink`) always accepts the bytes, so the `?` early return never happens.
- nom error payloads: the input position and `ErrorKind` carried by an error, and the remapping of that position at `src/lib.rs:48-64`, are left out. Only recoverable versus fatal is kept. `Incomplete` cannot arise with `bytes::complete`.
- `many0`'s guard against a parser that succeeds without consuming input is left out. It cannot fire here: `Parse.BlockParser` proves that every success consumes at least one byte.
- `make_special_parser` takes a tag kind (`Parse.Kind`) instead of the two separators and a constructor function. The three instances at `src/lib.rs:71-73` are the three kinds.
- `usize` overflow: line numbers are unbounded naturals, so overflow of the line counter is not modelled.
- Lifetimes and zero-copy borrowing: slices are sequences of bytes, so sharing of the input buffer is not modelled.
- The `Debug` impls (`src/lib.rs:176-206`) only format output for display.
- `benches/parser.rs` and the empty `parse_simd` module are timing code with no behaviour to model.
- The snapshot tests (`src/lib.rs:214-251`) compare against snapshot files that are not part of this model. For the inputs at `src/lib.rs:216`, `222` and `250`, `Examples` derives the blocks from the model instead.
