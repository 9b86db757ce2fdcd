/**
 * The parts of the nom combinator library the tokenizer is built from, over
 * complete input (`nom::bytes::complete`), where `Incomplete` cannot arise.
 */
module Nom {
  import opened Slices

  /**
   * What a nom parser returns: `Ok((rest, value))`, a recoverable
   * `Err::Error` that lets `alt` try the next alternative and ends `many0`
   * successfully, or a fatal `Err::Failure` that both pass on unchanged.
   * Error payloads (position, `ErrorKind`) are not modelled.
   */
  datatype Outcome<I, O> = Ok(rest: I, value: O) | Error | Failure

  /** `alt` over two alternatives: the second runs only when the first failed recoverably. */
  function Or<I, O>(first: Outcome<I, O>, second: Outcome<I, O>): (r: Outcome<I, O>)
    ensures r.Ok? <==> first.Ok? || (first.Error? && second.Ok?)
    ensures r.Failure? <==> first.Failure? || (first.Error? && second.Failure?)
    ensures r.Error? <==> first.Error? && second.Error?
    ensures r.Ok? ==> r == (if first.Ok? then first else second)
  {
    if first.Error? then second else first
  }

  /** `tag(t)`: matches the literal `t` at the start of the input. */
  function Tag(t: seq<byte>, input: seq<byte>): (r: Outcome<seq<byte>, seq<byte>>)
    ensures r.Ok? <==> OccursAt(t, input, 0)
    ensures r.Ok? ==> r.value == t && input == t + r.rest
    ensures !r.Failure?
  {
    if OccursAt(t, input, 0) then Ok(input[|t|..], input[..|t|]) else Error
  }

  /**
   * `take_until(t)`: everything before the first occurrence of `t`, which is
   * left at the start of the rest; a recoverable error when `t` never occurs.
   */
  function TakeUntil(t: seq<byte>, input: seq<byte>): (r: Outcome<seq<byte>, seq<byte>>)
    ensures r.Ok? <==> exists k :: OccursAt(t, input, k)
    ensures r.Ok? ==> input == r.value + r.rest && OccursAt(t, r.rest, 0)
    ensures r.Ok? ==> forall k :: 0 <= k < |r.value| ==> !OccursAt(t, input, k)
    ensures !r.Failure?
  {
    match FindFirst(t, input, 0)
    case Some(n) =>
      assert input[n..][..|t|] == input[n..n + |t|];
      Ok(input[n..], input[..n])
    case None => Error
  }

  /**
   * `take_until(t)` on `body + t + rest`, where `t` does not occur earlier,
   * stops right before that `t`.
   */
  lemma TakeUntilFirst(t: seq<byte>, body: seq<byte>, rest: seq<byte>)
    requires forall k :: 0 <= k < |body| ==> !OccursAt(t, body + t, k)
    ensures TakeUntil(t, body + t + rest) == Ok(t + rest, body)
  {
    var input := body + t + rest;
    assert input == (body + t) + rest;
    forall k | 0 <= k < |body|
      ensures !OccursAt(t, input, k)
    {
      OccursAtPrefix(t, body + t, rest, k);
    }
    assert OccursAt(t, input, |body|) by {
      assert input[|body|..|body| + |t|] == t;
    }
    FindFirstIs(t, input, |body|);
    assert input[..|body|] == body && input[|body|..] == t + rest;
  }
}
