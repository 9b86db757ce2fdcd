/** Byte slices: the operations on `&[u8]` the template tokenizer relies on. */
module Slices {

  /** One byte of template source (`u8`). */
  type byte = b: int | 0 <= b < 256

  datatype Option<T> = None | Some(value: T)

  const NEWLINE: byte := 0x0A

  /** The number of `\n` bytes in `s` (`s.iter().filter(|&&x| x == b'\n').count()`). */
  function CountNewlines(s: seq<byte>): (n: nat)
    ensures n <= |s|
    ensures n == 0 <==> forall k :: 0 <= k < |s| ==> s[k] != NEWLINE
  {
    if s == [] then 0
    else (if s[0] == NEWLINE then 1 else 0) + CountNewlines(s[1..])
  }

  /** Counting newlines distributes over concatenation. */
  lemma {:induction false} CountNewlinesAppend(a: seq<byte>, b: seq<byte>)
    ensures CountNewlines(a + b) == CountNewlines(a) + CountNewlines(b)
  {
    if a == [] {
      assert a + b == b;
    } else {
      assert (a + b)[1..] == a[1..] + b;
      CountNewlinesAppend(a[1..], b);
    }
  }

  /** One more byte adds one to the count exactly when it is a newline. */
  lemma CountNewlinesSnoc(s: seq<byte>, i: nat)
    requires i < |s|
    ensures CountNewlines(s[..i + 1]) == CountNewlines(s[..i]) + (if s[i] == NEWLINE then 1 else 0)
  {
    assert s[..i + 1] == s[..i] + [s[i]];
    CountNewlinesAppend(s[..i], [s[i]]);
  }

  /** `u8::is_ascii_whitespace`: tab, line feed, form feed, carriage return and space. */
  predicate IsAsciiWhitespace(b: byte)
  {
    b == 0x09 || b == 0x0A || b == 0x0C || b == 0x0D || b == 0x20
  }

  /** `<[u8]>::trim_ascii_start`: drops the leading ASCII whitespace. */
  function TrimAsciiStart(s: seq<byte>): (r: seq<byte>)
    ensures |r| <= |s| && r == s[|s| - |r|..]
    ensures forall k :: 0 <= k < |s| - |r| ==> IsAsciiWhitespace(s[k])
    ensures r == [] || !IsAsciiWhitespace(r[0])
  {
    if s != [] && IsAsciiWhitespace(s[0]) then TrimAsciiStart(s[1..]) else s
  }

  /** `<[u8]>::trim_ascii_end`: drops the trailing ASCII whitespace. */
  function TrimAsciiEnd(s: seq<byte>): (r: seq<byte>)
    ensures |r| <= |s| && r == s[..|r|]
    ensures forall k :: |r| <= k < |s| ==> IsAsciiWhitespace(s[k])
    ensures r == [] || !IsAsciiWhitespace(r[|r| - 1])
  {
    if s != [] && IsAsciiWhitespace(s[|s| - 1]) then TrimAsciiEnd(s[..|s| - 1]) else s
  }

  /** `<[u8]>::trim_ascii`: the start is trimmed first, then the end. */
  function TrimAscii(s: seq<byte>): (r: seq<byte>)
    ensures r == [] || (!IsAsciiWhitespace(r[0]) && !IsAsciiWhitespace(r[|r| - 1]))
  {
    TrimAsciiEnd(TrimAsciiStart(s))
  }

  /**
   * Independent description of trimming: whenever `s[lo..hi]` is bordered by
   * whitespace only and has no whitespace at either end, it is the trimmed slice.
   */
  lemma TrimAsciiIsSlice(s: seq<byte>, lo: nat, hi: nat)
    requires lo <= hi <= |s|
    requires forall k :: 0 <= k < lo ==> IsAsciiWhitespace(s[k])
    requires forall k :: hi <= k < |s| ==> IsAsciiWhitespace(s[k])
    requires lo < hi ==> !IsAsciiWhitespace(s[lo]) && !IsAsciiWhitespace(s[hi - 1])
    ensures TrimAscii(s) == s[lo..hi]
  {
    var t := TrimAsciiStart(s);
    if lo == hi {
      assert forall k :: 0 <= k < |s| ==> IsAsciiWhitespace(s[k]);
      assert t == [];
    } else {
      assert t == s[lo..];
      var e := TrimAsciiEnd(t);
      assert e == s[lo..hi];
    }
  }

  /** Trimming twice is trimming once. */
  lemma TrimAsciiIdempotent(s: seq<byte>)
    ensures TrimAscii(TrimAscii(s)) == TrimAscii(s)
  {
    var r := TrimAscii(s);
    TrimAsciiIsSlice(r, 0, |r|);
    assert r[0..|r|] == r;
  }

  /** `tok` occurs in `s` starting at offset `i`. */
  predicate OccursAt(tok: seq<byte>, s: seq<byte>, i: int)
  {
    0 <= i && i + |tok| <= |s| && s[i..i + |tok|] == tok
  }

  /** Where `tok` fits inside `a`, it occurs in `a + b` exactly where it occurs in `a`. */
  lemma OccursAtPrefix(tok: seq<byte>, a: seq<byte>, b: seq<byte>, k: int)
    requires 0 <= k && k + |tok| <= |a|
    ensures OccursAt(tok, a + b, k) <==> OccursAt(tok, a, k)
  {
    assert (a + b)[k..k + |tok|] == a[k..k + |tok|];
  }

  /** The first offset at or after `from` where `tok` occurs in `s`: the search behind `take_until`. */
  function FindFirst(tok: seq<byte>, s: seq<byte>, from: nat): (r: Option<nat>)
    decreases |s| - from
    ensures r.Some? ==> from <= r.value && OccursAt(tok, s, r.value)
    ensures r.Some? ==> forall k :: from <= k < r.value ==> !OccursAt(tok, s, k)
    ensures r.None? ==> forall k :: from <= k ==> !OccursAt(tok, s, k)
  {
    if from + |tok| > |s| then None
    else if OccursAt(tok, s, from) then Some(from)
    else FindFirst(tok, s, from + 1)
  }

  /** An occurrence with none before it is the one the search finds. */
  lemma FindFirstIs(tok: seq<byte>, s: seq<byte>, n: nat)
    requires OccursAt(tok, s, n)
    requires forall k :: 0 <= k < n ==> !OccursAt(tok, s, k)
    ensures FindFirst(tok, s, 0) == Some(n)
  {
  }
}
