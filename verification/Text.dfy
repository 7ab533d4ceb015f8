/** Result types and the character-level helpers shared by the parsing modules. */
module Text {

  datatype Option<+T> = None | Some(value: T)

  datatype Result<+T, +E> = Ok(value: T) | Err(error: E) {
    predicate IsFailure() { Err? }

    function PropagateFailure<U>(): Result<U, E>
      requires Err?
    {
      Err(error)
    }

    function Extract(): T
      requires Ok?
    {
      value
    }
  }

  /** The six characters that C's `isspace` accepts in the default locale. */
  predicate IsSpace(c: char) {
    c == ' ' || 9 as char <= c <= 13 as char
  }

  lemma SpaceCodes(c: char)
    ensures IsSpace(c) <==> c as int in {9, 10, 11, 12, 13, 32}
  {
  }

  predicate AllSpace(s: string) { forall i :: 0 <= i < |s| ==> IsSpace(s[i]) }

  /** `s` without its trailing whitespace; at most `max` characters go when `max` is not -1. */
  function TrimmedTrailing(s: string, max: int := -1): (r: string)
    ensures r <= s
    ensures max >= 0 ==> |s| - |r| <= max
    ensures max == -1 && r != [] ==> !IsSpace(r[|r| - 1])
  {
    if s != [] && IsSpace(s[|s| - 1]) && (max == -1 || max > 0)
    then TrimmedTrailing(s[..|s| - 1], if max == -1 then -1 else max - 1)
    else s
  }

  /** `s` without its leading whitespace; at most `max` characters go when `max` is not -1. */
  function TrimmedLeading(s: string, max: int := -1): string {
    if s != [] && IsSpace(s[0]) && (max == -1 || max > 0)
    then TrimmedLeading(s[1..], if max == -1 then -1 else max - 1)
    else s
  }

  /** Only whitespace goes, it goes from the end, and as much of it as `max` allows. */
  predicate TrimsEnd(s: string, max: int, r: string) {
    && r <= s
    && (forall i :: |r| <= i < |s| ==> IsSpace(s[i]))
    && (max >= 0 ==> |s| - |r| <= max)
    && (r != "" && IsSpace(r[|r| - 1]) ==> max != -1 && |s| - |r| >= max)
  }

  /** The same from the start. */
  predicate TrimsStart(s: string, max: int, r: string) {
    && |r| <= |s| && r == s[|s| - |r|..]
    && (forall i :: 0 <= i < |s| - |r| ==> IsSpace(s[i]))
    && (max >= 0 ==> |s| - |r| <= max)
    && (r != "" && IsSpace(r[0]) ==> max != -1 && |s| - |r| >= max)
  }

  lemma {:induction false} TrimmedTrailingTrims(s: string, max: int)
    ensures TrimsEnd(s, max, TrimmedTrailing(s, max))
    decreases |s|
  {
    if s != "" && IsSpace(s[|s| - 1]) && (max == -1 || max > 0) {
      TrimmedTrailingTrims(s[..|s| - 1], if max == -1 then -1 else max - 1);
    }
  }

  lemma {:induction false} TrimmedLeadingTrims(s: string, max: int)
    ensures TrimsStart(s, max, TrimmedLeading(s, max))
    decreases |s|
  {
    if s != "" && IsSpace(s[0]) && (max == -1 || max > 0) {
      var r := TrimmedLeading(s, max);
      TrimmedLeadingTrims(s[1..], if max == -1 then -1 else max - 1);
      assert s[1..][|s[1..]| - |r|..] == s[|s| - |r|..];
      forall i | 0 <= i < |s| - |r| ensures IsSpace(s[i]) {
        if i > 0 { assert s[i] == s[1..][i - 1]; }
      }
    }
  }

  method TrimTrailingSpace(s: string, max: int) returns (r: string)
    ensures r == TrimmedTrailing(s, max) && TrimsEnd(s, max, r)
  {
    TrimmedTrailingTrims(s, max);
    r := s;
    var count := 0;
    while r != [] && IsSpace(r[|r| - 1])
      invariant 0 <= count && (max >= 0 ==> count <= max) && (max < -1 ==> count == 0)
      invariant TrimmedTrailing(s, max) == TrimmedTrailing(r, if max == -1 then -1 else max - count)
    {
      if max != -1 && count >= max {
        break;
      }
      r := r[..|r| - 1];
      count := count + 1;
    }
  }

  method TrimLeadingSpace(s: string, max: int) returns (r: string)
    ensures r == TrimmedLeading(s, max) && TrimsStart(s, max, r)
  {
    TrimmedLeadingTrims(s, max);
    r := s;
    var count := 0;
    while r != [] && IsSpace(r[0])
      invariant 0 <= count && (max >= 0 ==> count <= max) && (max < -1 ==> count == 0)
      invariant TrimmedLeading(s, max) == TrimmedLeading(r, if max == -1 then -1 else max - count)
    {
      if max != -1 && count >= max {
        break;
      }
      r := r[1..];
      count := count + 1;
    }
  }

  /** A common front does not matter for being a prefix. */
  lemma PrefixAfter(h: string, a: string, b: string)
    ensures h + a <= h + b <==> a <= b
  {
    if h + a <= h + b {
      assert a == (h + a)[|h|..] && b == (h + b)[|h|..];
      assert b[..|a|] == (h + b)[..|h + a|][|h|..];
    }
  }
}
