/**
 The parser combinators of common/peg-parser.cpp that the grammars of this project use, in
 the lenient mode in which model output is parsed: a parser that runs out of input asks for
 more instead of failing. Parsers work on the text still to be read; the nodes they create
 are given in visiting order.
 */
module Peg {
  import opened Text
  import opened ToolCallMapper

  datatype Parser =
    | Eps
    | Never
    | Literal(literal: string)
    | Space
    | Until(delimiter: string)
    | Chars(chars: string, negated: bool, least: nat, most: int)
    | Seq(first: Parser, second: Parser)
    | Choice(option: Parser, others: Parser)
    | Repeat(child: Parser)
    | Maybe(child: Parser)
    | End
    | Peek(child: Parser)
    | Not(child: Parser)
    | Atomic(child: Parser)
    | Node(tag: Tag, child: Parser)

  /** `rest` is the text after the parsed part. */
  datatype Outcome = Fail | Success(nodes: seq<Event>, rest: string) | NeedMore(nodes: seq<Event>, rest: string)

  function SkipSpace(s: string): (r: string)
    ensures |r| <= |s|
  {
    if s != "" && IsSpace(s[0]) then SkipSpace(s[1..]) else s
  }

  /** What is left where the delimiter starts, or where the end of the text may start it. */
  function UntilRest(s: string, delimiter: string): (r: Option<string>)
    ensures r.Some? ==> |r.value| <= |s|
  {
    if s == "" then None
    else if delimiter != "" && delimiter <= s then Some(s)
    else if s <= delimiter then Some(s)
    else UntilRest(s[1..], delimiter)
  }

  /** How many characters of a class stand at the start, counting at most `most` unless that is negative. */
  function Matching(s: string, chars: string, negated: bool, most: int): (n: nat)
    ensures n <= |s| && (most >= 0 ==> n <= most)
  {
    if s == "" || most == 0 || (s[0] in chars) == negated then 0
    else 1 + Matching(s[1..], chars, negated, most - 1)
  }

  function Consumed(s: string, rest: string): string {
    if |rest| <= |s| then s[..|s| - |rest|] else ""
  }

  function WithNodes(nodes: seq<Event>, r: Outcome): (o: Outcome)
    ensures o.Fail? <==> r.Fail?
    ensures o.Success? <==> r.Success?
    ensures !o.Fail? ==> o.rest == r.rest && o.nodes == nodes + r.nodes
  {
    match r
    case Fail => Fail
    case Success(more, rest) => Success(nodes + more, rest)
    case NeedMore(more, rest) => NeedMore(nodes + more, rest)
  }

  function Parse(p: Parser, s: string): (r: Outcome)
    ensures !r.Fail? ==> |r.rest| <= |s|
    decreases |s|, p
  {
    match p
    case Eps => Success([], s)
    case Never => Fail
    case Literal(l) =>
      if l <= s then Success([], s[|l|..]) else if s <= l then NeedMore([], "") else Fail
    case Space => Success([], SkipSpace(s))
    case Until(d) =>
      var r := UntilRest(s, d);
      if r.Some? then Success([], r.value) else NeedMore([], "")
    case Chars(chars, negated, least, most) =>
      var n := Matching(s, chars, negated, most);
      if n >= least then Success([], s[n..]) else if n == |s| then NeedMore([], "") else Fail
    case Seq(first, second) =>
      var r := Parse(first, s);
      if r.Success? then WithNodes(r.nodes, Parse(second, r.rest)) else r
    case Choice(option, others) =>
      var r := Parse(option, s);
      if r.Fail? then Parse(others, s) else r
    case Repeat(child) =>
      if s == "" then Success([], s) else
      var r := Parse(child, s);
      if r.Success? then
        if |r.rest| == |s| then Success([], s) else WithNodes(r.nodes, Parse(p, r.rest))
      else if r.NeedMore? then r
      else Success([], s)
    case Maybe(child) =>
      if s == "" then Success([], s) else
      var r := Parse(child, s);
      if r.NeedMore? || (r.Success? && |r.rest| < |s|) then r else Success([], s)
    case End => if s == "" then Success([], s) else Fail
    case Peek(child) =>
      var r := Parse(child, s);
      if r.Success? then Success([], s) else if r.NeedMore? then NeedMore([], s) else Fail
    case Not(child) =>
      var r := Parse(child, s);
      if r.Success? then Fail else if r.NeedMore? then NeedMore([], s) else Success([], s)
    case Atomic(child) =>
      var r := Parse(child, s);
      if r.NeedMore? then NeedMore([], r.rest) else r
    case Node(tag, child) =>
      var r := Parse(child, s);
      if r.Fail? then r else WithNodes([Event(tag, Consumed(s, r.rest))], r)
  }

  // ---------------------------------------------------------------- single combinators

  lemma LiteralParses(l: string, rest: string)
    ensures Parse(Literal(l), l + rest) == Success([], rest)
  {
  }

  /** At the first character in which they differ a literal fails. */
  predicate Diverges(l: string, s: string) { !(l <= s) && !(s <= l) }

  predicate StartsWithSpace(s: string) { s != "" && IsSpace(s[0]) }

  lemma {:induction false} SpaceParses(spaces: string, rest: string)
    requires AllSpace(spaces) && !StartsWithSpace(rest)
    ensures Parse(Space, spaces + rest) == Success([], rest)
    decreases |spaces|
  {
    if spaces == "" {
      assert spaces + rest == rest;
    } else {
      assert (spaces + rest)[1..] == spaces[1..] + rest;
      SpaceParses(spaces[1..], rest);
    }
  }

  lemma NodeParses(tag: Tag, child: Parser, text: string, nodes: seq<Event>, rest: string)
    requires Parse(child, text + rest) == Success(nodes, rest)
    ensures Parse(Node(tag, child), text + rest) == Success([Event(tag, text)] + nodes, rest)
    ensures Parse(Atomic(Node(tag, child)), text + rest) == Success([Event(tag, text)] + nodes, rest)
  {
    assert Consumed(text + rest, rest) == text;
  }

  lemma RepeatOnce(child: Parser, s: string)
    requires var r := Parse(child, s); r.Success? && |r.rest| < |s|
    ensures var r := Parse(child, s);
            Parse(Repeat(child), s) == WithNodes(r.nodes, Parse(Repeat(child), r.rest))
  {
  }

  lemma SeqParses(first: Parser, second: Parser, s: string, mid: string, rest: string, a: seq<Event>, b: seq<Event>)
    requires Parse(first, s) == Success(a, mid) && Parse(second, mid) == Success(b, rest)
    ensures Parse(Seq(first, second), s) == Success(a + b, rest)
  {
  }

  // ---------------------------------------------------------------- until

  /** The delimiter starts nowhere in `value`, even when it follows right after it. */
  predicate Clean(value: string, delimiter: string) {
    forall i :: 0 <= i < |value| ==> !(delimiter <= (value + delimiter)[i..])
  }

  lemma {:induction false} UntilStops(value: string, delimiter: string, rest: string)
    requires delimiter != "" && Clean(value, delimiter)
    ensures UntilRest(value + (delimiter + rest), delimiter) == Some(delimiter + rest)
    decreases |value|
  {
    var s := value + (delimiter + rest);
    if value == "" {
      assert s == delimiter + rest;
    } else {
      FirstIsClean(value, delimiter, rest);
      assert s[1..] == value[1..] + (delimiter + rest);
      CleanTail(value, delimiter);
      UntilStops(value[1..], delimiter, rest);
    }
  }

  lemma FirstIsClean(value: string, delimiter: string, rest: string)
    requires delimiter != "" && value != ""
    ensures delimiter <= value + (delimiter + rest) <==> delimiter <= (value + delimiter)[0..]
    ensures !(value + (delimiter + rest) <= delimiter)
  {
    var n := |delimiter|;
    assert (value + (delimiter + rest))[..n] == (value + delimiter)[..n];
  }

  lemma CleanTail(value: string, delimiter: string)
    requires value != ""
    ensures Clean(value, delimiter) <==> Clean(value[1..], delimiter) && !(delimiter <= (value + delimiter)[0..])
  {
    assert forall i :: 0 <= i < |value| - 1 ==> (value[1..] + delimiter)[i..] == (value + delimiter)[i + 1..];
    if Clean(value[1..], delimiter) && !(delimiter <= (value + delimiter)[0..]) {
      forall i | 0 <= i < |value| ensures !(delimiter <= (value + delimiter)[i..]) {
        if i > 0 {
          assert (value[1..] + delimiter)[i - 1..] == (value + delimiter)[i..];
        }
      }
    }
  }

  /** A value is captured whole exactly when the delimiter does not start inside it. */
  lemma {:induction false} CapturesExactly(value: string, delimiter: string, rest: string)
    requires delimiter != ""
    ensures Parse(Until(delimiter), value + (delimiter + rest)) == Success([], delimiter + rest)
            <==> Clean(value, delimiter)
  {
    if Clean(value, delimiter) {
      UntilStops(value, delimiter, rest);
    } else {
      StopsEarly(value, delimiter, rest);
    }
  }

  lemma {:induction false} StopsEarly(value: string, delimiter: string, rest: string)
    requires delimiter != "" && !Clean(value, delimiter)
    ensures var r := UntilRest(value + (delimiter + rest), delimiter);
            r.Some? && |r.value| > |delimiter + rest|
    decreases |value|
  {
    FirstIsClean(value, delimiter, rest);
    CleanTail(value, delimiter);
    if Clean(value[1..], delimiter) {
    } else {
      assert (value + (delimiter + rest))[1..] == value[1..] + (delimiter + rest);
      StopsEarly(value[1..], delimiter, rest);
    }
  }

  predicate Occurs(s: string, w: string) {
    exists i :: 0 <= i <= |s| && w <= s[i..]
  }

  /** Some proper non-empty prefix of the word is also a suffix of it. */
  predicate Bordered(w: string) {
    exists k :: 0 < k < |w| && w[k..] <= w
  }

  /**
   That a value does not contain the delimiter is enough to capture it exactly for the
   delimiters that do not overlap with themselves.
   */
  lemma AbsenceSufficesExactly(delimiter: string)
    requires delimiter != ""
    ensures (forall value: string :: !Occurs(value, delimiter) ==> Clean(value, delimiter)) <==> !Bordered(delimiter)
  {
    var n := |delimiter|;
    if Bordered(delimiter) {
      var k :| 0 < k < n && delimiter[k..] <= delimiter;
      var value := delimiter[..k];
      assert forall i :: 0 <= i <= |value| ==> |value[i..]| < n;
      assert !Occurs(value, delimiter);
      var both := value + delimiter;
      assert both[..n] == delimiter[..k] + delimiter[..n - k];
      assert delimiter[..n - k] == delimiter[k..];
      assert delimiter <= both[0..];
      assert !Clean(value, delimiter);
    } else {
      forall value: string | !Occurs(value, delimiter) ensures Clean(value, delimiter) {
        forall i | 0 <= i < |value| ensures !(delimiter <= (value + delimiter)[i..]) {
          if delimiter <= (value + delimiter)[i..] { OverlapIsBorder(value, delimiter, i); }
        }
      }
    }
  }

  lemma OverlapIsBorder(value: string, delimiter: string, i: nat)
    requires i < |value| && delimiter <= (value + delimiter)[i..]
    ensures Occurs(value, delimiter) || Bordered(delimiter)
  {
    var n, tail := |delimiter|, (value + delimiter)[i..];
    if i + n <= |value| {
      assert value[i..][..n] == tail[..n];
      assert delimiter <= value[i..];
    } else {
      var k := |value| - i;
      assert delimiter[k..] == tail[..n][k..] == tail[k..n];
      assert tail[k..n] == delimiter[..n - k];
      assert delimiter[k..] <= delimiter;
    }
  }

  /** Markup closers that start with `<` or `[` and hold no other one do not overlap with themselves. */
  lemma MarkupIsUnbordered(delimiter: string)
    requires delimiter != "" && forall i :: 1 <= i < |delimiter| ==> delimiter[i] != delimiter[0]
    ensures !Bordered(delimiter)
  {
    forall k | 0 < k < |delimiter| ensures !(delimiter[k..] <= delimiter) {
      assert delimiter[k..][0] == delimiter[k];
    }
  }

  // ---------------------------------------------------------------- what any run captures

  /** Every node with this tag wraps a capture up to the delimiter. */
  predicate CapturesUntil(p: Parser, tag: Tag, delimiter: string) {
    match p
    case Seq(a, b) => CapturesUntil(a, tag, delimiter) && CapturesUntil(b, tag, delimiter)
    case Choice(a, b) => CapturesUntil(a, tag, delimiter) && CapturesUntil(b, tag, delimiter)
    case Repeat(c) => CapturesUntil(c, tag, delimiter)
    case Maybe(c) => CapturesUntil(c, tag, delimiter)
    case Peek(c) => CapturesUntil(c, tag, delimiter)
    case Not(c) => CapturesUntil(c, tag, delimiter)
    case Atomic(c) => CapturesUntil(c, tag, delimiter)
    case Node(t, c) => (t == tag ==> c == Node(OtherTag, Until(delimiter))) && CapturesUntil(c, tag, delimiter)
    case _ => true
  }

  ghost predicate NoneHolds(nodes: seq<Event>, tag: Tag, delimiter: string) {
    forall e :: e in nodes && e.tag == tag ==> !Occurs(e.text, delimiter)
  }

  lemma {:induction false} UntilCaptures(s: string, delimiter: string)
    requires delimiter != ""
    ensures var r := UntilRest(s, delimiter);
            !Occurs(Consumed(s, if r.Some? then r.value else ""), delimiter)
  {
    var r := UntilRest(s, delimiter);
    var rest := if r.Some? then r.value else "";
    if s == "" || delimiter <= s || s <= delimiter {
      assert |Consumed(s, rest)| == 0;
    } else {
      UntilCaptures(s[1..], delimiter);
      UntilKeepsEnd(s[1..], delimiter);
      var text, tail := Consumed(s, rest), Consumed(s[1..], rest);
      assert text == [s[0]] + tail;
      forall i | 0 <= i <= |text| ensures !(delimiter <= text[i..]) {
        if i == 0 {
          assert text == s[..|text|] && text[0..] == text;
        } else {
          assert text[i..] == tail[i - 1..];
        }
      }
    }
  }

  lemma {:induction false} UntilKeepsEnd(s: string, delimiter: string)
    ensures var r := UntilRest(s, delimiter);
            r.Some? ==> r.value == s[|s| - |r.value|..]
  {
    if !(s == "" || (delimiter != "" && delimiter <= s) || s <= delimiter) {
      UntilKeepsEnd(s[1..], delimiter);
    }
  }

  /** On every input, complete or cut short, no captured value contains the delimiter. */
  lemma {:induction false} NoCaptureHoldsDelimiter(p: Parser, s: string, tag: Tag, delimiter: string)
    requires delimiter != "" && tag != OtherTag && CapturesUntil(p, tag, delimiter)
    ensures var r := Parse(p, s); !r.Fail? ==> NoneHolds(r.nodes, tag, delimiter)
    decreases |s|, p
  {
    match p
    case Seq(a, b) =>
      NoCaptureHoldsDelimiter(a, s, tag, delimiter);
      var r := Parse(a, s);
      if r.Success? { NoCaptureHoldsDelimiter(b, r.rest, tag, delimiter); }
    case Choice(a, b) =>
      NoCaptureHoldsDelimiter(a, s, tag, delimiter);
      NoCaptureHoldsDelimiter(b, s, tag, delimiter);
    case Repeat(c) =>
      NoCaptureHoldsDelimiter(c, s, tag, delimiter);
      var r := Parse(c, s);
      if s != "" && r.Success? && |r.rest| < |s| { NoCaptureHoldsDelimiter(p, r.rest, tag, delimiter); }
    case Maybe(c) => NoCaptureHoldsDelimiter(c, s, tag, delimiter);
    case Peek(c) =>
    case Atomic(c) => NoCaptureHoldsDelimiter(c, s, tag, delimiter);
    case Node(t, c) =>
      NoCaptureHoldsDelimiter(c, s, tag, delimiter);
      if t == tag {
        UntilCaptures(s, delimiter);
        assert Parse(c, s) == WithNodes([Event(OtherTag, Consumed(s, Parse(Until(delimiter), s).rest))],
          Parse(Until(delimiter), s));
      }
    case _ =>
  }
}
