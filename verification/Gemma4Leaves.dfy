/**
 The leaves of the Gemma4 value grammar: what a number, a word or a key takes from a text, and
 how that changes when the text grows.
 */
module Gemma4Leaves {
  import opened Text
  import opened Gemma4Json
  import opened Gemma4Grammar
  import GrowingParses
  import Peg

  // ---------------------------------------------------------------- parts of a number

  /** What is left when only characters of numbers are taken. */
  predicate Takes(s: string, rest: string) {
    && |rest| <= |s| && rest == s[|s| - |rest|..]
    && forall i :: 0 <= i < |s| - |rest| ==> s[i] in NumberChars
  }

  predicate TakesAt(p: Peg.Parser, s: string) {
    var r := Peg.Parse(p, s);
    && (r.Success? ==> Takes(s, r.rest))
    && (r.NeedMore? ==> r.rest == "" && Takes(s, ""))
  }

  predicate Early(rx: Peg.Outcome, ry: Peg.Outcome, more: string) {
    && (rx.Fail? ==> ry.Fail?)
    && (rx.Success? && rx.rest != "" ==> ry.Success? && ry.rest == rx.rest + more)
  }

  predicate EarlyAt(p: Peg.Parser, x: string, more: string) {
    Early(Peg.Parse(p, x), Peg.Parse(p, x + more), more)
  }

  /** A parser that is decided before the end of the text wherever it does not reach it. */
  ghost predicate Decided(p: Peg.Parser) {
    && !Peg.Parse(p, "").Fail?
    && forall x: string, more: string :: EarlyAt(p, x, more)
  }

  ghost predicate Numeric(p: Peg.Parser) {
    forall s: string :: TakesAt(p, s)
  }

  lemma LiteralDecided(l: string)
    ensures Decided(Peg.Literal(l))
  {
    forall x: string, more: string ensures EarlyAt(Peg.Literal(l), x, more) {
      GrowingParses.LiteralSettles(l, x, more);
    }
  }

  lemma {:induction false} MatchingGrows(x: string, more: string, chars: string, negated: bool, most: int)
    ensures var n := Peg.Matching(x, chars, negated, most);
            if n < |x| then Peg.Matching(x + more, chars, negated, most) == n
            else Peg.Matching(x + more, chars, negated, most) >= n
    decreases |x|
  {
    if x != "" && most != 0 && (x[0] in chars) != negated {
      assert (x + more)[1..] == x[1..] + more;
      MatchingGrows(x[1..], more, chars, negated, most - 1);
    }
  }

  lemma {:induction false} MatchingHolds(s: string, chars: string, negated: bool, most: int)
    ensures forall i :: 0 <= i < Peg.Matching(s, chars, negated, most) ==> (s[i] in chars) != negated
    decreases |s|
  {
    if s != "" && most != 0 && (s[0] in chars) != negated {
      MatchingHolds(s[1..], chars, negated, most - 1);
      assert forall i :: 1 <= i < |s| ==> s[i] == s[1..][i - 1];
    }
  }

  lemma CharsDecided(chars: string, negated: bool, least: nat, most: int)
    ensures Decided(Peg.Chars(chars, negated, least, most))
  {
    var p := Peg.Chars(chars, negated, least, most);
    forall x: string, more: string ensures EarlyAt(p, x, more) {
      MatchingGrows(x, more, chars, negated, most);
      var n := Peg.Matching(x, chars, negated, most);
      if n < |x| { assert (x + more)[n..] == x[n..] + more; }
    }
  }

  lemma SeqIs(p: Peg.Parser, q: Peg.Parser, s: string)
    ensures var r := Peg.Parse(p, s);
            Peg.Parse(Peg.Seq(p, q), s) == if r.Success? then Peg.WithNodes(r.nodes, Peg.Parse(q, r.rest)) else r
  {
  }

  lemma MaybeIs(p: Peg.Parser, s: string)
    ensures var r := Peg.Parse(p, s);
            Peg.Parse(Peg.Maybe(p), s) ==
            if s != "" && (r.NeedMore? || (r.Success? && |r.rest| < |s|)) then r else Peg.Success([], s)
  {
  }

  lemma SeqDecided(p: Peg.Parser, q: Peg.Parser)
    requires Decided(p) && Decided(q)
    ensures Decided(Peg.Seq(p, q))
  {
    hide Peg.Parse;
    SeqIs(p, q, "");
    GrowingParses.ParseShorter(p, "");
    forall x: string, more: string ensures EarlyAt(Peg.Seq(p, q), x, more) {
      SeqIs(p, q, x);
      SeqIs(p, q, x + more);
      var rx := Peg.Parse(p, x);
      assert EarlyAt(p, x, more);
      if rx.Success? { assert EarlyAt(q, rx.rest, more); }
    }
  }

  lemma ChoiceDecided(p: Peg.Parser, q: Peg.Parser)
    requires Decided(p) && Decided(q)
    ensures Decided(Peg.Choice(p, q))
  {
    hide Peg.Parse;
    GrowingParses.ChoiceIs(p, q, "");
    forall x: string, more: string ensures EarlyAt(Peg.Choice(p, q), x, more) {
      GrowingParses.ChoiceIs(p, q, x);
      GrowingParses.ChoiceIs(p, q, x + more);
      assert EarlyAt(p, x, more) && EarlyAt(q, x, more);
    }
  }

  lemma MaybeDecided(p: Peg.Parser)
    requires Decided(p)
    ensures Decided(Peg.Maybe(p))
  {
    hide Peg.Parse;
    MaybeIs(p, "");
    forall x: string, more: string ensures EarlyAt(Peg.Maybe(p), x, more) {
      MaybeIs(p, x);
      MaybeIs(p, x + more);
      assert EarlyAt(p, x, more);
    }
  }

  lemma LiteralNumeric(l: string)
    requires forall i :: 0 <= i < |l| ==> l[i] in NumberChars
    ensures Numeric(Peg.Literal(l))
  {
    forall s: string ensures TakesAt(Peg.Literal(l), s) {
      if l <= s { assert s[|s| - |s[|l|..]|..] == s[|l|..]; }
    }
  }

  lemma CharsNumeric(chars: string, least: nat, most: int)
    requires forall c :: c in chars ==> c in NumberChars
    ensures Numeric(Peg.Chars(chars, false, least, most))
  {
    forall s: string ensures TakesAt(Peg.Chars(chars, false, least, most), s) {
      MatchingHolds(s, chars, false, most);
    }
  }

  lemma TakesMore(s: string, mid: string, rest: string)
    requires Takes(s, mid) && Takes(mid, rest)
    ensures Takes(s, rest)
  {
    var k := |s| - |mid|;
    forall i | 0 <= i < |s| - |rest| ensures s[i] in NumberChars {
      if i >= k { assert s[i] == mid[i - k]; }
    }
  }

  lemma SeqNumeric(p: Peg.Parser, q: Peg.Parser)
    requires Numeric(p) && Numeric(q)
    ensures Numeric(Peg.Seq(p, q))
  {
    hide Takes, Peg.Parse;
    forall s: string ensures TakesAt(Peg.Seq(p, q), s) {
      SeqIs(p, q, s);
      var r := Peg.Parse(p, s);
      assert TakesAt(p, s);
      if r.Success? {
        var t := Peg.Parse(q, r.rest);
        assert TakesAt(q, r.rest);
        if !t.Fail? { TakesMore(s, r.rest, t.rest); }
      }
    }
  }

  lemma ChoiceNumeric(p: Peg.Parser, q: Peg.Parser)
    requires Numeric(p) && Numeric(q)
    ensures Numeric(Peg.Choice(p, q))
  {
    hide Takes, Peg.Parse;
    forall s: string ensures TakesAt(Peg.Choice(p, q), s) {
      GrowingParses.ChoiceIs(p, q, s);
      assert TakesAt(p, s) && TakesAt(q, s);
    }
  }

  lemma MaybeNumeric(p: Peg.Parser)
    requires Numeric(p)
    ensures Numeric(Peg.Maybe(p))
  {
    hide Peg.Parse;
    forall s: string ensures TakesAt(Peg.Maybe(p), s) {
      MaybeIs(p, s);
      assert TakesAt(p, s);
    }
  }

  lemma NumeralDecided()
    ensures Decided(Numeral)
  {
    hide Decided;
    LiteralDecided("-");
    MaybeDecided(Peg.Literal("-"));
    LiteralDecided("0");
    CharsDecided("123456789", false, 1, 1);
    CharsDecided(Digits, false, 0, -1);
    SeqDecided(IntPart.others.first, IntPart.others.second);
    ChoiceDecided(IntPart.option, IntPart.others);
    LiteralDecided(".");
    CharsDecided(Digits, false, 1, -1);
    SeqDecided(Fraction.first, Fraction.second);
    MaybeDecided(Fraction);
    LiteralDecided("e");
    LiteralDecided("E");
    ChoiceDecided(Peg.Literal("e"), Peg.Literal("E"));
    CharsDecided("+-", false, 1, 1);
    MaybeDecided(Peg.Chars("+-", false, 1, 1));
    SeqDecided(Exponent.second.first, Exponent.second.second);
    SeqDecided(Exponent.first, Exponent.second);
    MaybeDecided(Exponent);
    SeqDecided(Peg.Maybe(Fraction), Peg.Maybe(Exponent));
    SeqDecided(IntPart, Peg.Seq(Peg.Maybe(Fraction), Peg.Maybe(Exponent)));
    SeqDecided(Numeral.first, Numeral.second);
  }

  lemma NumeralNumeric()
    ensures Numeric(Numeral)
  {
    hide Numeric;
    LiteralNumeric("-");
    MaybeNumeric(Peg.Literal("-"));
    LiteralNumeric("0");
    CharsNumeric("123456789", 1, 1);
    CharsNumeric(Digits, 0, -1);
    SeqNumeric(IntPart.others.first, IntPart.others.second);
    ChoiceNumeric(IntPart.option, IntPart.others);
    LiteralNumeric(".");
    CharsNumeric(Digits, 1, -1);
    SeqNumeric(Fraction.first, Fraction.second);
    MaybeNumeric(Fraction);
    LiteralNumeric("e");
    LiteralNumeric("E");
    ChoiceNumeric(Peg.Literal("e"), Peg.Literal("E"));
    CharsNumeric("+-", 1, 1);
    MaybeNumeric(Peg.Chars("+-", false, 1, 1));
    SeqNumeric(Exponent.second.first, Exponent.second.second);
    SeqNumeric(Exponent.first, Exponent.second);
    MaybeNumeric(Exponent);
    SeqNumeric(Peg.Maybe(Fraction), Peg.Maybe(Exponent));
    SeqNumeric(IntPart, Peg.Seq(Peg.Maybe(Fraction), Peg.Maybe(Exponent)));
    SeqNumeric(Numeral.first, Numeral.second);
  }

  lemma IntAdvances(s: string)
    ensures var r := Peg.Parse(IntPart, s); r.Success? ==> |r.rest| < |s|
  {
    if !("0" <= s) && !(s <= "0") {
      var d := Peg.Parse(IntPart.others.first, s);
      assert Peg.Parse(IntPart, s) == Peg.Parse(IntPart.others, s);
      assert d.Success? ==> |d.rest| < |s|;
    }
  }

  lemma NumeralAdvances(s: string)
    ensures var r := Peg.Parse(Numeral, s); r.Success? ==> |r.rest| < |s|
  {
    IntAdvances(Peg.Parse(Peg.Maybe(Peg.Literal("-")), s).rest);
  }

  // ---------------------------------------------------------------- whole leaves

  /** A leaf that reaches the end of the text takes at least as much of a longer one. */
  predicate Spans(rx: Peg.Outcome, ry: Peg.Outcome, more: string) {
    && Early(rx, ry, more)
    && (rx.NeedMore? ==> rx.rest == "")
    && (!rx.Fail? && rx.rest == "" ==> ry.Fail? || |ry.rest| <= |more|)
  }

  predicate SpansAt(p: Peg.Parser, x: string, more: string) {
    Spans(Peg.Parse(p, x), Peg.Parse(p, x + more), more)
  }

  const NumberEnd := Peg.Seq(Peg.Not(Peg.Chars(NumberChars, false, 1, 1)), Peg.Space)

  /** What may follow a number. */
  lemma NumberEndIs(s: string)
    ensures Peg.Parse(NumberEnd, s)
         == if s == "" then Peg.NeedMore([], "")
            else if s[0] in NumberChars then Peg.Fail
            else Peg.Success([], Peg.SkipSpace(s))
  {
    var c := Peg.Chars(NumberChars, false, 1, 1);
    var n := Peg.Matching(s, NumberChars, false, 1);
    assert s != "" ==> n == if s[0] in NumberChars then 1 else 0;
    assert Peg.Parse(c, s) == if n >= 1 then Peg.Success([], s[n..]) else if s == "" then Peg.NeedMore([], "")
      else Peg.Fail;
    assert Peg.Parse(Peg.Not(c), s) == if n >= 1 then Peg.Fail else if s == "" then Peg.NeedMore([], s)
      else Peg.Success([], s);
  }

  lemma NumberSpans(x: string, more: string)
    ensures SpansAt(JsonNumber, x, more)
  {
    hide Peg.Parse;
    var y := x + more;
    SeqIs(Numeral, NumberEnd, x);
    SeqIs(Numeral, NumberEnd, y);
    NumeralDecided();
    NumeralNumeric();
    var nx, ny := Peg.Parse(Numeral, x), Peg.Parse(Numeral, y);
    assert EarlyAt(Numeral, x, more) && TakesAt(Numeral, x) && TakesAt(Numeral, y);
    if nx.Success? { NumberEndIs(nx.rest); }
    if ny.Success? { NumberEndIs(ny.rest); }
    if nx.Success? && nx.rest != "" {
      GrowingParses.SkipSpaceGrows(nx.rest, more);
    } else if !nx.Fail? && ny.Success? && |ny.rest| > |more| {
      var k := |y| - |ny.rest|;
      assert ny.rest[0] == y[k] == x[k];
    }
  }

  /** What a word with whitespace behind it makes of a text. */
  function Spaced(word: string, s: string): Peg.Outcome {
    if word <= s then Peg.Success([], Peg.SkipSpace(s[|word|..]))
    else if s <= word then Peg.NeedMore([], "")
    else Peg.Fail
  }

  lemma WordIs(word: string, s: string)
    ensures Peg.Parse(Peg.Seq(Peg.Literal(word), Peg.Space), s) == Spaced(word, s)
  {
    SeqIs(Peg.Literal(word), Peg.Space, s);
  }

  lemma BoolIs(s: string)
    ensures Peg.Parse(JsonBool, s) == if Spaced("true", s).Fail? then Spaced("false", s) else Spaced("true", s)
  {
    SeqIs(JsonBool.first, Peg.Space, s);
    var w := Peg.Parse(Peg.Literal("true"), s);
    assert Peg.Parse(JsonBool.first, s) == if w.Fail? then Peg.Parse(Peg.Literal("false"), s) else w;
  }

  lemma WordSpans(word: string, x: string, more: string)
    ensures Spans(Spaced(word, x), Spaced(word, x + more), more)
  {
    var y := x + more;
    if word <= x {
      assert y[|word|..] == x[|word|..] + more;
      GrowingParses.SkipSpaceGrows(x[|word|..], more);
    } else if !(x <= word) {
      GrowingParses.DivergesLonger(word, x, more);
    }
  }

  lemma BoolSpans(x: string, more: string)
    ensures SpansAt(JsonBool, x, more)
  {
    var y := x + more;
    BoolIs(x);
    BoolIs(y);
    WordSpans("true", x, more);
    WordSpans("false", x, more);
    if x != "" && !Spaced("true", x).Fail? {
      assert x[0] == 't' && y[0] == x[0];
      assert Spaced("false", y).Fail?;
    }
  }

  lemma NullSpans(x: string, more: string)
    ensures SpansAt(JsonNull, x, more)
  {
    WordIs("null", x);
    WordIs("null", x + more);
    WordSpans("null", x, more);
  }

  lemma KeyNameSpans(x: string, more: string)
    ensures SpansAt(KeyName, x, more)
  {
    MatchingGrows(x, more, ":}", true, -1);
    var n := Peg.Matching(x, ":}", true, -1);
    if n < |x| { assert (x + more)[n..] == x[n..] + more; }
  }

  // ---------------------------------------------------------------- which rule reads a value

  lemma NumberStart(s: string)
    requires s != "" && s[0] != '-' && s[0] !in Digits
    ensures Peg.Parse(JsonNumber, s).Fail?
  {
    hide Peg.Parse;
    IntStart(s);
    SignStart(s);
    SeqIs(Numeral.first, Numeral.second, s);
    SeqIs(IntPart, Numeral.second.second, s);
    SeqIs(Numeral, NumberEnd, s);
  }

  lemma SignStart(s: string)
    requires s != "" && s[0] != '-'
    ensures Peg.Parse(Peg.Maybe(Peg.Literal("-")), s) == Peg.Success([], s)
  {
    MaybeIs(Peg.Literal("-"), s);
  }

  lemma IntStart(s: string)
    requires s != "" && s[0] !in Digits
    ensures Peg.Parse(IntPart, s).Fail?
  {
    assert !("0" <= s);
    assert Peg.Matching(s, "123456789", false, 1) == 0;
    SeqIs(IntPart.others.first, IntPart.others.second, s);
    GrowingParses.ChoiceIs(IntPart.option, IntPart.others, s);
  }

  /** The first character decides which rule can read a value. */
  function ByFirst(s: string): Trees
    requires s != ""
  {
    if s[0] == '<' then StringTree(s)
    else if s[0] == '{' then Block(DictRule, s)
    else if s[0] == '[' then Block(ArrayRule, s)
    else if s[0] == '-' || s[0] in Digits then Leaf(NumberRule, JsonNumber, s)
    else if s[0] == 't' || s[0] == 'f' then Leaf(BoolRule, JsonBool, s)
    else Leaf(NullRule, JsonNull, s)
  }

  lemma LeafRefused(rule: Rule, p: Peg.Parser, s: string)
    requires Peg.Parse(p, s).Fail?
    ensures Leaf(rule, p, s).Refused?
  {
  }

  lemma StringStart(s: string)
    requires s != "" && s[0] != '<'
    ensures StringTree(s).Refused?
  {
  }

  lemma BlockStart(rule: Rule, s: string)
    requires s != "" && s[0] != Open(rule)[0]
    ensures Block(rule, s).Refused?
  {
  }

  lemma WordStart(s: string)
    requires s != ""
    ensures s[0] != 't' && s[0] != 'f' ==> Leaf(BoolRule, JsonBool, s).Refused?
    ensures s[0] != 'n' ==> Leaf(NullRule, JsonNull, s).Refused?
  {
    BoolIs(s);
    WordIs("null", s);
  }

  lemma ValueByFirst(s: string)
    requires s != ""
    ensures ValueInner(s) == ByFirst(s)
  {
    hide Peg.Parse, Leaf, StringTree, Block, JsonNumber, JsonBool, JsonNull;
    if s[0] != '<' { StringStart(s); }
    if s[0] != '{' { BlockStart(DictRule, s); }
    if s[0] != '[' { BlockStart(ArrayRule, s); }
    if s[0] != '-' && s[0] !in Digits {
      NumberStart(s);
      LeafRefused(NumberRule, JsonNumber, s);
    }
    WordStart(s);
  }

  lemma NumberAdvances(s: string)
    ensures var r := Peg.Parse(JsonNumber, s); r.Success? ==> |r.rest| < |s|
  {
    hide Peg.Parse;
    SeqIs(Numeral, NumberEnd, s);
    NumeralAdvances(s);
    var r := Peg.Parse(Numeral, s);
    if r.Success? { GrowingParses.ParseShorter(NumberEnd, r.rest); }
  }

  /** Every value takes something. */
  lemma ValueAdvances(s: string)
    ensures ValueInner(s).Read? ==> |ValueInner(s).rest| < |s|
  {
    hide Peg.Parse, Block, JsonNumber, JsonBool, StringTree;
    if s != "" {
      ValueByFirst(s);
      NumberAdvances(s);
      BoolIs(s);
      WordIs("null", s);
      StringAdvances(s);
      BlockAdvances(DictRule, s);
      BlockAdvances(ArrayRule, s);
    } else {
      NothingIsShort();
    }
  }

  lemma NothingIsShort()
    ensures ValueInner("") == StringTree("") && StringTree("").Short?
  {
  }

  lemma StringAdvances(s: string)
    ensures StringTree(s).Read? ==> |StringTree(s).rest| < |s|
  {
  }

  lemma BlockAdvances(rule: Rule, s: string)
    ensures Block(rule, s).Read? ==> |Block(rule, s).rest| < |s|
  {
  }
}
