/**
 What models/templates/google-gemma-4-31B-it.jinja prints for a value is read by the value
 grammar as the tree that spells the value.
 */
module Gemma4Texts {
  import opened Text
  import opened JsonText
  import opened Gemma4Json
  import opened Gemma4Grammar
  import opened Gemma4Leaves
  import opened Gemma4Growth
  import GrowingParses
  import Peg

  // ---------------------------------------------------------------- texts and trees of values

  function Render(v: Value): string
    decreases v, 1
  {
    match v
    case Str(s) => Quote + s + Quote
    case Num(t, w) => t + w
    case Bool(b, w) => Word(b) + w
    case Null(w) => "null" + w
    case Arr(items) => "[" + Listed(ItemTexts(items)) + "]"
    case Dict(members) => "{" + Listed(MemberTexts(members)) + "}"
  }

  function ItemTexts(items: seq<Value>): (r: seq<string>)
    decreases items, 0
  {
    if items == [] then [] else [Render(items[0])] + ItemTexts(items[1..])
  }

  function MemberTexts(members: seq<Member>): seq<string>
    decreases members, 0
  {
    if members == [] then []
    else [members[0].key + ":" + Render(members[0].value)] + MemberTexts(members[1..])
  }

  function Listed(texts: seq<string>): string {
    if texts == [] then "" else texts[0] + Following(texts[1..])
  }

  function Following(texts: seq<string>): string {
    if texts == [] then "" else "," + texts[0] + Following(texts[1..])
  }

  function Tree(v: Value): Node
    decreases v, 3
  {
    Node(ValueRule, Render(v), [InnerTree(v)], false)
  }

  function InnerTree(v: Value): Node
    decreases v, 2
  {
    match v
    case Str(s) => Node(StringRule, Render(v), [Node(StringContent, s, [], false)], false)
    case Num(_, _) => Node(NumberRule, Render(v), [], false)
    case Bool(_, _) => Node(BoolRule, Render(v), [], false)
    case Null(_) => Node(NullRule, Render(v), [], false)
    case Arr(items) => Node(ArrayRule, Render(v), ItemTrees(items), false)
    case Dict(members) => Node(DictRule, Render(v), MemberTrees(members), false)
  }

  function ItemTrees(items: seq<Value>): seq<Node>
    decreases items, 0
  {
    if items == [] then [] else [Tree(items[0])] + ItemTrees(items[1..])
  }

  function KeyNode(key: string): Node { Node(DictKey, key + ":", [Node(DictKeyName, key, [], false)], false) }

  function MemberTree(m: Member): Node
    decreases m, 4
  {
    Node(DictKv, m.key + ":" + Render(m.value), [KeyNode(m.key), Tree(m.value)], false)
  }

  function MemberTrees(members: seq<Member>): seq<Node>
    decreases members, 0
  {
    if members == [] then [] else [MemberTree(members[0])] + MemberTrees(members[1..])
  }

  // ---------------------------------------------------------------- what can be printed

  predicate IsKey(key: string) {
    key != "" && !IsSpace(key[0]) && forall i :: 0 <= i < |key| ==> key[i] !in ":}"
  }

  /** Strings do not hold the quote, keys do not end early or start with whitespace. */
  ghost predicate Printable(v: Value)
    decreases v, 1
  {
    match v
    case Str(s) => !Peg.Occurs(s, Quote)
    case Num(t, w) => IsNumber(t) && AllSpace(w)
    case Bool(_, w) => AllSpace(w)
    case Null(w) => AllSpace(w)
    case Arr(items) => forall i :: 0 <= i < |items| ==> Printable(items[i])
    case Dict(members) => forall i :: 0 <= i < |members| ==> IsKey(members[i].key) && Printable(members[i].value)
  }

  // ---------------------------------------------------------------- numbers

  lemma {:induction false} MatchingRun(run: string, rest: string, chars: string, negated: bool, most: int)
    requires most < 0 && (forall i :: 0 <= i < |run| ==> (run[i] in chars) != negated)
    requires rest != "" ==> (rest[0] in chars) == negated
    ensures Peg.Matching(run + rest, chars, negated, most) == |run|
    decreases |run|
  {
    if run == "" {
      assert run + rest == rest;
    } else {
      assert (run + rest)[1..] == run[1..] + rest;
      MatchingRun(run[1..], rest, chars, negated, most - 1);
    }
  }

  lemma RunReads(run: string, rest: string, chars: string, negated: bool, least: nat)
    requires (forall i :: 0 <= i < |run| ==> (run[i] in chars) != negated) && |run| >= least
    requires rest != "" ==> (rest[0] in chars) == negated
    ensures Peg.Parse(Peg.Chars(chars, negated, least, -1), run + rest) == Peg.Success([], rest)
  {
    MatchingRun(run, rest, chars, negated, -1);
  }

  lemma SignReads(sign: string, rest: string)
    requires IsSign(sign) && rest != "" && rest[0] != '-'
    ensures Peg.Parse(Peg.Maybe(Peg.Literal("-")), sign + rest) == Peg.Success([], rest)
  {
    MaybeIs(Peg.Literal("-"), sign + rest);
    assert sign == "" ==> sign + rest == rest;
  }

  lemma FirstDigit(whole: string, rest: string)
    requires IsDigits(whole) && whole[0] != '0'
    ensures Peg.Parse(IntPart.others.first, whole + rest) == Peg.Success([], whole[1..] + rest)
    ensures Peg.Parse(IntPart.option, whole + rest).Fail?
  {
    hide Digits;
    DigitIs(whole[0]);
    var s := whole + rest;
    assert s[1..] == whole[1..] + rest;
    assert Peg.Matching(s[1..], "123456789", false, 0) == 0;
  }

  lemma WholeReads(whole: string, rest: string)
    requires IsWhole(whole) && rest != "" && rest[0] !in Digits
    ensures Peg.Parse(IntPart, whole + rest) == Peg.Success([], rest)
  {
    hide Digits, Peg.Parse;
    GrowingParses.ChoiceIs(IntPart.option, IntPart.others, whole + rest);
    if whole == "0" {
      Peg.LiteralParses("0", rest);
    } else {
      FirstDigit(whole, rest);
      RunReads(whole[1..], rest, Digits, false, 0);
      SeqIs(IntPart.others.first, IntPart.others.second, whole + rest);
    }
  }

  lemma NoFraction(s: string)
    requires s != "" && s[0] != '.'
    ensures Peg.Parse(Fraction.first, s).Fail?
  {
  }

  lemma FractionReads(fraction: string, rest: string)
    requires IsFraction(fraction) && rest != "" && rest[0] !in Digits && rest[0] != '.'
    ensures Peg.Parse(Peg.Maybe(Fraction), fraction + rest) == Peg.Success([], rest)
  {
    var s := fraction + rest;
    hide Peg.Parse, Digits;
    MaybeIs(Fraction, s);
    SeqIs(Fraction.first, Fraction.second, s);
    if fraction == "" {
      assert s == rest;
      NoFraction(rest);
    } else {
      assert s == "." + (fraction[1..] + rest);
      Peg.LiteralParses(".", fraction[1..] + rest);
      RunReads(fraction[1..], rest, Digits, false, 1);
    }
  }

  lemma PowerReads(digits: string, sign: string, rest: string)
    requires IsDigits(digits) && (sign == "" || sign == "+" || sign == "-") && rest != "" && rest[0] !in Digits
    ensures Peg.Parse(Exponent.second, sign + digits + rest) == Peg.Success([], rest)
  {
    var s, signs := sign + digits + rest, Peg.Chars("+-", false, 1, 1);
    assert s == sign + (digits + rest);
    var n := Peg.Matching(s, "+-", false, 1);
    assert digits[0] in Digits && digits[0] !in "+-";
    assert n == |sign|;
    assert Peg.Parse(signs, s) == if n == 1 then Peg.Success([], digits + rest) else Peg.Fail;
    MaybeIs(signs, s);
    assert Peg.Parse(Peg.Maybe(signs), s) == Peg.Success([], digits + rest);
    RunReads(digits, rest, Digits, false, 1);
    SeqIs(Peg.Maybe(signs), Exponent.second.second, s);
  }

  lemma NoExponent(s: string)
    requires s != "" && s[0] != 'e' && s[0] != 'E'
    ensures Peg.Parse(Peg.Maybe(Exponent), s) == Peg.Success([], s)
  {
    MaybeIs(Exponent, s);
    SeqIs(Exponent.first, Exponent.second, s);
    assert Peg.Parse(Exponent.first, s).Fail?;
  }

  lemma LetterReads(letter: string, tail: string)
    requires letter == "e" || letter == "E"
    ensures Peg.Parse(Exponent.first, letter + tail) == Peg.Success([], tail)
  {
    Peg.LiteralParses(letter, tail);
  }

  lemma ExponentReads(exponent: string, rest: string)
    requires IsExponent(exponent) && rest != "" && rest[0] !in NumberChars
    ensures Peg.Parse(Peg.Maybe(Exponent), exponent + rest) == Peg.Success([], rest)
  {
    hide Digits, NumberChars, Peg.Parse;
    DigitIs(rest[0]);
    if exponent == "" {
      assert exponent + rest == rest;
      NoExponent(rest);
    } else {
      var letter, tail := exponent[..1], exponent[1..] + rest;
      assert exponent + rest == letter + tail;
      LetterReads(letter, tail);
      MaybeIs(Exponent, letter + tail);
      SeqIs(Exponent.first, Exponent.second, letter + tail);
      if IsDigits(exponent[1..]) {
        assert tail == "" + exponent[1..] + rest;
        PowerReads(exponent[1..], "", rest);
      } else {
        assert tail == exponent[1..2] + exponent[2..] + rest;
        PowerReads(exponent[2..], exponent[1..2], rest);
      }
    }
  }

  /** What follows a part of a number cannot be taken for more of it. */
  lemma PartsEnd(fraction: string, exponent: string, rest: string)
    requires IsFraction(fraction) && IsExponent(exponent) && rest != "" && rest[0] !in NumberChars
    ensures var c := exponent + rest; c != "" && c[0] !in Digits && c[0] != '.'
    ensures var b := fraction + (exponent + rest); b != "" && b[0] !in Digits
  {
    hide Digits, NumberChars, IsDigits;
    var c := exponent + rest;
    var b := fraction + c;
    DigitIs(c[0]);
    DigitIs(b[0]);
    DigitIs('.');
    if exponent == "" { assert c == rest; } else { assert c[0] == exponent[0]; }
    if fraction == "" { assert b == c; } else { assert b[0] == '.'; }
  }

  lemma PartsRead(sign: string, whole: string, fraction: string, exponent: string, rest: string)
    requires IsSign(sign) && IsWhole(whole) && IsFraction(fraction) && IsExponent(exponent)
    requires rest != "" && rest[0] !in NumberChars
    ensures Peg.Parse(Numeral, sign + (whole + (fraction + (exponent + rest)))) == Peg.Success([], rest)
  {
    hide Peg.Parse, Digits, NumberChars, IsFraction, IsExponent;
    var c := exponent + rest;
    var b := fraction + c;
    var a := whole + b;
    PartsEnd(fraction, exponent, rest);
    assert a[0] == whole[0];
    DigitIs(a[0]);
    SignReads(sign, a);
    WholeReads(whole, b);
    FractionReads(fraction, c);
    ExponentReads(exponent, rest);
    SeqIs(Numeral.first, Numeral.second, sign + a);
    SeqIs(IntPart, Numeral.second.second, a);
    SeqIs(Peg.Maybe(Fraction), Peg.Maybe(Exponent), b);
  }

  lemma NumeralReads(t: string, rest: string)
    requires IsNumber(t) && rest != "" && rest[0] !in NumberChars
    ensures Peg.Parse(Numeral, t + rest) == Peg.Success([], rest)
  {
    hide Peg.Parse, Numeral, NumberChars, Digits, IsSign, IsWhole, IsFraction, IsExponent;
    var sign, whole, fraction, exponent :| IsSign(sign) && IsWhole(whole) && IsFraction(fraction)
      && IsExponent(exponent) && t == sign + whole + fraction + exponent;
    Regroup(sign, whole, fraction, exponent, rest);
    PartsRead(sign, whole, fraction, exponent, rest);
  }

  lemma Regroup(a: string, b: string, c: string, d: string, e: string)
    ensures a + b + c + d + e == a + (b + (c + (d + e)))
  {
    assert b + c + (d + e) == b + (c + (d + e));
    assert a + b + c + (d + e) == a + (b + c + (d + e));
    assert a + b + c + d + e == a + b + c + (d + e);
  }

  // ---------------------------------------------------------------- other values

  /** What follows a value inside an array or a dictionary. */
  predicate Delimits(tail: string) { tail != "" && (tail[0] == ',' || tail[0] == ']' || tail[0] == '}') }

  lemma LeafReads(rule: Rule, p: Peg.Parser, text: string, tail: string)
    requires Peg.Parse(p, text + tail) == Peg.Success([], tail)
    ensures Leaf(rule, p, text + tail) == Read([Node(rule, text, [], false)], tail)
  {
    hide Peg.Parse;
  }

  lemma DelimiterIs(tail: string)
    requires Delimits(tail)
    ensures tail[0] !in NumberChars && !Peg.StartsWithSpace(tail)
  {
  }

  /** Whitespace, or what follows, tells that a number is complete. */
  predicate EndsNumber(w: string, tail: string) {
    !Peg.StartsWithSpace(tail) && (w == "" ==> tail != "" && tail[0] !in NumberChars)
  }

  lemma NumberReads(t: string, w: string, tail: string)
    requires IsNumber(t) && AllSpace(w) && EndsNumber(w, tail)
    ensures Peg.Parse(JsonNumber, t + w + tail) == Peg.Success([], tail)
  {
    hide Peg.Parse, NumberChars, IsNumber;
    var s := w + tail;
    assert t + w + tail == t + s;
    SpaceIs(s[0]);
    assert if w == "" then s == tail else s[0] == w[0];
    NumeralReads(t, s);
    SeqIs(Numeral, NumberEnd, t + s);
    NumberEndIs(s);
    SkipReads(w, tail);
  }

  lemma SpaceIs(c: char)
    ensures IsSpace(c) ==> c !in NumberChars
  {
  }

  lemma SkipReads(w: string, tail: string)
    requires AllSpace(w) && !Peg.StartsWithSpace(tail)
    ensures Peg.SkipSpace(w + tail) == tail
  {
    Peg.SpaceParses(w, tail);
  }

  lemma SpacedReads(word: string, w: string, tail: string)
    requires AllSpace(w) && !Peg.StartsWithSpace(tail)
    ensures Spaced(word, word + w + tail) == Peg.Success([], tail)
  {
    var s := word + w + tail;
    assert s == word + (w + tail) && s[|word|..] == w + tail;
    SkipReads(w, tail);
  }

  lemma BoolReads(b: bool, w: string, tail: string)
    requires AllSpace(w) && !Peg.StartsWithSpace(tail)
    ensures Peg.Parse(JsonBool, Word(b) + w + tail) == Peg.Success([], tail)
  {
    hide Peg.Parse;
    var s := Word(b) + w + tail;
    SpacedReads(Word(b), w, tail);
    BoolIs(s);
    if !b { assert s[0] == 'f'; }
  }

  lemma NullReads(w: string, tail: string)
    requires AllSpace(w) && !Peg.StartsWithSpace(tail)
    ensures Peg.Parse(JsonNull, "null" + w + tail) == Peg.Success([], tail)
  {
    hide Peg.Parse;
    SpacedReads("null", w, tail);
    WordIs("null", "null" + w + tail);
  }

  lemma QuoteIsUnbordered()
    ensures Quote != "" && !Peg.Bordered(Quote)
  {
    Peg.MarkupIsUnbordered(Quote);
  }

  lemma WrapReads(rule: Rule, text: string, tail: string, ns: seq<Node>)
    ensures Wrap(rule, text + tail, Read(ns, tail)) == Read([Node(rule, text, ns, false)], tail)
  {
  }

  lemma ContentReads(s: string, tail: string)
    requires !Peg.Occurs(s, Quote)
    ensures Leaf(StringContent, Peg.Until(Quote), s + (Quote + tail))
         == Read([Node(StringContent, s, [], false)], Quote + tail)
  {
    hide Quote, Peg.Parse, Peg.Clean, Peg.Occurs, Peg.Bordered;
    QuoteIsUnbordered();
    Peg.AbsenceSufficesExactly(Quote);
    Peg.UntilStops(s, Quote, tail);
    ContentIs(s + (Quote + tail));
  }

  lemma InnerReads(s: string, tail: string)
    requires !Peg.Occurs(s, Quote)
    ensures StringInner(Quote + (s + (Quote + tail))) == Read([Node(StringContent, s, [], false)], tail)
  {
    hide Quote, Leaf, Peg.Occurs;
    var text, after := Quote + (s + (Quote + tail)), s + (Quote + tail);
    assert text[|Quote|..] == after;
    ContentReads(s, tail);
    StringInnerIs(text);
    assert (Quote + tail)[|Quote|..] == tail;
    assert [Node(StringContent, s, [], false)] + [] == [Node(StringContent, s, [], false)];
  }

  lemma StringReads(s: string, tail: string)
    requires !Peg.Occurs(s, Quote)
    ensures StringTree(Quote + s + Quote + tail) == Read([InnerTree(Str(s))], tail)
  {
    hide Quote, StringInner, Peg.Occurs;
    InnerReads(s, tail);
    assert Quote + s + Quote + tail == Quote + (s + (Quote + tail));
    WrapReads(StringRule, Quote + s + Quote, tail, [Node(StringContent, s, [], false)]);
  }

  lemma KeyReads(key: string, tail: string)
    requires IsKey(key)
    ensures KeyTree(key + ":" + tail) == Read([KeyNode(key)], tail)
  {
    hide Peg.Parse, Leaf, KeyName;
    var s := key + ":" + tail;
    assert s == key + (":" + tail);
    NameReads(key, tail);
    assert (":" + tail)[1..] == tail;
    assert [Node(DictKeyName, key, [], false)] + [] == [Node(DictKeyName, key, [], false)];
    assert KeyInner(s) == Read([Node(DictKeyName, key, [], false)], tail);
    WrapReads(DictKey, key + ":", tail, [Node(DictKeyName, key, [], false)]);
  }

  lemma NameReads(key: string, tail: string)
    requires IsKey(key)
    ensures Leaf(DictKeyName, KeyName, key + (":" + tail)) == Read([Node(DictKeyName, key, [], false)], ":" + tail)
  {
    hide Peg.Parse;
    RunReads(key, ":" + tail, ":}", true, 1);
    LeafReads(DictKeyName, KeyName, key, ":" + tail);
  }

  // ---------------------------------------------------------------- lists

  /** A text that is read as one element wherever a delimiter follows. */
  predicate ReadsAt(rule: Rule, text: string, n: Node, tail: string) {
    Delimits(tail) ==> Element(rule, text + tail) == Read([n], tail)
  }

  predicate Starts(rule: Rule, text: string) { text != "" && !IsSpace(text[0]) && text[0] != Close(rule)[0] }

  ghost predicate ReadsAs(rule: Rule, text: string, n: Node) {
    Starts(rule, text) && forall tail: string :: ReadsAt(rule, text, n, tail)
  }

  ghost predicate AllRead(rule: Rule, texts: seq<string>, ns: seq<Node>) {
    |texts| == |ns| && forall i :: 0 <= i < |texts| ==> ReadsAs(rule, texts[i], ns[i])
  }

  lemma {:induction false} FollowingReads(rule: Rule, texts: seq<string>, ns: seq<Node>, tail: string)
    requires AllRead(rule, texts, ns) && tail != "" && tail[0] == Close(rule)[0]
    ensures MoreElements(rule, Following(texts) + tail) == Read(ns, tail)
    ensures Delimits(Following(texts) + tail)
    decreases |texts|
  {
    hide Element, MoreElements, ReadsAs, Starts;
    if texts == [] {
      assert Following(texts) + tail == tail;
      MoreStops(rule, tail);
    } else {
      var after := Following(texts[1..]) + tail;
      FollowingReads(rule, texts[1..], ns[1..], tail);
      assert Following(texts) + tail == "," + (texts[0] + after);
      ReadsThere(rule, texts[0], ns[0], after);
      NextReads(rule, texts[0], ns[0], after);
      assert ns == [ns[0]] + ns[1..];
    }
  }

  lemma ReadsThere(rule: Rule, text: string, n: Node, tail: string)
    requires ReadsAs(rule, text, n) && Delimits(tail)
    ensures Starts(rule, text) && Element(rule, text + tail) == Read([n], tail)
  {
    hide Element;
    assert ReadsAt(rule, text, n, tail);
  }

  lemma NextReads(rule: Rule, text: string, n: Node, after: string)
    requires Starts(rule, text) && Element(rule, text + after) == Read([n], after)
    ensures MoreElements(rule, "," + (text + after)) == After([n], MoreElements(rule, after))
  {
    hide Element, MoreElements;
    var s := "," + (text + after);
    assert s[1..] == text + after && Peg.SkipSpace(s[1..]) == s[1..];
    MoreIs(rule, s);
  }

  lemma BlockReads(rule: Rule, texts: seq<string>, ns: seq<Node>, rest: string)
    requires (rule == DictRule || rule == ArrayRule) && AllRead(rule, texts, ns)
    ensures var text := Open(rule) + Listed(texts) + Close(rule);
            Block(rule, text + rest) == Read([Node(rule, text, ns, false)], rest)
  {
    hide Element, MoreElements, BlockRest;
    var text := Open(rule) + Listed(texts) + Close(rule);
    var inner := Listed(texts) + (Close(rule) + rest);
    var s := text + rest;
    assert s == Open(rule) + inner && s[1..] == inner;
    InsideReads(rule, texts, ns, rest);
    assert Peg.SkipSpace(inner) == inner;
    assert BlockInner(rule, s) == Read(ns, rest);
  }

  lemma InsideReads(rule: Rule, texts: seq<string>, ns: seq<Node>, rest: string)
    requires (rule == DictRule || rule == ArrayRule) && AllRead(rule, texts, ns)
    ensures var inner := Listed(texts) + (Close(rule) + rest);
            BlockRest(rule, inner) == Read(ns, rest) && !Peg.StartsWithSpace(inner)
  {
    hide Element, MoreElements;
    var tail := Close(rule) + rest;
    var inner := Listed(texts) + tail;
    assert tail[1..] == rest;
    if texts == [] {
      assert inner == tail;
    } else {
      var after := Following(texts[1..]) + tail;
      FollowingReads(rule, texts[1..], ns[1..], tail);
      assert inner == texts[0] + after;
      ReadsThere(rule, texts[0], ns[0], after);
      assert inner[0] == texts[0][0];
      ElementsAre(rule, inner);
      assert [ns[0]] + ns[1..] == ns && ns + [] == ns;
      assert Elements(rule, inner) == Read(ns, tail);
    }
  }

  // ---------------------------------------------------------------- values

  lemma RenderStarts(v: Value)
    requires Printable(v)
    ensures Starts(ArrayRule, Render(v)) && Starts(DictRule, Render(v))
  {
    hide IsNumber, Digits, NumberChars;
    match v
    case Num(t, w) =>
      NumberIsNumeric(t);
      DigitIs(t[0]);
    case _ =>
  }

  lemma LeafValueReads(v: Value, tail: string)
    requires Printable(v) && !v.Arr? && !v.Dict?
    requires !Peg.StartsWithSpace(tail) && (v.Num? ==> EndsNumber(v.trail, tail))
    ensures ValueInner(Render(v) + tail) == Read([InnerTree(v)], tail)
  {
    hide ValueInner, ByFirst, InnerTree, EndsNumber, Starts;
    var s := Render(v) + tail;
    RenderNotEmpty(v);
    ValueByFirst(s);
    if v.Str? {
      QuotedReads(v, tail);
    } else if v.Num? {
      NumberValueReads(v, tail);
    } else {
      WordReads(v, tail);
    }
  }

  lemma RenderNotEmpty(v: Value)
    requires Printable(v)
    ensures Render(v) != ""
  {
    RenderStarts(v);
  }

  lemma QuotedReads(v: Value, tail: string)
    requires Printable(v) && v.Str?
    ensures ByFirst(Render(v) + tail) == Read([InnerTree(v)], tail)
  {
    hide Leaf, StringTree, Block, InnerTree;
    StringReads(v.content, tail);
    assert (Render(v) + tail)[0] == '<';
  }

  lemma NumberValueReads(v: Value, tail: string)
    requires Printable(v) && v.Num? && EndsNumber(v.trail, tail)
    ensures ByFirst(Render(v) + tail) == Read([InnerTree(v)], tail)
  {
    hide Leaf, StringTree, Block, JsonNumber, IsNumber, Digits, EndsNumber;
    NumberIsNumeric(v.digits);
    var s := Render(v) + tail;
    assert s[0] == v.digits[0];
    DigitIs(s[0]);
    NumberReads(v.digits, v.trail, tail);
    LeafReads(NumberRule, JsonNumber, v.digits + v.trail, tail);
  }

  lemma WordReads(v: Value, tail: string)
    requires Printable(v) && !Peg.StartsWithSpace(tail) && (v.Bool? || v.Null?)
    ensures ByFirst(Render(v) + tail) == Read([InnerTree(v)], tail)
  {
    hide Leaf, StringTree, Block, JsonNumber, JsonBool, JsonNull;
    if v.Bool? {
      BoolReads(v.b, v.trail, tail);
      LeafReads(BoolRule, JsonBool, Word(v.b) + v.trail, tail);
    } else {
      NullReads(v.trail, tail);
      LeafReads(NullRule, JsonNull, "null" + v.trail, tail);
    }
  }

  /** The text of every value is read as the tree that spells it. */
  lemma {:induction false} ValueReads(v: Value, tail: string)
    requires Printable(v) && Delimits(tail)
    ensures ValueTree(Render(v) + tail) == Read([Tree(v)], tail)
    decreases v, 1
  {
    hide Leaf, StringTree, Block, Wrap, ValueInner, Listed, InnerTree;
    var s := Render(v) + tail;
    if v.Arr? || v.Dict? {
      InnerValueReads(v, tail);
      assert s[0] == Render(v)[0];
      ValueByFirst(s);
    } else {
      DelimiterIs(tail);
      LeafValueReads(v, tail);
    }
    WrapReads(ValueRule, Render(v), tail, [InnerTree(v)]);
  }

  /** The text of a dictionary or an array is read as its tree, whatever follows. */
  lemma InnerValueReads(v: Value, rest: string)
    requires Printable(v) && (v.Arr? || v.Dict?)
    ensures Block(if v.Arr? then ArrayRule else DictRule, Render(v) + rest) == Read([InnerTree(v)], rest)
    decreases v, 0
  {
    hide Block, Listed;
    if v.Arr? {
      ItemsRead(v.items);
      BlockReads(ArrayRule, ItemTexts(v.items), ItemTrees(v.items), rest);
    } else {
      MembersRead(v.members);
      BlockReads(DictRule, MemberTexts(v.members), MemberTrees(v.members), rest);
    }
  }

  lemma {:induction false} ItemsRead(items: seq<Value>)
    requires forall i :: 0 <= i < |items| ==> Printable(items[i])
    ensures AllRead(ArrayRule, ItemTexts(items), ItemTrees(items))
    decreases items, 0
  {
    hide Element, Printable, Render, ReadsAs;
    if items != [] {
      var v := items[0];
      ItemReads(v);
      ItemsRead(items[1..]);
    }
  }

  lemma ItemReads(v: Value)
    requires Printable(v)
    ensures ReadsAs(ArrayRule, Render(v), Tree(v))
    decreases v, 2
  {
    hide Printable, Render, ValueTree, Tree;
    RenderStarts(v);
    forall tail: string ensures ReadsAt(ArrayRule, Render(v), Tree(v), tail) {
      if Delimits(tail) { ValueReads(v, tail); }
    }
  }

  lemma {:induction false} MembersRead(members: seq<Member>)
    requires forall i :: 0 <= i < |members| ==> IsKey(members[i].key) && Printable(members[i].value)
    ensures AllRead(DictRule, MemberTexts(members), MemberTrees(members))
    decreases members, 0
  {
    hide Element, Printable, Render, ReadsAs, IsKey, MemberTree;
    if members != [] {
      MemberReads(members[0]);
      MembersRead(members[1..]);
    }
  }

  lemma MemberReads(m: Member)
    requires IsKey(m.key) && Printable(m.value)
    ensures ReadsAs(DictRule, m.key + ":" + Render(m.value), MemberTree(m))
    decreases m, 2
  {
    hide Printable, Render, ValueTree, Tree, KeyTree, KeyNode, Wrap;
    var text := m.key + ":" + Render(m.value);
    RenderStarts(m.value);
    assert text[0] == m.key[0];
    forall tail: string ensures ReadsAt(DictRule, text, MemberTree(m), tail) {
      if Delimits(tail) {
        var after := Render(m.value) + tail;
        assert text + tail == m.key + ":" + after;
        KeyReads(m.key, after);
        ValueReads(m.value, tail);
        assert Peg.SkipSpace(after) == after;
        assert [KeyNode(m.key)] + [Tree(m.value)] == MemberTree(m).children;
        assert MemberInner(text + tail) == Read(MemberTree(m).children, tail);
        WrapReads(DictKv, text, tail, MemberTree(m).children);
      }
    }
  }

  // ---------------------------------------------------------------- whole arguments

  lemma {:induction false} TreeSpells(v: Value)
    requires Printable(v)
    ensures IsValue(v) && Spells(Tree(v), v)
    decreases v, 1
  {
    hide IsNumber, Digits, NumberChars;
    RenderStarts(v);
    match v
    case Arr(items) => ItemTreesSpell(items);
    case Dict(members) => MemberTreesSpell(members);
    case _ =>
  }

  lemma {:induction false} ItemTreesSpell(items: seq<Value>)
    requires forall i :: 0 <= i < |items| ==> Printable(items[i])
    ensures SpellsItems(ItemTrees(items), items) && |ItemTrees(items)| == |items|
    ensures forall i :: 0 <= i < |items| ==> IsValue(items[i])
    decreases items, 0
  {
    hide Printable, Spells, IsValue, Tree;
    if items != [] {
      TreeSpells(items[0]);
      ItemTreesSpell(items[1..]);
      assert forall i :: 1 <= i < |items| ==> items[i] == items[1..][i - 1];
    }
  }

  lemma {:induction false} MemberTreesSpell(members: seq<Member>)
    requires forall i :: 0 <= i < |members| ==> IsKey(members[i].key) && Printable(members[i].value)
    ensures SpellsMembers(MemberTrees(members), members) && |MemberTrees(members)| == |members|
    ensures forall i :: 0 <= i < |members| ==> members[i].key != "" && IsValue(members[i].value)
    decreases members, 0
  {
    hide Printable, Spells, IsValue, Tree;
    if members != [] {
      TreeSpells(members[0].value);
      MemberTreesSpell(members[1..]);
      assert forall i :: 1 <= i < |members| ==> members[i] == members[1..][i - 1];
    }
  }

  /** What the template prints for the arguments of a call becomes their JSON, whatever text follows. */
  lemma ArgumentsRoundTrip(members: seq<Member>, rest: string)
    requires Printable(Dict(members))
    ensures var r := Block(DictRule, Render(Dict(members)) + rest);
            r.Read? && r.rest == rest && |r.nodes| == 1 && ToJson(r.nodes[0]) == Print(Dict(members))
  {
    hide Block, Printable, Render, Spells, IsValue, ToJson, Print;
    var v := Dict(members);
    InnerValueReads(v, rest);
    TreeSpells(v);
    CompleteTree(Tree(v), v);
    OnlyChild(v);
  }

  lemma OnlyChild(v: Value)
    requires Printable(v)
    ensures ToJson(Tree(v)) == ToJson(InnerTree(v))
  {
    RenderStarts(v);
  }
}
