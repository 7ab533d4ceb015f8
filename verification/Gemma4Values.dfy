/**
 Texts, trees and values of the Gemma4 value grammar: every tree that is read spells a value,
 and the text that models/templates/google-gemma-4-31B-it.jinja prints for a value is read as
 the tree that spells it.
 */
module Gemma4Values {
  import opened Text
  import opened JsonText
  import opened Gemma4Json
  import opened Gemma4Grammar
  import opened Gemma4Leaves
  import opened Gemma4Growth
  import GrowingParses
  import Peg

  // ---------------------------------------------------------------- every tree spells a value

  lemma {:induction false} SpaceTakes(s: string) returns (w: string)
    ensures s == w + Peg.SkipSpace(s) && AllSpace(w)
    decreases |s|
  {
    if s != "" && IsSpace(s[0]) {
      var v := SpaceTakes(s[1..]);
      w := [s[0]] + v;
    } else {
      w := "";
    }
  }

  lemma SignTakes(s: string) returns (sign: string)
    requires Peg.Parse(Peg.Maybe(Peg.Literal("-")), s).Success?
    ensures IsSign(sign) && s == sign + Peg.Parse(Peg.Maybe(Peg.Literal("-")), s).rest
  {
    MaybeIs(Peg.Literal("-"), s);
    sign := if "-" <= s then "-" else "";
  }

  lemma RunTakes(s: string, chars: string, least: nat, most: int) returns (run: string)
    requires Peg.Parse(Peg.Chars(chars, false, least, most), s).Success?
    ensures s == run + Peg.Parse(Peg.Chars(chars, false, least, most), s).rest
    ensures |run| >= least && (most >= 0 ==> |run| <= most) && forall i :: 0 <= i < |run| ==> run[i] in chars
  {
    MatchingHolds(s, chars, false, most);
    run := s[..Peg.Matching(s, chars, false, most)];
  }

  lemma WholeTakes(s: string) returns (whole: string)
    requires Peg.Parse(IntPart, s).Success?
    ensures IsWhole(whole) && s == whole + Peg.Parse(IntPart, s).rest
  {
    hide Digits;
    GrowingParses.ChoiceIs(IntPart.option, IntPart.others, s);
    if "0" <= s {
      whole := "0";
    } else {
      var first := IntPart.others.first;
      SeqIs(first, IntPart.others.second, s);
      var head := RunTakes(s, "123456789", 1, 1);
      var tail := RunTakes(Peg.Parse(first, s).rest, Digits, 0, -1);
      whole := head + tail;
      DigitIs(head[0]);
    }
  }

  lemma FractionTakes(s: string) returns (fraction: string)
    requires Peg.Parse(Peg.Maybe(Fraction), s).Success?
    ensures IsFraction(fraction) && s == fraction + Peg.Parse(Peg.Maybe(Fraction), s).rest
  {
    hide Digits, Peg.Parse;
    MaybeIs(Fraction, s);
    fraction := "";
    if Peg.Parse(Fraction, s).Success? {
      SeqIs(Fraction.first, Fraction.second, s);
      var dot := LiteralTakes(".", s);
      var run := RunTakes(Peg.Parse(Fraction.first, s).rest, Digits, 1, -1);
      fraction := dot + run;
    }
  }

  lemma LiteralTakes(l: string, s: string) returns (text: string)
    requires Peg.Parse(Peg.Literal(l), s).Success?
    ensures text == l && s == l + Peg.Parse(Peg.Literal(l), s).rest
  {
    text := l;
  }

  lemma ExponentTakes(s: string) returns (exponent: string)
    requires Peg.Parse(Peg.Maybe(Exponent), s).Success?
    ensures IsExponent(exponent) && s == exponent + Peg.Parse(Peg.Maybe(Exponent), s).rest
  {
    hide Digits, Peg.Parse;
    var e, signs := Exponent.first, Exponent.second.first.child;
    MaybeIs(Exponent, s);
    exponent := "";
    if Peg.Parse(Exponent, s).Success? {
      SeqIs(e, Exponent.second, s);
      GrowingParses.ChoiceIs(e.option, e.others, s);
      var letter := LiteralTakes(if Peg.Parse(e.option, s).Fail? then "E" else "e", s);
      var a := Peg.Parse(e, s).rest;
      SeqIs(Exponent.second.first, Exponent.second.second, a);
      MaybeIs(signs, a);
      var sign := "";
      if Peg.Parse(signs, a).Success? {
        sign := RunTakes(a, "+-", 1, 1);
      }
      var b := Peg.Parse(Exponent.second.first, a).rest;
      assert a == sign + b;
      var run := RunTakes(b, Digits, 1, -1);
      exponent := letter + sign + run;
      ExponentIs(letter, sign, run);
    }
  }

  lemma ExponentIs(letter: string, sign: string, run: string)
    requires (letter == "e" || letter == "E") && IsDigits(run)
    requires sign == "" || (|sign| == 1 && sign[0] in "+-")
    ensures IsExponent(letter + sign + run)
  {
    hide Digits;
    var t := letter + sign + run;
    assert t[1..] == sign + run;
    if sign != "" { assert t[2..] == run; }
  }

  lemma NumeralTakes(s: string) returns (t: string)
    requires Peg.Parse(Numeral, s).Success?
    ensures IsNumber(t) && s == t + Peg.Parse(Numeral, s).rest
  {
    hide Peg.Parse, IsSign, IsWhole, IsFraction, IsExponent;
    SeqIs(Numeral.first, Numeral.second, s);
    var a := Peg.Parse(Numeral.first, s).rest;
    SeqIs(IntPart, Numeral.second.second, a);
    var b := Peg.Parse(IntPart, a).rest;
    SeqIs(Peg.Maybe(Fraction), Peg.Maybe(Exponent), b);
    var sign := SignTakes(s);
    var whole := WholeTakes(a);
    var fraction := FractionTakes(b);
    var exponent := ExponentTakes(Peg.Parse(Peg.Maybe(Fraction), b).rest);
    t := sign + whole + fraction + exponent;
  }

  lemma NumberSpells(s: string) returns (v: Value)
    requires Peg.Parse(JsonNumber, s).Success?
    ensures IsValue(v) && SpellsInner(Leaf(NumberRule, JsonNumber, s).nodes[0], v)
  {
    hide Peg.Parse, IsNumber;
    SeqIs(Numeral, NumberEnd, s);
    var t := NumeralTakes(s);
    var mid := Peg.Parse(Numeral, s).rest;
    NumberEndIs(mid);
    var w := SpaceTakes(mid);
    assert s == t + w + Peg.SkipSpace(mid);
    v := Num(t, w);
    NumberIsNumeric(t);
    NumberLeaf(s, v);
  }

  lemma NumberLeaf(s: string, v: Value)
    requires Peg.Parse(JsonNumber, s).Success? && v.Num?
    requires s == v.digits + v.trail + Peg.Parse(JsonNumber, s).rest
    ensures SpellsInner(Leaf(NumberRule, JsonNumber, s).nodes[0], v)
  {
    hide Peg.Parse;
    TextTaken(v.digits + v.trail, Peg.Parse(JsonNumber, s).rest);
  }

  lemma TextTaken(text: string, rest: string)
    ensures Peg.Consumed(text + rest, rest) == text
  {
  }

  lemma SpacedTakes(word: string, s: string) returns (w: string)
    requires word <= s
    ensures AllSpace(w) && Peg.Consumed(s, Peg.SkipSpace(s[|word|..])) == word + w
  {
    w := SpaceTakes(s[|word|..]);
    assert s == word + w + Peg.SkipSpace(s[|word|..]);
    TextTaken(word + w, Peg.SkipSpace(s[|word|..]));
  }

  lemma BoolSpells(s: string) returns (v: Value)
    requires Leaf(BoolRule, JsonBool, s).Read?
    ensures IsValue(v) && SpellsInner(Leaf(BoolRule, JsonBool, s).nodes[0], v)
  {
    hide Peg.Parse;
    BoolIs(s);
    var b := "true" <= s;
    var w := SpacedTakes(Word(b), s);
    v := Bool(b, w);
  }

  lemma NullSpells(s: string) returns (v: Value)
    requires Leaf(NullRule, JsonNull, s).Read?
    ensures IsValue(v) && SpellsInner(Leaf(NullRule, JsonNull, s).nodes[0], v)
  {
    hide Peg.Parse;
    WordIs("null", s);
    var w := SpacedTakes("null", s);
    v := Null(w);
  }

  lemma StringSpells(s: string) returns (v: Value)
    requires StringTree(s).Read?
    ensures IsValue(v) && SpellsInner(StringTree(s).nodes[0], v)
  {
    hide Peg.Parse;
    StringAdvances(s);
    var content := Leaf(StringContent, Peg.Until(Quote), s[|Quote|..]);
    assert content.nodes + [] == content.nodes;
    v := Str(content.nodes[0].text);
  }

  lemma KeySpells(s: string) returns (key: string)
    requires KeyTree(s).Read?
    ensures key != "" && SpellsKey(KeyTree(s).nodes[0], key)
  {
    KeyAdvances(s);
    var name := Leaf(DictKeyName, KeyName, s);
    assert name.nodes + [] == name.nodes;
    key := name.nodes[0].text;
  }

  /** Every tree that is read for a value spells one. */
  lemma ValueSpells(s: string) returns (v: Value)
    requires ValueTree(s).Read?
    ensures IsValue(v) && Spells(ValueTree(s).nodes[0], v)
    decreases |s|, 1
  {
    hide Leaf, StringTree, Block, JsonNumber, JsonBool, JsonNull, SpellsInner;
    if s == "" {
      NothingIsShort();
      assert false;
    }
    ValueByFirst(s);
    ValueAdvances(s);
    OneNode(s);
    if s[0] == '<' {
      v := StringSpells(s);
    } else if s[0] == '{' {
      v := BlockSpells(DictRule, s);
    } else if s[0] == '[' {
      v := BlockSpells(ArrayRule, s);
    } else if s[0] == '-' || s[0] in Digits {
      LeafRead(NumberRule, JsonNumber, s);
      v := NumberSpells(s);
    } else if s[0] == 't' || s[0] == 'f' {
      v := BoolSpells(s);
    } else {
      v := NullSpells(s);
    }
  }

  lemma OneNode(s: string)
    requires s != "" && ByFirst(s).Read?
    ensures |ByFirst(s).nodes| == 1
  {
  }

  lemma LeafRead(rule: Rule, p: Peg.Parser, s: string)
    requires Leaf(rule, p, s).Read?
    ensures Peg.Parse(p, s).Success?
  {
  }

  /** What the nodes of a dictionary or an array spell. */
  datatype Spelled = Items(items: seq<Value>) | Members(members: seq<Member>)

  ghost predicate SpellsAll(rule: Rule, ns: seq<Node>, all: Spelled) {
    if rule == DictRule then
      && all.Members? && SpellsMembers(ns, all.members)
      && forall i :: 0 <= i < |all.members| ==> all.members[i].key != "" && IsValue(all.members[i].value)
    else
      all.Items? && SpellsItems(ns, all.items) && forall i :: 0 <= i < |all.items| ==> IsValue(all.items[i])
  }

  function Nothing(rule: Rule): Spelled { if rule == DictRule then Members([]) else Items([]) }

  function Joined(a: Spelled, b: Spelled): Spelled {
    if a.Items? && b.Items? then Items(a.items + b.items)
    else if a.Members? && b.Members? then Members(a.members + b.members)
    else a
  }

  lemma SpellsMore(rule: Rule, n: Node, first: Spelled, ns: seq<Node>, others: Spelled)
    requires SpellsAll(rule, [n], first) && SpellsAll(rule, ns, others)
    ensures SpellsAll(rule, [n] + ns, Joined(first, others))
  {
    hide Spells, SpellsKey, IsValue;
    assert ([n] + ns)[1..] == ns;
    if rule == DictRule {
      SpellsOne(n, first);
      assert (first.members + others.members)[1..] == others.members;
    } else {
      assert (first.items + others.items)[1..] == others.items;
    }
  }

  lemma SpellsOne(n: Node, first: Spelled)
    requires SpellsAll(DictRule, [n], first)
    ensures |first.members| == 1
  {
  }

  lemma MemberSpells(s: string) returns (m: Member)
    requires Element(DictRule, s).Read?
    ensures SpellsAll(DictRule, Element(DictRule, s).nodes, Members([m]))
    decreases |s|, 3
  {
    hide KeyTree, ValueTree, SpellsKey, Spells, IsValue;
    KeyAdvances(s);
    ElementAdvances(DictRule, s);
    var key := KeySpells(s);
    var rest := Peg.SkipSpace(KeyTree(s).rest);
    var v := ValueSpells(rest);
    m := Member(key, v);
    var n := Element(DictRule, s).nodes[0];
    OneKey(s);
    OneValue(rest);
    assert n.children == [KeyTree(s).nodes[0], ValueTree(rest).nodes[0]];
    OneMember(n, m);
  }

  lemma OneMember(n: Node, m: Member)
    requires Whole(n, DictKv, 2) && m.key != "" && IsValue(m.value)
    requires SpellsKey(n.children[0], m.key) && Spells(n.children[1], m.value)
    ensures SpellsAll(DictRule, [n], Members([m]))
  {
    hide SpellsKey, Spells, IsValue;
    assert [m][1..] == [] && [n][1..] == [];
    assert SpellsMembers([], []);
    assert SpellsMembers([n], [m]);
  }

  lemma OneItem(n: Node, v: Value)
    requires Spells(n, v) && IsValue(v)
    ensures SpellsAll(ArrayRule, [n], Items([v]))
  {
    hide Spells, IsValue;
    assert [v][1..] == [] && [n][1..] == [];
    assert SpellsItems([], []);
    assert SpellsItems([n], [v]);
  }

  lemma OneKey(s: string)
    requires KeyTree(s).Read?
    ensures |KeyTree(s).nodes| == 1
  {
  }

  lemma OneValue(s: string)
    requires ValueTree(s).Read?
    ensures |ValueTree(s).nodes| == 1
  {
  }

  lemma ElementSpells(rule: Rule, s: string) returns (e: Spelled)
    requires Element(rule, s).Read?
    requires rule == DictRule || rule == ArrayRule
    ensures SpellsAll(rule, Element(rule, s).nodes, e) && |Element(rule, s).nodes| == 1
    decreases |s|, 4
  {
    hide Spells, IsValue, MemberInner, ValueTree, SpellsAll;
    if rule == DictRule {
      var m := MemberSpells(s);
      e := Members([m]);
    } else {
      var v := ValueSpells(s);
      OneValue(s);
      OneItem(ValueTree(s).nodes[0], v);
      assert Element(rule, s).nodes == [ValueTree(s).nodes[0]];
      e := Items([v]);
    }
  }

  lemma MoreSpell(rule: Rule, s: string) returns (all: Spelled)
    requires (rule == DictRule || rule == ArrayRule) && MoreElements(rule, s).Read?
    ensures SpellsAll(rule, MoreElements(rule, s).nodes, all)
    decreases |s|, 5
  {
    hide Element, SpellsAll;
    all := Nothing(rule);
    NothingSpelled(rule);
    if "," <= s {
      MoreIs(rule, s);
      var a := Peg.SkipSpace(s[1..]);
      if Element(rule, a).Read? {
        var e := ElementSpells(rule, a);
        var others := MoreSpell(rule, Element(rule, a).rest);
        assert Element(rule, a).nodes == [Element(rule, a).nodes[0]];
        SpellsMore(rule, Element(rule, a).nodes[0], e, MoreElements(rule, Element(rule, a).rest).nodes, others);
        all := Joined(e, others);
      }
    }
  }

  lemma NothingSpelled(rule: Rule)
    ensures SpellsAll(rule, [], Nothing(rule))
  {
  }

  lemma RestSpells(rule: Rule, s: string) returns (all: Spelled)
    requires (rule == DictRule || rule == ArrayRule) && BlockRest(rule, s).Read?
    ensures SpellsAll(rule, BlockRest(rule, s).nodes, all)
    decreases |s|, 6
  {
    hide Element, SpellsAll, MoreElements;
    if Exact(Close(rule), s).Refused? {
      var e := ElementSpells(rule, s);
      ElementAdvances(rule, s);
      var rest := Element(rule, s).rest;
      var others := MoreSpell(rule, rest);
      assert Element(rule, s).nodes == [Element(rule, s).nodes[0]];
      SpellsMore(rule, Element(rule, s).nodes[0], e, MoreElements(rule, rest).nodes, others);
      all := Joined(e, others);
      assert Elements(rule, s).nodes + [] == Elements(rule, s).nodes;
    } else {
      all := Nothing(rule);
      NothingSpelled(rule);
    }
  }

  /** Every dictionary and every array that is read spells one. */
  lemma BlockSpells(rule: Rule, s: string) returns (v: Value)
    requires (rule == DictRule || rule == ArrayRule) && Block(rule, s).Read?
    ensures IsValue(v) && SpellsInner(Block(rule, s).nodes[0], v)
    decreases |s|, 0
  {
    hide BlockRest;
    BlockAdvances(rule, s);
    var all := RestSpells(rule, Peg.SkipSpace(s[1..]));
    v := if rule == DictRule then Dict(all.members) else Arr(all.items);
    SpelledLengths(rule, Block(rule, s).nodes[0].children, all);
  }

  lemma SpelledLengths(rule: Rule, ns: seq<Node>, all: Spelled)
    requires SpellsAll(rule, ns, all)
    ensures |ns| == if rule == DictRule then |all.members| else |all.items|
  {
  }

  /** So the arguments of every completed call are the balanced JSON print of a value. */
  lemma ArgumentsSpell(s: string) returns (v: Value)
    requires Block(DictRule, s).Read?
    ensures IsValue(v) && |Block(DictRule, s).nodes| == 1 && SpellsInner(Block(DictRule, s).nodes[0], v)
    ensures ToJson(Block(DictRule, s).nodes[0]) == Print(v) && BraceDepth(Print(v)) == 0
  {
    hide ToJson, SpellsInner, IsValue, BlockInner;
    v := BlockSpells(DictRule, s);
    InnerTree(Block(DictRule, s).nodes[0], v);
    PrintIsBalanced(0, v);
  }

  lemma InnerTree(n: Node, v: Value)
    requires IsValue(v) && SpellsInner(n, v)
    ensures ToJson(n) == Print(v)
  {
    hide SpellsInner, IsValue;
    var whole := Node(ValueRule, "x", [n], false);
    CompleteTree(whole, v);
    assert ToJson(whole) == ToJson(n);
  }
}
