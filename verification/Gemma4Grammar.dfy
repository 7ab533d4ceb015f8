/**
 The value grammar of Gemma4 tool calls in common/chat.cpp, parsed as common/peg-parser.cpp
 does in lenient mode: which syntax tree a text gives, complete or cut off. Every tree that
 is read spells a value, and the text of every value is read as the tree that spells it.
 */
module Gemma4Grammar {
  import opened Text
  import opened JsonText
  import opened Gemma4Json
  import Peg

  const Quote := "<|\"|>"

  // ---------------------------------------------------------------- outcomes with trees

  /** A parse that is refused, complete, or short of input; a short one always takes the whole text. */
  datatype Trees = Refused | Read(nodes: seq<Node>, rest: string) | Short(nodes: seq<Node>)

  /** A parser without rules inside leaves no nodes. */
  function Plain(r: Peg.Outcome): Trees {
    match r
    case Fail => Refused
    case Success(_, rest) => Read([], rest)
    case NeedMore(_, _) => Short([])
  }

  function After(nodes: seq<Node>, r: Trees): Trees {
    match r
    case Refused => Refused
    case Read(more, rest) => Read(nodes + more, rest)
    case Short(more) => Short(nodes + more)
  }

  /** The node of a rule; the children of leaves, which no translation looks at, are left out. */
  function Wrap(rule: Rule, s: string, r: Trees): Trees {
    match r
    case Refused => Refused
    case Read(nodes, rest) => Read([Node(rule, Peg.Consumed(s, rest), nodes, false)], rest)
    case Short(nodes) => Short([Node(rule, s, nodes, true)])
  }

  function Exact(l: string, s: string): (r: Trees)
    ensures r.Read? <==> l <= s
    ensures r.Short? <==> s <= l && s != l
    ensures r.Read? ==> r == Read([], s[|l|..])
    ensures r.Short? ==> r.nodes == []
  {
    Plain(Peg.Parse(Peg.Literal(l), s))
  }

  // ---------------------------------------------------------------- leaves

  const IntPart :=
    Peg.Choice(Peg.Literal("0"), Peg.Seq(Peg.Chars("123456789", false, 1, 1), Peg.Chars(Digits, false, 0, -1)))

  const Fraction := Peg.Seq(Peg.Literal("."), Peg.Chars(Digits, false, 1, -1))

  const Exponent :=
    Peg.Seq(Peg.Choice(Peg.Literal("e"), Peg.Literal("E")),
            Peg.Seq(Peg.Maybe(Peg.Chars("+-", false, 1, 1)), Peg.Chars(Digits, false, 1, -1)))

  const Numeral :=
    Peg.Seq(Peg.Maybe(Peg.Literal("-")), Peg.Seq(IntPart, Peg.Seq(Peg.Maybe(Fraction), Peg.Maybe(Exponent))))

  /** A number is only taken when the next character cannot belong to it. */
  const JsonNumber := Peg.Seq(Numeral, Peg.Seq(Peg.Not(Peg.Chars(NumberChars, false, 1, 1)), Peg.Space))

  const JsonBool := Peg.Seq(Peg.Choice(Peg.Literal("true"), Peg.Literal("false")), Peg.Space)

  const JsonNull := Peg.Seq(Peg.Literal("null"), Peg.Space)

  const KeyName := Peg.Chars(":}", true, 1, -1)

  function Leaf(rule: Rule, p: Peg.Parser, s: string): Trees {
    Wrap(rule, s, Plain(Peg.Parse(p, s)))
  }

  // ---------------------------------------------------------------- rules

  function StringInner(s: string): Trees {
    if !Exact(Quote, s).Read? then Exact(Quote, s) else
    var content := Leaf(StringContent, Peg.Until(Quote), s[|Quote|..]);
    if content.Read? then After(content.nodes, Exact(Quote, content.rest)) else content
  }

  function KeyInner(s: string): Trees {
    var name := Leaf(DictKeyName, KeyName, s);
    if name.Read? then After(name.nodes, Exact(":", name.rest)) else name
  }

  function StringTree(s: string): Trees { Wrap(StringRule, s, StringInner(s)) }

  function KeyTree(s: string): Trees { Wrap(DictKey, s, KeyInner(s)) }

  lemma KeyAdvances(s: string)
    ensures KeyTree(s).Read? ==> |KeyTree(s).rest| + 2 <= |s|
  {
  }

  function MemberInner(s: string): (r: Trees)
    ensures r.Read? ==> |r.rest| <= |s|
    decreases |s|, 4
  {
    KeyAdvances(s);
    var key := KeyTree(s);
    if key.Read? then After(key.nodes, ValueTree(Peg.SkipSpace(key.rest))) else key
  }

  function ValueInner(s: string): (r: Trees)
    ensures r.Read? ==> |r.rest| <= |s|
    decreases |s|, 2
  {
    if !StringTree(s).Refused? then StringTree(s)
    else if !Block(DictRule, s).Refused? then Block(DictRule, s)
    else if !Block(ArrayRule, s).Refused? then Block(ArrayRule, s)
    else if !Leaf(NumberRule, JsonNumber, s).Refused? then Leaf(NumberRule, JsonNumber, s)
    else if !Leaf(BoolRule, JsonBool, s).Refused? then Leaf(BoolRule, JsonBool, s)
    else Leaf(NullRule, JsonNull, s)
  }

  function ValueTree(s: string): (r: Trees)
    ensures r.Read? ==> |r.rest| <= |s|
    decreases |s|, 3
  {
    Wrap(ValueRule, s, ValueInner(s))
  }

  function Open(rule: Rule): string { if rule == DictRule then "{" else "[" }

  function Close(rule: Rule): string { if rule == DictRule then "}" else "]" }

  function Element(rule: Rule, s: string): (r: Trees)
    ensures r.Read? ==> |r.rest| <= |s|
    decreases |s|, 5
  {
    if rule == DictRule then Wrap(DictKv, s, MemberInner(s)) else ValueTree(s)
  }

  /** The repetition of a comma, whitespace and an element, which stops in front of what it cannot read. */
  function MoreElements(rule: Rule, s: string): (r: Trees)
    ensures !r.Refused? && (r.Read? ==> |r.rest| <= |s|)
    decreases |s|, 6
  {
    if !("," <= s) then Read([], s) else
    var e := Element(rule, Peg.SkipSpace(s[1..]));
    match e
    case Refused => Read([], s)
    case Short(nodes) => Short(nodes)
    case Read(nodes, rest) => After(nodes, MoreElements(rule, rest))
  }

  function Elements(rule: Rule, s: string): (r: Trees)
    ensures r.Read? ==> |r.rest| <= |s|
    decreases |s|, 7
  {
    var e := Element(rule, s);
    if e.Read? then After(e.nodes, MoreElements(rule, e.rest)) else e
  }

  /** What follows an opening brace or bracket and whitespace. */
  function BlockRest(rule: Rule, s: string): (r: Trees)
    ensures r.Read? ==> |r.rest| <= |s|
    decreases |s|, 8
  {
    if !Exact(Close(rule), s).Refused? then Exact(Close(rule), s) else
    var es := Elements(rule, s);
    if es.Read? then After(es.nodes, Exact(Close(rule), Peg.SkipSpace(es.rest))) else es
  }

  function BlockInner(rule: Rule, s: string): (r: Trees)
    ensures r.Read? ==> |r.rest| <= |s|
    decreases |s|, 0
  {
    if Exact(Open(rule), s).Read? then BlockRest(rule, Peg.SkipSpace(s[1..])) else Exact(Open(rule), s)
  }

  /** A dictionary or an array. */
  function Block(rule: Rule, s: string): (r: Trees)
    ensures r.Read? ==> |r.rest| <= |s|
    decreases |s|, 1
  {
    Wrap(rule, s, BlockInner(rule, s))
  }
}
