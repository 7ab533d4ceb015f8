/**
 Gemma4 arguments while their text is still growing: the translation of a later tree
 continues the translation of every earlier one, unless the longer text is refused.
 */
module Gemma4Growth {
  import opened Text
  import opened JsonText
  import opened MessageDiff
  import opened Gemma4Json
  import opened Gemma4Grammar
  import opened Gemma4Leaves
  import GrowingArguments
  import GrowingParses
  import Peg

  // ---------------------------------------------------------------- growing nodes

  /** The same nodes, but for the last one, whose translation may go on. */
  predicate Grown(ns: seq<Node>, ms: seq<Node>) {
    var k := |ns| - 1;
    ns == [] || (|ns| <= |ms| && ns[..k] == ms[..k] && ToJson(ns[k]) <= ToJson(ms[k]))
  }

  /** What is read before the end of the text stays; what reaches the end grows or is refused. */
  predicate Grows(rx: Trees, ry: Trees, more: string) {
    && (rx.Refused? ==> ry.Refused?)
    && (rx.Read? && rx.rest != "" ==> ry == Read(rx.nodes, rx.rest + more))
    && (rx.Short? || (rx.Read? && rx.rest == "") ==> ry.Refused? || Grown(rx.nodes, ry.nodes))
  }

  /** The same for what shows its end: once read it stays. */
  predicate Closes(rx: Trees, ry: Trees, more: string) {
    && (rx.Refused? ==> ry.Refused?)
    && (rx.Read? ==> ry == Read(rx.nodes, rx.rest + more))
    && (rx.Short? ==> ry.Refused? || Grown(rx.nodes, ry.nodes))
  }

  lemma GrownMore(ns: seq<Node>, ms: seq<Node>, after: seq<Node>)
    requires Grown(ns, ms)
    ensures Grown(ns, ms + after)
  {
    hide ToJson;
  }

  lemma GrownAfter(before: seq<Node>, ns: seq<Node>, ms: seq<Node>)
    requires Grown(ns, ms)
    ensures Grown(before + ns, before + ms)
  {
    hide ToJson;
    var k := |ns| - 1;
    if ns != [] {
      assert (before + ns)[..|before| + k] == before + ns[..k];
      assert (before + ms)[..|before| + k] == before + ms[..k];
    } else if before != [] {
      assert before + ns == before;
      var j := |before| - 1;
      assert (before + ms)[..j] == before[..j];
    }
  }

  lemma GrownSame(ns: seq<Node>)
    ensures Grown(ns, ns)
  {
    hide ToJson;
  }

  lemma ClosesGrows(rx: Trees, ry: Trees, more: string)
    requires Closes(rx, ry, more)
    ensures Grows(rx, ry, more)
  {
    if rx.Read? { GrownSame(rx.nodes); }
  }

  lemma FirstGrown(ns: seq<Node>, ms: seq<Node>)
    requires Grown(ns, ms) && ns != []
    ensures ms != [] && ToJson(ns[0]) <= ToJson(ms[0])
  {
    hide ToJson;
    if |ns| > 1 { assert ns[0] == ns[..|ns| - 1][0] == ms[..|ns| - 1][0] == ms[0]; }
  }

  lemma GrownTail(ns: seq<Node>, ms: seq<Node>)
    requires Grown(ns, ms) && |ns| > 1
    ensures ns[0] == ms[0] && Grown(ns[1..], ms[1..])
  {
    hide ToJson;
    var k := |ns| - 1;
    assert ns[..k][0] == ms[..k][0];
    assert ns[1..][..k - 1] == ns[..k][1..] && ms[1..][..k - 1] == ms[..k][1..];
  }

  lemma {:induction false} JoinedGrows(ns: seq<Node>, ms: seq<Node>)
    requires Grown(ns, ms)
    ensures CommaJoined(ns) <= CommaJoined(ms) && Concatenated(ns) <= Concatenated(ms)
    decreases |ns|
  {
    hide ToJson;
    if |ns| == 1 {
      assert ns[1..] == [];
      assert CommaJoined(ns) == ToJson(ns[0]) + "" + "" && Concatenated(ns) == ToJson(ns[0]) + "";
      PrefixUnder("", ToJson(ns[0]), ToJson(ms[0]), (if |ms| > 1 then "," else "") + CommaJoined(ms[1..]));
      PrefixUnder("", ToJson(ns[0]), ToJson(ms[0]), Concatenated(ms[1..]));
    } else if |ns| > 1 {
      GrownTail(ns, ms);
      JoinedGrows(ns[1..], ms[1..]);
      PrefixUnder(ToJson(ns[0]) + ",", CommaJoined(ns[1..]), CommaJoined(ms[1..]), "");
      PrefixUnder(ToJson(ns[0]), Concatenated(ns[1..]), Concatenated(ms[1..]), "");
    }
  }

  /** Members and values have no end of their own, so they may grow even when they were read. */
  predicate IsOpen(rule: Rule) { rule == DictKv || rule == ValueRule }

  lemma BlockNodeGrows(n: Node, m: Node)
    requires n.rule == m.rule && n.partial && (n.rule == ArrayRule || n.rule == DictRule)
    requires n.text != "" && m.text != "" && Grown(n.children, m.children)
    ensures ToJson(n) <= ToJson(m)
  {
    hide Grown;
    var a, b := CommaJoined(n.children), CommaJoined(m.children);
    JoinedGrows(n.children, m.children);
    if n.rule == ArrayRule {
      assert ToJson(n) == "[" + a && ToJson(m) == "[" + b + if m.partial then "" else "]";
      PrefixUnder("[", a, b, if m.partial then "" else "]");
    } else {
      assert ToJson(n) == "{" + a && ToJson(m) == "{" + b + if m.partial then "" else "}";
      PrefixUnder("{", a, b, if m.partial then "" else "}");
    }
  }

  lemma QuotedNodeGrows(n: Node, m: Node)
    requires n.rule == m.rule && n.partial && (n.rule == StringRule || n.rule == DictKey)
    requires n.text != "" && m.text != "" && n.children != [] && Grown(n.children, m.children)
    ensures ToJson(n) <= ToJson(m)
  {
    hide Grown, Escaped;
    FirstGrown(n.children, m.children);
    var a, b := ToJson(n.children[0]), ToJson(m.children[0]);
    if n.rule == StringRule {
      PrefixUnder("\"", a, b, if m.partial then "" else "\"");
    } else {
      EscapedPrefix(a, b);
      PrefixUnder("\"", Escaped(a), Escaped(b), if m.partial then "" else "\":");
    }
  }

  lemma OpenNodeGrows(n: Node, m: Node)
    requires n.rule == m.rule && IsOpen(n.rule) && n.text != "" && m.text != "" && Grown(n.children, m.children)
    ensures ToJson(n) <= ToJson(m)
  {
    hide Grown;
    JoinedGrows(n.children, m.children);
    if n.children != [] { FirstGrown(n.children, m.children); }
  }

  /** A node that is cut off, or shows no end, translates to a prefix of what it grows to. */
  lemma NodeGrows(n: Node, m: Node)
    requires n.rule == m.rule && !IsLeaf(n.rule) && (n.partial || IsOpen(n.rule))
    requires (m.text == "" ==> n.text == "") && Grown(n.children, m.children)
    ensures ToJson(n) <= ToJson(m)
  {
    hide Grown;
    if n.text == "" {
    } else if IsOpen(n.rule) {
      OpenNodeGrows(n, m);
    } else if n.rule == ArrayRule || n.rule == DictRule {
      BlockNodeGrows(n, m);
    } else if n.rule == OtherRule {
    } else if n.children != [] {
      QuotedNodeGrows(n, m);
    }
  }

  lemma WrapCloses(rule: Rule, x: string, more: string, rx: Trees, ry: Trees)
    requires !IsLeaf(rule) && Closes(rx, ry, more)
    requires (rx.Read? ==> |rx.rest| <= |x|) && (ry.Read? ==> |ry.rest| < |x + more|)
    ensures Closes(Wrap(rule, x, rx), Wrap(rule, x + more, ry), more)
  {
    hide ToJson;
    if rx.Read? {
      GrowingArguments.SameConsumed(x, more, rx.rest);
    } else if rx.Short? && !ry.Refused? {
      NodeGrows(Wrap(rule, x, rx).nodes[0], Wrap(rule, x + more, ry).nodes[0]);
    }
  }

  lemma WrapGrows(rule: Rule, x: string, more: string, rx: Trees, ry: Trees)
    requires IsOpen(rule) && Grows(rx, ry, more)
    requires (rx.Read? ==> |rx.rest| <= |x|) && (ry.Read? ==> |ry.rest| < |x + more|)
    ensures Grows(Wrap(rule, x, rx), Wrap(rule, x + more, ry), more)
  {
    hide ToJson;
    if rx.Read? && rx.rest != "" {
      GrowingArguments.SameConsumed(x, more, rx.rest);
    } else if !rx.Refused? && !ry.Refused? {
      NodeGrows(Wrap(rule, x, rx).nodes[0], Wrap(rule, x + more, ry).nodes[0]);
    }
  }

  /** One thing after the other. */
  function Then(r: Trees, next: Trees): Trees { if r.Read? then After(r.nodes, next) else r }

  lemma ThenCloses(rx: Trees, ry: Trees, nextX: Trees, nextY: Trees, more: string)
    requires Grows(rx, ry, more)
    requires rx.Read? && rx.rest == "" ==> nextX == Short([])
    requires rx.Read? && rx.rest != "" ==> Closes(nextX, nextY, more)
    ensures Closes(Then(rx, nextX), Then(ry, nextY), more)
  {
    hide ToJson, Grown;
    if rx.Read? && rx.rest != "" {
      if nextX.Short? && !nextY.Refused? { GrownAfter(rx.nodes, nextX.nodes, nextY.nodes); }
    } else if !rx.Refused? && !ry.Refused? {
      assert rx.nodes + [] == rx.nodes;
      if ry.Read? && !nextY.Refused? { GrownMore(rx.nodes, ry.nodes, nextY.nodes); }
    }
  }

  lemma ExactCloses(l: string, x: string, more: string)
    ensures Closes(Exact(l, x), Exact(l, x + more), more)
  {
    var y := x + more;
    if l <= x {
      assert y[|l|..] == x[|l|..] + more;
    } else if !(x <= l) {
      GrowingParses.DivergesLonger(l, x, more);
    }
  }

  // ---------------------------------------------------------------- leaves, strings and keys

  lemma LeafGrows(rule: Rule, p: Peg.Parser, x: string, more: string)
    requires SpansAt(p, x, more) && rule in {NumberRule, BoolRule, NullRule, DictKeyName}
    ensures Grows(Leaf(rule, p, x), Leaf(rule, p, x + more), more)
  {
    hide Peg.Parse, ToJson;
    var rx, ry := Peg.Parse(p, x), Peg.Parse(p, x + more);
    GrowingParses.ParseShorter(p, x);
    GrowingParses.ParseShorter(p, x + more);
    if rx.Success? && rx.rest != "" {
      GrowingArguments.SameConsumed(x, more, rx.rest);
    } else if !rx.Fail? && !ry.Fail? {
      LeafText(rule, x, more, rx, ry);
    }
  }

  lemma LeafText(rule: Rule, x: string, more: string, rx: Peg.Outcome, ry: Peg.Outcome)
    requires rule in {NumberRule, BoolRule, NullRule, DictKeyName}
    requires !rx.Fail? && rx.rest == "" && !ry.Fail? && |ry.rest| <= |more|
    ensures Grown(Wrap(rule, x, Plain(rx)).nodes, Wrap(rule, x + more, Plain(ry)).nodes)
  {
    hide ToJson;
    var n, m := Wrap(rule, x, Plain(rx)).nodes[0], Wrap(rule, x + more, Plain(ry)).nodes[0];
    assert n.text == x && x <= m.text;
    LeafJson(n);
    LeafJson(m);
  }

  lemma LeafJson(n: Node)
    requires n.rule in {NumberRule, BoolRule, NullRule, DictKeyName}
    ensures ToJson(n) == n.text
  {
  }

  lemma ContentIs(s: string)
    ensures var u := Peg.UntilRest(s, Quote);
            Leaf(StringContent, Peg.Until(Quote), s) ==
            if u.Some? then Read([Node(StringContent, Peg.Consumed(s, u.value), [], false)], u.value)
            else Short([Node(StringContent, s, [], true)])
  {
  }

  lemma ContentGrows(a: string, more: string)
    requires var u := Peg.UntilRest(a, Quote); !(u.Some? && Quote <= u.value)
    ensures Grown(Leaf(StringContent, Peg.Until(Quote), a).nodes, Leaf(StringContent, Peg.Until(Quote), a + more).nodes)
  {
    hide Peg.Parse, Peg.UntilRest, Leaf, ToJson, Quote;
    ContentIs(a);
    ContentIs(a + more);
    GrowingArguments.UntilGrows(a, more, Quote);
    var n, m := Leaf(StringContent, Peg.Until(Quote), a).nodes[0],
      Leaf(StringContent, Peg.Until(Quote), a + more).nodes[0];
    EscapedPrefix(n.text, m.text);
    ContentJson(n);
    ContentJson(m);
  }

  lemma QuoteIsText()
    ensures Quote != ""
  {
  }

  lemma StringInnerIs(s: string)
    requires Quote <= s
    ensures var content := Leaf(StringContent, Peg.Until(Quote), s[|Quote|..]);
            StringInner(s) == Then(content, if content.Read? then Exact(Quote, content.rest) else Refused)
  {
  }

  /** Behind the opening quote. */
  lemma BodyCloses(a: string, more: string)
    ensures var cx, cy := Leaf(StringContent, Peg.Until(Quote), a), Leaf(StringContent, Peg.Until(Quote), a + more);
            Closes(Then(cx, if cx.Read? then Exact(Quote, cx.rest) else Refused),
                   Then(cy, if cy.Read? then Exact(Quote, cy.rest) else Refused), more)
  {
    hide Peg.Parse, Peg.UntilRest, Leaf, ToJson, Grown, Quote;
    QuoteIsText();
    ContentIs(a);
    ContentIs(a + more);
    GrowingArguments.UntilGrows(a, more, Quote);
    var cx, cy := Leaf(StringContent, Peg.Until(Quote), a), Leaf(StringContent, Peg.Until(Quote), a + more);
    var u := Peg.UntilRest(a, Quote);
    if u.Some? && Quote <= u.value {
      GrowingArguments.SameConsumed(a, more, u.value);
      ExactCloses(Quote, u.value, more);
    } else {
      ContentGrows(a, more);
      StringShort(a);
      assert cx.nodes + [] == cx.nodes;
      if cy.Read? && !Exact(Quote, cy.rest).Refused? {
        GrownMore(cx.nodes, cy.nodes, Exact(Quote, cy.rest).nodes);
      }
    }
  }

  lemma StringCloses(x: string, more: string)
    ensures Closes(StringInner(x), StringInner(x + more), more)
  {
    hide Leaf, ToJson;
    ExactCloses(Quote, x, more);
    if Quote <= x {
      var a := x[|Quote|..];
      assert (x + more)[|Quote|..] == a + more;
      StringInnerIs(x);
      StringInnerIs(x + more);
      BodyCloses(a, more);
    }
  }

  /** The text of a string is followed by the closing quote or a part of it. */
  lemma {:induction false} StringShort(s: string)
    ensures var u := Peg.UntilRest(s, Quote); u.Some? ==> Quote <= u.value || u.value <= Quote
    decreases |s|
  {
    if s != "" && !(Quote <= s) && !(s <= Quote) { StringShort(s[1..]); }
  }

  lemma KeyCloses(x: string, more: string)
    ensures Closes(KeyTree(x), KeyTree(x + more), more)
  {
    hide Peg.Parse, Leaf, KeyName;
    var y := x + more;
    KeyNameSpans(x, more);
    LeafGrows(DictKeyName, KeyName, x, more);
    var nx, ny := Leaf(DictKeyName, KeyName, x), Leaf(DictKeyName, KeyName, y);
    if nx.Read? && nx.rest != "" { ExactCloses(":", nx.rest, more); }
    ThenCloses(nx, ny, if nx.Read? then Exact(":", nx.rest) else Refused,
               if ny.Read? then Exact(":", ny.rest) else Refused, more);
    KeyAdvances(x);
    KeyAdvances(y);
    WrapCloses(DictKey, x, more, KeyInner(x), KeyInner(y));
  }

  // ---------------------------------------------------------------- members, elements and blocks

  /** The text that follows whitespace, and what is added to it. */
  lemma SpaceGrows(x: string, more: string) returns (tail: string)
    ensures Peg.SkipSpace(x + more) == Peg.SkipSpace(x) + tail
    ensures Peg.SkipSpace(x) != "" ==> tail == more
  {
    GrowingParses.SkipSpaceGrows(x, more);
    tail := if Peg.SkipSpace(x) == "" then Peg.SkipSpace(more) else more;
  }

  lemma MemberAdvances(s: string)
    ensures MemberInner(s).Read? ==> |MemberInner(s).rest| < |s|
  {
    KeyAdvances(s);
  }

  lemma MemberGrows(x: string, more: string)
    ensures Grows(MemberInner(x), MemberInner(x + more), more)
    decreases |x|, 3
  {
    hide KeyTree, ValueTree, Grown, ToJson;
    var y := x + more;
    KeyCloses(x, more);
    KeyAdvances(x);
    var kx, ky := KeyTree(x), KeyTree(y);
    if kx.Read? {
      var a, b := Peg.SkipSpace(kx.rest), Peg.SkipSpace(ky.rest);
      var tail := SpaceGrows(kx.rest, more);
      ValueGrows(a, tail);
      if !ValueTree(a).Refused? && !ValueTree(b).Refused? {
        if Grown(ValueTree(a).nodes, ValueTree(b).nodes) {
          GrownAfter(kx.nodes, ValueTree(a).nodes, ValueTree(b).nodes);
        }
      }
    } else if kx.Short? && !MemberInner(y).Refused? && ky.Read? {
      GrownMore(kx.nodes, ky.nodes, ValueTree(Peg.SkipSpace(ky.rest)).nodes);
    }
  }

  lemma ValueGrows(x: string, more: string)
    ensures Grows(ValueTree(x), ValueTree(x + more), more)
    decreases |x|, 2
  {
    hide Leaf, StringTree, Block, JsonNumber, JsonBool, JsonNull, ValueInner;
    var y := x + more;
    ValueAdvances(y);
    if x == "" {
      NothingIsShort();
      NothingGrows(ValueRule, ValueInner(x), ValueTree(y), more);
    } else {
      assert y[0] == x[0];
      ValueByFirst(x);
      ValueByFirst(y);
      OptionGrows(x, more);
      WrapGrows(ValueRule, x, more, ValueInner(x), ValueInner(y));
    }
  }

  /** In front of any text there is nothing that would have to stay. */
  lemma NothingGrows(rule: Rule, inner: Trees, ry: Trees, more: string)
    requires inner.Short? && (!ry.Refused? ==> |ry.nodes| == 1)
    ensures Grows(Wrap(rule, "", inner), ry, more)
  {
    var n := Wrap(rule, "", inner).nodes[0];
    assert n.text == "" && ToJson(n) == "";
  }

  lemma OptionGrows(x: string, more: string)
    requires x != ""
    ensures Grows(ByFirst(x), ByFirst(x + more), more)
    decreases |x|, 1
  {
    hide Leaf, Block, JsonNumber, JsonBool, JsonNull, StringInner, Wrap, ToJson, Grown;
    var y := x + more;
    assert y[0] == x[0];
    if x[0] == '<' {
      StringCloses(x, more);
      StringAdvances(x);
      StringAdvances(y);
      StringTreeCloses(x, more);
      ClosesGrows(StringTree(x), StringTree(y), more);
    } else if x[0] == '{' {
      BlockCloses(DictRule, x, more);
      ClosesGrows(Block(DictRule, x), Block(DictRule, y), more);
    } else if x[0] == '[' {
      BlockCloses(ArrayRule, x, more);
      ClosesGrows(Block(ArrayRule, x), Block(ArrayRule, y), more);
    } else {
      NumberSpans(x, more);
      LeafGrows(NumberRule, JsonNumber, x, more);
      BoolSpans(x, more);
      LeafGrows(BoolRule, JsonBool, x, more);
      NullSpans(x, more);
      LeafGrows(NullRule, JsonNull, x, more);
    }
  }

  lemma StringTreeCloses(x: string, more: string)
    ensures Closes(StringTree(x), StringTree(x + more), more)
  {
    hide StringInner, ToJson, Grown;
    StringCloses(x, more);
    StringInnerAdvances(x);
    StringInnerAdvances(x + more);
    WrapCloses(StringRule, x, more, StringInner(x), StringInner(x + more));
  }

  lemma StringInnerAdvances(s: string)
    ensures StringInner(s).Read? ==> |StringInner(s).rest| < |s|
  {
  }

  lemma BlockInnerAdvances(rule: Rule, s: string)
    ensures BlockInner(rule, s).Read? ==> |BlockInner(rule, s).rest| < |s|
  {
  }

  lemma BlockCloses(rule: Rule, x: string, more: string)
    requires rule == ArrayRule || rule == DictRule
    ensures Closes(Block(rule, x), Block(rule, x + more), more)
    decreases |x|, 0
  {
    hide BlockInner, Grown;
    var y := x + more;
    if Open(rule) <= x {
      assert y[1..] == x[1..] + more;
      var tail := SpaceGrows(x[1..], more);
      RestCloses(rule, Peg.SkipSpace(x[1..]), tail);
    }
    InnerCloses(rule, x, more);
    BlockInnerAdvances(rule, x);
    BlockInnerAdvances(rule, y);
    WrapCloses(rule, x, more, BlockInner(rule, x), BlockInner(rule, y));
  }

  lemma InnerCloses(rule: Rule, x: string, more: string)
    requires rule == ArrayRule || rule == DictRule
    requires Open(rule) <= x ==>
               var a, b := Peg.SkipSpace(x[1..]), Peg.SkipSpace((x + more)[1..]);
               Closes(BlockRest(rule, a), BlockRest(rule, b), if a == "" then b else more)
    ensures Closes(BlockInner(rule, x), BlockInner(rule, x + more), more)
  {
    hide BlockRest, ToJson, Grown, Peg.SkipSpace;
    ExactCloses(Open(rule), x, more);
    NothingKnown(BlockInner(rule, x + more));
    EmptyRest(rule);
  }

  lemma EmptyRest(rule: Rule)
    ensures BlockRest(rule, "") == Short([])
  {
  }

  lemma ElementAdvances(rule: Rule, s: string)
    ensures Element(rule, s).Read? ==> |Element(rule, s).rest| < |s|
  {
    MemberAdvances(s);
    ValueAdvances(s);
  }

  lemma ElementGrows(rule: Rule, x: string, more: string)
    ensures Grows(Element(rule, x), Element(rule, x + more), more)
    decreases |x|, 4
  {
    hide MemberInner, ValueTree, ToJson, Grown;
    if rule == DictRule {
      MemberGrows(x, more);
      MemberAdvances(x);
      MemberAdvances(x + more);
      WrapGrows(DictKv, x, more, MemberInner(x), MemberInner(x + more));
    } else {
      ValueGrows(x, more);
    }
  }

  /** A list that broke off in front of a comma. */
  predicate Stuck(r: Trees) { r.Read? && "," <= r.rest }

  predicate ListGrows(rx: Trees, ry: Trees, more: string) {
    && (rx.Refused? ==> ry.Refused?)
    && (rx.Read? && rx.rest != "" ==> ry == Read(rx.nodes, rx.rest + more))
    && (rx.Short? || (rx.Read? && rx.rest == "") ==> ry.Refused? || Stuck(ry) || Grown(rx.nodes, ry.nodes))
  }

  lemma ListAfter(e: seq<Node>, rx: Trees, ry: Trees, more: string)
    requires ListGrows(rx, ry, more)
    ensures ListGrows(After(e, rx), After(e, ry), more)
  {
    hide Grown;
    if !rx.Refused? && !ry.Refused? && Grown(rx.nodes, ry.nodes) { GrownAfter(e, rx.nodes, ry.nodes); }
  }

  /** An element and those that follow it. */
  function Row(rule: Rule, e: Trees): Trees { Then(e, if e.Read? then MoreElements(rule, e.rest) else Refused) }

  lemma MoreIs(rule: Rule, s: string)
    requires "," <= s
    ensures var e := Element(rule, Peg.SkipSpace(s[1..]));
            MoreElements(rule, s) == if e.Refused? then Read([], s) else Row(rule, e)
  {
  }

  lemma RowGrows(rule: Rule, ex: Trees, ey: Trees, more: string)
    requires Grows(ex, ey, more)
    requires ex.Read? && ex.rest != "" ==>
               ListGrows(MoreElements(rule, ex.rest), MoreElements(rule, ex.rest + more), more)
    ensures ListGrows(Row(rule, ex), Row(rule, ey), more)
  {
    hide MoreElements, ToJson, Grown;
    MoreStops(rule, "");
    if ex.Read? && ex.rest != "" {
      ListAfter(ex.nodes, MoreElements(rule, ex.rest), MoreElements(rule, ex.rest + more), more);
    } else if !ex.Refused? && !ey.Refused? {
      assert ex.nodes + [] == ex.nodes;
      if ey.Read? { GrownMore(ex.nodes, ey.nodes, MoreElements(rule, ey.rest).nodes); }
    }
  }

  lemma MoreGrow(rule: Rule, x: string, more: string)
    ensures ListGrows(MoreElements(rule, x), MoreElements(rule, x + more), more)
    decreases |x|, 5
  {
    hide Element, MoreElements, ToJson, Grown;
    var y := x + more;
    if "," <= x {
      assert y[1..] == x[1..] + more;
      var a, b := Peg.SkipSpace(x[1..]), Peg.SkipSpace(y[1..]);
      var tail := SpaceGrows(x[1..], more);
      MoreIs(rule, x);
      MoreIs(rule, y);
      ElementGrows(rule, a, tail);
      var ex, ey := Element(rule, a), Element(rule, b);
      if ex.Read? { MoreGrow(rule, ex.rest, more); }
      RowGrows(rule, ex, ey, more);
    } else {
      MoreStops(rule, x);
      NothingKnown(MoreElements(rule, y));
      if x != "" {
        assert y[0] == x[0];
        MoreStops(rule, y);
      }
    }
  }

  lemma MoreStops(rule: Rule, s: string)
    requires !("," <= s)
    ensures MoreElements(rule, s) == Read([], s)
  {
  }

  /** Behind the opening brace or bracket. */
  lemma RestCloses(rule: Rule, x: string, more: string)
    requires rule == ArrayRule || rule == DictRule
    ensures Closes(BlockRest(rule, x), BlockRest(rule, x + more), more)
    decreases |x|, 7
  {
    hide Element, Elements, MoreElements, ToJson, Grown;
    var y := x + more;
    ExactCloses(Close(rule), x, more);
    if x == "" {
      EmptyRest(rule);
      NothingKnown(BlockRest(rule, y));
    } else if Exact(Close(rule), x).Refused? {
      ElementGrows(rule, x, more);
      var ex, ey := Element(rule, x), Element(rule, y);
      if ex.Read? {
        ElementAdvances(rule, x);
        MoreGrow(rule, ex.rest, more);
      }
      RowGrows(rule, ex, ey, more);
      ElementsAre(rule, x);
      ElementsAre(rule, y);
      CloseRow(rule, Elements(rule, x), Elements(rule, y), more);
    }
  }

  lemma NothingKnown(r: Trees)
    ensures r.Refused? || Grown([], r.nodes)
  {
  }

  lemma ElementsAre(rule: Rule, s: string)
    ensures Elements(rule, s) == Row(rule, Element(rule, s))
  {
  }

  function Closed(rule: Rule, es: Trees): Trees {
    Then(es, if es.Read? then Exact(Close(rule), Peg.SkipSpace(es.rest)) else Refused)
  }

  lemma CloseRow(rule: Rule, ex: Trees, ey: Trees, more: string)
    requires ListGrows(ex, ey, more)
    ensures Closes(Closed(rule, ex), Closed(rule, ey), more)
  {
    hide ToJson, Grown, Exact;
    if ex.Read? && ex.rest != "" {
      var tail := SpaceGrows(ex.rest, more);
      var a := Peg.SkipSpace(ex.rest);
      ExactCloses(Close(rule), a, tail);
      ExactAfter(ex.nodes, Close(rule), a, tail);
    } else if !ex.Refused? && !ey.Refused? {
      ShortOfClose(rule, ex);
      if Stuck(ey) {
        assert Peg.SkipSpace(ey.rest) == ey.rest;
        assert Exact(Close(rule), ey.rest).Refused?;
      } else if ey.Read? && !Closed(rule, ey).Refused? {
        GrownMore(ex.nodes, ey.nodes, Exact(Close(rule), Peg.SkipSpace(ey.rest)).nodes);
      }
    }
  }

  lemma ShortOfClose(rule: Rule, ex: Trees)
    requires ex.Short? || (ex.Read? && ex.rest == "")
    ensures Closed(rule, ex) == Short(ex.nodes)
  {
    if ex.Read? { assert Exact(Close(rule), "") == Short([]) && ex.nodes + [] == ex.nodes; }
  }

  lemma ExactAfter(nodes: seq<Node>, l: string, a: string, tail: string)
    requires l != ""
    ensures var rx, ry := After(nodes, Exact(l, a)), After(nodes, Exact(l, a + tail));
            Closes(rx, ry, tail) && (rx.Read? ==> a != "")
  {
    hide ToJson, Grown, Exact;
    ExactCloses(l, a, tail);
    var rx, ry := Exact(l, a), Exact(l, a + tail);
    assert nodes + [] == nodes;
    if rx.Short? && !ry.Refused? {
      assert ry.nodes == [];
      GrownSame(nodes);
    }
  }

  // ---------------------------------------------------------------- arguments

  /**
   Once the arguments are complete they stay, and until then the JSON of every longer text that
   can still be read continues what was shown.
   */
  lemma ArgumentsGrow(x: string, more: string)
    ensures var rx, ry := Block(DictRule, x), Block(DictRule, x + more);
            && (rx.Refused? ==> ry.Refused?)
            && (rx.Read? ==> ry == Read(rx.nodes, rx.rest + more))
            && (!ry.Refused? ==> ToJson(rx.nodes[0]) <= ToJson(ry.nodes[0]))
  {
    hide ToJson;
    BlockCloses(DictRule, x, more);
    var rx, ry := Block(DictRule, x), Block(DictRule, x + more);
    if rx.Short? && !ry.Refused? { FirstGrown(rx.nodes, ry.nodes); }
  }
}
