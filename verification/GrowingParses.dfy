/**
 Parsing a text that is still growing: a parser is firm when it never takes back what it
 reported, unless the longer text fails. Most combinators of Peg keep this.
 */
module GrowingParses {
  import opened Text
  import opened ToolCallMapper
  import opened Peg
  import opened TaggedCalls

  // ---------------------------------------------------------------- growing parses

  /** What the mapper reads of a parse. */
  function Seen(r: Outcome): seq<Event> {
    if r.Fail? then [] else Essential(r.nodes)
  }

  /** The last node before a value opens the argument that the value belongs to. */
  predicate Opened(es: seq<Event>) {
    |es| >= 2 && es[|es| - 2].tag == ArgOpen && es[|es| - 1].tag == ArgName
  }

  predicate GrownValue(a: Event, b: Event) {
    a.tag == ArgStringValue && b.tag == ArgStringValue && a.text <= b.text
  }

  /** A node behind these others whose text may still grow: content, or the value of an opened argument. */
  predicate GrownNode(before: seq<Event>, a: Event, b: Event) {
    || (a.tag == Content && b.tag == Content && a.text <= b.text)
    || (GrownValue(a, b) && Opened(before))
  }

  /** `b` continues `a`, or does so after completing the node that ends `a`. */
  predicate Ahead(a: seq<Event>, b: seq<Event>) {
    || a <= b
    || (var k := |a| - 1;
        0 <= k < |b| && a[..k] == b[..k] && GrownNode(a[..k], a[k], b[k]))
  }

  lemma AheadMore(a: seq<Event>, b: seq<Event>, c: seq<Event>)
    requires Ahead(a, b)
    ensures Ahead(a, b + c)
  {
  }

  lemma AheadAfter(c: seq<Event>, a: seq<Event>, b: seq<Event>)
    requires Ahead(a, b)
    ensures Ahead(c + a, c + b)
  {
    if !(a <= b) {
      var k := |a| - 1;
      assert (c + a)[..|c| + k] == c + a[..k] && (c + b)[..|c| + k] == c + b[..k];
    }
  }

  /** How the parse of a text `x` relates to the parse of `x + more`. */
  predicate Settles(rx: Outcome, ry: Outcome, more: string) {
    if rx.Fail? then ry.Fail?
    else if rx.Success? then ry.Success? && Seen(ry) == Seen(rx) && (rx.rest != "" ==> ry.rest == rx.rest + more)
    else ry.Fail? || Ahead(Seen(rx), Seen(ry))
  }

  ghost predicate SettlesAt(p: Parser, x: string, more: string) {
    Settles(Parse(p, x), Parse(p, x + more), more)
  }

  /** A parser that never takes back what it reported, unless the longer text fails. */
  ghost predicate Firm(p: Parser) {
    forall x: string, more: string :: SettlesAt(p, x, more)
  }

  lemma FirmGives(p: Parser, x: string, y: string)
    requires Firm(p) && x <= y
    ensures !Parse(p, y).Fail? ==> !Parse(p, x).Fail? && Ahead(Seen(Parse(p, x)), Seen(Parse(p, y)))
  {
    assert x + y[|x|..] == y;
    assert SettlesAt(p, x, y[|x|..]);
  }

  lemma SeenWith(nodes: seq<Event>, r: Outcome)
    ensures !r.Fail? ==> Seen(WithNodes(nodes, r)) == Essential(nodes) + Seen(r)
  {
    if !r.Fail? { EssentialAppend(nodes, r.nodes); }
  }

  // ---------------------------------------------------------------- firm parsers

  lemma FirmEps()
    ensures Firm(Eps)
  {
    forall x: string, more: string ensures SettlesAt(Eps, x, more) {}
  }

  lemma FirmLiteral(l: string)
    ensures Firm(Literal(l))
  {
    forall x: string, more: string ensures SettlesAt(Literal(l), x, more) {
      LiteralSettles(l, x, more);
    }
  }

  lemma LiteralSettles(l: string, x: string, more: string)
    ensures SettlesAt(Literal(l), x, more)
  {
    var y := x + more;
    EssentialNone();
    if l <= x {
      assert y[|l|..] == x[|l|..] + more;
    } else if !(x <= l) {
      DivergesLonger(l, x, more);
    }
  }

  lemma DivergesLonger(l: string, x: string, more: string)
    requires Diverges(l, x)
    ensures Diverges(l, x + more)
  {
    var y := x + more;
    assert y[..|x|] == x;
    if |l| <= |x| {
      assert y[..|l|] == x[..|l|];
    } else {
      assert l[..|x|] != x;
    }
  }

  lemma {:induction false} SkipSpaceGrows(x: string, more: string)
    ensures SkipSpace(x) != "" ==> SkipSpace(x + more) == SkipSpace(x) + more
    ensures SkipSpace(x) == "" ==> SkipSpace(x + more) == SkipSpace(more)
    decreases |x|
  {
    if x == "" {
      assert x + more == more;
    } else {
      assert (x + more)[1..] == x[1..] + more;
      if IsSpace(x[0]) { SkipSpaceGrows(x[1..], more); }
    }
  }

  lemma FirmSpace()
    ensures Firm(Space)
  {
    forall x: string, more: string ensures SettlesAt(Space, x, more) {
      SkipSpaceGrows(x, more);
    }
  }

  lemma FirmPeek(l: string)
    ensures Firm(Peek(Literal(l)))
  {
    forall x: string, more: string ensures SettlesAt(Peek(Literal(l)), x, more) {
      LiteralSettles(l, x, more);
      EssentialNone();
    }
  }

  lemma FirmAtomic(p: Parser)
    requires Firm(p)
    ensures Firm(Atomic(p))
  {
    EssentialNone();
    forall x: string, more: string ensures SettlesAt(Atomic(p), x, more) {
      assert SettlesAt(p, x, more);
    }
  }

  lemma SeenSeq(p: Parser, q: Parser, s: string)
    ensures var r := Parse(Seq(p, q), s);
            var a := Parse(p, s);
            if !a.Success? then r == a else
            var b := Parse(q, a.rest);
            && (r.Fail? <==> b.Fail?) && (r.Success? <==> b.Success?)
            && (!b.Fail? ==> r.rest == b.rest && Seen(r) == Seen(a) + Seen(b))
  {
    var a := Parse(p, s);
    if a.Success? { SeenWith(a.nodes, Parse(q, a.rest)); }
  }

  lemma SeqSettles(p: Parser, q: Parser, x: string, more: string)
    requires SettlesAt(p, x, more) && Firm(q)
    ensures SettlesAt(Seq(p, q), x, more)
  {
    hide Parse, Seen, Ahead;
    var y := x + more;
    var px, py := Parse(p, x), Parse(p, y);
    SeenSeq(p, q, x);
    SeenSeq(p, q, y);
    if px.Success? {
      var tail := if px.rest == "" then py.rest else more;
      assert px.rest + tail == py.rest;
      assert SettlesAt(q, px.rest, tail);
      if Parse(q, px.rest).NeedMore? && !Parse(q, py.rest).Fail? {
        AheadAfter(Seen(px), Seen(Parse(q, px.rest)), Seen(Parse(q, py.rest)));
      }
      if px.rest != "" && Parse(q, px.rest).Success? {
        assert tail == more;
      }
      ParseShorter(q, px.rest);
    } else if px.NeedMore? && py.Success? && !Parse(q, py.rest).Fail? {
      AheadMore(Seen(px), Seen(py), Seen(Parse(q, py.rest)));
    }
  }

  lemma ParseShorter(p: Parser, s: string)
    ensures !Parse(p, s).Fail? ==> |Parse(p, s).rest| <= |s|
  {
  }

  lemma FirmSeq(p: Parser, q: Parser)
    requires Firm(p) && Firm(q)
    ensures Firm(Seq(p, q))
  {
    forall x: string, more: string ensures SettlesAt(Seq(p, q), x, more) {
      assert SettlesAt(p, x, more);
      SeqSettles(p, q, x, more);
    }
  }

  lemma SeenNode(tag: Tag, child: Parser, s: string)
    requires tag in {OtherTag, ToolOpen, ToolClose, ArgOpen, ArgClose}
    ensures var r := Parse(Node(tag, child), s);
            var c := Parse(child, s);
            && (r.Fail? <==> c.Fail?) && (r.Success? <==> c.Success?)
            && (!c.Fail? ==>
                  r.rest == c.rest && Seen(r) == (if tag == OtherTag then [] else [Event(tag, "")]) + Seen(c))
  {
    var c := Parse(child, s);
    if !c.Fail? {
      var e := Event(tag, Consumed(s, c.rest));
      assert Parse(Node(tag, child), s) == WithNodes([e], c);
      SeenWith([e], c);
      EssentialFirst(e, []);
      EssentialNone();
      assert [e] + [] == [e];
    }
  }

  /** Two outcomes of the same kind that report the same and leave the same text. */
  predicate SameOutcome(r: Outcome, c: Outcome) {
    && (r.Fail? <==> c.Fail?) && (r.Success? <==> c.Success?)
    && (!c.Fail? ==> r.rest == c.rest) && Seen(r) == Seen(c)
  }

  lemma SeenRule(child: Parser, s: string)
    ensures var r, c := Parse(Node(OtherTag, child), s), Parse(child, s);
            SameOutcome(r, c)
  {
    SeenNode(OtherTag, child, s);
    assert [] + Seen(Parse(child, s)) == Seen(Parse(child, s));
  }

  lemma FirmRule(child: Parser)
    requires Firm(child)
    ensures Firm(Node(OtherTag, child))
  {
    hide Parse;
    forall x: string, more: string ensures SettlesAt(Node(OtherTag, child), x, more) {
      assert SettlesAt(child, x, more);
      SeenRule(child, x);
      SeenRule(child, x + more);
    }
  }

  lemma FirmMarker(tag: Tag, child: Parser)
    requires Firm(child) && tag in {ToolOpen, ToolClose, ArgOpen, ArgClose}
    ensures Firm(Atomic(Node(tag, child)))
  {
    EssentialNone();
    forall x: string, more: string ensures SettlesAt(Atomic(Node(tag, child)), x, more) {
      assert SettlesAt(child, x, more);
      SeenNode(tag, child, x);
      SeenNode(tag, child, x + more);
      AtomicIs(Node(tag, child), x);
      AtomicIs(Node(tag, child), x + more);
      NothingSeen(Atomic(Node(tag, child)), x);
    }
  }

  lemma AtomicIs(p: Parser, s: string)
    ensures var r := Parse(p, s);
            Parse(Atomic(p), s) == if r.NeedMore? then NeedMore([], r.rest) else r
  {
  }

  lemma NothingSeen(p: Parser, s: string)
    ensures Parse(p, s).NeedMore? && Parse(p, s).nodes == [] ==> Seen(Parse(p, s)) == []
  {
  }

  lemma FirmName(tag: Tag, name: string)
    requires tag == ToolName || tag == ArgName
    ensures Firm(Atomic(Node(tag, Literal(name))))
  {
    EssentialNone();
    forall x: string, more: string ensures SettlesAt(Atomic(Node(tag, Literal(name))), x, more) {
      LiteralSettles(name, x, more);
      AtomicIs(Node(tag, Literal(name)), x);
      AtomicIs(Node(tag, Literal(name)), x + more);
      NameNode(tag, name, x);
      NameNode(tag, name, x + more);
    }
  }

  lemma NameNode(tag: Tag, name: string, s: string)
    ensures var r := Parse(Node(tag, Literal(name)), s);
            var c := Parse(Literal(name), s);
            && (r.Fail? <==> c.Fail?) && (r.Success? <==> c.Success?)
            && (r.Success? ==> r == Success([Event(tag, name)], c.rest))
  {
    if name <= s {
      assert s == name + s[|name|..];
      NodeParses(tag, Literal(name), name, [], s[|name|..]);
    }
  }

  // ---------------------------------------------------------------- choices and repetitions

  /** As `Settles`, but a choice may turn to another argument, or give up one whose opener was read. */
  predicate TurnsTo(rx: Outcome, ry: Outcome, more: string, gaveUp: bool) {
    if rx.Fail? then ry.Fail?
    else if rx.Success? then ry.Success? && Seen(ry) == Seen(rx) && (rx.rest != "" ==> ry.rest == rx.rest + more)
    else Seen(rx) == [] || (if ry.Fail? then gaveUp else Ahead(Seen(rx), Seen(ry)))
  }

  lemma ChoiceIs(p: Parser, q: Parser, s: string)
    ensures Parse(Choice(p, q), s) == if Parse(p, s).Fail? then Parse(q, s) else Parse(p, s)
  {
  }

  ghost predicate TurnsAt(p: Parser, x: string, more: string, breaks: string -> bool) {
    TurnsTo(Parse(p, x), Parse(p, x + more), more, breaks(x + more))
  }

  ghost predicate AdvancesAt(p: Parser, s: string) {
    Parse(p, s).Success? ==> |Parse(p, s).rest| < |s|
  }

  /** How the repetitions in a text relate to those in a longer one, which may break off. */
  predicate ListGrows(rx: Outcome, ry: Outcome, more: string, breaks: string -> bool) {
    && !rx.Fail? && !ry.Fail?
    && (rx.Success? && rx.rest != "" ==> ry.Success? && Seen(ry) == Seen(rx) && ry.rest == rx.rest + more)
    && (rx.Success? && rx.rest == "" ==> Seen(rx) <= Seen(ry))
    && (rx.NeedMore? ==> Ahead(Seen(rx), Seen(ry)) || (ry.Success? && breaks(ry.rest)))
  }

  lemma RepeatIs(child: Parser, s: string)
    ensures var r := Parse(Repeat(child), s);
            if s == "" then r == Success([], s) else
            var c := Parse(child, s);
            if c.Success? && |c.rest| < |s| then r == WithNodes(c.nodes, Parse(Repeat(child), c.rest))
            else if c.NeedMore? then r == c
            else r == Success([], s)
    ensures !Parse(Repeat(child), s).Fail?
  {
    RepeatNeverFails(child, s);
    if s != "" { ParseShorter(child, s); }
  }

  lemma {:induction false} RepeatNeverFails(child: Parser, s: string)
    ensures !Parse(Repeat(child), s).Fail?
    decreases |s|
  {
    if s != "" {
      var c := Parse(child, s);
      if c.Success? && |c.rest| < |s| { RepeatNeverFails(child, c.rest); }
    }
  }

  lemma {:induction false} RepeatGrows(child: Parser, breaks: string -> bool, x: string, more: string)
    requires forall a: string, b: string :: TurnsAt(child, a, b, breaks)
    requires forall s: string :: AdvancesAt(child, s)
    ensures ListGrows(Parse(Repeat(child), x), Parse(Repeat(child), x + more), more, breaks)
    decreases |x|
  {
    hide Parse, Seen, Ahead;
    var y := x + more;
    RepeatIs(child, x);
    RepeatIs(child, y);
    NothingReported();
    if x != "" {
      assert TurnsAt(child, x, more, breaks) && AdvancesAt(child, x) && AdvancesAt(child, y);
      var cx, cy := Parse(child, x), Parse(child, y);
      if cx.Success? {
        SeenWith(cx.nodes, Parse(Repeat(child), cx.rest));
        SeenWith(cy.nodes, Parse(Repeat(child), cy.rest));
        SeenIs(cx);
        SeenIs(cy);
        var tail := if cx.rest == "" then cy.rest else more;
        assert cy.rest == cx.rest + tail;
        RepeatGrows(child, breaks, cx.rest, tail);
        RepeatStep(breaks, Seen(cx), Parse(Repeat(child), cx.rest), Parse(Repeat(child), cy.rest), tail,
                   Parse(Repeat(child), x), Parse(Repeat(child), y));
        RepeatIs(child, cx.rest);
      } else if cx.NeedMore? {
        if cy.Success? {
          SeenWith(cy.nodes, Parse(Repeat(child), cy.rest));
          SeenIs(cy);
          RepeatIs(child, cy.rest);
        }
        NeedsMore(breaks, cx, cy, Parse(Repeat(child), y), y, more);
      }
    }
  }

  lemma NothingReported()
    ensures forall s: string :: Seen(Success([], s)) == []
  {
    EssentialNone();
  }

  lemma SeenIs(r: Outcome)
    ensures !r.Fail? ==> Seen(r) == Essential(r.nodes)
  {
  }

  lemma RepeatStep(breaks: string -> bool, first: seq<Event>, sx: Outcome, sy: Outcome, tail: string, rx: Outcome,
                   ry: Outcome)
    requires ListGrows(sx, sy, tail, breaks)
    requires rx.Success? == sx.Success? && rx.NeedMore? == sx.NeedMore? && rx.rest == sx.rest
        && Seen(rx) == first + Seen(sx)
    requires ry.Success? == sy.Success? && ry.NeedMore? == sy.NeedMore? && ry.rest == sy.rest
        && Seen(ry) == first + Seen(sy)
    ensures ListGrows(rx, ry, tail, breaks)
  {
    hide Seen;
    if rx.NeedMore? && Ahead(Seen(sx), Seen(sy)) {
      AheadAfter(first, Seen(sx), Seen(sy));
    }
  }

  lemma NeedsMore(breaks: string -> bool, cx: Outcome, cy: Outcome, ry: Outcome, y: string, more: string)
    requires cx.NeedMore? && TurnsTo(cx, cy, more, breaks(y))
    requires !ry.Fail? && (cy.NeedMore? ==> ry == cy) && (cy.Fail? ==> ry == Success([], y))
    requires cy.Success? ==> Seen(cy) <= Seen(ry)
    ensures ListGrows(cx, ry, more, breaks)
  {
    hide Seen;
    AheadNothing(Seen(ry));
    if cy.Success? && Seen(cx) != [] {
      assert Seen(ry) == Seen(cy) + Seen(ry)[|Seen(cy)|..];
      AheadMore(Seen(cx), Seen(cy), Seen(ry)[|Seen(cy)|..]);
    }
  }

  lemma AheadNothing(b: seq<Event>)
    ensures Ahead([], b)
  {
  }

  lemma PrefixIsAhead(a: seq<Event>, b: seq<Event>)
    requires a <= b
    ensures Ahead(a, b)
  {
  }

  // ---------------------------------------------------------------- regrouping

  /** Two parsers that give the same outcome on every text. */
  ghost predicate Same(p: Parser, q: Parser) {
    forall s: string :: Parse(p, s) == Parse(q, s)
  }

  lemma SeqSame(a: Parser, b: Parser, c: Parser)
    ensures Same(Seq(Seq(a, b), c), Seq(a, Seq(b, c)))
  {
    forall s: string ensures Parse(Seq(Seq(a, b), c), s) == Parse(Seq(a, Seq(b, c)), s) {
      SeqRegroups(a, b, c, s);
    }
  }

  lemma SeqRegroups(a: Parser, b: Parser, c: Parser, s: string)
    ensures Parse(Seq(Seq(a, b), c), s) == Parse(Seq(a, Seq(b, c)), s)
  {
    var ra := Parse(a, s);
    if ra.Success? {
      var rb := Parse(b, ra.rest);
      assert Parse(Seq(a, b), s) == WithNodes(ra.nodes, rb);
      if rb.Success? {
        WithNodesTwice(ra.nodes, rb.nodes, Parse(c, rb.rest));
      }
    }
  }

  lemma WithNodesTwice(a: seq<Event>, b: seq<Event>, r: Outcome)
    ensures WithNodes(a, WithNodes(b, r)) == WithNodes(a + b, r)
  {
    if !r.Fail? { assert a + (b + r.nodes) == a + b + r.nodes; }
  }

  lemma SameFirm(p: Parser, q: Parser)
    requires Same(p, q) && Firm(q)
    ensures Firm(p)
  {
    forall x: string, more: string ensures SettlesAt(p, x, more) {
      assert SettlesAt(q, x, more);
    }
  }

  lemma SameSeq(a: Parser, p: Parser, q: Parser)
    requires Same(p, q)
    ensures Same(Seq(a, p), Seq(a, q)) && Same(Seq(p, a), Seq(q, a))
  {
    forall s: string ensures Parse(Seq(a, p), s) == Parse(Seq(a, q), s) && Parse(Seq(p, a), s) == Parse(Seq(q, a), s) {
      assert Parse(p, s) == Parse(q, s);
      if Parse(a, s).Success? { assert Parse(p, Parse(a, s).rest) == Parse(q, Parse(a, s).rest); }
    }
  }
}
