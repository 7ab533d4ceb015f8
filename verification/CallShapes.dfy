/**
 The nodes that the parser of a tagged call can create: on every text they open the call,
 name it, give its arguments and perhaps close it, which the mapper reads safely.
 */
module CallShapes {
  import opened Text
  import opened ToolCallMapper
  import opened Streaming
  import opened Peg
  import opened TaggedArgs
  import opened TaggedCalls
  import opened GrowingParses
  import opened GrowingArguments
  import opened GrowingCalls

  predicate IsArgTag(tag: Tag) { tag in {ArgOpen, ArgName, ArgStringValue, ArgClose} }

  /** The parser creates only nodes of arguments and untagged ones. */
  predicate OnlyArgs(p: Parser) {
    match p
    case Seq(a, b) => OnlyArgs(a) && OnlyArgs(b)
    case Choice(a, b) => OnlyArgs(a) && OnlyArgs(b)
    case Repeat(c) => OnlyArgs(c)
    case Maybe(c) => OnlyArgs(c)
    case Peek(c) => OnlyArgs(c)
    case Atomic(c) => OnlyArgs(c)
    case Node(t, c) => (t == OtherTag || IsArgTag(t)) && OnlyArgs(c)
    case _ => true
  }

  predicate ArgNodes(nodes: seq<Event>) {
    forall i :: 0 <= i < |nodes| ==> nodes[i].tag == OtherTag || IsArgTag(nodes[i].tag)
  }

  lemma ArgNodesAppend(a: seq<Event>, b: seq<Event>)
    requires ArgNodes(a) && ArgNodes(b)
    ensures ArgNodes(a + b)
  {
  }

  lemma {:induction false} ParsesArgNodes(p: Parser, s: string)
    requires OnlyArgs(p)
    ensures var r := Parse(p, s); !r.Fail? ==> ArgNodes(r.nodes)
    decreases |s|, p
  {
    hide ArgNodes;
    assert ArgNodes([]) by { NoArgNodes(); }
    match p
    case Seq(a, b) =>
      ParsesArgNodes(a, s);
      var r := Parse(a, s);
      if r.Success? {
        ParsesArgNodes(b, r.rest);
        if !Parse(b, r.rest).Fail? { ArgNodesAppend(r.nodes, Parse(b, r.rest).nodes); }
      }
    case Choice(a, b) =>
      ParsesArgNodes(a, s);
      ParsesArgNodes(b, s);
    case Repeat(c) =>
      ParsesArgNodes(c, s);
      var r := Parse(c, s);
      if s != "" && r.Success? && |r.rest| < |s| {
        ParsesArgNodes(p, r.rest);
        if !Parse(p, r.rest).Fail? { ArgNodesAppend(r.nodes, Parse(p, r.rest).nodes); }
      }
    case Maybe(c) => ParsesArgNodes(c, s);
    case Peek(c) =>
    case Atomic(c) => ParsesArgNodes(c, s);
    case Node(t, c) =>
      ParsesArgNodes(c, s);
      var r := Parse(c, s);
      if !r.Fail? {
        OneArgNode(Event(t, Consumed(s, r.rest)));
        ArgNodesAppend([Event(t, Consumed(s, r.rest))], r.nodes);
      }
    case _ =>
  }

  lemma NoArgNodes()
    ensures ArgNodes([])
  {
  }

  lemma OneArgNode(e: Event)
    requires e.tag == OtherTag || IsArgTag(e.tag)
    ensures ArgNodes([e])
  {
  }

  lemma {:induction false} OnlyArgsInGrammar(f: Format, required: seq<string>, optional: seq<string>)
    ensures OnlyArgs(Required(f, required)) && OnlyArgs(AnyOf(f, optional))
    decreases |required| + |optional|
  {
    hide ArgParser;
    if required != [] {
      var before, last := required[..|required| - 1], required[|required| - 1];
      OnlyArgsInGrammar(f, before, optional);
      OnlyArgsInRule(f, last);
      assert OnlyArgs(Seq(Required(f, before), Space));
    }
    if optional != [] {
      OnlyArgsInGrammar(f, required, optional[..|optional| - 1]);
      OnlyArgsInRule(f, optional[|optional| - 1]);
    }
  }

  lemma OnlyArgsInRule(f: Format, name: string)
    ensures OnlyArgs(ArgParser(f, name))
  {
    var close := ValueClose(f);
    var nameParser := Atomic(Node(ArgName, Literal(name)));
    assert OnlyArgs(nameParser) by { assert OnlyArgs(Node(ArgName, Literal(name))); }
    var inner := Seq(Literal(f.namePrefix), Seq(nameParser, Literal(f.nameSuffix)));
    assert OnlyArgs(inner) by { assert OnlyArgs(Seq(nameParser, Literal(f.nameSuffix))); }
    assert OnlyArgs(OpenParser(f, name)) by { assert OnlyArgs(Node(ArgOpen, inner)); }
    assert OnlyArgs(ValueParser(f)) by { assert OnlyArgs(Node(OtherTag, Until(close))); }
    assert OnlyArgs(CloseParser(f)) by {
      assert OnlyArgs(Seq(Literal(close), Space)) by { assert OnlyArgs(Literal(close)) && OnlyArgs(Space); }
      assert OnlyArgs(Node(ArgClose, Seq(Literal(close), Space)));
    }
    assert OnlyArgs(ArgBody(f)) by { assert OnlyArgs(AfterPrefix(f)); }
    assert OnlyArgs(ArgInner(f, name));
    assert OnlyArgs(Node(OtherTag, ArgInner(f, name)));
    ArgIsInner(f, name, "");
  }

  lemma OnlyArgsInArgs(f: Format, required: seq<string>, optional: seq<string>)
    ensures OnlyArgs(ArgsParser(f, required, optional))
  {
    hide Required, AnyOf;
    OnlyArgsInGrammar(f, required, optional);
    assert OnlyArgs(Optional(f, optional)) by { assert OnlyArgs(Seq(Space, AnyOf(f, optional))); }
    var args := if optional == [] then Required(f, required) else Seq(Required(f, required), Optional(f, optional));
    assert OnlyArgs(args);
    var started := if f.start == "" then args else Seq(Literal(f.start), args);
    assert OnlyArgs(started);
  }

  /** A call that was opened and named, then its arguments, then perhaps its end. */
  predicate CallShape(es: seq<Event>, name: string) {
    es == [] ||
    (&& |es| >= 2 && es[0].tag == ToolOpen && es[1] == Event(ToolName, name)
     && forall i :: 2 <= i < |es| ==> IsArgTag(es[i].tag) || (i == |es| - 1 && es[i].tag == ToolClose))
  }

  lemma {:induction false} EssentialArgs(nodes: seq<Event>)
    requires ArgNodes(nodes)
    ensures forall i :: 0 <= i < |Essential(nodes)| ==> IsArgTag(Essential(nodes)[i].tag)
  {
    if nodes != [] { EssentialArgs(nodes[1..]); }
  }

  lemma OpenCallOutcome(fn: Function, name: string, s: string)
    ensures var r := Parse(OpenCall(fn, name), s);
            if r.Success? then Seen(r) == [Event(ToolOpen, ""), Event(ToolName, name)] else Seen(r) == []
  {
    hide Essential;
    var nameParser := Atomic(Node(ToolName, Literal(name)));
    var inner := Seq(Literal(fn.namePrefix), Seq(nameParser, Literal(fn.nameSuffix)));
    AtomicIs(Node(ToolOpen, inner), s);
    NothingSeen(OpenCall(fn, name), s);
    SeenNothing();
    SeenNode(ToolOpen, inner, s);
    if Parse(inner, s).Success? {
      var s1 := Parse(Literal(fn.namePrefix), s).rest;
      SeenSeq(Literal(fn.namePrefix), Seq(nameParser, Literal(fn.nameSuffix)), s);
      SeenSeq(nameParser, Literal(fn.nameSuffix), s1);
      AtomicIs(Node(ToolName, Literal(name)), s1);
      NameNode(ToolName, name, s1);
      EssentialNone();
      EssentialFirst(Event(ToolName, name), []);
      assert [Event(ToolName, name)] + [] == [Event(ToolName, name)];
      assert Seen(Parse(inner, s)) == [] + ([Event(ToolName, name)] + []);
    }
  }

  lemma CloserOutcome(fn: Function, s: string)
    ensures var r := Parse(Closer(fn), s); Seen(r) == [] || Seen(r) == [Event(ToolClose, "")]
  {
    SeenNothing();
    EssentialNone();
    var inner := if fn.close != "" then Literal(fn.close)
                 else if fn.perCallEnd != "" then Peek(Literal(fn.perCallEnd)) else Space;
    var at := if fn.close != "" then SkipSpace(s) else s;
    MarkerOutcome(inner, at);
    if fn.close != "" {
      SeenSeq(Space, Atomic(Node(ToolClose, inner)), s);
      assert Parse(Space, s) == Success([], at);
      assert [] + Seen(Parse(Atomic(Node(ToolClose, inner)), at)) == Seen(Parse(Atomic(Node(ToolClose, inner)), at));
    }
  }

  lemma MarkerOutcome(inner: Parser, s: string)
    requires inner.Literal? || inner.Space? || (inner.Peek? && inner.child.Literal?)
    ensures var r := Parse(Atomic(Node(ToolClose, inner)), s); Seen(r) == [] || Seen(r) == [Event(ToolClose, "")]
  {
    EssentialNone();
    SeenNothing();
    assert Parse(inner, s).Fail? || Parse(inner, s).nodes == [];
    SeenNode(ToolClose, inner, s);
    AtomicIs(Node(ToolClose, inner), s);
    NothingSeen(Atomic(Node(ToolClose, inner)), s);
  }

  /** Opening, whitespace or a look ahead, and arguments. */
  lemma BodyShape(fn: Function, name: string, args: Parser, peek: Option<string>, s: string)
    requires OnlyArgs(args)
    ensures var r := Parse(CallBody(fn, name, args, peek), s);
            && (Seen(r) == [] || OpenedCall(Seen(r), name))
            && (r.Success? ==> OpenedCall(Seen(r), name))
  {
    hide Parse, OpenedCall;
    SeenNothing();
    var open := OpenCall(fn, name);
    OpenCallOutcome(fn, name, s);
    if fn.nameSuffix == "" && peek.Some? {
      var look := Peek(Literal(peek.value));
      var lead := Seq(open, Seq(Space, look));
      OnlyArgsInPeek(peek.value);
      OpenThenArgs(open, name, Seq(Space, look), s);
      AtomicIs(lead, s);
      NothingSeen(Atomic(lead), s);
      SeenSeq(Atomic(lead), args, s);
      var l := Parse(lead, s);
      if l.Success? {
        ParsesArgNodes(args, l.rest);
        OpenedMore(Seen(l), name, Parse(args, l.rest));
      }
    } else {
      OpenThenArgs(open, name, Seq(Space, args), s);
    }
  }

  lemma OnlyArgsInPeek(l: string)
    ensures OnlyArgs(Peek(Literal(l)))
  {
    assert OnlyArgs(Literal(l));
  }

  predicate OpenedCall(es: seq<Event>, name: string) {
    && |es| >= 2 && es[0].tag == ToolOpen && es[1] == Event(ToolName, name)
    && forall i :: 2 <= i < |es| ==> IsArgTag(es[i].tag)
  }

  lemma OpenedMore(es: seq<Event>, name: string, more: Outcome)
    requires OpenedCall(es, name) && (!more.Fail? ==> ArgNodes(more.nodes))
    ensures OpenedCall(es + Seen(more), name)
  {
    if !more.Fail? { EssentialArgs(more.nodes); }
  }

  lemma OpenThenArgs(open: Parser, name: string, q: Parser, s: string)
    requires OnlyArgs(q)
    requires var r := Parse(open, s);
             if r.Success? then Seen(r) == [Event(ToolOpen, ""), Event(ToolName, name)] else Seen(r) == []
    ensures var r := Parse(Seq(open, q), s);
            && (Seen(r) == [] || OpenedCall(Seen(r), name))
            && (r.Success? ==> OpenedCall(Seen(r), name))
  {
    hide Parse;
    SeenSeq(open, q, s);
    SeenNothing();
    var r := Parse(open, s);
    if r.Success? {
      ParsesArgNodes(q, r.rest);
      OpenedMore(Seen(r), name, Parse(q, r.rest));
    }
  }

  /** Whatever the text, the nodes of a call open it, name it, give its arguments and close it. */
  lemma CallNodes(fn: Function, name: string, args: Parser, peek: Option<string>, s: string)
    requires OnlyArgs(args)
    ensures CallShape(Seen(Parse(FuncParser(fn, name, args, peek), s)), name)
  {
    hide Parse, Seen, OnlyArgs;
    var body := CallBody(fn, name, args, peek);
    var call := CloseCall(fn, body);
    CloseIs(fn, body);
    BodyShape(fn, name, args, peek, s);
    SeenSeq(body, Closer(fn), s);
    var rb := Parse(body, s);
    SeenNothing();
    if rb.Success? { CloserOutcome(fn, rb.rest); }
    AtomicIs(call, s);
    NothingSeen(Atomic(call), s);
    SeenRule(call, s);
    SeenRule(Atomic(call), s);
    assert CallShape(Seen(Parse(call, s)), name);
  }

  lemma {:induction false} ArgsAreWellFormed(es: seq<Event>, started: bool)
    requires forall i :: 0 <= i < |es| ==> IsArgTag(es[i].tag) || (i == |es| - 1 && es[i].tag == ToolClose)
    ensures WellFormedFrom(InCall(true, false, started), es)
    decreases |es|
  {
    if es != [] {
      if es[0].tag == ToolClose {
        assert es[1..] == [];
      } else {
        ArgsAreWellFormed(es[1..], NextPhase(InCall(true, false, started), es[0]).started);
      }
    }
  }

  lemma ShapeIsWellFormed(es: seq<Event>, name: string)
    requires CallShape(es, name) && TrimmedTrailing(name) != ""
    ensures WellFormed(es)
  {
    if es != [] {
      assert es[1..][1..] == es[2..];
      ArgsAreWellFormed(es[2..], false);
      assert WellFormedFrom(InCall(false, false, false), es[1..]);
    }
  }
}
