/**
 A whole tagged tool call, from its printed text through the parser and the mapper to the
 tool call of the message: `build_func_parser` of common/chat-auto-parser-generator.cpp
 around the arguments of TaggedArgs, read by the mapper of ToolCallMapper.
 */
module TaggedCalls {
  import opened Text
  import opened MessageDiff
  import opened ToolCallMapper
  import opened Peg
  import opened TaggedArgs
  import S = ArgumentSerializer

  /** The markers around a function, and the end marker of the call when functions have none. */
  datatype Function = Function(namePrefix: string, nameSuffix: string, close: string, perCallEnd: string)

  function OpenCall(fn: Function, name: string): Parser {
    Atomic(Node(ToolOpen, Seq(Literal(fn.namePrefix), Seq(Atomic(Node(ToolName, Literal(name))),
      Literal(fn.nameSuffix)))))
  }

  function CloseCall(fn: Function, body: Parser): Parser {
    if fn.close != "" then Seq(body, Seq(Space, Atomic(Node(ToolClose, Literal(fn.close)))))
    else if fn.perCallEnd != "" then Seq(body, Atomic(Node(ToolClose, Peek(Literal(fn.perCallEnd)))))
    else Seq(body, Atomic(Node(ToolClose, Space)))
  }

  /** Opening a call; a function without a name suffix must be followed by the text that is looked for. */
  function CallBody(fn: Function, name: string, args: Parser, peek: Option<string>): Parser {
    if fn.nameSuffix == "" && peek.Some?
    then Seq(Atomic(Seq(OpenCall(fn, name), Seq(Space, Peek(Literal(peek.value))))), args)
    else Seq(OpenCall(fn, name), Seq(Space, args))
  }

  /** The rule of one function without a call id. */
  function FuncParser(fn: Function, name: string, args: Parser, peek: Option<string>): Parser {
    var call := CloseCall(fn, CallBody(fn, name, args, peek));
    Node(OtherTag, if fn.nameSuffix == "" && peek.None? then Atomic(call) else call)
  }

  /** Only when required arguments must follow, the parser looks for the start of the first of them. */
  function PeekFor(f: Format, required: set<string>, properties: seq<string>): Option<string> {
    if f.namePrefix != "" && exists p :: p in properties && p in required then Some(f.namePrefix) else None
  }

  // ---------------------------------------------------------------- the mapper ignores most of a node

  /** What the mapper reads of a node: no untagged nodes, and no text of markers. */
  function Essential(nodes: seq<Event>): seq<Event> {
    if nodes == [] then [] else
    var e, rest := nodes[0], Essential(nodes[1..]);
    if e.tag == OtherTag then rest
    else if e.tag in {ToolOpen, ToolClose, ArgOpen, ArgClose} then [Event(e.tag, "")] + rest
    else [e] + rest
  }

  lemma {:induction false} EssentialAppend(a: seq<Event>, b: seq<Event>)
    ensures Essential(a + b) == Essential(a) + Essential(b)
  {
    if a == [] {
      assert a + b == b;
    } else {
      assert (a + b)[1..] == a[1..] + b;
      EssentialAppend(a[1..], b);
    }
  }

  lemma {:induction false} RunEssential(st: State, nodes: seq<Event>)
    requires Valid(st)
    ensures Run(st, Essential(nodes)) == Run(st, nodes)
    decreases |nodes|
  {
    if nodes != [] {
      var e, rest := nodes[0], Essential(nodes[1..]);
      RunEssential(Step(st, e), nodes[1..]);
      if e.tag == OtherTag {
        assert Step(st, e) == st;
      } else {
        var kept := if e.tag in {ToolOpen, ToolClose, ArgOpen, ArgClose} then Event(e.tag, "") else e;
        assert Step(st, kept) == Step(st, e);
        assert ([kept] + rest)[1..] == rest;
        assert Essential(nodes) == [kept] + rest;
      }
    }
  }

  // ---------------------------------------------------------------- from items to arguments

  function ArgOf(it: Item): S.Arg { S.Arg(it.name, true, it.value) }

  function ArgsOf(items: seq<Item>): seq<S.Arg> {
    seq(|items|, i requires 0 <= i < |items| => ArgOf(items[i]))
  }

  lemma EssentialItem(f: Format, it: Item)
    ensures Essential(ItemNodes(f, it)) == S.ArgEvents(ArgOf(it))
  {
    hide ItemText, OpenText, ValueClose, Essential;
    var n := ItemNodes(f, it);
    assert n == [n[0]] + ([n[1]] + ([n[2]] + ([n[3]] + ([n[4]] + ([n[5]] + ([n[6]] + []))))));
    EssentialFirst(n[6], []);
    EssentialFirst(n[5], [n[6]] + []);
    EssentialFirst(n[4], [n[5]] + ([n[6]] + []));
    EssentialFirst(n[3], [n[4]] + ([n[5]] + ([n[6]] + [])));
    EssentialFirst(n[2], [n[3]] + ([n[4]] + ([n[5]] + ([n[6]] + []))));
    EssentialFirst(n[1], [n[2]] + ([n[3]] + ([n[4]] + ([n[5]] + ([n[6]] + [])))));
    EssentialFirst(n[0], [n[1]] + ([n[2]] + ([n[3]] + ([n[4]] + ([n[5]] + ([n[6]] + []))))));
    EssentialNone();
  }

  lemma EssentialNone()
    ensures Essential([]) == []
  {
  }

  lemma {:induction false} EssentialItems(f: Format, items: seq<Item>)
    ensures Essential(Nodes(f, items)) == S.Body(ArgsOf(items))
    decreases |items|
  {
    hide ItemNodes;
    if items != [] {
      FromFront(f, items);
      EssentialAppend(ItemNodes(f, items[0]), Nodes(f, items[1..]));
      EssentialItem(f, items[0]);
      EssentialItems(f, items[1..]);
      assert ArgsOf(items)[1..] == ArgsOf(items[1..]);
    }
  }

  // ---------------------------------------------------------------- reading a call

  function OpenCallText(fn: Function, name: string): string { fn.namePrefix + (name + fn.nameSuffix) }

  lemma OpenCallParses(fn: Function, name: string, rest: string)
    ensures Parse(OpenCall(fn, name), OpenCallText(fn, name) + rest)
         == Success([Event(ToolOpen, OpenCallText(fn, name)), Event(ToolName, name)], rest)
  {
    var all := OpenCallText(fn, name) + rest;
    var afterPrefix, afterName := name + (fn.nameSuffix + rest), fn.nameSuffix + rest;
    var nameParser := Atomic(Node(ToolName, Literal(name)));
    assert all == fn.namePrefix + afterPrefix;
    LiteralParses(fn.namePrefix, afterPrefix);
    LiteralParses(name, afterName);
    LiteralParses(fn.nameSuffix, rest);
    NodeParses(ToolName, Literal(name), name, [], afterName);
    SeqParses(nameParser, Literal(fn.nameSuffix), afterPrefix, afterName, rest, [Event(ToolName, name)], []);
    SeqParses(Literal(fn.namePrefix), Seq(nameParser, Literal(fn.nameSuffix)), all, afterPrefix, rest, [],
      [Event(ToolName, name)]);
    NodeParses(ToolOpen, Seq(Literal(fn.namePrefix), Seq(nameParser, Literal(fn.nameSuffix))),
               OpenCallText(fn, name), [Event(ToolName, name)], rest);
  }

  /** How the text after the arguments closes the call: the marker, or a look at the end of the call, or whitespace. */
  predicate ClosesCall(fn: Function, spaces: string, rest: string) {
    && AllSpace(spaces)
    && if fn.close != "" then !StartsWithSpace(fn.close)
       else if fn.perCallEnd != "" then spaces == "" && fn.perCallEnd <= rest
       else !StartsWithSpace(rest)
  }

  lemma CloseCallParses(fn: Function, body: Parser, s: string, nodes: seq<Event>, spaces: string, rest: string)
    requires ClosesCall(fn, spaces, rest)
    requires Parse(body, s) == Success(nodes, spaces + (fn.close + rest))
    ensures exists text :: Parse(CloseCall(fn, body), s) == Success(nodes + [Event(ToolClose, text)], rest)
  {
    hide Parse;
    var tail := spaces + (fn.close + rest);
    if fn.close != "" {
      var close := Atomic(Node(ToolClose, Literal(fn.close)));
      SpaceParses(spaces, fn.close + rest);
      LiteralParses(fn.close, rest);
      NodeParses(ToolClose, Literal(fn.close), fn.close, [], rest);
      SeqParses(Space, close, tail, fn.close + rest, rest, [], [Event(ToolClose, fn.close)]);
      SeqParses(body, Seq(Space, close), s, tail, rest, nodes, [Event(ToolClose, fn.close)]);
    } else if fn.perCallEnd != "" {
      assert tail == rest && "" + rest == rest;
      PeekParses(fn.perCallEnd, rest);
      NodeParses(ToolClose, Peek(Literal(fn.perCallEnd)), "", [], rest);
      SeqParses(body, Atomic(Node(ToolClose, Peek(Literal(fn.perCallEnd)))), s, rest, rest, nodes,
        [Event(ToolClose, "")]);
    } else {
      assert tail == spaces + rest;
      SpaceParses(spaces, rest);
      NodeParses(ToolClose, Space, spaces, [], rest);
      SeqParses(body, Atomic(Node(ToolClose, Space)), s, tail, rest, nodes, [Event(ToolClose, spaces)]);
    }
  }

  lemma PeekParses(l: string, s: string)
    requires l <= s
    ensures Parse(Peek(Literal(l)), s) == Success([], s)
  {
    assert Parse(Literal(l), s).Success?;
  }

  /** The printed call: opener, whitespace, arguments, whitespace, closer. */
  function CallText(fn: Function, name: string, lead: string, argsText: string, spaces: string): string {
    OpenCallText(fn, name) + (lead + (argsText + (spaces + fn.close)))
  }

  /** The text behind the opener of the call starts as the parser looks for. */
  predicate Looks(fn: Function, peek: Option<string>, s: string) {
    fn.nameSuffix == "" && peek.Some? ==> peek.value <= s
  }

  lemma BodyReads(fn: Function, name: string, args: Parser, peek: Option<string>,
                  lead: string, s: string, rest: string, nodes: seq<Event>)
    requires AllSpace(lead) && !StartsWithSpace(s) && Parse(args, s) == Success(nodes, rest) && Looks(fn, peek, s)
    ensures Parse(CallBody(fn, name, args, peek), OpenCallText(fn, name) + (lead + s))
         == Success([Event(ToolOpen, OpenCallText(fn, name)), Event(ToolName, name)] + nodes, rest)
  {
    hide Parse, OpenCall, OpenCallText;
    var all := OpenCallText(fn, name) + (lead + s);
    var open := [Event(ToolOpen, OpenCallText(fn, name)), Event(ToolName, name)];
    OpenCallParses(fn, name, lead + s);
    SpaceParses(lead, s);
    assert open + [] == open && [] + nodes == nodes;
    if fn.nameSuffix == "" && peek.Some? {
      var look := Peek(Literal(peek.value));
      PeekParses(peek.value, s);
      SeqParses(Space, look, lead + s, s, s, [], []);
      SeqParses(OpenCall(fn, name), Seq(Space, look), all, lead + s, s, open, []);
      AtomicParses(Seq(OpenCall(fn, name), Seq(Space, look)), all);
      SeqParses(Atomic(Seq(OpenCall(fn, name), Seq(Space, look))), args, all, s, rest, open, nodes);
    } else {
      SeqParses(Space, args, lead + s, s, rest, [], nodes);
      SeqParses(OpenCall(fn, name), Seq(Space, args), all, lead + s, rest, open, nodes);
    }
  }

  lemma AtomicParses(p: Parser, s: string)
    ensures Parse(p, s).Success? || Parse(p, s).Fail? ==> Parse(Atomic(p), s) == Parse(p, s)
  {
  }

  /** What does not start as the parser looks for is not read, and what differs from it is refused. */
  lemma BodyRefuses(fn: Function, name: string, args: Parser, peek: Option<string>, lead: string, s: string)
    requires AllSpace(lead) && !StartsWithSpace(s) && !Looks(fn, peek, s)
    ensures var r := Parse(CallBody(fn, name, args, peek), OpenCallText(fn, name) + (lead + s));
            !r.Success? && (Diverges(peek.value, s) ==> r.Fail?)
  {
    hide Parse, OpenCall, OpenCallText;
    var all := OpenCallText(fn, name) + (lead + s);
    var look := Peek(Literal(peek.value));
    OpenCallParses(fn, name, lead + s);
    SpaceParses(lead, s);
    LooksInVain(peek.value, s);
    SeqFollows(Space, look, lead + s);
    SeqFollows(OpenCall(fn, name), Seq(Space, look), all);
    SeqFollows(Atomic(Seq(OpenCall(fn, name), Seq(Space, look))), args, all);
    AtomicFollows(Seq(OpenCall(fn, name), Seq(Space, look)), all);
  }

  lemma LooksInVain(l: string, s: string)
    requires !(l <= s)
    ensures var r := Parse(Peek(Literal(l)), s); !r.Success? && (Diverges(l, s) ==> r.Fail?)
  {
    assert !Parse(Literal(l), s).Success?;
  }

  lemma SeqFollows(p: Parser, q: Parser, s: string)
    ensures var r := Parse(p, s);
            && (r.Success? ==> Parse(Seq(p, q), s) == WithNodes(r.nodes, Parse(q, r.rest)))
            && (!r.Success? ==> Parse(Seq(p, q), s) == r)
  {
  }

  lemma AtomicFollows(p: Parser, s: string)
    ensures Parse(Atomic(p), s).Success? == Parse(p, s).Success? && Parse(Atomic(p), s).Fail? == Parse(p, s).Fail?
  {
  }

  /** The outcome of reading a printed call. */
  predicate ReadsCall(r: Outcome, name: string, nodes: seq<Event>, rest: string) {
    && r.Success? && r.rest == rest
    && Essential(r.nodes) == [Event(ToolOpen, ""), Event(ToolName, name)] + Essential(nodes) + [Event(ToolClose, "")]
  }

  /**
   A printed call is read exactly when it has the name suffix, or what follows the name
   starts with the text that is looked for; what differs from that text is refused.
   */
  lemma FuncParses(fn: Function, name: string, args: Parser, peek: Option<string>,
                   lead: string, argsText: string, spaces: string, rest: string, nodes: seq<Event>)
    requires AllSpace(lead) && ClosesCall(fn, spaces, rest)
    requires var tail := spaces + (fn.close + rest);
             !StartsWithSpace(argsText + tail) && Parse(args, argsText + tail) == Success(nodes, tail)
    ensures var s := argsText + (spaces + (fn.close + rest));
            var r := Parse(FuncParser(fn, name, args, peek), CallText(fn, name, lead, argsText, spaces) + rest);
            && (ReadsCall(r, name, nodes, rest) <==> Looks(fn, peek, s))
            && (!Looks(fn, peek, s) && Diverges(peek.value, s) ==> r.Fail?)
  {
    hide Parse, Essential, CloseCall, OpenCall, OpenCallText, CallBody;
    var tail := spaces + (fn.close + rest);
    var s1 := argsText + tail;
    var s := OpenCallText(fn, name) + (lead + s1);
    var text := CallText(fn, name, lead, argsText, spaces);
    RegroupCall(OpenCallText(fn, name), lead, argsText, spaces, fn.close, rest);
    assert s == text + rest;
    var body := CallBody(fn, name, args, peek);
    var call := CloseCall(fn, body);
    RuleFollows(call, s);
    RuleFollows(Atomic(call), s);
    AtomicParses(call, s);
    AtomicFollows(call, s);
    if Looks(fn, peek, s1) {
      var open := [Event(ToolOpen, OpenCallText(fn, name)), Event(ToolName, name)];
      BodyReads(fn, name, args, peek, lead, s1, tail, nodes);
      CloseCallParses(fn, body, s, open + nodes, spaces, rest);
      var closeText :| Parse(call, s) == Success(open + nodes + [Event(ToolClose, closeText)], rest);
      var all := open + nodes + [Event(ToolClose, closeText)];
      NodeParses(OtherTag, call, text, all, rest);
      NodeParses(OtherTag, Atomic(call), text, all, rest);
      assert [] + nodes == nodes;
      EssentialCall(text, OpenCallText(fn, name), name, nodes, closeText);
    } else {
      BodyRefuses(fn, name, args, peek, lead, s1);
      CloseFollows(fn, body, s);
    }
  }

  lemma RuleFollows(p: Parser, s: string)
    ensures var r := Parse(Node(OtherTag, p), s); r.Success? == Parse(p, s).Success? && r.Fail? == Parse(p, s).Fail?
  {
  }

  lemma CloseFollows(fn: Function, body: Parser, s: string)
    requires !Parse(body, s).Success?
    ensures Parse(CloseCall(fn, body), s) == Parse(body, s)
  {
  }

  lemma RegroupCall(open: string, lead: string, argsText: string, spaces: string, close: string, rest: string)
    ensures open + (lead + (argsText + (spaces + close))) + rest
        == open + (lead + (argsText + (spaces + (close + rest))))
  {
  }

  lemma EssentialCall(text: string, openText: string, name: string, nodes: seq<Event>, closeText: string)
    ensures Essential([Event(OtherTag, text)] + (([Event(ToolOpen, openText), Event(ToolName, name)] + ([] + nodes))
        + [Event(ToolClose, closeText)]))
         == [Event(ToolOpen, ""), Event(ToolName, name)] + Essential(nodes) + [Event(ToolClose, "")]
  {
    hide Essential;
    var rule, open, named, close := Event(OtherTag, text), Event(ToolOpen, openText), Event(ToolName, name),
       Event(ToolClose, closeText);
    RegroupNodes(rule, open, named, nodes, close);
    EssentialFirst(rule, [open] + ([named] + (nodes + [close])));
    EssentialFirst(open, [named] + (nodes + [close]));
    EssentialFirst(named, nodes + [close]);
    EssentialAppend(nodes, [close]);
    EssentialFirst(close, []);
    EssentialNone();
    RegroupNodes(Event(ToolOpen, ""), Event(ToolOpen, ""), named, Essential(nodes), Event(ToolClose, ""));
  }

  lemma RegroupNodes(rule: Event, open: Event, named: Event, nodes: seq<Event>, close: Event)
    ensures [rule] + (([open, named] + ([] + nodes)) + [close]) == [rule] + ([open] + ([named] + (nodes + [close])))
    ensures [open, named] + nodes + [close] == [open] + ([named] + (nodes + [close]))
    ensures [close] + [] == [close]
  {
  }

  lemma EssentialFirst(e: Event, rest: seq<Event>)
    ensures Essential([e] + rest)
         == (if e.tag == OtherTag then []
             else [if e.tag in {ToolOpen, ToolClose, ArgOpen, ArgClose} then Event(e.tag, "") else e])
            + Essential(rest)
  {
    assert ([e] + rest)[1..] == rest;
  }

  // ---------------------------------------------------------------- end to end

  /** The printed arguments of a call. */
  function ArgsText(f: Format, first: seq<Item>, more: seq<Item>): string {
    f.start + (Texts(f, first) + (Texts(f, more) + f.end))
  }

  lemma ArgsEssential(f: Format, first: seq<Item>, more: seq<Item>)
    ensures Essential(Nodes(f, first) + Nodes(f, more)) == S.Body(ArgsOf(first + more))
  {
    hide Essential, Nodes, S.Body;
    EssentialAppend(Nodes(f, first), Nodes(f, more));
    EssentialItems(f, first);
    EssentialItems(f, more);
    BodyAppend(ArgsOf(first), ArgsOf(more));
    assert ArgsOf(first + more) == ArgsOf(first) + ArgsOf(more);
  }

  lemma {:induction false} BodyAppend(a: seq<S.Arg>, b: seq<S.Arg>)
    ensures S.Body(a + b) == S.Body(a) + S.Body(b)
  {
    if a == [] {
      assert a + b == b;
    } else {
      assert (a + b)[1..] == a[1..] + b;
      BodyAppend(a[1..], b);
    }
  }

  lemma RegroupArgs(f: Format, first: seq<Item>, more: seq<Item>, tail: string)
    ensures ArgsText(f, first, more) + tail == f.start + (Texts(f, first) + (Texts(f, more) + (f.end + tail)))
  {
  }

  /**
   A printed tool call read by the parser and then by the mapper adds exactly one tool call,
   with the printed name and a JSON object of the printed names and values in their order.
   Without a name suffix that holds exactly when the arguments start with the name prefix.
   */
  lemma ListRoundTrip(st: State, fn: Function, f: Format, name: string, required: seq<string>, optional: seq<string>,
                      peek: Option<string>, lead: string, first: seq<Item>, more: seq<Item>, spaces: string,
                        rest: string)
    requires Valid(st) && TrimmedTrailing(name) != "" && !StartsWithSpace(f.start)
    requires AllSpace(lead) && ClosesCall(fn, spaces, rest)
    requires Fits(f, required, optional, first, more, spaces + (fn.close + rest))
    ensures var p := FuncParser(fn, name, ArgsParser(f, required, optional), peek);
            var r := Parse(p, CallText(fn, name, lead, ArgsText(f, first, more), spaces) + rest);
            var s := ArgsText(f, first, more) + (spaces + (fn.close + rest));
            && (Looks(fn, peek, s) <==> ReadsCall(r, name, Nodes(f, first) + Nodes(f, more), rest))
            && (Looks(fn, peek, s) ==> Run(st, r.nodes).msg == WithCall(st.msg, name, first + more))
            && (!Looks(fn, peek, s) && Diverges(peek.value, s) ==> r.Fail?)
  {
    hide Parse, Fits, FuncParser, ArgsParser, CallText, Essential;
    hide Nodes, Texts, S.Body, ClosesCall, ReadsCall, Run, Looks;
    var tail := spaces + (fn.close + rest);
    var args := ArgsOf(first + more);
    var nodes := Nodes(f, first) + Nodes(f, more);
    var p := ArgsParser(f, required, optional);
    ArgsRoundTrip(f, required, optional, first, more, tail);
    RegroupArgs(f, first, more, tail);
    ArgsStart(f, required, optional, first, more, tail);
    FuncParses(fn, name, p, peek, lead, ArgsText(f, first, more), spaces, rest, nodes);
    if Looks(fn, peek, ArgsText(f, first, more) + tail) {
      var r := Parse(FuncParser(fn, name, p, peek), CallText(fn, name, lead, ArgsText(f, first, more), spaces) + rest);
      ReadsCallSeen(r, name, nodes, rest);
      ArgsEssential(f, first, more);
      RunEssential(st, r.nodes);
      CallEventsAre(name, args);
      S.MapperRefinesSerializer(st, name, 0, args);
      S.ExactlyOneBrace(args);
    }
  }

  lemma ReadsCallSeen(r: Outcome, name: string, nodes: seq<Event>, rest: string)
    requires ReadsCall(r, name, nodes, rest)
    ensures r.Success? && r.rest == rest
    ensures Essential(r.nodes) == [Event(ToolOpen, ""), Event(ToolName, name)] + Essential(nodes)
        + [Event(ToolClose, "")]
  {
  }

  /** The message with one more call, whose arguments are the JSON object of these items. */
  function WithCall(m: Msg, name: string, items: seq<Item>): Msg {
    m.(toolCalls := m.toolCalls + [ToolCall(TrimmedTrailing(name), "{" + S.Joined(ArgsOf(items)) + "}", "")])
  }

  /** The same for the grammar that is built from a tool's parameters. */
  lemma CallRoundTrip(st: State, fn: Function, f: Format, name: string, properties: seq<string>, required: set<string>,
                      lead: string, first: seq<Item>, more: seq<Item>, spaces: string, rest: string)
    requires Valid(st) && TrimmedTrailing(name) != "" && !StartsWithSpace(f.start)
    requires AllSpace(lead) && ClosesCall(fn, spaces, rest) && NoClash(name, properties)
    requires Fits(f, Filtered(properties, required), Filtered(properties, (set p | p in properties) - required),
                  first, more, spaces + (fn.close + rest))
    ensures var peek := PeekFor(f, required, properties);
            var p := FuncParser(fn, name, ToolArguments(f, name, properties, required), peek);
            var r := Parse(p, CallText(fn, name, lead, ArgsText(f, first, more), spaces) + rest);
            var s := ArgsText(f, first, more) + (spaces + (fn.close + rest));
            && (Looks(fn, peek, s) <==> ReadsCall(r, name, Nodes(f, first) + Nodes(f, more), rest))
            && (Looks(fn, peek, s) ==> Run(st, r.nodes).msg == WithCall(st.msg, name, first + more))
            && (!Looks(fn, peek, s) && Diverges(peek.value, s) ==> r.Fail?)
  {
    hide Parse, Fits, FuncParser, ToolArguments, CallText, Filtered;
    hide Essential, Nodes, Texts, S.Body, ClosesCall, NoClash;
    hide ReadsCall, Run, Looks, PeekFor;
    ToolArgsAre(f, name, properties, required);
    ListRoundTrip(st, fn, f, name, Filtered(properties, required),
                  Filtered(properties, (set p | p in properties) - required),
                  PeekFor(f, required, properties), lead, first, more, spaces, rest);
  }

  /**
   A format whose arguments start with a marker of their own, for functions without a name
   suffix: the parser looks for the name prefix where the start marker stands, so a call with
   a required argument is refused whatever it holds.
   */
  lemma StartMarkerHidesArguments(fn: Function, f: Format, name: string, args: Parser, properties: seq<string>,
                                  required: set<string>, lead: string, t: string)
    requires fn.nameSuffix == "" && PeekFor(f, required, properties).Some?
    requires f.start != "" && !StartsWithSpace(f.start) && Diverges(f.namePrefix, f.start) && AllSpace(lead)
    ensures Parse(FuncParser(fn, name, args, PeekFor(f, required, properties)),
                  OpenCallText(fn, name) + (lead + (f.start + t))).Fail?
  {
    hide Parse, OpenCallText, CloseCall, CallBody;
    var s := f.start + t;
    var peek := PeekFor(f, required, properties);
    assert s[0] == f.start[0];
    assert Diverges(f.namePrefix, s) by { StillDiverges(f.namePrefix, f.start, t); }
    BodyRefuses(fn, name, args, peek, lead, s);
    var body := CallBody(fn, name, args, peek);
    var all := OpenCallText(fn, name) + (lead + s);
    CloseFollows(fn, body, all);
    RuleFollows(CloseCall(fn, body), all);
  }

  lemma StillDiverges(l: string, x: string, more: string)
    requires Diverges(l, x)
    ensures Diverges(l, x + more)
  {
    assert (x + more)[..|x|] == x;
    if |l| <= |x| {
      assert (x + more)[..|l|] == x[..|l|];
    } else {
      assert l[..|x|] != x;
    }
  }

  /** Such a format: no call of this tool is ever read, with any value. */
  lemma NoCallIsRead(value: string, rest: string)
    ensures var f := Format("<args>", "</args>", "<arg=", ">", "", "</arg>");
            var fn := Function("<call=", "", "</call>", "");
            var p := FuncParser(fn, "f", ToolArguments(f, "f", ["a"], {"a"}), PeekFor(f, {"a"}, ["a"]));
            Parse(p, "<call=f" + ("" + ("<args>" + ("<arg=a>" + value + "</arg></args></call>" + rest)))).Fail?
  {
    var f := Format("<args>", "</args>", "<arg=", ">", "", "</arg>");
    var fn := Function("<call=", "", "</call>", "");
    assert "a" in ["a"];
    assert f.namePrefix[2] != f.start[2] || f.namePrefix[4] != f.start[4];
    assert OpenCallText(fn, "f") == "<call=f";
    StartMarkerHidesArguments(fn, f, "f", ToolArguments(f, "f", ["a"], {"a"}), ["a"], {"a"}, "",
                              "<arg=a>" + value + "</arg></args></call>" + rest);
  }

  lemma CallEventsAre(name: string, args: seq<S.Arg>)
    ensures S.CallEvents(name, 0, args) == [Event(ToolOpen, ""), Event(ToolName, name)] + S.Body(args)
        + [Event(ToolClose, "")]
  {
  }

  /** Arguments do not start with whitespace. */
  lemma ArgsStart(f: Format, required: seq<string>, optional: seq<string>, first: seq<Item>, more: seq<Item>,
                  tail: string)
    requires Fits(f, required, optional, first, more, tail) && !StartsWithSpace(f.start)
    ensures !StartsWithSpace(ArgsText(f, first, more) + tail)
  {
    RegroupArgs(f, first, more, tail);
    TailIsNotSpace(f, optional, more, f.end + tail);
    ItemsNotSpace(f, first, Texts(f, more) + (f.end + tail));
    if f.start == "" {
      assert f.start + (Texts(f, first) + (Texts(f, more) + (f.end + tail)))
        == Texts(f, first) + (Texts(f, more) + (f.end + tail));
    }
  }

  lemma ItemsNotSpace(f: Format, items: seq<Item>, rest: string)
    requires f.nameSuffix != "" && !StartsWithSpace(rest)
    requires forall it :: it in items ==> Printable(f, it)
    ensures !StartsWithSpace(Texts(f, items) + rest)
  {
    if items == [] {
      assert "" + rest == rest;
    } else {
      FromFront(f, items);
      NotSpace(f, items[0], Texts(f, items[1..]) + rest);
      Associative(ItemText(f, items[0]), Texts(f, items[1..]), rest);
    }
  }
}
