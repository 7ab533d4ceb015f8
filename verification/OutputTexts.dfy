/**
 Which outputs are read, and as what message: content in front of the trigger, then printed
 calls of any of the tools, wrapped or separated, through the whole parser of
 `build_tool_parser_tag_tagged` and the mapper.
 */
module OutputTexts {
  import opened Text
  import opened MessageDiff
  import opened ToolCallMapper
  import opened Peg
  import opened TaggedArgs
  import opened TaggedCalls
  import opened GrowingParses
  import opened StreamedCalls
  import opened StreamedOutput
  import GrowingArguments
  import S = ArgumentSerializer

  // ---------------------------------------------------------------- what a parser reads of a text

  /** The parser succeeds with this rest, and the mapper sees these nodes. */
  predicate Reads(p: Parser, s: string, rest: string, es: seq<Event>) {
    var r := Parse(p, s);
    r.Success? && r.rest == rest && Seen(r) == es
  }

  lemma ReadsSeq(p: Parser, q: Parser, s: string, mid: string, rest: string, a: seq<Event>, b: seq<Event>)
    requires Reads(p, s, mid, a) && Reads(q, mid, rest, b)
    ensures Reads(Seq(p, q), s, rest, a + b)
  {
    hide Parse, Seen;
    SeenSeq(p, q, s);
  }

  lemma ReadsRule(p: Parser, s: string, rest: string, es: seq<Event>)
    requires Reads(p, s, rest, es)
    ensures Reads(Node(OtherTag, p), s, rest, es)
  {
    hide Parse, Seen;
    SeenRule(p, s);
  }

  lemma ReadsLiteral(l: string, rest: string)
    ensures Reads(Literal(l), l + rest, rest, [])
  {
    EssentialNone();
    LiteralParses(l, rest);
  }

  lemma ReadsSpace(spaces: string, rest: string)
    requires AllSpace(spaces) && !StartsWithSpace(rest)
    ensures Reads(Space, spaces + rest, rest, [])
  {
    EssentialNone();
    SpaceParses(spaces, rest);
  }

  lemma ReadsEps(s: string)
    ensures Reads(Eps, s, s, [])
  {
    EssentialNone();
  }

  lemma ReadsEnd()
    ensures Reads(End, "", "", [])
  {
    EssentialNone();
  }

  lemma ReadsMaybe(p: Parser, s: string, rest: string, es: seq<Event>)
    requires Reads(p, s, rest, es) && |rest| < |s|
    ensures Reads(Maybe(p), s, rest, es)
  {
    hide Parse;
    StreamedOutput.MaybeIs(p, s);
  }

  /** After whitespace, or nothing. */
  lemma ReadsSpaceThen(q: Parser, spaces: string, s: string, rest: string, es: seq<Event>)
    requires AllSpace(spaces) && !StartsWithSpace(s) && Reads(q, s, rest, es)
    ensures Reads(Seq(Space, q), spaces + s, rest, es)
  {
    hide Parse, Seen, Reads;
    ReadsSpace(spaces, s);
    ReadsSeq(Space, q, spaces + s, s, rest, [], es);
    assert [] + es == es;
  }

  lemma ReadsLiteralThen(l: string, q: Parser, s: string, rest: string, es: seq<Event>)
    requires Reads(q, s, rest, es)
    ensures Reads(Seq(Literal(l), q), l + s, rest, es)
  {
    hide Parse, Seen, Reads;
    ReadsLiteral(l, s);
    ReadsSeq(Literal(l), q, l + s, s, rest, [], es);
    assert [] + es == es;
  }

  // ---------------------------------------------------------------- items in a row

  /** Items behind the text that separates each from the one before. */
  function MoreText(gaps: seq<string>, items: seq<string>): string
    requires |gaps| == |items|
  {
    if items == [] then "" else gaps[0] + (items[0] + MoreText(gaps[1..], items[1..]))
  }

  function Concat(ess: seq<seq<Event>>): seq<Event> {
    if ess == [] then [] else ess[0] + Concat(ess[1..])
  }

  /** Each separator and each item is read in front of what follows it. */
  predicate MoreRead(sep: Parser, item: Parser, gaps: seq<string>, items: seq<string>, ess: seq<seq<Event>>,
                     tail: string)
    requires |gaps| == |items| == |ess|
  {
    items == [] ||
    (var rest := MoreText(gaps[1..], items[1..]) + tail;
     && items[0] != ""
     && Reads(sep, gaps[0] + (items[0] + rest), items[0] + rest, [])
     && Reads(item, items[0] + rest, rest, ess[0])
     && MoreRead(sep, item, gaps[1..], items[1..], ess[1..], tail))
  }

  lemma {:induction false} RepeatReads(sep: Parser, item: Parser, gaps: seq<string>, items: seq<string>,
                                       ess: seq<seq<Event>>, tail: string)
    requires |gaps| == |items| == |ess| && MoreRead(sep, item, gaps, items, ess, tail)
    requires tail == "" || Parse(Seq(sep, item), tail).Fail?
    ensures Reads(Repeat(Seq(sep, item)), MoreText(gaps, items) + tail, tail, Concat(ess))
    decreases |items|
  {
    hide Parse, Seen;
    var child, s := Seq(sep, item), MoreText(gaps, items) + tail;
    RepeatIs(child, s);
    NothingReported();
    if items == [] {
      assert s == tail;
    } else {
      var rest := MoreText(gaps[1..], items[1..]) + tail;
      assert s == gaps[0] + (items[0] + rest);
      RepeatReads(sep, item, gaps[1..], items[1..], ess[1..], tail);
      ReadsSeq(sep, item, s, items[0] + rest, rest, [], ess[0]);
      assert [] + ess[0] == ess[0];
      SeenWith(Parse(child, s).nodes, Parse(Repeat(child), rest));
      SeenIs(Parse(child, s));
    }
  }

  /** A first item and, with `parallel`, any number of others; without it there is none. */
  lemma RowReads(sep: Parser, item: Parser, parallel: bool, first: string, gaps: seq<string>, items: seq<string>,
                 firstSeen: seq<Event>, ess: seq<seq<Event>>, tail: string)
    requires |gaps| == |items| == |ess| && MoreRead(sep, item, gaps, items, ess, tail)
    requires Reads(item, first + (MoreText(gaps, items) + tail), MoreText(gaps, items) + tail, firstSeen)
    requires parallel ==> tail == "" || Parse(Seq(sep, item), tail).Fail?
    requires !parallel ==> items == []
    ensures Reads(Seq(item, Repeated(parallel, sep, item)), first + (MoreText(gaps, items) + tail), tail,
                  firstSeen + Concat(ess))
  {
    hide Parse, Seen, Reads;
    var rest := MoreText(gaps, items) + tail;
    if parallel {
      RepeatReads(sep, item, gaps, items, ess, tail);
    } else {
      ReadsEps(tail);
      assert rest == tail;
    }
    ReadsSeq(item, Repeated(parallel, sep, item), first + rest, rest, tail, firstSeen, Concat(ess));
  }

  // ---------------------------------------------------------------- one printed call

  /** A call as it is printed: its arguments, and the whitespace in and around it. */
  datatype Printed = Printed(tool: Tool, gap: string, before: string, lead: string, first: seq<Item>, more: seq<Item>,
                             spaces: string, after: string)

  function BareText(fn: Function, f: Format, c: Printed): string {
    CallText(fn, c.tool.name, c.lead, ArgsText(f, c.first, c.more), c.spaces)
  }

  /** What the mapper sees of a printed call. */
  function CallSeen(c: Printed): seq<Event> {
    [Event(ToolOpen, ""), Event(ToolName, c.tool.name)] + S.Body(ArgsOf(c.first + c.more)) + [Event(ToolClose, "")]
  }

  /** The printed call fits its tool and what follows it. */
  predicate CallFits(fn: Function, f: Format, c: Printed, rest: string) {
    var t := c.tool;
    && TrimmedTrailing(t.name) != "" && !StartsWithSpace(f.start) && AllSpace(c.lead)
    && ClosesCall(fn, c.spaces, rest) && NoClash(t.name, t.properties)
    && Fits(f, Filtered(t.properties, t.required), Filtered(t.properties, (set p | p in t.properties) - t.required),
            c.first, c.more, c.spaces + (fn.close + rest))
    && Looks(fn, PeekFor(f, t.required, t.properties), ArgsText(f, c.first, c.more) + (c.spaces + (fn.close + rest)))
  }

  lemma ToolReads(fn: Function, f: Format, c: Printed, rest: string)
    requires CallFits(fn, f, c, rest)
    ensures Reads(OneTool(fn, f, c.tool), BareText(fn, f, c) + rest, rest, CallSeen(c))
  {
    hide Parse, Fits, Essential, ClosesCall, NoClash, Looks, PeekFor, CallText, Filtered, Nodes, Run, ToolArguments;
    hide FuncParser, ReadsCall, S.Body, ArgsText;
    var t := c.tool;
    CallRoundTrip(INIT, fn, f, t.name, t.properties, t.required, c.lead, c.first, c.more, c.spaces, rest);
    var r := Parse(OneTool(fn, f, t), BareText(fn, f, c) + rest);
    ReadsCallSeen(r, t.name, Nodes(f, c.first) + Nodes(f, c.more), rest);
    ArgsEssential(f, c.first, c.more);
    SeenIs(r);
  }

  /** Whichever of the tools a call is for, the choice reads it. */
  lemma {:induction false} ChoiceReads(fn: Function, f: Format, tools: seq<Tool>, c: Printed, rest: string)
    requires Distinct(fn, tools) && c.tool in tools && CallFits(fn, f, c, rest)
    ensures Reads(ToolChoice(fn, f, tools), BareText(fn, f, c) + rest, rest, CallSeen(c))
    decreases |tools|
  {
    hide Parse, Seen, CallFits, OneTool, CallSeen, BareText;
    var n, s := |tools| - 1, BareText(fn, f, c) + rest;
    var others, last := tools[..n], tools[n];
    ChoiceIs(ToolChoice(fn, f, others), OneTool(fn, f, last), s);
    if c.tool in others {
      ChoiceReads(fn, f, others, c, rest);
    } else {
      assert c.tool == last;
      ToolReads(fn, f, c, rest);
      OthersRefuse(fn, f, others, c, rest, tools);
    }
  }

  lemma {:induction false} OthersRefuse(fn: Function, f: Format, others: seq<Tool>, c: Printed, rest: string,
                                        tools: seq<Tool>)
    requires Distinct(fn, tools) && |others| < |tools| && others == tools[..|others|]
    requires tools != [] && c.tool == tools[|tools| - 1]
    ensures Parse(ToolChoice(fn, f, others), BareText(fn, f, c) + rest).Fail?
    decreases |others|
  {
    hide Parse, OneTool;
    var s := BareText(fn, f, c) + rest;
    if others == [] {
      NeverFails(s);
    } else {
      var n := |others| - 1;
      ChoiceIs(ToolChoice(fn, f, others[..n]), OneTool(fn, f, others[n]), s);
      OthersRefuse(fn, f, others[..n], c, rest, tools);
      assert others[n] == tools[n];
      OtherToolRefuses(fn, f, others[n], c, rest);
    }
  }

  lemma OtherToolRefuses(fn: Function, f: Format, other: Tool, c: Printed, rest: string)
    requires fn.nameSuffix != "" && other.name != c.tool.name
    requires fn.nameSuffix[0] !in other.name && fn.nameSuffix[0] !in c.tool.name
    ensures Parse(OneTool(fn, f, other), BareText(fn, f, c) + rest).Fail?
  {
    hide Parse, OneTool, OpenCallText;
    var open := OpenCallText(fn, c.tool.name);
    var inside := c.lead + (ArgsText(f, c.first, c.more) + (c.spaces + fn.close));
    assert BareText(fn, f, c) + rest == open + (inside + rest);
    CallOpenersDiverge(fn, other.name, c.tool.name, inside + rest);
    ToolStarts(fn, f, other, BareText(fn, f, c) + rest);
  }

  // ---------------------------------------------------------------- calls behind their own marker

  function WrappedText(w: Wrapping, fn: Function, f: Format, c: Printed): string {
    w.callStart + (c.before + (BareText(fn, f, c) + (c.after + fn.perCallEnd)))
  }

  /** The wrapped call fits what follows it; only whitespace stands between its parts. */
  predicate WrappedFits(w: Wrapping, fn: Function, f: Format, tools: seq<Tool>, c: Printed, rest: string) {
    && c.tool in tools && AllSpace(c.before) && AllSpace(c.after) && AllSpace(c.gap)
    && !StartsWithSpace(BareText(fn, f, c) + (c.after + (fn.perCallEnd + rest)))
    && !StartsWithSpace(fn.perCallEnd + rest)
    && CallFits(fn, f, c, c.after + (fn.perCallEnd + rest))
  }

  lemma WrappedReads(w: Wrapping, fn: Function, f: Format, tools: seq<Tool>, c: Printed, rest: string)
    requires Distinct(fn, tools) && WrappedFits(w, fn, f, tools, c, rest)
    ensures Reads(WrappedCall(w, fn, ToolChoice(fn, f, tools)), WrappedText(w, fn, f, c) + rest, rest, CallSeen(c))
  {
    hide Reads, CallFits, Distinct, ToolChoice, BareText, CallSeen;
    var choice, end := ToolChoice(fn, f, tools), Seq(Space, Literal(fn.perCallEnd));
    var s2 := c.after + (fn.perCallEnd + rest);
    var s1 := BareText(fn, f, c) + s2;
    ReadsLiteral(fn.perCallEnd, rest);
    ReadsSpaceThen(Literal(fn.perCallEnd), c.after, fn.perCallEnd + rest, rest, []);
    ChoiceReads(fn, f, tools, c, s2);
    ReadsSeq(choice, end, s1, s2, rest, CallSeen(c), []);
    assert CallSeen(c) + [] == CallSeen(c);
    ReadsSpaceThen(Seq(choice, end), c.before, s1, rest, CallSeen(c));
    ReadsLiteralThen(w.callStart, Seq(Space, Seq(choice, end)), c.before + s1, rest, CallSeen(c));
    RegroupWrapped(w.callStart, c.before, BareText(fn, f, c), c.after, fn.perCallEnd, rest);
  }

  lemma RegroupWrapped(a: string, b: string, c: string, d: string, e: string, rest: string)
    ensures a + (b + (c + (d + e))) + rest == a + (b + (c + (d + (e + rest))))
  {
    assert d + e + rest == d + (e + rest);
    assert c + (d + e) + rest == c + (d + e + rest);
    assert b + (c + (d + e)) + rest == b + (c + (d + e) + rest);
  }

  function WrappedTexts(w: Wrapping, fn: Function, f: Format, cs: seq<Printed>): seq<string> {
    if cs == [] then [] else [WrappedText(w, fn, f, cs[0])] + WrappedTexts(w, fn, f, cs[1..])
  }

  function Gaps(cs: seq<Printed>): seq<string> { if cs == [] then [] else [cs[0].gap] + Gaps(cs[1..]) }

  function AllSeen(cs: seq<Printed>): seq<seq<Event>> { if cs == [] then [] else [CallSeen(cs[0])] + AllSeen(cs[1..]) }

  lemma {:induction false} SameLengths(w: Wrapping, fn: Function, f: Format, cs: seq<Printed>)
    ensures |Gaps(cs)| == |AllSeen(cs)| == |WrappedTexts(w, fn, f, cs)| == |BareTexts(fn, f, cs)| == |Commas(cs)|
        == |cs|
  {
    if cs != [] { SameLengths(w, fn, f, cs[1..]); }
  }

  /** The text of wrapped calls, each behind its gap. */
  function WrappedMore(w: Wrapping, fn: Function, f: Format, cs: seq<Printed>): string {
    if cs == [] then "" else cs[0].gap + (WrappedText(w, fn, f, cs[0]) + WrappedMore(w, fn, f, cs[1..]))
  }

  predicate AllWrappedFit(w: Wrapping, fn: Function, f: Format, tools: seq<Tool>, cs: seq<Printed>, tail: string) {
    cs == [] || (WrappedFits(w, fn, f, tools, cs[0], WrappedMore(w, fn, f, cs[1..]) + tail)
                 && AllWrappedFit(w, fn, f, tools, cs[1..], tail))
  }

  lemma {:induction false} WrappedMoreRead(w: Wrapping, fn: Function, f: Format, tools: seq<Tool>, cs: seq<Printed>,
                                           tail: string)
    requires Distinct(fn, tools) && AllWrappedFit(w, fn, f, tools, cs, tail)
    requires w.callStart != "" && !StartsWithSpace(w.callStart)
    ensures |Gaps(cs)| == |AllSeen(cs)| == |WrappedTexts(w, fn, f, cs)|
    ensures MoreText(Gaps(cs), WrappedTexts(w, fn, f, cs)) == WrappedMore(w, fn, f, cs)
    ensures MoreRead(Space, WrappedCall(w, fn, ToolChoice(fn, f, tools)), Gaps(cs), WrappedTexts(w, fn, f, cs),
                     AllSeen(cs), tail)
    decreases |cs|
  {
    hide Reads, Distinct, ToolChoice, WrappedCall, CallSeen, WrappedFits, WrappedText;
    SameLengths(w, fn, f, cs);
    if cs != [] {
      WrappedMoreRead(w, fn, f, tools, cs[1..], tail);
      var rest := WrappedMore(w, fn, f, cs[1..]) + tail;
      WrappedReads(w, fn, f, tools, cs[0], rest);
      WrappedStarts(w, fn, f, tools, cs[0], rest);
      ReadsSpace(cs[0].gap, WrappedText(w, fn, f, cs[0]) + rest);
    }
  }

  lemma WrappedStarts(w: Wrapping, fn: Function, f: Format, tools: seq<Tool>, c: Printed, rest: string)
    requires w.callStart != "" && !StartsWithSpace(w.callStart) && WrappedFits(w, fn, f, tools, c, rest)
    ensures WrappedText(w, fn, f, c) != "" && AllSpace(c.gap)
    ensures !StartsWithSpace(WrappedText(w, fn, f, c) + rest)
  {
    hide CallFits;
    assert (WrappedText(w, fn, f, c) + rest)[0] == w.callStart[0];
  }

  // ---------------------------------------------------------------- calls behind a comma

  function BareTexts(fn: Function, f: Format, cs: seq<Printed>): seq<string> {
    if cs == [] then [] else [BareText(fn, f, cs[0])] + BareTexts(fn, f, cs[1..])
  }

  function Commas(cs: seq<Printed>): seq<string> { if cs == [] then [] else [Separator] + Commas(cs[1..]) }

  function SeparatedMore(fn: Function, f: Format, cs: seq<Printed>): string {
    if cs == [] then "" else Separator + (BareText(fn, f, cs[0]) + SeparatedMore(fn, f, cs[1..]))
  }

  predicate AllSeparatedFit(fn: Function, f: Format, tools: seq<Tool>, cs: seq<Printed>, tail: string) {
    cs == [] || (var rest := SeparatedMore(fn, f, cs[1..]) + tail;
                 && cs[0].tool in tools && CallFits(fn, f, cs[0], rest)
                 && AllSeparatedFit(fn, f, tools, cs[1..], tail))
  }

  lemma {:induction false} SeparatedMoreRead(fn: Function, f: Format, tools: seq<Tool>, cs: seq<Printed>, tail: string)
    requires Distinct(fn, tools) && AllSeparatedFit(fn, f, tools, cs, tail)
    ensures |Commas(cs)| == |AllSeen(cs)| == |BareTexts(fn, f, cs)|
    ensures MoreText(Commas(cs), BareTexts(fn, f, cs)) == SeparatedMore(fn, f, cs)
    ensures MoreRead(Literal(Separator), ToolChoice(fn, f, tools), Commas(cs), BareTexts(fn, f, cs), AllSeen(cs), tail)
    decreases |cs|
  {
    hide Reads, Distinct, ToolChoice, CallSeen, CallFits, BareText, Separator;
    SameLengths(Wrapping("", "", ""), fn, f, cs);
    if cs != [] {
      SeparatedMoreRead(fn, f, tools, cs[1..], tail);
      var rest := SeparatedMore(fn, f, cs[1..]) + tail;
      ChoiceReads(fn, f, tools, cs[0], rest);
      BareNotEmpty(fn, f, cs[0], rest);
      ReadsLiteral(Separator, BareText(fn, f, cs[0]) + rest);
    }
  }

  lemma BareNotEmpty(fn: Function, f: Format, c: Printed, rest: string)
    requires CallFits(fn, f, c, rest)
    ensures BareText(fn, f, c) != ""
  {
    hide Fits, ClosesCall, NoClash, Looks;
    assert c.tool.name != "";
  }

  // ---------------------------------------------------------------- all calls and their end

  /** The marker that ends the calls; calls without a section have none. */
  function EndMarker(w: Wrapping): string { if w.callStart != "" && w.sectionStart == "" then "" else w.sectionEnd }

  function OneText(w: Wrapping, fn: Function, f: Format, c: Printed): string {
    if w.callStart != "" then WrappedText(w, fn, f, c) else BareText(fn, f, c)
  }

  function Others(w: Wrapping, fn: Function, f: Format, cs: seq<Printed>): string {
    if w.callStart != "" then WrappedMore(w, fn, f, cs) else SeparatedMore(fn, f, cs)
  }

  /** The text of the calls; `tail` is what follows the last of them. */
  function CallsText(w: Wrapping, fn: Function, f: Format, cs: seq<Printed>, tail: string): string
    requires cs != []
  {
    w.sectionStart + (cs[0].gap + (OneText(w, fn, f, cs[0]) + (Others(w, fn, f, cs[1..]) + tail)))
  }

  /** The first call fits what follows it, and only whitespace stands in front of it. */
  predicate FirstFits(w: Wrapping, fn: Function, f: Format, tools: seq<Tool>, c: Printed, rest: string) {
    && AllSpace(c.gap)
    && if w.callStart != "" then
         !StartsWithSpace(w.callStart) && (w.sectionStart == "" ==> c.gap == "")
           && WrappedFits(w, fn, f, tools, c, rest)
       else c.tool in tools && !StartsWithSpace(BareText(fn, f, c) + rest) && CallFits(fn, f, c, rest)
  }

  predicate OthersFit(w: Wrapping, fn: Function, f: Format, tools: seq<Tool>, cs: seq<Printed>, tail: string) {
    if w.callStart != "" then AllWrappedFit(w, fn, f, tools, cs, tail) else AllSeparatedFit(fn, f, tools, cs, tail)
  }

  /** The parser of one call, and that of what stands between two. */
  function ItemParser(w: Wrapping, fn: Function, choice: Parser): Parser {
    if w.callStart != "" then WrappedCall(w, fn, choice) else choice
  }

  function GapParser(w: Wrapping): Parser { if w.callStart != "" then Space else Literal(Separator) }

  function Row(w: Wrapping, fn: Function, choice: Parser, parallel: bool): Parser {
    Seq(ItemParser(w, fn, choice), Repeated(parallel, GapParser(w), ItemParser(w, fn, choice)))
  }

  /** What follows the last call cannot be taken for the start of another one. */
  predicate Stops(w: Wrapping, tail: string) {
    tail == "" || if w.callStart != "" then Diverges(w.callStart, SkipSpace(tail)) else Diverges(Separator, tail)
  }

  lemma StopsFails(w: Wrapping, fn: Function, choice: Parser, tail: string)
    requires Stops(w, tail) && tail != ""
    ensures Parse(Seq(GapParser(w), ItemParser(w, fn, choice)), tail).Fail?
  {
    if w.callStart != "" {
      LiteralRefuses(w.callStart, Seq(Space, Seq(choice, Seq(Space, Literal(fn.perCallEnd)))), SkipSpace(tail));
      SpaceFirst(WrappedCall(w, fn, choice), tail);
    } else {
      LiteralRefuses(Separator, choice, tail);
    }
  }

  lemma LiteralRefuses(l: string, q: Parser, s: string)
    requires Diverges(l, s)
    ensures Parse(Seq(Literal(l), q), s).Fail?
  {
    assert Parse(Literal(l), s).Fail?;
  }

  lemma FirstReads(w: Wrapping, fn: Function, f: Format, tools: seq<Tool>, c: Printed, rest: string)
    requires Distinct(fn, tools) && FirstFits(w, fn, f, tools, c, rest)
    ensures Reads(ItemParser(w, fn, ToolChoice(fn, f, tools)), OneText(w, fn, f, c) + rest, rest, CallSeen(c))
    ensures OneText(w, fn, f, c) != "" && !StartsWithSpace(OneText(w, fn, f, c) + rest)
  {
    hide Reads, CallFits, Distinct, ToolChoice, CallSeen, WrappedCall, WrappedFits, BareText, WrappedText;
    if w.callStart != "" {
      WrappedReads(w, fn, f, tools, c, rest);
      WrappedStarts(w, fn, f, tools, c, rest);
    } else {
      ChoiceReads(fn, f, tools, c, rest);
      BareNotEmpty(fn, f, c, rest);
    }
  }

  lemma RowOfCalls(w: Wrapping, fn: Function, f: Format, tools: seq<Tool>, parallel: bool, cs: seq<Printed>,
                   tail: string)
    requires Distinct(fn, tools) && cs != [] && (parallel || |cs| == 1) && (parallel ==> Stops(w, tail))
    requires FirstFits(w, fn, f, tools, cs[0], Others(w, fn, f, cs[1..]) + tail)
    requires OthersFit(w, fn, f, tools, cs[1..], tail)
    ensures Reads(Row(w, fn, ToolChoice(fn, f, tools), parallel),
                  OneText(w, fn, f, cs[0]) + (Others(w, fn, f, cs[1..]) + tail), tail, Concat(AllSeen(cs)))
  {
    hide Reads, Distinct, ToolChoice, WrappedCall, CallSeen, FirstFits, Stops, MoreRead, AllWrappedFit, AllSeparatedFit;
    hide Repeated, MoreText;
    var choice, more := ToolChoice(fn, f, tools), cs[1..];
    FirstReads(w, fn, f, tools, cs[0], Others(w, fn, f, more) + tail);
    if tail != "" && parallel { StopsFails(w, fn, choice, tail); }
    if w.callStart != "" {
      WrappedStartsPlainly(w, fn, f, tools, cs[0], Others(w, fn, f, more) + tail);
      WrappedMoreRead(w, fn, f, tools, more, tail);
      SameLengths(w, fn, f, more);
      RowReads(Space, WrappedCall(w, fn, choice), parallel, OneText(w, fn, f, cs[0]), Gaps(more),
               WrappedTexts(w, fn, f, more), CallSeen(cs[0]), AllSeen(more), tail);
    } else {
      SeparatedMoreRead(fn, f, tools, more, tail);
      SameLengths(w, fn, f, more);
      RowReads(Literal(Separator), choice, parallel, OneText(w, fn, f, cs[0]), Commas(more), BareTexts(fn, f, more),
               CallSeen(cs[0]), AllSeen(more), tail);
    }
    assert Concat(AllSeen(cs)) == CallSeen(cs[0]) + Concat(AllSeen(more));
  }

  lemma WrappedStartsPlainly(w: Wrapping, fn: Function, f: Format, tools: seq<Tool>, c: Printed, rest: string)
    requires w.callStart != "" && FirstFits(w, fn, f, tools, c, rest)
    ensures !StartsWithSpace(w.callStart)
  {
  }

  // ---------------------------------------------------------------- the section around the calls

  /** What follows the last call: whitespace, the end marker, and more whitespace behind a marker of a section. */
  predicate EndFits(w: Wrapping, a: string, b: string) {
    AllSpace(a) && AllSpace(b) && !StartsWithSpace(EndMarker(w) + b) && (w.callStart == "" ==> b == "")
  }

  lemma ReadsRegrouped(p: Parser, q: Parser, r: Parser, s: string, rest: string, es: seq<Event>)
    requires Reads(Seq(Seq(p, q), r), s, rest, es)
    ensures Reads(Seq(p, Seq(q, r)), s, rest, es)
  {
    SeqRegroups(p, q, r, s);
  }

  /** A row of calls, and what ends the calls in a parser. */
  lemma SectionReads(w: Wrapping, fn: Function, choice: Parser, parallel: bool, s: string, a: string, b: string,
                     gap: string, es: seq<Event>)
    requires EndFits(w, a, b) && AllSpace(gap) && !StartsWithSpace(s)
    requires w.callStart != "" && w.sectionStart == "" ==> gap == ""
    requires Reads(Row(w, fn, choice, parallel), s, a + (EndMarker(w) + b), es)
    ensures Reads(ToolCalls(w, fn, choice, parallel), w.sectionStart + (gap + s), "", es)
  {
    hide Reads, WrappedCall, Repeated;
    if w.callStart != "" {
      WrappedSection(w, fn, choice, parallel, s, a, b, gap, es);
    } else {
      SeparatedSection(w, fn, choice, parallel, s, a, gap, es);
    }
  }

  lemma SeparatedSection(w: Wrapping, fn: Function, choice: Parser, parallel: bool, s: string, a: string, gap: string,
                         es: seq<Event>)
    requires w.callStart == "" && EndFits(w, a, "") && AllSpace(gap) && !StartsWithSpace(s)
    requires Reads(Row(w, fn, choice, parallel), s, a + (w.sectionEnd + ""), es)
    ensures Reads(ToolCalls(w, fn, choice, parallel), w.sectionStart + (gap + s), "", es)
  {
    hide Reads, Repeated;
    var more, end := Repeated(parallel, Literal(Separator), choice), Seq(Space, Literal(w.sectionEnd));
    ReadsLiteral(w.sectionEnd, "");
    ReadsSpaceThen(Literal(w.sectionEnd), a, w.sectionEnd + "", "", []);
    ReadsSeq(Seq(choice, more), end, s, a + (w.sectionEnd + ""), "", es, []);
    assert es + [] == es;
    ReadsRegrouped(choice, more, end, s, "", es);
    ReadsSpaceThen(Seq(choice, Seq(more, end)), gap, s, "", es);
    ReadsLiteralThen(w.sectionStart, Seq(Space, Seq(choice, Seq(more, end))), gap + s, "", es);
    ReadsRule(Seq(Literal(w.sectionStart), Seq(Space, Seq(choice, Seq(more, end)))), w.sectionStart + (gap + s), "",
      es);
  }

  lemma WrappedSection(w: Wrapping, fn: Function, choice: Parser, parallel: bool, s: string, a: string, b: string,
                       gap: string, es: seq<Event>)
    requires w.callStart != "" && EndFits(w, a, b) && AllSpace(gap) && !StartsWithSpace(s)
    requires w.sectionStart == "" ==> gap == ""
    requires Reads(Row(w, fn, choice, parallel), s, a + (EndMarker(w) + b), es)
    ensures Reads(ToolCalls(w, fn, choice, parallel), w.sectionStart + (gap + s), "", es)
  {
    hide Reads, WrappedCall, Repeated;
    var call := WrappedCall(w, fn, choice);
    var more, rest := Repeated(parallel, Space, call), EndMarker(w) + b;
    var calls := Node(OtherTag, Seq(call, Seq(more, Space)));
    ReadsSpace(a, rest);
    ReadsSeq(Seq(call, more), Space, s, a + rest, rest, es, []);
    assert es + [] == es;
    ReadsRegrouped(call, more, Space, s, rest, es);
    ReadsRule(Seq(call, Seq(more, Space)), s, rest, es);
    if w.sectionStart == "" {
      NothingLeft(b);
      assert w.sectionStart + (gap + s) == s && rest == "";
    } else {
      EndReads(w, b);
      var end := if w.sectionEnd == "" then End else Seq(Literal(w.sectionEnd), Space);
      assert "" + rest == rest;
      ReadsSpaceThen(end, "", rest, "", []);
      ReadsSeq(calls, Seq(Space, end), s, rest, "", es, []);
      ReadsSpaceThen(Seq(calls, Seq(Space, end)), gap, s, "", es);
      ReadsLiteralThen(w.sectionStart, Seq(Space, Seq(calls, Seq(Space, end))), gap + s, "", es);
      ReadsRule(Seq(Literal(w.sectionStart), Seq(Space, Seq(calls, Seq(Space, end)))), w.sectionStart + (gap + s),
        "", es);
    }
  }

  lemma NothingLeft(b: string)
    ensures AllSpace(b) && !StartsWithSpace("" + b) ==> b == ""
  {
    assert "" + b == b;
  }

  lemma EndReads(w: Wrapping, b: string)
    requires AllSpace(b) && !StartsWithSpace(w.sectionEnd + b)
    ensures Reads(if w.sectionEnd == "" then End else Seq(Literal(w.sectionEnd), Space), w.sectionEnd + b, "", [])
  {
    hide Reads;
    if w.sectionEnd == "" {
      NothingLeft(b);
      ReadsEnd();
    } else {
      assert b + "" == b;
      ReadsSpace(b, "");
      ReadsLiteralThen(w.sectionEnd, Space, b, "", []);
    }
  }

  // ---------------------------------------------------------------- content in front of the calls

  function ContentSeen(content: string): seq<Event> { if content == "" then [] else [Event(Content, content)] }

  /** Content in front of the trigger is captured whole when the trigger starts nowhere in it. */
  lemma ContentReads(trigger: string, content: string, rest: string)
    requires trigger != "" && Clean(content, trigger) && trigger <= rest
    ensures Reads(Maybe(Node(Content, Until(trigger))), content + rest, rest, ContentSeen(content))
  {
    hide Clean;
    EssentialNone();
    var more := rest[|trigger|..];
    assert rest == trigger + more;
    UntilStops(content, trigger, more);
    var s, p := content + rest, Node(Content, Until(trigger));
    assert Parse(Until(trigger), s) == Success([], rest);
    NodeParses(Content, Until(trigger), content, [], rest);
    StreamedOutput.MaybeIs(p, s);
    if content != "" {
      EssentialFirst(Event(Content, content), []);
      assert [Event(Content, content)] + [] == [Event(Content, content)];
    } else {
      assert s == rest;
    }
  }

  /** Without any marker there is no content. */
  lemma NoContentReads(s: string)
    ensures Reads(Maybe(Node(Content, Eps)), s, s, [])
  {
    EssentialNone();
    StreamedOutput.MaybeIs(Node(Content, Eps), s);
    NodeParses(Content, Eps, "", [], s);
    assert "" + s == s;
  }

  lemma ContentFirst(w: Wrapping, content: string, s: string)
    requires if Trigger(w) == "" then content == "" else Clean(content, Trigger(w)) && Trigger(w) <= s
    ensures Reads(Maybe(Node(Content, if Trigger(w) == "" then Eps else Until(Trigger(w)))), content + s, s,
                  ContentSeen(content))
  {
    hide Reads;
    if Trigger(w) == "" {
      NoContentReads(s);
      assert content + s == s;
    } else {
      ContentReads(Trigger(w), content, s);
    }
  }

  lemma TriggerFirst(w: Wrapping, fn: Function, f: Format, cs: seq<Printed>, tail: string)
    requires cs != [] && (w.callStart != "" && w.sectionStart == "" ==> cs[0].gap == "")
    ensures Trigger(w) <= CallsText(w, fn, f, cs, tail)
  {
    hide BareText;
    var s := CallsText(w, fn, f, cs, tail);
    if w.sectionStart == "" && w.callStart != "" {
      assert s == OneText(w, fn, f, cs[0]) + (Others(w, fn, f, cs[1..]) + tail);
    }
  }

  // ---------------------------------------------------------------- from nodes to the message

  function CallOf(c: Printed): ToolCall {
    ToolCall(TrimmedTrailing(c.tool.name), "{" + S.Joined(ArgsOf(c.first + c.more)) + "}", "")
  }

  function CallsOf(cs: seq<Printed>): seq<ToolCall> { if cs == [] then [] else [CallOf(cs[0])] + CallsOf(cs[1..]) }

  lemma OneCallRuns(st: State, c: Printed)
    requires Valid(st) && TrimmedTrailing(c.tool.name) != ""
    ensures Run(st, CallSeen(c)).msg == st.msg.(toolCalls := st.msg.toolCalls + [CallOf(c)])
  {
    hide S.Body, Run, S.Joined, ArgsOf;
    var args := ArgsOf(c.first + c.more);
    CallEventsAre(c.tool.name, args);
    S.MapperRefinesSerializer(st, c.tool.name, 0, args);
    AllStrings(c.first + c.more);
    S.ExactlyOneBrace(args);
  }

  lemma AllStrings(items: seq<Item>)
    ensures forall a :: a in ArgsOf(items) ==> S.Balanced(a)
  {
  }

  lemma {:induction false} CallsRun(st: State, cs: seq<Printed>)
    requires Valid(st) && forall i :: 0 <= i < |cs| ==> TrimmedTrailing(cs[i].tool.name) != ""
    ensures Run(st, Concat(AllSeen(cs))).msg == st.msg.(toolCalls := st.msg.toolCalls + CallsOf(cs))
    decreases |cs|
  {
    hide CallSeen, CallOf, Run, Concat, AllSeen;
    AllSeenFirst(cs);
    if cs == [] {
      NoEvents(st);
      assert st.msg.toolCalls + [] == st.msg.toolCalls;
    } else {
      var next := Run(st, CallSeen(cs[0]));
      OneCallRuns(st, cs[0]);
      RunAppend(st, CallSeen(cs[0]), Concat(AllSeen(cs[1..])));
      CallsRun(next, cs[1..]);
      Associate(st.msg.toolCalls, [CallOf(cs[0])], CallsOf(cs[1..]));
    }
  }

  lemma AllSeenFirst(cs: seq<Printed>)
    ensures Concat(AllSeen(cs)) == if cs == [] then [] else CallSeen(cs[0]) + Concat(AllSeen(cs[1..]))
  {
    if cs != [] { assert AllSeen(cs)[1..] == AllSeen(cs[1..]); }
  }

  lemma NoEvents(st: State)
    requires Valid(st)
    ensures Run(st, []) == st
  {
  }

  lemma Associate(a: seq<ToolCall>, b: seq<ToolCall>, c: seq<ToolCall>)
    ensures a + b + c == a + (b + c)
  {
  }

  lemma ContentRuns(content: string)
    ensures Run(INIT, ContentSeen(content)).msg == Msg("", content, [])
  {
    hide Step;
    RunTexts(INIT, ContentSeen(content));
    if content != "" {
      RunOne(INIT, Event(Content, content));
      ContentStep(content);
    }
  }

  lemma ContentStep(content: string)
    ensures Step(INIT, Event(Content, content)).msg == Msg("", content, [])
  {
    assert "" + content == content;
  }

  lemma MessageOf(nodes: seq<Event>, content: string, cs: seq<Printed>)
    requires Essential(nodes) == ContentSeen(content) + Concat(AllSeen(cs))
    requires forall i :: 0 <= i < |cs| ==> TrimmedTrailing(cs[i].tool.name) != ""
    ensures Snapshot(nodes) == Msg("", content, CallsOf(cs))
  {
    hide Run, Essential, ContentSeen, CallsOf;
    RunEssential(INIT, nodes);
    RunAppend(INIT, ContentSeen(content), Concat(AllSeen(cs)));
    ContentRuns(content);
    CallsRun(Run(INIT, ContentSeen(content)), cs);
    assert [] + CallsOf(cs) == CallsOf(cs);
  }

  // ---------------------------------------------------------------- the whole output

  /** Printed calls that fit the tools, each other and what follows. */
  predicate CallsFit(w: Wrapping, fn: Function, f: Format, tools: seq<Tool>, parallel: bool, cs: seq<Printed>,
                     a: string, b: string) {
    var tail := a + (EndMarker(w) + b);
    && cs != [] && (parallel || |cs| == 1) && EndFits(w, a, b) && (parallel ==> Stops(w, tail))
    && FirstFits(w, fn, f, tools, cs[0], Others(w, fn, f, cs[1..]) + tail)
    && OthersFit(w, fn, f, tools, cs[1..], tail)
  }

  /** Without any marker there is no content; otherwise the first marker starts nowhere in it. */
  predicate ContentFits(w: Wrapping, content: string) {
    if Trigger(w) == "" then content == "" else Clean(content, Trigger(w))
  }

  lemma CallsRead(w: Wrapping, fn: Function, f: Format, tools: seq<Tool>, parallel: bool, cs: seq<Printed>,
                  a: string, b: string)
    requires Distinct(fn, tools) && CallsFit(w, fn, f, tools, parallel, cs, a, b)
    ensures var s := CallsText(w, fn, f, cs, a + (EndMarker(w) + b));
            s != "" && Reads(ToolCalls(w, fn, ToolChoice(fn, f, tools), parallel), s, "", Concat(AllSeen(cs)))
  {
    hide Reads, Distinct, ToolCalls, ToolChoice, Row, FirstFits, OthersFit, EndFits, Stops, OneText, AllSeen, Others;
    var tail := a + (EndMarker(w) + b);
    var s := OneText(w, fn, f, cs[0]) + (Others(w, fn, f, cs[1..]) + tail);
    RowOfCalls(w, fn, f, tools, parallel, cs, tail);
    FirstReads(w, fn, f, tools, cs[0], Others(w, fn, f, cs[1..]) + tail);
    FirstGap(w, fn, f, tools, cs[0], Others(w, fn, f, cs[1..]) + tail);
    SectionReads(w, fn, ToolChoice(fn, f, tools), parallel, s, a, b, cs[0].gap, Concat(AllSeen(cs)));
  }

  lemma FirstGap(w: Wrapping, fn: Function, f: Format, tools: seq<Tool>, c: Printed, rest: string)
    requires FirstFits(w, fn, f, tools, c, rest)
    ensures AllSpace(c.gap) && (w.callStart != "" && w.sectionStart == "" ==> c.gap == "")
    ensures TrimmedTrailing(c.tool.name) != ""
  {
    hide Fits, NoClash, Looks, ClosesCall, BareText;
  }

  lemma {:induction false} NamesAreText(w: Wrapping, fn: Function, f: Format, tools: seq<Tool>, cs: seq<Printed>,
                                        tail: string)
    requires OthersFit(w, fn, f, tools, cs, tail)
    ensures forall i :: 0 <= i < |cs| ==> TrimmedTrailing(cs[i].tool.name) != ""
    decreases |cs|
  {
    hide Fits, NoClash, Looks, ClosesCall, BareText, WrappedMore, SeparatedMore;
    if cs != [] {
      NamesAreText(w, fn, f, tools, cs[1..], tail);
      assert forall i :: 1 <= i < |cs| ==> cs[i] == cs[1..][i - 1];
    }
  }

  /**
   The round trip of a whole output: content, then any number of printed calls of any of the tools,
   one when calls are not parallel, with whitespace between all parts. The parser reads the text to its
   end, and the message holds the content and the calls in order with the JSON of their arguments.
   */
  lemma OutputRoundTrip(w: Wrapping, fn: Function, f: Format, tools: seq<Tool>, parallel: bool, required: bool,
                        content: string, cs: seq<Printed>, a: string, b: string)
    requires Distinct(fn, tools) && CallsFit(w, fn, f, tools, parallel, cs, a, b) && ContentFits(w, content)
    ensures var r := Parse(OutputParser(w, fn, f, tools, parallel, required),
                           content + CallsText(w, fn, f, cs, a + (EndMarker(w) + b)));
            r.Success? && r.rest == "" && Snapshot(r.nodes) == Msg("", content, CallsOf(cs))
  {
    hide Parse, Seen, Distinct, ToolCalls, ToolChoice, FirstFits, OthersFit, EndFits, Stops, CallsText, AllSeen, Others;
    hide Snapshot, CallsOf, ContentSeen, Clean;
    var s := CallsText(w, fn, f, cs, a + (EndMarker(w) + b));
    var calls, es := ToolCalls(w, fn, ToolChoice(fn, f, tools), parallel), Concat(AllSeen(cs));
    var tail := a + (EndMarker(w) + b);
    FirstGap(w, fn, f, tools, cs[0], Others(w, fn, f, cs[1..]) + tail);
    NamesAreText(w, fn, f, tools, cs[1..], tail);
    TriggerFirst(w, fn, f, cs, tail);
    ContentFirst(w, content, s);
    CallsRead(w, fn, f, tools, parallel, cs, a, b);
    ReadsMaybe(calls, s, "", es);
    var last := if required then calls else Maybe(calls);
    ReadsEnd();
    ReadsSeq(last, End, s, "", "", es, []);
    assert es + [] == es;
    ReadsSeq(Maybe(Node(Content, if Trigger(w) == "" then Eps else Until(Trigger(w)))), Seq(last, End), content + s, s,
             "", ContentSeen(content), es);
    var r := Parse(OutputParser(w, fn, f, tools, parallel, required), content + s);
    SeenIs(r);
    MessageOf(r.nodes, content, cs);
  }

  /**
   An output without calls is all content, unless it ends in what may become the first marker. The
   parser waits for more of it, also when calls are required.
   */
  lemma ContentOnly(w: Wrapping, fn: Function, f: Format, tools: seq<Tool>, parallel: bool, required: bool,
                    content: string)
    requires Trigger(w) != "" && content != "" && !Occurs(content, Trigger(w))
    requires forall i :: 0 <= i < |content| ==> !(content[i..] <= Trigger(w))
    ensures var r := Parse(OutputParser(w, fn, f, tools, parallel, required), content);
            r.NeedMore? && Snapshot(r.nodes) == Msg("", content, [])
  {
    hide Occurs, Parse, OutputParser, Snapshot, Essential;
    var last := ToolCalls(w, fn, ToolChoice(fn, f, tools), parallel);
    ContentWaits(Trigger(w), content);
    AnyOutputIs(w, fn, f, tools, parallel, required);
    SeqFollows(Maybe(Node(Content, Until(Trigger(w)))), Seq(if required then last else Maybe(last), End), content);
    SeenContent(content);
    MessageOf([Event(Content, content)], content, []);
  }

  lemma SeenContent(content: string)
    requires content != ""
    ensures Essential([Event(Content, content)]) == ContentSeen(content) + Concat(AllSeen([]))
  {
    EssentialFirst(Event(Content, content), []);
    EssentialNone();
    assert [Event(Content, content)] + [] == [Event(Content, content)];
    assert Concat(AllSeen([])) == [];
  }

  lemma ContentWaits(trigger: string, content: string)
    requires trigger != "" && content != "" && !Occurs(content, trigger)
    requires forall i :: 0 <= i < |content| ==> !(content[i..] <= trigger)
    ensures Parse(Maybe(Node(Content, Until(trigger))), content) == NeedMore([Event(Content, content)], "")
  {
    hide Occurs;
    var p := Node(Content, Until(trigger));
    NothingStops(content, trigger);
    assert Parse(Until(trigger), content) == NeedMore([], "");
    assert Consumed(content, "") == content;
    assert Parse(p, content) == NeedMore([Event(Content, content)] + [], "");
    StreamedOutput.MaybeIs(p, content);
  }

  /** Nothing at all is an output when calls are not required. */
  lemma EmptyOutput(w: Wrapping, fn: Function, f: Format, tools: seq<Tool>, parallel: bool)
    ensures var r := Parse(OutputParser(w, fn, f, tools, parallel, false), "");
            r.Success? && r.rest == "" && Snapshot(r.nodes) == EMPTY_MSG
  {
    hide ToolCalls, Parse, OutputParser;
    var calls := ToolCalls(w, fn, ToolChoice(fn, f, tools), parallel);
    var p := Maybe(Node(Content, if Trigger(w) == "" then Eps else Until(Trigger(w))));
    StreamedOutput.MaybeIs(calls, "");
    StreamedOutput.MaybeIs(p.child, "");
    EndIs();
    SeqFollows(Maybe(calls), End, "");
    SeqFollows(p, Seq(Maybe(calls), End), "");
    AnyOutputIs(w, fn, f, tools, parallel, false);
    assert Run(INIT, []) == INIT;
  }

  lemma AnyOutputIs(w: Wrapping, fn: Function, f: Format, tools: seq<Tool>, parallel: bool, required: bool)
    ensures var calls := ToolCalls(w, fn, ToolChoice(fn, f, tools), parallel);
            var content := if Trigger(w) == "" then Eps else Until(Trigger(w));
            var last := if required then calls else Maybe(calls);
            OutputParser(w, fn, f, tools, parallel, required) == Seq(Maybe(Node(Content, content)), Seq(last, End))
  {
  }

  lemma {:induction false} NothingStops(s: string, delimiter: string)
    requires delimiter != "" && !Occurs(s, delimiter)
    requires forall i :: 0 <= i < |s| ==> !(s[i..] <= delimiter)
    ensures UntilRest(s, delimiter) == None
    decreases |s|
  {
    if s != "" {
      assert s[0..] == s;
      assert delimiter <= s[0..] ==> Occurs(s, delimiter);
      forall i | 0 <= i <= |s| - 1 ensures !(delimiter <= s[1..][i..]) {
        assert s[1..][i..] == s[i + 1..];
      }
      assert forall i :: 0 <= i < |s| - 1 ==> s[1..][i..] == s[i + 1..];
      NothingStops(s[1..], delimiter);
    }
  }

  // ---------------------------------------------------------------- one call only

  /** Without parallel calls nothing but the end may follow the first call. */
  lemma MoreIsRefused(w: Wrapping, fn: Function, f: Format, tools: seq<Tool>, required: bool, content: string,
                      c: Printed, tail: string)
    requires Distinct(fn, tools) && ContentFits(w, content) && FirstFits(w, fn, f, tools, c, tail)
    requires SkipSpace(tail) != "" && (EndMarker(w) == "" || Diverges(EndMarker(w), SkipSpace(tail)))
    ensures Parse(OutputParser(w, fn, f, tools, false, required), content + CallsText(w, fn, f, [c], tail)).Fail?
  {
    hide Parse, Distinct, ToolCalls, ToolChoice, FirstFits, CallsText, OneText, Clean, Diverges;
    var s := CallsText(w, fn, f, [c], tail);
    var calls := ToolCalls(w, fn, ToolChoice(fn, f, tools), false);
    FirstGap(w, fn, f, tools, c, tail);
    TriggerFirst(w, fn, f, [c], tail);
    ContentFirst(w, content, s);
    CallsGoOn(w, fn, f, tools, c, tail);
    var last := if required then calls else Maybe(calls);
    StreamedOutput.MaybeIs(calls, s);
    LastRefuses(last, s);
    var p := Maybe(Node(Content, if Trigger(w) == "" then Eps else Until(Trigger(w))));
    SeqFollows(p, Seq(last, End), content + s);
  }

  lemma LastRefuses(last: Parser, s: string)
    requires var r := Parse(last, s); r.Fail? || (r.Success? && r.rest != "")
    ensures Parse(Seq(last, End), s).Fail?
  {
  }

  /** The calls are refused, or end in front of the text that is left over. */
  lemma CallsGoOn(w: Wrapping, fn: Function, f: Format, tools: seq<Tool>, c: Printed, tail: string)
    requires Distinct(fn, tools) && FirstFits(w, fn, f, tools, c, tail)
    requires SkipSpace(tail) != "" && (EndMarker(w) == "" || Diverges(EndMarker(w), SkipSpace(tail)))
    ensures var s := CallsText(w, fn, f, [c], tail);
            var r := Parse(ToolCalls(w, fn, ToolChoice(fn, f, tools), false), s);
            s != "" && (r.Fail? || (r.Success? && r.rest != ""))
  {
    hide Parse, Distinct, ToolChoice, FirstFits, OneText, WrappedCall, Diverges;
    var s := OneText(w, fn, f, c) + tail;
    FirstReads(w, fn, f, tools, c, tail);
    FirstGap(w, fn, f, tools, c, tail);
    NoOthers(w, fn, f, c, tail);
    var item := ItemParser(w, fn, ToolChoice(fn, f, tools));
    if w.callStart != "" {
      WrappedGoOn(w, fn, ToolChoice(fn, f, tools), c.gap, s, tail, CallSeen(c));
    } else {
      SeparatedGoOn(w, fn, item, c.gap, s, tail, CallSeen(c));
    }
  }

  /** The parser refuses the text, or leaves some of it. */
  predicate GoesOn(p: Parser, s: string) {
    var r := Parse(p, s);
    r.Fail? || (r.Success? && r.rest != "")
  }

  lemma SeqGoesOn(p: Parser, q: Parser, s: string, mid: string, a: seq<Event>)
    requires Reads(p, s, mid, a) && GoesOn(q, mid)
    ensures GoesOn(Seq(p, q), s)
  {
    hide Parse, Seen;
    SeqFollows(p, q, s);
  }

  lemma RuleGoesOn(p: Parser, s: string)
    requires GoesOn(p, s)
    ensures GoesOn(Node(OtherTag, p), s)
  {
  }

  lemma SpaceGoesOn(q: Parser, spaces: string, s: string)
    requires AllSpace(spaces) && !StartsWithSpace(s) && GoesOn(q, s)
    ensures GoesOn(Seq(Space, q), spaces + s)
  {
    hide Parse, Seen, Reads, GoesOn;
    ReadsSpace(spaces, s);
    SeqGoesOn(Space, q, spaces + s, s, []);
  }

  lemma LiteralGoesOn(l: string, q: Parser, s: string)
    requires GoesOn(q, s)
    ensures GoesOn(Seq(Literal(l), q), l + s)
  {
    hide Parse, Seen, Reads, GoesOn;
    ReadsLiteral(l, s);
    SeqGoesOn(Literal(l), q, l + s, s, []);
  }

  lemma ReadsSkip(s: string)
    ensures Reads(Space, s, SkipSpace(s), [])
  {
    EssentialNone();
  }

  lemma MarkerGoesOn(marker: string, q: Parser, s: string)
    requires Diverges(marker, s)
    ensures GoesOn(Literal(marker), s) && GoesOn(Seq(Literal(marker), q), s)
  {
    LiteralRefuses(marker, q, s);
  }

  lemma EmptyMarkerGoesOn(s: string)
    requires s != ""
    ensures GoesOn(Literal(""), s) && GoesOn(End, s)
  {
  }

  lemma WrappedGoOn(w: Wrapping, fn: Function, choice: Parser, gap: string, s: string, tail: string, es: seq<Event>)
    requires w.callStart != "" && AllSpace(gap) && (w.sectionStart == "" ==> gap == "") && !StartsWithSpace(s)
    requires Reads(WrappedCall(w, fn, choice), s, tail, es)
    requires var u := SkipSpace(tail); u != "" && (EndMarker(w) == "" || Diverges(EndMarker(w), u))
    ensures GoesOn(ToolCalls(w, fn, choice, false), w.sectionStart + (gap + s))
  {
    hide Parse, Reads, WrappedCall, GoesOn, Diverges;
    var call, u := WrappedCall(w, fn, choice), SkipSpace(tail);
    var calls := Node(OtherTag, Seq(call, Seq(Eps, Space)));
    ReadsEps(tail);
    ReadsSkip(tail);
    ReadsSeq(Eps, Space, tail, tail, u, [], []);
    ReadsSeq(call, Seq(Eps, Space), s, tail, u, es, [] + []);
    ReadsRule(Seq(call, Seq(Eps, Space)), s, u, es + ([] + []));
    if w.sectionStart == "" {
      ReadsGoesOn(calls, s, u, es + ([] + []));
      assert w.sectionStart + (gap + s) == s;
    } else {
      var end := if w.sectionEnd == "" then End else Seq(Literal(w.sectionEnd), Space);
      if w.sectionEnd == "" { EmptyMarkerGoesOn(u); } else { MarkerGoesOn(w.sectionEnd, Space, u); }
      SkipTwice(tail);
      assert "" + u == u;
      SpaceGoesOn(end, "", u);
      SeqGoesOn(calls, Seq(Space, end), s, u, es + ([] + []));
      SpaceGoesOn(Seq(calls, Seq(Space, end)), gap, s);
      LiteralGoesOn(w.sectionStart, Seq(Space, Seq(calls, Seq(Space, end))), gap + s);
      RuleGoesOn(Seq(Literal(w.sectionStart), Seq(Space, Seq(calls, Seq(Space, end)))), w.sectionStart + (gap + s));
    }
  }

  lemma ReadsGoesOn(p: Parser, s: string, rest: string, es: seq<Event>)
    requires Reads(p, s, rest, es) && rest != ""
    ensures GoesOn(p, s)
  {
  }

  lemma SeparatedGoOn(w: Wrapping, fn: Function, choice: Parser, gap: string, s: string, tail: string, es: seq<Event>)
    requires w.callStart == "" && AllSpace(gap) && !StartsWithSpace(s)
    requires Reads(choice, s, tail, es)
    requires var u := SkipSpace(tail); u != "" && (EndMarker(w) == "" || Diverges(EndMarker(w), u))
    ensures GoesOn(ToolCalls(w, fn, choice, false), w.sectionStart + (gap + s))
  {
    hide Parse, Reads, GoesOn, Diverges;
    var u, end := SkipSpace(tail), Literal(w.sectionEnd);
    var all := Seq(choice, Seq(Eps, Seq(Space, end)));
    ReadsEps(tail);
    ReadsSkip(tail);
    if w.sectionEnd == "" { EmptyMarkerGoesOn(u); } else { MarkerGoesOn(w.sectionEnd, Space, u); }
    SeqGoesOn(Space, end, tail, u, []);
    SeqGoesOn(Eps, Seq(Space, end), tail, tail, []);
    SeqGoesOn(choice, Seq(Eps, Seq(Space, end)), s, tail, es);
    SpaceGoesOn(all, gap, s);
    LiteralGoesOn(w.sectionStart, Seq(Space, all), gap + s);
    RuleGoesOn(Seq(Literal(w.sectionStart), Seq(Space, all)), w.sectionStart + (gap + s));
  }

  lemma NoOthers(w: Wrapping, fn: Function, f: Format, c: Printed, tail: string)
    ensures CallsText(w, fn, f, [c], tail) == w.sectionStart + (c.gap + (OneText(w, fn, f, c) + tail))
  {
    assert [c][1..] == [] && "" + tail == tail;
  }

  lemma {:induction false} SkipTwice(s: string)
    ensures SkipSpace(SkipSpace(s)) == SkipSpace(s) && !StartsWithSpace(SkipSpace(s))
    decreases |s|
  {
    if s != "" && IsSpace(s[0]) { SkipTwice(s[1..]); }
  }

  /** A second printed call is refused when calls are not parallel. */
  lemma SecondCallRefused(w: Wrapping, fn: Function, f: Format, tools: seq<Tool>, required: bool, content: string,
                          cs: seq<Printed>, tail: string)
    requires Distinct(fn, tools) && SectionEnds(w) && ContentFits(w, content) && |cs| > 1 && AllSpace(cs[1].gap)
    requires FirstFits(w, fn, f, tools, cs[0], Others(w, fn, f, cs[1..]) + tail)
    ensures Parse(OutputParser(w, fn, f, tools, false, required), content + CallsText(w, fn, f, cs, tail)).Fail?
  {
    hide Parse, Distinct, OutputParser, FirstFits, Clean, OneText, Diverges;
    var more := Others(w, fn, f, cs[1..]) + tail;
    FirstGap(w, fn, f, tools, cs[0], more);
    PlainStart(w, fn, f, tools, cs[0], more);
    var marker := if w.callStart != "" then w.callStart else Separator;
    var after := MarkerNext(w, fn, f, cs[1..], tail);
    if EndMarker(w) != "" { StillDiverges(EndMarker(w), marker, after); }
    MoreIsRefused(w, fn, f, tools, required, content, cs[0], more);
    NoOthers(w, fn, f, cs[0], more);
  }

  lemma PlainStart(w: Wrapping, fn: Function, f: Format, tools: seq<Tool>, c: Printed, rest: string)
    requires FirstFits(w, fn, f, tools, c, rest)
    ensures !StartsWithSpace(w.callStart)
  {
  }

  /** Behind whitespace, the text of further calls starts with what separates them. */
  lemma MarkerNext(w: Wrapping, fn: Function, f: Format, cs: seq<Printed>, tail: string) returns (after: string)
    requires cs != [] && AllSpace(cs[0].gap) && !StartsWithSpace(w.callStart)
    ensures SkipSpace(Others(w, fn, f, cs) + tail) == (if w.callStart != "" then w.callStart else Separator) + after
  {
    hide BareText;
    if w.callStart != "" {
      var inside := cs[0].before + (BareText(fn, f, cs[0]) + (cs[0].after + fn.perCallEnd));
      after := inside + (WrappedMore(w, fn, f, cs[1..]) + tail);
      RegroupNext(cs[0].gap, w.callStart, inside, WrappedMore(w, fn, f, cs[1..]), tail);
      assert (w.callStart + after)[0] == w.callStart[0];
      SpaceParses(cs[0].gap, w.callStart + after);
    } else {
      after := BareText(fn, f, cs[0]) + SeparatedMore(fn, f, cs[1..]) + tail;
      assert SeparatedMore(fn, f, cs) + tail == Separator + after;
      assert (Separator + after)[0] == ',';
    }
  }

  lemma RegroupNext(gap: string, start: string, inside: string, others: string, tail: string)
    ensures gap + ((start + inside) + others) + tail == gap + (start + (inside + (others + tail)))
  {
    assert start + inside + others + tail == start + (inside + (others + tail));
    assert gap + (start + inside + others) + tail == gap + (start + inside + others + tail);
  }

  // ---------------------------------------------------------------- a concrete output

  const EXAMPLE_WRAPPING := Wrapping("", "", "<call>")
  const EXAMPLE_FUNCTION := Function("<f=", ">", "</f>", "</call>")
  const EXAMPLE_FORMAT := Format("", "", "<p=", ">", "", "</p>")
  const EXAMPLE_TOOLS := [Tool("a", [], {}), Tool("b", [], {})]
  const CALL_A := Printed(Tool("a", [], {}), "", "", "", [], [], "", "")
  const CALL_B := Printed(Tool("b", [], {}), "\n", "", "", [], [], "", "")

  /** Two calls without arguments behind content, each in its own marker: both are read, or the second is refused. */
  lemma TwoCallsExample()
    ensures var text := "Hi" + "<call><f=a></f></call>\n<call><f=b></f></call>";
            var both := OutputParser(EXAMPLE_WRAPPING, EXAMPLE_FUNCTION, EXAMPLE_FORMAT, EXAMPLE_TOOLS, true, false);
            var one := OutputParser(EXAMPLE_WRAPPING, EXAMPLE_FUNCTION, EXAMPLE_FORMAT, EXAMPLE_TOOLS, false, false);
            && Parse(both, text).Success? && Parse(one, text).Fail?
            && Snapshot(Parse(both, text).nodes) == Msg("", "Hi", [ToolCall("a", "{}", ""), ToolCall("b", "{}", "")])
  {
    hide Parse, OutputParser, Snapshot, CallFits, CallsFit, Clean, CallsText, FirstFits, Distinct, CallsOf;
    var w, fn, f, tools := EXAMPLE_WRAPPING, EXAMPLE_FUNCTION, EXAMPLE_FORMAT, EXAMPLE_TOOLS;
    ExampleFits();
    ExampleText();
    HiIsClean();
    ExampleCalls();
    OutputRoundTrip(w, fn, f, tools, true, false, "Hi", [CALL_A, CALL_B], "", "");
    SecondCallRefused(w, fn, f, tools, false, "Hi", [CALL_A, CALL_B], "");
  }

  lemma ExampleCalls()
    ensures CallsOf([CALL_A, CALL_B]) == [ToolCall("a", "{}", ""), ToolCall("b", "{}", "")]
  {
    assert [CALL_A, CALL_B][1..] == [CALL_B] && [CALL_B][1..] == [];
    assert S.Joined(ArgsOf([] + [])) == "";
    assert CallOf(CALL_A) == ToolCall("a", "{}", "") && CallOf(CALL_B) == ToolCall("b", "{}", "");
    assert CallsOf([CALL_B]) == [CallOf(CALL_B)] + CallsOf([]);
    assert CallsOf([CALL_A, CALL_B]) == [CallOf(CALL_A)] + CallsOf([CALL_B]);
  }

  lemma ExampleText()
    ensures CallsText(EXAMPLE_WRAPPING, EXAMPLE_FUNCTION, EXAMPLE_FORMAT, [CALL_A, CALL_B], "")
         == "<call><f=a></f></call>\n<call><f=b></f></call>"
  {
    hide CallsText, WrappedText, BareText;
    var w, fn, f := EXAMPLE_WRAPPING, EXAMPLE_FUNCTION, EXAMPLE_FORMAT;
    EmptyCallText(w, fn, f, CALL_A);
    EmptyCallText(w, fn, f, CALL_B);
    TwoInARow(w, fn, f, CALL_A, CALL_B);
    ExampleTags();
  }

  lemma ExampleTags()
    ensures ("<call>" + ("<f=" + "a" + "></f>" + "</call>")) + ("\n" + ("<call>" + ("<f=" + "b" + "></f>" + "</call>")))
         == "<call><f=a></f></call>\n<call><f=b></f></call>"
  {
  }

  lemma TwoInARow(w: Wrapping, fn: Function, f: Format, a: Printed, b: Printed)
    requires w.callStart != "" && w.sectionStart == "" && a.gap == ""
    ensures CallsText(w, fn, f, [a, b], "") == WrappedText(w, fn, f, a) + (b.gap + WrappedText(w, fn, f, b))
  {
    hide WrappedText;
    assert [a, b][1..] == [b] && [b][1..] == [];
    var wa, wb := WrappedText(w, fn, f, a), WrappedText(w, fn, f, b);
    assert WrappedMore(w, fn, f, [b]) == b.gap + (wb + WrappedMore(w, fn, f, []));
    assert wb + "" == wb && b.gap + wb + "" == b.gap + wb;
    assert "" + ("" + (wa + (b.gap + wb))) == wa + (b.gap + wb);
  }

  lemma ExampleFits()
    ensures var w, fn, f, tools := EXAMPLE_WRAPPING, EXAMPLE_FUNCTION, EXAMPLE_FORMAT, EXAMPLE_TOOLS;
            && Distinct(fn, tools) && SectionEnds(w) && Trigger(w) == "<call>" && "" + (EndMarker(w) + "") == ""
            && CallsFit(w, fn, f, tools, true, [CALL_A, CALL_B], "", "") && AllSpace(CALL_B.gap)
            && FirstFits(w, fn, f, tools, CALL_A, Others(w, fn, f, [CALL_A, CALL_B][1..]) + "")
  {
    hide CallFits, BareText, WrappedText, AllWrappedFit;
    var w, fn, f, tools := EXAMPLE_WRAPPING, EXAMPLE_FUNCTION, EXAMPLE_FORMAT, EXAMPLE_TOOLS;
    var cs := [CALL_A, CALL_B];
    assert cs[1..] == [CALL_B] && [CALL_B][1..] == [];
    ExampleWrapped(CALL_A, WrappedMore(w, fn, f, [CALL_B]) + "");
    ExampleWrapped(CALL_B, WrappedMore(w, fn, f, []) + "");
    LastFits(CALL_B);
    assert EXAMPLE_TOOLS[0].name != EXAMPLE_TOOLS[1].name;
  }

  lemma LastFits(c: Printed)
    requires WrappedFits(EXAMPLE_WRAPPING, EXAMPLE_FUNCTION, EXAMPLE_FORMAT, EXAMPLE_TOOLS, c,
                         WrappedMore(EXAMPLE_WRAPPING, EXAMPLE_FUNCTION, EXAMPLE_FORMAT, []) + "")
    ensures AllWrappedFit(EXAMPLE_WRAPPING, EXAMPLE_FUNCTION, EXAMPLE_FORMAT, EXAMPLE_TOOLS, [c], "")
  {
    hide WrappedFits, WrappedMore;
    assert [c][1..] == [];
  }

  lemma ExampleWrapped(c: Printed, rest: string)
    requires c == CALL_A || c == CALL_B
    ensures WrappedFits(EXAMPLE_WRAPPING, EXAMPLE_FUNCTION, EXAMPLE_FORMAT, EXAMPLE_TOOLS, c, rest)
  {
    hide CallFits, BareText;
    var w, fn, f := EXAMPLE_WRAPPING, EXAMPLE_FUNCTION, EXAMPLE_FORMAT;
    EmptyCallFits(fn, f, c, c.after + (fn.perCallEnd + rest));
    EmptyCallText(w, fn, f, c);
    assert EXAMPLE_TOOLS[0] == CALL_A.tool && EXAMPLE_TOOLS[1] == CALL_B.tool;
    assert (BareText(fn, f, c) + (c.after + (fn.perCallEnd + rest)))[0] == '<';
    assert (fn.perCallEnd + rest)[0] == '<';
    assert AllSpace("\n");
  }

  lemma HiIsClean()
    ensures Clean("Hi", "<call>")
  {
    var s := "Hi" + "<call>";
    forall i | 0 <= i < 2 ensures !("<call>" <= s[i..]) {
      assert s[i..][0] == s[i] && s[i] == "Hi"[i];
    }
  }

  lemma EmptyCallFits(fn: Function, f: Format, c: Printed, rest: string)
    requires fn == Function("<f=", ">", "</f>", "</call>") && f == Format("", "", "<p=", ">", "", "</p>")
    requires c.tool.properties == [] && c.first == [] && c.more == [] && c.lead == "" && c.spaces == ""
    requires c.tool.name == "a" || c.tool.name == "b"
    ensures CallFits(fn, f, c, rest)
  {
    assert !IsSpace('a') && !IsSpace('b') && !IsSpace('>');
    assert ValueClose(f) != "";
  }

  lemma EmptyCallText(w: Wrapping, fn: Function, f: Format, c: Printed)
    requires fn == Function("<f=", ">", "</f>", "</call>") && f == Format("", "", "<p=", ">", "", "</p>")
    requires c.first == [] && c.more == [] && c.lead == "" && c.spaces == "" && c.before == "" && c.after == ""
    ensures BareText(fn, f, c) == "<f=" + c.tool.name + "></f>"
    ensures WrappedText(w, fn, f, c) == w.callStart + ("<f=" + c.tool.name + "></f>" + "</call>")
  {
  }
}
