/**
 Where streaming a tagged call fails: without an end marker every optional argument forks the
 message, and so does a marker that can stand where an argument breaks off. With StreamedCalls
 this tells exactly which formats stream.
 */
module StreamForks {
  import opened Text
  import opened MessageDiff
  import opened ToolCallMapper
  import opened Streaming
  import opened Peg
  import opened TaggedArgs
  import opened TaggedCalls
  import opened GrowingParses
  import opened GrowingArguments
  import opened GrowingCalls
  import opened StreamedCalls
  import CallShapes
  import S = ArgumentSerializer
  import JsonText

  // ---------------------------------------------------------------- two snapshots

  lemma SessionOfTwo(a: seq<Event>, b: seq<Event>)
    ensures Session(EMPTY_MSG, EMPTY_MSG, [a, b]) == Ok(Snapshot(b)) <==> Extends(Snapshot(a), Snapshot(b))
  {
    hide Snapshot, Diffs, Extends;
    var ma, mb := Snapshot(a), Snapshot(b);
    EmptyIsExtended(ma);
    DiffRebuildsExactly(EMPTY_MSG, ma);
    DiffRebuildsExactly(ma, mb);
    assert [a, b][1..] == [b] && [b][1..] == [];
    assert Session(EMPTY_MSG, EMPTY_MSG, [a, b]) == Session(ma, ma, [b]);
    if Diffs(ma, mb).Ok? {
      assert Session(ApplyAll(ma, Diffs(ma, mb).value), mb, []) == Ok(ApplyAll(ma, Diffs(ma, mb).value));
    }
  }

  lemma EmptyIsExtended(m: Msg)
    ensures Extends(EMPTY_MSG, m)
  {
  }

  /** A parser that streams extends every snapshot. */
  lemma StreamsExtend(p: Parser, x: string, y: string)
    requires Streams(p) && x <= y && !Parse(p, x).Fail? && !Parse(p, y).Fail?
    ensures Extends(Snapshot(Parse(p, x).nodes), Snapshot(Parse(p, y).nodes))
  {
    hide Parse, Session, Snapshot, Extends;
    var texts := [x, y];
    assert texts[|texts| - 1] == y && GrowingTexts(texts);
    assert Reports(p, texts) == [Parse(p, x).nodes, Parse(p, y).nodes];
    SessionOfTwo(Parse(p, x).nodes, Parse(p, y).nodes);
  }

  // ---------------------------------------------------------------- no end marker

  function JoinedArgs(items: seq<Item>): string { S.Joined(ArgsOf(items)) }

  lemma {:induction false} JoinedSnoc(args: seq<S.Arg>, a: S.Arg)
    ensures S.Joined(args + [a]) == if args == [] then S.Entry(a) else S.Joined(args) + "," + S.Entry(a)
  {
    hide S.Entry;
    if |args| > 1 {
      JoinedSnoc(args[1..], a);
      assert (args + [a])[1..] == args[1..] + [a];
      RegroupThree(S.Entry(args[0]) + ",", S.Joined(args[1..]), ",", S.Entry(a));
    } else if |args| == 1 {
      assert (args + [a])[1..] == [a];
    } else {
      assert args + [a] == [a];
    }
  }

  lemma RegroupThree(a: string, b: string, c: string, d: string)
    ensures a + (b + c + d) == a + b + c + d
  {
  }

  /** A closed object is no prefix of an object with one more member, nor the other way round. */
  lemma ClosedObjectsFork(items: seq<Item>, it: Item)
    ensures var a, b := "{" + JoinedArgs(items) + "}", "{" + JoinedArgs(items + [it]) + "}";
            !(a <= b) && !(b <= a)
  {
    hide S.Joined, S.RenderedValue, JsonText.Escaped;
    var j, e := JoinedArgs(items), S.Entry(ArgOf(it));
    assert ArgsOf(items + [it]) == ArgsOf(items) + [ArgOf(it)];
    JoinedSnoc(ArgsOf(items), ArgOf(it));
    assert e[0] == '"';
    if items == [] { NothingJoined(); }
    var more := if items == [] then e else "," + e;
    assert JoinedArgs(items + [it]) == j + more by {
      if items == [] { assert "" + e == e; } else { assert j + "," + e == j + ("," + e); }
    }
    var a, b := "{" + j + "}", "{" + (j + more) + "}";
    assert a[|j| + 1] == '}' && b[|j| + 1] == more[0] != '}';
  }

  lemma NothingJoined()
    ensures JoinedArgs([]) == ""
  {
  }

  lemma OneCallDiff(name: string, a: string, b: string)
    requires !(a <= b) && !(b <= a)
    ensures Diffs(EMPTY_MSG.(toolCalls := [ToolCall(name, a, "")]),
        EMPTY_MSG.(toolCalls := [ToolCall(name, b, "")])) == Err(NotAPrefix)
  {
  }

  /** The printed call with these optional arguments, for functions that have no end marker. */
  function UnmarkedText(fn: Function, f: Format, name: string, lead: string, first: seq<Item>,
                        more: seq<Item>): string {
    CallText(fn, name, lead, ArgsText(f, first, more), "")
  }

  lemma UnmarkedGrows(fn: Function, f: Format, name: string, lead: string, first: seq<Item>, more: seq<Item>, it: Item)
    requires fn.close == "" && f.end == ""
    ensures ArgsText(f, first, more + [it]) == ArgsText(f, first, more) + ItemText(f, it)
    ensures UnmarkedText(fn, f, name, lead, first, more) <= UnmarkedText(fn, f, name, lead, first, more + [it])
  {
    hide ItemText;
    assert (more + [it])[..|more|] == more;
    var t := ItemText(f, it);
    assert f.start + (Texts(f, first) + ((Texts(f, more) + t) + ""))
      == f.start + (Texts(f, first) + (Texts(f, more) + "")) + t;
    var a := ArgsText(f, first, more);
    assert OpenCallText(fn, name) + (lead + ((a + t) + ("" + "")))
      == OpenCallText(fn, name) + (lead + (a + ("" + ""))) + t;
  }

  /**
   A function without any end marker is closed as soon as its text stops behind an argument:
   one more optional argument forks the message, for every such format and every call.
   */
  lemma UnmarkedCallForks(fn: Function, f: Format, name: string, required: seq<string>, optional: seq<string>,
                          peek: Option<string>, lead: string, first: seq<Item>, more: seq<Item>, it: Item)
    requires !HasMarker(fn, f) && TrimmedTrailing(name) != "" && !StartsWithSpace(f.start) && AllSpace(lead)
    requires Fits(f, required, optional, first, more + [it], "")
    requires Looks(fn, peek, ArgsText(f, first, more))
    ensures var p := FuncParser(fn, name, ArgsParser(f, required, optional), peek);
            var x, y := UnmarkedText(fn, f, name, lead, first, more),
               UnmarkedText(fn, f, name, lead, first, more + [it]);
            && x <= y && Parse(p, x).Success? && Parse(p, y).Success?
            && Diffs(Snapshot(Parse(p, x).nodes), Snapshot(Parse(p, y).nodes)) == Err(NotAPrefix)
  {
    hide Parse, FuncParser, ArgsParser, Run, Diffs, WithCall, UnmarkedText, ArgsText, Finish, JoinedArgs;
    FewerFit(f, required, optional, first, more, it);
    UnmarkedReads(fn, f, name, required, optional, peek, lead, first, more);
    UnmarkedGrows(fn, f, name, lead, first, more, it);
    LooksLonger(fn, peek, ArgsText(f, first, more), ItemText(f, it));
    UnmarkedReads(fn, f, name, required, optional, peek, lead, first, more + [it]);
    ClosedObjectsFork(first + more, it);
    assert first + more + [it] == first + (more + [it]);
    OneCallDiff(TrimmedTrailing(name), "{" + JoinedArgs(first + more) + "}",
      "{" + JoinedArgs(first + (more + [it])) + "}");
    OneCall(name, first + more);
    OneCall(name, first + (more + [it]));
  }

  lemma OneCall(name: string, items: seq<Item>)
    ensures WithCall(EMPTY_MSG, name, items)
         == EMPTY_MSG.(toolCalls := [ToolCall(TrimmedTrailing(name), "{" + JoinedArgs(items) + "}", "")])
  {
  }

  lemma LooksLonger(fn: Function, peek: Option<string>, s: string, more: string)
    requires Looks(fn, peek, s)
    ensures Looks(fn, peek, s + more)
  {
    if fn.nameSuffix == "" && peek.Some? { assert (s + more)[..|peek.value|] == s[..|peek.value|]; }
  }

  lemma FewerFit(f: Format, required: seq<string>, optional: seq<string>, first: seq<Item>, more: seq<Item>, it: Item)
    requires Fits(f, required, optional, first, more + [it], "")
    ensures Fits(f, required, optional, first, more, "")
  {
    assert forall x :: x in more ==> x in more + [it];
  }

  lemma UnmarkedReads(fn: Function, f: Format, name: string, required: seq<string>, optional: seq<string>,
                      peek: Option<string>, lead: string, first: seq<Item>, more: seq<Item>)
    requires !HasMarker(fn, f) && TrimmedTrailing(name) != "" && !StartsWithSpace(f.start) && AllSpace(lead)
    requires Fits(f, required, optional, first, more, "")
    requires Looks(fn, peek, ArgsText(f, first, more))
    ensures var r := Parse(FuncParser(fn, name, ArgsParser(f, required, optional), peek),
                           UnmarkedText(fn, f, name, lead, first, more));
            r.Success? && Snapshot(r.nodes) == WithCall(EMPTY_MSG, name, first + more)
  {
    hide Parse, FuncParser, ArgsParser, Run, Fits, WithCall, ArgsText, Finish, CallText;
    assert "" + (fn.close + "") == "";
    assert ArgsText(f, first, more) + "" == ArgsText(f, first, more);
    ListRoundTrip(INIT, fn, f, name, required, optional, peek, lead, first, more, "", "");
    var text := UnmarkedText(fn, f, name, lead, first, more);
    assert text + "" == text;
    var r := Parse(FuncParser(fn, name, ArgsParser(f, required, optional), peek), text);
    ReadsCallSeen(r, name, Nodes(f, first) + Nodes(f, more), "");
    OnlyCall(Run(INIT, r.nodes), name, first + more);
  }

  // ---------------------------------------------------------------- a marker in the wrong place

  /** A whitespace character other than this one. */
  function OtherSpace(c: char): char { if c == ' ' then '\n' else ' ' }

  /** A text that starts with an opener, breaks off behind it, and goes on as the marker does. */
  function BrokenText(marker: string, open: string, valuePrefix: string): string
    requires !Guards(marker, open, valuePrefix)
  {
    var full := open + valuePrefix;
    if marker <= open then open + [OtherSpace(full[|open|])]
    else if marker <= full && marker != full then marker + [OtherSpace(full[|marker|])]
    else marker
  }

  lemma BrokenTextBreaks(marker: string, open: string, valuePrefix: string)
    requires !Guards(marker, open, valuePrefix)
    ensures var u := BrokenText(marker, open, valuePrefix);
            open <= u && marker <= u && Diverges(open + valuePrefix, u)
  {
    var full, u := open + valuePrefix, BrokenText(marker, open, valuePrefix);
    if marker <= open {
      assert u[..|open|] == open && u[|open|] != full[|open|];
      assert marker == open[..|marker|] == u[..|marker|];
    } else if marker <= full && marker != full {
      assert open <= marker;
      assert u[..|marker|] == marker && u[|marker|] != full[|marker|];
      assert open == marker[..|open|] == u[..|open|];
    }
  }

  /** Required arguments with empty values. */
  function Blank(names: seq<string>): seq<Item> {
    seq(|names|, i requires 0 <= i < |names| => Item(names[i], "", ""))
  }

  /** The text of a call up to its optional arguments, then `rest`. */
  function CallUpTo(fn: Function, f: Format, name: string, required: seq<string>, rest: string): string {
    OpenCallText(fn, name) + (f.start + (Texts(f, Blank(required)) + rest))
  }

  predicate PlainOpeners(f: Format, names: seq<string>) {
    forall i :: 0 <= i < |names| ==> !StartsWithSpace(OpenText(f, names[i]))
  }

  /**
   Formats whose calls can be read at all: values and names end, no argument and no marker
   starts with whitespace, and what is looked for behind the name does stand there.
   */
  predicate Sane(fn: Function, f: Format, required: seq<string>, optional: seq<string>, peek: Option<string>) {
    && f.valueSuffix != "" && f.nameSuffix != "" && AllFree(f, optional)
    && !StartsWithSpace(f.start) && PlainMarker(fn, f)
    && PlainOpeners(f, required) && PlainOpeners(f, optional)
    && Looks(fn, peek, f.start + Texts(f, Blank(required)))
  }

  lemma BlankFits(f: Format, required: seq<string>)
    requires PlainOpeners(f, required)
    ensures Names(Blank(required)) == required
    ensures forall it :: it in Blank(required) ==> Printable(f, it)
  {
    assert Names(Blank(required)) == required;
  }

  lemma HeadReads(fn: Function, name: string, peek: Option<string>, s: string)
    requires !StartsWithSpace(s) && Looks(fn, peek, s)
    ensures var r := Parse(Head(fn, name, peek), OpenCallText(fn, name) + s);
            r.Success? && r.rest == s && Seen(r) == [Event(ToolOpen, ""), Event(ToolName, name)]
  {
    hide Parse, OpenCall, OpenCallText, Essential;
    var all := OpenCallText(fn, name) + s;
    var open := [Event(ToolOpen, OpenCallText(fn, name)), Event(ToolName, name)];
    var none: seq<Event> := [];
    OpenCallParses(fn, name, s);
    NoSpaceParses(s);
    assert open + none == open && none + none == none;
    if fn.nameSuffix == "" && peek.Some? {
      var look := Peek(Literal(peek.value));
      PeekParses(peek.value, s);
      SeqParses(Space, look, s, s, s, none, none);
      SeqParses(OpenCall(fn, name), Seq(Space, look), all, s, s, open, none);
      AtomicParses(Seq(OpenCall(fn, name), Seq(Space, look)), all);
    } else {
      SeqParses(OpenCall(fn, name), Space, all, s, s, open, none);
    }
    EssentialFirst(Event(ToolName, name), []);
    EssentialFirst(open[0], [Event(ToolName, name)]);
    EssentialNone();
    assert [Event(ToolName, name)] + [] == [Event(ToolName, name)];
    assert open == [open[0]] + [Event(ToolName, name)];
  }

  lemma StartedReads(f: Format, args: Parser, s: string)
    ensures var r, a := Parse(Started(f, args), f.start + s), Parse(args, s);
            SameOutcome(r, a)
  {
    var a := Parse(args, s);
    if f.start == "" {
      assert f.start + s == s;
    } else {
      LiteralParses(f.start, s);
      SeqFollows(Literal(f.start), args, f.start + s);
      SeenWith([], a);
      EssentialNone();
      assert [] + Seen(a) == Seen(a);
    }
  }

  /** At the opener of an optional argument the choice takes that argument and waits for more. */
  lemma {:induction false} ChoiceOpens(f: Format, names: seq<string>, name: string)
    requires AllFree(f, names) && NameFree(f, name) && f.valuePrefix != ""
    ensures var r := Parse(AnyOf(f, names), OpenText(f, name));
            if name in names then r.NeedMore? && Seen(r) == [Event(ArgOpen, ""), Event(ArgName, name)] else r.Fail?
    decreases |names|
  {
    hide ArgParser, Seen, OpenText, NameFree;
    if names != [] {
      var n := |names| - 1;
      var before, last := names[..n], names[n];
      var s := OpenText(f, name);
      ChoiceOpens(f, before, name);
      ChoiceIs(AnyOf(f, before), ArgParser(f, last), s);
      assert names == before + [last];
      if last == name {
        ArgOpens(f, name);
      } else {
        OpenersDiverge(f, last, name, "");
        assert s + "" == s;
        OtherOpenerFails(f, last, s);
      }
    }
  }

  lemma ArgOpens(f: Format, name: string)
    requires f.valuePrefix != ""
    ensures var r := Parse(ArgParser(f, name), OpenText(f, name));
            r.NeedMore? && Seen(r) == [Event(ArgOpen, ""), Event(ArgName, name)]
  {
    hide Parse, Seen;
    var s := OpenText(f, name);
    ArgIsInner(f, name, s);
    OpenOutcome(f, name, s);
    SeenSeq(OpenParser(f, name), ArgBody(f), s);
    assert s[|s|..] == "";
    SeenBody(f, "");
    var open := [Event(ArgOpen, ""), Event(ArgName, name)];
    assert open + [] == open;
  }

  /** Where that argument breaks off, the choice fails. */
  lemma {:induction false} ChoiceBreaks(f: Format, names: seq<string>, name: string, u: string)
    requires AllFree(f, names) && NameFree(f, name) && IsBroken(f, name, u)
    ensures Parse(AnyOf(f, names), u).Fail?
    decreases |names|
  {
    hide ArgParser, OpenText, NameFree;
    if names != [] {
      var n := |names| - 1;
      ChoiceBreaks(f, names[..n], name, u);
      ChoiceIs(AnyOf(f, names[..n]), ArgParser(f, names[n]), u);
      if names[n] == name {
        ArgBreaks(f, name, u);
      } else {
        var open := OpenText(f, name);
        assert u == open + u[|open|..];
        OpenersDiverge(f, names[n], name, u[|open|..]);
        OtherOpenerFails(f, names[n], u);
      }
    }
  }

  lemma ArgBreaks(f: Format, name: string, u: string)
    requires IsBroken(f, name, u)
    ensures Parse(ArgParser(f, name), u).Fail?
  {
    hide Parse, Seen;
    var open := OpenText(f, name);
    var rest := u[|open|..];
    assert u == open + rest;
    PrefixAfter(open, f.valuePrefix, rest);
    PrefixAfter(open, rest, f.valuePrefix);
    ArgIsInner(f, name, u);
    OpenOutcome(f, name, u);
    SeenSeq(OpenParser(f, name), ArgBody(f), u);
    SeenBody(f, rest);
  }

  lemma OptionalOpens(f: Format, names: seq<string>, i: nat)
    requires AllFree(f, names) && i < |names| && f.valuePrefix != "" && !StartsWithSpace(OpenText(f, names[i]))
    ensures var r := Parse(Optional(f, names), OpenText(f, names[i]));
            r.NeedMore? && Seen(r) == [Event(ArgOpen, ""), Event(ArgName, names[i])]
  {
    hide Parse, Seen, AnyOf, OneOptional;
    var s := OpenText(f, names[i]);
    assert s != "";
    ChoiceOpens(f, names, names[i]);
    SkipSpaceKeeps(s);
    SeenOptional(f, names, s);
    OptionalIs(f, names);
    RepeatIs(OneOptional(f, names), s);
  }

  lemma OptionalBreaks(f: Format, names: seq<string>, i: nat, u: string)
    requires AllFree(f, names) && i < |names| && IsBroken(f, names[i], u) && !StartsWithSpace(u)
    ensures Parse(Optional(f, names), u) == Success([], u)
  {
    hide Parse, Seen, AnyOf, OneOptional;
    assert OpenText(f, names[i]) != "";
    ChoiceBreaks(f, names, names[i], u);
    SkipSpaceKeeps(u);
    SeenOptional(f, names, u);
    OptionalIs(f, names);
    RepeatIs(OneOptional(f, names), u);
  }

  /** What is seen of required arguments and what follows them. */
  lemma ArgumentsSeen(f: Format, required: seq<string>, optional: seq<string>, s: string)
    requires f.valueSuffix != "" && f.nameSuffix != "" && PlainOpeners(f, required) && optional != []
        && !StartsWithSpace(s)
    ensures var r := Parse(Arguments(f, required, optional), Texts(f, Blank(required)) + s);
            var o := Parse(Optional(f, optional), s);
            && (r.Fail? <==> o.Fail?) && (r.Success? <==> o.Success?) && (!o.Fail? ==> r.rest == o.rest)
            && (!o.Fail? ==> Seen(r) == S.Body(ArgsOf(Blank(required))) + Seen(o))
  {
    hide Parse, Optional, Required, Essential, Texts, Nodes, S.Body;
    SuffixIsCloseAndSpace(f);
    BlankFits(f, required);
    RequiredParses(f, Blank(required), s);
    SeenSeq(Required(f, required), Optional(f, optional), Texts(f, Blank(required)) + s);
    EssentialItems(f, Blank(required));
  }

  /** The end of the call does not refuse a text that starts with its marker. */
  lemma RestReads(fn: Function, f: Format, open: string, valuePrefix: string)
    requires HasMarker(fn, f) && !StartsWithSpace(open) && open != "" && !Guards(Marker(fn, f, open), open, valuePrefix)
    ensures !Parse(Rest(fn, f), BrokenText(Marker(fn, f, open), open, valuePrefix)).Fail?
  {
    hide Parse, Marker, Guards, BrokenText;
    var marker := Marker(fn, f, open);
    var u := BrokenText(marker, open, valuePrefix);
    BrokenTextBreaks(marker, open, valuePrefix);
    assert u[0] == open[0];
    if f.end == "" {
      CloseIsMarker(fn, f, open);
      CloserReads(fn, u);
    } else {
      EndReads(fn, f, open, valuePrefix);
      SeqFollowsLiteral(f.end, Closer(fn), u);
    }
  }

  lemma CloserReads(fn: Function, u: string)
    requires if fn.close != "" then fn.close <= SkipSpace(u) || SkipSpace(u) == "" else fn.perCallEnd <= u
    ensures !Parse(Closer(fn), u).Fail?
  {
    if fn.close != "" {
      assert !Parse(Literal(fn.close), SkipSpace(u)).Fail?;
      assert !Parse(Node(ToolClose, Literal(fn.close)), SkipSpace(u)).Fail?;
      SpaceThen(Atomic(Node(ToolClose, Literal(fn.close))), u);
    } else if fn.perCallEnd != "" {
      assert !Parse(Literal(fn.perCallEnd), u).Fail?;
      assert !Parse(Peek(Literal(fn.perCallEnd)), u).Fail?;
      assert !Parse(Node(ToolClose, Peek(Literal(fn.perCallEnd))), u).Fail?;
    } else {
      assert !Parse(Node(ToolClose, Space), u).Fail?;
    }
  }

  lemma EndReads(fn: Function, f: Format, open: string, valuePrefix: string)
    requires f.end != "" && !Guards(Marker(fn, f, open), open, valuePrefix)
    ensures var u := BrokenText(Marker(fn, f, open), open, valuePrefix);
            f.end <= u && !Parse(Closer(fn), u[|f.end|..]).Fail?
  {
    hide Parse, Closer, Guards, BrokenText;
    var marker := Marker(fn, f, open);
    var u := BrokenText(marker, open, valuePrefix);
    BrokenTextBreaks(marker, open, valuePrefix);
    if fn.close == "" {
      BehindTwo(f.end, fn.perCallEnd, u);
    } else if f.end <= open && MarkerGap(f, open) < |open| {
      GapIsSkipped(f, open, u);
      BehindTwo(open[..MarkerGap(f, open)], fn.close, u);
    } else {
      BehindEnd(f, open, valuePrefix);
    }
    CloserReads(fn, u[|f.end|..]);
  }

  lemma BehindTwo(a: string, b: string, u: string)
    requires a + b <= u
    ensures a <= u && b <= u[|a|..]
  {
    assert u == a + b + u[|a + b|..];
    assert u[|a|..] == b + u[|a + b|..];
  }

  /** Behind the end marker alone, only whitespace is added. */
  lemma BehindEnd(f: Format, open: string, valuePrefix: string)
    requires f.end != "" && !(f.end <= open && MarkerGap(f, open) < |open|) && !Guards(f.end, open, valuePrefix)
    ensures var u := BrokenText(f.end, open, valuePrefix); f.end <= u && SkipSpace(u[|f.end|..]) == ""
  {
    var full, n := open + valuePrefix, |f.end|;
    var u := BrokenText(f.end, open, valuePrefix);
    if f.end <= open {
      var a, w := open[n..], OtherSpace(full[|open|]);
      assert u == open + [w] && u[n..] == a + [w] && f.end == open[..n] == u[..n];
      SkipSpaceGrows(a, [w]);
      OneSpace(w);
    } else if f.end <= full && f.end != full {
      var w := OtherSpace(full[n]);
      assert u == f.end + [w] && u[n..] == [w];
      OneSpace(w);
    } else {
      assert u[n..] == "";
    }
  }

  lemma OneSpace(w: char)
    requires w == ' ' || w == '\n'
    ensures SkipSpace([w]) == ""
  {
    assert [w][1..] == "";
  }

  // ---------------------------------------------------------------- what the mapper makes of it

  /** A call that is named and has these arguments so far. */
  lemma PartialCall(name: string, es: seq<Event>)
    requires TrimmedTrailing(name) != "" && S.FitsAll(S.Build("", 0, false), es)
    ensures var t := S.BuildRun(S.Build("", 0, false), es);
            Snapshot([Event(ToolOpen, ""), Event(ToolName, name)] + es)
              == EMPTY_MSG.(toolCalls := [ToolCall(TrimmedTrailing(name), S.Opened(t.text), "")])
  {
    hide S.BuildRun, S.FitsAll, Run;
    var t0 := S.Build("", 0, false);
    var open, named := Event(ToolOpen, ""), Event(ToolName, name);
    assert [open, named] + es == [open] + ([named] + es);
    RunAppend(INIT, [open], [named] + es);
    RunOne(INIT, open);
    RunAppend(Step(INIT, open), [named], es);
    RunOne(Step(INIT, open), named);
    assert S.Holds(Step(INIT, open), t0, EMPTY_MSG, "");
    S.NameHolds(Step(INIT, open), t0, EMPTY_MSG, name);
    S.RunHolds(Step(Step(INIT, open), named), t0, EMPTY_MSG, TrimmedTrailing(name), es);
    assert EMPTY_MSG.toolCalls == [];
  }

  /** The snapshot at the opener of an argument shows more than the call has without it. */
  lemma OpenedShowsMore(name: string, args: seq<S.Arg>, argument: string)
    requires TrimmedTrailing(name) != ""
    ensures var call := [Event(ToolOpen, ""), Event(ToolName, name)] + S.Body(args);
            var more := Snapshot(call + [Event(ArgOpen, ""), Event(ArgName, argument)]);
            && |more.toolCalls| == 1
            && |more.toolCalls[0].arguments| > |"{" + S.Joined(args) + "}"|
  {
    hide S.Joined, Run, S.BuildRun, S.FitsAll, JsonText.Dump;
    var t0, es := S.Build("", 0, false), [Event(ArgOpen, ""), Event(ArgName, argument)];
    S.BuildBody(t0, args);
    S.OpenedBody(args);
    var t := S.Build(S.Extended(t0, args), |args|, false);
    OpenerBuilds(t, argument);
    S.BuildAppend(t0, S.Body(args), es);
    PartialCall(name, S.Body(args) + es);
    assert [Event(ToolOpen, ""), Event(ToolName, name)] + (S.Body(args) + es)
        == [Event(ToolOpen, ""), Event(ToolName, name)] + S.Body(args) + es;
  }

  lemma OpenerBuilds(t: S.Build, name: string)
    requires !t.quote
    ensures var es := [Event(ArgOpen, ""), Event(ArgName, name)];
            S.FitsAll(t, es) && |S.BuildRun(t, es).text| >= |S.Opened(t.text)| + 3 && S.BuildRun(t, es).text != ""
  {
    var a, b := Event(ArgOpen, ""), Event(ArgName, name);
    assert [a, b][1..] == [b] && [b][1..] == [];
    var t1 := S.BuildStep(t, a);
    assert S.FitsAll(S.BuildStep(t1, b), []) && S.FitsAll(t1, [b]);
    assert S.BuildRun(t, [a, b]) == S.BuildRun(t1, [b]) == S.BuildRun(S.BuildStep(t1, b), []) == S.BuildStep(t1, b);
    assert |ArgEntry(t.count, name)| >= 3;
  }

  /** Without the argument, open or closed, the call shows no more than its object. */
  lemma WithoutItShowsLess(name: string, items: seq<Item>, closed: bool)
    requires TrimmedTrailing(name) != ""
    ensures var call := [Event(ToolOpen, ""), Event(ToolName, name)] + S.Body(ArgsOf(items));
            var less := Snapshot(call + if closed then [Event(ToolClose, "")] else []);
            && |less.toolCalls| == 1
            && |less.toolCalls[0].arguments| <= |"{" + JoinedArgs(items) + "}"|
  {
    hide S.Joined, Run, S.BuildRun, S.FitsAll, S.Body;
    var args := ArgsOf(items);
    var call := [Event(ToolOpen, ""), Event(ToolName, name)] + S.Body(args);
    if closed {
      CallEventsAre(name, args);
      S.MapperRefinesSerializer(INIT, name, 0, args);
      S.ExactlyOneBrace(args);
    } else {
      S.BuildBody(S.Build("", 0, false), args);
      S.OpenedBody(args);
      PartialCall(name, S.Body(args));
      assert call + [] == call;
    }
  }

  /**
   A marker that does not guard an optional argument: the text breaks off behind the opener,
   where the marker can stand, and what was shown of the argument is taken back.
   */
  lemma UnguardedCallForks(fn: Function, f: Format, name: string, required: seq<string>, optional: seq<string>,
                           peek: Option<string>, i: nat)
    requires TrimmedTrailing(name) != "" && Sane(fn, f, required, optional, peek)
    requires HasMarker(fn, f) && !Hidden(fn, peek) && i < |optional|
    requires !Guards(Marker(fn, f, OpenText(f, optional[i])), OpenText(f, optional[i]), f.valuePrefix)
    ensures var p := FuncParser(fn, name, ArgsParser(f, required, optional), peek);
            var open := OpenText(f, optional[i]);
            var x := CallUpTo(fn, f, name, required, open);
            var y := CallUpTo(fn, f, name, required, BrokenText(Marker(fn, f, open), open, f.valuePrefix));
            && x <= y && !Parse(p, x).Fail? && !Parse(p, y).Fail?
            && !Extends(Snapshot(Parse(p, x).nodes), Snapshot(Parse(p, y).nodes))
  {
    hide Parse, FuncParser, ArgsParser, Marker, Guards, BrokenText;
    hide Optional, OpenText, Snapshot, Sane, Hidden, HasMarker;
    hide CallUpTo, S.Body, S.Joined, Essential;
    var p := FuncParser(fn, name, ArgsParser(f, required, optional), peek);
    var open, n := OpenText(f, optional[i]), optional[i];
    var u := BrokenText(Marker(fn, f, open), open, f.valuePrefix);
    var args := ArgsOf(Blank(required));
    SaneOpener(fn, f, required, optional, peek, i);
    BrokenTextBreaks(Marker(fn, f, open), open, f.valuePrefix);
    var call := [Event(ToolOpen, ""), Event(ToolName, name)] + S.Body(args);
    OpenedReport(fn, f, name, required, optional, peek, i);
    BrokenReport(fn, f, name, required, optional, peek, i);
    UpToGrows(fn, f, name, required, open, u);
    var x, y := CallUpTo(fn, f, name, required, open), CallUpTo(fn, f, name, required, u);
    SnapshotEssential(Parse(p, x).nodes);
    SnapshotEssential(Parse(p, y).nodes);
    OpenedShowsMore(name, args, n);
    var closed := Seen(Parse(p, y)) == call + [Event(ToolClose, "")];
    WithoutItShowsLess(name, Blank(required), closed);
    ShorterIsNoExtension(Snapshot(Parse(p, x).nodes), Snapshot(Parse(p, y).nodes));
  }

  lemma ShorterIsNoExtension(a: Msg, b: Msg)
    requires |a.toolCalls| == 1 == |b.toolCalls| && |a.toolCalls[0].arguments| > |b.toolCalls[0].arguments|
    ensures !Extends(a, b)
  {
  }

  lemma UpToGrows(fn: Function, f: Format, name: string, required: seq<string>, a: string, b: string)
    requires a <= b
    ensures CallUpTo(fn, f, name, required, a) <= CallUpTo(fn, f, name, required, b)
  {
    assert b == a + b[|a|..];
    var c, t := b[|a|..], Texts(f, Blank(required));
    assert OpenCallText(fn, name) + (f.start + (t + (a + c))) == OpenCallText(fn, name) + (f.start + (t + a)) + c;
  }

  lemma SaneOpener(fn: Function, f: Format, required: seq<string>, optional: seq<string>, peek: Option<string>, i: nat)
    requires Sane(fn, f, required, optional, peek) && i < |optional|
    ensures !StartsWithSpace(OpenText(f, optional[i])) && OpenText(f, optional[i]) != ""
    ensures AllFree(f, optional) && f.valueSuffix != "" && f.nameSuffix != "" && PlainOpeners(f, required)
  {
    assert NameFree(f, optional[i]);
  }

  /** The text behind the name starts as it should. */
  lemma UpToStarts(fn: Function, f: Format, required: seq<string>, optional: seq<string>, peek: Option<string>,
                   s: string)
    requires Sane(fn, f, required, optional, peek) && !StartsWithSpace(s)
    ensures !StartsWithSpace(f.start + (Texts(f, Blank(required)) + s))
    ensures Looks(fn, peek, f.start + (Texts(f, Blank(required)) + s))
  {
    hide Texts;
    BlankFits(f, required);
    ItemsNotSpace(f, Blank(required), s);
    var t := Texts(f, Blank(required));
    LooksLonger(fn, peek, f.start + t, s);
    assert f.start + t + s == f.start + (t + s);
    if f.start == "" { assert f.start + (t + s) == t + s; }
  }

  lemma RowSeen(fn: Function, f: Format, name: string, required: seq<string>, optional: seq<string>,
                peek: Option<string>, s: string)
    requires Sane(fn, f, required, optional, peek) && !Hidden(fn, peek) && optional != [] && !StartsWithSpace(s)
    ensures var p := FuncParser(fn, name, ArgsParser(f, required, optional), peek);
            var r, o := Parse(p, CallUpTo(fn, f, name, required, s)), Parse(Optional(f, optional), s);
            var call := [Event(ToolOpen, ""), Event(ToolName, name)] + S.Body(ArgsOf(Blank(required)));
            && (o.NeedMore? ==> r.NeedMore? && Seen(r) == call + Seen(o))
            && (o.Success? ==> var q := Parse(Rest(fn, f), o.rest);
                  (r.Fail? <==> q.Fail?) && (!q.Fail? ==> Seen(r) == call + Seen(o) + Seen(q)))
  {
    hide Parse, Seen, Head, Arguments, Started, Rest, Optional, Texts, S.Body, Same, Looks, OpenCallText, Sane;
    var t := Texts(f, Blank(required)) + s;
    var args, rest := Arguments(f, required, optional), Rest(fn, f);
    UpToStarts(fn, f, required, optional, peek, s);
    SaneOpener(fn, f, required, optional, peek, 0);
    HeadReads(fn, name, peek, f.start + t);
    StartedReads(f, args, t);
    ArgumentsSeen(f, required, optional, s);
    var all := CallUpTo(fn, f, name, required, s);
    SeenSeq(Head(fn, name, peek), Seq(Started(f, args), rest), all);
    SeenSeq(Started(f, args), rest, f.start + t);
    WholeInRow(fn, f, name, required, optional, peek);
    SameAt(Whole(fn, f, name, required, optional, peek), InRow(fn, f, name, required, optional, peek), all);
    FuncIs(fn, f, name, required, optional, peek);
    SeenRule(Whole(fn, f, name, required, optional, peek), all);
    var o := Parse(Optional(f, optional), s);
    if o.Success? {
      RegroupSeen([Event(ToolOpen, ""), Event(ToolName, name)], S.Body(ArgsOf(Blank(required))), Seen(o),
        Seen(Parse(rest, o.rest)));
    } else if o.NeedMore? {
      RegroupSeen([Event(ToolOpen, ""), Event(ToolName, name)], S.Body(ArgsOf(Blank(required))), Seen(o), []);
    }
  }

  lemma RegroupSeen(a: seq<Event>, b: seq<Event>, c: seq<Event>, d: seq<Event>)
    ensures a + (b + c) == a + b + c && a + (b + c + d) == a + b + c + d
  {
  }

  lemma SameAt(p: Parser, q: Parser, s: string)
    requires Same(p, q)
    ensures Parse(p, s) == Parse(q, s)
  {
  }

  lemma OpenedReport(fn: Function, f: Format, name: string, required: seq<string>, optional: seq<string>,
                     peek: Option<string>, i: nat)
    requires Sane(fn, f, required, optional, peek) && !Hidden(fn, peek) && i < |optional| && f.valuePrefix != ""
    ensures var p := FuncParser(fn, name, ArgsParser(f, required, optional), peek);
            var r := Parse(p, CallUpTo(fn, f, name, required, OpenText(f, optional[i])));
            r.NeedMore? && Seen(r) == [Event(ToolOpen, ""), Event(ToolName, name)] + S.Body(ArgsOf(Blank(required)))
                                      + [Event(ArgOpen, ""), Event(ArgName, optional[i])]
  {
    hide Parse, Seen, FuncParser, ArgsParser, CallUpTo, Sane, Hidden, OpenText, Optional, S.Body;
    SaneOpener(fn, f, required, optional, peek, i);
    OptionalOpens(f, optional, i);
    RowSeen(fn, f, name, required, optional, peek, OpenText(f, optional[i]));
  }

  lemma BrokenReport(fn: Function, f: Format, name: string, required: seq<string>, optional: seq<string>,
                     peek: Option<string>, i: nat)
    requires Sane(fn, f, required, optional, peek) && !Hidden(fn, peek) && i < |optional| && HasMarker(fn, f)
    requires !Guards(Marker(fn, f, OpenText(f, optional[i])), OpenText(f, optional[i]), f.valuePrefix)
    ensures var p := FuncParser(fn, name, ArgsParser(f, required, optional), peek);
            var open := OpenText(f, optional[i]);
            var r := Parse(p, CallUpTo(fn, f, name, required, BrokenText(Marker(fn, f, open), open, f.valuePrefix)));
            var call := [Event(ToolOpen, ""), Event(ToolName, name)] + S.Body(ArgsOf(Blank(required)));
            !r.Fail? && (Seen(r) == call + [] || Seen(r) == call + [Event(ToolClose, "")])
  {
    hide Parse, Seen, FuncParser, ArgsParser, CallUpTo, Sane;
    hide Hidden, OpenText, Optional, S.Body, Marker, Guards, BrokenText;
    hide Rest, HasMarker;
    var open := OpenText(f, optional[i]);
    var u := BrokenText(Marker(fn, f, open), open, f.valuePrefix);
    SaneOpener(fn, f, required, optional, peek, i);
    BrokenTextBreaks(Marker(fn, f, open), open, f.valuePrefix);
    assert u[0] == open[0];
    OptionalBreaks(f, optional, i, u);
    RowSeen(fn, f, name, required, optional, peek, u);
    RestReads(fn, f, open, f.valuePrefix);
    RestSeen(fn, f, u);
    NothingReported();
    var call := [Event(ToolOpen, ""), Event(ToolName, name)] + S.Body(ArgsOf(Blank(required)));
    assert call + [] == call;
  }

  lemma RestSeen(fn: Function, f: Format, s: string)
    ensures var r := Parse(Rest(fn, f), s); Seen(r) == [] || Seen(r) == [Event(ToolClose, "")]
  {
    hide Closer;
    SeenNothing();
    EssentialNone();
    if f.end == "" {
      CallShapes.CloserOutcome(fn, s);
    } else {
      SeenSeq(Literal(f.end), Closer(fn), s);
      if f.end <= s {
        CallShapes.CloserOutcome(fn, s[|f.end|..]);
        var c := Seen(Parse(Closer(fn), s[|f.end|..]));
        assert [] + c == c;
      }
    }
  }

  // ---------------------------------------------------------------- exactly

  /** The calls of a sane format stream if and only if the format can stream. */
  lemma StreamsExactly(fn: Function, f: Format, name: string, required: seq<string>, optional: seq<string>,
                       peek: Option<string>)
    requires TrimmedTrailing(name) != "" && Sane(fn, f, required, optional, peek)
    ensures Streams(FuncParser(fn, name, ArgsParser(f, required, optional), peek)) <==> CanStream(fn, f, optional, peek)
  {
    hide Streams, FuncParser, ArgsParser, Parse, Snapshot, Extends, Guards, Marker, HasMarker, Hidden, BrokenText;
    var p := FuncParser(fn, name, ArgsParser(f, required, optional), peek);
    if CanStream(fn, f, optional, peek) {
      CallStreams(fn, f, name, required, optional, peek);
    } else if !HasMarker(fn, f) {
      UnmarkedDoesNotStream(fn, f, name, required, optional, peek);
    } else {
      var i :| 0 <= i < |optional| && !Guards(Marker(fn, f, OpenText(f, optional[i])), OpenText(f, optional[i]),
         f.valuePrefix);
      UnguardedCallForks(fn, f, name, required, optional, peek, i);
      var open := OpenText(f, optional[i]);
      var x := CallUpTo(fn, f, name, required, open);
      var y := CallUpTo(fn, f, name, required, BrokenText(Marker(fn, f, open), open, f.valuePrefix));
      if Streams(p) { StreamsExtend(p, x, y); }
    }
  }

  lemma UnmarkedDoesNotStream(fn: Function, f: Format, name: string, required: seq<string>, optional: seq<string>,
                              peek: Option<string>)
    requires TrimmedTrailing(name) != "" && Sane(fn, f, required, optional, peek) && optional != [] && !HasMarker(fn, f)
    ensures !Streams(FuncParser(fn, name, ArgsParser(f, required, optional), peek))
  {
    hide Streams, FuncParser, ArgsParser, Parse, Snapshot, Extends, UnmarkedText, Texts;
    var p := FuncParser(fn, name, ArgsParser(f, required, optional), peek);
    var first, it := Blank(required), Item(optional[0], "", "");
    SuffixIsCloseAndSpace(f);
    BlankFits(f, required);
    assert [] + [it] == [it];
    assert NoTextsOf(f) by { NoTexts(f); }
    assert f.start + (Texts(f, first) + (Texts(f, []) + f.end)) == f.start + Texts(f, first);
    UnmarkedCallForks(fn, f, name, required, optional, peek, "", first, [], it);
    var x, y := UnmarkedText(fn, f, name, "", first, []), UnmarkedText(fn, f, name, "", first, [] + [it]);
    DiffRebuildsExactly(Snapshot(Parse(p, x).nodes), Snapshot(Parse(p, y).nodes));
    if Streams(p) { StreamsExtend(p, x, y); }
  }

  predicate NoTextsOf(f: Format) { Texts(f, []) == "" }

  /** The same for the parser that is built for a tool. */
  lemma ToolStreamsExactly(fn: Function, f: Format, tool: string, properties: seq<string>, required: set<string>)
    requires TrimmedTrailing(tool) != ""
    requires Sane(fn, f, NamesOf(tool, properties, required), OptionalNames(tool, properties, required),
                  PeekFor(f, required, properties))
    ensures Streams(CallParser(fn, f, tool, properties, required))
       <==> CanStream(fn, f, OptionalNames(tool, properties, required), PeekFor(f, required, properties))
  {
    hide Streams, CallParser, Sane, CanStream, PeekFor, NamesOf;
    CallParserIs(fn, f, tool, properties, required);
    StreamsExactly(fn, f, tool, NamesOf(tool, properties, required), OptionalNames(tool, properties, required),
                   PeekFor(f, required, properties));
  }

  // ---------------------------------------------------------------- two concrete formats

  /** A function without an end marker: an optional argument after a call that looked complete. */
  lemma UnmarkedExample()
    ensures var f := Format("", "", "<arg=", ">", "", "</arg>");
            var p := FuncParser(Function("<call=", ">", "", ""), "f", ArgsParser(f, [], ["a"]), None);
            var x, y := "<call=f>", "<call=f>" + ("<arg=a>" + ("" + ("1" + ("</arg>" + ""))));
            && x <= y && Parse(p, x).Success? && Parse(p, y).Success?
            && Diffs(Snapshot(Parse(p, x).nodes), Snapshot(Parse(p, y).nodes)) == Err(NotAPrefix)
  {
    hide Parse, Diffs, Snapshot;
    var f := Format("", "", "<arg=", ">", "", "</arg>");
    var fn, it := Function("<call=", ">", "", ""), Item("a", "1", "");
    ExampleFits(f, it);
    NoTexts(f);
    assert [] + [it] == [it] && "f" == TrimmedTrailing("f");
    UnmarkedCallForks(fn, f, "f", [], ["a"], None, "", [], [], it);
    ExampleTexts(f, it);
  }

  lemma ExampleFits(f: Format, it: Item)
    requires f == Format("", "", "<arg=", ">", "", "</arg>") && it == Item("a", "1", "")
    ensures Fits(f, [], ["a"], [], [it], "")
  {
    assert ValueClose(f) == "</arg>";
    assert Clean("1", "</arg>") by { assert ("1" + "</arg>")[0..][0] != "</arg>"[0]; }
    assert OpenText(f, "a") == "<arg=a>";
    assert Names([]) == [];
    assert Printable(f, it);
    assert NameFree(f, "a");
  }

  lemma ExampleTexts(f: Format, it: Item)
    requires f == Format("", "", "<arg=", ">", "", "</arg>") && it == Item("a", "1", "")
    ensures var fn := Function("<call=", ">", "", "");
            && UnmarkedText(fn, f, "f", "", [], []) == "<call=f>"
            && UnmarkedText(fn, f, "f", "", [], [it]) == "<call=f>" + ("<arg=a>" + ("" + ("1" + ("</arg>" + ""))))
  {
    assert ValueClose(f) == "</arg>";
    assert [it][..0] == [];
    assert Texts(f, [it]) == Texts(f, []) + ItemText(f, it);
    assert OpenText(f, "a") == "<arg=a>";
    assert ItemText(f, it) == "<arg=a>" + ("" + ("1" + ("</arg>" + "")));
    assert OpenCallText(Function("<call=", ">", "", ""), "f") == "<call=f>";
  }

  /** A close marker that starts every opener: the text breaks off behind an opener and the call ends there. */
  lemma UnguardedExample()
    ensures var f := Format("", "", "<", ">", "=", "</>");
            var p := FuncParser(Function("[", "]", "<", ""), "f", ArgsParser(f, [], ["a"]), None);
            var x, y := "[f]<a>", "[f]<a> ";
            && x <= y && !Parse(p, x).Fail? && !Parse(p, y).Fail?
            && !Extends(Snapshot(Parse(p, x).nodes), Snapshot(Parse(p, y).nodes))
  {
    hide Parse, Extends, Snapshot;
    var f := Format("", "", "<", ">", "=", "</>");
    var fn := Function("[", "]", "<", "");
    var open := OpenText(f, "a");
    assert open == "<a>" && ["a"][0] == "a";
    assert NameFree(f, "a") && "f" == TrimmedTrailing("f");
    assert Blank([]) == [];
    NoTexts(f);
    CloseIsMarker(fn, f, open);
    assert "<" <= open && (open + "=")[3] == '=';
    assert !Guards("<", open, "=");
    assert BrokenText("<", open, "=") == "<a> ";
    UnguardedCallForks(fn, f, "f", [], ["a"], None, 0);
    assert OpenCallText(fn, "f") == "[f]";
    assert CallUpTo(fn, f, "f", [], open) == "[f]<a>" && CallUpTo(fn, f, "f", [], "<a> ") == "[f]<a> ";
  }
}
