/**
 Streaming the whole output of a model that calls tagged tools: content, the markers around
 the calls and any number of calls, as `build_tool_parser_tag_tagged` of
 common/chat-auto-parser-generator.cpp parses them.
 */
module StreamedOutput {
  import opened Text
  import opened MessageDiff
  import opened ToolCallMapper
  import opened Streaming
  import opened Peg
  import opened TaggedArgs
  import opened TaggedCalls
  import opened GrowingParses
  import opened GrowingArguments
  import opened GrowingCalls
  import opened CallShapes
  import opened StreamedCalls

  // ---------------------------------------------------------------- the grammar

  datatype Tool = Tool(name: string, properties: seq<string>, required: set<string>)

  /** The markers around all calls and in front of each; the marker behind each belongs to its function. */
  datatype Wrapping = Wrapping(sectionStart: string, sectionEnd: string, callStart: string)

  function OneTool(fn: Function, f: Format, t: Tool): Parser { CallParser(fn, f, t.name, t.properties, t.required) }

  function ToolChoice(fn: Function, f: Format, tools: seq<Tool>): Parser {
    if tools == [] then Never
    else Choice(ToolChoice(fn, f, tools[..|tools| - 1]), OneTool(fn, f, tools[|tools| - 1]))
  }

  const Separator := ", "

  function WrappedCall(w: Wrapping, fn: Function, choice: Parser): Parser {
    Seq(Literal(w.callStart), Seq(Space, Seq(choice, Seq(Space, Literal(fn.perCallEnd)))))
  }

  /** One call, or with parallel calls any number of them. */
  function Repeated(parallel: bool, separator: Parser, call: Parser): Parser {
    if parallel then Repeat(Seq(separator, call)) else Eps
  }

  function ToolCalls(w: Wrapping, fn: Function, choice: Parser, parallel: bool): Parser {
    if w.callStart != "" then
      var call := WrappedCall(w, fn, choice);
      var calls := Node(OtherTag, Seq(call, Seq(Repeated(parallel, Space, call), Space)));
      if w.sectionStart == "" then calls else
      var end := if w.sectionEnd == "" then End else Seq(Literal(w.sectionEnd), Space);
      Node(OtherTag, Seq(Literal(w.sectionStart), Seq(Space, Seq(calls, Seq(Space, end)))))
    else
      Node(OtherTag, Seq(Literal(w.sectionStart), Seq(Space, Seq(choice,
        Seq(Repeated(parallel, Literal(Separator), choice), Seq(Space, Literal(w.sectionEnd)))))))
  }

  function Trigger(w: Wrapping): string { if w.sectionStart != "" then w.sectionStart else w.callStart }

  /** Content up to the first marker, the calls, and the end of the text. */
  function OutputParser(w: Wrapping, fn: Function, f: Format, tools: seq<Tool>, parallel: bool,
                        required: bool): Parser {
    var calls := ToolCalls(w, fn, ToolChoice(fn, f, tools), parallel);
    var content := if Trigger(w) == "" then Eps else Until(Trigger(w));
    Seq(Maybe(Node(Content, content)), Seq(if required then calls else Maybe(calls), End))
  }

  // ---------------------------------------------------------------- parsers that may end a text

  lemma FollowsMeans(p: Parser, x: string, y: string)
    requires Follows(p) && x <= y && !Parse(p, y).Fail?
    ensures !Parse(p, x).Fail? && Ahead(Seen(Parse(p, x)), Seen(Parse(p, y)))
  {
  }

  lemma FollowsEnd()
    ensures Follows(End)
  {
    EssentialNone();
    forall x: string, y: string | x <= y && !Parse(End, y).Fail?
      ensures !Parse(End, x).Fail? && Ahead(Seen(Parse(End, x)), Seen(Parse(End, y)))
    {
      assert x == "" && y == "";
    }
  }

  lemma FollowsSeq(p: Parser, q: Parser)
    requires Firm(p) && Follows(q)
    ensures Follows(Seq(p, q))
  {
    hide Parse, Seen, Ahead;
    forall x: string, y: string | x <= y && !Parse(Seq(p, q), y).Fail?
      ensures !Parse(Seq(p, q), x).Fail? && Ahead(Seen(Parse(Seq(p, q), x)), Seen(Parse(Seq(p, q), y)))
    {
      var more := y[|x|..];
      assert y == x + more;
      assert SettlesAt(p, x, more);
      SeenSeq(p, q, x);
      SeenSeq(p, q, y);
      var px, py := Parse(p, x), Parse(p, y);
      if px.Success? {
        assert px.rest <= py.rest;
        FollowsMeans(q, px.rest, py.rest);
        AheadAfter(Seen(px), Seen(Parse(q, px.rest)), Seen(Parse(q, py.rest)));
      } else if py.Success? {
        AheadMore(Seen(px), Seen(py), Seen(Parse(q, py.rest)));
      }
    }
  }

  /** Two parsers that fail, succeed and report alike on every text. */
  ghost predicate Alike(p: Parser, q: Parser) {
    forall s: string :: AlikeAt(p, q, s)
  }

  predicate AlikeAt(p: Parser, q: Parser, s: string) {
    var a, b := Parse(p, s), Parse(q, s);
    SameOutcome(a, b)
  }

  lemma AlikeFollows(p: Parser, q: Parser)
    requires Alike(p, q) && Follows(q)
    ensures Follows(p)
  {
    hide Parse, Seen, Ahead;
    forall x: string, y: string | x <= y && !Parse(p, y).Fail?
      ensures !Parse(p, x).Fail? && Ahead(Seen(Parse(p, x)), Seen(Parse(p, y)))
    {
      assert AlikeAt(p, q, x) && AlikeAt(p, q, y);
      FollowsMeans(q, x, y);
    }
  }

  lemma AlikeSame(p: Parser, q: Parser)
    requires Same(p, q)
    ensures Alike(p, q)
  {
    forall s: string ensures AlikeAt(p, q, s) {
      assert Parse(p, s) == Parse(q, s);
    }
  }

  lemma AlikeBoth(p: Parser, q: Parser, r: Parser)
    requires Alike(p, q) && Alike(q, r)
    ensures Alike(p, r)
  {
    hide Parse, Seen;
    forall s: string ensures AlikeAt(p, r, s) {
      assert AlikeAt(p, q, s) && AlikeAt(q, r, s);
    }
  }

  lemma AlikeRule(p: Parser)
    ensures Alike(Node(OtherTag, p), p)
  {
    hide Parse, Seen;
    forall s: string ensures AlikeAt(Node(OtherTag, p), p, s) {
      SeenRule(p, s);
    }
  }

  lemma AlikeSeq(p: Parser, p': Parser, q: Parser)
    requires Alike(p, p')
    ensures Alike(Seq(p, q), Seq(p', q)) && Alike(Seq(q, p), Seq(q, p'))
  {
    hide Parse, Seen;
    forall s: string ensures AlikeAt(Seq(p, q), Seq(p', q), s) && AlikeAt(Seq(q, p), Seq(q, p'), s) {
      assert AlikeAt(p, p', s);
      SeenSeq(p, q, s);
      SeenSeq(p', q, s);
      SeenSeq(q, p, s);
      SeenSeq(q, p', s);
      if Parse(q, s).Success? { assert AlikeAt(p, p', Parse(q, s).rest); }
    }
  }

  /** What ends a text reports nothing on an empty text, and is not refused there. */
  ghost predicate EndsQuietly(q: Parser) {
    !Parse(q, "").Fail? && Seen(Parse(q, "")) == []
  }

  /** Repeated calls and the end of the text, which refuses what breaks off in a call. */
  lemma FollowsRepeat(child: Parser, breaks: string -> bool, q: Parser)
    requires forall a: string, b: string :: TurnsAt(child, a, b, breaks)
    requires forall s: string :: AdvancesAt(child, s)
    requires Follows(q) && EndsQuietly(q) && forall s: string :: breaks(s) ==> Parse(q, s).Fail?
    ensures Follows(Seq(Repeat(child), q))
  {
    hide Parse, Seen, Ahead;
    var p := Repeat(child);
    forall x: string, y: string | x <= y && !Parse(Seq(p, q), y).Fail?
      ensures !Parse(Seq(p, q), x).Fail? && Ahead(Seen(Parse(Seq(p, q), x)), Seen(Parse(Seq(p, q), y)))
    {
      var more := y[|x|..];
      assert y == x + more;
      RepeatGrows(child, breaks, x, more);
      SeenSeq(p, q, x);
      SeenSeq(p, q, y);
      var px, py := Parse(p, x), Parse(p, y);
      if px.NeedMore? {
        if py.Success? { AheadMore(Seen(px), Seen(py), Seen(Parse(q, py.rest))); }
      } else if px.rest != "" {
        FollowsMeans(q, px.rest, py.rest);
        AheadAfter(Seen(px), Seen(Parse(q, px.rest)), Seen(Parse(q, py.rest)));
      } else {
        assert Seen(px) + [] == Seen(px);
        PrefixIsAhead(Seen(px), Seen(py));
        if py.Success? { AheadMore(Seen(px), Seen(py), Seen(Parse(q, py.rest))); }
      }
    }
  }

  /** A text that may hold calls follows as one that must. */
  lemma FollowsMaybe(calls: Parser)
    requires Follows(Seq(calls, End))
    ensures Follows(Seq(Maybe(calls), End))
  {
    var p, q := Seq(Maybe(calls), End), Seq(calls, End);
    forall x: string, y: string | x <= y && !Parse(p, y).Fail?
      ensures !Parse(p, x).Fail? && Ahead(Seen(Parse(p, x)), Seen(Parse(p, y)))
    {
      MaybeCalls(calls, x);
      MaybeCalls(calls, y);
      hide Parse, Seen, Ahead;
      if x == "" {
        AheadNothing(Seen(Parse(p, y)));
      } else {
        FollowsMeans(q, x, y);
      }
    }
  }

  lemma MaybeCalls(calls: Parser, s: string)
    ensures s == "" ==> Parse(Seq(Maybe(calls), End), s).Success? && Seen(Parse(Seq(Maybe(calls), End), s)) == []
    ensures s != "" ==> AlikeAt(Seq(Maybe(calls), End), Seq(calls, End), s)
  {
    EssentialNone();
    MaybeIs(calls, s);
    EndIs();
    hide Parse, Seen;
    SeenSeq(Maybe(calls), End, s);
    SeenSeq(calls, End, s);
    NothingReported();
    ParseShorter(calls, s);
    SeenNothing();
  }

  lemma MaybeIs(p: Parser, s: string)
    ensures var r := Parse(p, s);
            Parse(Maybe(p), s) == if s == "" then Success([], s)
                                  else if r.NeedMore? || (r.Success? && |r.rest| < |s|) then r else Success([], s)
  {
  }

  lemma EndIs()
    ensures forall s: string :: Parse(End, s) == if s == "" then Success([], s) else Fail
  {
  }

  // ---------------------------------------------------------------- the choice of a tool

  /** The names of several tools can be told apart where they end. */
  predicate Distinct(fn: Function, tools: seq<Tool>) {
    |tools| <= 1 ||
    (fn.nameSuffix != ""
     && (forall i :: 0 <= i < |tools| ==> fn.nameSuffix[0] !in tools[i].name)
     && forall i, j :: 0 <= i < j < |tools| ==> tools[i].name != tools[j].name)
  }

  /** The calls of a tool stream. */
  predicate CallStreaming(fn: Function, f: Format, t: Tool) {
    var optional, peek := OptionalNames(t.name, t.properties, t.required), PeekFor(f, t.required, t.properties);
    && TrimmedTrailing(t.name) != "" && AllFree(f, optional) && CanStream(fn, f, optional, peek)
    && (Hidden(fn, peek) || optional == [] || PlainMarker(fn, f))
  }

  lemma FirmTool(fn: Function, f: Format, t: Tool)
    requires CallStreaming(fn, f, t)
    ensures Firm(OneTool(fn, f, t))
  {
    hide Firm, CanStream, AllFree, Hidden, PlainMarker, NamesOf, CallParser;
    CallParserIs(fn, f, t.name, t.properties, t.required);
    FirmCall(fn, f, t.name, NamesOf(t.name, t.properties, t.required), OptionalNames(t.name, t.properties, t.required),
             PeekFor(f, t.required, t.properties));
  }

  lemma OpenCallStarts(fn: Function, name: string, s: string)
    ensures Parse(OpenCall(fn, name), s).Success? ==> OpenCallText(fn, name) <= s
    ensures Diverges(OpenCallText(fn, name), s) ==> Parse(OpenCall(fn, name), s).Fail?
  {
    var nameParser := Atomic(Node(ToolName, Literal(name)));
    var inner := Seq(nameParser, Literal(fn.nameSuffix));
    var all := Seq(Literal(fn.namePrefix), inner);
    if fn.namePrefix <= s {
      var s1 := s[|fn.namePrefix|..];
      assert s == fn.namePrefix + s1;
      NameStarts(fn, name, s1);
      PrefixAfter(fn.namePrefix, name + fn.nameSuffix, s1);
      PrefixAfter(fn.namePrefix, s1, name + fn.nameSuffix);
      assert Parse(all, s) == WithNodes([], Parse(inner, s1));
    } else {
      assert s <= fn.namePrefix ==> s <= OpenCallText(fn, name);
      assert !Parse(all, s).Success? && (Diverges(OpenCallText(fn, name), s) ==> Parse(all, s).Fail?);
    }
    assert Parse(Node(ToolOpen, all), s).Success? == Parse(all, s).Success?;
    assert Parse(Node(ToolOpen, all), s).Fail? == Parse(all, s).Fail?;
  }

  lemma NameStarts(fn: Function, name: string, s: string)
    ensures var inner := Seq(Atomic(Node(ToolName, Literal(name))), Literal(fn.nameSuffix));
            && (Parse(inner, s).Success? ==> name + fn.nameSuffix <= s)
            && (Diverges(name + fn.nameSuffix, s) ==> Parse(inner, s).Fail?)
  {
    var nameParser := Atomic(Node(ToolName, Literal(name)));
    var inner := Seq(nameParser, Literal(fn.nameSuffix));
    if name <= s {
      var s1 := s[|name|..];
      assert s == name + s1;
      NodeParses(ToolName, Literal(name), name, [], s1);
      PrefixAfter(name, fn.nameSuffix, s1);
      PrefixAfter(name, s1, fn.nameSuffix);
      assert Parse(inner, s) == WithNodes([Event(ToolName, name)] + [], Parse(Literal(fn.nameSuffix), s1));
    } else {
      assert s <= name ==> s <= name + fn.nameSuffix;
      assert !Parse(Literal(name), s).Success?;
      assert !Parse(Node(ToolName, Literal(name)), s).Success?;
      assert !(s <= name) ==> Parse(Node(ToolName, Literal(name)), s).Fail?;
      assert !Parse(nameParser, s).Success? && (!(s <= name) ==> Parse(nameParser, s).Fail?);
      assert Parse(inner, s) == Parse(nameParser, s);
    }
  }

  /** With a name suffix, nothing of a call is reported before its opener was read, and another opener is refused. */
  lemma ToolStarts(fn: Function, f: Format, t: Tool, s: string)
    requires fn.nameSuffix != ""
    ensures Seen(Parse(OneTool(fn, f, t), s)) != [] ==> OpenCallText(fn, t.name) <= s
    ensures Diverges(OpenCallText(fn, t.name), s) ==> Parse(OneTool(fn, f, t), s).Fail?
  {
    hide Parse, Seen, OpenCall, ToolArguments, PeekFor;
    var args, peek := ToolArguments(f, t.name, t.properties, t.required), PeekFor(f, t.required, t.properties);
    var body := Seq(OpenCall(fn, t.name), Seq(Space, args));
    assert CallBody(fn, t.name, args, peek) == body;
    CloseIs(fn, body);
    SeenRule(Seq(body, Closer(fn)), s);
    SeenSeq(body, Closer(fn), s);
    SeenSeq(OpenCall(fn, t.name), Seq(Space, args), s);
    OpenCallStarts(fn, t.name, s);
    OpenCallOutcome(fn, t.name, s);
    SeenNothing();
  }

  lemma CallOpenersDiverge(fn: Function, a: string, b: string, rest: string)
    requires a != b && fn.nameSuffix != "" && fn.nameSuffix[0] !in a && fn.nameSuffix[0] !in b
    ensures Diverges(OpenCallText(fn, a), OpenCallText(fn, b) + rest)
  {
    OpenersDiverge(Format("", "", fn.namePrefix, fn.nameSuffix, "", ""), a, b, rest);
  }

  /** Something of one of these tools was reported, so its opener was read. */
  ghost predicate Begun(fn: Function, tools: seq<Tool>, s: string) {
    exists i :: 0 <= i < |tools| && OpenCallText(fn, tools[i].name) <= s
  }

  ghost predicate BegunIfSeen(fn: Function, f: Format, tools: seq<Tool>, s: string) {
    Seen(Parse(ToolChoice(fn, f, tools), s)) != [] ==> Begun(fn, tools, s)
  }

  ghost predicate AlwaysBegun(fn: Function, f: Format, tools: seq<Tool>) {
    forall s: string :: BegunIfSeen(fn, f, tools, s)
  }

  lemma {:induction false} FirmToolChoice(fn: Function, f: Format, tools: seq<Tool>)
    requires Distinct(fn, tools) && forall i :: 0 <= i < |tools| ==> CallStreaming(fn, f, tools[i])
    ensures Firm(ToolChoice(fn, f, tools))
    ensures fn.nameSuffix != "" ==> AlwaysBegun(fn, f, tools)
    decreases |tools|
  {
    hide OneTool, CallStreaming, Seen;
    if tools == [] {
      FirmNever();
    } else {
      var n := |tools| - 1;
      var before, last := tools[..n], tools[n];
      FirmToolChoice(fn, f, before);
      FirmTool(fn, f, last);
      FirmChoice(fn, f, tools);
      if fn.nameSuffix != "" {
        forall s: string ensures BegunIfSeen(fn, f, tools, s) {
          assert BegunIfSeen(fn, f, before, s);
          ChoiceIs(ToolChoice(fn, f, before), OneTool(fn, f, last), s);
          ToolStarts(fn, f, last, s);
          if Begun(fn, before, s) {
            var i :| 0 <= i < |before| && OpenCallText(fn, before[i].name) <= s;
            assert tools[i] == before[i];
          }
        }
      }
    }
  }

  lemma FirmNever()
    ensures Firm(Never) && forall s: string :: Seen(Parse(Never, s)) == []
  {
    forall x: string, more: string ensures SettlesAt(Never, x, more) {}
  }

  lemma FirmChoice(fn: Function, f: Format, tools: seq<Tool>)
    requires tools != [] && Distinct(fn, tools)
    requires Firm(ToolChoice(fn, f, tools[..|tools| - 1])) && Firm(OneTool(fn, f, tools[|tools| - 1]))
    requires fn.nameSuffix != "" ==> AlwaysBegun(fn, f, tools[..|tools| - 1])
    ensures Firm(ToolChoice(fn, f, tools))
  {
    hide OneTool, Seen, Ahead, Distinct;
    var n := |tools| - 1;
    var p, q := ToolChoice(fn, f, tools[..n]), OneTool(fn, f, tools[n]);
    forall x: string, more: string ensures SettlesAt(ToolChoice(fn, f, tools), x, more) {
      var y := x + more;
      ChoiceIs(p, q, x);
      ChoiceIs(p, q, y);
      assert SettlesAt(p, x, more) && SettlesAt(q, x, more);
      assert fn.nameSuffix != "" ==> BegunIfSeen(fn, f, tools[..n], x);
      if n == 0 { NeverFails(x); }
      OthersFail(fn, f, tools, x, more);
      AheadNothing(Seen(Parse(ToolChoice(fn, f, tools), y)));
    }
  }

  lemma NeverFails(s: string)
    ensures Parse(Never, s).Fail?
  {
  }

  /** When a call that was begun fails in the end, so does the tool that is tried next. */
  lemma OthersFail(fn: Function, f: Format, tools: seq<Tool>, x: string, more: string)
    requires tools != [] && Distinct(fn, tools)
    requires fn.nameSuffix != "" ==> BegunIfSeen(fn, f, tools[..|tools| - 1], x)
    ensures |tools| > 1 && Seen(Parse(ToolChoice(fn, f, tools[..|tools| - 1]), x)) != [] ==>
              Parse(OneTool(fn, f, tools[|tools| - 1]), x + more).Fail?
  {
    hide Parse, Seen, OpenCallText, OneTool, ToolChoice;
    var n := |tools| - 1;
    if n > 0 && Seen(Parse(ToolChoice(fn, f, tools[..n]), x)) != [] {
      var i :| 0 <= i < n && OpenCallText(fn, tools[..n][i].name) <= x;
      var open := OpenCallText(fn, tools[i].name);
      assert x + more == open + (x[|open|..] + more);
      CallOpenersDiverge(fn, tools[n].name, tools[i].name, x[|open|..] + more);
      ToolStarts(fn, f, tools[n], x + more);
    }
  }

  // ---------------------------------------------------------------- repeated calls

  /** A repeated call behind its separator, whose own marker was read before anything is reported. */
  lemma FirmTurns(child: Parser, breaks: string -> bool)
    requires Firm(child)
    requires forall x: string, more: string :: Seen(Parse(child, x)) != [] ==> breaks(x + more)
    ensures forall a: string, b: string :: TurnsAt(child, a, b, breaks)
  {
    hide Parse, Seen, Ahead;
    forall a: string, b: string ensures TurnsAt(child, a, b, breaks) {
      assert SettlesAt(child, a, b);
    }
  }

  /** What a literal in front reports and takes. */
  lemma LiteralFirst(l: string, q: Parser, s: string)
    ensures var r := Parse(Seq(Literal(l), q), s);
            && (Seen(r) != [] || r.Success? ==> l <= s)
            && (r.Success? ==> |r.rest| <= |s| - |l|)
  {
    EssentialNone();
    SeenSeq(Literal(l), q, s);
    if l <= s {
      assert Parse(Literal(l), s) == Success([], s[|l|..]);
      ParseShorter(q, s[|l|..]);
    } else {
      assert !Parse(Literal(l), s).Success?;
      assert Seen(Parse(Literal(l), s)) == [];
    }
  }

  lemma SpaceFirst(q: Parser, s: string)
    ensures AlikeSpace(q, s)
  {
    EssentialNone();
    SeenSeq(Space, q, s);
    assert Parse(Space, s) == Success([], SkipSpace(s));
    var c := Seen(Parse(q, SkipSpace(s)));
    assert [] + c == c;
  }

  predicate AlikeSpace(q: Parser, s: string) {
    var r, c := Parse(Seq(Space, q), s), Parse(q, SkipSpace(s));
    SameOutcome(r, c)
  }

  /** After whitespace, the text starts with this marker. */
  function StartsWith(marker: string): string -> bool { s => marker <= SkipSpace(s) }

  function StartsPlainly(marker: string): string -> bool { s => marker <= s }

  lemma StillStarts(l: string, x: string, more: string)
    requires l <= x
    ensures l <= x + more
  {
    assert (x + more)[..|l|] == x[..|l|];
  }

  /** Calls behind whitespace. */
  lemma SpacedCallsTurn(l: string, q: Parser)
    requires l != "" && Firm(Seq(Literal(l), q))
    ensures var child := Seq(Space, Seq(Literal(l), q));
            && (forall a: string, b: string :: TurnsAt(child, a, b, StartsWith(l)))
            && (forall s: string :: AdvancesAt(child, s))
  {
    hide Parse, Seen, Firm;
    var call, child := Seq(Literal(l), q), Seq(Space, Seq(Literal(l), q));
    FirmSpace();
    FirmSeq(Space, call);
    forall x: string, more: string | Seen(Parse(child, x)) != [] ensures StartsWith(l)(x + more) {
      SpaceFirst(call, x);
      LiteralFirst(l, q, SkipSpace(x));
      SkipSpaceGrows(x, more);
      StillStarts(l, SkipSpace(x), more);
    }
    FirmTurns(child, StartsWith(l));
    forall s: string ensures AdvancesAt(child, s) {
      SpaceFirst(call, s);
      LiteralFirst(l, q, SkipSpace(s));
    }
  }

  /** Calls behind a separator. */
  lemma SeparatedCallsTurn(l: string, q: Parser)
    requires l != "" && Firm(Seq(Literal(l), q))
    ensures var child := Seq(Literal(l), q);
            && (forall a: string, b: string :: TurnsAt(child, a, b, StartsPlainly(l)))
            && (forall s: string :: AdvancesAt(child, s))
  {
    hide Parse, Seen, Firm;
    var child := Seq(Literal(l), q);
    forall x: string, more: string | Seen(Parse(child, x)) != [] ensures StartsPlainly(l)(x + more) {
      LiteralFirst(l, q, x);
      StillStarts(l, x, more);
    }
    FirmTurns(child, StartsPlainly(l));
    forall s: string ensures AdvancesAt(child, s) {
      LiteralFirst(l, q, s);
    }
  }

  // ---------------------------------------------------------------- the end of the text

  /** Whitespace, a marker if there is one, more whitespace, and the end of the text. */
  function TextEnd(marker: string): Parser {
    if marker == "" then Seq(Space, End) else Seq(Space, Seq(Literal(marker), Seq(Space, End)))
  }

  lemma TextEndFollows(marker: string)
    ensures Follows(TextEnd(marker)) && EndsQuietly(TextEnd(marker))
  {
    hide Follows;
    EssentialNone();
    FollowsEnd();
    FirmSpace();
    FollowsSeq(Space, End);
    SpaceFirst(End, "");
    if marker != "" {
      FirmLiteral(marker);
      FollowsSeq(Literal(marker), Seq(Space, End));
      FollowsSeq(Space, Seq(Literal(marker), Seq(Space, End)));
      SpaceFirst(Seq(Literal(marker), Seq(Space, End)), "");
      assert Parse(Literal(marker), "") == NeedMore([], "");
      assert Parse(Seq(Literal(marker), Seq(Space, End)), "") == NeedMore([], "");
    }
  }

  lemma TextEndRefuses(marker: string, s: string)
    requires SkipSpace(s) != "" && (marker == "" || Diverges(marker, SkipSpace(s)))
    ensures Parse(TextEnd(marker), s).Fail?
  {
    SpaceFirst(End, s);
    if marker != "" {
      SpaceFirst(Seq(Literal(marker), Seq(Space, End)), s);
      assert Parse(Literal(marker), SkipSpace(s)).Fail?;
    }
  }

  /** The same without whitespace behind the marker. */
  function TightEnd(marker: string): Parser { Seq(Space, Seq(Literal(marker), End)) }

  lemma TightEndFollows(marker: string)
    ensures Follows(TightEnd(marker)) && EndsQuietly(TightEnd(marker))
  {
    hide Follows, Parse, EndsQuietly;
    FollowsEnd();
    FirmSpace();
    FirmLiteral(marker);
    FollowsSeq(Literal(marker), End);
    FollowsSeq(Space, Seq(Literal(marker), End));
    TightEndQuiet(marker);
  }

  lemma TightEndQuiet(marker: string)
    ensures EndsQuietly(TightEnd(marker))
  {
    EssentialNone();
    SpaceFirst(Seq(Literal(marker), End), "");
    if marker == "" {
      assert Parse(Literal(marker), "") == Success([], "");
      assert Parse(Seq(Literal(marker), End), "") == Success([] + [], "");
    } else {
      assert Parse(Literal(marker), "") == NeedMore([], "");
      assert Parse(Seq(Literal(marker), End), "") == NeedMore([], "");
    }
  }

  lemma TightEndRefuses(marker: string, s: string)
    requires SkipSpace(s) != "" && (marker == "" || Diverges(marker, SkipSpace(s)))
    ensures Parse(TightEnd(marker), s).Fail?
  {
    SpaceFirst(Seq(Literal(marker), End), s);
    if marker == "" {
      assert Parse(Literal(marker), SkipSpace(s)) == Success([], SkipSpace(s));
      assert Parse(End, SkipSpace(s)).Fail?;
    } else {
      assert Parse(Literal(marker), SkipSpace(s)).Fail?;
    }
  }

  // ---------------------------------------------------------------- the calls in a row

  lemma AlikeRegroup(a: Parser, b: Parser, c: Parser)
    ensures Alike(Seq(Seq(a, b), c), Seq(a, Seq(b, c)))
  {
    hide Same, Alike;
    SeqSame(a, b, c);
    AlikeSame(Seq(Seq(a, b), c), Seq(a, Seq(b, c)));
  }

  lemma RegroupThree(a: Parser, b: Parser, c: Parser, q: Parser)
    ensures Alike(Seq(Seq(a, Seq(b, c)), q), Seq(a, Seq(b, Seq(c, q))))
  {
    hide Alike;
    AlikeRegroup(a, Seq(b, c), q);
    AlikeRegroup(b, c, q);
    AlikeSeq(Seq(Seq(b, c), q), Seq(b, Seq(c, q)), a);
    AlikeBoth(Seq(Seq(a, Seq(b, c)), q), Seq(a, Seq(Seq(b, c), q)), Seq(a, Seq(b, Seq(c, q))));
  }

  lemma RegroupFour(a: Parser, b: Parser, c: Parser, d: Parser, q: Parser)
    ensures Alike(Seq(Seq(a, Seq(b, Seq(c, d))), q), Seq(a, Seq(b, Seq(c, Seq(d, q)))))
  {
    hide Alike;
    AlikeRegroup(a, Seq(b, Seq(c, d)), q);
    RegroupThree(b, c, d, q);
    AlikeSeq(Seq(Seq(b, Seq(c, d)), q), Seq(b, Seq(c, Seq(d, q))), a);
    AlikeBoth(Seq(Seq(a, Seq(b, Seq(c, d))), q), Seq(a, Seq(Seq(b, Seq(c, d)), q)), Seq(a, Seq(b, Seq(c, Seq(d, q)))));
  }

  lemma RuleThen(p: Parser, q: Parser, r: Parser)
    requires Alike(Seq(p, q), r)
    ensures Alike(Seq(Node(OtherTag, p), q), r)
  {
    hide Alike;
    AlikeRule(p);
    AlikeSeq(Node(OtherTag, p), p, q);
    AlikeBoth(Seq(Node(OtherTag, p), q), Seq(p, q), r);
  }

  /** Calls, then whatever end follows them. */
  lemma RepeatedFollows(parallel: bool, separator: Parser, call: Parser, breaks: string -> bool, q: Parser)
    requires parallel ==> forall a: string, b: string :: TurnsAt(Seq(separator, call), a, b, breaks)
    requires parallel ==> forall s: string :: AdvancesAt(Seq(separator, call), s)
    requires Follows(q) && EndsQuietly(q) && forall s: string :: breaks(s) ==> Parse(q, s).Fail?
    ensures Follows(Seq(Repeated(parallel, separator, call), q))
  {
    hide Follows, EndsQuietly, Parse;
    if parallel {
      FollowsRepeat(Seq(separator, call), breaks, q);
    } else {
      FirmEps();
      FollowsSeq(Eps, q);
    }
  }

  /** The end marker of the section is no part of what starts another call. */
  predicate SectionEnds(w: Wrapping) {
    w.sectionEnd == "" || Diverges(w.sectionEnd, if w.callStart != "" then w.callStart else Separator)
  }

  lemma FirmWrapped(w: Wrapping, fn: Function, choice: Parser)
    requires Firm(choice)
    ensures Firm(WrappedCall(w, fn, choice))
  {
    hide Firm;
    FirmLiteral(w.callStart);
    FirmSpace();
    FirmLiteral(fn.perCallEnd);
    FirmSeq(Space, Literal(fn.perCallEnd));
    FirmSeq(choice, Seq(Space, Literal(fn.perCallEnd)));
    FirmSeq(Space, Seq(choice, Seq(Space, Literal(fn.perCallEnd))));
    FirmSeq(Literal(w.callStart), Seq(Space, Seq(choice, Seq(Space, Literal(fn.perCallEnd)))));
  }

  /** Wrapped calls up to the end of the text. */
  function WrappedRow(w: Wrapping, fn: Function, choice: Parser, parallel: bool, end: Parser): Parser {
    var call := WrappedCall(w, fn, choice);
    Seq(call, Seq(Repeated(parallel, Space, call), end))
  }

  lemma WrappedRowFollows(w: Wrapping, fn: Function, choice: Parser, parallel: bool, marker: string)
    requires w.callStart != "" && Firm(choice) && (marker == "" || Diverges(marker, w.callStart))
    ensures Follows(WrappedRow(w, fn, choice, parallel, TextEnd(marker)))
  {
    hide Firm, Follows, EndsQuietly, Parse;
    var call := WrappedCall(w, fn, choice);
    var breaks := StartsWith(w.callStart);
    FirmWrapped(w, fn, choice);
    SpacedCallsTurn(w.callStart, call.second);
    TextEndFollows(marker);
    forall s: string | breaks(s) ensures Parse(TextEnd(marker), s).Fail? {
      if marker != "" { DivergesOpener(marker, w.callStart, SkipSpace(s)); }
      TextEndRefuses(marker, s);
    }
    RepeatedFollows(parallel, Space, call, breaks, TextEnd(marker));
    FollowsSeq(call, Seq(Repeated(parallel, Space, call), TextEnd(marker)));
  }

  lemma DivergesOpener(l: string, open: string, s: string)
    requires Diverges(l, open) && open <= s
    ensures Diverges(l, s)
  {
    DivergesLonger(l, open, s[|open|..]);
    assert open + s[|open|..] == s;
  }

  /** Two spaces are one, and two ends of the text are one. */
  lemma SectionTail(w: Wrapping)
    ensures var end := if w.sectionEnd == "" then End else Seq(Literal(w.sectionEnd), Space);
            Alike(Seq(Space, Seq(Seq(Space, end), End)), TextEnd(w.sectionEnd))
  {
    hide Alike;
    var end := if w.sectionEnd == "" then End else Seq(Literal(w.sectionEnd), Space);
    var last := if w.sectionEnd == "" then End else Seq(Literal(w.sectionEnd), Seq(Space, End));
    AlikeRegroup(Space, end, End);
    TwoEnds();
    if w.sectionEnd != "" { AlikeRegroup(Literal(w.sectionEnd), Space, End); }
    AlikeSeq(Seq(end, End), last, Space);
    AlikeBoth(Seq(Seq(Space, end), End), Seq(Space, Seq(end, End)), Seq(Space, last));
    AlikeSeq(Seq(Seq(Space, end), End), Seq(Space, last), Space);
    TwoSpaces(last);
    AlikeBoth(Seq(Space, Seq(Seq(Space, end), End)), Seq(Space, Seq(Space, last)), Seq(Space, last));
  }

  lemma TwoEnds()
    ensures Alike(Seq(End, End), End)
  {
    EssentialNone();
    forall s: string ensures AlikeAt(Seq(End, End), End, s) {
      if s == "" { assert Parse(Seq(End, End), s) == WithNodes([], Parse(End, s)); }
    }
  }

  lemma TwoSpaces(q: Parser)
    ensures Alike(Seq(Space, Seq(Space, q)), Seq(Space, q))
  {
    forall s: string ensures AlikeAt(Seq(Space, Seq(Space, q)), Seq(Space, q), s) {
      SpaceFirst(Seq(Space, q), s);
      SpaceFirst(q, SkipSpace(s));
      SpaceFirst(q, s);
      SkippedTwice(s);
    }
  }

  lemma {:induction false} SkippedTwice(s: string)
    ensures SkipSpace(SkipSpace(s)) == SkipSpace(s)
  {
    if s != "" && IsSpace(s[0]) { SkippedTwice(s[1..]); }
  }

  /** The calls and the end of the text, with all their parts in one row. */
  function CallsRow(w: Wrapping, fn: Function, choice: Parser, parallel: bool): Parser {
    if w.callStart != "" then
      if w.sectionStart == "" then WrappedRow(w, fn, choice, parallel, TextEnd(""))
      else Seq(Literal(w.sectionStart), Seq(Space, WrappedRow(w, fn, choice, parallel, TextEnd(w.sectionEnd))))
    else
      Seq(Literal(w.sectionStart), Seq(Space, Seq(choice,
        Seq(Repeated(parallel, Literal(Separator), choice), TightEnd(w.sectionEnd)))))
  }

  lemma CallsInRow(w: Wrapping, fn: Function, choice: Parser, parallel: bool)
    ensures Alike(Seq(ToolCalls(w, fn, choice, parallel), End), CallsRow(w, fn, choice, parallel))
  {
    hide Alike;
    if w.callStart != "" {
      var call := WrappedCall(w, fn, choice);
      var more := Repeated(parallel, Space, call);
      var calls := Node(OtherTag, Seq(call, Seq(more, Space)));
      if w.sectionStart == "" {
        RegroupThree(call, more, Space, End);
        RuleThen(Seq(call, Seq(more, Space)), End, CallsRow(w, fn, choice, parallel));
      } else {
        var end := if w.sectionEnd == "" then End else Seq(Literal(w.sectionEnd), Space);
        var start, tail := Literal(w.sectionStart), Seq(Seq(Space, end), End);
        RegroupThree(call, more, Space, tail);
        RuleThen(Seq(call, Seq(more, Space)), tail, Seq(call, Seq(more, Seq(Space, tail))));
        SectionTail(w);
        AlikeSeq(Seq(Space, tail), TextEnd(w.sectionEnd), more);
        AlikeSeq(Seq(more, Seq(Space, tail)), Seq(more, TextEnd(w.sectionEnd)), call);
        var row := Seq(call, Seq(more, TextEnd(w.sectionEnd)));
        AlikeBoth(Seq(calls, tail), Seq(call, Seq(more, Seq(Space, tail))), row);
        AlikeSeq(Seq(calls, tail), row, Space);
        AlikeSeq(Seq(Space, Seq(calls, tail)), Seq(Space, row), start);
        RegroupFour(start, Space, calls, Seq(Space, end), End);
        var whole := Seq(start, Seq(Space, Seq(calls, Seq(Space, end))));
        AlikeBoth(Seq(whole, End), Seq(start, Seq(Space, Seq(calls, tail))), Seq(start, Seq(Space, row)));
        RuleThen(whole, End, Seq(start, Seq(Space, row)));
      }
    } else {
      SeparatedInRow(w, choice, Repeated(parallel, Literal(Separator), choice));
    }
  }

  lemma SeparatedInRow(w: Wrapping, choice: Parser, more: Parser)
    ensures var start, end := Literal(w.sectionStart), Seq(Space, Literal(w.sectionEnd));
            Alike(Seq(Node(OtherTag, Seq(start, Seq(Space, Seq(choice, Seq(more, end))))), End),
                  Seq(start, Seq(Space, Seq(choice, Seq(more, TightEnd(w.sectionEnd))))))
  {
    hide Alike;
    var start, end := Literal(w.sectionStart), Seq(Space, Literal(w.sectionEnd));
    var tail := Seq(end, End);
    AlikeRegroup(Space, Literal(w.sectionEnd), End);
    AlikeRegroup(more, end, End);
    AlikeSeq(tail, TightEnd(w.sectionEnd), more);
    AlikeBoth(Seq(Seq(more, end), End), Seq(more, tail), Seq(more, TightEnd(w.sectionEnd)));
    var row := Seq(more, TightEnd(w.sectionEnd));
    RegroupFour(start, Space, choice, Seq(more, end), End);
    AlikeSeq(Seq(Seq(more, end), End), row, choice);
    AlikeSeq(Seq(choice, Seq(Seq(more, end), End)), Seq(choice, row), Space);
    AlikeSeq(Seq(Space, Seq(choice, Seq(Seq(more, end), End))), Seq(Space, Seq(choice, row)), start);
    var whole := Seq(start, Seq(Space, Seq(choice, Seq(more, end))));
    AlikeBoth(Seq(whole, End), Seq(start, Seq(Space, Seq(choice, Seq(Seq(more, end), End)))),
              Seq(start, Seq(Space, Seq(choice, row))));
    RuleThen(whole, End, Seq(start, Seq(Space, Seq(choice, row))));
  }

  lemma CallsFollow(w: Wrapping, fn: Function, choice: Parser, parallel: bool)
    requires Firm(choice) && SectionEnds(w)
    ensures Follows(Seq(ToolCalls(w, fn, choice, parallel), End))
  {
    hide Firm, Follows, Alike, EndsQuietly, Parse;
    CallsInRow(w, fn, choice, parallel);
    FirmLiteral(w.sectionStart);
    FirmSpace();
    if w.callStart != "" {
      if w.sectionStart == "" {
        WrappedRowFollows(w, fn, choice, parallel, "");
      } else {
        var row := WrappedRow(w, fn, choice, parallel, TextEnd(w.sectionEnd));
        WrappedRowFollows(w, fn, choice, parallel, w.sectionEnd);
        FollowsSeq(Space, row);
        FollowsSeq(Literal(w.sectionStart), Seq(Space, row));
      }
    } else {
      var more, end := Repeated(parallel, Literal(Separator), choice), TightEnd(w.sectionEnd);
      var breaks := StartsPlainly(Separator);
      TightEndFollows(w.sectionEnd);
      FirmLiteral(Separator);
      FirmSeq(Literal(Separator), choice);
      SeparatedCallsTurn(Separator, choice);
      forall s: string | breaks(s) ensures Parse(end, s).Fail? {
        SeparatorIsNoSpace(s);
        if w.sectionEnd != "" { DivergesOpener(w.sectionEnd, Separator, s); }
        TightEndRefuses(w.sectionEnd, s);
      }
      RepeatedFollows(parallel, Literal(Separator), choice, breaks, end);
      FollowsSeq(choice, Seq(more, end));
      FollowsSeq(Space, Seq(choice, Seq(more, end)));
      FollowsSeq(Literal(w.sectionStart), Seq(Space, Seq(choice, Seq(more, end))));
    }
    AlikeFollows(Seq(ToolCalls(w, fn, choice, parallel), End), CallsRow(w, fn, choice, parallel));
  }

  lemma SeparatorIsNoSpace(s: string)
    requires Separator <= s
    ensures SkipSpace(s) == s != ""
  {
    assert s[0] == ',';
  }

  // ---------------------------------------------------------------- content

  /** The calls wait, without reporting anything, while only a part of the first marker is there. */
  ghost predicate Waits(q: Parser, trigger: string) {
    forall r: string :: WaitsAt(q, trigger, r)
  }

  ghost predicate WaitsAt(q: Parser, trigger: string, r: string) {
    r <= trigger && r != trigger ==> !Parse(q, r).Fail? && Seen(Parse(q, r)) == []
  }

  function ContentParser(trigger: string): Parser { Maybe(Node(Content, Until(trigger))) }

  function ContentSeen(v: string): seq<Event> { if v == "" then [] else [Event(Content, v)] }

  lemma ContentOutcome(trigger: string, s: string)
    requires trigger != ""
    ensures var r, u := Parse(ContentParser(trigger), s), UntilRest(s, trigger);
            var v := Consumed(s, if u.Some? then u.value else "");
            && !r.Fail? && Seen(r) == ContentSeen(v)
            && (r.NeedMore? <==> s != "" && u.None?)
            && (r.Success? ==> r.rest == if u.Some? then u.value else "")
  {
    var u := UntilRest(s, trigger);
    var v := Consumed(s, if u.Some? then u.value else "");
    EssentialNone();
    EssentialFirst(Event(Content, v), []);
    assert [Event(Content, v)] + [] == [Event(Content, v)];
    UntilKeepsEnd(s, trigger);
    if s != "" {
      MaybeIs(Node(Content, Until(trigger)), s);
      assert Parse(Node(Content, Until(trigger)), s)
          == if u.Some? then Success([Event(Content, v)] + [], u.value) else NeedMore([Event(Content, v)] + [], "");
    }
  }

  lemma FollowsContent(trigger: string, q: Parser)
    requires trigger != "" && Follows(q) && Waits(q, trigger)
    ensures Follows(Seq(ContentParser(trigger), q))
  {
    var p := ContentParser(trigger);
    forall x: string, y: string | x <= y && !Parse(Seq(p, q), y).Fail?
      ensures !Parse(Seq(p, q), x).Fail? && Ahead(Seen(Parse(Seq(p, q), x)), Seen(Parse(Seq(p, q), y)))
    {
      ContentFollows(trigger, q, x, y);
    }
  }

  lemma ContentFollows(trigger: string, q: Parser, x: string, y: string)
    requires trigger != "" && Follows(q) && Waits(q, trigger)
    requires x <= y && !Parse(Seq(ContentParser(trigger), q), y).Fail?
    ensures var p := Seq(ContentParser(trigger), q);
            !Parse(p, x).Fail? && Ahead(Seen(Parse(p, x)), Seen(Parse(p, y)))
  {
    hide Parse, Seen, UntilRest, Ahead, ContentParser, Consumed;
    var p, more := ContentParser(trigger), y[|x|..];
    assert y == x + more;
    ContentOutcome(trigger, x);
    ContentOutcome(trigger, y);
    SeenSeq(p, q, x);
    SeenSeq(p, q, y);
    UntilGrows(x, more, trigger);
    UntilEnds(x, trigger);
    if Parse(p, x).Success? { assert WaitsAt(q, trigger, Parse(p, x).rest); }
    var ux, uy := UntilRest(x, trigger), UntilRest(y, trigger);
    var vx, vy := Consumed(x, if ux.Some? then ux.value else ""), Consumed(y, if uy.Some? then uy.value else "");
    var px, py := Parse(p, x), Parse(p, y);
    if ux.Some? && trigger <= ux.value {
      UntilKeepsEnd(x, trigger);
      SameConsumed(x, more, ux.value);
      NotEmptyText(x, trigger, ux.value);
      FollowsMeans(q, px.rest, py.rest);
      AheadAfter(ContentSeen(vx), Seen(Parse(q, px.rest)), Seen(Parse(q, py.rest)));
    } else {
      var later := if py.Success? then Seen(Parse(q, py.rest)) else [];
      assert ContentSeen(vx) + [] == ContentSeen(vx) && ContentSeen(vy) + [] == ContentSeen(vy);
      ContentAhead(vx, vy, later);
    }
  }

  lemma NotEmptyText(x: string, trigger: string, rest: string)
    requires trigger != "" && trigger <= rest
    ensures |rest| <= |x| ==> x != ""
  {
  }

  lemma ContentAhead(a: string, b: string, later: seq<Event>)
    requires a <= b
    ensures Ahead(ContentSeen(a), ContentSeen(b) + later)
  {
    if a != "" {
      var x, y := [Event(Content, a)], [Event(Content, b)] + later;
      assert x[..0] == y[..0] && GrownNode(x[..0], x[0], y[0]);
    }
  }

  lemma RowWaits(trigger: string, q: Parser)
    requires trigger != ""
    ensures Waits(Seq(Literal(trigger), q), trigger)
  {
    EssentialNone();
    forall r: string ensures WaitsAt(Seq(Literal(trigger), q), trigger, r) {
      if r <= trigger && r != trigger { assert Parse(Literal(trigger), r) == NeedMore([], ""); }
    }
  }

  lemma CallsWait(w: Wrapping, fn: Function, choice: Parser, parallel: bool, required: bool)
    requires Trigger(w) != ""
    ensures var calls := ToolCalls(w, fn, choice, parallel);
            Waits(Seq(if required then calls else Maybe(calls), End), Trigger(w))
  {
    hide Parse, Seen, ToolCalls, Alike;
    var calls, row, t := ToolCalls(w, fn, choice, parallel), CallsRow(w, fn, choice, parallel), Trigger(w);
    CallsInRow(w, fn, choice, parallel);
    var first := if w.sectionStart == "" then Seq(Literal(t), Seq(row.first.second, row.second)) else row;
    if w.sectionStart == "" {
      AlikeRegroup(Literal(t), row.first.second, row.second);
      AlikeBoth(Seq(calls, End), row, first);
    }
    RowWaits(t, first.second);
    var last := if required then calls else Maybe(calls);
    var q := Seq(last, End);
    forall r: string ensures WaitsAt(q, t, r) {
      AlikeHere(Seq(calls, End), first, r);
      assert WaitsAt(first, t, r);
      MaybeCalls(calls, r);
    }
  }

  lemma AlikeHere(p: Parser, q: Parser, s: string)
    requires Alike(p, q)
    ensures AlikeAt(p, q, s)
  {
  }

  // ---------------------------------------------------------------- nodes that are safe at any time

  ghost predicate Anytime(es: seq<Event>) {
    forall ph: Phase :: WellFormedFrom(ph, es)
  }

  lemma {:induction false} WellFormedAppend(ph: Phase, a: seq<Event>, b: seq<Event>)
    requires WellFormedFrom(ph, a) && Anytime(b)
    ensures WellFormedFrom(ph, a + b)
    decreases |a|
  {
    if a == [] {
      assert a + b == b;
    } else {
      assert (a + b)[1..] == a[1..] + b;
      WellFormedAppend(NextPhase(ph, a[0]), a[1..], b);
    }
  }

  lemma AnytimeAppend(a: seq<Event>, b: seq<Event>)
    requires Anytime(a) && Anytime(b)
    ensures Anytime(a + b)
  {
    forall ph: Phase ensures WellFormedFrom(ph, a + b) { WellFormedAppend(ph, a, b); }
  }

  lemma CallAnytime(es: seq<Event>, name: string)
    requires CallShape(es, name) && TrimmedTrailing(name) != ""
    ensures Anytime(es)
  {
    if es != [] {
      assert es[1..][1..] == es[2..];
      ArgsAreWellFormed(es[2..], false);
      forall ph: Phase ensures WellFormedFrom(ph, es) {
        assert NextPhase(ph, es[0]) == InCall(false, false, false);
        assert WellFormedFrom(InCall(false, false, false), es[1..]);
      }
    }
  }

  ghost predicate Harmless(p: Parser) {
    forall s: string :: Anytime(Seen(Parse(p, s)))
  }

  lemma NothingAnytime()
    ensures Anytime([])
  {
  }

  lemma SilentHarmless(p: Parser)
    requires p.Literal? || p.Space? || p.Eps? || p.End? || p.Never?
    ensures Harmless(p)
  {
    EssentialNone();
    NothingAnytime();
    forall s: string ensures Anytime(Seen(Parse(p, s))) {
      assert Seen(Parse(p, s)) == [];
    }
  }

  lemma HarmlessSeq(p: Parser, q: Parser)
    requires Harmless(p) && Harmless(q)
    ensures Harmless(Seq(p, q))
  {
    hide Parse, Seen, Anytime;
    SeenNothing();
    NothingAnytime();
    forall s: string ensures Anytime(Seen(Parse(Seq(p, q), s))) {
      SeenSeq(p, q, s);
      if Parse(p, s).Success? {
        AnytimeAppend(Seen(Parse(p, s)), Seen(Parse(q, Parse(p, s).rest)));
      }
    }
  }

  lemma HarmlessRule(p: Parser)
    requires Harmless(p)
    ensures Harmless(Node(OtherTag, p))
  {
    hide Parse, Seen, Anytime;
    forall s: string ensures Anytime(Seen(Parse(Node(OtherTag, p), s))) { SeenRule(p, s); }
  }

  lemma HarmlessMaybe(p: Parser)
    requires Harmless(p)
    ensures Harmless(Maybe(p))
  {
    NothingReported();
    NothingAnytime();
    hide Parse, Seen, Anytime;
    forall s: string ensures Anytime(Seen(Parse(Maybe(p), s))) { MaybeIs(p, s); }
  }

  lemma HarmlessRepeat(p: Parser)
    requires Harmless(p)
    ensures Harmless(Repeat(p))
  {
    forall s: string ensures Anytime(Seen(Parse(Repeat(p), s))) { RepeatHarmless(p, s); }
  }

  lemma {:induction false} RepeatHarmless(p: Parser, s: string)
    requires Harmless(p)
    ensures Anytime(Seen(Parse(Repeat(p), s)))
    decreases |s|
  {
    hide Parse, Seen, Anytime;
    NothingReported();
    NothingAnytime();
    RepeatIs(p, s);
    var c := Parse(p, s);
    if s != "" && c.Success? && |c.rest| < |s| {
      RepeatHarmless(p, c.rest);
      SeenWith(c.nodes, Parse(Repeat(p), c.rest));
      SeenIs(c);
      RepeatIs(p, c.rest);
      AnytimeAppend(Seen(c), Seen(Parse(Repeat(p), c.rest)));
    }
  }

  lemma {:induction false} ToolsHarmless(fn: Function, f: Format, tools: seq<Tool>)
    requires forall i :: 0 <= i < |tools| ==> TrimmedTrailing(tools[i].name) != ""
    ensures Harmless(ToolChoice(fn, f, tools))
    decreases |tools|
  {
    hide Seen, OneTool, Anytime, Parse;
    if tools == [] {
      SilentHarmless(Never);
    } else {
      var n := |tools| - 1;
      ToolsHarmless(fn, f, tools[..n]);
      forall s: string ensures Anytime(Seen(Parse(ToolChoice(fn, f, tools), s))) {
        ChoiceIs(ToolChoice(fn, f, tools[..n]), OneTool(fn, f, tools[n]), s);
        ToolHarmless(fn, f, tools[n], s);
      }
    }
  }

  lemma ToolHarmless(fn: Function, f: Format, t: Tool, s: string)
    requires TrimmedTrailing(t.name) != ""
    ensures Anytime(Seen(Parse(OneTool(fn, f, t), s)))
  {
    hide Seen, Parse, NamesOf, Anytime, CallParser, ArgsParser;
    var required, optional := NamesOf(t.name, t.properties, t.required),
       OptionalNames(t.name, t.properties, t.required);
    CallParserIs(fn, f, t.name, t.properties, t.required);
    OnlyArgsInArgs(f, required, optional);
    CallNodes(fn, t.name, ArgsParser(f, required, optional), PeekFor(f, t.required, t.properties), s);
    CallAnytime(Seen(Parse(OneTool(fn, f, t), s)), t.name);
  }

  lemma CallsHarmless(w: Wrapping, fn: Function, choice: Parser, parallel: bool)
    requires Harmless(choice)
    ensures Harmless(ToolCalls(w, fn, choice, parallel))
  {
    hide Harmless;
    SilentHarmless(Space);
    SilentHarmless(Eps);
    SilentHarmless(End);
    SilentHarmless(Literal(w.callStart));
    SilentHarmless(Literal(w.sectionStart));
    SilentHarmless(Literal(w.sectionEnd));
    SilentHarmless(Literal(Separator));
    SilentHarmless(Literal(fn.perCallEnd));
    var start, end := Literal(w.sectionStart), Literal(w.sectionEnd);
    if w.callStart != "" {
      var call := WrappedCall(w, fn, choice);
      HarmlessSeq(Space, Literal(fn.perCallEnd));
      HarmlessSeq(choice, Seq(Space, Literal(fn.perCallEnd)));
      HarmlessSeq(Space, Seq(choice, Seq(Space, Literal(fn.perCallEnd))));
      HarmlessSeq(Literal(w.callStart), Seq(Space, Seq(choice, Seq(Space, Literal(fn.perCallEnd)))));
      HarmlessSeq(Space, call);
      HarmlessRepeat(Seq(Space, call));
      var more := Repeated(parallel, Space, call);
      HarmlessSeq(more, Space);
      HarmlessSeq(call, Seq(more, Space));
      var calls := Node(OtherTag, Seq(call, Seq(more, Space)));
      HarmlessRule(Seq(call, Seq(more, Space)));
      HarmlessSeq(end, Space);
      var last := if w.sectionEnd == "" then End else Seq(end, Space);
      HarmlessSeq(Space, last);
      HarmlessSeq(calls, Seq(Space, last));
      HarmlessSeq(Space, Seq(calls, Seq(Space, last)));
      HarmlessSeq(start, Seq(Space, Seq(calls, Seq(Space, last))));
      HarmlessRule(Seq(start, Seq(Space, Seq(calls, Seq(Space, last)))));
    } else {
      HarmlessSeq(Literal(Separator), choice);
      HarmlessRepeat(Seq(Literal(Separator), choice));
      var more := Repeated(parallel, Literal(Separator), choice);
      HarmlessSeq(Space, end);
      HarmlessSeq(more, Seq(Space, end));
      HarmlessSeq(choice, Seq(more, Seq(Space, end)));
      HarmlessSeq(Space, Seq(choice, Seq(more, Seq(Space, end))));
      HarmlessSeq(start, Seq(Space, Seq(choice, Seq(more, Seq(Space, end)))));
      HarmlessRule(Seq(start, Seq(Space, Seq(choice, Seq(more, Seq(Space, end))))));
    }
  }

  lemma ContentHarmless(trigger: string)
    requires trigger != ""
    ensures Harmless(ContentParser(trigger))
  {
    hide Parse, Seen;
    forall s: string ensures Anytime(Seen(Parse(ContentParser(trigger), s))) {
      ContentOutcome(trigger, s);
      var u := UntilRest(s, trigger);
      ContentIsAnytime(Consumed(s, if u.Some? then u.value else ""));
    }
  }

  lemma ContentIsAnytime(v: string)
    ensures Anytime(ContentSeen(v))
  {
    forall ph: Phase ensures WellFormedFrom(ph, ContentSeen(v)) {
      if v != "" { assert ContentSeen(v)[1..] == []; }
    }
  }

  // ---------------------------------------------------------------- the whole output

  lemma NoContent(q: Parser)
    ensures Alike(Seq(Maybe(Node(Content, Eps)), q), q)
  {
    EssentialNone();
    forall s: string ensures AlikeAt(Seq(Maybe(Node(Content, Eps)), q), q, s) {
      MaybeIs(Node(Content, Eps), s);
      assert Parse(Node(Content, Eps), s) == WithNodes([Event(Content, Consumed(s, s))], Parse(Eps, s));
      assert Parse(Maybe(Node(Content, Eps)), s) == Success([], s);
      SeenSeq(Maybe(Node(Content, Eps)), q, s);
      assert [] + Seen(Parse(q, s)) == Seen(Parse(q, s));
    }
  }

  lemma OutputFollows(w: Wrapping, fn: Function, f: Format, tools: seq<Tool>, parallel: bool, required: bool)
    requires Distinct(fn, tools) && SectionEnds(w) && forall i :: 0 <= i < |tools| ==> CallStreaming(fn, f, tools[i])
    ensures Follows(OutputParser(w, fn, f, tools, parallel, required))
  {
    hide Follows, Firm, Alike, Waits, ToolCalls, ToolChoice, CallStreaming, Distinct;
    var choice := ToolChoice(fn, f, tools);
    var calls := ToolCalls(w, fn, choice, parallel);
    var q := Seq(if required then calls else Maybe(calls), End);
    FirmToolChoice(fn, f, tools);
    CallsFollow(w, fn, choice, parallel);
    FollowsMaybe(calls);
    if Trigger(w) == "" {
      NoContent(q);
      AlikeFollows(Seq(Maybe(Node(Content, Eps)), q), q);
    } else {
      CallsWait(w, fn, choice, parallel, required);
      FollowsContent(Trigger(w), q);
    }
  }

  lemma OutputHarmless(w: Wrapping, fn: Function, f: Format, tools: seq<Tool>, parallel: bool, required: bool)
    requires forall i :: 0 <= i < |tools| ==> TrimmedTrailing(tools[i].name) != ""
    ensures SafeNodes(OutputParser(w, fn, f, tools, parallel, required))
  {
    hide Harmless, Alike, ToolCalls, ToolChoice, Parse, Seen, WellFormedFrom;
    var choice := ToolChoice(fn, f, tools);
    var calls := ToolCalls(w, fn, choice, parallel);
    var last := if required then calls else Maybe(calls);
    var q := Seq(last, End);
    ToolsHarmless(fn, f, tools);
    CallsHarmless(w, fn, choice, parallel);
    HarmlessMaybe(calls);
    SilentHarmless(End);
    HarmlessSeq(last, End);
    var p := OutputParser(w, fn, f, tools, parallel, required);
    if Trigger(w) == "" {
      NoContent(q);
      AlikeHarmless(p, q);
    } else {
      ContentHarmless(Trigger(w));
      HarmlessSeq(ContentParser(Trigger(w)), q);
    }
    HarmlessIsSafe(p);
  }

  lemma AlikeHarmless(p: Parser, q: Parser)
    requires Alike(p, q) && Harmless(q)
    ensures Harmless(p)
  {
    hide Parse, Seen, Anytime;
    forall s: string ensures Anytime(Seen(Parse(p, s))) { assert AlikeAt(p, q, s); }
  }

  lemma HarmlessIsSafe(p: Parser)
    requires Harmless(p)
    ensures SafeNodes(p)
  {
    hide Parse, Seen;
    forall s: string ensures WellFormed(Seen(Parse(p, s))) { assert Anytime(Seen(Parse(p, s))); }
  }

  /**
   Streaming the whole output: for every text that the parser does not refuse, with content,
   any number of calls of any of the tools and any markers around them, and every way to let
   it grow, the differ never throws and the folded deltas are the final message.
   */
  lemma OutputStreams(w: Wrapping, fn: Function, f: Format, tools: seq<Tool>, parallel: bool, required: bool)
    requires Distinct(fn, tools) && SectionEnds(w) && forall i :: 0 <= i < |tools| ==> CallStreaming(fn, f, tools[i])
    ensures Streams(OutputParser(w, fn, f, tools, parallel, required))
  {
    hide Follows, SafeNodes, Streams, OutputParser, AllFree, CanStream, PlainMarker;
    OutputFollows(w, fn, f, tools, parallel, required);
    assert forall i :: 0 <= i < |tools| ==> CallStreaming(fn, f, tools[i]) ==> TrimmedTrailing(tools[i].name) != "";
    OutputHarmless(w, fn, f, tools, parallel, required);
    FollowsStreams(OutputParser(w, fn, f, tools, parallel, required));
  }
}
