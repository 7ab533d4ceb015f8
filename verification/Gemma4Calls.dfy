/**
 Gemma4 tool calls: the calls that the grammar of common/chat.cpp and the visitor of
 common/chat-peg-parser.cpp make of a text, and of a text that is still growing.
 */
module Gemma4Calls {
  import opened Text
  import opened MessageDiff
  import opened Gemma4Json
  import opened Gemma4Grammar
  import opened Gemma4Leaves
  import opened Gemma4Growth
  import opened Gemma4Values
  import opened Gemma4Texts
  import opened Gemma4Pieces
  import opened JsonText

  const CallStart := "<|tool_call>call:"
  const CallEnd := "<tool_call|>"

  /** A text in which a call may be shown before it is complete. */
  datatype CallRead = NoCall | Complete(call: ToolCall, rest: string) | Incomplete(shown: Option<ToolCall>)

  /** The name and the opening brace behind it are read at once; the call is shown from then on. */
  function Tool(name: string, s: string): CallRead {
    var named := Exact(name, s);
    if named.Refused? then NoCall
    else if named.Short? || named.rest == "" then Incomplete(None)
    else match Block(DictRule, named.rest)
      case Refused => NoCall
      case Short(nodes) => Incomplete(Some(ToolCall(name, ToJson(nodes[0]), "")))
      case Read(nodes, rest) => Complete(ToolCall(name, ToJson(nodes[0]), ""), rest)
  }

  function AnyTool(names: seq<string>, s: string): CallRead {
    if names == [] then NoCall
    else if Tool(names[0], s).NoCall? then AnyTool(names[1..], s)
    else Tool(names[0], s)
  }

  function OneCall(names: seq<string>, s: string): CallRead {
    var start := Exact(CallStart, s);
    if start.Refused? then NoCall
    else if start.Short? then Incomplete(None)
    else Ended(AnyTool(names, start.rest))
  }

  /** The end marker behind a call; while it is missing the call stays shown. */
  function Ended(r: CallRead): CallRead {
    if !r.Complete? then r else
    match Exact(CallEnd, r.rest)
    case Refused => NoCall
    case Short(_) => Incomplete(Some(r.call))
    case Read(_, rest) => Complete(r.call, rest)
  }

  lemma {:induction false} AnyToolAdvances(names: seq<string>, s: string)
    ensures AnyTool(names, s).Complete? ==> |AnyTool(names, s).rest| <= |s|
  {
    if names != [] && Tool(names[0], s).NoCall? { AnyToolAdvances(names[1..], s); }
  }

  lemma CallAdvances(names: seq<string>, s: string)
    ensures OneCall(names, s).Complete? ==> |OneCall(names, s).rest| < |s|
  {
    var start := Exact(CallStart, s);
    if start.Read? { AnyToolAdvances(names, start.rest); }
  }

  /** The tool calls of a text: the repetition stops in front of what is not a call. */
  function Calls(names: seq<string>, parallel: bool, s: string): seq<ToolCall>
    decreases |s|
  {
    CallAdvances(names, s);
    var r := OneCall(names, s);
    if s == "" || r.NoCall? then []
    else if r.Incomplete? then (if r.shown.Some? then [r.shown.value] else [])
    else [r.call] + if parallel then Calls(names, parallel, r.rest) else []
  }

  function Snapshot(reasoning: string, content: string, names: seq<string>, parallel: bool, s: string): Msg {
    Msg(reasoning, content, Calls(names, parallel, s))
  }

  // ---------------------------------------------------------------- one call

  predicate CallGrows(a: ToolCall, b: ToolCall) { a.name == b.name && a.arguments <= b.arguments && a.id == b.id }

  /** A complete call stays; a shown call grows, unless the longer text is not a call. */
  predicate ReadGrows(rx: CallRead, ry: CallRead, more: string) {
    && (rx.NoCall? ==> ry.NoCall?)
    && (rx.Complete? ==> ry == Complete(rx.call, rx.rest + more))
    && (rx.Incomplete? && rx.shown.Some? ==>
          match ry
          case NoCall => true
          case Complete(call, _) => CallGrows(rx.shown.value, call)
          case Incomplete(shown) => shown.Some? && CallGrows(rx.shown.value, shown.value))
  }

  lemma ToolGrows(name: string, x: string, more: string)
    ensures ReadGrows(Tool(name, x), Tool(name, x + more), more)
  {
    hide Block, ToJson, Exact;
    ExactCloses(name, x, more);
    var named := Exact(name, x);
    if named.Read? && named.rest != "" {
      assert Exact(name, x + more) == Read([], named.rest + more);
      ArgumentsGrow(named.rest, more);
    }
  }

  /** Names of functions do not hold the brace that opens the arguments. */
  predicate Plain(names: seq<string>) { forall i :: 0 <= i < |names| ==> '{' !in names[i] }

  /** A text that names a tool and opens its arguments is not a call of another tool. */
  lemma OtherTool(name: string, other: string, s: string)
    requires name + "{" <= s && '{' !in name && '{' !in other && name != other
    ensures Tool(other, s).NoCall?
  {
    var n, k := |name|, |other|;
    assert s[..n + 1] == name + "{";
    assert s[..n] == name && s[n] == '{';
    if other <= s && k < n {
      assert s[k..][0] == name[k];
      BlockStart(DictRule, s[k..]);
    }
  }

  lemma ToolNames(name: string, s: string)
    ensures var r := Tool(name, s);
            r.Complete? || (r.Incomplete? && r.shown.Some?) ==> name + "{" <= s
  {
    hide ToJson;
    var named := Exact(name, s);
    if named.Read? && named.rest != "" && named.rest[0] != '{' {
      assert Block(DictRule, named.rest).Refused?;
    }
    if named.Read? && named.rest != "" && named.rest[0] == '{' {
      assert s == name + named.rest;
      assert s[..|name| + 1] == name + "{";
    }
  }

  lemma {:induction false} NoOtherTool(name: string, names: seq<string>, s: string)
    requires name + "{" <= s && '{' !in name && Plain(names) && Tool(name, s).NoCall?
    ensures AnyTool(names, s).NoCall?
  {
    hide Tool;
    if names != [] {
      if names[0] != name { OtherTool(name, names[0], s); }
      NoOtherTool(name, names[1..], s);
    }
  }

  lemma {:induction false} AnyToolGrows(names: seq<string>, x: string, more: string)
    requires Plain(names)
    ensures ReadGrows(AnyTool(names, x), AnyTool(names, x + more), more)
  {
    hide Tool;
    if names != [] {
      var name := names[0];
      ToolGrows(name, x, more);
      if Tool(name, x).NoCall? {
        AnyToolGrows(names[1..], x, more);
      } else if Tool(name, x + more).NoCall? {
        ToolNames(name, x);
        if name + "{" <= x {
          assert (x + more)[..|name| + 1] == name + "{";
          NoOtherTool(name, names[1..], x + more);
        }
      }
    }
  }

  lemma EndedGrows(rx: CallRead, ry: CallRead, more: string)
    requires ReadGrows(rx, ry, more)
    ensures ReadGrows(Ended(rx), Ended(ry), more)
  {
    if rx.Complete? { ExactCloses(CallEnd, rx.rest, more); }
  }

  lemma OneCallGrows(names: seq<string>, x: string, more: string)
    requires Plain(names)
    ensures ReadGrows(OneCall(names, x), OneCall(names, x + more), more)
  {
    hide AnyTool, Ended;
    ExactCloses(CallStart, x, more);
    var start := Exact(CallStart, x);
    if start.Read? {
      AnyToolGrows(names, start.rest, more);
      EndedGrows(AnyTool(names, start.rest), AnyTool(names, start.rest + more), more);
    }
  }

  // ---------------------------------------------------------------- all calls

  /** The text of the last call when that call is shown but not complete. */
  function OpenCall(names: seq<string>, parallel: bool, s: string): (r: Option<string>)
    decreases |s|
  {
    CallAdvances(names, s);
    var r := OneCall(names, s);
    if s == "" || r.NoCall? then None
    else if r.Incomplete? then (if r.shown.Some? then Some(s) else None)
    else if parallel then OpenCall(names, parallel, r.rest) else None
  }

  /** The longer text is no longer a call where a call was shown. */
  predicate Broken(names: seq<string>, parallel: bool, x: string, more: string) {
    var open := OpenCall(names, parallel, x);
    open.Some? && OneCall(names, open.value + more).NoCall?
  }

  /** When the open call is broken the calls before it are all that is left, otherwise the last call grows. */
  predicate CallsGrow(a: seq<ToolCall>, b: seq<ToolCall>, broken: bool) {
    if broken then a != [] && b == a[..|a| - 1]
    else |a| <= |b| && (a != [] ==> var k := |a| - 1; a[..k] == b[..k] && CallGrows(a[k], b[k]))
  }

  lemma CallsGrowAfter(c: ToolCall, a: seq<ToolCall>, b: seq<ToolCall>, broken: bool)
    requires CallsGrow(a, b, broken)
    ensures CallsGrow([c] + a, [c] + b, broken)
  {
    if a != [] {
      var k := |a| - 1;
      assert ([c] + a)[..k + 1] == [c] + a[..k];
      if !broken { assert ([c] + b)[..k + 1] == [c] + b[..k]; }
    }
  }

  lemma {:induction false} CallsRelate(names: seq<string>, parallel: bool, x: string, more: string)
    requires Plain(names)
    ensures CallsGrow(Calls(names, parallel, x), Calls(names, parallel, x + more), Broken(names, parallel, x, more))
    decreases |x|
  {
    hide OneCall;
    var y := x + more;
    if x != "" {
      OneCallGrows(names, x, more);
      CallAdvances(names, x);
      var rx, ry := OneCall(names, x), OneCall(names, y);
      if rx.Complete? && parallel {
        CallsRelate(names, parallel, rx.rest, more);
        CallsGrowAfter(rx.call, Calls(names, parallel, rx.rest), Calls(names, parallel, rx.rest + more),
                       Broken(names, parallel, x, more));
      }
    }
  }

  /**
   A later snapshot extends an earlier one, so that its deltas rebuild it, if and only if the call
   that the earlier text leaves open is still a call in the longer text; otherwise the call
   disappears and the differ throws.
   */
  lemma CallsStreamExactly(reasoning: string, content: string, names: seq<string>, parallel: bool, x: string,
                           more: string)
    requires Plain(names)
    ensures var a := Snapshot(reasoning, content, names, parallel, x);
            var b := Snapshot(reasoning, content, names, parallel, x + more);
            if Broken(names, parallel, x, more) then Diffs(a, b) == Err(FewerToolCalls)
            else Extends(a, b) && Diffs(a, b).Ok? && ApplyAll(a, Diffs(a, b).value) == b
  {
    hide Broken, ApplyAll;
    var a := Snapshot(reasoning, content, names, parallel, x);
    var b := Snapshot(reasoning, content, names, parallel, x + more);
    CallsRelate(names, parallel, x, more);
    if !Broken(names, parallel, x, more) {
      DiffRebuildsExactly(a, b);
    }
  }

  /** A tool is read behind the start marker and its name. */
  lemma NamedCall(name: string, args: string)
    requires args != ""
    ensures OneCall([name], CallStart + (name + args)) == Ended(Tool(name, name + args))
    ensures Block(DictRule, args).Refused? ==> Tool(name, name + args).NoCall?
    ensures Block(DictRule, args).Short? ==>
              Tool(name, name + args) == Incomplete(Some(ToolCall(name, ToJson(Block(DictRule, args).nodes[0]), "")))
  {
    hide CallStart, Block, ToJson, Exact;
    var s := CallStart + (name + args);
    assert s[|CallStart|..] == name + args && (name + args)[|name|..] == args;
    assert CallStart <= s && name <= name + args;
    assert [name][1..] == [] && AnyTool([], name + args) == NoCall;
    assert AnyTool([name], name + args) == Tool(name, name + args);
  }

  /** A concrete text whose call disappears: no key starts with a colon. */
  lemma BrokenCallThrows()
    ensures var x := CallStart + "f{";
            Diffs(Snapshot("", "", ["f"], false, x), Snapshot("", "", ["f"], false, x + ":")) == Err(FewerToolCalls)
  {
    hide CallStart, OneCall, Block, Diffs, Snapshot, ToJson, Tool, Ended;
    var x, y := CallStart + ("f" + "{"), CallStart + ("f" + "{:");
    OpenBrace();
    ColonRefused();
    NamedCall("f", "{");
    NamedCall("f", "{:");
    EndedIs(Tool("f", "f{"));
    EndedIs(Tool("f", "f{:"));
    assert x + ":" == y;
    assert "f" + "{" == "f{" && "f" + "{:" == "f{:";
    assert OneCall(["f"], x) == Tool("f", "f{") && OneCall(["f"], y) == Tool("f", "f{:");
    assert OpenCall(["f"], false, x) == Some(x);
    CallsStreamExactly("", "", ["f"], false, x, ":");
  }

  lemma EndedIs(r: CallRead)
    ensures !r.Complete? ==> Ended(r) == r
  {
  }

  lemma OpenBrace()
    ensures Block(DictRule, "{").Short?
  {
    assert Exact("}", "").Short?;
  }

  lemma ColonRefused()
    ensures Block(DictRule, "{:").Refused?
  {
    assert "{:"[1..] == ":";
    assert Exact("}", ":").Refused?;
    assert Element(DictRule, ":").Refused?;
  }

  // ---------------------------------------------------------------- complete calls

  /** The arguments of every complete call, in any text, are the balanced JSON print of a dictionary. */
  lemma {:induction false} CompleteArguments(names: seq<string>, s: string) returns (v: Value)
    requires AnyTool(names, s).Complete?
    ensures v.Dict? && IsValue(v) && AnyTool(names, s).call.arguments == Print(v) && BraceDepth(Print(v)) == 0
    ensures AnyTool(names, s).call.name in names
  {
    hide Block, ToJson, Print, SpellsInner, IsValue, BraceDepth;
    var named := Exact(names[0], s);
    if Tool(names[0], s).NoCall? {
      v := CompleteArguments(names[1..], s);
    } else {
      v := ArgumentsSpell(named.rest);
      DictSpelled(named.rest, v);
    }
  }

  lemma DictSpelled(s: string, v: Value)
    requires Block(DictRule, s).Read? && |Block(DictRule, s).nodes| == 1
    requires SpellsInner(Block(DictRule, s).nodes[0], v)
    ensures v.Dict?
  {
  }

  datatype Request = Request(name: string, members: seq<Member>)

  function RequestText(r: Request): string { CallStart + (r.name + (Render(Dict(r.members)) + CallEnd)) }

  function RequestTexts(rs: seq<Request>): string {
    if rs == [] then "" else RequestText(rs[0]) + RequestTexts(rs[1..])
  }

  function Requested(rs: seq<Request>): seq<ToolCall> {
    if rs == [] then [] else [ToolCall(rs[0].name, Print(Dict(rs[0].members)), "")] + Requested(rs[1..])
  }

  lemma ToolReads(r: Request, rest: string)
    requires Printable(Dict(r.members))
    ensures Tool(r.name, r.name + (Render(Dict(r.members)) + rest))
         == Complete(ToolCall(r.name, Print(Dict(r.members)), ""), rest)
  {
    hide Block, Printable, Render, ToJson, Print;
    var args := Render(Dict(r.members)) + rest;
    ArgumentsRoundTrip(r.members, rest);
    RenderOpens(r.members);
    assert (r.name + args)[|r.name|..] == args;
  }

  lemma RenderOpens(members: seq<Member>)
    ensures "{" <= Render(Dict(members))
  {
  }

  lemma {:induction false} AnyToolReads(names: seq<string>, r: Request, rest: string)
    requires Plain(names) && r.name in names && Printable(Dict(r.members))
    ensures AnyTool(names, r.name + (Render(Dict(r.members)) + rest))
         == Complete(ToolCall(r.name, Print(Dict(r.members)), ""), rest)
  {
    hide Tool, Printable, Render, Print;
    var s := r.name + (Render(Dict(r.members)) + rest);
    if names[0] == r.name {
      ToolReads(r, rest);
    } else {
      RenderOpens(r.members);
      assert s[..|r.name| + 1] == r.name + "{";
      OtherTool(r.name, names[0], s);
      assert r.name in names[1..];
      AnyToolReads(names[1..], r, rest);
    }
  }

  lemma RequestReads(names: seq<string>, r: Request, rest: string)
    requires Plain(names) && r.name in names && Printable(Dict(r.members))
    ensures OneCall(names, RequestText(r) + rest) == Complete(ToolCall(r.name, Print(Dict(r.members)), ""), rest)
  {
    hide AnyTool, Printable, Render, Print, CallStart, CallEnd;
    var s, named := RequestText(r) + rest, r.name + (Render(Dict(r.members)) + (CallEnd + rest));
    assert s == CallStart + named;
    assert CallStart <= s && s[|CallStart|..] == named;
    AnyToolReads(names, r, CallEnd + rest);
    assert CallEnd <= CallEnd + rest && (CallEnd + rest)[|CallEnd|..] == rest;
  }

  /** Printed calls are read back in order, each with the JSON of its arguments. */
  lemma {:induction false} CallsRoundTrip(names: seq<string>, rs: seq<Request>)
    requires Plain(names) && forall i :: 0 <= i < |rs| ==> rs[i].name in names && Printable(Dict(rs[i].members))
    ensures Calls(names, true, RequestTexts(rs)) == Requested(rs)
    decreases |rs|
  {
    hide OneCall, Printable, Print, RequestText;
    if rs != [] {
      RequestReads(names, rs[0], RequestTexts(rs[1..]));
      CallAdvances(names, RequestTexts(rs));
      CallsRoundTrip(names, rs[1..]);
    }
  }

  /** Without parallel calls only the first one is read. */
  lemma FirstCallOnly(names: seq<string>, r: Request, rest: string)
    requires Plain(names) && r.name in names && Printable(Dict(r.members))
    ensures Calls(names, false, RequestText(r) + rest) == [ToolCall(r.name, Print(Dict(r.members)), "")]
  {
    hide OneCall, Printable, Print, RequestText;
    RequestReads(names, r, rest);
    CallAdvances(names, RequestText(r) + rest);
  }

  /** A call whose arguments stop somewhere is shown with exactly the JSON of what was read of them. */
  lemma {:induction false} StoppedCallShows(names: seq<string>, parallel: bool, rs: seq<Request>, name: string,
                                            members: seq<Member>, last: MemberPiece)
    requires Plain(names) && forall i :: 0 <= i < |rs| ==> rs[i].name in names && Printable(Dict(rs[i].members))
    requires name in names && Printable(Dict(members)) && IsMemberPiece(last) && (rs != [] ==> parallel)
    ensures var c := OpenDict(members, last);
            Calls(names, parallel, RequestTexts(rs) + (CallStart + (name + PieceText(c)))) ==
            Requested(rs) + [ToolCall(name, PieceJson(c), "")]
    decreases |rs|
  {
    hide OneCall, Printable, Print, RequestText, IsMemberPiece, PieceText, PieceJson, CallStart;
    var text := CallStart + (name + PieceText(OpenDict(members, last)));
    if rs == [] {
      assert RequestTexts(rs) + text == text;
      OpenArgumentsRead(names, name, members, last);
      assert text != "";
    } else {
      var rest := RequestTexts(rs[1..]) + text;
      assert RequestTexts(rs) + text == RequestText(rs[0]) + rest;
      RequestReads(names, rs[0], rest);
      CallAdvances(names, RequestText(rs[0]) + rest);
      StoppedCallShows(names, parallel, rs[1..], name, members, last);
      Associates(ToolCall(rs[0].name, Print(Dict(rs[0].members)), ""), Requested(rs[1..]),
                 ToolCall(name, PieceJson(OpenDict(members, last)), ""));
    }
  }

  lemma Associates(first: ToolCall, others: seq<ToolCall>, last: ToolCall)
    ensures [first] + others + [last] == [first] + (others + [last])
  {
  }

  lemma OpenArgumentsRead(names: seq<string>, name: string, members: seq<Member>, last: MemberPiece)
    requires Plain(names) && name in names && Printable(Dict(members)) && IsMemberPiece(last)
    ensures var c := OpenDict(members, last);
            var s := CallStart + (name + PieceText(c));
            s != "" && OneCall(names, s) == Incomplete(Some(ToolCall(name, PieceJson(c), "")))
  {
    hide AnyTool, Printable, IsMemberPiece, PieceText, PieceJson, CallStart;
    var named := name + PieceText(OpenDict(members, last));
    var s := CallStart + named;
    assert CallStart <= s && s[|CallStart|..] == named;
    AnyToolStops(names, name, members, last);
    PieceOpens(members, last);
  }

  lemma PieceOpens(members: seq<Member>, last: MemberPiece)
    ensures "{" <= PieceText(OpenDict(members, last))
  {
  }

  lemma {:induction false} AnyToolStops(names: seq<string>, name: string, members: seq<Member>, last: MemberPiece)
    requires Plain(names) && name in names && Printable(Dict(members)) && IsMemberPiece(last)
    ensures var c := OpenDict(members, last);
            AnyTool(names, name + PieceText(c)) == Incomplete(Some(ToolCall(name, PieceJson(c), "")))
  {
    hide Tool, Printable, IsMemberPiece, PieceText, PieceJson;
    var args := PieceText(OpenDict(members, last));
    PieceOpens(members, last);
    if names[0] == name {
      ToolStops(name, members, last);
    } else {
      assert (name + args)[..|name| + 1] == name + "{";
      OtherTool(name, names[0], name + args);
      assert name in names[1..];
      AnyToolStops(names[1..], name, members, last);
    }
  }

  lemma ToolStops(name: string, members: seq<Member>, last: MemberPiece)
    requires Printable(Dict(members)) && IsMemberPiece(last)
    ensures var c := OpenDict(members, last);
            Tool(name, name + PieceText(c)) == Incomplete(Some(ToolCall(name, PieceJson(c), "")))
  {
    hide Block, Printable, IsMemberPiece, PieceText, PieceJson, ToJson;
    var args := PieceText(OpenDict(members, last));
    PieceOpens(members, last);
    DictShows(members, last);
    assert name <= name + args && (name + args)[|name|..] == args;
  }
}
