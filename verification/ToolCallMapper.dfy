/**
 `common_chat_peg_mapper` of common/chat-peg-parser.cpp: the state machine that turns
 the tagged nodes of a parse, in visiting order, into a chat message. The class updates
 its fields as the source does; `Step` and `Finish` give the same machine as functions
 on a state value, for the lemmas of the other modules.
 */
module ToolCallMapper {
  import opened Text
  import JsonText
  import QuoteNormalizer
  import opened MessageDiff

  datatype Tag =
    | Reasoning | Content
    | ToolOpen | ToolClose | ToolName | ToolId | ToolArgs
    | ArgOpen | ArgClose | ArgName | ArgValue | ArgStringValue
    | OtherTag

  datatype Event = Event(tag: Tag, text: string)

  /** Where `current_tool` points: nowhere, at the pending call, or at the last call of the result. */
  datatype Cursor = NoCall | PendingCall | LastCall

  datatype State = State(msg: Msg, pending: Option<ToolCall>, cursor: Cursor,
                         argCount: nat, quotePending: bool, buffer: string)

  const INIT := State(EMPTY_MSG, None, NoCall, 0, false, "")

  /** The pending call exists exactly while the cursor is on it, and it never has a name. */
  predicate Valid(st: State) {
    && (st.pending.Some? <==> st.cursor == PendingCall)
    && (st.pending.Some? ==> st.pending.value.name == "")
    && (st.cursor == LastCall ==> st.msg.toolCalls != [])
  }

  // ---------------------------------------------------------------- reading and writing through the cursor

  function Current(st: State): ToolCall
    requires Valid(st) && st.cursor != NoCall
  {
    if st.cursor == PendingCall then st.pending.value else st.msg.toolCalls[|st.msg.toolCalls| - 1]
  }

  function WithLast(m: Msg, call: ToolCall): Msg
    requires m.toolCalls != []
  {
    m.(toolCalls := m.toolCalls[|m.toolCalls| - 1 := call])
  }

  function WithCurrent(st: State, call: ToolCall): State
    requires Valid(st) && st.cursor != NoCall
  {
    if st.cursor == PendingCall then st.(pending := Some(call)) else st.(msg := WithLast(st.msg, call))
  }

  /** Arguments go to the current call once it is named and to the buffer before that. */
  predicate Direct(st: State)
    requires Valid(st)
  {
    st.cursor != NoCall && Current(st).name != ""
  }

  function Target(st: State): string
    requires Valid(st)
  {
    if Direct(st) then Current(st).arguments else st.buffer
  }

  function WithTarget(st: State, args: string): State
    requires Valid(st)
  {
    if Direct(st) then WithCurrent(st, Current(st).(arguments := args)) else st.(buffer := args)
  }

  // ---------------------------------------------------------------- texts the handlers compute

  function IdText(text: string): string {
    var t := TrimmedTrailing(text);
    if |t| >= 2 && t[0] == '"' && t[|t| - 1] == '"' then t[1..|t| - 1] else t
  }

  /** The source's `trim`: at most one leading space, every trailing one. */
  function Trimmed(text: string): string { TrimmedTrailing(TrimmedLeading(text, 1)) }

  /** A value loses at most one space on either side. */
  function ValueText(text: string): string { TrimmedTrailing(TrimmedLeading(text, 1), 1) }

  function ArgEntry(argCount: nat, name: string): string {
    (if argCount > 0 then "," else "") + JsonText.Dump(Trimmed(name)) + ":"
  }

  predicate IsContainer(value: string) {
    value != "" && (value[0] == '[' || value[0] == '{')
  }

  /** A JSON value as it is appended: containers have their quotes normalised. */
  function RenderedJson(value: string): string {
    if IsContainer(value) then QuoteNormalizer.Normalized(value) else value
  }

  /** What an argument value of either kind appends; only the string kind opens a quote. */
  function ValueToAdd(isString: bool, quotePending: bool, value: string): string {
    if !isString then RenderedJson(value)
    else if value == "" then "\""
    else (if quotePending then "" else "\"") + JsonText.Escaped(value)
  }

  function ClosingBraces(args: string): string {
    var d := JsonText.BraceDepth(args);
    JsonText.Repeat('}', if d > 0 then d else 0)
  }

  // ---------------------------------------------------------------- the machine

  function OpenStep(st: State): State {
    State(st.msg, Some(EMPTY_CALL), PendingCall, 0, false, "")
  }

  function NamedCall(st: State, text: string): ToolCall
    requires Valid(st) && st.cursor != NoCall
  {
    var call := Current(st);
    ToolCall(TrimmedTrailing(text),
             if st.buffer != "" then st.buffer else if call.arguments == "" then "{" else call.arguments,
             call.id)
  }

  function NameStep(st: State, text: string): State
    requires Valid(st) && st.cursor != NoCall
  {
    var call := NamedCall(st, text);
    if st.cursor == PendingCall
    then st.(msg := st.msg.(toolCalls := st.msg.toolCalls + [call]), pending := None, cursor := LastCall, buffer := "")
    else st.(msg := WithLast(st.msg, call), buffer := "")
  }

  function ArgsStep(st: State, text: string): State
    requires Valid(st)
  {
    var t := TrimmedTrailing(text);
    if t != "" && t[0] == '{' then WithTarget(st, t) else st
  }

  function ArgNameStep(st: State, text: string): State
    requires Valid(st)
  {
    var target := if Target(st) == "" then "{" else Target(st);
    WithTarget(st, target + ArgEntry(st.argCount, text)).(argCount := st.argCount + 1)
  }

  function ValueStep(st: State, isString: bool, text: string): State
    requires Valid(st)
  {
    WithTarget(st, Target(st) + ValueToAdd(isString, st.quotePending, ValueText(text)))
      .(quotePending := st.quotePending || isString)
  }

  function ArgCloseStep(st: State): State
    requires Valid(st)
  {
    if st.quotePending then WithTarget(st, Target(st) + "\"").(quotePending := false) else st
  }

  /** The arguments with which a call is closed. */
  function ClosedArguments(st: State): string
    requires Valid(st) && st.cursor != NoCall
  {
    var call := Current(st);
    var flushed := if call.name == "" && st.buffer != "" then st.buffer else call.arguments;
    var quoted := if st.quotePending then flushed + "\"" else flushed;
    quoted + ClosingBraces(quoted)
  }

  function CloseStep(st: State): State
    requires Valid(st) && st.cursor != NoCall
  {
    var call := Current(st);
    var buffer := if call.name == "" && st.buffer != "" then "" else st.buffer;
    if st.cursor == PendingCall
    then st.(pending := None, cursor := NoCall, quotePending := false, buffer := buffer)
    else st.(msg := WithLast(st.msg, call.(arguments := ClosedArguments(st))), quotePending := false, buffer := buffer)
  }

  /** Nodes that are ignored while there is no current call. */
  predicate TouchesCall(tag: Tag) {
    tag in {ToolId, ToolName, ToolArgs, ArgName, ArgValue, ArgStringValue, ArgClose, ToolClose}
  }

  function CallStep(st: State, e: Event): (r: State)
    requires Valid(st) && st.cursor != NoCall
    ensures Valid(r)
  {
    match e.tag
    case ToolId => WithCurrent(st, Current(st).(id := IdText(e.text)))
    case ToolName => NameStep(st, e.text)
    case ToolArgs => ArgsStep(st, e.text)
    case ArgName => ArgNameStep(st, e.text)
    case ArgValue => ValueStep(st, false, e.text)
    case ArgStringValue => ValueStep(st, true, e.text)
    case ArgClose => ArgCloseStep(st)
    case ToolClose => CloseStep(st)
    case _ => st
  }

  function Step(st: State, e: Event): (r: State)
    requires Valid(st)
    ensures Valid(r)
  {
    if TouchesCall(e.tag) then
      if st.cursor == NoCall then st else CallStep(st, e)
    else match e.tag
      case Reasoning => st.(msg := st.msg.(reasoning := st.msg.reasoning + e.text))
      case Content => st.(msg := st.msg.(content := st.msg.content + e.text))
      case ToolOpen => OpenStep(st)
      case ArgOpen => st.(quotePending := false)
      case _ => st
  }

  function Run(st: State, es: seq<Event>): (r: State)
    requires Valid(st)
    ensures Valid(r)
    decreases |es|
  {
    if es == [] then st else Run(Step(st, es[0]), es[1..])
  }

  predicate IsBlank(s: string) {
    forall i :: 0 <= i < |s| ==> s[i] == ' ' || s[i] == '\n' || s[i] == '\r' || s[i] == '\t'
  }

  /** Whitespace-only reasoning is dropped. */
  function Finish(st: State): Msg {
    if IsBlank(st.msg.reasoning) then st.msg.(reasoning := "") else st.msg
  }

  function Snapshot(es: seq<Event>): Msg { Finish(Run(INIT, es)) }

  lemma {:induction false} RunAppend(st: State, a: seq<Event>, b: seq<Event>)
    requires Valid(st)
    ensures Run(st, a + b) == Run(Run(st, a), b)
    decreases |a|
  {
    if a == [] {
      assert a + b == b;
    } else {
      assert (a + b)[1..] == a[1..] + b;
      RunAppend(Step(st, a[0]), a[1..], b);
    }
  }

  lemma RunOne(st: State, e: Event)
    requires Valid(st)
    ensures Run(st, [e]) == Step(st, e)
  {
    assert [e][1..] == [];
    assert Run(Step(st, e), []) == Step(st, e);
  }

  // ---------------------------------------------------------------- what a message holds

  /** The texts of the nodes with this tag, in their order. */
  function TextsOf(es: seq<Event>, tag: Tag): string {
    if es == [] then "" else (if es[0].tag == tag then es[0].text else "") + TextsOf(es[1..], tag)
  }

  lemma CallStepTexts(st: State, e: Event)
    requires Valid(st) && st.cursor != NoCall
    ensures var m := CallStep(st, e).msg; m.content == st.msg.content && m.reasoning == st.msg.reasoning
  {
    hide Trimmed, ValueText, IdText, ValueToAdd, ArgEntry, ClosedArguments, NamedCall;
  }

  lemma StepTexts(st: State, e: Event)
    requires Valid(st)
    ensures var m := Step(st, e).msg;
            && m.content == st.msg.content + TextsOf([e], Content)
            && m.reasoning == st.msg.reasoning + TextsOf([e], Reasoning)
  {
    hide CallStep;
    if TouchesCall(e.tag) && st.cursor != NoCall { CallStepTexts(st, e); }
    assert [e][1..] == [];
    assert TextsOf([e], Content) == (if e.tag == Content then e.text else "") + "";
    assert TextsOf([e], Reasoning) == (if e.tag == Reasoning then e.text else "") + "";
  }

  /** In every run the content grows by the texts of the content nodes, and the reasoning by those of its own. */
  lemma {:induction false} RunTexts(st: State, es: seq<Event>)
    requires Valid(st)
    ensures var m := Run(st, es).msg;
            && m.content == st.msg.content + TextsOf(es, Content)
            && m.reasoning == st.msg.reasoning + TextsOf(es, Reasoning)
    decreases |es|
  {
    hide Step;
    if es != [] {
      StepTexts(st, es[0]);
      assert [es[0]][1..] == [];
      RunTexts(Step(st, es[0]), es[1..]);
      TextsFirst(es, Content);
      TextsFirst(es, Reasoning);
      Associate(st.msg.content, TextsOf([es[0]], Content), TextsOf(es[1..], Content));
      Associate(st.msg.reasoning, TextsOf([es[0]], Reasoning), TextsOf(es[1..], Reasoning));
    }
  }

  lemma TextsFirst(es: seq<Event>, tag: Tag)
    requires es != []
    ensures TextsOf(es, tag) == TextsOf([es[0]], tag) + TextsOf(es[1..], tag)
  {
    assert [es[0]][1..] == [];
  }

  lemma Associate(a: string, b: string, c: string)
    ensures a + b + c == a + (b + c)
  {
  }

  /** A snapshot shows all content, and all reasoning unless that holds only whitespace of four kinds. */
  lemma SnapshotTexts(es: seq<Event>)
    ensures var m, r := Snapshot(es), TextsOf(es, Reasoning);
            && m.content == TextsOf(es, Content) && m.toolCalls == Run(INIT, es).msg.toolCalls
            && m.reasoning == if forall i :: 0 <= i < |r| ==> r[i] in " \n\r\t" then "" else r
  {
    hide Run;
    RunTexts(INIT, es);
    var r := TextsOf(es, Reasoning);
    assert "" + r == r && "" + TextsOf(es, Content) == TextsOf(es, Content);
    assert forall c :: c in " \n\r\t" <==> c == ' ' || c == '\n' || c == '\r' || c == '\t';
  }

  // ---------------------------------------------------------------- what the handlers take of a text

  predicate EndsInSpace(s: string) { s != "" && IsSpace(s[|s| - 1]) }

  predicate Quoted(s: string) { |s| >= 2 && s[0] == '"' && s[|s| - 1] == '"' }

  lemma {:induction false} TrailingSpaceGoes(core: string, spaces: string)
    requires !EndsInSpace(core) && AllSpace(spaces)
    ensures TrimmedTrailing(core + spaces) == core
    decreases |spaces|
  {
    if spaces == "" {
      assert core + spaces == core;
    } else {
      var n := |spaces| - 1;
      assert (core + spaces)[..|core| + n] == core + spaces[..n];
      TrailingSpaceGoes(core, spaces[..n]);
    }
  }

  /** The current call takes the id without trailing whitespace and one pair of quotes around it. */
  lemma IdIsRead(st: State, core: string, spaces: string)
    requires Valid(st) && st.cursor != NoCall && !EndsInSpace(core) && AllSpace(spaces)
    ensures var next := Step(st, Event(ToolId, core + spaces));
            && next.cursor == st.cursor
            && (!Quoted(core) ==> Current(next) == Current(st).(id := core))
            && (Quoted(core) ==> "\"" + Current(next).id + "\"" == core)
            && Current(next) == Current(st).(id := Current(next).id)
  {
    TrailingSpaceGoes(core, spaces);
    hide TrimmedTrailing;
    IdOf(core, spaces);
    var next := WithCurrent(st, Current(st).(id := IdText(core + spaces)));
    assert Step(st, Event(ToolId, core + spaces)) == next;
    assert Current(next) == Current(st).(id := IdText(core + spaces));
  }

  lemma IdOf(core: string, spaces: string)
    requires TrimmedTrailing(core + spaces) == core
    ensures if Quoted(core) then "\"" + IdText(core + spaces) + "\"" == core else IdText(core + spaces) == core
  {
    hide TrimmedTrailing;
    if Quoted(core) {
      assert core == "\"" + core[1..|core| - 1] + "\"";
    }
  }

  predicate StartsInSpace(s: string) { s != "" && IsSpace(s[0]) }

  /** A name in the arguments loses one space in front and all whitespace behind. */
  lemma NameIsTrimmed(core: string, lead: string, spaces: string)
    requires !EndsInSpace(core) && AllSpace(spaces) && |lead| <= 1 && AllSpace(lead)
    requires lead == "" ==> !StartsInSpace(core + spaces)
    ensures Trimmed(lead + core + spaces) == core
  {
    assert lead + core + spaces == lead + (core + spaces);
    LeadGoes(lead, core + spaces);
    TrailingSpaceGoes(core, spaces);
  }

  lemma LeadGoes(lead: string, rest: string)
    requires |lead| <= 1 && AllSpace(lead) && (lead == "" ==> !StartsInSpace(rest))
    ensures TrimmedLeading(lead + rest, 1) == rest
  {
    if lead == "" {
      assert lead + rest == rest;
    } else {
      assert (lead + rest)[1..] == rest;
    }
  }

  /** A value loses at most one space on either side. */
  lemma ValueIsTrimmed(core: string, lead: string, trail: string)
    requires |lead| <= 1 && AllSpace(lead) && |trail| <= 1 && AllSpace(trail)
    requires (lead == "" ==> !StartsInSpace(core + trail)) && (trail == "" ==> !EndsInSpace(core))
    ensures ValueText(lead + core + trail) == core
  {
    assert lead + core + trail == lead + (core + trail);
    LeadGoes(lead, core + trail);
    if trail == "" {
      assert core + trail == core;
    } else {
      assert (core + trail)[..|core|] == core;
    }
  }

  // ---------------------------------------------------------------- calls with their arguments in one node

  /** The nodes of a call whose arguments are one JSON object, in front of the name or behind it. */
  function JsonCall(name: string, args: string, early: bool): seq<Event> {
    [Event(ToolOpen, "")]
    + (if early then [Event(ToolArgs, args), Event(ToolName, name)] else [Event(ToolName, name), Event(ToolArgs, args)])
    + [Event(ToolClose, "")]
  }

  /**
   Arguments that are one node are taken whole, without the whitespace behind them, when they start with
   a brace, and ignored otherwise. Braces that are still open are closed.
   */
  lemma JsonCallRuns(st: State, name: string, core: string, spaces: string, early: bool)
    requires Valid(st) && TrimmedTrailing(name) != "" && !EndsInSpace(core) && AllSpace(spaces)
    ensures var args := if core != "" && core[0] == '{' then core else "{";
            Run(st, JsonCall(name, core + spaces, early)).msg
              == st.msg.(toolCalls := st.msg.toolCalls
                   + [ToolCall(TrimmedTrailing(name), args + ClosingBraces(args), "")])
  {
    hide ClosingBraces, TrimmedTrailing, CallStep;
    var open, named, args, close :=
      Event(ToolOpen, ""), Event(ToolName, name), Event(ToolArgs, core + spaces), Event(ToolClose, "");
    var second, third := if early then args else named, if early then named else args;
    assert JsonCall(name, core + spaces, early) == [open, second, third, close];
    RunFour(st, open, second, third, close);
    var text := if core != "" && core[0] == '{' then core else "{";
    var base, s1 := st.msg, Step(st, open);
    assert s1 == OpenStep(st);
    if early { EarlyArgs(s1, name, core, spaces); } else { LateArgs(s1, name, core, spaces); }
    CloseNamed(Step(Step(s1, second), third), base, TrimmedTrailing(name), text);
  }

  /** An open call without a name and without arguments. */
  predicate JustOpened(st: State) {
    st.pending == Some(EMPTY_CALL) && st.cursor == PendingCall && st.buffer == "" && !st.quotePending
  }

  /** A named call with these arguments behind the calls of `base`. */
  predicate HasCall(st: State, base: Msg, name: string, args: string) {
    && Valid(st) && st.cursor == LastCall && !st.quotePending && st.buffer == ""
    && st.msg == base.(toolCalls := base.toolCalls + [ToolCall(name, args, "")])
  }

  lemma EarlyArgs(st: State, name: string, core: string, spaces: string)
    requires Valid(st) && JustOpened(st) && TrimmedTrailing(name) != "" && !EndsInSpace(core) && AllSpace(spaces)
    ensures HasCall(Step(Step(st, Event(ToolArgs, core + spaces)), Event(ToolName, name)), st.msg,
        TrimmedTrailing(name),
                    if core != "" && core[0] == '{' then core else "{")
  {
    TrailingSpaceGoes(core, spaces);
    hide TrimmedTrailing;
    var s := Step(st, Event(ToolArgs, core + spaces));
    assert s == if core != "" && core[0] == '{' then st.(buffer := core) else st;
  }

  lemma LateArgs(st: State, name: string, core: string, spaces: string)
    requires Valid(st) && JustOpened(st) && TrimmedTrailing(name) != "" && !EndsInSpace(core) && AllSpace(spaces)
    ensures HasCall(Step(Step(st, Event(ToolName, name)), Event(ToolArgs, core + spaces)), st.msg,
        TrimmedTrailing(name),
                    if core != "" && core[0] == '{' then core else "{")
  {
    TrailingSpaceGoes(core, spaces);
    hide TrimmedTrailing;
    ArgsOfNamed(Step(st, Event(ToolName, name)), st.msg, TrimmedTrailing(name), core, spaces);
  }

  lemma ArgsOfNamed(st: State, base: Msg, name: string, core: string, spaces: string)
    requires HasCall(st, base, name, "{") && name != "" && TrimmedTrailing(core + spaces) == core
    ensures HasCall(Step(st, Event(ToolArgs, core + spaces)), base, name,
                    if core != "" && core[0] == '{' then core else "{")
  {
    hide TrimmedTrailing;
    var calls, next := st.msg.toolCalls, ToolCall(name, core, "");
    assert calls[|calls| - 1 := next] == base.toolCalls + [next];
  }

  lemma CloseNamed(st: State, base: Msg, name: string, args: string)
    requires HasCall(st, base, name, args) && name != ""
    ensures Step(st, Event(ToolClose, "")).msg
         == base.(toolCalls := base.toolCalls + [ToolCall(name, args + ClosingBraces(args), "")])
  {
    hide ClosingBraces;
    var calls, closed := st.msg.toolCalls, ToolCall(name, args + ClosingBraces(args), "");
    assert calls[|calls| - 1 := closed] == base.toolCalls + [closed];
  }

  lemma RunFour(st: State, a: Event, b: Event, c: Event, d: Event)
    requires Valid(st)
    ensures Run(st, [a, b, c, d]) == Step(Step(Step(Step(st, a), b), c), d)
  {
    hide Step;
    assert [a, b, c, d] == [a] + ([b] + ([c] + [d]));
    RunAppend(st, [a], [b] + ([c] + [d]));
    RunOne(st, a);
    RunAppend(Step(st, a), [b], [c] + [d]);
    RunOne(Step(st, a), b);
    RunAppend(Step(Step(st, a), b), [c], [d]);
    RunOne(Step(Step(st, a), b), c);
    RunOne(Step(Step(Step(st, a), b), c), d);
  }

  /** The depth that is closed counts braces outside strings. */
  lemma OpenBracesClose(args: string)
    ensures var d := JsonText.BraceDepth(args);
            |ClosingBraces(args)| == (if d > 0 then d else 0) && forall i :: 0 <= i < |ClosingBraces(args)| ==>
              ClosingBraces(args)[i] == '}'
  {
    RepeatHolds('}', if JsonText.BraceDepth(args) > 0 then JsonText.BraceDepth(args) else 0);
  }

  lemma {:induction false} RepeatHolds(c: char, n: nat)
    ensures |JsonText.Repeat(c, n)| == n && forall i :: 0 <= i < n ==> JsonText.Repeat(c, n)[i] == c
    decreases n
  {
    if n > 0 { RepeatHolds(c, n - 1); }
  }

  // ---------------------------------------------------------------- calls without a name

  /** Nodes inside a call, other than its name. */
  predicate Nameless(es: seq<Event>) {
    forall i :: 0 <= i < |es| ==> es[i].tag !in {ToolOpen, ToolClose, ToolName, Content, Reasoning}
  }

  lemma {:induction false} NamelessRuns(st: State, es: seq<Event>)
    requires Valid(st) && st.cursor == PendingCall && Nameless(es)
    ensures var r := Run(st, es); r.cursor == PendingCall && r.msg == st.msg
    decreases |es|
  {
    hide ValueText, ValueToAdd, ArgEntry, IdText, TrimmedTrailing;
    if es != [] {
      assert es[0].tag !in {ToolOpen, ToolClose, ToolName, Content, Reasoning};
      NamelessRuns(Step(st, es[0]), es[1..]);
    }
  }

  /** A call that is closed before its name was read leaves nothing in the message. */
  lemma UnnamedCallIsDropped(st: State, es: seq<Event>)
    requires Valid(st) && Nameless(es)
    ensures var r := Run(st, [Event(ToolOpen, "")] + es + [Event(ToolClose, "")]);
            r.msg == st.msg && r.cursor == NoCall && r.pending == None
  {
    hide Run;
    RunAppend(st, [Event(ToolOpen, "")] + es, [Event(ToolClose, "")]);
    RunAppend(st, [Event(ToolOpen, "")], es);
    RunOne(st, Event(ToolOpen, ""));
    var open := Step(st, Event(ToolOpen, ""));
    NamelessRuns(open, es);
    RunOne(Run(open, es), Event(ToolClose, ""));
  }

  // ---------------------------------------------------------------- the class

  class Mapper {
    var result: Msg
    var pendingToolCall: Option<ToolCall>
    var currentTool: Cursor
    var argCount: nat
    var closingQuotePending: bool
    var argsBuffer: string

    ghost function View(): State
      reads this
    {
      State(result, pendingToolCall, currentTool, argCount, closingQuotePending, argsBuffer)
    }

    constructor ()
      ensures View() == INIT
    {
      result, pendingToolCall, currentTool := EMPTY_MSG, None, NoCall;
      argCount, closingQuotePending, argsBuffer := 0, false, "";
    }

    method ReadCurrent() returns (call: ToolCall)
      requires Valid(View()) && currentTool != NoCall
      ensures call == Current(View())
    {
      call := if currentTool == PendingCall then pendingToolCall.value else result.toolCalls[|result.toolCalls| - 1];
    }

    method WriteCurrent(call: ToolCall)
      requires Valid(View()) && currentTool != NoCall
      modifies this`result, this`pendingToolCall
      ensures View() == WithCurrent(old(View()), call)
    {
      if currentTool == PendingCall {
        pendingToolCall := Some(call);
      } else {
        result := result.(toolCalls := result.toolCalls[|result.toolCalls| - 1 := call]);
      }
    }

    method ReadTarget() returns (args: string)
      requires Valid(View())
      ensures args == Target(View())
    {
      args := argsBuffer;
      if currentTool != NoCall {
        var call := ReadCurrent();
        if call.name != "" {
          args := call.arguments;
        }
      }
    }

    method WriteTarget(args: string)
      requires Valid(View())
      modifies this`result, this`pendingToolCall, this`argsBuffer
      ensures View() == WithTarget(old(View()), args)
    {
      if currentTool != NoCall {
        var call := ReadCurrent();
        if call.name != "" {
          WriteCurrent(call.(arguments := args));
          return;
        }
      }
      argsBuffer := args;
    }

    method MapToolName(text: string)
      requires Valid(View()) && currentTool != NoCall
      modifies this
      ensures View() == NameStep(old(View()), text)
    {
      var call := ReadCurrent();
      var name := TrimTrailingSpace(text, -1);
      call := call.(name := name);
      if argsBuffer != "" {
        call := call.(arguments := argsBuffer);
        argsBuffer := "";
      } else if call.arguments == "" {
        call := call.(arguments := "{");
      }
      if pendingToolCall.Some? {
        result := result.(toolCalls := result.toolCalls + [call]);
        pendingToolCall := None;
        currentTool := LastCall;
      } else {
        result := result.(toolCalls := result.toolCalls[|result.toolCalls| - 1 := call]);
      }
    }

    method MapArgName(text: string)
      requires Valid(View()) && currentTool != NoCall
      modifies this
      ensures View() == ArgNameStep(old(View()), text)
    {
      var argEntry := "";
      if argCount > 0 {
        argEntry := ",";
      }
      var leading := TrimLeadingSpace(text, 1);
      var name := TrimTrailingSpace(leading, -1);
      argEntry := argEntry + JsonText.Dump(name) + ":";
      var target := ReadTarget();
      if target == "" {
        target := "{";
      }
      WriteTarget(target + argEntry);
      argCount := argCount + 1;
    }

    method MapArgValue(isString: bool, text: string)
      requires Valid(View()) && currentTool != NoCall
      modifies this
      ensures View() == ValueStep(old(View()), isString, text)
    {
      var leading := TrimLeadingSpace(text, 1);
      var value := TrimTrailingSpace(leading, 1);
      assert value == ValueText(text);
      var toAdd := "";
      if value == "" && isString {
        toAdd := "\"";
        closingQuotePending := true;
      } else if value != "" && isString {
        if !closingQuotePending {
          toAdd := "\"";
          closingQuotePending := true;
        }
        toAdd := toAdd + JsonText.EscapeJsonStringInner(value);
      } else if value != "" {
        if value[0] == '[' || value[0] == '{' {
          var normalized, _, _ := QuoteNormalizer.NormalizeQuotesToJson(value);
          value := normalized;
        }
        toAdd := value;
      }
      assert toAdd == ValueToAdd(isString, old(closingQuotePending), ValueText(text));
      var target := ReadTarget();
      WriteTarget(target + toAdd);
    }

    method CloseBraces(args: string) returns (closed: string)
      ensures closed == args + ClosingBraces(args)
    {
      hide JsonText.BraceDepth;
      var d := JsonText.JsonBraceDepth(args);
      ghost var open := if d > 0 then d else 0;
      closed := args;
      while d > 0
        invariant d <= open && (open > 0 ==> d >= 0)
        invariant closed == args + JsonText.Repeat('}', if d > 0 then open - d else open)
      {
        closed := closed + "}";
        d := d - 1;
      }
    }

    method MapToolClose()
      requires Valid(View()) && currentTool != NoCall
      modifies this
      ensures View() == CloseStep(old(View()))
    {
      hide ClosingBraces;
      var call := ReadCurrent();
      if call.name == "" && argsBuffer != "" {
        call := call.(arguments := argsBuffer);
        argsBuffer := "";
      }
      if closingQuotePending {
        call := call.(arguments := call.arguments + "\"");
        closingQuotePending := false;
      }
      var args := CloseBraces(call.arguments);
      call := call.(arguments := args);
      assert call.arguments == ClosedArguments(old(View()));
      WriteCurrent(call);
      if pendingToolCall.Some? {
        // A call that is still pending has no name here: the source's branch that keeps it is never taken.
        assert call.name == "";
        pendingToolCall := None;
        currentTool := NoCall;
      }
    }

    method MapToolId(text: string)
      requires Valid(View()) && currentTool != NoCall
      modifies this
      ensures View() == WithCurrent(old(View()), Current(old(View())).(id := IdText(text)))
    {
      var id := TrimTrailingSpace(text, -1);
      if |id| >= 2 && id[0] == '"' && id[|id| - 1] == '"' {
        id := id[1..|id| - 1];
      }
      var call := ReadCurrent();
      WriteCurrent(call.(id := id));
    }

    method MapToolArgs(text: string)
      requires Valid(View()) && currentTool != NoCall
      modifies this
      ensures View() == ArgsStep(old(View()), text)
    {
      var args := TrimTrailingSpace(text, -1);
      if args != "" && args[0] == '{' {
        WriteTarget(args);
      }
    }

    method MapArgClose()
      requires Valid(View()) && currentTool != NoCall
      modifies this
      ensures View() == ArgCloseStep(old(View()))
    {
      if closingQuotePending {
        var target := ReadTarget();
        WriteTarget(target + "\"");
        closingQuotePending := false;
      }
    }

    method MapCallNode(node: Event)
      requires Valid(View()) && currentTool != NoCall && TouchesCall(node.tag)
      modifies this
      ensures View() == CallStep(old(View()), node)
    {
      match node.tag
      case ToolId => MapToolId(node.text);
      case ToolName => MapToolName(node.text);
      case ToolArgs => MapToolArgs(node.text);
      case ArgName => MapArgName(node.text);
      case ArgValue => MapArgValue(false, node.text);
      case ArgStringValue => MapArgValue(true, node.text);
      case ArgClose => MapArgClose();
      case ToolClose => MapToolClose();
    }

    method Map(node: Event)
      requires Valid(View())
      modifies this
      ensures Valid(View()) && View() == Step(old(View()), node)
    {
      if TouchesCall(node.tag) {
        if currentTool != NoCall {
          MapCallNode(node);
        }
        return;
      }
      match node.tag
      case Reasoning => result := result.(reasoning := result.reasoning + node.text);
      case Content => result := result.(content := result.content + node.text);
      case ToolOpen =>
        pendingToolCall, currentTool := Some(EMPTY_CALL), PendingCall;
        argCount, argsBuffer, closingQuotePending := 0, "", false;
      case ArgOpen => closingQuotePending := false;
      case _ =>
    }

    method FromAst(nodes: seq<Event>)
      requires Valid(View())
      modifies this
      ensures result == Finish(Run(old(View()), nodes))
    {
      for i := 0 to |nodes|
        invariant Valid(View())
        invariant Run(View(), nodes[i..]) == Run(old(View()), nodes)
      {
        assert nodes[i..][1..] == nodes[i + 1..];
        Map(nodes[i]);
      }
      // A pending call never has a name, so the source's flush of a named one has nothing to do.
      assert pendingToolCall.Some? ==> pendingToolCall.value.name == "";
      if pendingToolCall.Some? && pendingToolCall.value.name != "" {
        assert false;
      }
      if result.reasoning != "" {
        var allWhitespace := true;
        for i := 0 to |result.reasoning|
          invariant allWhitespace <==> IsBlank(result.reasoning[..i])
        {
          var c := result.reasoning[i];
          if c != ' ' && c != '\n' && c != '\r' && c != '\t' {
            allWhitespace := false;
            assert !IsBlank(result.reasoning);
            break;
          }
        }
        if allWhitespace {
          result := result.(reasoning := "");
        }
      }
    }
  }
}
