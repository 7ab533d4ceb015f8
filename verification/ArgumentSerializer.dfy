/**
 The tagged-arguments path of the mapper refines a simple serialiser: whatever node the
 tool name arrives at, the call ends with the JSON object of its arguments.
 */
module ArgumentSerializer {
  import opened Text
  import opened JsonText
  import opened MessageDiff
  import opened ToolCallMapper
  import QuoteNormalizer

  datatype Arg = Arg(name: string, isString: bool, value: string)

  // ---------------------------------------------------------------- the serialiser

  function RenderedValue(a: Arg): string {
    if a.isString then Dump(ValueText(a.value)) else RenderedJson(ValueText(a.value))
  }

  function Entry(a: Arg): string { Dump(Trimmed(a.name)) + ":" + RenderedValue(a) }

  function Joined(args: seq<Arg>): string {
    if args == [] then "" else
    if |args| == 1 then Entry(args[0]) else Entry(args[0]) + "," + Joined(args[1..])
  }

  // ---------------------------------------------------------------- the nodes of a call

  function ArgEvents(a: Arg): seq<Event> {
    [Event(ArgOpen, ""), Event(ArgName, a.name),
     Event(if a.isString then ArgStringValue else ArgValue, a.value), Event(ArgClose, "")]
  }

  function Body(args: seq<Arg>): seq<Event> {
    if args == [] then [] else ArgEvents(args[0]) + Body(args[1..])
  }

  /** A tagged call whose name arrives after the first `k` nodes of its arguments. */
  function CallEvents(name: string, k: nat, args: seq<Arg>): seq<Event>
    requires k <= |Body(args)|
  {
    [Event(ToolOpen, "")] + Body(args)[..k] + [Event(ToolName, name)] + Body(args)[k..] + [Event(ToolClose, "")]
  }

  // ---------------------------------------------------------------- the argument text alone

  /** The argument text being built, wherever the mapper keeps it. */
  datatype Build = Build(text: string, count: nat, quote: bool)

  function Opened(text: string): string { if text == "" then "{" else text }

  function BuildStep(t: Build, e: Event): Build {
    if e.tag == ArgOpen then t.(quote := false)
    else if e.tag == ArgName then Build(Opened(t.text) + ArgEntry(t.count, e.text), t.count + 1, t.quote)
    else if e.tag == ArgClose then (if t.quote then Build(t.text + "\"", t.count, false) else t)
    else if e.tag == ArgValue || e.tag == ArgStringValue then
      var isString := e.tag == ArgStringValue;
      Build(t.text + ValueToAdd(isString, t.quote, ValueText(e.text)), t.count, t.quote || isString)
    else t
  }

  /** An argument node that finds an opened text, or is the name that opens it. */
  predicate Fits(t: Build, e: Event) {
    e.tag == ArgOpen || e.tag == ArgName
    || (t.text != "" && (e.tag == ArgClose || e.tag == ArgValue || e.tag == ArgStringValue))
  }

  function BuildRun(t: Build, es: seq<Event>): Build
    decreases |es|
  {
    if es == [] then t else BuildRun(BuildStep(t, es[0]), es[1..])
  }

  predicate FitsAll(t: Build, es: seq<Event>)
    decreases |es|
  {
    es == [] || (Fits(t, es[0]) && FitsAll(BuildStep(t, es[0]), es[1..]))
  }

  lemma {:induction false} BuildAppend(t: Build, a: seq<Event>, b: seq<Event>)
    ensures BuildRun(t, a + b) == BuildRun(BuildRun(t, a), b)
    ensures FitsAll(t, a + b) <==> FitsAll(t, a) && FitsAll(BuildRun(t, a), b)
    decreases |a|
  {
    if a == [] {
      assert a + b == b;
    } else {
      assert (a + b)[1..] == a[1..] + b;
      BuildAppend(BuildStep(t, a[0]), a[1..], b);
    }
  }

  /** The mapper's state holds the text `t`: in the buffer before the name, in the call after it. */
  predicate Holds(st: State, t: Build, base: Msg, name: string) {
    && Valid(st)
    && st.argCount == t.count && st.quotePending == t.quote
    && if name == ""
       then st.cursor == PendingCall && st.pending == Some(EMPTY_CALL) && st.buffer == t.text && st.msg == base
       else st.cursor == LastCall && st.buffer == ""
            && st.msg == base.(toolCalls := base.toolCalls + [ToolCall(name, Opened(t.text), "")])
  }

  lemma StepHolds(st: State, t: Build, base: Msg, name: string, e: Event)
    requires Holds(st, t, base, name) && Fits(t, e)
    ensures Holds(Step(st, e), BuildStep(t, e), base, name)
  {
    if name != "" {
      var calls := st.msg.toolCalls;
      assert Current(st) == ToolCall(name, Opened(t.text), "");
      forall args: string
        ensures WithTarget(st, args).msg == base.(toolCalls := base.toolCalls + [ToolCall(name, args, "")])
      {
        assert calls[|calls| - 1 := ToolCall(name, args, "")] == base.toolCalls + [ToolCall(name, args, "")];
      }
    }
  }

  lemma {:induction false} RunHolds(st: State, t: Build, base: Msg, name: string, es: seq<Event>)
    requires Holds(st, t, base, name) && FitsAll(t, es)
    ensures Holds(Run(st, es), BuildRun(t, es), base, name)
    decreases |es|
  {
    if es != [] {
      StepHolds(st, t, base, name, es[0]);
      RunHolds(Step(st, es[0]), BuildStep(t, es[0]), base, name, es[1..]);
    }
  }

  // ---------------------------------------------------------------- the text of a body

  function Extended(t: Build, args: seq<Arg>): string {
    if args == [] then t.text else Opened(t.text) + (if t.count > 0 then "," else "") + Joined(args)
  }

  lemma BuildFour(t: Build, a: Event, b: Event, c: Event, d: Event)
    ensures BuildRun(t, [a, b, c, d]) == BuildStep(BuildStep(BuildStep(BuildStep(t, a), b), c), d)
    ensures FitsAll(t, [a, b, c, d]) <==>
            && Fits(t, a) && Fits(BuildStep(t, a), b) && Fits(BuildStep(BuildStep(t, a), b), c)
            && Fits(BuildStep(BuildStep(BuildStep(t, a), b), c), d)
  {
    var t3 := BuildStep(BuildStep(BuildStep(t, a), b), c);
    assert [a, b, c, d][1..] == [b, c, d] && [b, c, d][1..] == [c, d] && [c, d][1..] == [d] && [d][1..] == [];
    assert BuildRun(t3, [d]) == BuildRun(BuildStep(t3, d), []);
    assert FitsAll(t3, [d]) <==> Fits(t3, d);
    assert FitsAll(BuildStep(BuildStep(t, a), b), [c, d]) <==> Fits(BuildStep(BuildStep(t, a), b), c) && Fits(t3, d);
    assert FitsAll(BuildStep(t, a), [b, c, d]) <==>
           Fits(BuildStep(t, a), b) && FitsAll(BuildStep(BuildStep(t, a), b), [c, d]);
    assert BuildRun(BuildStep(t, a), [b, c, d]) == BuildRun(BuildStep(BuildStep(t, a), b), [c, d]) == BuildRun(t3, [d]);
  }

  lemma ValueAndClose(t: Build, a: Arg)
    requires !t.quote
    ensures var es := ArgEvents(a);
            BuildStep(BuildStep(t, es[2]), es[3]) == Build(t.text + RenderedValue(a), t.count, false)
  {
    var v := ValueText(a.value);
    if a.isString {
      assert ValueToAdd(true, false, v) + "\"" == RenderedValue(a);
      assert (t.text + ValueToAdd(true, false, v)) + "\"" == t.text + RenderedValue(a);
    }
  }

  lemma BuildArg(t: Build, a: Arg)
    requires !t.quote
    ensures FitsAll(t, ArgEvents(a))
    ensures BuildRun(t, ArgEvents(a)) == Build(Extended(t, [a]), t.count + 1, false)
  {
    var es := ArgEvents(a);
    BuildFour(t, es[0], es[1], es[2], es[3]);
    var t2 := Build(Opened(t.text) + ArgEntry(t.count, a.name), t.count + 1, false);
    assert BuildStep(BuildStep(t, es[0]), es[1]) == t2;
    ValueAndClose(t2, a);
    EntryText(t, a);
  }

  lemma EntryText(t: Build, a: Arg)
    ensures Opened(t.text) + ArgEntry(t.count, a.name) + RenderedValue(a) == Extended(t, [a])
  {
    Regroup(Opened(t.text), if t.count > 0 then "," else "", Dump(Trimmed(a.name)), RenderedValue(a));
  }

  lemma Regroup(start: string, comma: string, key: string, value: string)
    ensures start + (comma + key + ":") + value == start + comma + (key + ":" + value)
  {
  }

  lemma ExtendedCons(t: Build, args: seq<Arg>)
    requires args != []
    ensures Extended(Build(Extended(t, [args[0]]), t.count + 1, false), args[1..]) == Extended(t, args)
  {
    var comma := if t.count > 0 then "," else "";
    assert Joined([args[0]]) == Entry(args[0]);
    if |args| > 1 {
      RegroupJoined(Opened(t.text), comma, Entry(args[0]), Joined(args[1..]));
    }
  }

  lemma RegroupJoined(start: string, comma: string, entry: string, rest: string)
    ensures start + comma + entry + "," + rest == start + comma + (entry + "," + rest)
  {
  }

  lemma {:induction false} BuildBody(t: Build, args: seq<Arg>)
    requires !t.quote
    ensures FitsAll(t, Body(args))
    ensures BuildRun(t, Body(args)) == Build(Extended(t, args), t.count + |args|, false)
    decreases |args|
  {
    if args != [] {
      BuildArg(t, args[0]);
      BuildAppend(t, ArgEvents(args[0]), Body(args[1..]));
      BuildBody(Build(Extended(t, [args[0]]), t.count + 1, false), args[1..]);
      ExtendedCons(t, args);
    }
  }

  // ---------------------------------------------------------------- refinement

  function FinalArguments(args: seq<Arg>): string {
    "{" + Joined(args) + ClosingBraces("{" + Joined(args))
  }

  lemma NameHolds(st: State, t: Build, base: Msg, text: string)
    requires Holds(st, t, base, "") && TrimmedTrailing(text) != ""
    ensures Holds(Step(st, Event(ToolName, text)), t, base, TrimmedTrailing(text))
  {
  }

  lemma CloseHolds(st: State, t: Build, base: Msg, name: string)
    requires Holds(st, t, base, name) && name != "" && !t.quote
    ensures var args := Opened(t.text) + ClosingBraces(Opened(t.text));
            Step(st, Event(ToolClose, "")).msg == base.(toolCalls := base.toolCalls + [ToolCall(name, args, "")])
  {
    var calls, args := st.msg.toolCalls, Opened(t.text) + ClosingBraces(Opened(t.text));
    assert Current(st) == ToolCall(name, Opened(t.text), "");
    assert calls[|calls| - 1 := ToolCall(name, args, "")] == base.toolCalls + [ToolCall(name, args, "")];
  }

  lemma CallRun(st: State, name: string, k: nat, args: seq<Arg>)
    requires Valid(st) && k <= |Body(args)|
    ensures Run(st, CallEvents(name, k, args))
         == Step(Run(Step(Run(Step(st, Event(ToolOpen, "")), Body(args)[..k]), Event(ToolName, name)), Body(args)[k..]),
                 Event(ToolClose, ""))
  {
    var head, tail := Body(args)[..k], Body(args)[k..];
    var open, named, close := [Event(ToolOpen, "")], [Event(ToolName, name)], [Event(ToolClose, "")];
    RunAppend(st, open + head + named + tail, close);
    RunAppend(st, open + head + named, tail);
    RunAppend(st, open + head, named);
    RunAppend(st, open, head);
    RunOne(st, open[0]);
    RunOne(Run(st, open + head), named[0]);
    RunOne(Run(st, open + head + named + tail), close[0]);
  }

  /**
   A tagged call adds exactly one tool call, with the serialised arguments, and the
   result does not depend on where between open and close the name arrived.
   */
  lemma MapperRefinesSerializer(st: State, name: string, k: nat, args: seq<Arg>)
    requires Valid(st) && k <= |Body(args)| && TrimmedTrailing(name) != ""
    ensures Run(st, CallEvents(name, k, args)).msg
         == st.msg.(toolCalls := st.msg.toolCalls + [ToolCall(TrimmedTrailing(name), FinalArguments(args), "")])
  {
    var head, tail, open := Body(args)[..k], Body(args)[k..], Step(st, Event(ToolOpen, ""));
    var t0 := Build("", 0, false);
    BuildBody(t0, args);
    assert head + tail == Body(args);
    CallRun(st, name, k, args);
    BodyHolds(open, t0, st.msg, name, head, tail);
    var full := Run(Step(Run(open, head), Event(ToolName, name)), tail);
    CloseHolds(full, BuildRun(t0, Body(args)), st.msg, TrimmedTrailing(name));
    OpenedBody(args);
  }

  lemma OpenedBody(args: seq<Arg>)
    ensures Opened(Extended(Build("", 0, false), args)) == "{" + Joined(args)
  {
  }

  lemma BodyHolds(st: State, t: Build, base: Msg, name: string, head: seq<Event>, tail: seq<Event>)
    requires Holds(st, t, base, "") && FitsAll(t, head + tail) && TrimmedTrailing(name) != ""
    ensures Holds(Run(Step(Run(st, head), Event(ToolName, name)), tail),
                  BuildRun(t, head + tail), base, TrimmedTrailing(name))
  {
    BuildAppend(t, head, tail);
    RunHolds(st, t, base, "", head);
    NameHolds(Run(st, head), BuildRun(t, head), base, name);
    RunHolds(Step(Run(st, head), Event(ToolName, name)), BuildRun(t, head), base, TrimmedTrailing(name), tail);
  }

  /** The buffered and the direct path agree. */
  lemma NamePositionIrrelevant(st: State, name: string, j: nat, k: nat, args: seq<Arg>)
    requires Valid(st) && j <= |Body(args)| && k <= |Body(args)| && TrimmedTrailing(name) != ""
    ensures Finish(Run(st, CallEvents(name, j, args))) == Finish(Run(st, CallEvents(name, k, args)))
  {
    MapperRefinesSerializer(st, name, j, args);
    MapperRefinesSerializer(st, name, k, args);
  }

  // ---------------------------------------------------------------- exactly one closing brace

  /** A string, or a JSON value with balanced braces and every string closed. */
  predicate Balanced(a: Arg) {
    var v := ValueText(a.value);
    a.isString ||
    if IsContainer(v)
    then QuoteNormalizer.RawFrom(QuoteNormalizer.Raw(QuoteNormalizer.Bare, false, 0), v)
         == QuoteNormalizer.Raw(QuoteNormalizer.Bare, false, 0)
    else ScanFrom(Outside(0), v) == Outside(0)
  }

  lemma ScanValue(depth: int, a: Arg)
    requires Balanced(a)
    ensures ScanFrom(Outside(depth), RenderedValue(a)) == Outside(depth)
  {
    if a.isString {
      ScanDump(depth, ValueText(a.value));
    } else {
      if IsContainer(ValueText(a.value)) {
        QuoteNormalizer.Simulation(QuoteNormalizer.Bare, 0, ValueText(a.value));
      }
      ScanShift(Outside(0), depth, RenderedValue(a));
    }
  }

  lemma ScanEntry(depth: int, a: Arg)
    requires Balanced(a)
    ensures ScanFrom(Outside(depth), Entry(a)) == Outside(depth)
  {
    var key := Dump(Trimmed(a.name));
    ScanDump(depth, Trimmed(a.name));
    ScanAppend(Outside(depth), key, ":");
    ScanAppend(Outside(depth), key + ":", RenderedValue(a));
    assert ScanFrom(Outside(depth), ":") == ScanFrom(ScanChar(Outside(depth), ':'), ":"[1..]);
    ScanValue(depth, a);
  }

  lemma {:induction false} ScanJoined(depth: int, args: seq<Arg>)
    requires forall a :: a in args ==> Balanced(a)
    ensures ScanFrom(Outside(depth), Joined(args)) == Outside(depth)
    decreases |args|
  {
    if args != [] {
      assert args[0] in args;
      ScanEntry(depth, args[0]);
      if |args| > 1 {
        ScanAppend(Outside(depth), Entry(args[0]), ",");
        ScanAppend(Outside(depth), Entry(args[0]) + ",", Joined(args[1..]));
        assert ScanFrom(Outside(depth), ",") == ScanFrom(ScanChar(Outside(depth), ','), ","[1..]);
        ScanJoined(depth, args[1..]);
      }
    }
  }

  /** Balanced arguments end as a JSON object closed by exactly one brace. */
  lemma ExactlyOneBrace(args: seq<Arg>)
    requires forall a :: a in args ==> Balanced(a)
    ensures FinalArguments(args) == "{" + Joined(args) + "}"
  {
    ScanAppend(Outside(0), "{", Joined(args));
    assert ScanFrom(Outside(0), "{") == ScanFrom(ScanChar(Outside(0), '{'), "{"[1..]);
    ScanJoined(1, args);
    assert Repeat('}', 1) == Repeat('}', 0) + ['}'];
  }
}
