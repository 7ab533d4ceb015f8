/**
 Streaming soundness: the mapper of common/chat-peg-parser.cpp and the differ of
 common/chat.cpp together. A client that folds the deltas between successive snapshots
 holds the final message, whatever the cut points; the lemmas say for which node
 streams that is so and where it fails.
 */
module Streaming {
  import opened Text
  import opened MessageDiff
  import opened ToolCallMapper
  import JsonText
  import QuoteNormalizer

  /** The differ succeeds between two snapshots and folding its deltas gives the newer one. */
  predicate DeltaOk(prv: Msg, cur: Msg) {
    Diffs(prv, cur).Ok? && ApplyAll(prv, Diffs(prv, cur).value) == cur
  }

  // ---------------------------------------------------------------- one step

  lemma FinishExtends(a: State, b: State)
    requires a.msg.reasoning <= b.msg.reasoning
    ensures Finish(a).reasoning <= Finish(b).reasoning
  {
    if IsBlank(b.msg.reasoning) {
      forall i | 0 <= i < |a.msg.reasoning|
        ensures a.msg.reasoning[i] == b.msg.reasoning[i]
      {
      }
      assert IsBlank(a.msg.reasoning);
    }
  }

  /** Rewriting the last call extends the snapshot exactly when the call itself is extended. */
  lemma LastCallChange(a: State, b: State, call: ToolCall)
    requires a.msg.toolCalls != [] && b.msg == WithLast(a.msg, call)
    ensures Extends(Finish(a), Finish(b)) <==> CallExtends(a.msg.toolCalls[|a.msg.toolCalls| - 1], call)
  {
    var k := |a.msg.toolCalls| - 1;
    assert b.msg.toolCalls[..k] == a.msg.toolCalls[..k];
  }

  lemma NewCallExtends(a: State, b: State, call: ToolCall)
    requires b.msg == a.msg.(toolCalls := a.msg.toolCalls + [call])
    ensures Extends(Finish(a), Finish(b))
  {
    var n := |a.msg.toolCalls|;
    if n > 0 {
      assert b.msg.toolCalls[..n - 1] == a.msg.toolCalls[..n - 1];
    }
  }

  /**
   The guards of the four branches that can overwrite something a snapshot already
   showed: a second id, a second name, an arguments object and the flush at close.
   */
  predicate StepSafe(st: State, e: Event)
    requires Valid(st)
  {
    st.cursor == LastCall ==>
      var call := Current(st);
      match e.tag
      case ToolId => IdText(e.text) != "" || call.id == ""
      case ToolName => call.name <= TrimmedTrailing(e.text) && (st.buffer != "" ==> call.arguments <= st.buffer)
      case ToolArgs =>
        var t := TrimmedTrailing(e.text);
        call.name != "" && t != "" && t[0] == '{' ==> call.arguments <= t
      case ToolClose => call.name == "" && st.buffer != "" ==> call.arguments <= ClosedArguments(st)
      case _ => true
  }

  lemma AppendTarget(st: State, b: State, more: string)
    requires Valid(st) && b.msg == WithTarget(st, Target(st) + more).msg
    ensures Extends(Finish(st), Finish(b))
  {
    if Direct(st) && st.cursor == LastCall {
      LastCallChange(st, b, Current(st).(arguments := Target(st) + more));
    }
  }

  lemma CallStepExtendsExactly(st: State, e: Event)
    requires Valid(st) && st.cursor == LastCall && TouchesCall(e.tag)
    ensures Extends(Finish(st), Finish(Step(st, e))) <==> StepSafe(st, e)
  {
    var next, call := Step(st, e), Current(st);
    match e.tag
    case ToolId => LastCallChange(st, next, call.(id := IdText(e.text)));
    case ToolName => LastCallChange(st, next, NamedCall(st, e.text));
    case ToolArgs =>
      if Direct(st) {
        LastCallChange(st, next, Current(next));
      }
    case ArgName => ArgNameExtends(st, e.text);
    case ArgValue => AppendTarget(st, next, ValueToAdd(false, st.quotePending, ValueText(e.text)));
    case ArgStringValue => AppendTarget(st, next, ValueToAdd(true, st.quotePending, ValueText(e.text)));
    case ArgClose =>
      if st.quotePending {
        AppendTarget(st, next, "\"");
      }
    case ToolClose => LastCallChange(st, next, call.(arguments := ClosedArguments(st)));
  }

  lemma ArgNameExtends(st: State, text: string)
    requires Valid(st) && st.cursor == LastCall
    ensures Extends(Finish(st), Finish(ArgNameStep(st, text)))
  {
    var entry := ArgEntry(st.argCount, text);
    if Target(st) == "" {
      assert Target(st) + ("{" + entry) == "{" + entry;
      AppendTarget(st, ArgNameStep(st, text), "{" + entry);
    } else {
      AppendTarget(st, ArgNameStep(st, text), entry);
    }
  }

  /** In every state of the mapper, a node keeps what was streamed exactly when its guard holds. */
  lemma StepExtendsExactly(st: State, e: Event)
    requires Valid(st)
    ensures Extends(Finish(st), Finish(Step(st, e))) <==> StepSafe(st, e)
  {
    var next := Step(st, e);
    if TouchesCall(e.tag) {
      if st.cursor == LastCall {
        CallStepExtendsExactly(st, e);
      } else if st.cursor == PendingCall && e.tag == ToolName {
        NewCallExtends(st, next, NamedCall(st, e.text));
      }
    } else {
      PlainStepExtends(st, e);
    }
  }

  lemma PlainStepExtends(st: State, e: Event)
    requires Valid(st) && !TouchesCall(e.tag)
    ensures Extends(Finish(st), Finish(Step(st, e))) && StepSafe(st, e)
  {
    FinishExtends(st, Step(st, e));
  }

  // ---------------------------------------------------------------- whole runs

  function StateAt(es: seq<Event>, k: nat): (r: State)
    requires k <= |es|
    ensures Valid(r)
  {
    Run(INIT, es[..k])
  }

  lemma StateAtNext(es: seq<Event>, k: nat)
    requires k < |es|
    ensures StateAt(es, k + 1) == Step(StateAt(es, k), es[k])
  {
    assert es[..k + 1] == es[..k] + [es[k]];
    RunAppend(INIT, es[..k], [es[k]]);
    RunOne(StateAt(es, k), es[k]);
  }

  predicate StreamSafe(es: seq<Event>) {
    forall k :: 0 <= k < |es| ==> StepSafe(StateAt(es, k), es[k])
  }

  lemma {:induction false} SafeSpanExtends(es: seq<Event>, i: nat, j: nat)
    requires i <= j <= |es|
    requires forall k :: i <= k < j ==> StepSafe(StateAt(es, k), es[k])
    ensures Extends(Finish(StateAt(es, i)), Finish(StateAt(es, j)))
    decreases j - i
  {
    if i < j {
      SafeSpanExtends(es, i, j - 1);
      StateAtNext(es, j - 1);
      StepExtendsExactly(StateAt(es, j - 1), es[j - 1]);
      ExtendsTransitive(Finish(StateAt(es, i)), Finish(StateAt(es, j - 1)), Finish(StateAt(es, j)));
    }
  }

  /**
   Every pair of snapshots of a run can be diffed and rebuilt, exactly when each node
   of the run meets its guard in the state it arrives in.
   */
  lemma StreamingExactly(es: seq<Event>)
    ensures StreamSafe(es) <==>
            forall i, j :: 0 <= i <= j <= |es| ==> DeltaOk(Snapshot(es[..i]), Snapshot(es[..j]))
  {
    if StreamSafe(es) {
      forall i, j | 0 <= i <= j <= |es|
        ensures DeltaOk(Snapshot(es[..i]), Snapshot(es[..j]))
      {
        SafeSpanExtends(es, i, j);
        DiffRebuildsExactly(Snapshot(es[..i]), Snapshot(es[..j]));
      }
    }
    if forall i, j :: 0 <= i <= j <= |es| ==> DeltaOk(Snapshot(es[..i]), Snapshot(es[..j])) {
      forall k | 0 <= k < |es|
        ensures StepSafe(StateAt(es, k), es[k])
      {
        assert DeltaOk(Snapshot(es[..k]), Snapshot(es[..k + 1]));
        DiffRebuildsExactly(Snapshot(es[..k]), Snapshot(es[..k + 1]));
        StateAtNext(es, k);
        StepExtendsExactly(StateAt(es, k), es[k]);
      }
    }
  }

  // ---------------------------------------------------------------- well-formed streams

  /** What has been seen of the tool call being read. */
  datatype Phase = Idle | InCall(named: bool, identified: bool, started: bool)

  /**
   Whether a node may come next: one name and one id per call, no arguments object after a named
   call's arguments began.
   */
  predicate Accepts(ph: Phase, e: Event) {
    match e.tag
    case ToolName => ph.InCall? && !ph.named && TrimmedTrailing(e.text) != ""
    case ToolId => ph.InCall? && !ph.identified
    case ToolArgs => ph.InCall? && !(ph.named && ph.started)
    case tag => TouchesCall(tag) ==> ph.InCall?
  }

  function NextPhase(ph: Phase, e: Event): Phase {
    if e.tag == ToolOpen then InCall(false, false, false)
    else if e.tag == ToolClose || ph.Idle? then Idle
    else InCall(ph.named || e.tag == ToolName,
                ph.identified || e.tag == ToolId,
                ph.started || (TouchesCall(e.tag) && e.tag != ToolName && e.tag != ToolId))
  }

  predicate WellFormedFrom(ph: Phase, es: seq<Event>)
    decreases |es|
  {
    es == [] || (Accepts(ph, es[0]) && WellFormedFrom(NextPhase(ph, es[0]), es[1..]))
  }

  predicate WellFormed(es: seq<Event>) { WellFormedFrom(Idle, es) }

  /** What the phase knows about the mapper's state. */
  predicate Coherent(ph: Phase, st: State) {
    && Valid(st)
    && (ph.InCall? ==>
          && st.cursor == (if ph.named then LastCall else PendingCall)
          && (!ph.identified ==> Current(st).id == "")
          && (ph.named ==> Current(st).name != "" && st.buffer == "")
          && (!ph.named ==> Current(st).arguments == "")
          && (!ph.started ==> st.buffer == "" && Current(st).arguments == (if ph.named then "{" else "")))
  }

  lemma AcceptedStep(ph: Phase, st: State, e: Event)
    requires Coherent(ph, st) && Accepts(ph, e)
    ensures StepSafe(st, e) && Coherent(NextPhase(ph, e), Step(st, e))
  {
    if ph.InCall? && TouchesCall(e.tag) && e.tag != ToolClose {
      var next := CallStep(st, e);
      if e.tag == ToolName {
        assert Current(next) == NamedCall(st, e.text);
      }
    }
  }

  lemma {:induction false} WellFormedFromSafe(ph: Phase, st: State, es: seq<Event>, k: nat)
    requires Coherent(ph, st) && WellFormedFrom(ph, es) && k < |es|
    ensures StepSafe(Run(st, es[..k]), es[k])
    decreases |es|
  {
    AcceptedStep(ph, st, es[0]);
    if k > 0 {
      WellFormedFromSafe(NextPhase(ph, es[0]), Step(st, es[0]), es[1..], k - 1);
      assert es[1..][..k - 1] == es[..k][1..];
    }
  }

  lemma WellFormedIsSafe(es: seq<Event>)
    requires WellFormed(es)
    ensures StreamSafe(es)
  {
    forall k | 0 <= k < |es|
      ensures StepSafe(StateAt(es, k), es[k])
    {
      WellFormedFromSafe(Idle, INIT, es, k);
    }
  }

  /** One arguments object per call is not enough: after an argument has been streamed it rewrites it. */
  lemma ArgsAfterArgumentThrows()
    ensures var es := [Event(ToolOpen, ""), Event(ToolName, "f"), Event(ArgName, "a"), Event(ToolArgs, "{}")];
            Diffs(Snapshot(es[..3]), Snapshot(es)) == Err(NotAPrefix)
  {
    var es := [Event(ToolOpen, ""), Event(ToolName, "f"), Event(ArgName, "a"), Event(ToolArgs, "{}")];
    FourSteps(es[0], es[1], es[2], es[3]);
    OpenedAndNamed();
    var st := Step(Step(INIT, es[0]), es[1]);
    FirstArgument(st, "a");
    RewrittenArgument(Step(st, es[2]), "{" + ArgEntry(0, "a"));
  }

  /** A second name that does not continue the first one throws. */
  lemma SecondNameThrows()
    ensures var es := [Event(ToolOpen, ""), Event(ToolName, "f"), Event(ToolName, "g")];
            Diffs(Snapshot(es[..2]), Snapshot(es)) == Err(NameMismatch)
  {
    var es := [Event(ToolOpen, ""), Event(ToolName, "f"), Event(ToolName, "g")];
    var st := Step(Step(INIT, es[0]), es[1]);
    OpenedAndNamed();
    assert Run(INIT, []) == INIT && es[..0] == [] && es[..3] == es by { RunNone(INIT); }
    StateAtNext(es, 0); StateAtNext(es, 1); StateAtNext(es, 2);
    assert TrimmedTrailing("g") == "g";
    assert Finish(NameStep(st, "g")).toolCalls[0] == NamedCall(st, "g");
  }

  lemma OpenedAndNamed()
    ensures Step(Step(INIT, Event(ToolOpen, "")), Event(ToolName, "f"))
         == State(EMPTY_MSG.(toolCalls := [ToolCall("f", "{", "")]), None, LastCall, 0, false, "")
  {
    assert TrimmedTrailing("f") == "f";
    var st := Step(INIT, Event(ToolOpen, ""));
    assert NamedCall(st, "f") == ToolCall("f", "{", "");
  }

  lemma FourSteps(a: Event, b: Event, c: Event, d: Event)
    ensures var es := [a, b, c, d];
            var st := Step(Step(Step(INIT, a), b), c);
            Snapshot(es[..3]) == Finish(st) && Snapshot(es) == Finish(Step(st, d))
  {
    hide Step, Finish, Run;
    var es := [a, b, c, d];
    assert Run(INIT, []) == INIT by {
      RunNone(INIT);
    }
    assert es[..0] == [];
    StateAtNext(es, 0); StateAtNext(es, 1); StateAtNext(es, 2); StateAtNext(es, 3);
    assert es[..4] == es;
  }

  lemma RunNone(st: State)
    requires Valid(st)
    ensures Run(st, []) == st
  {
  }

  lemma RewrittenArgument(st: State, args: string)
    requires Valid(st) && st.cursor == LastCall && |st.msg.toolCalls| == 1 && st.msg.reasoning == st.msg.content == ""
    requires Current(st).name != "" && Current(st).arguments == args && |args| > 2 && args[1] == '"'
    ensures Diffs(Finish(st), Finish(Step(st, Event(ToolArgs, "{}")))) == Err(NotAPrefix)
  {
    var b := "{}";
    assert TrimmedTrailing(b) == b;
    assert b[1] == '}';
    assert StringDiff(args, b) == Err(NotAPrefix);
    assert Finish(ArgsStep(st, b)).toolCalls[0] == Current(st).(arguments := b);
  }

  lemma FirstArgument(st: State, name: string)
    requires Valid(st) && st.cursor == LastCall && Current(st).name != "" && Current(st).arguments == "{"
        && st.argCount == 0
    ensures Step(st, Event(ArgName, name)).msg == WithLast(st.msg, Current(st).(arguments := "{" + ArgEntry(0, name)))
  {
  }

  // ---------------------------------------------------------------- snapshots that end inside a node

  /** The nodes that the parser also reports while they are still incomplete. */
  predicate Growing(tag: Tag) {
    tag == Reasoning || tag == Content || tag == ToolArgs || tag == ArgValue || tag == ArgStringValue
  }

  /**
   When a node seen with text `p` later has text `s`: the second value of an argument whose
   quote is open must not have been blank, and a container must not have been cut inside `\'`.
   */
  predicate CleanCut(st: State, tag: Tag, p: string, s: string)
    requires Valid(st) && p <= s
  {
    st.cursor == LastCall && Current(st).name != "" ==>
      match tag
      case ArgStringValue => !(st.quotePending && ValueText(p) == "" && ValueText(s) != "")
      case ArgValue =>
        ValueTextGrows(p, s);
        IsContainer(ValueText(p)) ==>
          !QuoteNormalizer.CutsEscapedApostrophe(QuoteNormalizer.Raw(QuoteNormalizer.Bare, false, 0),
                                                 ValueText(p), ValueText(s))
      case ToolArgs => TrimmedTrailing(p) == "" ==> StepSafe(st, Event(ToolArgs, s))
      case _ => true
  }

  lemma ValueTextGrows(p: string, s: string)
    requires p <= s
    ensures ValueText(p) <= ValueText(s)
  {
    var a, b := TrimmedLeading(p, 1), TrimmedLeading(s, 1);
    if p != [] {
      assert p[0] == s[0];
      assert TrimmedLeading(p[1..], 0) == p[1..] && TrimmedLeading(s[1..], 0) == s[1..];
    }
    assert a <= b;
    if |a| < |b| {
      assert TrimmedTrailing(a, 1) <= a <= b[..|b| - 1] <= TrimmedTrailing(b, 1);
    } else {
      assert a == b;
    }
  }

  lemma {:induction false} TrimmedTrailingGrows(p: string, s: string)
    requires p <= s
    ensures TrimmedTrailing(p) <= TrimmedTrailing(s)
    decreases |s|
  {
    if |p| < |s| && IsSpace(s[|s| - 1]) {
      TrimmedTrailingGrows(p, s[..|s| - 1]);
    } else if |p| < |s| {
      assert TrimmedTrailing(p) <= p <= s;
    } else {
      assert p == s;
    }
  }

  lemma AddedValueGrowsExactly(isString: bool, quotePending: bool, p: string, s: string)
    requires p <= s
    ensures ValueToAdd(isString, quotePending, p) <= ValueToAdd(isString, quotePending, s) <==>
            if isString then !(quotePending && p == "" && s != "")
            else IsContainer(p) ==>
              !QuoteNormalizer.CutsEscapedApostrophe(QuoteNormalizer.Raw(QuoteNormalizer.Bare, false, 0), p, s)
  {
    if isString {
      JsonText.EscapedPrefix(p, s);
      if quotePending && p == "" && s != "" {
        var x, y := ValueToAdd(isString, quotePending, p), ValueToAdd(isString, quotePending, s);
        assert x == "\"" && y == JsonText.Escaped(s);
        assert JsonText.EscapedChar(s[0])[0] != '"';
        assert y[0] == JsonText.EscapedChar(s[0])[0];
      }
    } else {
      if p != "" {
        assert p[0] == s[0];
      }
      QuoteNormalizer.GrowsExactly(QuoteNormalizer.Bare, 0, p, s);
    }
  }

  lemma TwoTargets(st: State, a: State, b: State, x: string, y: string)
    requires Valid(st) && st.cursor == LastCall && Current(st).name != ""
    requires a.msg == WithTarget(st, x).msg && b.msg == WithTarget(st, y).msg
    ensures Extends(Finish(a), Finish(b)) <==> x <= y
  {
    assert b.msg == WithLast(a.msg, Current(st).(arguments := y));
    LastCallChange(a, b, Current(st).(arguments := y));
  }

  lemma GrownValueExactly(st: State, isString: bool, p: string, s: string)
    requires Valid(st) && p <= s
    ensures var tag := if isString then ArgStringValue else ArgValue;
            Extends(Finish(ValueStep(st, isString, p)), Finish(ValueStep(st, isString, s))) <==> CleanCut(st, tag, p, s)
  {
    hide ValueToAdd, ValueText, IsContainer, QuoteNormalizer.CutsEscapedApostrophe;
    var x := ValueToAdd(isString, st.quotePending, ValueText(p));
    var y := ValueToAdd(isString, st.quotePending, ValueText(s));
    ValueTextGrows(p, s);
    AddedValueGrowsExactly(isString, st.quotePending, ValueText(p), ValueText(s));
    if Direct(st) && st.cursor == LastCall {
      TwoTargets(st, ValueStep(st, isString, p), ValueStep(st, isString, s), Target(st) + x, Target(st) + y);
      PrefixAfter(Target(st), x, y);
    }
  }

  lemma GrownArgsExactly(st: State, p: string, s: string)
    requires Valid(st) && p <= s && st.cursor != NoCall
    ensures Extends(Finish(ArgsStep(st, p)), Finish(ArgsStep(st, s))) <==> CleanCut(st, ToolArgs, p, s)
  {
    hide TrimmedTrailing;
    TrimmedTrailingGrows(p, s);
    var a, b := TrimmedTrailing(p), TrimmedTrailing(s);
    if a == "" {
      StepExtendsExactly(st, Event(ToolArgs, s));
    } else {
      assert a[0] == b[0];
      if a[0] == '{' && Direct(st) {
        TwoTargets(st, ArgsStep(st, p), ArgsStep(st, s), a, b);
      }
    }
  }

  /** A snapshot that shows a node incompletely is extended by the complete node exactly after a clean cut. */
  lemma GrownNodeExactly(st: State, tag: Tag, p: string, s: string)
    requires Valid(st) && Growing(tag) && p <= s
    ensures Extends(Finish(Step(st, Event(tag, p))), Finish(Step(st, Event(tag, s)))) <==> CleanCut(st, tag, p, s)
  {
    var a, b := Step(st, Event(tag, p)), Step(st, Event(tag, s));
    if tag == Reasoning || tag == Content {
      PrefixAfter(st.msg.reasoning, p, s);
      PrefixAfter(st.msg.content, p, s);
      FinishExtends(a, b);
    } else if st.cursor == NoCall {
    } else if tag == ToolArgs {
      GrownArgsExactly(st, p, s);
    } else {
      GrownValueExactly(st, tag == ArgStringValue, p, s);
    }
  }

  /** A list that is cut between the backslash and the apostrophe of an escape is not continued by its longer form. */
  lemma EscapedApostropheForks()
    ensures var call := [Event(ToolOpen, ""), Event(ToolName, "f"), Event(ArgName, "a")];
            !DeltaOk(Snapshot(call + [Event(ArgValue, "['\\")]), Snapshot(call + [Event(ArgValue, "['\\'")]))
  {
    hide Snapshot, Run, Step, ValueText, IsContainer, QuoteNormalizer.CutsEscapedApostrophe, Extends, Finish, DeltaOk;
    var call := [Event(ToolOpen, ""), Event(ToolName, "f"), Event(ArgName, "a")];
    var p, s := "['\\", "['\\'";
    var st := Run(INIT, call);
    NamedWithArgument();
    CutInEscape(p, s);
    GrownNodeExactly(st, ArgValue, p, s);
    SnapshotAfter(call, Event(ArgValue, p));
    SnapshotAfter(call, Event(ArgValue, s));
    DeltaOkMeans(Snapshot(call + [Event(ArgValue, p)]), Snapshot(call + [Event(ArgValue, s)]));
  }

  lemma DeltaOkMeans(prv: Msg, cur: Msg)
    ensures DeltaOk(prv, cur) <==> Extends(prv, cur)
  {
    DiffRebuildsExactly(prv, cur);
  }

  lemma SnapshotAfter(es: seq<Event>, e: Event)
    ensures Snapshot(es + [e]) == Finish(Step(Run(INIT, es), e))
  {
    RunAppend(INIT, es, [e]);
    RunOne(Run(INIT, es), e);
  }

  lemma NamedWithArgument()
    ensures var st := Run(INIT, [Event(ToolOpen, ""), Event(ToolName, "f"), Event(ArgName, "a")]);
            st.cursor == LastCall && Current(st).name == "f"
  {
    var a, b, c := Event(ToolOpen, ""), Event(ToolName, "f"), Event(ArgName, "a");
    OpenedAndNamed();
    assert [a, b, c] == [a] + [b] + [c];
    RunAppend(INIT, [a] + [b], [c]);
    RunAppend(INIT, [a], [b]);
    RunOne(INIT, a);
    RunOne(Step(INIT, a), b);
    RunOne(Step(Step(INIT, a), b), c);
    FirstArgument(Step(Step(INIT, a), b), "a");
  }

  lemma CutInEscape(p: string, s: string)
    requires p == "['\\" && s == "['\\'"
    ensures p <= s && ValueText(p) == p && ValueText(s) == s && IsContainer(p)
    ensures QuoteNormalizer.CutsEscapedApostrophe(QuoteNormalizer.Raw(QuoteNormalizer.Bare, false, 0), p, s)
  {
    var r0 := QuoteNormalizer.Raw(QuoteNormalizer.Bare, false, 0);
    assert TrimmedLeading(p, 1) == p && TrimmedTrailing(p, 1) == p;
    assert TrimmedLeading(s, 1) == s && TrimmedTrailing(s, 1) == s;
    var r1 := QuoteNormalizer.RawChar(r0, '[');
    var r2 := QuoteNormalizer.RawChar(r1, '\'');
    var r3 := QuoteNormalizer.RawChar(r2, '\\');
    assert p[1..] == "'\\" && p[1..][1..] == "\\" && p[1..][1..][1..] == "";
    assert QuoteNormalizer.RawFrom(r3, "") == r3;
    assert QuoteNormalizer.RawFrom(r2, "\\") == QuoteNormalizer.RawFrom(r3, "");
    assert QuoteNormalizer.RawFrom(r1, "'\\") == QuoteNormalizer.RawFrom(r2, "\\");
  }

  /** `a` is what an earlier, possibly incomplete parse of the text behind `b` reported. */
  predicate Earlier(a: seq<Event>, b: seq<Event>) {
    || a <= b
    || (var k := |a| - 1;
        && 0 <= k < |b|
        && a[..k] == b[..k]
        && a[k].tag == b[k].tag && Growing(a[k].tag) && a[k].text <= b[k].text
        && CleanCut(StateAt(b, k), a[k].tag, a[k].text, b[k].text))
  }

  lemma EarlierExtends(a: seq<Event>, b: seq<Event>)
    requires StreamSafe(b) && Earlier(a, b)
    ensures Extends(Snapshot(a), Snapshot(b))
  {
    assert b[..|b|] == b;
    if a <= b {
      assert b[..|a|] == a;
      SafeSpanExtends(b, |a|, |b|);
    } else {
      var k := |a| - 1;
      var st := StateAt(b, k);
      assert a[..k + 1] == a;
      StateAtNext(a, k);
      StateAtNext(b, k);
      GrownNodeExactly(st, a[k].tag, a[k].text, b[k].text);
      assert a[k] == Event(a[k].tag, a[k].text) && b[k] == Event(a[k].tag, b[k].text);
      SafeSpanExtends(b, k + 1, |b|);
      ExtendsTransitive(Snapshot(a), Finish(StateAt(b, k + 1)), Snapshot(b));
    }
  }

  /** A session: the differ runs between successive snapshots and the client folds what it sends. */
  function Session(client: Msg, prv: Msg, streams: seq<seq<Event>>): Result<Msg, DiffError>
    decreases |streams|
  {
    if streams == [] then Ok(client) else
    var cur := Snapshot(streams[0]);
    match Diffs(prv, cur)
    case Err(e) => Err(e)
    case Ok(ds) => Session(ApplyAll(client, ds), cur, streams[1..])
  }

  predicate Chain(streams: seq<seq<Event>>) {
    && (forall i :: 0 <= i < |streams| ==> WellFormed(streams[i]))
    && (forall i :: 0 <= i < |streams| - 1 ==> Earlier(streams[i], streams[i + 1]))
  }

  lemma {:induction false} SessionFrom(prv: Msg, streams: seq<seq<Event>>)
    requires Chain(streams) && streams != [] && Extends(prv, Snapshot(streams[0]))
    ensures Session(prv, prv, streams) == Ok(Snapshot(streams[|streams| - 1]))
    decreases |streams|
  {
    var cur, rest := Snapshot(streams[0]), streams[1..];
    DiffRebuildsExactly(prv, cur);
    if rest == [] {
      assert Session(cur, cur, rest) == Ok(cur);
    } else {
      ChainRest(streams);
      SessionFrom(cur, rest);
    }
  }

  lemma ChainRest(streams: seq<seq<Event>>)
    requires Chain(streams) && |streams| > 1
    ensures Chain(streams[1..]) && Extends(Snapshot(streams[0]), Snapshot(streams[1]))
  {
    assert Earlier(streams[0], streams[0 + 1]);
    assert WellFormed(streams[1]);
    WellFormedIsSafe(streams[1]);
    EarlierExtends(streams[0], streams[1]);
    var rest := streams[1..];
    forall i | 0 <= i < |rest| - 1
      ensures Earlier(rest[i], rest[i + 1])
    {
      assert Earlier(streams[i + 1], streams[(i + 1) + 1]);
    }
  }

  /**
   Over any session on well-formed streams the differ never throws, and the client that
   starts from the empty message ends with the final message.
   */
  lemma SessionRebuildsFinalMessage(streams: seq<seq<Event>>)
    requires Chain(streams) && streams != []
    ensures Session(EMPTY_MSG, EMPTY_MSG, streams) == Ok(Snapshot(streams[|streams| - 1]))
  {
    SessionFrom(EMPTY_MSG, streams);
  }
}
