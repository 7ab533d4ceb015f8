/**
 Message snapshots and the deltas between them: `string_diff` and
 `common_chat_msg_diff::compute_diffs` of common/chat.cpp, and the client-side fold
 that tests/test-chat.cpp uses to rebuild a message from its deltas.
 */
module MessageDiff {
  import opened Text

  datatype ToolCall = ToolCall(name: string, arguments: string, id: string)

  datatype Msg = Msg(reasoning: string, content: string, toolCalls: seq<ToolCall>)

  const EMPTY_CALL := ToolCall("", "", "")
  const EMPTY_MSG := Msg("", "", [])

  datatype Delta = Delta(reasoning: string, content: string, index: Option<nat>, call: ToolCall)

  datatype DiffError = NotAPrefix | FewerToolCalls | NameMismatch

  type Deltas = Result<seq<Delta>, DiffError>

  // ---------------------------------------------------------------- computing deltas

  function StringDiff(last: string, current: string): Result<string, DiffError> {
    if last == [] then Ok(current)
    else if !(last <= current) then
      if current <= last then Ok("") else Err(NotAPrefix)
    else Ok(current[|last|..])
  }

  function ReasoningDelta(prv: Msg, cur: Msg): Deltas {
    if prv.reasoning == cur.reasoning then Ok([])
    else match StringDiff(prv.reasoning, cur.reasoning)
      case Ok(d) => Ok([Delta(d, "", None, EMPTY_CALL)])
      case Err(e) => Err(e)
  }

  function ContentDelta(prv: Msg, cur: Msg): Deltas {
    if prv.content == cur.content then Ok([])
    else match StringDiff(prv.content, cur.content)
      case Ok(d) => Ok([Delta("", d, None, EMPTY_CALL)])
      case Err(e) => Err(e)
  }

  function CallDelta(index: nat, pref: ToolCall, newf: ToolCall): Deltas {
    if pref.name != newf.name && pref.name != "" && newf.name != "" && !(pref.name <= newf.name) then
      Err(NameMismatch)
    else match StringDiff(pref.arguments, newf.arguments)
      case Err(e) => Err(e)
      case Ok(args) =>
        var renamed := pref.id != newf.id || pref.name != newf.name;
        if args == "" && !renamed then Ok([])
        else Ok([Delta("", "", Some(index),
                       if renamed then ToolCall(newf.name, args, newf.id) else ToolCall("", args, ""))])
  }

  /** Delta of the last call of `prv`, the only earlier call that is compared. */
  function LastCallDelta(prv: Msg, cur: Msg): Deltas
    requires |prv.toolCalls| <= |cur.toolCalls|
  {
    var n := |prv.toolCalls|;
    if n == 0 then Ok([]) else CallDelta(n - 1, prv.toolCalls[n - 1], cur.toolCalls[n - 1])
  }

  function NewCallDeltas(calls: seq<ToolCall>, from: nat): seq<Delta>
    requires from <= |calls|
    decreases |calls| - from
  {
    if from == |calls| then []
    else [Delta("", "", Some(from), calls[from])] + NewCallDeltas(calls, from + 1)
  }

  function Diffs(prv: Msg, cur: Msg): Deltas {
    var reasoning := ReasoningDelta(prv, cur);
    if reasoning.Err? then reasoning else
    var content := ContentDelta(prv, cur);
    if content.Err? then content else
    if |cur.toolCalls| < |prv.toolCalls| then Err(FewerToolCalls) else
    var last := LastCallDelta(prv, cur);
    if last.Err? then last else
    Ok(reasoning.value + content.value + last.value + NewCallDeltas(cur.toolCalls, |prv.toolCalls|))
  }

  method ComputeDiffs(prv: Msg, cur: Msg) returns (r: Deltas)
    ensures r == Diffs(prv, cur)
  {
    var diffs: seq<Delta> := [];
    if prv.reasoning != cur.reasoning {
      var d := StringDiff(prv.reasoning, cur.reasoning);
      if d.Err? {
        return Err(d.error);
      }
      diffs := diffs + [Delta(d.value, "", None, EMPTY_CALL)];
      assert diffs == [Delta(d.value, "", None, EMPTY_CALL)];
    }
    assert ReasoningDelta(prv, cur) == Ok(diffs);
    if prv.content != cur.content {
      var d := StringDiff(prv.content, cur.content);
      if d.Err? {
        return Err(d.error);
      }
      diffs := diffs + [Delta("", d.value, None, EMPTY_CALL)];
    }
    assert diffs == ReasoningDelta(prv, cur).value + ContentDelta(prv, cur).value;
    if |cur.toolCalls| < |prv.toolCalls| {
      return Err(FewerToolCalls);
    }
    if prv.toolCalls != [] {
      var idx := |prv.toolCalls| - 1;
      var pref, newf := prv.toolCalls[idx], cur.toolCalls[idx];
      if pref.name != newf.name && pref.name != "" && newf.name != "" {
        var isPrefix := pref.name <= newf.name;
        if !isPrefix {
          return Err(NameMismatch);
        }
      }
      var args := StringDiff(pref.arguments, newf.arguments);
      if args.Err? {
        return Err(args.error);
      }
      if args.value != "" || pref.id != newf.id || pref.name != newf.name {
        var call := EMPTY_CALL;
        if pref.id != newf.id || pref.name != newf.name {
          call := call.(id := newf.id, name := newf.name);
        }
        diffs := diffs + [Delta("", "", Some(idx), call.(arguments := args.value))];
      }
    }
    ghost var known := diffs;
    assert known == ReasoningDelta(prv, cur).value + ContentDelta(prv, cur).value + LastCallDelta(prv, cur).value;
    for idx := |prv.toolCalls| to |cur.toolCalls|
      invariant diffs + NewCallDeltas(cur.toolCalls, idx)
             == known + NewCallDeltas(cur.toolCalls, |prv.toolCalls|)
    {
      diffs := diffs + [Delta("", "", Some(idx), cur.toolCalls[idx])];
    }
    assert diffs + NewCallDeltas(cur.toolCalls, |cur.toolCalls|) == diffs;
    r := Ok(diffs);
  }

  // ---------------------------------------------------------------- folding deltas

  function Padded(calls: seq<ToolCall>, n: nat): (r: seq<ToolCall>)
    ensures |r| >= n && |r| >= |calls|
    decreases n - |calls|
  {
    if |calls| >= n then calls else Padded(calls + [EMPTY_CALL], n)
  }

  function Merged(call: ToolCall, d: ToolCall): ToolCall {
    ToolCall(if d.name != "" then d.name else call.name,
             call.arguments + d.arguments,
             if d.id != "" then d.id else call.id)
  }

  /** What a client does with one delta. */
  function Apply(m: Msg, d: Delta): Msg {
    Msg(m.reasoning + d.reasoning,
        m.content + d.content,
        if d.index.None? then m.toolCalls else
          var calls := Padded(m.toolCalls, d.index.value + 1);
          calls[d.index.value := Merged(calls[d.index.value], d.call)])
  }

  function ApplyAll(m: Msg, ds: seq<Delta>): Msg
    decreases |ds|
  {
    if ds == [] then m else ApplyAll(Apply(m, ds[0]), ds[1..])
  }

  lemma {:induction false} ApplyAppend(m: Msg, a: seq<Delta>, b: seq<Delta>)
    ensures ApplyAll(m, a + b) == ApplyAll(ApplyAll(m, a), b)
    decreases |a|
  {
    if a == [] {
      assert a + b == b;
    } else {
      assert (a + b)[1..] == a[1..] + b;
      ApplyAppend(Apply(m, a[0]), a[1..], b);
    }
  }

  lemma ApplyOne(m: Msg, d: Delta)
    ensures ApplyAll(m, [d]) == Apply(m, d)
  {
    assert [d][1..] == [];
    assert ApplyAll(Apply(m, d), []) == Apply(m, d);
  }

  // ---------------------------------------------------------------- when the fold rebuilds the message

  /** `b` is a later state of the call `a`: nothing that was sent is taken back. */
  predicate CallExtends(a: ToolCall, b: ToolCall) {
    a.name <= b.name && a.arguments <= b.arguments && (a.id == b.id || b.id != "")
  }

  predicate FrozenButLast(a: seq<ToolCall>, b: seq<ToolCall>)
    requires 0 < |a| <= |b|
  {
    var k := |a| - 1;
    a[..k] == b[..k] && CallExtends(a[k], b[k])
  }

  /** Texts grow by appending, calls before the last are frozen, the last one only grows. */
  predicate Extends(a: Msg, b: Msg) {
    var n := |a.toolCalls|;
    && a.reasoning <= b.reasoning
    && a.content <= b.content
    && n <= |b.toolCalls|
    && (n > 0 ==> FrozenButLast(a.toolCalls, b.toolCalls))
  }

  lemma ExtendsTransitive(a: Msg, b: Msg, c: Msg)
    requires Extends(a, b) && Extends(b, c)
    ensures Extends(a, c)
  {
    var n, k := |a.toolCalls|, |b.toolCalls|;
    if n > 0 {
      assert a.toolCalls[..n - 1] == b.toolCalls[..k - 1][..n - 1] == c.toolCalls[..n - 1];
      if n < k {
        assert b.toolCalls[n - 1] == b.toolCalls[..k - 1][n - 1] == c.toolCalls[..k - 1][n - 1] == c.toolCalls[n - 1];
      }
    }
  }

  lemma StringDiffExactly(last: string, current: string)
    ensures StringDiff(last, current).Err? <==> !(last <= current) && !(current <= last)
    ensures StringDiff(last, current).Ok? ==>
              (last + StringDiff(last, current).value == current <==> last <= current)
  {
    if last == [] {
      assert last + current == current;
    }
  }

  function DiffText(last: string, current: string): string {
    if last == current || StringDiff(last, current).Err? then "" else StringDiff(last, current).value
  }

  lemma ApplyTexts(m: Msg, cur: Msg)
    ensures ReasoningDelta(m, cur).Ok? ==>
              ApplyAll(m, ReasoningDelta(m, cur).value)
              == m.(reasoning := m.reasoning + DiffText(m.reasoning, cur.reasoning))
    ensures forall a: Msg :: a.content == m.content && ContentDelta(m, cur).Ok? ==>
              ApplyAll(a, ContentDelta(m, cur).value)
              == a.(content := m.content + DiffText(m.content, cur.content))
  {
    if ReasoningDelta(m, cur).Ok? && m.reasoning != cur.reasoning {
      ApplyOne(m, ReasoningDelta(m, cur).value[0]);
    }
    forall a: Msg | a.content == m.content && ContentDelta(m, cur).Ok?
      ensures ApplyAll(a, ContentDelta(m, cur).value)
           == a.(content := m.content + DiffText(m.content, cur.content))
    {
      if m.content != cur.content {
        ApplyOne(a, ContentDelta(m, cur).value[0]);
      }
    }
  }

  /** The last compared call after the fold. */
  function Rebuilt(pref: ToolCall, newf: ToolCall): ToolCall {
    var args := if StringDiff(pref.arguments, newf.arguments).Ok?
                then StringDiff(pref.arguments, newf.arguments).value else "";
    if pref.id == newf.id && pref.name == newf.name
    then pref.(arguments := pref.arguments + args)
    else Merged(pref, newf.(arguments := args))
  }

  lemma ApplyLast(a: Msg, prv: Msg, cur: Msg)
    requires |prv.toolCalls| <= |cur.toolCalls| && a.toolCalls == prv.toolCalls
    requires LastCallDelta(prv, cur).Ok?
    ensures ApplyAll(a, LastCallDelta(prv, cur).value)
         == var n := |prv.toolCalls|;
            if n == 0 then a
            else a.(toolCalls := prv.toolCalls[n - 1 := Rebuilt(prv.toolCalls[n - 1], cur.toolCalls[n - 1])])
  {
    var ds, n := LastCallDelta(prv, cur).value, |prv.toolCalls|;
    if ds != [] {
      ApplyOne(a, ds[0]);
    } else if n > 0 {
      assert prv.toolCalls[n - 1].arguments + "" == prv.toolCalls[n - 1].arguments;
      assert Rebuilt(prv.toolCalls[n - 1], cur.toolCalls[n - 1]) == prv.toolCalls[n - 1];
      assert prv.toolCalls[n - 1 := prv.toolCalls[n - 1]] == prv.toolCalls;
    }
  }

  lemma {:induction false} ApplyNew(a: Msg, calls: seq<ToolCall>, from: nat)
    requires from == |a.toolCalls| <= |calls|
    ensures ApplyAll(a, NewCallDeltas(calls, from)) == a.(toolCalls := a.toolCalls + calls[from..])
    decreases |calls| - from
  {
    if from < |calls| {
      var d := Delta("", "", Some(from), calls[from]);
      var b := Apply(a, d);
      assert Padded(a.toolCalls, from + 1) == Padded(a.toolCalls + [EMPTY_CALL], from + 1)
        == a.toolCalls + [EMPTY_CALL];
      assert Merged(EMPTY_CALL, calls[from]) == calls[from];
      assert (a.toolCalls + [EMPTY_CALL])[from := calls[from]] == a.toolCalls + [calls[from]];
      assert b == a.(toolCalls := a.toolCalls + [calls[from]]);
      assert NewCallDeltas(calls, from)[1..] == NewCallDeltas(calls, from + 1);
      ApplyNew(b, calls, from + 1);
    }
  }

  /** The message that folding the deltas produces, in closed form. */
  lemma FoldResult(prv: Msg, cur: Msg)
    requires Diffs(prv, cur).Ok?
    ensures |prv.toolCalls| <= |cur.toolCalls|
    ensures ApplyAll(prv, Diffs(prv, cur).value)
         == Msg(prv.reasoning + DiffText(prv.reasoning, cur.reasoning),
                prv.content + DiffText(prv.content, cur.content),
                var n := |prv.toolCalls|;
                (if n == 0 then []
                 else prv.toolCalls[n - 1 := Rebuilt(prv.toolCalls[n - 1], cur.toolCalls[n - 1])])
                + cur.toolCalls[n..])
  {
    var r, c, l := ReasoningDelta(prv, cur).value, ContentDelta(prv, cur).value, LastCallDelta(prv, cur).value;
    var n := NewCallDeltas(cur.toolCalls, |prv.toolCalls|);
    ApplyAppend(prv, r + c + l, n);
    ApplyAppend(prv, r + c, l);
    ApplyAppend(prv, r, c);
    ApplyTexts(prv, cur);
    var a := ApplyAll(prv, r + c);
    ApplyLast(a, prv, cur);
    ApplyNew(ApplyAll(a, l), cur.toolCalls, |prv.toolCalls|);
  }

  lemma RebuiltExactly(pref: ToolCall, newf: ToolCall)
    requires CallDelta(0, pref, newf).Ok?
    ensures Rebuilt(pref, newf) == newf <==> CallExtends(pref, newf)
  {
    StringDiffExactly(pref.arguments, newf.arguments);
  }

  lemma TextRebuiltExactly(last: string, current: string)
    ensures last == current || StringDiff(last, current).Ok? ==>
              (last + DiffText(last, current) == current <==> last <= current)
  {
    StringDiffExactly(last, current);
  }

  lemma CallsRebuiltExactly(p: seq<ToolCall>, q: seq<ToolCall>)
    requires 0 < |p| <= |q| && CallDelta(0, p[|p| - 1], q[|p| - 1]).Ok?
    ensures var n := |p|;
            p[n - 1 := Rebuilt(p[n - 1], q[n - 1])] + q[n..] == q <==> FrozenButLast(p, q)
  {
    var n := |p|;
    var last := Rebuilt(p[n - 1], q[n - 1]);
    var all := p[n - 1 := last] + q[n..];
    RebuiltExactly(p[n - 1], q[n - 1]);
    assert all[..n - 1] == p[..n - 1] && all[n - 1] == last && all[n..] == q[n..];
    assert all == all[..n - 1] + [all[n - 1]] + all[n..];
    assert q == q[..n - 1] + [q[n - 1]] + q[n..];
  }

  /**
   Between two snapshots the differ succeeds and the client rebuilds the newer one,
   exactly when the newer one extends the older one.
   */
  lemma DiffRebuildsExactly(prv: Msg, cur: Msg)
    ensures Diffs(prv, cur).Ok? && ApplyAll(prv, Diffs(prv, cur).value) == cur <==> Extends(prv, cur)
  {
    StringDiffExactly(prv.reasoning, cur.reasoning);
    StringDiffExactly(prv.content, cur.content);
    TextRebuiltExactly(prv.reasoning, cur.reasoning);
    TextRebuiltExactly(prv.content, cur.content);
    var n := |prv.toolCalls|;
    if 0 < n <= |cur.toolCalls| {
      StringDiffExactly(prv.toolCalls[n - 1].arguments, cur.toolCalls[n - 1].arguments);
    }
    if Diffs(prv, cur).Ok? {
      FoldResult(prv, cur);
      if n > 0 {
        CallsRebuiltExactly(prv.toolCalls, cur.toolCalls);
      } else {
        assert [] + cur.toolCalls[n..] == cur.toolCalls;
      }
    }
  }

  predicate Comparable(a: string, b: string) { a <= b || b <= a }

  /** The differ throws exactly when a text forked, a call disappeared or the last call was renamed or forked. */
  lemma DiffThrowsExactly(prv: Msg, cur: Msg)
    ensures Diffs(prv, cur).Err? <==>
            || !Comparable(prv.reasoning, cur.reasoning)
            || !Comparable(prv.content, cur.content)
            || |cur.toolCalls| < |prv.toolCalls|
            || (var n := |prv.toolCalls|;
                n > 0 && (var p, q := prv.toolCalls[n - 1], cur.toolCalls[n - 1];
                          !Comparable(p.arguments, q.arguments) || !(p.name <= q.name || q.name == "")))
  {
    StringDiffExactly(prv.reasoning, cur.reasoning);
    StringDiffExactly(prv.content, cur.content);
    var n := |prv.toolCalls|;
    if 0 < n <= |cur.toolCalls| {
      StringDiffExactly(prv.toolCalls[n - 1].arguments, cur.toolCalls[n - 1].arguments);
    }
  }

  // ---------------------------------------------------------------- what is sent

  /** What is sent of a text: the part behind the old text, and nothing when the text became shorter. */
  predicate Behind(last: string, current: string, sent: string) {
    if last <= current then last + sent == current else current <= last && sent == ""
  }

  /** Whether a call that was already there has something new to send. */
  predicate HasNews(pref: ToolCall, newf: ToolCall) {
    || pref.name != newf.name || pref.id != newf.id
    || (pref.arguments <= newf.arguments && pref.arguments != newf.arguments)
  }

  /** Name and id are sent again only when one of them changed, and then both. */
  predicate SentAgain(pref: ToolCall, newf: ToolCall, sent: ToolCall) {
    && Behind(pref.arguments, newf.arguments, sent.arguments)
    && if pref.name == newf.name && pref.id == newf.id then sent.name == "" && sent.id == ""
       else sent.name == newf.name && sent.id == newf.id
  }

  lemma TextSent(last: string, current: string)
    requires StringDiff(last, current).Ok?
    ensures Behind(last, current, StringDiff(last, current).value)
  {
    if last == [] { assert last + current == current; }
  }

  lemma CallSent(index: nat, pref: ToolCall, newf: ToolCall)
    requires CallDelta(index, pref, newf).Ok?
    ensures var ds := CallDelta(index, pref, newf).value;
            if HasNews(pref, newf)
            then |ds| == 1 && ds[0] == Delta("", "", Some(index), ds[0].call) && SentAgain(pref, newf, ds[0].call)
            else ds == []
  {
    TextSent(pref.arguments, newf.arguments);
  }

  lemma {:induction false} NewCallsSent(calls: seq<ToolCall>, from: nat)
    requires from <= |calls|
    ensures var ds := NewCallDeltas(calls, from);
            && |ds| == |calls| - from
            && forall i :: 0 <= i < |ds| ==> ds[i] == Delta("", "", Some(from + i), calls[from + i])
    decreases |calls| - from
  {
    if from < |calls| {
      NewCallsSent(calls, from + 1);
      var rest := NewCallDeltas(calls, from + 1);
      assert forall i :: 1 <= i < |calls| - from ==> NewCallDeltas(calls, from)[i] == rest[i - 1];
    }
  }

  /**
   Everything that is sent, delta by delta: the new part of the reasoning, that of the content,
   that of the last call that was there, each only if it changed, and then every new call.
   */
  lemma SentExactly(prv: Msg, cur: Msg)
    requires Diffs(prv, cur).Ok?
    ensures var ds, n := Diffs(prv, cur).value, |prv.toolCalls|;
            var a := if prv.reasoning != cur.reasoning then 1 else 0;
            var b := a + if prv.content != cur.content then 1 else 0;
            var c := b + if 0 < n <= |cur.toolCalls| && HasNews(prv.toolCalls[n - 1], cur.toolCalls[n - 1]) then 1
               else 0;
            && n <= |cur.toolCalls| && |ds| == c + |cur.toolCalls| - n
            && (a == 1 ==> ds[0] == Delta(ds[0].reasoning, "", None, EMPTY_CALL)
                           && Behind(prv.reasoning, cur.reasoning, ds[0].reasoning))
            && (b > a ==> ds[a] == Delta("", ds[a].content, None, EMPTY_CALL)
                          && Behind(prv.content, cur.content, ds[a].content))
            && (c > b ==> ds[b] == Delta("", "", Some(n - 1), ds[b].call)
                          && SentAgain(prv.toolCalls[n - 1], cur.toolCalls[n - 1], ds[b].call))
            && (forall i :: c <= i < |ds| ==> ds[i] == Delta("", "", Some(n + i - c), cur.toolCalls[n + i - c]))
  {
    hide CallDelta, StringDiff, NewCallDeltas, HasNews, SentAgain, Behind;
    var r, t, l := ReasoningDelta(prv, cur).value, ContentDelta(prv, cur).value, LastCallDelta(prv, cur).value;
    var n := |prv.toolCalls|;
    var k := NewCallDeltas(cur.toolCalls, n);
    if prv.reasoning != cur.reasoning { TextSent(prv.reasoning, cur.reasoning); }
    if prv.content != cur.content { TextSent(prv.content, cur.content); }
    if n > 0 { CallSent(n - 1, prv.toolCalls[n - 1], cur.toolCalls[n - 1]); }
    NewCallsSent(cur.toolCalls, n);
    var c := |r + t + l|;
    assert Diffs(prv, cur).value == r + t + l + k;
    forall i | c <= i < |r + t + l + k|
      ensures (r + t + l + k)[i] == Delta("", "", Some(n + i - c), cur.toolCalls[n + i - c])
    {
      assert (r + t + l + k)[i] == k[i - c];
    }
  }

  /** Nothing is sent between equal messages. */
  lemma SameSendsNothing(m: Msg)
    ensures Diffs(m, m) == Ok([])
  {
    DiffThrowsExactly(m, m);
    SentExactly(m, m);
  }

  /** A call that only grows is sent without its name and its id. */
  lemma GrownCallExample()
    ensures Diffs(Msg("", "", [ToolCall("f", "{", "7")]), Msg("", "", [ToolCall("f", "{}", "7")]))
         == Ok([Delta("", "", Some(0), ToolCall("", "}", ""))])
  {
    var a, b := Msg("", "", [ToolCall("f", "{", "7")]), Msg("", "", [ToolCall("f", "{}", "7")]);
    DiffThrowsExactly(a, b);
    SentExactly(a, b);
    var ds := Diffs(a, b).value;
    var d := ds[0].call;
    assert "{" + d.arguments == "{}" && ("{" + d.arguments)[1..] == d.arguments && "{}"[1..] == "}";
    assert ds == [Delta("", "", Some(0), d)] && d == ToolCall("", "}", "");
  }

  /** Which error is thrown: texts are compared first, then the number of calls, then name and arguments of the last. */
  lemma FirstError(prv: Msg, cur: Msg)
    ensures var n := |prv.toolCalls|;
            if !Comparable(prv.reasoning, cur.reasoning) || !Comparable(prv.content, cur.content)
            then Diffs(prv, cur) == Err(NotAPrefix)
            else if |cur.toolCalls| < n then Diffs(prv, cur) == Err(FewerToolCalls)
            else if n == 0 then Diffs(prv, cur).Ok?
            else
              var p, q := prv.toolCalls[n - 1], cur.toolCalls[n - 1];
              if !(p.name <= q.name || q.name == "") then Diffs(prv, cur) == Err(NameMismatch)
              else if !Comparable(p.arguments, q.arguments) then Diffs(prv, cur) == Err(NotAPrefix)
              else Diffs(prv, cur).Ok?
  {
    StringDiffExactly(prv.reasoning, cur.reasoning);
    StringDiffExactly(prv.content, cur.content);
    var n := |prv.toolCalls|;
    if 0 < n <= |cur.toolCalls| {
      StringDiffExactly(prv.toolCalls[n - 1].arguments, cur.toolCalls[n - 1].arguments);
    }
  }
}
