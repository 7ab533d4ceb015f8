/**
 Rewriting `<tools>` blocks that hold a tool call to `<tool_call>` blocks, before the model's
 output is parsed: the loop in `common_chat_peg_parse` of common/chat.cpp.
 */
module ToolsRewriter {
  import opened Text
  import opened Search

  const Open := "<tools>"
  const Close := "</tools>"
  const CallOpen := "<tool_call>"
  const CallClose := "</tool_call>"

  /** A text cut at its `<tools>` blocks. */
  datatype Doc = End(text: string) | Block(before: string, body: string, rest: Doc)

  predicate IsCall(body: string) {
    Find(body, "\"name\"", 0).Some? && Find(body, "\"arguments\"", 0).Some?
  }

  datatype Cut = Cut(before: string, body: string, rest: string)

  /** The first `<tools>` block of a text, from its opening tag to the next closing tag. */
  function FirstCut(s: string): (r: Option<Cut>)
    ensures r.Some? ==> |r.value.before| + |Open| + |r.value.body| + |Close| + |r.value.rest| == |s|
  {
    var o := Find(s, Open, 0);
    if o.None? then None else
    var bodyStart := o.value + |Open|;
    var c := Find(s, Close, bodyStart);
    if c.None? then None else
    Some(Cut(s[..o.value], s[bodyStart..c.value], s[c.value + |Close|..]))
  }

  function DocOf(s: string): Doc
    decreases |s|
  {
    match FirstCut(s)
    case None => End(s)
    case Some(cut) => Block(cut.before, cut.body, DocOf(cut.rest))
  }

  function Source(d: Doc): string {
    match d
    case End(text) => text
    case Block(before, body, rest) => before + (Open + (body + (Close + Source(rest))))
  }

  function BlockOutput(body: string): string {
    if IsCall(body) then CallOpen + body + CallClose else Open + body + Close
  }

  function Output(d: Doc): string {
    match d
    case End(text) => text
    case Block(before, body, rest) => before + BlockOutput(body) + Output(rest)
  }

  /** The number of blocks that are rewritten. */
  function Calls(d: Doc): nat {
    match d
    case End(_) => 0
    case Block(_, body, rest) => (if IsCall(body) then 1 else 0) + Calls(rest)
  }

  function Rewritten(s: string): string { Output(DocOf(s)) }

  // ---------------------------------------------------------------- the loop

  method RewriteTools(input: string) returns (normalized: string)
    ensures normalized == Rewritten(input)
  {
    hide Find, At, IsCall, FirstCut, DocOf, Output, Rewritten;
    normalized := "";
    var pos := 0;
    assert input[0..] == input;
    while true
      invariant 0 <= pos <= |input|
      invariant normalized + Rewritten(input[pos..]) == Rewritten(input)
      decreases |input| - pos
    {
      var o := Find(input, Open, pos);
      CutFrom(input, pos);
      RewrittenStep(input[pos..]);
      if o.None? {
        normalized := normalized + input[pos..];
        break;
      }
      var bodyStart := o.value + |Open|;
      var c := Find(input, Close, bodyStart);
      if c.None? {
        normalized := normalized + input[pos..];
        break;
      }
      var body := input[bodyStart..c.value];
      ghost var done := normalized;
      var before := input[pos..o.value];
      normalized := normalized + before;
      if IsCall(body) {
        normalized := normalized + CallOpen;
        normalized := normalized + body;
        normalized := normalized + CallClose;
      } else {
        normalized := normalized + input[o.value..c.value + |Close|];
      }
      pos := c.value + |Close|;
      Regroup(done, before, body, Rewritten(input[pos..]));
    }
  }

  lemma RewrittenStep(s: string)
    ensures Rewritten(s) == match FirstCut(s)
                            case None => s
                            case Some(cut) => cut.before + BlockOutput(cut.body) + Rewritten(cut.rest)
  {
  }

  /** The searches from `pos` find the first block of the rest of the text. */
  lemma CutFrom(s: string, pos: nat)
    requires pos <= |s|
    ensures var o := Find(s, Open, pos);
            var cut := FirstCut(s[pos..]);
            if o.None? then cut == None else
            && pos <= o.value && o.value + |Open| <= |s|
            && var c := Find(s, Close, o.value + |Open|);
               if c.None? then cut == None else
               && o.value + |Open| <= c.value && c.value + |Close| <= |s|
               && s[o.value..c.value + |Close|] == Open + s[o.value + |Open|..c.value] + Close
               && cut == Some(Cut(s[pos..o.value], s[o.value + |Open|..c.value], s[c.value + |Close|..]))
  {
    hide Find, At;
    FindShift(s, Open, pos, 0);
    Found(s, Open, pos);
    var o := Find(s, Open, pos);
    if o.Some? {
      var n := o.value + |Open|;
      FindShift(s, Close, pos, n - pos);
      Found(s, Close, n);
      var c := Find(s, Close, n);
      if c.Some? {
        CutSlices(s, pos, o.value, n, c.value, c.value + |Close|);
      }
    }
  }

  lemma Regroup(done: string, before: string, body: string, rest: string)
    ensures done + before + CallOpen + body + CallClose + rest == done + (before + (CallOpen + body + CallClose) + rest)
    ensures done + before + (Open + body + Close) + rest == done + (before + (Open + body + Close) + rest)
  {
  }

  lemma CutSlices(s: string, pos: nat, o: nat, n: nat, c: nat, e: nat)
    requires pos <= o <= n <= c <= e <= |s|
    ensures var rest := s[pos..];
            && rest[..o - pos] == s[pos..o] && rest[n - pos..c - pos] == s[n..c] && rest[e - pos..] == s[e..]
            && s[o..e] == s[o..n] + s[n..c] + s[c..e]
  {
  }

  // ---------------------------------------------------------------- the blocks are the right ones

  /** No closing tag comes after an opening tag. */
  ghost predicate Unmatched(text: string) {
    forall i: nat, j: nat :: At(text, Open, i) && At(text, Close, j) ==> j < i + |Open|
  }

  /** Every block starts at the first opening tag and ends at the first closing tag after it. */
  ghost predicate WellCut(d: Doc) {
    match d
    case End(text) => Unmatched(text)
    case Block(before, body, rest) => Absent(before, Open) && Absent(body, Close) && WellCut(rest)
  }

  /** The blocks and the text between them are all of the text. */
  lemma {:induction false} NothingLost(s: string)
    ensures Source(DocOf(s)) == s && WellCut(DocOf(s))
    decreases |s|
  {
    hide FirstCut, At;
    FirstCutParts(s);
    if FirstCut(s).Some? { NothingLost(FirstCut(s).value.rest); }
  }

  lemma FirstCutParts(s: string)
    ensures var cut := FirstCut(s);
            if cut.None? then Unmatched(s) else
            && var Cut(before, body, rest) := cut.value;
               before + (Open + (body + (Close + rest))) == s && Absent(before, Open) && Absent(body, Close)
  {
    hide At, Find, Absent;
    var o := Find(s, Open, 0);
    AbsentBefore(s, Open);
    Found(s, Open, 0);
    if o.None? {
      UnmatchedWithout(s, |s|);
    } else {
      var n := o.value + |Open|;
      var c := Find(s, Close, n);
      Found(s, Close, n);
      FindShift(s, Close, n, 0);
      AbsentBefore(s[n..], Close);
      if c.None? {
        UnmatchedWithout(s, o.value);
      } else {
        assert s[n..][..c.value - n] == s[n..c.value];
        Rejoin(s, o.value, n, c.value, c.value + |Close|);
      }
    }
  }

  lemma UnmatchedWithout(s: string, o: nat)
    requires Find(s, Open, 0) == None || (Find(s, Open, 0) == Some(o) && Find(s, Close, o + |Open|) == None)
    ensures Unmatched(s)
  {
  }

  lemma Rejoin(s: string, o: nat, n: nat, c: nat, e: nat)
    requires o <= n <= c <= e <= |s|
    ensures s[..o] + (s[o..n] + (s[n..c] + (s[c..e] + s[e..]))) == s
  {
  }

  lemma TagsSeparate()
    ensures HeadOnlyOnce(Open) && HeadOnlyOnce(Close) && LastOnlyOnce(Open)
  {
  }

  lemma FirstBlock(before: string, body: string, rest: string)
    requires Absent(before, Open) && Absent(body, Close)
    ensures FirstCut(before + (Open + (body + (Close + rest)))) == Some(Cut(before, body, rest))
  {
    hide At, Absent;
    var s := before + (Open + (body + (Close + rest)));
    TagsSeparate();
    FindAfter(before, Open, body + (Close + rest));
    FindAfter(body, Close, rest);
    FindShift(s, Close, |before| + |Open|, 0);
    Split(before, Open, body, Close, rest);
  }

  lemma Split(a: string, b: string, c: string, d: string, e: string)
    ensures var s := a + (b + (c + (d + e)));
            && s[..|a|] == a && s[|a| + |b|..] == c + (d + e)
            && s[|a| + |b|..|a| + |b| + |c|] == c && s[|a| + |b| + |c| + |d|..] == e
  {
    var s := a + (b + (c + (d + e)));
    assert s[|a| + |b|..] == c + (d + e);
  }

  /** There is one way to cut a text at its blocks, and `DocOf` finds it. */
  lemma {:induction false} CutIsUnique(d: Doc)
    ensures WellCut(d) <==> DocOf(Source(d)) == d
  {
    hide At, FirstCut;
    NothingLost(Source(d));
    if WellCut(d) {
      if d.End? {
        UnmatchedHasNoBlock(d.text);
      } else {
        CutIsUnique(d.rest);
        FirstBlock(d.before, d.body, Source(d.rest));
      }
    }
  }

  lemma UnmatchedHasNoBlock(s: string)
    requires Unmatched(s)
    ensures FirstCut(s) == None
  {
  }

  // ---------------------------------------------------------------- growth

  /** Each rewritten block grows by eight characters, and nothing else changes length. */
  lemma {:induction false} GrowsByEight(d: Doc)
    ensures |Output(d)| == |Source(d)| + 8 * Calls(d)
  {
    if d.Block? { GrowsByEight(d.rest); }
  }

  /** A text is left alone exactly when it has no block with a call. */
  lemma UnchangedExactly(s: string)
    ensures Rewritten(s) == s <==> Calls(DocOf(s)) == 0
  {
    NothingLost(s);
    GrowsByEight(DocOf(s));
    if Calls(DocOf(s)) == 0 { NoCallsNoChange(DocOf(s)); }
  }

  lemma {:induction false} NoCallsNoChange(d: Doc)
    requires Calls(d) == 0
    ensures Output(d) == Source(d)
  {
    if d.Block? {
      NoCallsNoChange(d.rest);
      assert d.before + (Open + d.body + Close) + Source(d.rest) == Source(d);
    }
  }

  // ---------------------------------------------------------------- idempotence

  /** No rewritten body contains an opening tag. */
  ghost predicate NoInnerOpen(d: Doc) {
    d.Block? ==> (IsCall(d.body) ==> Absent(d.body, Open)) && NoInnerOpen(d.rest)
  }

  function Prepended(t: string, d: Doc): Doc {
    match d
    case End(text) => End(t + text)
    case Block(before, body, rest) => Block(t + before, body, rest)
  }

  /** The same text after rewriting: rewritten blocks have become plain text. */
  function Flattened(d: Doc): Doc {
    match d
    case End(_) => d
    case Block(before, body, rest) =>
      if IsCall(body) then Prepended(before + (CallOpen + (body + CallClose)), Flattened(rest))
      else Block(before, body, Flattened(rest))
  }

  lemma {:induction false} FlattenedIsOutput(d: Doc)
    ensures Source(Flattened(d)) == Output(d) && Calls(Flattened(d)) == 0
  {
    if d.Block? {
      FlattenedIsOutput(d.rest);
      var out := Output(d.rest);
      if IsCall(d.body) {
        var t := d.before + (CallOpen + (d.body + CallClose));
        PrependedSource(t, Flattened(d.rest));
        assert t + out == d.before + (CallOpen + d.body + CallClose) + out;
      } else {
        assert d.before + (Open + (d.body + (Close + out))) == d.before + (Open + d.body + Close) + out;
      }
    }
  }

  lemma PrependedSource(t: string, d: Doc)
    ensures Source(Prepended(t, d)) == t + Source(d) && Calls(Prepended(t, d)) == Calls(d)
  {
    if d.Block? {
      var tail := Open + (d.body + (Close + Source(d.rest)));
      assert t + d.before + tail == t + (d.before + tail);
    }
  }

  lemma PrependedWellCut(t: string, d: Doc)
    requires WellCut(d) && Absent(t, Open) && t != [] && t[|t| - 1] == '>'
    ensures WellCut(Prepended(t, d))
  {
    TagsSeparate();
    if d.Block? {
      AbsentSeam(t, d.before, Open);
    } else {
      UnmatchedSeam(t, d.text);
    }
  }

  lemma UnmatchedSeam(t: string, u: string)
    requires Absent(t, Open) && Unmatched(u) && t != [] && t[|t| - 1] == '>'
    ensures Unmatched(t + u)
  {
    TagsSeparate();
    var s := t + u;
    assert s[|t|..] == u;
    forall i: nat, j: nat | At(s, Open, i) && At(s, Close, j) ensures j < i + |Open| {
      AtSeam(t, u, Open, i);
      assert At(u, Open, i - |t|);
      if j >= |t| {
        AtShift(s, Close, |t|, j - |t|);
      }
    }
  }

  /** No tag contains another one. */
  lemma TagsDiffer()
    ensures Absent(CallOpen, Open) && Absent(CallClose, Open) && Absent(Close, Open)
    ensures Absent(CallOpen, Close) && Absent(CallClose, Close) && Absent(Open, Close)
  {
    OtherTag(CallOpen, Open, 5);
    OtherTag(CallClose, Open, 1);
    OtherTag(Close, Open, 1);
    OtherTag(CallOpen, Close, 1);
    OtherTag(CallClose, Close, 6);
    OtherTag(Open, Close, 1);
  }

  lemma OtherTag(tag: string, w: string, k: nat)
    requires HeadOnlyOnce(tag) && w != [] && w[0] == tag[0]
    requires k < |w| && k < |tag| && w[k] != tag[k]
    ensures Absent(tag, w)
  {
    forall i: nat ensures !At(tag, w, i) {
      if i + |w| <= |tag| {
        AtChars(tag, w, i);
        assert i == 0 ==> w[k] != tag[i + k];
        assert i > 0 ==> w[0] != tag[i + 0];
      }
    }
  }

  lemma CallTagsHaveNoOpen(before: string, body: string)
    requires Absent(before, Open) && Absent(body, Open)
    ensures Absent(before + (CallOpen + (body + CallClose)), Open)
  {
    TagsSeparate();
    assert CallOpen[0] == '<' && CallClose[0] == '<';
    TagsDiffer();
    AbsentSeam(body, CallClose, Open);
    AbsentSeam(CallOpen, body + CallClose, Open);
    AbsentSeam(before, CallOpen + (body + CallClose), Open);
  }

  lemma {:induction false} FlattenedIsWellCut(d: Doc)
    requires WellCut(d) && NoInnerOpen(d)
    ensures WellCut(Flattened(d))
  {
    if d.Block? {
      FlattenedIsWellCut(d.rest);
      if IsCall(d.body) {
        CallTagsHaveNoOpen(d.before, d.body);
        PrependedWellCut(d.before + (CallOpen + (d.body + CallClose)), Flattened(d.rest));
      }
    }
  }

  /** A second pass finds no call when no rewritten body contains an opening tag. */
  lemma Idempotent(s: string)
    requires NoInnerOpen(DocOf(s))
    ensures DocOf(Rewritten(s)) == Flattened(DocOf(s))
    ensures Rewritten(Rewritten(s)) == Rewritten(s)
  {
    var d := DocOf(s);
    NothingLost(s);
    FlattenedIsWellCut(d);
    FlattenedIsOutput(d);
    CutIsUnique(Flattened(d));
    NoCallsNoChange(Flattened(d));
  }

  /** Without that condition the second pass can rewrite what the first one exposed. */
  lemma InnerOpenIsRewrittenLater()
    ensures var s := Open + Open + "\"name\"\"arguments\"" + Close + Close;
            Rewritten(Rewritten(s)) != Rewritten(s)
  {
    hide At, Absent, Find, FirstCut, IsCall;
    var tail := "\"name\"\"arguments\"";
    CallText(Open, tail, "");
    CallText("", tail, CallClose);
    assert Open + tail + "" == Open + tail && "" + tail + CallClose == tail + CallClose;
    InnerDocs(tail);
    InnerTexts(tail);
    var once := Output(Block("", Open + tail, End(Close)));
    assert Rewritten(Open + Open + tail + Close + Close) == once;
    assert Calls(DocOf(once)) != 0;
    UnchangedExactly(once);
  }

  lemma InnerDocs(tail: string)
    requires '<' !in tail
    ensures var d := Block("", Open + tail, End(Close)); DocOf(Source(d)) == d
    ensures var d := Block(CallOpen, tail + CallClose, End("")); DocOf(Source(d)) == d
  {
    TagsSeparate();
    TagsDiffer();
    AbsentWithoutHead(tail, Close);
    AbsentSeam(Open, tail, Close);
    AbsentSeam(tail, CallClose, Close);
    AbsentWithoutHead("", Open);
    UnmatchedWithout(Close, 0);
    UnmatchedWithout("", 0);
    CutIsUnique(Block("", Open + tail, End(Close)));
    CutIsUnique(Block(CallOpen, tail + CallClose, End("")));
  }

  lemma InnerTexts(tail: string)
    requires IsCall(Open + tail)
    ensures Source(Block("", Open + tail, End(Close))) == Open + Open + tail + Close + Close
    ensures Output(Block("", Open + tail, End(Close))) == Source(Block(CallOpen, tail + CallClose, End("")))
  {
    hide At, Find, IsCall;
    assert CallOpen + (Open + tail) + CallClose + Close == CallOpen + (Open + ((tail + CallClose) + (Close + "")));
  }

  lemma CallText(before: string, tail: string, after: string)
    requires tail == "\"name\"\"arguments\""
    ensures IsCall(before + tail + after)
  {
    var s := before + tail + after;
    assert s[|before|..|before| + 6] == "\"name\"";
    assert At(s, "\"name\"", |before|);
    assert s[|before| + 6..|before| + 17] == "\"arguments\"";
    assert At(s, "\"arguments\"", |before| + 6);
  }

  // ---------------------------------------------------------------- which blocks are rewritten

  /** A block is rewritten if and only if both words occur in its body, in any order and at any place. */
  lemma BlockOutputExactly(body: string)
    ensures BlockOutput(body)
         == if (exists i: nat :: At(body, "\"name\"", i)) && (exists j: nat :: At(body, "\"arguments\"", j))
            then "<tool_call>" + body + "</tool_call>" else "<tools>" + body + "</tools>"
  {
  }

  /** A block that lists a tool without calling it stays as it is. */
  lemma ListedToolStays()
    ensures var s := "<tools>" + "{\"name\": \"f\"}" + "</tools>"; Rewritten(s) == s
  {
    hide At, Absent, Find, FirstCut;
    var body := "{\"name\": \"f\"}";
    AbsentWithout(body, "\"arguments\"", 4);
    AbsentFind(body, "\"arguments\"");
    BlockAlone(body);
  }

  /** A block alone, with text that holds no tag. */
  lemma BlockAlone(body: string)
    requires '<' !in body
    ensures Rewritten(Open + body + Close) == BlockOutput(body)
  {
    hide At, Absent, Find, FirstCut, IsCall, Unmatched;
    TagsSeparate();
    AbsentWithoutHead(body, Close);
    AbsentWithoutHead("", Open);
    AbsentFind("", Open);
    UnmatchedWithout("", 0);
    var d := Block("", body, End(""));
    CutIsUnique(d);
    assert Source(d) == Open + body + Close;
    assert Output(d) == "" + BlockOutput(body) + "";
  }

  // ---------------------------------------------------------------- idempotence, exactly

  /**
   Whether the second pass finds no call, told from the cut of the first: a rewritten body may
   hold an opening tag, which is then exposed.
   */
  predicate Settled(d: Doc)
    decreases |Source(d)|
  {
    match d
    case End(_) => true
    case Block(_, body, rest) =>
      var o := Find(body, Open, 0);
      if IsCall(body) && o.Some? then SettledIn(body[o.value + |Open|..] + CallClose, rest) else Settled(rest)
  }

  /** The same with an exposed opening tag that was followed by `pending`, up to the next closing tag that survives. */
  predicate SettledIn(pending: string, d: Doc)
    decreases |Source(d)|
  {
    match d
    case End(text) =>
      var c := Find(text, Close, 0);
      c.None? || !IsCall(pending + text[..c.value])
    case Block(before, body, rest) =>
      var c := Find(before, Close, 0);
      if c.Some? then
        !IsCall(pending + before[..c.value]) && Settled(Block(before[c.value + |Close|..], body, rest))
      else if IsCall(body) then
        SettledIn(pending + (before + (CallOpen + (body + CallClose))), rest)
      else
        !IsCall(pending + (before + (Open + body))) && Settled(rest)
  }

  /** A text that can stand before anything without making an opening or a closing tag with it. */
  predicate EndsTag(t: string) { t == "" || t[|t| - 1] == '>' }

  lemma Seams(a: string, b: string, w: string)
    requires w == Open || w == Close
    requires EndsTag(a) || (b != "" && b[0] == '<')
    ensures Absent(a + b, w) <==> Absent(a, w) && Absent(b, w)
  {
    TagsSeparate();
    assert LastOnlyOnce(Close);
    AbsentSeam(a, b, w);
  }

  /** What a first occurrence leaves before and behind it. */
  lemma CutAtWord(s: string, w: string)
    requires w != ""
    ensures var f := Find(s, w, 0);
            if f.None? then Absent(s, w)
            else f.value + |w| <= |s| && s == s[..f.value] + (w + s[f.value + |w|..]) && Absent(s[..f.value], w)
  {
    hide At, Find, Absent;
    AbsentBefore(s, w);
    Found(s, w, 0);
    var f := Find(s, w, 0);
    if f.Some? { assert s == s[..f.value] + (s[f.value..f.value + |w|] + s[f.value + |w|..]); }
  }

  lemma AbsentBehind(a: string, b: string, w: string)
    requires Absent(a + b, w)
    ensures Absent(b, w)
  {
    assert (a + b)[|a|..] == b;
    forall i: nat ensures !At(b, w, i) { AtShift(a + b, w, |a|, i); }
  }

  lemma FirstBlockCalls(before: string, body: string, rest: string)
    requires Absent(before, Open) && Absent(body, Close)
    ensures Calls(DocOf(before + (Open + (body + (Close + rest)))))
        == (if IsCall(body) then 1 else 0) + Calls(DocOf(rest))
  {
    hide FirstCut, Absent, IsCall;
    FirstBlock(before, body, rest);
  }

  lemma NoCloserNoCalls(before: string, after: string)
    requires Absent(before, Open) && Absent(after, Close)
    ensures Calls(DocOf(before + (Open + after))) == 0
  {
    hide At, Absent;
    var s := before + (Open + after);
    TagsSeparate();
    FindAfter(before, Open, after);
    assert s[|before| + |Open|..] == after;
    FindShift(s, Close, |before| + |Open|, 0);
    AbsentFind(after, Close);
    assert FirstCut(s) == None;
  }

  lemma AbsentFind(s: string, w: string)
    requires Absent(s, w)
    ensures Find(s, w, 0) == None
  {
  }

  lemma UnmatchedNoCalls(t: string, text: string)
    requires Absent(t, Open) && EndsTag(t) && Unmatched(text)
    ensures Calls(DocOf(t + text)) == 0
  {
    if t == "" {
      assert t + text == text;
    } else {
      UnmatchedSeam(t, text);
    }
    UnmatchedHasNoBlock(t + text);
  }

  lemma UnmatchedBehind(a: string, b: string)
    requires Unmatched(a + b)
    ensures Unmatched(b)
  {
    assert (a + b)[|a|..] == b;
    forall i: nat, j: nat | At(b, Open, i) && At(b, Close, j) ensures j < i + |Open| {
      AtShift(a + b, Open, |a|, i);
      AtShift(a + b, Close, |a|, j);
    }
  }

  /** The second pass over a text without an open tag before the rest of the output. */
  lemma {:induction false} SettledCalls(t: string, d: Doc)
    requires WellCut(d) && Absent(t, Open) && EndsTag(t)
    ensures Calls(DocOf(t + Output(d))) == 0 <==> Settled(d)
    decreases |Source(d)|
  {
    hide DocOf, Absent, IsCall, Calls, Find, EndsTag;
    match d
    case End(text) => UnmatchedNoCalls(t, text);
    case Block(before, body, rest) =>
      Seams(t, before, Open);
      if !IsCall(body) {
        RegroupPlain(t, before, body, Output(rest));
        FirstBlockCalls(t + before, body, Output(rest));
        NoTextBefore(Output(rest));
        SettledCalls("", rest);
      } else {
        CutAtWord(body, Open);
        TagsDiffer();
        var o := Find(body, Open, 0);
        if o.None? {
          CallTagsHaveNoOpen(before, body);
          var call := before + (CallOpen + (body + CallClose));
          EndsInTag(t, call);
          RegroupCall(t, before, body, Output(rest));
          SettledCalls(t + call, rest);
        } else {
          var b1, b2 := body[..o.value], body[o.value + |Open|..];
          ExposedTag(t, before, b1, b2, Output(rest));
          assert body == b1 + Open + b2;
          PendingHasNoClose(b1 + Open, b2);
          SettledPending((t + before) + (CallOpen + b1), b2 + CallClose, rest);
        }
      }
  }

  lemma NoTextBefore(s: string)
    ensures "" + s == s && EndsTag("") && Absent("", Open)
  {
    AbsentWithoutHead("", Open);
  }

  lemma RegroupPlain(t: string, before: string, body: string, rest: string)
    ensures t + (before + (Open + body + Close) + rest) == (t + before) + (Open + (body + (Close + rest)))
  {
  }

  lemma RegroupCall(t: string, before: string, body: string, rest: string)
    ensures t + (before + (CallOpen + body + CallClose) + rest)
        == (t + (before + (CallOpen + (body + CallClose)))) + rest
  {
  }

  lemma EndsInTag(t: string, call: string)
    requires Absent(t, Open) && Absent(call, Open) && EndsTag(t) && call != "" && call[|call| - 1] == '>'
    ensures Absent(t + call, Open) && EndsTag(t + call)
  {
    Seams(t, call, Open);
  }

  /** The text before an exposed opening tag holds no other one. */
  lemma ExposedTag(t: string, before: string, b1: string, b2: string, rest: string)
    requires Absent(t, Open) && Absent(before, Open) && Absent(b1, Open) && EndsTag(t)
    ensures Absent((t + before) + (CallOpen + b1), Open)
    ensures t + (before + (CallOpen + (b1 + (Open + b2)) + CallClose) + rest)
         == ((t + before) + (CallOpen + b1)) + (Open + ((b2 + CallClose) + rest))
  {
    TagsDiffer();
    Seams(t, before, Open);
    Seams(CallOpen, b1, Open);
    Seams(t + before, CallOpen + b1, Open);
  }

  lemma PendingHasNoClose(a: string, b: string)
    requires Absent(a + b, Close)
    ensures Absent(b + CallClose, Close) && EndsTag(b + CallClose)
  {
    AbsentBehind(a, b, Close);
    TagsDiffer();
    Seams(b, CallClose, Close);
  }

  /** The second pass behind an exposed opening tag. */
  lemma {:induction false} SettledPending(t: string, pending: string, d: Doc)
    requires WellCut(d) && Absent(t, Open) && Absent(pending, Close) && EndsTag(pending)
    ensures Calls(DocOf(t + (Open + (pending + Output(d))))) == 0 <==> SettledIn(pending, d)
    decreases |Source(d)|
  {
    hide DocOf, Absent, IsCall, Calls, Find, EndsTag;
    match d
    case End(text) =>
      CutAtWord(text, Close);
      var c := Find(text, Close, 0);
      if c.None? {
        Seams(pending, text, Close);
        NoCloserNoCalls(t, pending + text);
      } else {
        var x, y := text[..c.value], text[c.value + |Close|..];
        Seams(pending, x, Close);
        RegroupCloser(pending, x, y);
        FirstBlockCalls(t, pending + x, y);
        assert text == (x + Close) + y;
        UnmatchedBehind(x + Close, y);
        NoTextBefore(y);
        UnmatchedNoCalls("", y);
      }
    case Block(before, body, rest) =>
      CutAtWord(before, Close);
      var c := Find(before, Close, 0);
      if c.Some? {
        var x, y := before[..c.value], before[c.value + |Close|..];
        var later := Block(y, body, rest);
        Seams(pending, x, Close);
        assert before == (x + Close) + y;
        AbsentBehind(x + Close, y, Open);
        assert Output(d) == x + (Close + Output(later)) by { RegroupOutput(x, y, BlockOutput(body), Output(rest)); }
        RegroupCloser(pending, x, Output(later));
        FirstBlockCalls(t, pending + x, Output(later));
        NoTextBefore(Output(later));
        SettledCalls("", later);
      } else if IsCall(body) {
        var more := before + (CallOpen + (body + CallClose));
        CallHasNoClose(before, body);
        EndsWithCall(pending, more);
        RegroupPending(pending, before, body, Output(rest));
        SettledPending(t, pending + more, rest);
      } else {
        var block := pending + (before + (Open + body));
        BlockHasNoClose(before, body);
        Seams(pending, before + (Open + body), Close);
        RegroupBlock(pending, before, body, Output(rest));
        FirstBlockCalls(t, block, Output(rest));
        NoTextBefore(Output(rest));
        SettledCalls("", rest);
      }
  }

  lemma RegroupCloser(pending: string, x: string, y: string)
    ensures pending + (x + (Close + y)) == (pending + x) + (Close + y)
  {
  }

  lemma RegroupOutput(x: string, y: string, block: string, rest: string)
    ensures ((x + Close) + y) + block + rest == x + (Close + (y + block + rest))
  {
  }

  lemma RegroupPending(pending: string, before: string, body: string, rest: string)
    ensures pending + (before + (CallOpen + body + CallClose) + rest)
         == (pending + (before + (CallOpen + (body + CallClose)))) + rest
  {
  }

  lemma RegroupBlock(pending: string, before: string, body: string, rest: string)
    ensures pending + (before + (Open + body + Close) + rest) == (pending + (before + (Open + body))) + (Close + rest)
  {
  }

  lemma CallHasNoClose(before: string, body: string)
    requires Absent(before, Close) && Absent(body, Close)
    ensures Absent(before + (CallOpen + (body + CallClose)), Close)
  {
    TagsDiffer();
    Seams(body, CallClose, Close);
    Seams(CallOpen, body + CallClose, Close);
    Seams(before, CallOpen + (body + CallClose), Close);
  }

  lemma EndsWithCall(pending: string, more: string)
    requires Absent(pending, Close) && Absent(more, Close) && EndsTag(pending) && more != "" && more[|more| - 1] == '>'
    ensures Absent(pending + more, Close) && EndsTag(pending + more)
  {
    Seams(pending, more, Close);
  }

  lemma BlockHasNoClose(before: string, body: string)
    requires Absent(before, Close) && Absent(body, Close)
    ensures Absent(before + (Open + body), Close)
  {
    TagsDiffer();
    Seams(Open, body, Close);
    Seams(before, Open + body, Close);
  }

  /** A second pass changes nothing if and only if no exposed opening tag encloses a call with the next closing tag. */
  lemma IdempotentExactly(s: string)
    ensures Rewritten(Rewritten(s)) == Rewritten(s) <==> Settled(DocOf(s))
  {
    hide DocOf, Settled;
    NothingLost(s);
    NoTextBefore(Output(DocOf(s)));
    SettledCalls("", DocOf(s));
    UnchangedExactly(Rewritten(s));
  }

  /** An inner opening tag alone does no harm: this text is stable after one pass. */
  lemma InnerOpenCanSettle()
    ensures var s := Open + (Open + "\"name\"\"arguments\"") + Close;
            !NoInnerOpen(DocOf(s)) && Rewritten(s) != s && Rewritten(Rewritten(s)) == Rewritten(s)
  {
    hide At, Absent, Find, FirstCut, IsCall;
    var tail := "\"name\"\"arguments\"";
    var s, d := Open + (Open + tail) + Close, Block("", Open + tail, End(""));
    CallText(Open, tail, "");
    assert Open + tail + "" == Open + tail && Open + (Open + tail) + Close == Source(d);
    InnerAlone(tail);
    IdempotentExactly(s);
    UnchangedExactly(s);
  }

  lemma InnerAlone(tail: string)
    requires '<' !in tail
    ensures var d := Block("", Open + tail, End("")); DocOf(Source(d)) == d
    ensures !Absent(Open + tail, Open) && Find(Open + tail, Open, 0).Some? && Find("", Close, 0).None?
  {
    TagsSeparate();
    TagsDiffer();
    AbsentWithoutHead(tail, Close);
    AbsentSeam(Open, tail, Close);
    AbsentWithoutHead("", Open);
    AbsentFind("", Open);
    UnmatchedWithout("", 0);
    CutIsUnique(Block("", Open + tail, End("")));
    assert At(Open + tail, Open, 0);
    FindIs(Open + tail, Open, 0, 0);
  }
}
