/**
 Streaming a tagged tool call: whatever the text and however it grows, the differ never
 throws and the deltas rebuild the final message, when the format can stream at all.
 StreamForks shows that it must.
 */
module StreamedCalls {
  import opened Text
  import opened MessageDiff
  import opened ToolCallMapper
  import opened Streaming
  import opened Peg
  import opened TaggedArgs
  import opened TaggedCalls
  import opened GrowingParses
  import opened GrowingArguments
  import opened GrowingCalls
  import opened CallShapes

  // ---------------------------------------------------------------- growing texts

  /** Right after an argument's name no quote is open. */
  lemma NoQuoteOpen(es: seq<Event>, k: nat)
    requires k <= |es| && Opened(es[..k])
    ensures !StateAt(es, k).quotePending
  {
    var o, n := es[k - 2], es[k - 1];
    assert es[..k] == es[..k - 2] + [o] + [n];
    RunAppend(INIT, es[..k - 2] + [o], [n]);
    RunAppend(INIT, es[..k - 2], [o]);
    var before := Run(INIT, es[..k - 2]);
    RunOne(before, o);
    RunOne(Step(before, o), n);
    KeepsQuote(Step(before, o), n);
  }

  lemma KeepsQuote(st: State, e: Event)
    requires Valid(st) && e.tag == ArgName
    ensures Step(st, e).quotePending == st.quotePending
  {
  }

  lemma AheadIsEarlier(a: seq<Event>, b: seq<Event>)
    requires Ahead(a, b)
    ensures Earlier(a, b)
  {
    if !(a <= b) && a[|a| - 1].tag == ArgStringValue {
      NoQuoteOpen(b, |a| - 1);
    }
  }

  /** What the parses of these texts report. */
  function Reports(p: Parser, texts: seq<string>): seq<seq<Event>> {
    seq(|texts|, i requires 0 <= i < |texts| => var r := Parse(p, texts[i]); if r.Fail? then [] else r.nodes)
  }

  function Essentials(streams: seq<seq<Event>>): seq<seq<Event>> {
    seq(|streams|, i requires 0 <= i < |streams| => Essential(streams[i]))
  }

  lemma {:induction false} SessionEssential(client: Msg, prv: Msg, streams: seq<seq<Event>>)
    ensures Session(client, prv, Essentials(streams)) == Session(client, prv, streams)
    decreases |streams|
  {
    if streams != [] {
      RunEssential(INIT, streams[0]);
      var cur := Snapshot(streams[0]);
      assert Essentials(streams)[1..] == Essentials(streams[1..]);
      if Diffs(prv, cur).Ok? {
        SessionEssential(ApplyAll(client, Diffs(prv, cur).value), cur, streams[1..]);
      }
    }
  }

  predicate GrowingTexts(texts: seq<string>) {
    forall i :: 0 <= i < |texts| - 1 ==> texts[i] <= texts[i + 1]
  }

  lemma {:induction false} LastIsLongest(texts: seq<string>, i: nat)
    requires GrowingTexts(texts) && i < |texts|
    ensures texts[i] <= texts[|texts| - 1]
    decreases |texts| - i
  {
    if i < |texts| - 1 {
      LastIsLongest(texts, i + 1);
      assert texts[i] <= texts[i + 1];
    }
  }

  /** No parse that is followed by a successful one fails or reports something that is taken back. */
  ghost predicate Follows(p: Parser) {
    forall x: string, y: string :: x <= y && !Parse(p, y).Fail? ==>
      !Parse(p, x).Fail? && Ahead(Seen(Parse(p, x)), Seen(Parse(p, y)))
  }

  ghost predicate SafeNodes(p: Parser) {
    forall s: string :: WellFormed(Seen(Parse(p, s)))
  }

  /**
   For every text that the parser does not refuse and every way to let it grow: the differ
   never throws, and the client that folds the deltas ends with the message of the whole text.
   */
  ghost predicate Streams(p: Parser) {
    forall texts: seq<string> ::
      texts != [] && GrowingTexts(texts) && !Parse(p, texts[|texts| - 1]).Fail? ==>
        Session(EMPTY_MSG, EMPTY_MSG, Reports(p, texts)) == Ok(Snapshot(Parse(p, texts[|texts| - 1]).nodes))
  }

  lemma FollowsStreams(p: Parser)
    requires Follows(p) && SafeNodes(p)
    ensures Streams(p)
  {
    forall texts: seq<string> | texts != [] && GrowingTexts(texts) && !Parse(p, texts[|texts| - 1]).Fail?
      ensures Session(EMPTY_MSG, EMPTY_MSG, Reports(p, texts)) == Ok(Snapshot(Parse(p, texts[|texts| - 1]).nodes))
    {
      TextsStream(p, texts);
    }
  }

  lemma TextsStream(p: Parser, texts: seq<string>)
    requires Follows(p) && SafeNodes(p)
    requires texts != [] && GrowingTexts(texts) && !Parse(p, texts[|texts| - 1]).Fail?
    ensures forall i :: 0 <= i < |texts| ==> !Parse(p, texts[i]).Fail?
    ensures Session(EMPTY_MSG, EMPTY_MSG, Reports(p, texts)) == Ok(Snapshot(Parse(p, texts[|texts| - 1]).nodes))
  {
    hide Parse, Ahead, Essential, WellFormed, Earlier, Snapshot;
    forall i | 0 <= i < |texts| ensures !Parse(p, texts[i]).Fail? {
      LastIsLongest(texts, i);
    }
    var streams := Reports(p, texts);
    var seen := Essentials(streams);
    forall i | 0 <= i < |seen| ensures seen[i] == Seen(Parse(p, texts[i])) && WellFormed(seen[i]) {
    }
    forall i | 0 <= i < |seen| - 1 ensures Earlier(seen[i], seen[i + 1]) {
      assert texts[i] <= texts[i + 1];
      AheadIsEarlier(seen[i], seen[i + 1]);
    }
    SessionRebuildsFinalMessage(seen);
    SessionEssential(EMPTY_MSG, EMPTY_MSG, streams);
    SnapshotEssential(streams[|texts| - 1]);
  }

  lemma SnapshotEssential(nodes: seq<Event>)
    ensures Snapshot(Essential(nodes)) == Snapshot(nodes)
  {
    RunEssential(INIT, nodes);
  }

  lemma FirmFollows(p: Parser)
    requires Firm(p)
    ensures Follows(p)
  {
    hide Parse, Ahead, Seen;
    forall x: string, y: string | x <= y && !Parse(p, y).Fail?
      ensures !Parse(p, x).Fail? && Ahead(Seen(Parse(p, x)), Seen(Parse(p, y)))
    {
      FirmGives(p, x, y);
    }
  }

  // ---------------------------------------------------------------- calls

  lemma CallNodesSafe(fn: Function, f: Format, name: string, required: seq<string>, optional: seq<string>,
                      peek: Option<string>)
    requires TrimmedTrailing(name) != ""
    ensures SafeNodes(FuncParser(fn, name, ArgsParser(f, required, optional), peek))
  {
    hide Parse, Seen, FuncParser, ArgsParser, CallShape, OnlyArgs, WellFormed;
    var args := ArgsParser(f, required, optional);
    OnlyArgsInArgs(f, required, optional);
    forall s: string ensures WellFormed(Seen(Parse(FuncParser(fn, name, args, peek), s))) {
      CallNodes(fn, name, args, peek, s);
      ShapeIsWellFormed(Seen(Parse(FuncParser(fn, name, args, peek), s)), name);
    }
  }

  /** A call of a format that can stream does stream. */
  lemma CallStreams(fn: Function, f: Format, name: string, required: seq<string>, optional: seq<string>,
                    peek: Option<string>)
    requires TrimmedTrailing(name) != "" && AllFree(f, optional) && CanStream(fn, f, optional, peek)
    requires Hidden(fn, peek) || optional == [] || PlainMarker(fn, f)
    ensures Streams(FuncParser(fn, name, ArgsParser(f, required, optional), peek))
    ensures Follows(FuncParser(fn, name, ArgsParser(f, required, optional), peek))
  {
    hide Firm, Follows, SafeNodes, Streams, FuncParser, ArgsParser;
    var p := FuncParser(fn, name, ArgsParser(f, required, optional), peek);
    FirmCall(fn, f, name, required, optional, peek);
    FirmFollows(p);
    CallNodesSafe(fn, f, name, required, optional, peek);
    FollowsStreams(p);
  }

  /** The names that the required and the optional arguments of a tool are read under. */
  function NamesOf(tool: string, properties: seq<string>, chosen: set<string>): seq<string> {
    ReferencesKnown(tool, properties, chosen);
    Resolved(Rules(tool, properties), References(tool, properties, chosen))
  }

  function OptionalNames(tool: string, properties: seq<string>, required: set<string>): seq<string> {
    NamesOf(tool, properties, (set p | p in properties) - required)
  }

  function CallParser(fn: Function, f: Format, tool: string, properties: seq<string>, required: set<string>): Parser {
    FuncParser(fn, tool, ToolArguments(f, tool, properties, required), PeekFor(f, required, properties))
  }

  lemma CallParserIs(fn: Function, f: Format, tool: string, properties: seq<string>, required: set<string>)
    ensures CallParser(fn, f, tool, properties, required)
         == FuncParser(fn, tool, ArgsParser(f, NamesOf(tool, properties, required),
            OptionalNames(tool, properties, required)),
                       PeekFor(f, required, properties))
  {
  }

  /** The same for the parser that is built for a tool, text by text. */
  lemma GrowingCallStreams(fn: Function, f: Format, tool: string, properties: seq<string>, required: set<string>,
                           texts: seq<string>)
    requires var optional := OptionalNames(tool, properties, required);
             && TrimmedTrailing(tool) != "" && AllFree(f, optional)
             && CanStream(fn, f, optional, PeekFor(f, required, properties))
             && (Hidden(fn, PeekFor(f, required, properties)) || optional == [] || PlainMarker(fn, f))
    requires texts != [] && GrowingTexts(texts)
    requires !Parse(CallParser(fn, f, tool, properties, required), texts[|texts| - 1]).Fail?
    ensures var p := CallParser(fn, f, tool, properties, required);
            && (forall i :: 0 <= i < |texts| ==> !Parse(p, texts[i]).Fail?)
            && Session(EMPTY_MSG, EMPTY_MSG, Reports(p, texts)) == Ok(Snapshot(Parse(p, texts[|texts| - 1]).nodes))
  {
    hide Follows, SafeNodes, Parse, Session, Snapshot, Reports;
    hide CanStream, AllFree, Hidden, PlainMarker, PeekFor, NamesOf;
    CallParserIs(fn, f, tool, properties, required);
    CallStreams(fn, f, tool, NamesOf(tool, properties, required), OptionalNames(tool, properties, required),
                PeekFor(f, required, properties));
    CallNodesSafe(fn, f, tool, NamesOf(tool, properties, required), OptionalNames(tool, properties, required),
                  PeekFor(f, required, properties));
    TextsStream(CallParser(fn, f, tool, properties, required), texts);
  }

  /**
   A printed call that is streamed in any pieces: the client ends with exactly that call,
   whatever text follows it.
   */
  lemma PrintedCallStreams(fn: Function, f: Format, tool: string, properties: seq<string>, required: set<string>,
                           lead: string, first: seq<Item>, more: seq<Item>, spaces: string, rest: string,
                             texts: seq<string>)
    requires TrimmedTrailing(tool) != "" && AllSpace(lead) && ClosesCall(fn, spaces, rest)
    requires NoClash(tool, properties) && !StartsWithSpace(f.start)
    requires Fits(f, Filtered(properties, required), Filtered(properties, (set p | p in properties) - required),
                  first, more, spaces + (fn.close + rest))
    requires Looks(fn, PeekFor(f, required, properties), ArgsText(f, first, more) + (spaces + (fn.close + rest)))
    requires var optional := OptionalNames(tool, properties, required);
             && AllFree(f, optional) && CanStream(fn, f, optional, PeekFor(f, required, properties))
             && (Hidden(fn, PeekFor(f, required, properties)) || optional == [] || PlainMarker(fn, f))
    requires texts != [] && GrowingTexts(texts)
    requires texts[|texts| - 1] == CallText(fn, tool, lead, ArgsText(f, first, more), spaces) + rest
    ensures Session(EMPTY_MSG, EMPTY_MSG, Reports(CallParser(fn, f, tool, properties, required), texts))
         == Ok(WithCall(EMPTY_MSG, tool, first + more))
  {
    hide Parse, CanStream, NoClash, ClosesCall, CallText, ToolArguments, PeekFor, FuncParser, Session, Reports, Run;
    hide AllFree, Hidden, PlainMarker, Looks, OptionalNames, WithCall;
    CallRoundTrip(INIT, fn, f, tool, properties, required, lead, first, more, spaces, rest);
    var r := Parse(CallParser(fn, f, tool, properties, required), texts[|texts| - 1]);
    ReadsCallSeen(r, tool, Nodes(f, first) + Nodes(f, more), rest);
    GrowingCallStreams(fn, f, tool, properties, required, texts);
    OnlyCall(Run(INIT, r.nodes), tool, first + more);
  }

  lemma OnlyCall(st: State, tool: string, items: seq<Item>)
    requires st.msg == WithCall(INIT.msg, tool, items)
    ensures Finish(st) == WithCall(EMPTY_MSG, tool, items)
  {
  }
}
