/**
 The parser of a whole tagged call while the text grows: it is firm when the markers behind
 the arguments cannot be taken for an optional argument that broke off.
 */
module GrowingCalls {
  import opened Text
  import opened ToolCallMapper
  import opened Peg
  import opened TaggedArgs
  import opened TaggedCalls
  import opened GrowingParses
  import opened GrowingArguments

  // ---------------------------------------------------------------- what follows the arguments

  /** A parser that needs more and reports nothing on an empty text. */
  ghost predicate IsQuiet(q: Parser) {
    Parse(q, "").NeedMore? && Seen(Parse(q, "")) == []
  }

  /** A firm and quiet parser that refuses texts that break off in these arguments. */
  ghost predicate Ends(q: Parser, f: Format, names: seq<string>) {
    && Firm(q) && IsQuiet(q)
    && forall s: string :: Breaks(f, names, s) ==> Parse(q, s).Fail?
  }

  lemma FirmOptionalThen(f: Format, names: seq<string>, q: Parser)
    requires AllFree(f, names) && Ends(q, f, names)
    ensures Firm(Seq(Optional(f, names), q))
  {
    hide Optional;
    forall x: string, more: string ensures SettlesAt(Seq(Optional(f, names), q), x, more) {
      OptionalThen(f, names, q, x, more);
    }
  }

  lemma OptionalThen(f: Format, names: seq<string>, q: Parser, x: string, more: string)
    requires AllFree(f, names) && Ends(q, f, names)
    ensures SettlesAt(Seq(Optional(f, names), q), x, more)
  {
    hide Parse, Seen, Ahead, Optional, Breaks;
    var p, y := Optional(f, names), x + more;
    OptionalListGrows(f, names, x, more);
    SeenSeq(p, q, x);
    SeenSeq(p, q, y);
    var px, py := Parse(p, x), Parse(p, y);
    if px.NeedMore? {
      if py.Success? && !Parse(q, py.rest).Fail? {
        AheadMore(Seen(px), Seen(py), Seen(Parse(q, py.rest)));
      }
    } else if px.rest != "" {
      assert SettlesAt(q, px.rest, more);
      if Parse(q, px.rest).NeedMore? && !Parse(q, py.rest).Fail? {
        AheadAfter(Seen(px), Seen(Parse(q, px.rest)), Seen(Parse(q, py.rest)));
      }
    } else {
      assert Seen(px) + [] == Seen(px);
      PrefixIsAhead(Seen(px), Seen(py));
      if py.Success? { AheadMore(Seen(px), Seen(py), Seen(Parse(q, py.rest))); }
    }
  }

  /** The part of a call's parser after its arguments. */
  function Closer(fn: Function): Parser {
    if fn.close != "" then Seq(Space, Atomic(Node(ToolClose, Literal(fn.close))))
    else if fn.perCallEnd != "" then Atomic(Node(ToolClose, Peek(Literal(fn.perCallEnd))))
    else Atomic(Node(ToolClose, Space))
  }

  /** The arguments' end marker, if there is one, and the end of the call. */
  function Rest(fn: Function, f: Format): Parser {
    if f.end == "" then Closer(fn) else Seq(Literal(f.end), Closer(fn))
  }

  predicate HasMarker(fn: Function, f: Format) { f.end != "" || fn.close != "" || fn.perCallEnd != "" }

  /** Where the whitespace between the two markers of an opener-like text ends. */
  function MarkerGap(f: Format, open: string): (n: nat)
    requires f.end <= open
    ensures |f.end| <= n <= |open|
  {
    |open| - |SkipSpace(open[|f.end|..])|
  }

  /** The marker that would have to stand right behind the arguments in a text that starts like `open`. */
  function Marker(fn: Function, f: Format, open: string): string {
    if f.end == "" then (if fn.close != "" then fn.close else fn.perCallEnd)
    else if fn.close == "" then f.end + fn.perCallEnd
    else if f.end <= open && MarkerGap(f, open) < |open| then open[..MarkerGap(f, open)] + fn.close
    else f.end
  }

  /** An argument that breaks off behind its opener cannot be taken for the marker. */
  predicate Guards(marker: string, open: string, valuePrefix: string) {
    valuePrefix == "" || Diverges(marker, open) || open + valuePrefix <= marker
  }

  /** A parser that reports a call only as a whole. */
  predicate Hidden(fn: Function, peek: Option<string>) { fn.nameSuffix == "" && peek.None? }

  predicate AllGuarded(fn: Function, f: Format, names: seq<string>) {
    forall i :: 0 <= i < |names| ==> Guards(Marker(fn, f, OpenText(f, names[i])), OpenText(f, names[i]), f.valuePrefix)
  }

  /**
   There are no optional arguments, or a marker tells where they end; and when the call is
   reported while it is read, that marker guards every optional argument.
   */
  predicate CanStream(fn: Function, f: Format, optional: seq<string>, peek: Option<string>) {
    optional == [] || (HasMarker(fn, f) && (Hidden(fn, peek) || AllGuarded(fn, f, optional)))
  }

  /** Where whitespace is not skipped, the marker does not start with it. */
  predicate PlainMarker(fn: Function, f: Format) {
    f.valuePrefix == "" ||
    if f.end != "" then !StartsWithSpace(f.end) else fn.close != "" || !StartsWithSpace(fn.perCallEnd)
  }

  lemma FirmCloser(fn: Function)
    ensures Firm(Closer(fn))
  {
    hide Firm;
    FirmSpace();
    if fn.close != "" {
      FirmLiteral(fn.close);
      FirmMarker(ToolClose, Literal(fn.close));
      FirmSeq(Space, Atomic(Node(ToolClose, Literal(fn.close))));
    } else if fn.perCallEnd != "" {
      FirmPeek(fn.perCallEnd);
      FirmMarker(ToolClose, Peek(Literal(fn.perCallEnd)));
    } else {
      FirmMarker(ToolClose, Space);
    }
  }

  lemma FirmRest(fn: Function, f: Format)
    ensures Firm(Rest(fn, f))
  {
    hide Firm, Closer;
    FirmCloser(fn);
    if f.end != "" {
      FirmLiteral(f.end);
      FirmSeq(Literal(f.end), Closer(fn));
    }
  }

  lemma RestIsQuiet(fn: Function, f: Format)
    requires HasMarker(fn, f)
    ensures IsQuiet(Rest(fn, f))
  {
    EssentialNone();
    if f.end != "" {
      assert Parse(Literal(f.end), "") == NeedMore([], "");
      assert Parse(Rest(fn, f), "") == NeedMore([], "");
    } else if fn.close != "" {
      assert Parse(Literal(fn.close), "").NeedMore?;
      assert Parse(Node(ToolClose, Literal(fn.close)), "").NeedMore?;
      assert Parse(Atomic(Node(ToolClose, Literal(fn.close))), "") == NeedMore([], "");
      SeenSeq(Space, Atomic(Node(ToolClose, Literal(fn.close))), "");
      assert Parse(Space, "") == Success([], "");
    } else {
      assert Parse(Literal(fn.perCallEnd), "").NeedMore?;
      assert Parse(Peek(Literal(fn.perCallEnd)), "").NeedMore?;
      assert Parse(Node(ToolClose, Peek(Literal(fn.perCallEnd))), "").NeedMore?;
    }
  }

  lemma NotOnSpace(l: string, s: string)
    requires l != "" && !StartsWithSpace(l) && s != "" && IsSpace(s[0])
    ensures Diverges(l, s)
  {
  }

  lemma SkipSpaceKeeps(s: string)
    ensures s != "" && !IsSpace(s[0]) ==> SkipSpace(s) == s
  {
  }

  lemma GuardsRefuse(marker: string, open: string, valuePrefix: string, s: string)
    requires Guards(marker, open, valuePrefix) && open <= s && Diverges(open + valuePrefix, s)
    ensures Diverges(marker, s)
  {
    assert s == open + s[|open|..];
    assert valuePrefix == "" ==> open + valuePrefix == open;
    if Diverges(marker, open) {
      DivergesLonger(marker, open, s[|open|..]);
    } else if valuePrefix != "" {
      LongerDiverges(open + valuePrefix, marker, s);
    }
  }

  lemma LongerDiverges(l: string, longer: string, s: string)
    requires l <= longer && Diverges(l, s)
    ensures Diverges(longer, s)
  {
    assert longer[..|l|] == l;
    if |l| <= |s| {
      assert s[..|l|] != l;
    } else {
      assert s != l[..|s|];
      assert longer[..|s|] == l[..|s|];
    }
  }

  lemma MarkerFails(l: string, s: string)
    requires Diverges(l, s)
    ensures Parse(Atomic(Node(ToolClose, Literal(l))), s).Fail?
        && Parse(Atomic(Node(ToolClose, Peek(Literal(l)))), s).Fail?
  {
    assert Parse(Literal(l), s).Fail?;
    assert Parse(Peek(Literal(l)), s).Fail?;
    assert Parse(Node(ToolClose, Literal(l)), s).Fail? && Parse(Node(ToolClose, Peek(Literal(l))), s).Fail?;
  }

  lemma SpaceThen(p: Parser, s: string)
    ensures Parse(Seq(Space, p), s).Fail? <==> Parse(p, SkipSpace(s)).Fail?
  {
    assert Parse(Space, s) == Success([], SkipSpace(s));
  }

  lemma RestRefuses(fn: Function, f: Format, names: seq<string>, s: string)
    requires AllGuarded(fn, f, names) && PlainMarker(fn, f) && HasMarker(fn, f) && Breaks(f, names, s)
    ensures Parse(Rest(fn, f), s).Fail?
  {
    hide Parse, Marker;
    var i :| 0 <= i < |names| && IsBroken(f, names[i], SkipSpace(s));
    var open, u := OpenText(f, names[i]), SkipSpace(s);
    var marker := Marker(fn, f, open);
    GuardsRefuse(marker, open, f.valuePrefix, u);
    BrokenHasPrefix(f, names[i], u);
    if f.end == "" && fn.close != "" {
      CloseIsMarker(fn, f, open);
      MarkerFails(fn.close, u);
      SpaceThen(Atomic(Node(ToolClose, Literal(fn.close))), s);
    } else if s != "" && IsSpace(s[0]) {
      if f.end == "" {
        NotOnSpace(fn.perCallEnd, s);
        MarkerFails(fn.perCallEnd, s);
      } else {
        NotOnSpace(f.end, s);
        SeqFollowsLiteral(f.end, Closer(fn), s);
      }
    } else {
      SkipSpaceKeeps(s);
      if f.end == "" {
        CloseIsMarker(fn, f, open);
        MarkerFails(fn.perCallEnd, s);
      } else {
        EndRefuses(fn, f, open, s);
      }
    }
  }

  lemma CloseIsMarker(fn: Function, f: Format, open: string)
    requires f.end == ""
    ensures Marker(fn, f, open) == if fn.close != "" then fn.close else fn.perCallEnd
  {
  }

  lemma BrokenHasPrefix(f: Format, name: string, s: string)
    requires IsBroken(f, name, s)
    ensures f.valuePrefix != ""
  {
    assert OpenText(f, name) + "" == OpenText(f, name);
  }

  lemma EndRefuses(fn: Function, f: Format, open: string, s: string)
    requires f.end != "" && open <= s && Diverges(Marker(fn, f, open), s)
    ensures Parse(Rest(fn, f), s).Fail?
  {
    hide Parse;
    SeqFollowsLiteral(f.end, Closer(fn), s);
    if fn.close == "" {
      LiteralOrDiverges(f.end, fn.perCallEnd, s);
      if f.end <= s {
        assert fn.perCallEnd != "";
        MarkerFails(fn.perCallEnd, s[|f.end|..]);
      }
    } else if f.end <= open && MarkerGap(f, open) < |open| {
      var n := MarkerGap(f, open);
      assert s[..n] == open[..n] && f.end <= s;
      LiteralOrDiverges(open[..n], fn.close, s);
      GapIsSkipped(f, open, s);
      MarkerFails(fn.close, s[n..]);
      SpaceThen(Atomic(Node(ToolClose, Literal(fn.close))), s[|f.end|..]);
    }
  }

  /** The whitespace behind the end marker is that of the opener, as the opener goes on behind it. */
  lemma GapIsSkipped(f: Format, open: string, s: string)
    requires f.end <= open <= s && MarkerGap(f, open) < |open|
    ensures f.end <= s && SkipSpace(s[|f.end|..]) == s[MarkerGap(f, open)..]
  {
    var n := |f.end|;
    var a, more := open[n..], s[|open|..];
    assert s == open + more && s[n..] == a + more;
    SkipSpaceGrows(a, more);
    SkipSpaceIsEnd(a);
    assert s[MarkerGap(f, open)..] == open[MarkerGap(f, open)..] + more;
    assert open[MarkerGap(f, open)..] == a[|a| - |SkipSpace(a)|..];
  }

  lemma {:induction false} SkipSpaceIsEnd(s: string)
    ensures SkipSpace(s) == s[|s| - |SkipSpace(s)|..]
  {
    if s != "" && IsSpace(s[0]) { SkipSpaceIsEnd(s[1..]); }
  }

  lemma SeqFollowsLiteral(l: string, q: Parser, s: string)
    ensures Diverges(l, s) ==> Parse(Seq(Literal(l), q), s).Fail?
    ensures l <= s ==> Parse(Seq(Literal(l), q), s) == WithNodes([], Parse(q, s[|l|..]))
  {
  }

  lemma RestEnds(fn: Function, f: Format, names: seq<string>)
    requires AllGuarded(fn, f, names) && PlainMarker(fn, f) && HasMarker(fn, f)
    ensures Ends(Rest(fn, f), f, names)
  {
    hide Firm, Breaks, IsQuiet, AllGuarded, PlainMarker, HasMarker;
    FirmRest(fn, f);
    RestIsQuiet(fn, f);
    forall s: string | Breaks(f, names, s) ensures Parse(Rest(fn, f), s).Fail? {
      RestRefuses(fn, f, names, s);
    }
  }

  // ---------------------------------------------------------------- parsers whose successes are final

  /** As `Settles`, with nothing said about a parser that needs more. */
  predicate Lasts(rx: Outcome, ry: Outcome, more: string) {
    if rx.Fail? then ry.Fail?
    else rx.Success? ==> ry.Success? && Seen(ry) == Seen(rx) && (rx.rest != "" ==> ry.rest == rx.rest + more)
  }

  ghost predicate LastsAt(p: Parser, x: string, more: string) {
    Lasts(Parse(p, x), Parse(p, x + more), more)
  }

  ghost predicate Lasting(p: Parser) {
    forall x: string, more: string :: LastsAt(p, x, more)
  }

  lemma FirmIsLasting(p: Parser)
    requires Firm(p)
    ensures Lasting(p)
  {
    forall x: string, more: string ensures LastsAt(p, x, more) {
      assert SettlesAt(p, x, more);
    }
  }

  lemma LastingSeq(p: Parser, q: Parser)
    requires Lasting(p) && Lasting(q)
    ensures Lasting(Seq(p, q))
  {
    hide Parse, Seen;
    forall x: string, more: string ensures LastsAt(Seq(p, q), x, more) {
      var px, py := Parse(p, x), Parse(p, x + more);
      assert LastsAt(p, x, more);
      SeenSeq(p, q, x);
      SeenSeq(p, q, x + more);
      if px.Success? {
        var tail := if px.rest == "" then py.rest else more;
        assert px.rest + tail == py.rest;
        assert LastsAt(q, px.rest, tail);
        ParseShorter(q, px.rest);
      }
    }
  }

  /** Optional arguments and a quiet end: nothing succeeds before the end was read. */
  lemma LastingOptionalThen(f: Format, names: seq<string>, q: Parser)
    requires AllFree(f, names) && Firm(q) && IsQuiet(q)
    ensures Lasting(Seq(Optional(f, names), q))
  {
    hide Parse, Seen, Optional, Breaks, Ahead;
    var p := Optional(f, names);
    forall x: string, more: string ensures LastsAt(Seq(p, q), x, more) {
      OptionalListGrows(f, names, x, more);
      SeenSeq(p, q, x);
      SeenSeq(p, q, x + more);
      if Parse(p, x).Success? && Parse(p, x).rest != "" {
        assert SettlesAt(q, Parse(p, x).rest, more);
      }
    }
  }

  lemma FirmWhole(p: Parser)
    requires Lasting(p)
    ensures Firm(Atomic(p))
  {
    hide Parse;
    EssentialNone();
    forall x: string, more: string ensures SettlesAt(Atomic(p), x, more) {
      assert LastsAt(p, x, more);
      AtomicIs(p, x);
      AtomicIs(p, x + more);
    }
  }

  lemma SameLasting(p: Parser, q: Parser)
    requires Same(p, q) && Lasting(q)
    ensures Lasting(p)
  {
    forall x: string, more: string ensures LastsAt(p, x, more) {
      assert LastsAt(q, x, more);
    }
  }

  // ---------------------------------------------------------------- the whole call, regrouped

  function Head(fn: Function, name: string, peek: Option<string>): Parser {
    if fn.nameSuffix == "" && peek.Some?
    then Atomic(Seq(OpenCall(fn, name), Seq(Space, Peek(Literal(peek.value)))))
    else Seq(OpenCall(fn, name), Space)
  }

  function Arguments(f: Format, required: seq<string>, optional: seq<string>): Parser {
    if optional == [] then Required(f, required) else Seq(Required(f, required), Optional(f, optional))
  }

  function Started(f: Format, args: Parser): Parser {
    if f.start == "" then args else Seq(Literal(f.start), args)
  }

  /** The call's parser with its parts in one row. */
  function InRow(fn: Function, f: Format, name: string, required: seq<string>, optional: seq<string>,
                 peek: Option<string>): Parser {
    Seq(Head(fn, name, peek), Seq(Started(f, Arguments(f, required, optional)), Rest(fn, f)))
  }

  function Whole(fn: Function, f: Format, name: string, required: seq<string>, optional: seq<string>,
                 peek: Option<string>): Parser {
    CloseCall(fn, CallBody(fn, name, ArgsParser(f, required, optional), peek))
  }

  lemma SameBoth(p: Parser, q: Parser, r: Parser)
    requires Same(p, q) && Same(q, r)
    ensures Same(p, r)
  {
  }

  lemma SameSides(p: Parser, q: Parser)
    requires Same(p, q)
    ensures Same(q, p)
  {
  }

  lemma WholeInRow(fn: Function, f: Format, name: string, required: seq<string>, optional: seq<string>,
                   peek: Option<string>)
    ensures Same(Whole(fn, f, name, required, optional, peek), InRow(fn, f, name, required, optional, peek))
  {
    hide Same, Closer, OpenCall, Required, Optional;
    var head, close := Head(fn, name, peek), Closer(fn);
    var args, started := ArgsParser(f, required, optional), Started(f, Arguments(f, required, optional));
    var body := CallBody(fn, name, args, peek);
    CloseIs(fn, body);
    SameSelf(Seq(args, close));
    // The body is its head and the arguments.
    SeqSame(OpenCall(fn, name), Space, args);
    SameSides(Seq(Seq(OpenCall(fn, name), Space), args), Seq(OpenCall(fn, name), Seq(Space, args)));
    SameSelf(body);
    SameSeq(close, body, Seq(head, args));
    SeqSame(head, args, close);
    SameBoth(Seq(body, close), Seq(Seq(head, args), close), Seq(head, Seq(args, close)));
    // The end marker goes with what follows it.
    SeqSame(started, Literal(f.end), close);
    SameSeq(head, Seq(args, close), Seq(started, Rest(fn, f)));
    SameBoth(Seq(body, close), Seq(head, Seq(args, close)), Seq(head, Seq(started, Rest(fn, f))));
  }

  lemma SameSelf(p: Parser)
    ensures Same(p, p)
  {
  }

  lemma CloseIs(fn: Function, body: Parser)
    ensures CloseCall(fn, body) == Seq(body, Closer(fn))
  {
  }

  lemma FirmOpenCall(fn: Function, name: string)
    ensures Firm(OpenCall(fn, name))
  {
    hide Firm;
    var nameParser := Atomic(Node(ToolName, Literal(name)));
    FirmLiteral(fn.namePrefix);
    FirmName(ToolName, name);
    FirmLiteral(fn.nameSuffix);
    FirmSeq(nameParser, Literal(fn.nameSuffix));
    FirmSeq(Literal(fn.namePrefix), Seq(nameParser, Literal(fn.nameSuffix)));
    FirmMarker(ToolOpen, Seq(Literal(fn.namePrefix), Seq(nameParser, Literal(fn.nameSuffix))));
  }

  lemma FirmHead(fn: Function, name: string, peek: Option<string>)
    ensures Firm(Head(fn, name, peek))
  {
    hide Firm, OpenCall;
    FirmOpenCall(fn, name);
    FirmSpace();
    FirmSeq(OpenCall(fn, name), Space);
    if peek.Some? {
      var look := Peek(Literal(peek.value));
      FirmPeek(peek.value);
      FirmSeq(Space, look);
      FirmSeq(OpenCall(fn, name), Seq(Space, look));
      FirmAtomic(Seq(OpenCall(fn, name), Seq(Space, look)));
    }
  }

  lemma FirmStarted(f: Format, args: Parser, q: Parser)
    requires Firm(Seq(args, q))
    ensures Firm(Seq(Started(f, args), q))
  {
    hide Firm, Same;
    if f.start != "" {
      FirmLiteral(f.start);
      FirmSeq(Literal(f.start), Seq(args, q));
      SeqSame(Literal(f.start), args, q);
      SameFirm(Seq(Started(f, args), q), Seq(Literal(f.start), Seq(args, q)));
    }
  }

  lemma LastingStarted(f: Format, args: Parser, q: Parser)
    requires Lasting(Seq(args, q))
    ensures Lasting(Seq(Started(f, args), q))
  {
    hide Lasting, Firm, Same;
    if f.start != "" {
      FirmLiteral(f.start);
      FirmIsLasting(Literal(f.start));
      LastingSeq(Literal(f.start), Seq(args, q));
      SeqSame(Literal(f.start), args, q);
      SameLasting(Seq(Started(f, args), q), Seq(Literal(f.start), Seq(args, q)));
    }
  }

  /** The arguments and what follows them, with a marker that guards the optional ones. */
  lemma FirmArgumentsThen(fn: Function, f: Format, required: seq<string>, optional: seq<string>)
    requires AllFree(f, optional) && PlainMarker(fn, f)
    requires optional == [] || (HasMarker(fn, f) && AllGuarded(fn, f, optional))
    ensures Firm(Seq(Arguments(f, required, optional), Rest(fn, f)))
  {
    hide Firm, Required, Optional, Rest, Same, Ends;
    var req, opt, rest := Required(f, required), Optional(f, optional), Rest(fn, f);
    FirmRequired(f, required);
    FirmRest(fn, f);
    if optional == [] {
      FirmSeq(req, rest);
    } else {
      RestEnds(fn, f, optional);
      FirmOptionalThen(f, optional, rest);
      FirmSeq(req, Seq(opt, rest));
      SeqSame(req, opt, rest);
      SameFirm(Seq(Seq(req, opt), rest), Seq(req, Seq(opt, rest)));
    }
  }

  lemma LastingArgumentsThen(fn: Function, f: Format, required: seq<string>, optional: seq<string>)
    requires AllFree(f, optional) && (optional == [] || HasMarker(fn, f))
    ensures Lasting(Seq(Arguments(f, required, optional), Rest(fn, f)))
  {
    hide Firm, Lasting, Required, Optional, Rest, Same, IsQuiet;
    var req, opt, rest := Required(f, required), Optional(f, optional), Rest(fn, f);
    FirmRequired(f, required);
    FirmIsLasting(req);
    FirmRest(fn, f);
    FirmIsLasting(rest);
    if optional == [] {
      LastingSeq(req, rest);
    } else {
      RestIsQuiet(fn, f);
      LastingOptionalThen(f, optional, rest);
      LastingSeq(req, Seq(opt, rest));
      SeqSame(req, opt, rest);
      SameLasting(Seq(Seq(req, opt), rest), Seq(req, Seq(opt, rest)));
    }
  }

  /** A call's parser never takes back what it reported while the text goes on. */
  lemma FirmCall(fn: Function, f: Format, name: string, required: seq<string>, optional: seq<string>,
                 peek: Option<string>)
    requires AllFree(f, optional) && CanStream(fn, f, optional, peek)
    requires Hidden(fn, peek) || optional == [] || PlainMarker(fn, f)
    ensures Firm(FuncParser(fn, name, ArgsParser(f, required, optional), peek))
  {
    hide Firm, Lasting, Same, Whole, Head, Arguments, Rest, AllFree, AllGuarded, PlainMarker, HasMarker;
    var whole, row := Whole(fn, f, name, required, optional, peek), InRow(fn, f, name, required, optional, peek);
    var args, rest := Arguments(f, required, optional), Rest(fn, f);
    FirmHead(fn, name, peek);
    WholeInRow(fn, f, name, required, optional, peek);
    if Hidden(fn, peek) {
      LastingArgumentsThen(fn, f, required, optional);
      LastingStarted(f, args, rest);
      FirmIsLasting(Head(fn, name, peek));
      LastingSeq(Head(fn, name, peek), Seq(Started(f, args), rest));
      SameLasting(whole, row);
      FirmWhole(whole);
      FirmRule(Atomic(whole));
    } else {
      if optional == [] { FirmRequiredThen(fn, f, required); } else { FirmArgumentsThen(fn, f, required, optional); }
      FirmStarted(f, args, rest);
      FirmSeq(Head(fn, name, peek), Seq(Started(f, args), rest));
      SameFirm(whole, row);
      FirmRule(whole);
    }
    FuncIs(fn, f, name, required, optional, peek);
  }

  lemma FirmRequiredThen(fn: Function, f: Format, required: seq<string>)
    ensures Firm(Seq(Arguments(f, required, []), Rest(fn, f)))
  {
    hide Firm, Required, Rest;
    FirmRequired(f, required);
    FirmRest(fn, f);
    FirmSeq(Required(f, required), Rest(fn, f));
  }

  lemma FuncIs(fn: Function, f: Format, name: string, required: seq<string>, optional: seq<string>,
               peek: Option<string>)
    ensures var whole := Whole(fn, f, name, required, optional, peek);
            FuncParser(fn, name, ArgsParser(f, required, optional), peek)
              == Node(OtherTag, if Hidden(fn, peek) then Atomic(whole) else whole)
  {
  }
}
