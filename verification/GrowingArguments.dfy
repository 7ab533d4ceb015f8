/**
 The arguments of a tagged call while their text grows: an argument that was reported goes
 on or its value grows, and the list of optional arguments only grows, or breaks off where
 a value prefix should stand.
 */
module GrowingArguments {
  import opened Text
  import opened ToolCallMapper
  import opened Peg
  import opened TaggedArgs
  import opened TaggedCalls
  import opened GrowingParses

  // ---------------------------------------------------------------- one argument

  lemma {:induction false} UntilGrows(x: string, more: string, d: string)
    ensures var rx, ry := UntilRest(x, d), UntilRest(x + more, d);
            if d != "" && rx.Some? && d <= rx.value then ry == Some(rx.value + more)
            else Consumed(x, if rx.Some? then rx.value else "") <= Consumed(x + more, if ry.Some? then ry.value else "")
    decreases |x|
  {
    hide UntilRest;
    var y := x + more;
    if d == "" {
      NeverStops(x);
      NeverStops(y);
    } else if x == "" || !Diverges(d, x) {
      UntilAtOnce(x, more, d);
    } else {
      DivergesLonger(d, x, more);
      assert y[1..] == x[1..] + more;
      UntilGrows(x[1..], more, d);
      ConsumedOne(x, d);
      ConsumedOne(y, d);
      assert x[0] == y[0];
    }
  }

  lemma UntilAtOnce(x: string, more: string, d: string)
    requires d != "" && (x == "" || !Diverges(d, x))
    ensures var rx, ry := UntilRest(x, d), UntilRest(x + more, d);
            if rx.Some? && d <= rx.value then ry == Some(rx.value + more)
            else Consumed(x, if rx.Some? then rx.value else "") == ""
  {
    var y := x + more;
    if d <= x { assert y[..|d|] == x[..|d|]; }
  }

  /** An empty delimiter is never found. */
  lemma {:induction false} NeverStops(s: string)
    ensures UntilRest(s, "") == None
  {
    if s != "" { NeverStops(s[1..]); }
  }

  /** A character that neither is nor may become the delimiter belongs to the value. */
  lemma ConsumedOne(s: string, d: string)
    requires s != "" && Diverges(d, s)
    ensures UntilRest(s, d) == UntilRest(s[1..], d)
    ensures var r := UntilRest(s, d);
            var rest := if r.Some? then r.value else "";
            Consumed(s, rest) == [s[0]] + Consumed(s[1..], rest)
  {
  }

  function AfterPrefix(f: Format): Parser { Seq(ValueParser(f), CloseParser(f)) }

  function ValueSeen(f: Format, s: string): string {
    var r := UntilRest(s, ValueClose(f));
    Consumed(s, if r.Some? then r.value else "")
  }

  lemma ValueOutcome(f: Format, s: string)
    ensures var r := UntilRest(s, ValueClose(f));
            var nodes := [Event(ArgStringValue, ValueSeen(f, s)), Event(OtherTag, ValueSeen(f, s))];
            Parse(ValueParser(f), s) == if r.Some? then Success(nodes, r.value) else NeedMore(nodes, "")
  {
    var close := ValueClose(f);
    var r := UntilRest(s, close);
    var text := ValueSeen(f, s);
    var u := if r.Some? then Success([], r.value) else NeedMore([], "");
    assert Parse(Until(close), s) == u;
    assert Parse(Node(OtherTag, Until(close)), s) == WithNodes([Event(OtherTag, text)], u);
  }

  lemma SeenOneValue(value: string)
    ensures Essential([Event(ArgStringValue, value), Event(OtherTag, value)]) == [Event(ArgStringValue, value)]
  {
    EssentialFirst(Event(OtherTag, value), []);
    EssentialFirst(Event(ArgStringValue, value), [Event(OtherTag, value)]);
    EssentialNone();
    assert [Event(OtherTag, value)] + [] == [Event(OtherTag, value)];
    assert [Event(ArgStringValue, value)] + [Event(OtherTag, value)]
      == [Event(ArgStringValue, value), Event(OtherTag, value)];
  }

  /** What is seen of a value and its closer. */
  lemma ValueThenClose(f: Format, s: string)
    ensures var r := Parse(AfterPrefix(f), s);
            var u := UntilRest(s, ValueClose(f));
            var value := Event(ArgStringValue, ValueSeen(f, s));
            && !r.Fail?
            && Seen(r) == [value] + (if r.Success? then [Event(ArgClose, "")] else [])
            && (r.Success? <==> u.Some? && ValueClose(f) <= u.value)
            && (r.Success? ==> r.rest == SkipSpace(u.value[|ValueClose(f)|..]))
  {
    hide UntilRest;
    var close, u := ValueClose(f), UntilRest(s, ValueClose(f));
    ValueOutcome(f, s);
    SeenSeq(ValueParser(f), CloseParser(f), s);
    SeenOneValue(ValueSeen(f, s));
    if u.Some? {
      UntilEnds(s, close);
      CloseOutcome(f, u.value);
    }
  }

  lemma {:induction false} UntilEnds(s: string, d: string)
    ensures var r := UntilRest(s, d); r.Some? ==> (d != "" && d <= r.value) || r.value <= d
  {
    if !(s == "" || (d != "" && d <= s) || s <= d) { UntilEnds(s[1..], d); }
  }

  lemma CloseOutcome(f: Format, s: string)
    requires ValueClose(f) <= s || s <= ValueClose(f)
    ensures var close := ValueClose(f);
            var r := Parse(CloseParser(f), s);
            if close <= s then r.Success? && r.rest == SkipSpace(s[|close|..]) && Seen(r) == [Event(ArgClose, "")]
            else r.NeedMore? && Seen(r) == []
  {
    var close := ValueClose(f);
    var inner := Seq(Literal(close), Space);
    SeenNode(ArgClose, inner, s);
    AtomicIs(Node(ArgClose, inner), s);
    EssentialNone();
    SeenSeq(Literal(close), Space, s);
    if close <= s {
      assert Parse(Literal(close), s) == Success([], s[|close|..]);
      assert Parse(inner, s) == Success([], SkipSpace(s[|close|..]));
    } else {
      assert Parse(Literal(close), s).NeedMore?;
      assert Parse(inner, s).NeedMore?;
    }
  }

  /** Growing the text behind an opener: the value grows, or it and its closer are settled. */
  lemma ValueGrows(f: Format, x: string, more: string)
    ensures var rx, ry := Parse(AfterPrefix(f), x), Parse(AfterPrefix(f), x + more);
            && !rx.Fail? && !ry.Fail?
            && Seen(rx) != [] && Seen(ry) != [] && GrownValue(Seen(rx)[0], Seen(ry)[0])
            && (rx.Success? ==> ry.Success? && Seen(ry) == Seen(rx) && (rx.rest != "" ==> ry.rest == rx.rest + more))
            && (rx.NeedMore? ==> |Seen(rx)| == 1)
  {
    hide Parse, Seen, UntilRest, SkipSpace;
    var close := ValueClose(f);
    ValueThenClose(f, x);
    ValueThenClose(f, x + more);
    UntilGrows(x, more, close);
    var u := UntilRest(x, close);
    if close == "" { NeverStops(x); }
    if u.Some? && close <= u.value {
      assert (u.value + more)[|close|..] == u.value[|close|..] + more;
      SkipSpaceGrows(u.value[|close|..], more);
      UntilKeepsEnd(x, close);
      UntilKeepsEnd(x + more, close);
      SameConsumed(x, more, u.value);
    }
  }

  lemma SameConsumed(x: string, more: string, rest: string)
    requires |rest| <= |x|
    ensures Consumed(x + more, rest + more) == Consumed(x, rest)
  {
  }

  lemma FirmOpen(f: Format, name: string)
    ensures Firm(OpenParser(f, name))
  {
    var nameParser := Atomic(Node(ArgName, Literal(name)));
    FirmLiteral(f.namePrefix);
    FirmName(ArgName, name);
    FirmLiteral(f.nameSuffix);
    FirmSeq(nameParser, Literal(f.nameSuffix));
    FirmSeq(Literal(f.namePrefix), Seq(nameParser, Literal(f.nameSuffix)));
    FirmMarker(ArgOpen, Seq(Literal(f.namePrefix), Seq(nameParser, Literal(f.nameSuffix))));
  }

  /** An opener is reported only when it was read completely. */
  lemma OpenOutcome(f: Format, name: string, s: string)
    ensures var r := Parse(OpenParser(f, name), s);
            && (r.Success? <==> OpenText(f, name) <= s)
            && (r.Success? ==>
                  r.rest == s[|OpenText(f, name)|..] && Seen(r) == [Event(ArgOpen, ""), Event(ArgName, name)])
            && (!r.Success? ==> Seen(r) == [])
  {
    var text := OpenText(f, name);
    EssentialNone();
    if text <= s {
      var rest := s[|text|..];
      assert s == text + rest;
      OpenParses(f, name, rest);
      EssentialFirst(Event(ArgName, name), []);
      EssentialFirst(Event(ArgOpen, text), [Event(ArgName, name)]);
      assert [Event(ArgName, name)] + [] == [Event(ArgName, name)];
      assert [Event(ArgOpen, text)] + [Event(ArgName, name)] == [Event(ArgOpen, text), Event(ArgName, name)];
    } else if s <= text {
      FirmOpen(f, name);
      OpenNeedsMore(f, name, s);
    } else {
      OpenFails(f, name, s);
    }
  }

  lemma OpenNeedsMore(f: Format, name: string, s: string)
    requires s <= OpenText(f, name) && s != OpenText(f, name)
    ensures var r := Parse(OpenParser(f, name), s); r.NeedMore? && r.nodes == []
  {
    var nameParser := Atomic(Node(ArgName, Literal(name)));
    var inner := Seq(nameParser, Literal(f.nameSuffix));
    assert Parse(Seq(Literal(f.namePrefix), inner), s).NeedMore? by {
      if f.namePrefix <= s {
        CutShort(f.namePrefix, name + f.nameSuffix, s);
        NameNeedsMore(f, name, s[|f.namePrefix|..]);
        SeqOutcome(Literal(f.namePrefix), inner, s);
      } else {
        assert s == OpenText(f, name)[..|s|] == f.namePrefix[..|s|];
        assert Parse(Literal(f.namePrefix), s).NeedMore?;
      }
    }
    assert Parse(Node(ArgOpen, Seq(Literal(f.namePrefix), inner)), s).NeedMore?;
  }

  lemma CutShort(l: string, more: string, s: string)
    requires s <= l + more && s != l + more && l <= s
    ensures s[|l|..] <= more && s[|l|..] != more
  {
    assert s == l + s[|l|..];
    assert s[|l|..] == (l + more)[..|s|][|l|..] == more[..|s| - |l|];
  }

  lemma SeqOutcome(p: Parser, q: Parser, s: string)
    requires Parse(p, s).Success?
    ensures Parse(Seq(p, q), s).NeedMore? == Parse(q, Parse(p, s).rest).NeedMore?
  {
  }

  lemma NameNeedsMore(f: Format, name: string, s: string)
    requires s <= name + f.nameSuffix && s != name + f.nameSuffix
    ensures Parse(Seq(Atomic(Node(ArgName, Literal(name))), Literal(f.nameSuffix)), s).NeedMore?
  {
    var nameParser := Atomic(Node(ArgName, Literal(name)));
    if name <= s {
      CutShort(name, f.nameSuffix, s);
      assert s == name + s[|name|..];
      NodeParses(ArgName, Literal(name), name, [], s[|name|..]);
      SeqOutcome(nameParser, Literal(f.nameSuffix), s);
    } else {
      assert s == (name + f.nameSuffix)[..|s|] == name[..|s|];
      assert Parse(Literal(name), s).NeedMore?;
      assert Parse(Node(ArgName, Literal(name)), s).NeedMore?;
      assert Parse(nameParser, s).NeedMore?;
    }
  }

  function ArgBody(f: Format): Parser { Seq(Literal(f.valuePrefix), AfterPrefix(f)) }

  lemma BodyAfterPrefix(f: Format, s: string)
    requires f.valuePrefix <= s
    ensures Parse(ArgBody(f), s) == WithNodes([], Parse(AfterPrefix(f), s[|f.valuePrefix|..]))
  {
  }

  lemma SeenBody(f: Format, s: string)
    ensures var r := Parse(ArgBody(f), s);
            if f.valuePrefix <= s then
              var v := Parse(AfterPrefix(f), s[|f.valuePrefix|..]);
              && SameOutcome(r, v)
            else if s <= f.valuePrefix then r.NeedMore? && Seen(r) == []
            else r.Fail?
  {
    EssentialNone();
    if f.valuePrefix <= s {
      var v := Parse(AfterPrefix(f), s[|f.valuePrefix|..]);
      BodyAfterPrefix(f, s);
      SeenWith([], v);
      assert [] + Seen(v) == Seen(v);
    }
  }

  /** After an opener: nothing yet, a growing value, or a settled argument. */
  lemma BodyGrows(f: Format, x: string, more: string)
    ensures var rx, ry := Parse(ArgBody(f), x), Parse(ArgBody(f), x + more);
            if rx.Fail? then ry.Fail?
            else if rx.Success? then ry.Success? && Seen(ry) == Seen(rx)
              && (rx.rest != "" ==> ry.rest == rx.rest + more)
            else
              ry.Fail? || Seen(rx) == []
              || (|Seen(rx)| == 1 && Seen(ry) != [] && GrownValue(Seen(rx)[0], Seen(ry)[0]))
  {
    hide Parse, Seen;
    SeenBody(f, x);
    SeenBody(f, x + more);
    if f.valuePrefix <= x {
      assert (x + more)[|f.valuePrefix|..] == x[|f.valuePrefix|..] + more;
      ValueGrows(f, x[|f.valuePrefix|..], more);
    } else if !(x <= f.valuePrefix) {
      DivergesLonger(f.valuePrefix, x, more);
    }
  }

  function ArgInner(f: Format, name: string): Parser { Seq(OpenParser(f, name), ArgBody(f)) }

  lemma ArgIsInner(f: Format, name: string, s: string)
    ensures ArgParser(f, name) == Node(OtherTag, Node(OtherTag, ArgInner(f, name)))
    ensures var r, c := Parse(ArgParser(f, name), s), Parse(ArgInner(f, name), s);
            SameOutcome(r, c)
  {
    SeenNode(OtherTag, ArgInner(f, name), s);
    SeenNode(OtherTag, Node(OtherTag, ArgInner(f, name)), s);
    var c := Seen(Parse(ArgInner(f, name), s));
    assert [] + ([] + c) == c;
  }

  /** Nothing of an argument is seen before its opener was read completely. */
  lemma SeenAfterOpener(f: Format, name: string, s: string)
    ensures var r := Parse(ArgParser(f, name), s);
            && (r.Success? || Seen(r) != [] ==> OpenText(f, name) <= s)
            && (r.Success? ==> |r.rest| < |s| || OpenText(f, name) == "")
  {
    hide Parse, Seen;
    ArgIsInner(f, name, s);
    OpenOutcome(f, name, s);
    SeenSeq(OpenParser(f, name), ArgBody(f), s);
    if OpenText(f, name) <= s { ParseShorter(ArgBody(f), s[|OpenText(f, name)|..]); }
    SeenNothing();
  }

  lemma SeenNothing()
    ensures Seen(Fail) == []
  {
  }

  lemma ArgSettles(f: Format, name: string, x: string, more: string)
    ensures SettlesAt(ArgParser(f, name), x, more)
  {
    hide Parse, Seen, Ahead;
    var y, text := x + more, OpenText(f, name);
    FirmOpen(f, name);
    assert SettlesAt(OpenParser(f, name), x, more);
    ArgIsInner(f, name, x);
    ArgIsInner(f, name, y);
    OpenOutcome(f, name, x);
    OpenOutcome(f, name, y);
    SeenSeq(OpenParser(f, name), ArgBody(f), x);
    SeenSeq(OpenParser(f, name), ArgBody(f), y);
    if text <= x {
      assert y[|text|..] == x[|text|..] + more;
      BodyGrows(f, x[|text|..], more);
      var ax, ay := Parse(ArgBody(f), x[|text|..]), Parse(ArgBody(f), y[|text|..]);
      if ax.NeedMore? && !ay.Fail? {
        AheadArg(name, Seen(ax), Seen(ay));
      }
    } else {
      AheadNothing(Seen(Parse(ArgParser(f, name), y)));
    }
  }

  lemma AheadArg(name: string, a: seq<Event>, b: seq<Event>)
    requires a == [] || (|a| == 1 && b != [] && GrownValue(a[0], b[0]))
    ensures Ahead([Event(ArgOpen, ""), Event(ArgName, name)] + a, [Event(ArgOpen, ""), Event(ArgName, name)] + b)
  {
    var open := [Event(ArgOpen, ""), Event(ArgName, name)];
    if a != [] {
      assert (open + a)[..2] == open && (open + b)[..2] == open;
    }
  }

  lemma FirmArg(f: Format, name: string)
    ensures Firm(ArgParser(f, name))
  {
    hide ArgParser;
    forall x: string, more: string ensures SettlesAt(ArgParser(f, name), x, more) {
      ArgSettles(f, name, x, more);
    }
  }

  lemma {:induction false} FirmRequired(f: Format, names: seq<string>)
    ensures Firm(Required(f, names))
    decreases |names|
  {
    hide ArgParser, Firm;
    FirmEps();
    if names != [] {
      var before, last := names[..|names| - 1], names[|names| - 1];
      FirmArg(f, last);
      FirmSpace();
      FirmRequired(f, before);
      FirmSeq(Required(f, before), Space);
      FirmSeq(if before == [] then Eps else Seq(Required(f, before), Space), ArgParser(f, last));
    }
  }

  // ---------------------------------------------------------------- the optional arguments

  /** The text starts with the opener of an argument, but what follows is not its value prefix. */
  predicate IsBroken(f: Format, name: string, s: string) {
    OpenText(f, name) <= s && Diverges(OpenText(f, name) + f.valuePrefix, s)
  }

  /** The text, after whitespace, starts with one of these arguments and breaks off in it. */
  predicate Breaks(f: Format, names: seq<string>, s: string) {
    exists i :: 0 <= i < |names| && IsBroken(f, names[i], SkipSpace(s))
  }

  predicate AllFree(f: Format, names: seq<string>) {
    forall i :: 0 <= i < |names| ==> NameFree(f, names[i])
  }

  predicate BreaksHere(f: Format, names: seq<string>, s: string) {
    exists i :: 0 <= i < |names| && IsBroken(f, names[i], s)
  }

  /** An argument whose opener was read fails only where the value prefix should stand. */
  lemma FailsBroken(f: Format, name: string, s: string)
    requires Parse(ArgParser(f, name), s).Fail? && OpenText(f, name) <= s
    ensures IsBroken(f, name, s)
  {
    hide Parse, Seen;
    var text := OpenText(f, name);
    var rest := s[|text|..];
    ArgIsInner(f, name, s);
    OpenOutcome(f, name, s);
    SeenSeq(OpenParser(f, name), ArgBody(f), s);
    SeenBody(f, rest);
    if f.valuePrefix <= rest { ValueThenClose(f, rest[|f.valuePrefix|..]); }
    assert s == text + rest;
    DivergesAfter(text, f.valuePrefix, rest);
  }

  lemma DivergesAfter(a: string, b: string, c: string)
    requires Diverges(b, c)
    ensures Diverges(a + b, a + c)
  {
    PrefixAfter(a, b, c);
    PrefixAfter(a, c, b);
  }

  lemma {:induction false} AllFail(f: Format, names: seq<string>, s: string, i: nat)
    requires Parse(AnyOf(f, names), s).Fail? && i < |names|
    ensures Parse(ArgParser(f, names[i]), s).Fail?
    decreases |names|
  {
    hide ArgParser;
    var n := |names| - 1;
    ChoiceIs(AnyOf(f, names[..n]), ArgParser(f, names[n]), s);
    if i < n { AllFail(f, names[..n], s, i); }
  }

  lemma {:induction false} AnyGrows(f: Format, names: seq<string>, x: string, more: string)
    requires AllFree(f, names)
    ensures TurnsTo(Parse(AnyOf(f, names), x), Parse(AnyOf(f, names), x + more), more, BreaksHere(f, names, x + more))
    decreases |names|
  {
    hide ArgParser, Seen, Ahead, OpenText, NameFree, IsBroken;
    if names != [] {
      var n := |names| - 1;
      var before, last := names[..n], names[n];
      var y := x + more;
      AnyGrows(f, before, x, more);
      ArgSettles(f, last, x, more);
      SeenAfterOpener(f, last, x);
      ChoiceIs(AnyOf(f, before), ArgParser(f, last), x);
      ChoiceIs(AnyOf(f, before), ArgParser(f, last), y);
      hide AnyOf, Parse;
      var ax, ay := Parse(AnyOf(f, before), x), Parse(AnyOf(f, before), y);
      assert before + [last] == names;
      if ax.Fail? {
        if OpenText(f, last) <= x && Parse(ArgParser(f, last), y).Fail? {
          FailsBroken(f, last, y);
          assert names[n] == last;
        }
      } else if ax.NeedMore? && Seen(ax) != [] && ay.Fail? {
        var i :| 0 <= i < |before| && IsBroken(f, before[i], y);
        assert names[i] == before[i];
        GivenUp(f, before, last, i, y);
      }
    }
  }

  /** When the argument that was opened fails in the end, so does every other one. */
  lemma GivenUp(f: Format, before: seq<string>, last: string, i: nat, y: string)
    requires i < |before| && IsBroken(f, before[i], y) && Parse(AnyOf(f, before), y).Fail?
    requires NameFree(f, before[i]) && NameFree(f, last)
    ensures Parse(ArgParser(f, last), y).Fail?
  {
    hide ArgParser, AnyOf, Parse, OpenText, NameFree;
    var text := OpenText(f, before[i]);
    AllFail(f, before, y, i);
    if last != before[i] {
      assert y == text + y[|text|..];
      OpenersDiverge(f, last, before[i], y[|text|..]);
      OtherOpenerFails(f, last, y);
    }
  }

  lemma {:induction false} NothingOnEmpty(f: Format, names: seq<string>)
    requires AllFree(f, names)
    ensures var r := Parse(AnyOf(f, names), "");
            if names == [] then r.Fail? else r.NeedMore? && Seen(r) == []
    decreases |names|
  {
    hide ArgParser, Seen;
    if names != [] {
      var n := |names| - 1;
      NothingOnEmpty(f, names[..n]);
      ChoiceIs(AnyOf(f, names[..n]), ArgParser(f, names[n]), "");
      ArgOnEmpty(f, names[n]);
    }
  }

  lemma ArgOnEmpty(f: Format, name: string)
    requires NameFree(f, name)
    ensures Parse(ArgParser(f, name), "").NeedMore? && Seen(Parse(ArgParser(f, name), "")) == []
  {
    hide Seen;
    assert OpenText(f, name) != "";
    OpenNeedsMore(f, name, "");
    SeenAfterOpener(f, name, "");
    ArgIsInner(f, name, "");
  }

  function OneOptional(f: Format, names: seq<string>): Parser { Seq(Space, AnyOf(f, names)) }

  lemma SeenOptional(f: Format, names: seq<string>, s: string)
    ensures var r, a := Parse(OneOptional(f, names), s), Parse(AnyOf(f, names), SkipSpace(s));
            SameOutcome(r, a)
  {
    hide AnyOf;
    SeenSeq(Space, AnyOf(f, names), s);
    EssentialNone();
    var a := Seen(Parse(AnyOf(f, names), SkipSpace(s)));
    assert [] + a == a;
  }

  lemma OptionalGrows(f: Format, names: seq<string>, x: string, more: string)
    requires AllFree(f, names)
    ensures TurnsTo(Parse(OneOptional(f, names), x), Parse(OneOptional(f, names), x + more), more,
        Breaks(f, names, x + more))
  {
    hide Parse, Seen, Ahead, AnyOf, OneOptional;
    SeenOptional(f, names, x);
    SeenOptional(f, names, x + more);
    SkipSpaceGrows(x, more);
    if SkipSpace(x) == "" {
      NothingOnEmpty(f, names);
      if names == [] { NothingOf(f, SkipSpace(x + more)); }
    } else {
      AnyGrows(f, names, SkipSpace(x), more);
    }
  }

  lemma NothingOf(f: Format, s: string)
    ensures Parse(AnyOf(f, []), s).Fail?
  {
  }

  /** An optional argument that is read takes at least one character. */
  lemma OptionalAdvances(f: Format, names: seq<string>, s: string)
    requires AllFree(f, names)
    ensures var r := Parse(OneOptional(f, names), s); r.Success? ==> |r.rest| < |s|
  {
    hide Parse, Seen, AnyOf, OneOptional;
    SeenOptional(f, names, s);
    AnyAdvances(f, names, SkipSpace(s));
  }

  lemma {:induction false} AnyAdvances(f: Format, names: seq<string>, s: string)
    requires AllFree(f, names)
    ensures var r := Parse(AnyOf(f, names), s); r.Success? ==> |r.rest| < |s|
    decreases |names|
  {
    hide ArgParser, Seen;
    if names != [] {
      var n := |names| - 1;
      AnyAdvances(f, names[..n], s);
      ChoiceIs(AnyOf(f, names[..n]), ArgParser(f, names[n]), s);
      SeenAfterOpener(f, names[n], s);
      assert OpenText(f, names[n]) != "";
    }
  }

  lemma OptionalIs(f: Format, names: seq<string>)
    ensures Optional(f, names) == Repeat(OneOptional(f, names))
  {
  }

  /** The texts that break off in one of these arguments. */
  function Breaking(f: Format, names: seq<string>): string -> bool { s => Breaks(f, names, s) }

  /** The optional arguments of a longer text. */
  lemma OptionalListGrows(f: Format, names: seq<string>, x: string, more: string)
    requires AllFree(f, names)
    ensures ListGrows(Parse(Optional(f, names), x), Parse(Optional(f, names), x + more), more, Breaking(f, names))
  {
    hide Parse, Seen, Ahead, OneOptional, Breaks, ListGrows, Optional;
    var child, breaks := OneOptional(f, names), Breaking(f, names);
    forall a: string, b: string ensures TurnsAt(child, a, b, breaks) {
      OptionalGrows(f, names, a, b);
    }
    forall s: string ensures AdvancesAt(child, s) {
      OptionalAdvances(f, names, s);
    }
    OptionalIs(f, names);
    RepeatGrows(child, breaks, x, more);
  }
}
