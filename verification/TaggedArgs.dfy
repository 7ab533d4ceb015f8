/**
 The grammar of tagged string arguments that `build_tool_parser_tag_tagged` of
 common/chat-auto-parser-generator.cpp generates for a tool, and what it reads back from
 printed arguments.
 */
module TaggedArgs {
  import opened Text
  import opened ToolCallMapper
  import opened Peg

  /** The markers around arguments, names and values. */
  datatype Format = Format(start: string, end: string, namePrefix: string, nameSuffix: string,
                           valuePrefix: string, valueSuffix: string)

  // ---------------------------------------------------------------- the close marker

  /** The value suffix without its trailing whitespace, when what remains is a markup closer. */
  function ValueClose(f: Format): string {
    var trimmed := TrimmedTrailing(f.valueSuffix);
    if trimmed == "" || (trimmed[|trimmed| - 1] != '>' && trimmed[|trimmed| - 1] != ']')
    then f.valueSuffix else trimmed
  }

  lemma {:induction false} TrimmedOnlySpace(s: string)
    ensures var t := TrimmedTrailing(s); s == t + s[|t|..] && AllSpace(s[|t|..])
  {
    if s != [] && IsSpace(s[|s| - 1]) {
      TrimmedOnlySpace(s[..|s| - 1]);
    }
  }

  /** The suffix a template renders is the close marker followed by whitespace only. */
  lemma SuffixIsCloseAndSpace(f: Format)
    ensures var close := ValueClose(f);
            f.valueSuffix == close + f.valueSuffix[|close|..] && AllSpace(f.valueSuffix[|close|..])
    ensures ValueClose(f) == "" <==> f.valueSuffix == ""
  {
    TrimmedOnlySpace(f.valueSuffix);
  }

  // ---------------------------------------------------------------- the grammar

  function OpenParser(f: Format, name: string): Parser {
    Atomic(Node(ArgOpen, Seq(Literal(f.namePrefix), Seq(Atomic(Node(ArgName, Literal(name))), Literal(f.nameSuffix)))))
  }

  function ValueParser(f: Format): Parser { Node(ArgStringValue, Node(OtherTag, Until(ValueClose(f)))) }

  function CloseParser(f: Format): Parser { Atomic(Node(ArgClose, Seq(Literal(ValueClose(f)), Space))) }

  /** The rule of one string argument. */
  function ArgParser(f: Format, name: string): Parser {
    Node(OtherTag, Node(OtherTag,
      Seq(OpenParser(f, name), Seq(Literal(f.valuePrefix), Seq(ValueParser(f), CloseParser(f))))))
  }

  /** The required arguments one after the other, in definition order. */
  function Required(f: Format, names: seq<string>): Parser {
    if names == [] then Eps else
    var before := names[..|names| - 1];
    Seq(if before == [] then Eps else Seq(Required(f, before), Space), ArgParser(f, names[|names| - 1]))
  }

  function AnyOf(f: Format, names: seq<string>): Parser {
    if names == [] then Never else Choice(AnyOf(f, names[..|names| - 1]), ArgParser(f, names[|names| - 1]))
  }

  function Optional(f: Format, names: seq<string>): Parser { Repeat(Seq(Space, AnyOf(f, names))) }

  /** Required arguments in order, then any of the optional ones any number of times. */
  function ArgsParser(f: Format, required: seq<string>, optional: seq<string>): Parser {
    var args := if optional == [] then Required(f, required) else Seq(Required(f, required), Optional(f, optional));
    var started := if f.start == "" then args else Seq(Literal(f.start), args);
    if f.end == "" then started else Seq(started, Literal(f.end))
  }

  // ---------------------------------------------------------------- rule names

  predicate RuleChar(c: char) { 'a' <= c <= 'z' || 'A' <= c <= 'Z' || '0' <= c <= '9' || c == '-' }

  function SkipOthers(s: string): (r: string)
    ensures |r| <= |s|
  {
    if s != "" && !RuleChar(s[0]) then SkipOthers(s[1..]) else s
  }

  /** Every run of characters that a rule name may not have becomes one dash. */
  function CleanName(s: string): string
    decreases |s|
  {
    if s == "" then "" else
    if RuleChar(s[0]) then [s[0]] + CleanName(s[1..]) else "-" + CleanName(SkipOthers(s[1..]))
  }

  function RuleName(tool: string, name: string): string { CleanName("tool-" + tool + "-arg-" + name) }

  /** The rules of a tool's arguments: a later one replaces an earlier one with the same name. */
  function Rules(tool: string, properties: seq<string>): map<string, string> {
    if properties == [] then map[] else
    var last := properties[|properties| - 1];
    Rules(tool, properties[..|properties| - 1])[RuleName(tool, last) := last]
  }

  function References(tool: string, properties: seq<string>, chosen: set<string>): seq<string> {
    if properties == [] then [] else
    var last := properties[|properties| - 1];
    References(tool, properties[..|properties| - 1], chosen)
      + if last in chosen then [RuleName(tool, last)] else []
  }

  function Resolved(rules: map<string, string>, references: seq<string>): seq<string>
    requires forall r :: r in references ==> r in rules
  {
    seq(|references|, i requires 0 <= i < |references| => rules[references[i]])
  }

  lemma {:induction false} ReferencesKnown(tool: string, properties: seq<string>, chosen: set<string>)
    ensures forall r :: r in References(tool, properties, chosen) ==> r in Rules(tool, properties)
  {
    if properties != [] { ReferencesKnown(tool, properties[..|properties| - 1], chosen); }
  }

  /** The grammar of a tool's arguments. */
  function ToolArguments(f: Format, tool: string, properties: seq<string>, required: set<string>): Parser {
    var optional := (set p | p in properties) - required;
    ReferencesKnown(tool, properties, required);
    ReferencesKnown(tool, properties, optional);
    var rules := Rules(tool, properties);
    ArgsParser(f, Resolved(rules, References(tool, properties, required)),
                  Resolved(rules, References(tool, properties, optional)))
  }

  method BuildRequired(f: Format, names: seq<string>) returns (argsSeq: Parser)
    ensures argsSeq == Required(f, names)
  {
    hide ArgParser;
    argsSeq := Eps;
    for i := 0 to |names|
      invariant argsSeq == Required(f, names[..i])
    {
      assert names[..i + 1][..i] == names[..i];
      if i > 0 {
        argsSeq := Seq(argsSeq, Space);
      }
      argsSeq := Seq(argsSeq, ArgParser(f, names[i]));
    }
    assert names[..|names|] == names;
  }

  method BuildChoice(f: Format, names: seq<string>) returns (anyOpt: Parser)
    ensures anyOpt == AnyOf(f, names)
  {
    hide ArgParser;
    anyOpt := Never;
    for i := 0 to |names|
      invariant anyOpt == AnyOf(f, names[..i])
    {
      assert names[..i + 1][..i] == names[..i];
      anyOpt := Choice(anyOpt, ArgParser(f, names[i]));
    }
    assert names[..|names|] == names;
  }

  method BuildArgs(f: Format, tool: string, properties: seq<string>, required: set<string>) returns (p: Parser)
    ensures p == ToolArguments(f, tool, properties, required)
  {
    hide ArgParser, RuleName, CleanName;
    ghost var others := (set p | p in properties) - required;
    var rules: map<string, string> := map[];
    var requiredParsers: seq<string> := [];
    var optionalParsers: seq<string> := [];
    for i := 0 to |properties|
      invariant rules == Rules(tool, properties[..i])
      invariant requiredParsers == References(tool, properties[..i], required)
      invariant optionalParsers == References(tool, properties[..i], others)
    {
      var name := properties[i];
      assert properties[..i + 1][..i] == properties[..i];
      var rule := RuleName(tool, name);
      rules := rules[rule := name];
      if name in required {
        requiredParsers := requiredParsers + [rule];
      } else {
        optionalParsers := optionalParsers + [rule];
      }
    }
    assert properties[..|properties|] == properties;
    ReferencesKnown(tool, properties, required);
    ReferencesKnown(tool, properties, others);

    var requiredNames := Resolved(rules, requiredParsers);
    var optionalNames := Resolved(rules, optionalParsers);
    var argsSeq := BuildRequired(f, requiredNames);
    if optionalParsers != [] {
      var anyOpt := BuildChoice(f, optionalNames);
      argsSeq := Seq(argsSeq, Repeat(Seq(Space, anyOpt)));
    }
    if f.start != "" {
      argsSeq := Seq(Literal(f.start), argsSeq);
    }
    if f.end != "" {
      argsSeq := Seq(argsSeq, Literal(f.end));
    }
    p := argsSeq;
  }

  // ---------------------------------------------------------------- printing

  /** An argument as it is printed, with the whitespace after its close marker. */
  datatype Item = Item(name: string, value: string, spaces: string)

  function OpenText(f: Format, name: string): string { f.namePrefix + (name + f.nameSuffix) }

  function ItemText(f: Format, it: Item): string {
    OpenText(f, it.name) + (f.valuePrefix + (it.value + (ValueClose(f) + it.spaces)))
  }

  function ItemNodes(f: Format, it: Item): seq<Event> {
    [Event(OtherTag, ItemText(f, it)), Event(OtherTag, ItemText(f, it)),
     Event(ArgOpen, OpenText(f, it.name)), Event(ArgName, it.name),
     Event(ArgStringValue, it.value), Event(OtherTag, it.value),
     Event(ArgClose, ValueClose(f) + it.spaces)]
  }

  function Texts(f: Format, items: seq<Item>): string {
    if items == [] then "" else Texts(f, items[..|items| - 1]) + ItemText(f, items[|items| - 1])
  }

  function Nodes(f: Format, items: seq<Item>): seq<Event> {
    if items == [] then [] else Nodes(f, items[..|items| - 1]) + ItemNodes(f, items[|items| - 1])
  }

  function Names(items: seq<Item>): seq<string> {
    seq(|items|, i requires 0 <= i < |items| => items[i].name)
  }

  /** The value can be told from its close marker, and the argument does not start with whitespace. */
  predicate Printable(f: Format, it: Item) {
    Clean(it.value, ValueClose(f)) && AllSpace(it.spaces) && !StartsWithSpace(OpenText(f, it.name))
  }

  // ---------------------------------------------------------------- one argument

  lemma OpenParses(f: Format, name: string, rest: string)
    ensures Parse(OpenParser(f, name), OpenText(f, name) + rest)
         == Success([Event(ArgOpen, OpenText(f, name)), Event(ArgName, name)], rest)
  {
    var all := OpenText(f, name) + rest;
    var afterPrefix, afterName := name + (f.nameSuffix + rest), f.nameSuffix + rest;
    assert all == f.namePrefix + afterPrefix;
    LiteralParses(f.namePrefix, afterPrefix);
    LiteralParses(name, afterName);
    LiteralParses(f.nameSuffix, rest);
    NodeParses(ArgName, Literal(name), name, [], afterName);
    var nameParser := Atomic(Node(ArgName, Literal(name)));
    SeqParses(nameParser, Literal(f.nameSuffix), afterPrefix, afterName, rest, [Event(ArgName, name)], []);
    SeqParses(Literal(f.namePrefix), Seq(nameParser, Literal(f.nameSuffix)), all, afterPrefix, rest, [],
      [Event(ArgName, name)]);
    NodeParses(ArgOpen, Seq(Literal(f.namePrefix), Seq(nameParser, Literal(f.nameSuffix))),
               OpenText(f, name), [Event(ArgName, name)], rest);
  }

  lemma CloseParses(f: Format, spaces: string, rest: string)
    requires AllSpace(spaces) && !StartsWithSpace(rest)
    ensures Parse(CloseParser(f), ValueClose(f) + spaces + rest)
         == Success([Event(ArgClose, ValueClose(f) + spaces)], rest)
  {
    var close := ValueClose(f);
    assert close + spaces + rest == close + (spaces + rest);
    LiteralParses(close, spaces + rest);
    SpaceParses(spaces, rest);
    SeqParses(Literal(close), Space, close + spaces + rest, spaces + rest, rest, [], []);
    NodeParses(ArgClose, Seq(Literal(close), Space), close + spaces, [], rest);
  }

  lemma ValueParses(f: Format, value: string, rest: string)
    requires ValueClose(f) != "" && Clean(value, ValueClose(f))
    ensures Parse(ValueParser(f), value + (ValueClose(f) + rest))
         == Success([Event(ArgStringValue, value), Event(OtherTag, value)], ValueClose(f) + rest)
  {
    var close := ValueClose(f);
    CapturesExactly(value, close, rest);
    NodeParses(OtherTag, Until(close), value, [], close + rest);
    NodeParses(ArgStringValue, Node(OtherTag, Until(close)), value, [Event(OtherTag, value)], close + rest);
  }

  lemma RegroupItem(f: Format, it: Item, rest: string)
    ensures ItemText(f, it) + rest
         == OpenText(f, it.name) + (f.valuePrefix + (it.value + (ValueClose(f) + it.spaces + rest)))
    ensures ValueClose(f) + it.spaces + rest == ValueClose(f) + (it.spaces + rest)
  {
  }

  lemma ItemParses(f: Format, it: Item, rest: string)
    requires ValueClose(f) != "" && Clean(it.value, ValueClose(f)) && AllSpace(it.spaces) && !StartsWithSpace(rest)
    ensures Parse(ArgParser(f, it.name), ItemText(f, it) + rest) == Success(ItemNodes(f, it), rest)
  {
    hide Parse, OpenParser, ValueParser, CloseParser, ValueClose, Clean;
    var s3 := ValueClose(f) + it.spaces + rest;
    var s2 := it.value + s3;
    var s1 := f.valuePrefix + s2;
    var text := ItemText(f, it);
    RegroupItem(f, it, rest);
    OpenParses(f, it.name, s1);
    LiteralParses(f.valuePrefix, s2);
    ValueParses(f, it.value, it.spaces + rest);
    CloseParses(f, it.spaces, rest);
    var open := [Event(ArgOpen, OpenText(f, it.name)), Event(ArgName, it.name)];
    var value := [Event(ArgStringValue, it.value), Event(OtherTag, it.value)];
    var close := [Event(ArgClose, ValueClose(f) + it.spaces)];
    var p2 := Seq(ValueParser(f), CloseParser(f));
    var p1 := Seq(Literal(f.valuePrefix), p2);
    SeqParses(ValueParser(f), CloseParser(f), s2, s3, rest, value, close);
    SeqParses(Literal(f.valuePrefix), p2, s1, s2, rest, [], value + close);
    SeqParses(OpenParser(f, it.name), p1, text + rest, s1, rest, open, [] + (value + close));
    var nodes := open + ([] + (value + close));
    NodeParses(OtherTag, Seq(OpenParser(f, it.name), p1), text, nodes, rest);
    NodeParses(OtherTag, Node(OtherTag, Seq(OpenParser(f, it.name), p1)), text, [Event(OtherTag, text)] + nodes, rest);
    assert [Event(OtherTag, text)] + ([Event(OtherTag, text)] + nodes) == ItemNodes(f, it);
  }

  /** The argument reads back exactly when the close marker does not start inside its value. */
  lemma ItemParsesExactly(f: Format, it: Item, rest: string)
    requires ValueClose(f) != "" && AllSpace(it.spaces) && !StartsWithSpace(rest)
    ensures Parse(ArgParser(f, it.name), ItemText(f, it) + rest) == Success(ItemNodes(f, it), rest)
            <==> Clean(it.value, ValueClose(f))
  {
    if Clean(it.value, ValueClose(f)) {
      ItemParses(f, it, rest);
    } else {
      CutValue(f, it, rest);
    }
  }

  lemma CutValue(f: Format, it: Item, rest: string)
    requires ValueClose(f) != "" && !Clean(it.value, ValueClose(f))
    ensures var r := Parse(ArgParser(f, it.name), ItemText(f, it) + rest);
            r.Success? ==> |r.nodes| > 4 && |r.nodes[4].text| < |it.value|
  {
    var close := ValueClose(f);
    var s2 := it.value + (close + it.spaces + rest);
    var s1 := f.valuePrefix + s2;
    RegroupItem(f, it, rest);
    OpenParses(f, it.name, s1);
    LiteralParses(f.valuePrefix, s2);
    StopsEarly(it.value, close, it.spaces + rest);
    CutNodes(f, s2, |it.value|);
    hide Parse, OpenParser, ValueParser, CloseParser, ValueClose, UntilRest;
    var p2 := Seq(ValueParser(f), CloseParser(f));
    SeqPasses(Literal(f.valuePrefix), p2, s1, s2, []);
    SeqPasses(OpenParser(f, it.name), Seq(Literal(f.valuePrefix), p2), ItemText(f, it) + rest, s1,
              [Event(ArgOpen, OpenText(f, it.name)), Event(ArgName, it.name)]);
    NodePasses(Seq(OpenParser(f, it.name), Seq(Literal(f.valuePrefix), p2)), ItemText(f, it) + rest);
    NodePasses(Node(OtherTag, Seq(OpenParser(f, it.name), Seq(Literal(f.valuePrefix), p2))), ItemText(f, it) + rest);
  }

  lemma CutNodes(f: Format, s: string, n: nat)
    requires n <= |s|
    requires var r := UntilRest(s, ValueClose(f)); r.Some? && |r.value| > |s| - n
    ensures var r := Parse(Seq(ValueParser(f), CloseParser(f)), s);
            r.Success? ==> |r.nodes| > 0 && |r.nodes[0].text| < n
  {
    var close := ValueClose(f);
    var rest := UntilRest(s, close).value;
    var text := Consumed(s, rest);
    assert Parse(Until(close), s) == Success([], rest);
    assert Parse(Node(OtherTag, Until(close)), s) == Success([Event(OtherTag, text)], rest);
    assert Parse(ValueParser(f), s) == Success([Event(ArgStringValue, text), Event(OtherTag, text)], rest);
    SeqPasses(ValueParser(f), CloseParser(f), s, rest, [Event(ArgStringValue, text), Event(OtherTag, text)]);
  }

  lemma SeqPasses(first: Parser, second: Parser, s: string, mid: string, nodes: seq<Event>)
    requires Parse(first, s) == Success(nodes, mid)
    ensures Parse(Seq(first, second), s) == WithNodes(nodes, Parse(second, mid))
  {
  }

  lemma NodePasses(child: Parser, s: string)
    ensures var r := Parse(Node(OtherTag, child), s);
            r.Success? ==>
              Parse(child, s).Success? && exists text :: r.nodes == [Event(OtherTag, text)] + Parse(child, s).nodes
  {
  }

  // ---------------------------------------------------------------- the wrong argument

  /** What starts with another opener is refused at once. */
  lemma OtherOpenerFails(f: Format, name: string, s: string)
    requires Diverges(OpenText(f, name), s)
    ensures Parse(ArgParser(f, name), s) == Fail
  {
    OpenFails(f, name, s);
    SeqFails(OpenParser(f, name), Seq(Literal(f.valuePrefix), Seq(ValueParser(f), CloseParser(f))), s);
  }

  lemma SeqFails(first: Parser, second: Parser, s: string)
    requires Parse(first, s) == Fail
    ensures Parse(Node(OtherTag, Node(OtherTag, Seq(first, second))), s) == Fail
  {
    assert Parse(Seq(first, second), s) == Fail;
    assert Parse(Node(OtherTag, Seq(first, second)), s) == Fail;
  }

  lemma LiteralOrDiverges(l: string, more: string, s: string)
    requires Diverges(l + more, s)
    ensures Diverges(l, s) || (l <= s && Diverges(more, s[|l|..]))
  {
    assert s <= l ==> s <= l + more;
    if l <= s {
      var rest := s[|l|..];
      assert s == l + rest;
      assert more <= rest ==> l + more <= s;
      assert rest <= more ==> s <= l + more;
    }
  }

  lemma OpenFails(f: Format, name: string, s: string)
    requires Diverges(OpenText(f, name), s)
    ensures Parse(OpenParser(f, name), s) == Fail
  {
    LiteralOrDiverges(f.namePrefix, name + f.nameSuffix, s);
    var nameParser := Atomic(Node(ArgName, Literal(name)));
    var inner := Seq(nameParser, Literal(f.nameSuffix));
    if f.namePrefix <= s {
      var s1 := s[|f.namePrefix|..];
      LiteralOrDiverges(name, f.nameSuffix, s1);
      assert Parse(inner, s1) == Fail by {
        if name <= s1 {
          NodeParses(ArgName, Literal(name), name, [], s1[|name|..]);
          assert s1 == name + s1[|name|..];
          LiteralFails(f.nameSuffix, s1[|name|..]);
        } else {
          LiteralFails(name, s1);
        }
      }
      SeqPasses(Literal(f.namePrefix), inner, s, s1, []);
    } else {
      LiteralFails(f.namePrefix, s);
    }
    assert Parse(Seq(Literal(f.namePrefix), inner), s) == Fail;
    assert Parse(Node(ArgOpen, Seq(Literal(f.namePrefix), inner)), s) == Fail;
  }

  lemma LiteralFails(l: string, s: string)
    requires Diverges(l, s)
    ensures Parse(Literal(l), s) == Fail
    ensures Parse(Atomic(Node(ArgName, Literal(l))), s) == Fail
  {
    assert Parse(Node(ArgName, Literal(l)), s) == Fail;
  }

  predicate NameFree(f: Format, name: string) {
    f.nameSuffix != "" && f.nameSuffix[0] !in name
  }

  /** Openers of different names differ before either of them ends. */
  lemma OpenersDiverge(f: Format, a: string, b: string, rest: string)
    requires a != b && NameFree(f, a) && NameFree(f, b)
    ensures Diverges(OpenText(f, a), OpenText(f, b) + rest)
  {
    var x, y := OpenText(f, a), OpenText(f, b) + rest;
    var n, c := |f.namePrefix|, f.nameSuffix[0];
    if |a| == |b| {
      var i :| 0 <= i < |a| && a[i] != b[i];
      assert x[n + i] == a[i] && y[n + i] == b[i];
    } else if |a| < |b| {
      assert x[n + |a|] == c && y[n + |a|] == b[|a|] && b[|a|] in b;
    } else {
      assert y[n + |b|] == c && x[n + |b|] == a[|b|] && a[|b|] in a;
    }
  }

  // ---------------------------------------------------------------- lists of arguments

  lemma NotSpace(f: Format, it: Item, rest: string)
    requires f.nameSuffix != "" && Printable(f, it)
    ensures !StartsWithSpace(ItemText(f, it) + rest)
  {
    assert (ItemText(f, it) + rest)[0] == OpenText(f, it.name)[0];
  }

  lemma {:induction false} RequiredParses(f: Format, items: seq<Item>, rest: string)
    requires ValueClose(f) != "" && f.nameSuffix != "" && !StartsWithSpace(rest)
    requires forall it :: it in items ==> Printable(f, it)
    ensures Parse(Required(f, Names(items)), Texts(f, items) + rest) == Success(Nodes(f, items), rest)
    decreases |items|
  {
    hide Parse, ItemText, ItemNodes, ArgParser, ValueClose;
    var n := |items| - 1;
    if n < 0 {
      EpsParses(rest);
    } else {
      var before, last := items[..n], items[n];
      var tail := ItemText(f, last) + rest;
      assert Names(items)[..n] == Names(before);
      assert Texts(f, items) + rest == Texts(f, before) + tail;
      NotSpace(f, last, rest);
      ItemParses(f, last, rest);
      if n == 0 {
        EpsParses(tail);
        SeqParses(Eps, ArgParser(f, last.name), Texts(f, items) + rest, tail, rest, [], ItemNodes(f, last));
      } else {
        RequiredParses(f, before, tail);
        NoSpaceParses(tail);
        var p := Required(f, Names(before));
        SeqParses(p, Space, Texts(f, before) + tail, tail, tail, Nodes(f, before), []);
        SeqParses(Seq(p, Space), ArgParser(f, last.name), Texts(f, before) + tail, tail, rest, Nodes(f, before) + [],
          ItemNodes(f, last));
        assert Nodes(f, before) + [] == Nodes(f, before);
      }
    }
  }

  lemma EpsParses(s: string)
    ensures Parse(Eps, s) == Success([], s) && [] + s == s
  {
  }

  lemma NoSpaceParses(s: string)
    requires !StartsWithSpace(s)
    ensures Parse(Space, s) == Success([], s)
  {
    SpaceParses("", s);
    assert "" + s == s;
  }

  lemma {:induction false} AnyOfParses(f: Format, names: seq<string>, it: Item, rest: string)
    requires ValueClose(f) != "" && Printable(f, it) && !StartsWithSpace(rest)
    requires NameFree(f, it.name) && forall n :: n in names ==> NameFree(f, n)
    ensures Parse(AnyOf(f, names), ItemText(f, it) + rest)
         == if it.name in names then Success(ItemNodes(f, it), rest) else Fail
    decreases |names|
  {
    hide ItemNodes, ArgParser, ValueClose, Printable, ItemText;
    if names != [] {
      var before, last := names[..|names| - 1], names[|names| - 1];
      AnyOfParses(f, before, it, rest);
      if last == it.name {
        PrintableParses(f, it, rest);
      } else {
        OpenersDiverge(f, last, it.name, f.valuePrefix + (it.value + (ValueClose(f) + it.spaces)) + rest);
        RegroupOpener(f, it, rest);
        OtherOpenerFails(f, last, ItemText(f, it) + rest);
      }
      assert names == before + [last];
    }
  }

  lemma PrintableParses(f: Format, it: Item, rest: string)
    requires ValueClose(f) != "" && Printable(f, it) && !StartsWithSpace(rest)
    ensures Parse(ArgParser(f, it.name), ItemText(f, it) + rest) == Success(ItemNodes(f, it), rest)
  {
    ItemParses(f, it, rest);
  }

  lemma RegroupOpener(f: Format, it: Item, rest: string)
    ensures OpenText(f, it.name) + (f.valuePrefix + (it.value + (ValueClose(f) + it.spaces)) + rest)
        == ItemText(f, it) + rest
  {
  }

  /** The text after the arguments cannot be taken for another optional argument. */
  predicate EndsArgs(f: Format, optional: seq<string>, rest: string) {
    && !StartsWithSpace(rest)
    && (rest == "" || forall n :: n in optional ==> Diverges(OpenText(f, n), rest))
  }

  lemma {:induction false} NoneParses(f: Format, names: seq<string>, rest: string)
    requires forall n :: n in names ==> Diverges(OpenText(f, n), rest)
    ensures Parse(AnyOf(f, names), rest) == Fail
    decreases |names|
  {
    hide ArgParser;
    if names != [] {
      NoneParses(f, names[..|names| - 1], rest);
      OtherOpenerFails(f, names[|names| - 1], rest);
    }
  }

  lemma OptionalEnds(f: Format, names: seq<string>, rest: string)
    requires EndsArgs(f, names, rest)
    ensures Parse(Optional(f, names), rest) == Success([], rest)
  {
    hide AnyOf;
    if rest != "" {
      NoneParses(f, names, rest);
      NoSpaceParses(rest);
      SeqPasses(Space, AnyOf(f, names), rest, rest, []);
    }
  }

  /** Printing from the front, for the parser that reads from the front. */
  lemma {:induction false} FromFront(f: Format, items: seq<Item>)
    requires items != []
    ensures Texts(f, items) == ItemText(f, items[0]) + Texts(f, items[1..])
    ensures Nodes(f, items) == ItemNodes(f, items[0]) + Nodes(f, items[1..])
    decreases |items|
  {
    hide ItemText, ItemNodes;
    var n := |items| - 1;
    if n == 0 {
      assert items[..0] == [] && items[1..] == [];
    } else {
      FromFront(f, items[..n]);
      assert items[..n][1..] == items[1..][..n - 1];
      Associative(ItemText(f, items[0]), Texts(f, items[1..n]), ItemText(f, items[n]));
      Associative(ItemNodes(f, items[0]), Nodes(f, items[1..n]), ItemNodes(f, items[n]));
      assert items[1..][..n - 1] == items[1..n];
    }
  }

  lemma Associative<T>(a: seq<T>, b: seq<T>, c: seq<T>)
    ensures a + b + c == a + (b + c)
  {
  }

  lemma {:induction false} OptionalParses(f: Format, names: seq<string>, items: seq<Item>, rest: string)
    requires ValueClose(f) != "" && EndsArgs(f, names, rest)
    requires forall it :: it in items ==> Printable(f, it) && it.name in names
    requires forall n :: n in names ==> NameFree(f, n)
    ensures Parse(Optional(f, names), Texts(f, items) + rest) == Success(Nodes(f, items), rest)
    decreases |items|
  {
    hide ItemText, ItemNodes, ValueClose, AnyOf, Printable, NameFree;
    if items == [] {
      OptionalEnds(f, names, rest);
      assert "" + rest == rest;
    } else {
      var it, more := items[0], items[1..];
      var tail := Texts(f, more) + rest;
      var s := Texts(f, items) + rest;
      FromFront(f, items);
      assert s == ItemText(f, it) + tail;
      TailIsNotSpace(f, names, more, rest);
      ItemIsNotSpace(f, names, it, tail);
      OptionalParses(f, names, more, rest);
      AnyOfParses(f, names, it, tail);
      NoSpaceParses(s);
      SeqPasses(Space, AnyOf(f, names), s, s, []);
      RepeatParses(Seq(Space, AnyOf(f, names)), s, tail, rest, ItemNodes(f, it), Nodes(f, more));
    }
  }

  lemma RepeatParses(child: Parser, s: string, mid: string, rest: string, a: seq<Event>, b: seq<Event>)
    requires |mid| < |s| && Parse(child, s) == Success(a, mid) && Parse(Repeat(child), mid) == Success(b, rest)
    ensures Parse(Repeat(child), s) == Success(a + b, rest)
  {
    hide Parse;
    RepeatOnce(child, s);
  }

  lemma ItemIsNotSpace(f: Format, names: seq<string>, it: Item, rest: string)
    requires Printable(f, it) && it.name in names && forall n :: n in names ==> NameFree(f, n)
    ensures !StartsWithSpace(ItemText(f, it) + rest) && ItemText(f, it) != ""
  {
    NotSpace(f, it, rest);
  }

  lemma TailIsNotSpace(f: Format, names: seq<string>, items: seq<Item>, rest: string)
    requires !StartsWithSpace(rest)
    requires forall it :: it in items ==> Printable(f, it) && it.name in names
    requires forall n :: n in names ==> NameFree(f, n)
    ensures !StartsWithSpace(Texts(f, items) + rest)
  {
    if items == [] {
      assert "" + rest == rest;
    } else {
      FromFront(f, items);
      ItemIsNotSpace(f, names, items[0], Texts(f, items[1..]) + rest);
      Associative(ItemText(f, items[0]), Texts(f, items[1..]), rest);
    }
  }

  // ---------------------------------------------------------------- the round trip

  predicate Fits(f: Format, required: seq<string>, optional: seq<string>, first: seq<Item>, more: seq<Item>,
                 rest: string) {
    && ValueClose(f) != "" && f.nameSuffix != ""
    && Names(first) == required
    && (forall it :: it in first ==> Printable(f, it))
    && (forall it :: it in more ==> Printable(f, it) && it.name in optional)
    && (forall n :: n in optional ==> NameFree(f, n))
    && EndsArgs(f, optional, f.end + rest)
  }

  /**
   The required arguments in order, then any sequence of optional ones, with any whitespace
   after the close markers: the parser returns the same names and values, and nothing else.
   */
  lemma ArgsRoundTrip(f: Format, required: seq<string>, optional: seq<string>, first: seq<Item>, more: seq<Item>,
                      rest: string)
    requires Fits(f, required, optional, first, more, rest)
    ensures Parse(ArgsParser(f, required, optional), f.start + (Texts(f, first) + (Texts(f, more) + (f.end + rest))))
         == Success(Nodes(f, first) + Nodes(f, more), rest)
  {
    hide Parse, Required, Optional, Texts, Nodes, ValueClose;
    var nodes := Nodes(f, first) + Nodes(f, more);
    var s3 := f.end + rest;
    var s2 := Texts(f, more) + s3;
    var s1 := Texts(f, first) + s2;
    var args := if optional == [] then Required(f, required) else Seq(Required(f, required), Optional(f, optional));
    TailIsNotSpace(f, optional, more, s3);
    RequiredParses(f, first, s2);
    if optional == [] {
      assert |more| > 0 ==> more[0].name in optional;
      assert more == [];
      NoTexts(f);
      assert s2 == s3 && nodes == Nodes(f, first);
    } else {
      OptionalParses(f, optional, more, s3);
      SeqParses(Required(f, required), Optional(f, optional), s1, s2, s3, Nodes(f, first), Nodes(f, more));
    }
    assert Parse(args, s1) == Success(nodes, s3);
    Enclosed(f, args, s1, nodes, rest);
  }

  lemma NoTexts(f: Format)
    ensures Texts(f, []) == "" && Nodes(f, []) == []
  {
  }

  lemma Enclosed(f: Format, args: Parser, s: string, nodes: seq<Event>, rest: string)
    requires Parse(args, s) == Success(nodes, f.end + rest)
    ensures var started := if f.start == "" then args else Seq(Literal(f.start), args);
            Parse(if f.end == "" then started else Seq(started, Literal(f.end)), f.start + s) == Success(nodes, rest)
  {
    hide Parse;
    var started := if f.start == "" then args else Seq(Literal(f.start), args);
    LiteralParses(f.start, s);
    LiteralParses(f.end, rest);
    assert "" + s == s && "" + rest == rest && [] + nodes == nodes && nodes + [] == nodes;
    if f.start != "" {
      SeqParses(Literal(f.start), args, f.start + s, s, f.end + rest, [], nodes);
    }
    if f.end != "" {
      SeqParses(started, Literal(f.end), f.start + s, f.end + rest, rest, nodes, []);
    }
  }

  // ---------------------------------------------------------------- rules that replace each other

  /** No two properties of the tool share a rule name. */
  predicate NoClash(tool: string, properties: seq<string>) {
    forall a, b :: a in properties && b in properties && RuleName(tool, a) == RuleName(tool, b) ==> a == b
  }

  lemma {:induction false} RuleOwner(tool: string, properties: seq<string>, name: string)
    requires name in properties
    ensures var rules := Rules(tool, properties);
            var rule := RuleName(tool, name);
            rule in rules && rules[rule] in properties && RuleName(tool, rules[rule]) == rule
    decreases |properties|
  {
    hide RuleName;
    var before, last := properties[..|properties| - 1], properties[|properties| - 1];
    if RuleName(tool, last) != RuleName(tool, name) {
      assert name in before;
      RuleOwner(tool, before, name);
    }
  }

  /** Every argument keeps its own rule exactly when no two of them share a rule name. */
  lemma OwnRulesExactly(tool: string, properties: seq<string>)
    ensures NoClash(tool, properties) <==>
            forall p :: p in properties ==>
              RuleName(tool, p) in Rules(tool, properties) && Rules(tool, properties)[RuleName(tool, p)] == p
  {
    hide RuleName, Rules;
    forall p | p in properties
      ensures var rules := Rules(tool, properties);
              var rule := RuleName(tool, p);
              rule in rules && rules[rule] in properties && RuleName(tool, rules[rule]) == rule
    {
      RuleOwner(tool, properties, p);
    }
  }

  /**
   An argument whose rule was replaced is not read at all: the parser in its place reads
   the argument that took the rule over.
   */
  lemma ReplacedRuleFails(f: Format, tool: string, properties: seq<string>, it: Item, rest: string)
    requires it.name in properties && forall p :: p in properties ==> NameFree(f, p)
    requires RuleName(tool, it.name) in Rules(tool, properties)
    requires ValueClose(f) != "" && Printable(f, it) && !StartsWithSpace(rest)
    ensures var owner := Rules(tool, properties)[RuleName(tool, it.name)];
            Parse(ArgParser(f, owner), ItemText(f, it) + rest)
              == if owner == it.name then Success(ItemNodes(f, it), rest) else Fail
  {
    hide ArgParser, RuleName, Rules, ItemNodes, ValueClose, Printable, ItemText;
    RuleOwner(tool, properties, it.name);
    var owner := Rules(tool, properties)[RuleName(tool, it.name)];
    if owner == it.name {
      PrintableParses(f, it, rest);
    } else {
      OpenersDiverge(f, owner, it.name, f.valuePrefix + (it.value + (ValueClose(f) + it.spaces)) + rest);
      RegroupOpener(f, it, rest);
      OtherOpenerFails(f, owner, ItemText(f, it) + rest);
    }
  }

  lemma {:induction false} CleanNameAppend(a: string, b: string)
    requires a != "" && RuleChar(a[|a| - 1])
    ensures CleanName(a + b) == CleanName(a) + CleanName(b)
    decreases |a|
  {
    if RuleChar(a[0]) {
      assert (a + b)[1..] == a[1..] + b;
      if |a| == 1 {
        assert a[1..] + b == b && CleanName(a) == a + CleanName("");
      } else {
        CleanNameAppend(a[1..], b);
      }
    } else {
      SkipOthersAppend(a[1..], b);
      assert (a + b)[1..] == a[1..] + b;
      CleanNameAppend(SkipOthers(a[1..]), b);
    }
  }

  lemma {:induction false} SkipOthersAppend(a: string, b: string)
    requires a != "" && RuleChar(a[|a| - 1])
    ensures SkipOthers(a + b) == SkipOthers(a) + b
    ensures SkipOthers(a) != "" && SkipOthers(a)[|SkipOthers(a)| - 1] == a[|a| - 1]
  {
    if !RuleChar(a[0]) {
      assert (a + b)[1..] == a[1..] + b;
      SkipOthersAppend(a[1..], b);
    }
  }

  predicate PlainName(name: string) {
    forall i :: 0 <= i < |name| ==>
      'a' <= name[i] <= 'z' || 'A' <= name[i] <= 'Z' || '0' <= name[i] <= '9' || name[i] == '-'
  }

  lemma {:induction false} PlainNameStays(name: string)
    requires PlainName(name)
    ensures CleanName(name) == name
    decreases |name|
  {
    if name != "" {
      PlainNameStays(name[1..]);
      assert name == [name[0]] + name[1..];
    }
  }

  /** Names of letters, digits and hyphens never share a rule. */
  lemma PlainNamesKeepRules(tool: string, properties: seq<string>)
    requires forall p :: p in properties ==> PlainName(p)
    ensures NoClash(tool, properties)
  {
    hide CleanName;
    var prefix := "tool-" + tool + "-arg-";
    assert prefix[|prefix| - 1] == '-';
    forall a, b | a in properties && b in properties && RuleName(tool, a) == RuleName(tool, b) ensures a == b {
      CleanNameAppend(prefix, a);
      CleanNameAppend(prefix, b);
      PlainNameStays(a);
      PlainNameStays(b);
      assert a == (CleanName(prefix) + a)[|CleanName(prefix)|..];
      assert b == (CleanName(prefix) + b)[|CleanName(prefix)|..];
    }
  }

  /** Two arguments whose names differ only in punctuation share a rule, in every tool. */
  lemma PunctuationClashes(tool: string)
    ensures !NoClash(tool, ["a_b", "a.b"])
  {
    hide CleanName;
    var prefix := "tool-" + tool + "-arg-";
    CleanNameAppend(prefix, "a_b");
    CleanNameAppend(prefix, "a.b");
    ShortNames();
    assert RuleName(tool, "a_b") == RuleName(tool, "a.b");
  }

  lemma ShortNames()
    ensures CleanName("a_b") == "a-b" == CleanName("a.b")
  {
    assert "a_b"[1..] == "_b" && "_b"[1..] == "b" && "b"[1..] == "";
    assert "a.b"[1..] == ".b" && ".b"[1..] == "b";
    assert CleanName("b") == "b" + CleanName("");
    assert SkipOthers("b") == "b";
    assert CleanName("_b") == "-" + CleanName("b");
    assert CleanName(".b") == "-" + CleanName("b");
  }

  // ---------------------------------------------------------------- the grammar of a tool

  function Filtered(properties: seq<string>, chosen: set<string>): seq<string> {
    if properties == [] then [] else
    var last := properties[|properties| - 1];
    Filtered(properties[..|properties| - 1], chosen) + if last in chosen then [last] else []
  }

  lemma {:induction false} ResolvedToOwn(tool: string, properties: seq<string>, chosen: set<string>,
                                         rules: map<string, string>)
    requires forall p :: p in properties ==> RuleName(tool, p) in rules && rules[RuleName(tool, p)] == p
    ensures var references := References(tool, properties, chosen);
            && (forall r :: r in references ==> r in rules)
            && Resolved(rules, references) == Filtered(properties, chosen)
    decreases |properties|
  {
    hide RuleName;
    if properties != [] {
      var before, last := properties[..|properties| - 1], properties[|properties| - 1];
      ResolvedToOwn(tool, before, chosen, rules);
      assert last in properties;
    }
  }

  /** Without clashes the grammar reads the tool's own required and optional arguments. */
  lemma ToolArgsAre(f: Format, tool: string, properties: seq<string>, required: set<string>)
    requires NoClash(tool, properties)
    ensures var optional := (set p | p in properties) - required;
            ToolArguments(f, tool, properties, required)
              == ArgsParser(f, Filtered(properties, required), Filtered(properties, optional))
  {
    hide Rules, References, RuleName, Filtered, ArgsParser;
    OwnRulesExactly(tool, properties);
    ResolvedToOwn(tool, properties, required, Rules(tool, properties));
    ResolvedToOwn(tool, properties, (set p | p in properties) - required, Rules(tool, properties));
  }

  /** The round trip for a tool's arguments. */
  lemma ToolArgsRoundTrip(f: Format, tool: string, properties: seq<string>, required: set<string>,
                          first: seq<Item>, more: seq<Item>, rest: string)
    requires NoClash(tool, properties)
    requires Fits(f, Filtered(properties, required), Filtered(properties, (set p | p in properties) - required),
        first, more, rest)
    ensures Parse(ToolArguments(f, tool, properties, required),
        f.start + (Texts(f, first) + (Texts(f, more) + (f.end + rest))))
         == Success(Nodes(f, first) + Nodes(f, more), rest)
  {
    hide Fits, Parse, ToolArguments, ArgsParser, Texts, Nodes;
    ToolArgsAre(f, tool, properties, required);
    ArgsRoundTrip(f, Filtered(properties, required), Filtered(properties, (set p | p in properties) - required),
      first, more, rest);
  }

  // ---------------------------------------------------------------- what any text yields

  lemma {:induction false} ArgsCapture(f: Format, required: seq<string>, optional: seq<string>)
    ensures CapturesUntil(Required(f, required), ArgStringValue, ValueClose(f))
    ensures CapturesUntil(AnyOf(f, optional), ArgStringValue, ValueClose(f))
    decreases |required| + |optional|
  {
    hide ArgParser;
    if required != [] {
      var before, last := required[..|required| - 1], required[|required| - 1];
      ArgsCapture(f, before, optional);
      ArgCaptures(f, last);
      assert CapturesUntil(Seq(Required(f, before), Space), ArgStringValue, ValueClose(f));
    }
    if optional != [] {
      ArgsCapture(f, required, optional[..|optional| - 1]);
      ArgCaptures(f, optional[|optional| - 1]);
    }
  }

  lemma ArgCaptures(f: Format, name: string)
    ensures CapturesUntil(ArgParser(f, name), ArgStringValue, ValueClose(f))
  {
    var close := ValueClose(f);
    var inner := Seq(Atomic(Node(ArgName, Literal(name))), Literal(f.nameSuffix));
    assert CapturesUntil(Atomic(Node(ArgName, Literal(name))), ArgStringValue, close) by {
      assert CapturesUntil(Node(ArgName, Literal(name)), ArgStringValue, close);
    }
    assert CapturesUntil(inner, ArgStringValue, close);
    assert CapturesUntil(OpenParser(f, name), ArgStringValue, close) by {
      assert CapturesUntil(Node(ArgOpen, Seq(Literal(f.namePrefix), inner)), ArgStringValue, close) by {
        assert CapturesUntil(Seq(Literal(f.namePrefix), inner), ArgStringValue, close);
      }
    }
    assert CapturesUntil(ValueParser(f), ArgStringValue, close) by {
      assert CapturesUntil(Node(OtherTag, Until(close)), ArgStringValue, close);
    }
    assert CapturesUntil(CloseParser(f), ArgStringValue, close) by {
      assert CapturesUntil(Node(ArgClose, Seq(Literal(close), Space)), ArgStringValue, close);
    }
    var parts := Seq(OpenParser(f, name), Seq(Literal(f.valuePrefix), Seq(ValueParser(f), CloseParser(f))));
    assert CapturesUntil(parts, ArgStringValue, close) by {
      assert CapturesUntil(Seq(ValueParser(f), CloseParser(f)), ArgStringValue, close);
      assert CapturesUntil(Seq(Literal(f.valuePrefix), Seq(ValueParser(f), CloseParser(f))), ArgStringValue, close);
    }
    assert CapturesUntil(Node(OtherTag, parts), ArgStringValue, close);
  }

  lemma ArgsParserCaptures(f: Format, required: seq<string>, optional: seq<string>)
    ensures CapturesUntil(ArgsParser(f, required, optional), ArgStringValue, ValueClose(f))
  {
    hide Required, AnyOf, ValueClose;
    var close := ValueClose(f);
    ArgsCapture(f, required, optional);
    assert CapturesUntil(Optional(f, optional), ArgStringValue, close) by {
      assert CapturesUntil(Seq(Space, AnyOf(f, optional)), ArgStringValue, close);
    }
    var args := if optional == [] then Required(f, required) else Seq(Required(f, required), Optional(f, optional));
    assert CapturesUntil(args, ArgStringValue, close);
    var started := if f.start == "" then args else Seq(Literal(f.start), args);
    assert CapturesUntil(started, ArgStringValue, close);
  }

  /** On every text, complete or cut short, no captured value contains the close marker. */
  lemma NoValueHoldsClose(f: Format, tool: string, properties: seq<string>, required: set<string>, s: string)
    requires f.valueSuffix != ""
    ensures var r := Parse(ToolArguments(f, tool, properties, required), s);
            !r.Fail? ==> NoneHolds(r.nodes, ArgStringValue, ValueClose(f))
  {
    hide Parse, ArgsParser, Rules, References, Resolved, ValueClose, CapturesUntil;
    SuffixIsCloseAndSpace(f);
    var optional := (set p | p in properties) - required;
    ReferencesKnown(tool, properties, required);
    ReferencesKnown(tool, properties, optional);
    var rules := Rules(tool, properties);
    ArgsParserCaptures(f, Resolved(rules, References(tool, properties, required)),
                          Resolved(rules, References(tool, properties, optional)));
    NoCaptureHoldsDelimiter(ToolArguments(f, tool, properties, required), s, ArgStringValue, ValueClose(f));
  }
}
