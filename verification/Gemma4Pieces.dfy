/**
 Gemma4 arguments whose text stops somewhere: exactly which JSON is shown then. A piece
 describes what a printed value looks like up to any character.
 */
module Gemma4Pieces {
  import opened Text
  import opened JsonText
  import opened Gemma4Json
  import opened Gemma4Grammar
  import opened Gemma4Leaves
  import opened Gemma4Growth
  import opened Gemma4Texts
  import GrowingParses
  import Peg

  /** A value up to where its text stops; `quote` is what there is of the closing quote. */
  datatype Piece =
    | Nothing
    | Finished(v: Value)
    | OpenQuote(start: string)
    | OpenString(content: string, quote: string)
    | OpenNumber(digits: string)
    | OpenWord(start: string)
    | OpenArray(items: seq<Value>, last: Piece)
    | OpenDict(members: seq<Member>, lastMember: MemberPiece)

  datatype MemberPiece = NoMember | OpenKey(start: string) | OpenValue(key: string, value: Piece)

  function PieceText(c: Piece): string
    decreases c
  {
    match c
    case Nothing => ""
    case Finished(v) => Render(v)
    case OpenQuote(start) => start
    case OpenString(content, quote) => Quote + (content + quote)
    case OpenNumber(digits) => digits
    case OpenWord(start) => start
    case OpenArray(items, last) => "[" + (Ended(ItemTexts(items)) + PieceText(last))
    case OpenDict(members, last) => "{" + (Ended(MemberTexts(members)) + MemberText(last))
  }

  function MemberText(m: MemberPiece): string
    decreases m
  {
    match m
    case NoMember => ""
    case OpenKey(start) => start
    case OpenValue(key, value) => key + ":" + PieceText(value)
  }

  function ItemPrints(items: seq<Value>): seq<string> {
    if items == [] then [] else [Print(items[0])] + ItemPrints(items[1..])
  }

  function MemberPrints(members: seq<Member>): seq<string> {
    if members == [] then []
    else [Dump(members[0].key) + ":" + Print(members[0].value)] + MemberPrints(members[1..])
  }

  /** The JSON that is shown. */
  function PieceJson(c: Piece): string
    decreases c
  {
    match c
    case Nothing => ""
    case Finished(v) => Print(v)
    case OpenQuote(_) => "\""
    case OpenString(content, _) => "\"" + Escaped(content)
    case OpenNumber(digits) => digits
    case OpenWord(start) => start
    case OpenArray(items, last) => "[" + (Ended(ItemPrints(items)) + PieceJson(last))
    case OpenDict(members, last) => "{" + (Ended(MemberPrints(members)) + MemberJson(last))
  }

  function MemberJson(m: MemberPiece): string
    decreases m
  {
    match m
    case NoMember => ""
    case OpenKey(start) => "\"" + Escaped(start)
    case OpenValue(key, value) => Dump(key) + ":" + PieceJson(value)
  }

  predicate ProperStart(s: string, word: string) { s <= word && s != word }

  /** The text of a string does not end in a part of the quote, unless that is told apart from it. */
  predicate TellsQuote(content: string, quote: string) {
    && ProperStart(quote, Quote)
    && (quote == "" ==> forall i :: 0 <= i < |content| ==> !(content[i..] <= Quote))
  }

  ghost predicate StartsNumber(digits: string) {
    digits != "" && exists more: string :: IsNumber(digits + more)
  }

  /** The pieces of printable values. */
  ghost predicate IsPiece(c: Piece)
    decreases c
  {
    match c
    case Nothing => true
    case Finished(v) => Printable(v) && (v.Num? ==> v.trail != "")
    case OpenQuote(start) => start != "" && ProperStart(start, Quote)
    case OpenString(content, quote) => !Peg.Occurs(content, Quote) && TellsQuote(content, quote)
    case OpenNumber(digits) => StartsNumber(digits)
    case OpenWord(start) =>
      start != "" && (ProperStart(start, "true") || ProperStart(start, "false") || ProperStart(start, "null"))
    case OpenArray(items, last) => Printable(Arr(items)) && IsPiece(last)
    case OpenDict(members, last) => Printable(Dict(members)) && IsMemberPiece(last)
  }

  ghost predicate IsMemberPiece(m: MemberPiece)
    decreases m
  {
    match m
    case NoMember => true
    case OpenKey(start) => IsKey(start)
    case OpenValue(key, value) => IsKey(key) && IsPiece(value)
  }

  // ---------------------------------------------------------------- reading up to the end of the text

  /** One node that takes the whole text and translates to this JSON. */
  predicate Shows(r: Trees, json: string) {
    !r.Refused? && (r.Read? ==> r.rest == "") && |r.nodes| == 1 && ToJson(r.nodes[0]) == json
  }

  lemma StringPiece(content: string, quote: string)
    requires !Peg.Occurs(content, Quote) && TellsQuote(content, quote)
    ensures Shows(StringTree(Quote + (content + quote)), "\"" + Escaped(content))
  {
    hide Escaped, ToJson, StringInner, Peg.Occurs, TellsQuote;
    var s, after := Quote + (content + quote), content + quote;
    ContentPiece(content, quote);
    assert s[|Quote|..] == after;
    StringInnerIs(s);
    var n := StringTree(s).nodes[0];
    PartialString(n);
  }

  lemma ContentPiece(content: string, quote: string)
    requires !Peg.Occurs(content, Quote) && TellsQuote(content, quote)
    ensures var c := Leaf(StringContent, Peg.Until(Quote), content + quote);
            var r := Then(c, if c.Read? then Exact(Quote, c.rest) else Refused);
            && r.Short? && |r.nodes| == 1
            && r.nodes[0].rule == StringContent && r.nodes[0].text == content
  {
    hide Quote, Peg.Occurs, TellsQuote;
    UntilPiece(content, quote);
    ContentIs(content + quote);
    QuoteStarts(content, quote);
    assert content + "" == content;
  }

  lemma QuoteStarts(content: string, quote: string)
    requires TellsQuote(content, quote)
    ensures quote <= Quote && quote != Quote
  {
  }

  /** The search for the quote stops at the part of it that ends the text. */
  lemma {:induction false} UntilPiece(content: string, quote: string)
    requires !Peg.Occurs(content, Quote) && TellsQuote(content, quote)
    ensures Peg.UntilRest(content + quote, Quote) == if quote == "" then None else Some(quote)
    decreases |content|
  {
    var s := content + quote;
    if content == "" {
      assert s == quote;
    } else {
      NoQuoteYet(content, quote);
      assert s[1..] == content[1..] + quote;
      assert Peg.UntilRest(s, Quote) == Peg.UntilRest(s[1..], Quote);
      OccursLater(content);
      assert forall i :: 0 <= i < |content| - 1 ==> content[1..][i..] == content[i + 1..];
      UntilPiece(content[1..], quote);
    }
  }

  lemma OccursLater(content: string)
    requires content != "" && !Peg.Occurs(content, Quote)
    ensures !Peg.Occurs(content[1..], Quote)
  {
    forall i | 0 <= i <= |content| - 1 ensures !(Quote <= content[1..][i..]) {
      assert content[1..][i..] == content[i + 1..];
    }
  }

  lemma NoQuoteYet(content: string, quote: string)
    requires content != "" && !Peg.Occurs(content, Quote) && TellsQuote(content, quote)
    ensures !(Quote <= content + quote) && !(content + quote <= Quote)
  {
    var s, n := content + quote, |content|;
    assert s[0] == content[0] && content[0..] == content;
    if quote != "" {
      assert quote[0] == '<' && s[n] == '<';
      assert forall i :: 1 <= i < |Quote| ==> Quote[i] != '<';
    } else {
      assert s == content;
    }
    assert |Quote| <= n ==> s[..|Quote|] == content[..|Quote|];
  }

  lemma QuotePiece(start: string)
    requires start != "" && ProperStart(start, Quote)
    ensures Shows(StringTree(start), "\"")
  {
    assert StringInner(start) == Short([]);
    PartialString(StringTree(start).nodes[0]);
  }

  lemma NumberPiece(digits: string)
    requires StartsNumber(digits)
    ensures Shows(Leaf(NumberRule, JsonNumber, digits), digits)
  {
    hide Peg.Parse, IsNumber, NumberChars;
    var more: string :| IsNumber(digits + more);
    var rest := more + ",";
    assert digits + rest == (digits + more) + ",";
    CommaEnds();
    NumeralReads(digits + more, ",");
    NumeralDecided();
    assert EarlyAt(Numeral, digits, rest);
    SeqIs(Numeral, NumberEnd, digits);
    NumberEndIs("");
  }

  lemma CommaEnds()
    ensures ","[0] !in NumberChars
  {
  }

  lemma StartsNumberIs(digits: string)
    requires StartsNumber(digits)
    ensures digits != "" && (digits[0] == '-' || digits[0] in Digits)
  {
    hide IsNumber, Digits;
    var more: string :| IsNumber(digits + more);
    NumberIsNumeric(digits + more);
    assert (digits + more)[0] == digits[0];
  }

  lemma WordPiece(start: string)
    requires start != "" && (ProperStart(start, "true") || ProperStart(start, "false") || ProperStart(start, "null"))
    ensures Shows(ByFirst(start), start)
  {
    hide Peg.Parse;
    BoolIs(start);
    WordIs("null", start);
    assert start[0] == 't' || start[0] == 'f' || start[0] == 'n';
  }

  lemma FinishedPiece(v: Value)
    requires Printable(v) && (v.Num? ==> v.trail != "")
    ensures Render(v) != "" && Shows(ByFirst(Render(v)), Print(v))
  {
    hide Peg.Parse, ToJson, Print, Leaf, Block, StringTree, ByFirst, Printable, Spells, IsValue;
    var s := Render(v);
    assert s + "" == s;
    RenderNotEmpty(v);
    TreeSpells(v);
    CompleteTree(Tree(v), v);
    OnlyChild(v);
    ValueByFirst(s);
    if v.Arr? || v.Dict? {
      InnerValueReads(v, "");
      BlockByFirst(v);
    } else {
      LeafValueReads(v, "");
    }
  }

  lemma BlockByFirst(v: Value)
    requires v.Arr? || v.Dict?
    ensures Render(v) != "" && ByFirst(Render(v)) == Block(if v.Arr? then ArrayRule else DictRule, Render(v))
  {
    hide Block;
  }

  // ---------------------------------------------------------------- lists up to the end of the text

  predicate FreshStart(rule: Rule, text: string) {
    text != "" ==> !IsSpace(text[0]) && text[0] != Close(rule)[0]
  }

  /** Complete elements and a last one that ends with the text. */
  lemma {:induction false} ElementsPiece(rule: Rule, texts: seq<string>, ns: seq<Node>, text: string, json: string)
    requires AllRead(rule, texts, ns) && FreshStart(rule, text) && Shows(Element(rule, text), json)
    ensures var r := Elements(rule, Ended(texts) + text);
            && !r.Refused? && (r.Read? ==> r.rest == "")
            && r.nodes == ns + Element(rule, text).nodes
    decreases |texts|
  {
    hide Element, Elements, ReadsAs, ToJson, FreshStart;
    var last := Element(rule, text);
    if texts == [] {
      assert Ended(texts) + text == text;
      LastElement(rule, text);
      assert ns + last.nodes == last.nodes;
    } else {
      var after := Ended(texts[1..]) + text;
      ElementsPiece(rule, texts[1..], ns[1..], text, json);
      RegroupListed(texts[0], Ended(texts[1..]), text);
      ReadsThere(rule, texts[0], ns[0], "," + after);
      AfterStarts(rule, texts[1..], ns[1..], text);
      FirstElement(rule, texts[0], ns[0], after);
      assert [ns[0]] + (ns[1..] + last.nodes) == ns + last.nodes;
    }
  }

  lemma RegroupListed(first: string, others: string, text: string)
    ensures first + "," + others + text == first + ("," + (others + text))
  {
  }

  lemma LastElement(rule: Rule, text: string)
    requires var e := Element(rule, text); !e.Refused? && (e.Read? ==> e.rest == "")
    ensures Elements(rule, text) == Element(rule, text)
  {
    hide Element, MoreElements;
    MoreStops(rule, "");
    var e := Element(rule, text);
    assert e.nodes + [] == e.nodes;
  }

  lemma FirstElement(rule: Rule, text: string, n: Node, after: string)
    requires Element(rule, text + ("," + after)) == Read([n], "," + after)
    requires Peg.SkipSpace(after) == after && !Elements(rule, after).Refused?
    ensures Elements(rule, text + ("," + after)) == After([n], Elements(rule, after))
  {
    hide Element, MoreElements;
    MoreIs(rule, "," + after);
    assert ("," + after)[1..] == after;
  }

  lemma AfterStarts(rule: Rule, texts: seq<string>, ns: seq<Node>, text: string)
    requires AllRead(rule, texts, ns) && FreshStart(rule, text)
    ensures FreshStart(rule, Ended(texts) + text)
    ensures Peg.SkipSpace(Ended(texts) + text) == Ended(texts) + text
  {
    hide Element;
    if texts == [] {
      assert Ended(texts) + text == text;
    } else {
      assert ReadsAs(rule, texts[0], ns[0]);
      assert (Ended(texts) + text)[0] == texts[0][0];
    }
  }

  lemma BlockIs(rule: Rule, inner: string)
    ensures var s := Open(rule) + inner;
            Block(rule, s) == Wrap(rule, s, BlockRest(rule, Peg.SkipSpace(inner)))
  {
    hide BlockRest, Wrap;
    assert (Open(rule) + inner)[1..] == inner;
  }

  lemma BlockPiece(rule: Rule, texts: seq<string>, ns: seq<Node>, jsons: seq<string>, text: string, json: string)
    requires (rule == DictRule || rule == ArrayRule) && AllRead(rule, texts, ns) && AllToJson(ns, jsons)
    requires FreshStart(rule, text) && Shows(Element(rule, text), json) && (text == "" ==> json == "")
    ensures Block(rule, Open(rule) + (Ended(texts) + text)).Short?
    ensures Shows(Block(rule, Open(rule) + (Ended(texts) + text)), Open(rule) + (Ended(jsons) + json))
  {
    hide Element, Elements, ReadsAs, ToJson, Ended, Block, BlockRest, FreshStart;
    var inner := Ended(texts) + text;
    AfterStarts(rule, texts, ns, text);
    RestPiece(rule, texts, ns, text, json);
    BlockIs(rule, inner);
    var n := Block(rule, Open(rule) + inner).nodes[0];
    if inner == "" {
      NothingShown(n, texts, jsons);
    } else {
      assert [Element(rule, text).nodes[0]] == Element(rule, text).nodes;
      PartialBlock(n, ns, jsons, Element(rule, text).nodes[0]);
    }
  }

  lemma RestPiece(rule: Rule, texts: seq<string>, ns: seq<Node>, text: string, json: string)
    requires (rule == DictRule || rule == ArrayRule) && AllRead(rule, texts, ns)
    requires FreshStart(rule, text) && Shows(Element(rule, text), json)
    ensures var inner := Ended(texts) + text;
            BlockRest(rule, inner) == Short(if inner == "" then [] else ns + Element(rule, text).nodes)
  {
    hide Element, Elements, ReadsAs, ToJson, Ended;
    var inner := Ended(texts) + text;
    if inner != "" {
      AfterStarts(rule, texts, ns, text);
      ElementsPiece(rule, texts, ns, text, json);
      var nodes := Elements(rule, inner).nodes;
      assert nodes + [] == nodes;
    }
  }

  lemma NothingShown(n: Node, texts: seq<string>, jsons: seq<string>)
    requires (n.rule == DictRule || n.rule == ArrayRule) && n.partial && n.text != "" && n.children == []
    requires Ended(texts) == "" && |texts| == |jsons|
    ensures ToJson(n) == (if n.rule == DictRule then "{" else "[") + (Ended(jsons) + "")
  {
    assert texts == [] || |Ended(texts)| >= 1;
  }

  // ---------------------------------------------------------------- pieces of values

  lemma {:induction false} ItemsToJson(items: seq<Value>)
    requires forall i :: 0 <= i < |items| ==> Printable(items[i])
    ensures AllToJson(ItemTrees(items), ItemPrints(items))
    decreases |items|
  {
    hide Printable, Tree, Print, ToJson, Spells, IsValue;
    if items != [] {
      TreeSpells(items[0]);
      CompleteTree(Tree(items[0]), items[0]);
      ItemsToJson(items[1..]);
    }
  }

  lemma {:induction false} MembersToJson(members: seq<Member>)
    requires forall i :: 0 <= i < |members| ==> IsKey(members[i].key) && Printable(members[i].value)
    ensures AllToJson(MemberTrees(members), MemberPrints(members))
    decreases |members|
  {
    hide Printable, MemberTree, Print, ToJson, IsKey;
    if members != [] {
      MemberToJson(members[0]);
      MembersToJson(members[1..]);
    }
  }

  lemma MemberToJson(m: Member)
    requires IsKey(m.key) && Printable(m.value)
    ensures ToJson(MemberTree(m)) == Dump(m.key) + ":" + Print(m.value)
  {
    hide Printable, Tree, Print, Spells, IsValue, Dump;
    TreeSpells(m.value);
    CompleteTree(Tree(m.value), m.value);
    var n := MemberTree(m);
    KeyToJson(n.children[0], m.key);
    PairConcatenated(n.children);
  }

  lemma WrapShows(s: string, inner: Trees, json: string)
    requires s != "" && Shows(inner, json) && (inner.Read? ==> |inner.rest| < |s|)
    ensures Shows(Wrap(ValueRule, s, inner), json)
  {
    var n := Wrap(ValueRule, s, inner).nodes[0];
    assert ToJson(n) == ToJson(n.children[0]);
  }

  /** Whatever piece of a value a text ends in, its JSON is shown. */
  lemma {:induction false} PieceShows(c: Piece)
    requires IsPiece(c)
    ensures Shows(ValueTree(PieceText(c)), PieceJson(c))
    ensures FreshStart(ArrayRule, PieceText(c)) && FreshStart(DictRule, PieceText(c))
    decreases c, 2
  {
    hide ToJson, Wrap, ByFirst, PieceJson, ValueInner, Shows;
    var s := PieceText(c);
    if c.Nothing? {
      NothingShows();
    } else {
      OptionShows(c);
      ValueByFirst(s);
      ShownInside(s, ByFirst(s), PieceJson(c));
      WrapShows(s, ValueInner(s), PieceJson(c));
    }
  }

  lemma ShownInside(s: string, r: Trees, json: string)
    requires s != "" && Shows(r, json)
    ensures r.Read? ==> |r.rest| < |s|
  {
  }

  lemma NothingShows()
    ensures Shows(ValueTree(""), "") && PieceJson(Nothing) == "" && PieceText(Nothing) == ""
  {
    NothingIsShort();
    assert ToJson(ValueTree("").nodes[0]) == "";
  }

  lemma OptionShows(c: Piece)
    requires IsPiece(c) && !c.Nothing?
    ensures PieceText(c) != "" && Shows(ByFirst(PieceText(c)), PieceJson(c))
    ensures FreshStart(ArrayRule, PieceText(c)) && FreshStart(DictRule, PieceText(c))
    decreases c, 1
  {
    hide ToJson, Printable, Print, ByFirst, Shows;
    if c.OpenArray? || c.OpenDict? {
      BlockShows(c);
    } else if c.Finished? {
      FinishedPiece(c.v);
      RenderStarts(c.v);
    } else if c.OpenNumber? {
      NumberShows(c.digits);
    } else if c.OpenWord? {
      WordPiece(c.start);
      WordStarts(c.start);
    } else {
      QuotedShows(c);
    }
  }

  lemma WordStarts(start: string)
    requires start != "" && (ProperStart(start, "true") || ProperStart(start, "false") || ProperStart(start, "null"))
    ensures FreshStart(ArrayRule, start) && FreshStart(DictRule, start)
  {
    assert start[0] == 't' || start[0] == 'f' || start[0] == 'n';
  }

  lemma NotNumber(c: char)
    requires c == '-' || '0' <= c <= '9'
    ensures !IsSpace(c) && c != ']' && c != '}' && c != '<' && c != '{' && c != '['
  {
  }

  lemma NumberShows(digits: string)
    requires StartsNumber(digits)
    ensures digits != "" && Shows(ByFirst(digits), digits)
    ensures FreshStart(ArrayRule, digits) && FreshStart(DictRule, digits)
  {
    hide ToJson, Block, Leaf, StringTree, StartsNumber, Digits, NumberChars, JsonNumber, JsonBool, JsonNull, Shows;
    NumberPiece(digits);
    StartsNumberIs(digits);
    DigitIs(digits[0]);
    NotNumber(digits[0]);
  }

  lemma QuotedShows(c: Piece)
    requires IsPiece(c) && (c.OpenQuote? || c.OpenString?)
    ensures PieceText(c) != "" && Shows(ByFirst(PieceText(c)), PieceJson(c))
    ensures FreshStart(ArrayRule, PieceText(c)) && FreshStart(DictRule, PieceText(c))
  {
    hide ToJson, Block, Leaf, StringTree, Peg.Occurs, TellsQuote;
    if c.OpenQuote? {
      QuotePiece(c.start);
    } else {
      StringPiece(c.content, c.quote);
    }
    assert PieceText(c)[0] == '<';
  }

  lemma BlockShows(c: Piece)
    requires IsPiece(c) && (c.OpenArray? || c.OpenDict?)
    ensures PieceText(c) != "" && Shows(ByFirst(PieceText(c)), PieceJson(c))
    ensures FreshStart(ArrayRule, PieceText(c)) && FreshStart(DictRule, PieceText(c))
    decreases c, 0
  {
    hide ToJson, Block, Leaf, StringTree, Shows, Printable, Ended;
    if c.OpenArray? {
      ArrayShows(c.items, c.last);
      assert PieceText(c)[0] == '[';
    } else {
      DictShows(c.members, c.lastMember);
      assert PieceText(c)[0] == '{';
    }
  }

  lemma ArrayShows(items: seq<Value>, last: Piece)
    requires Printable(Arr(items)) && IsPiece(last)
    ensures var c := OpenArray(items, last); Shows(Block(ArrayRule, PieceText(c)), PieceJson(c))
    decreases last, 3
  {
    hide Block, ToJson, Print, Render, IsPiece, Ended, PieceText, PieceJson, Shows;
    ItemsRead(items);
    ItemsToJson(items);
    PieceShows(last);
    EmptyPiece(last);
    BlockPiece(ArrayRule, ItemTexts(items), ItemTrees(items), ItemPrints(items), PieceText(last), PieceJson(last));
    ArrayIs(items, last);
  }

  lemma ArrayIs(items: seq<Value>, last: Piece)
    ensures PieceText(OpenArray(items, last)) == "[" + (Ended(ItemTexts(items)) + PieceText(last))
    ensures PieceJson(OpenArray(items, last)) == "[" + (Ended(ItemPrints(items)) + PieceJson(last))
  {
  }

  lemma EmptyPiece(c: Piece)
    requires IsPiece(c)
    ensures PieceText(c) == "" ==> PieceJson(c) == ""
  {
    hide Printable;
    if c.Finished? { RenderNotEmpty(c.v); }
  }

  /** Arguments that break off show exactly the JSON of what was read of them. */
  lemma DictShows(members: seq<Member>, last: MemberPiece)
    requires Printable(Dict(members)) && IsMemberPiece(last)
    ensures var c := OpenDict(members, last);
            Block(DictRule, PieceText(c)).Short? && Shows(Block(DictRule, PieceText(c)), PieceJson(c))
    decreases last, 3
  {
    hide Block, ToJson, Print, Render, IsMemberPiece, Ended, PieceText, PieceJson, MemberText, MemberJson, Shows;
    MembersRead(members);
    MembersToJson(members);
    MemberShows(last);
    BlockPiece(DictRule, MemberTexts(members), MemberTrees(members), MemberPrints(members), MemberText(last),
               MemberJson(last));
    DictIs(members, last);
  }

  lemma DictIs(members: seq<Member>, last: MemberPiece)
    ensures PieceText(OpenDict(members, last)) == "{" + (Ended(MemberTexts(members)) + MemberText(last))
    ensures PieceJson(OpenDict(members, last)) == "{" + (Ended(MemberPrints(members)) + MemberJson(last))
  {
  }

  lemma MemberShows(m: MemberPiece)
    requires IsMemberPiece(m)
    ensures Shows(Element(DictRule, MemberText(m)), MemberJson(m))
    ensures FreshStart(DictRule, MemberText(m)) && (MemberText(m) == "" ==> MemberJson(m) == "")
    decreases m, 1
  {
    match m
    case NoMember => NoMemberShows();
    case OpenKey(start) => KeyShows(start);
    case OpenValue(key, value) =>
      PieceShows(value);
      MemberValueShows(key, PieceText(value), PieceJson(value));
  }

  lemma NoMemberShows()
    ensures Shows(Element(DictRule, ""), "")
  {
    assert Leaf(DictKeyName, KeyName, "").Short?;
    assert KeyInner("").Short?;
    assert MemberInner("").Short?;
    assert ToJson(Element(DictRule, "").nodes[0]) == "";
  }

  lemma KeyShows(start: string)
    requires IsKey(start)
    ensures Shows(Element(DictRule, start), "\"" + Escaped(start))
  {
    hide Escaped, Peg.Parse, Leaf, KeyName, IsKey;
    NameEnds(start);
    var name := Node(DictKeyName, start, [], false);
    assert [name] + [] == [name];
    var key := Node(DictKey, start, [name], true);
    assert KeyTree(start) == Short([key]);
    NotEmptyKey(start);
    PartialKey(key);
    assert [key][1..] == [];
    assert Concatenated([key]) == ToJson(key) + Concatenated([]);
    var kv := Node(DictKv, start, [key], true);
    assert Element(DictRule, start) == Short([kv]);
    assert ToJson(kv) == Concatenated([key]);
  }

  lemma NotEmptyKey(key: string)
    requires IsKey(key)
    ensures key != ""
  {
  }

  lemma NameEnds(start: string)
    requires IsKey(start)
    ensures Leaf(DictKeyName, KeyName, start) == Read([Node(DictKeyName, start, [], false)], "")
  {
    hide Peg.Parse;
    RunReads(start, "", ":}", true, 1);
    assert start + "" == start;
    LeafReads(DictKeyName, KeyName, start, "");
  }

  lemma MemberValueShows(key: string, text: string, json: string)
    requires IsKey(key) && FreshStart(DictRule, text) && Shows(ValueTree(text), json)
    ensures Shows(Element(DictRule, key + ":" + text), Dump(key) + ":" + json)
  {
    hide ValueTree, KeyTree, Dump;
    KeyReads(key, text);
    assert Peg.SkipSpace(text) == text;
    var s := key + ":" + text;
    var v := ValueTree(text);
    assert MemberInner(s) == After([KeyNode(key)], v);
    var kv := Element(DictRule, s).nodes[0];
    assert kv.children == [KeyNode(key)] + v.nodes;
    assert kv.text != "";
    PairConcatenated(kv.children);
    KeyToJson(KeyNode(key), key);
    assert ToJson(kv) == Concatenated(kv.children);
  }

  /** A text that stops inside a string value shows the escape of every character behind its quote. */
  lemma StringValueShows(members: seq<Member>, key: string, content: string)
    requires Printable(Dict(members)) && IsKey(key) && !Peg.Occurs(content, Quote) && TellsQuote(content, "")
    ensures Shows(Block(DictRule, "{" + (Ended(MemberTexts(members)) + (key + ":" + (Quote + content)))),
                  "{" + (Ended(MemberPrints(members)) + (Dump(key) + ":" + ("\"" + Escaped(content)))))
  {
    hide Block, ToJson, Printable, Escaped, Peg.Occurs, Ended, Shows, Dump, TellsQuote;
    assert content + "" == content;
    var last := OpenValue(key, OpenString(content, ""));
    assert PieceText(last.value) == Quote + content && MemberText(last) == key + ":" + (Quote + content);
    assert MemberJson(last) == Dump(key) + ":" + ("\"" + Escaped(content));
    DictIs(members, last);
    DictShows(members, last);
  }

  // ---------------------------------------------------------------- every place to stop

  lemma {:induction false} QuoteSplit(p: string) returns (content: string, quote: string)
    requires !Peg.Occurs(p, Quote)
    ensures p == content + quote && !Peg.Occurs(content, Quote) && TellsQuote(content, quote)
    decreases |p|
  {
    hide Quote;
    if p == "" {
      content, quote := "", "";
      EmptyTells();
    } else if p <= Quote {
      content, quote := "", p;
      assert Quote <= p[0..] ==> Peg.Occurs(p, Quote);
      NoQuoteInside("");
    } else {
      OccursLater(p);
      var c, q := QuoteSplit(p[1..]);
      content, quote := [p[0]] + c, q;
      assert content + quote == p;
      OccursInFront(content, quote);
      TellsMore(p[0], c, q);
    }
  }

  lemma EmptyTells()
    ensures TellsQuote("", "") && !Peg.Occurs("", Quote)
  {
  }

  lemma NoQuoteInside(s: string)
    ensures |s| < |Quote| ==> !Peg.Occurs(s, Quote)
  {
  }

  lemma OccursInFront(content: string, quote: string)
    requires !Peg.Occurs(content + quote, Quote)
    ensures !Peg.Occurs(content, Quote)
  {
    forall i | 0 <= i <= |content| ensures !(Quote <= content[i..]) {
      assert (content + quote)[i..] == content[i..] + quote;
    }
  }

  lemma TellsMore(c: char, content: string, quote: string)
    requires TellsQuote(content, quote) && !([c] + content + quote <= Quote)
    ensures TellsQuote([c] + content, quote)
  {
    forall i | 0 <= i < |content| + 1 && quote == "" ensures !(([c] + content)[i..] <= Quote) {
      if i == 0 {
        assert [c] + content + quote == ([c] + content)[0..];
      } else {
        assert ([c] + content)[i..] == content[i - 1..];
      }
    }
  }

  lemma StringStops(s: string, k: nat) returns (c: Piece)
    requires !Peg.Occurs(s, Quote) && 0 < k < |Quote + s + Quote|
    ensures IsPiece(c) && PieceText(c) == (Quote + s + Quote)[..k]
  {
    hide Peg.Occurs, TellsQuote;
    var n := |Quote|;
    if k < n {
      c := OpenQuote(Quote[..k]);
    } else if k <= n + |s| {
      var p := s[..k - n];
      assert s == p + s[k - n..];
      OccursInFront(p, s[k - n..]);
      var content, quote := QuoteSplit(p);
      c := OpenString(content, quote);
    } else {
      c := OpenString(s, Quote[..k - n - |s|]);
      PartTells(s, k - n - |s|);
    }
  }

  lemma PartTells(s: string, j: nat)
    requires 0 < j < |Quote|
    ensures TellsQuote(s, Quote[..j])
  {
  }

  /** Wherever the printed text of a value is cut, what is left is the text of a piece. */
  lemma {:induction false} ValueStops(v: Value, k: nat) returns (c: Piece)
    requires Printable(v) && k <= |Render(v)|
    ensures IsPiece(c) && PieceText(c) == Render(v)[..k]
    decreases v, 2
  {
    hide IsNumber, Peg.Occurs;
    if k == 0 {
      c := Nothing;
    } else if v.Num? {
      c := NumberStops(v, k);
    } else if k == |Render(v)| {
      c := Finished(v);
    } else {
      match v
      case Str(s) => c := StringStops(s, k);
      case Bool(b, w) => c := WordStops(v, k);
      case Null(w) => c := WordStops(v, k);
      case Arr(items) =>
        var some, last := ItemsStop(items, k - 1);
        c := OpenArray(some, last);
        StopsInside("[", Listed(ItemTexts(items)), "]", k);
      case Dict(members) =>
        var some, last := MembersStop(members, k - 1);
        c := OpenDict(some, last);
        StopsInside("{", Listed(MemberTexts(members)), "}", k);
    }
  }

  lemma StopsInside(open: string, list: string, close: string, k: nat)
    requires |open| == 1 && |close| == 1 && 0 < k < |open + list + close|
    ensures (open + list + close)[..k] == open + list[..k - 1]
  {
  }

  lemma NumberStops(v: Value, k: nat) returns (c: Piece)
    requires v.Num? && Printable(v) && 0 < k <= |Render(v)|
    ensures IsPiece(c) && PieceText(c) == Render(v)[..k]
  {
    hide IsNumber;
    var t, w := v.digits, v.trail;
    if k <= |t| {
      c := OpenNumber(t[..k]);
      assert t[..k] + t[k..] == t;
    } else {
      c := Finished(Num(t, w[..k - |t|]));
    }
  }

  lemma WordStops(v: Value, k: nat) returns (c: Piece)
    requires (v.Bool? || v.Null?) && Printable(v) && 0 < k <= |Render(v)|
    ensures IsPiece(c) && PieceText(c) == Render(v)[..k]
  {
    var word, w := if v.Bool? then Word(v.b) else "null", v.trail;
    assert Render(v) == word + w;
    if k < |word| {
      c := OpenWord(word[..k]);
    } else if v.Bool? {
      c := Finished(Bool(v.b, w[..k - |word|]));
    } else {
      c := Finished(Null(w[..k - |word|]));
    }
  }

  lemma {:induction false} ItemsStop(items: seq<Value>, k: nat) returns (some: seq<Value>, last: Piece)
    requires (forall i :: 0 <= i < |items| ==> Printable(items[i])) && k <= |Listed(ItemTexts(items))|
    ensures Printable(Arr(some)) && IsPiece(last)
    ensures Ended(ItemTexts(some)) + PieceText(last) == Listed(ItemTexts(items))[..k]
    decreases items, 0
  {
    hide Printable, Render, IsPiece;
    some := [];
    NothingPrintable();
    if items == [] {
      last := Nothing;
      NothingIsPiece();
    } else {
      var first := Render(items[0]);
      ListedFirst(ItemTexts(items));
      if k <= |first| {
        last := ValueStops(items[0], k);
        assert Listed(ItemTexts(items))[..k] == first[..k];
      } else {
        var n := k - |first| - 1;
        var others;
        others, last := ItemsStop(items[1..], n);
        some := [items[0]] + others;
        MoreItems(items[0], others);
        ListedStops(ItemTexts(items), k, Ended(ItemTexts(others)), PieceText(last));
      }
    }
  }

  lemma NothingPrintable()
    ensures Printable(Arr([])) && Printable(Dict([])) && ItemTexts([]) == [] && MemberTexts([]) == [] && Ended([]) == ""
  {
  }

  lemma NothingIsPiece()
    ensures IsPiece(Nothing)
  {
  }

  lemma MoreItems(v: Value, others: seq<Value>)
    requires Printable(v) && Printable(Arr(others))
    ensures Printable(Arr([v] + others)) && ItemTexts([v] + others) == [Render(v)] + ItemTexts(others)
    ensures Ended(ItemTexts([v] + others)) == Render(v) + "," + Ended(ItemTexts(others))
  {
    assert ([v] + others)[1..] == others;
  }

  lemma ListedFirst(texts: seq<string>)
    requires texts != []
    ensures Listed(texts) == texts[0] + if |texts| == 1 then "" else "," + Listed(texts[1..])
  {
  }

  lemma ListedStops(texts: seq<string>, k: nat, ended: string, last: string)
    requires |texts| > 1 && |texts[0]| < k <= |texts[0]| + 1 + |Listed(texts[1..])|
    requires ended + last == Listed(texts[1..])[..k - |texts[0]| - 1]
    ensures k <= |Listed(texts)| && (texts[0] + "," + ended) + last == Listed(texts)[..k]
  {
    ListedFirst(texts);
    var rest := Listed(texts[1..]);
    assert Listed(texts) == texts[0] + ("," + rest);
    assert Listed(texts)[..k] == texts[0] + ("," + rest)[..k - |texts[0]|];
    assert ("," + rest)[..k - |texts[0]|] == "," + rest[..k - |texts[0]| - 1];
  }

  lemma {:induction false} MembersStop(members: seq<Member>, k: nat)
    returns (some: seq<Member>, last: MemberPiece)
    requires forall i :: 0 <= i < |members| ==> IsKey(members[i].key) && Printable(members[i].value)
    requires k <= |Listed(MemberTexts(members))|
    ensures Printable(Dict(some)) && IsMemberPiece(last)
    ensures Ended(MemberTexts(some)) + MemberText(last) == Listed(MemberTexts(members))[..k]
    decreases members, 0
  {
    hide Printable, Render, IsMemberPiece, IsKey;
    some := [];
    NothingPrintable();
    if members == [] {
      last := NoMember;
      NoMemberIsPiece();
    } else {
      var first := members[0].key + ":" + Render(members[0].value);
      ListedFirst(MemberTexts(members));
      if k <= |first| {
        last := MemberStops(members[0], k);
        assert Listed(MemberTexts(members))[..k] == first[..k];
      } else {
        var n := k - |first| - 1;
        var others;
        others, last := MembersStop(members[1..], n);
        some := [members[0]] + others;
        MoreMembers(members[0], others);
        ListedStops(MemberTexts(members), k, Ended(MemberTexts(others)), MemberText(last));
      }
    }
  }

  lemma NoMemberIsPiece()
    ensures IsMemberPiece(NoMember)
  {
  }

  lemma MoreMembers(m: Member, others: seq<Member>)
    requires IsKey(m.key) && Printable(m.value) && Printable(Dict(others))
    ensures Printable(Dict([m] + others))
    ensures Ended(MemberTexts([m] + others)) == m.key + ":" + Render(m.value) + "," + Ended(MemberTexts(others))
  {
    assert ([m] + others)[1..] == others;
  }

  lemma MemberStops(m: Member, k: nat) returns (last: MemberPiece)
    requires IsKey(m.key) && Printable(m.value) && k <= |m.key + ":" + Render(m.value)|
    ensures IsMemberPiece(last) && MemberText(last) == (m.key + ":" + Render(m.value))[..k]
    decreases m, 3
  {
    hide Printable, IsPiece;
    if k == 0 {
      last := NoMember;
    } else if k <= |m.key| {
      last := OpenKey(m.key[..k]);
    } else {
      var value := ValueStops(m.value, k - |m.key| - 1);
      last := OpenValue(m.key, value);
      assert (m.key + ":" + Render(m.value))[..k] == m.key + ":" + Render(m.value)[..k - |m.key| - 1];
    }
  }

  /**
   Wherever the printed arguments of a call stop before their end, the JSON that is shown is that of
   the piece that was read.
   */
  lemma EveryStopShows(members: seq<Member>, k: nat) returns (c: Piece)
    requires Printable(Dict(members)) && 0 < k < |Render(Dict(members))|
    ensures IsPiece(c) && PieceText(c) == Render(Dict(members))[..k]
    ensures Shows(Block(DictRule, Render(Dict(members))[..k]), PieceJson(c))
  {
    hide Block, ToJson, IsMemberPiece, Shows;
    var some, last := MembersStop(members, k - 1);
    c := OpenDict(some, last);
    StopsInside("{", Listed(MemberTexts(members)), "}", k);
    DictShows(some, last);
  }
}
