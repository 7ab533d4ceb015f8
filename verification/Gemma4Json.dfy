/**
 `gemma4_to_json` of common/chat-peg-parser.cpp over the syntax trees of the value
 grammar in common/chat.cpp: complete trees translate to the JSON of the value they
 spell, truncated trees to a prefix of it.
 */
module Gemma4Json {
  import opened JsonText
  import opened MessageDiff
  import opened Text

  datatype Rule =
    | NumberRule | BoolRule | NullRule
    | StringContent | StringRule
    | ArrayRule
    | DictKeyName | DictKey | DictKv | DictRule
    | ValueRule | OtherRule

  datatype Node = Node(rule: Rule, text: string, children: seq<Node>, partial: bool)

  // ---------------------------------------------------------------- the translator

  function CommaJoined(children: seq<Node>): string
    decreases children, 0
  {
    if children == [] then "" else
    ToJson(children[0]) + (if |children| > 1 then "," else "") + CommaJoined(children[1..])
  }

  function Concatenated(children: seq<Node>): string
    decreases children, 0
  {
    if children == [] then "" else ToJson(children[0]) + Concatenated(children[1..])
  }

  function ToJson(n: Node): string
    decreases n, 1
  {
    if n.text == "" then "" else
    match n.rule
    case NumberRule => n.text
    case BoolRule => n.text
    case NullRule => n.text
    case StringContent => Escaped(n.text)
    case StringRule =>
      if n.children == [] then "\"" else "\"" + ToJson(n.children[0]) + (if n.partial then "" else "\"")
    case ArrayRule => "[" + CommaJoined(n.children) + (if n.partial then "" else "]")
    case DictKeyName => n.text
    case DictKey =>
      "\"" + (if n.children == [] then "" else Escaped(ToJson(n.children[0]))) + (if n.partial then "" else "\":")
    case DictKv => Concatenated(n.children)
    case DictRule => "{" + CommaJoined(n.children) + (if n.partial then "" else "}")
    case ValueRule => if n.children == [] then "" else ToJson(n.children[0])
    case OtherRule => ""
  }

  lemma {:induction false} CommaJoinedSnoc(children: seq<Node>, n: Node)
    ensures CommaJoined(children + [n]) == CommaJoined(children) + (if children == [] then "" else ",") + ToJson(n)
  {
    hide ToJson;
    if children == [] {
      assert [n][1..] == [];
      assert CommaJoined([n]) == ToJson(n) + "" + CommaJoined([]);
    } else {
      assert (children + [n])[1..] == children[1..] + [n];
      CommaJoinedSnoc(children[1..], n);
    }
  }

  lemma {:induction false} ConcatenatedSnoc(children: seq<Node>, n: Node)
    ensures Concatenated(children + [n]) == Concatenated(children) + ToJson(n)
  {
    hide ToJson;
    if children == [] {
      assert [n][1..] == [];
    } else {
      assert (children + [n])[1..] == children[1..] + [n];
      ConcatenatedSnoc(children[1..], n);
    }
  }

  method JoinChildren(open: string, children: seq<Node>, close: string) returns (result: string)
    ensures result == open + CommaJoined(children) + close
    decreases children, 0
  {
    hide ToJson;
    result := open;
    var addComma := false;
    for i := 0 to |children|
      invariant result == open + CommaJoined(children[..i])
      invariant addComma <==> i > 0
    {
      assert children[..i + 1] == children[..i] + [children[i]];
      CommaJoinedSnoc(children[..i], children[i]);
      if addComma {
        result := result + ",";
      }
      addComma := true;
      var child := Gemma4ToJson(children[i]);
      result := result + child;
    }
    assert children[..|children|] == children;
    result := result + close;
  }

  method AppendChildren(children: seq<Node>) returns (result: string)
    ensures result == Concatenated(children)
    decreases children, 0
  {
    hide ToJson;
    result := "";
    for i := 0 to |children|
      invariant result == Concatenated(children[..i])
    {
      assert children[..i + 1] == children[..i] + [children[i]];
      ConcatenatedSnoc(children[..i], children[i]);
      var child := Gemma4ToJson(children[i]);
      result := result + child;
    }
    assert children[..|children|] == children;
  }

  method Gemma4ToJson(n: Node) returns (result: string)
    ensures result == ToJson(n)
    decreases n, 1
  {
    hide Escaped, CommaJoined, Concatenated;
    if n.text == "" {
      return "";
    }
    match n.rule
    case NumberRule => result := n.text;
    case BoolRule => result := n.text;
    case NullRule => result := n.text;
    case StringContent => result := EscapeJsonStringInner(n.text);
    case StringRule =>
      result := "\"";
      if n.children != [] {
        var child := Gemma4ToJson(n.children[0]);
        result := result + child;
        if !n.partial {
          result := result + "\"";
        }
      }
    case ArrayRule => result := JoinChildren("[", n.children, if n.partial then "" else "]");
    case DictKeyName => result := n.text;
    case DictKey =>
      result := "\"";
      if n.children != [] {
        var child := Gemma4ToJson(n.children[0]);
        result := result + EscapeJsonStringInner(child);
      }
      if !n.partial {
        result := result + "\":";
      }
    case DictKv => result := AppendChildren(n.children);
    case DictRule => result := JoinChildren("{", n.children, if n.partial then "" else "}");
    case ValueRule =>
      result := "";
      if n.children != [] {
        result := Gemma4ToJson(n.children[0]);
      }
    case OtherRule => result := "";
  }

  // ---------------------------------------------------------------- values and their JSON

  /** Whitespace behind a number or a word belongs to it: the leaf rules take it. */
  datatype Value =
    | Str(content: string)
    | Num(digits: string, trail: string)
    | Bool(b: bool, trail: string)
    | Null(trail: string)
    | Arr(items: seq<Value>)
    | Dict(members: seq<Member>)

  datatype Member = Member(key: string, value: Value)

  function Word(b: bool): string { if b then "true" else "false" }

  function Print(v: Value): string
    decreases v, 1
  {
    match v
    case Str(s) => Dump(s)
    case Num(t, w) => t + w
    case Bool(b, w) => Word(b) + w
    case Null(w) => "null" + w
    case Arr(items) => "[" + PrintItems(items) + "]"
    case Dict(members) => "{" + PrintMembers(members) + "}"
  }

  function PrintItems(items: seq<Value>): string
    decreases items, 0
  {
    if items == [] then "" else Print(items[0]) + (if |items| > 1 then "," else "") + PrintItems(items[1..])
  }

  function PrintMembers(members: seq<Member>): string
    decreases members, 0
  {
    if members == [] then "" else
    Dump(members[0].key) + ":" + Print(members[0].value) + (if |members| > 1 then "," else "")
      + PrintMembers(members[1..])
  }

  const Digits := "0123456789"
  const NumberChars := "0123456789.eE+-"

  predicate IsDigits(s: string) { s != "" && forall i :: 0 <= i < |s| ==> s[i] in Digits }

  predicate IsSign(s: string) { s == "" || s == "-" }

  predicate IsWhole(s: string) { s == "0" || (IsDigits(s) && s[0] != '0') }

  predicate IsFraction(s: string) { s == "" || (s[0] == '.' && IsDigits(s[1..])) }

  predicate IsExponent(s: string) {
    || s == ""
    || (s[0] in "eE" && (IsDigits(s[1..]) || (|s| > 1 && s[1] in "+-" && IsDigits(s[2..]))))
  }

  /** The number syntax of section 6 of RFC 8259. */
  ghost predicate IsNumber(t: string) {
    exists sign, whole, fraction, exponent :: IsSign(sign) && IsWhole(whole) && IsFraction(fraction)
      && IsExponent(exponent) && t == sign + whole + fraction + exponent
  }

  /** Numbers are JSON numbers, keys are not empty. */
  ghost predicate IsValue(v: Value)
    decreases v, 1
  {
    match v
    case Num(t, w) => IsNumber(t) && AllSpace(w)
    case Bool(b, w) => AllSpace(w)
    case Null(w) => AllSpace(w)
    case Arr(items) => forall i :: 0 <= i < |items| ==> IsValue(items[i])
    case Dict(members) => forall i :: 0 <= i < |members| ==> members[i].key != "" && IsValue(members[i].value)
    case _ => true
  }

  // ---------------------------------------------------------------- complete trees

  predicate Whole(n: Node, rule: Rule, arity: nat) {
    n.rule == rule && !n.partial && n.text != "" && |n.children| == arity
  }

  /** `n` is the complete tree of a value; only a string's content may be empty text. */
  predicate Spells(n: Node, v: Value)
    decreases v, 2
  {
    Whole(n, ValueRule, 1) && SpellsInner(n.children[0], v)
  }

  predicate SpellsInner(n: Node, v: Value)
    decreases v, 1
  {
    match v
    case Str(s) => Whole(n, StringRule, 1) && n.children[0] == Node(StringContent, s, [], false)
    case Num(t, w) => n == Node(NumberRule, t + w, [], false)
    case Bool(b, w) => n == Node(BoolRule, Word(b) + w, [], false)
    case Null(w) => n == Node(NullRule, "null" + w, [], false)
    case Arr(items) => Whole(n, ArrayRule, |items|) && SpellsItems(n.children, items)
    case Dict(members) => Whole(n, DictRule, |members|) && SpellsMembers(n.children, members)
  }

  predicate SpellsItems(ns: seq<Node>, items: seq<Value>)
    decreases items, 0
  {
    |ns| == |items| && (items == [] || (Spells(ns[0], items[0]) && SpellsItems(ns[1..], items[1..])))
  }

  predicate SpellsKey(n: Node, key: string) {
    Whole(n, DictKey, 1) && n.children[0] == Node(DictKeyName, key, [], false)
  }

  predicate SpellsMembers(ns: seq<Node>, members: seq<Member>)
    decreases members, 0
  {
    |ns| == |members|
    && (members == []
        || (&& Whole(ns[0], DictKv, 2)
            && SpellsKey(ns[0].children[0], members[0].key)
            && Spells(ns[0].children[1], members[0].value)
            && SpellsMembers(ns[1..], members[1..])))
  }

  lemma KeyToJson(n: Node, key: string)
    requires SpellsKey(n, key)
    ensures ToJson(n) == Dump(key) + ":"
  {
    assert ToJson(n.children[0]) == key;
    assert ToJson(n) == "\"" + Escaped(key) + "\":";
    assert "\":" == "\"" + ":";
  }

  /** A complete tree translates to the JSON print of its value. */
  lemma {:induction false} CompleteTree(n: Node, v: Value)
    requires Spells(n, v) && IsValue(v)
    ensures ToJson(n) == Print(v)
    decreases v, 1
  {
    hide Escaped, IsNumber, CommaJoined, PrintItems, PrintMembers, AllSpace;
    var inner := n.children[0];
    assert ToJson(n) == ToJson(inner);
    match v
    case Arr(items) => CompleteItems(inner.children, items);
    case Dict(members) => CompleteMembers(inner.children, members);
    case Str(s) => CompleteString(inner, s);
    case _ => CompleteLeaf(inner, v);
  }

  lemma CompleteLeaf(n: Node, v: Value)
    requires SpellsInner(n, v) && (v.Num? || v.Bool? || v.Null?)
    ensures ToJson(n) == Print(v)
  {
  }

  lemma CompleteString(n: Node, s: string)
    requires Whole(n, StringRule, 1) && n.children[0] == Node(StringContent, s, [], false)
    ensures ToJson(n) == Dump(s)
  {
    assert ToJson(n.children[0]) == Escaped(s);
  }

  lemma PairConcatenated(ns: seq<Node>)
    requires |ns| == 2
    ensures Concatenated(ns) == ToJson(ns[0]) + ToJson(ns[1])
  {
    hide ToJson;
    assert ns[1..][1..] == [];
    assert Concatenated(ns[1..]) == ToJson(ns[1]) + Concatenated([]);
  }

  lemma {:induction false} CompleteItems(ns: seq<Node>, items: seq<Value>)
    requires SpellsItems(ns, items) && forall i :: 0 <= i < |items| ==> IsValue(items[i])
    ensures CommaJoined(ns) == PrintItems(items)
    decreases items, 0
  {
    if items != [] {
      CompleteTree(ns[0], items[0]);
      CompleteItems(ns[1..], items[1..]);
    }
  }

  lemma {:induction false} CompleteMembers(ns: seq<Node>, members: seq<Member>)
    requires SpellsMembers(ns, members)
    requires forall i :: 0 <= i < |members| ==> members[i].key != "" && IsValue(members[i].value)
    ensures CommaJoined(ns) == PrintMembers(members)
    decreases members, 0
  {
    hide Dump;
    if members != [] {
      var kv := ns[0];
      CompleteTree(kv.children[1], members[0].value);
      KeyToJson(kv.children[0], members[0].key);
      PairConcatenated(kv.children);
      assert ToJson(kv) == Concatenated(kv.children);
      CompleteMembers(ns[1..], members[1..]);
    }
  }

  // ---------------------------------------------------------------- brace depth

  lemma ScanMore(depth: int, a: string, b: string)
    requires ScanFrom(Outside(depth), a) == Outside(depth)
    ensures ScanFrom(Outside(depth), a + b) == ScanFrom(Outside(depth), b)
  {
    ScanAppend(Outside(depth), a, b);
  }

  lemma ScanSymbol(depth: int, c: char, rest: string)
    requires c != '"' && c != '\\'
    ensures var d := if c == '{' then depth + 1 else if c == '}' then depth - 1 else depth;
            ScanFrom(Outside(depth), [c] + rest) == ScanFrom(Outside(d), rest)
  {
    assert ([c] + rest)[1..] == rest;
  }

  lemma {:induction false} ScanPlainOutside(depth: int, s: string)
    requires forall i :: 0 <= i < |s| ==> s[i] !in "\"\\{}"
    ensures ScanFrom(Outside(depth), s) == Outside(depth)
    decreases |s|
  {
    if s != [] {
      assert s[0] !in "\"\\{}";
      assert "\"\\{}"[0] == '"' && "\"\\{}"[1] == '\\' && "\"\\{}"[2] == '{' && "\"\\{}"[3] == '}';
      ScanPlainOutside(depth, s[1..]);
    }
  }

  lemma DigitIs(c: char)
    ensures c in Digits <==> '0' <= c <= '9'
    ensures c in "123456789" <==> '1' <= c <= '9'
    ensures c in Digits || c == '.' || c == 'e' || c == 'E' ==> c in NumberChars
  {
  }

  lemma PartsAreNumeric(t: string, sign: string, whole: string, fraction: string, exponent: string)
    requires IsSign(sign) && IsWhole(whole) && IsFraction(fraction) && IsExponent(exponent)
    requires t == sign + whole + fraction + exponent
    ensures t != "" && (t[0] == '-' || t[0] in Digits) && forall i :: 0 <= i < |t| ==> t[i] in NumberChars
  {
  }

  /** What a number is made of, and how it starts. */
  lemma NumberIsNumeric(t: string)
    requires IsNumber(t)
    ensures t != "" && (t[0] == '-' || t[0] in Digits) && forall i :: 0 <= i < |t| ==> t[i] in NumberChars
  {
    hide NumberChars, Digits, IsSign, IsWhole, IsFraction, IsExponent;
    var sign, whole, fraction, exponent :| IsSign(sign) && IsWhole(whole) && IsFraction(fraction)
      && IsExponent(exponent) && t == sign + whole + fraction + exponent;
    PartsAreNumeric(t, sign, whole, fraction, exponent);
  }

  lemma PlainChar(c: char)
    ensures c in NumberChars || IsSpace(c) ==> c !in "\"\\{}"
  {
  }

  lemma SpaceAt(w: string, i: int)
    ensures AllSpace(w) && 0 <= i < |w| ==> IsSpace(w[i])
  {
  }

  lemma PlainNumber(t: string, w: string)
    requires IsNumber(t) && AllSpace(w)
    ensures forall i :: 0 <= i < |t + w| ==> (t + w)[i] !in "\"\\{}"
  {
    hide IsNumber, NumberChars, AllSpace;
    NumberIsNumeric(t);
    forall i | 0 <= i < |t + w| ensures (t + w)[i] !in "\"\\{}" {
      PlainChar((t + w)[i]);
      SpaceAt(w, i - |t|);
      if i < |t| {
        assert (t + w)[i] == t[i] && t[i] in NumberChars;
      } else {
        assert (t + w)[i] == w[i - |t|] && IsSpace(w[i - |t|]);
      }
    }
  }

  lemma {:induction false} PrintIsBalanced(depth: int, v: Value)
    requires IsValue(v)
    ensures ScanFrom(Outside(depth), Print(v)) == Outside(depth)
    decreases v, 1
  {
    hide ScanFrom, Dump;
    match v
    case Str(s) => ScanDump(depth, s);
    case Num(t, w) =>
      PlainNumber(t, w);
      ScanPlainOutside(depth, Print(v));
    case Bool(b, w) => ScanPlainOutside(depth, Print(v));
    case Null(w) => ScanPlainOutside(depth, Print(v));
    case Arr(items) =>
      ItemsAreBalanced(depth, items);
      Bracketed(depth, depth, '[', PrintItems(items), ']');
    case Dict(members) =>
      MembersAreBalanced(depth + 1, members);
      Bracketed(depth, depth + 1, '{', PrintMembers(members), '}');
  }

  lemma Bracketed(depth: int, inner: int, open: char, s: string, close: char)
    requires (open == '[' && close == ']' && inner == depth) || (open == '{' && close == '}' && inner == depth + 1)
    requires ScanFrom(Outside(inner), s) == Outside(inner)
    ensures ScanFrom(Outside(depth), [open] + s + [close]) == Outside(depth)
  {
    assert [open] + s + [close] == [open] + (s + [close]);
    ScanSymbol(depth, open, s + [close]);
    ScanMore(inner, s, [close]);
    ScanSymbol(inner, close, "");
    assert [close] + "" == [close];
  }

  lemma {:induction false} ItemsAreBalanced(depth: int, items: seq<Value>)
    requires forall i :: 0 <= i < |items| ==> IsValue(items[i])
    ensures ScanFrom(Outside(depth), PrintItems(items)) == Outside(depth)
    decreases items, 0
  {
    if items != [] {
      var comma := if |items| > 1 then "," else "";
      PrintIsBalanced(depth, items[0]);
      ScanMore(depth, Print(items[0]), comma);
      ScanSymbol(depth, ',', "");
      assert [','] + "" == ",";
      ScanMore(depth, Print(items[0]) + comma, PrintItems(items[1..]));
      ItemsAreBalanced(depth, items[1..]);
    }
  }

  lemma {:induction false} MembersAreBalanced(depth: int, members: seq<Member>)
    requires forall i :: 0 <= i < |members| ==> members[i].key != "" && IsValue(members[i].value)
    ensures ScanFrom(Outside(depth), PrintMembers(members)) == Outside(depth)
    decreases members, 0
  {
    if members != [] {
      var comma := if |members| > 1 then "," else "";
      var key, value := Dump(members[0].key), Print(members[0].value);
      ScanDump(depth, members[0].key);
      ScanSymbol(depth, ':', "");
      ScanSymbol(depth, ',', "");
      assert [':'] + "" == ":" && [','] + "" == ",";
      ScanMore(depth, key, ":");
      PrintIsBalanced(depth, members[0].value);
      ScanMore(depth, key + ":", value);
      ScanMore(depth, key + ":" + value, comma);
      ScanMore(depth, key + ":" + value + comma, PrintMembers(members[1..]));
      MembersAreBalanced(depth, members[1..]);
    }
  }

  /** The arguments of a complete call have every brace closed. */
  lemma CompleteTreeDepth(n: Node, v: Value)
    requires Spells(n, v) && IsValue(v)
    ensures BraceDepth(ToJson(n)) == 0
  {
    CompleteTree(n, v);
    PrintIsBalanced(0, v);
  }

  // ---------------------------------------------------------------- truncated trees

  predicate IsLeaf(rule: Rule) {
    rule == NumberRule || rule == BoolRule || rule == NullRule || rule == StringContent || rule == DictKeyName
  }

  /** `p` is what a parse of a shorter input reports where the parse of the whole input reports `n`. */
  predicate Cut(p: Node, n: Node)
    decreases p, 1
  {
    p == n
    || (p.rule == n.rule
        && (|| p.text == ""
            || (IsLeaf(p.rule) && p.text <= n.text)
            || (!IsLeaf(p.rule) && p.partial && CutChildren(p.children, n.children))))
  }

  /** Complete children except for the last one, which may itself be cut. */
  predicate CutChildren(ps: seq<Node>, ns: seq<Node>)
    decreases ps, 0
  {
    ps == []
    || (ns != []
        && if |ps| == 1 then Cut(ps[0], ns[0]) else ps[0] == ns[0] && CutChildren(ps[1..], ns[1..]))
  }

  /** Every node of a complete tree is final and, string contents apart, not empty. */
  predicate IsComplete(n: Node)
    decreases n
  {
    !n.partial && (n.text == "" ==> n.rule == StringContent)
    && forall i :: 0 <= i < |n.children| ==> IsComplete(n.children[i])
  }

  /** A string that is cut off shows its opening quote and what was read of its content. */
  lemma PartialString(n: Node)
    requires n.rule == StringRule && n.partial && n.text != ""
    ensures n.children == [] ==> ToJson(n) == "\""
    ensures |n.children| == 1 && n.children[0].rule == StringContent ==>
              ToJson(n) == "\"" + Escaped(n.children[0].text)
  {
    if |n.children| == 1 && n.children[0].rule == StringContent {
      ContentJson(n.children[0]);
      assert "\"" + ToJson(n.children[0]) + "" == "\"" + ToJson(n.children[0]);
    }
  }

  lemma ContentJson(n: Node)
    requires n.rule == StringContent
    ensures ToJson(n) == Escaped(n.text)
  {
  }

  /** A key that is cut off shows its opening quote and what was read of its name. */
  lemma PartialKey(n: Node)
    requires n.rule == DictKey && n.partial && n.text != ""
    requires |n.children| == 1 && n.children[0].rule == DictKeyName
    ensures ToJson(n) == "\"" + Escaped(n.children[0].text)
  {
    var name := n.children[0];
    assert ToJson(name) == name.text;
    assert "\"" + Escaped(ToJson(name)) + "" == "\"" + Escaped(ToJson(name));
  }

  /** Texts that are each followed by a comma. */
  function Ended(texts: seq<string>): string {
    if texts == [] then "" else texts[0] + "," + Ended(texts[1..])
  }

  predicate AllToJson(ns: seq<Node>, jsons: seq<string>) {
    |ns| == |jsons| && forall i :: 0 <= i < |ns| ==> ToJson(ns[i]) == jsons[i]
  }

  lemma {:induction false} JoinedBefore(ns: seq<Node>, jsons: seq<string>, last: Node)
    requires AllToJson(ns, jsons)
    ensures CommaJoined(ns + [last]) == Ended(jsons) + ToJson(last)
    decreases |ns|
  {
    hide ToJson;
    if ns == [] {
      assert [last][1..] == [] && ns + [last] == [last];
      assert CommaJoined([last]) == ToJson(last) + "" + CommaJoined([]);
    } else {
      assert (ns + [last])[1..] == ns[1..] + [last];
      JoinedBefore(ns[1..], jsons[1..], last);
    }
  }

  /** An array or a dictionary that is cut off shows its complete children and what there is of the last one. */
  lemma PartialBlock(n: Node, ns: seq<Node>, jsons: seq<string>, last: Node)
    requires (n.rule == ArrayRule || n.rule == DictRule) && n.partial && n.text != ""
    requires n.children == ns + [last] && AllToJson(ns, jsons)
    ensures ToJson(n) == (if n.rule == DictRule then "{" else "[") + (Ended(jsons) + ToJson(last))
  {
    hide CommaJoined, Ended;
    JoinedBefore(ns, jsons, last);
    var joined := CommaJoined(n.children);
    assert "{" + joined + "" == "{" + joined && "[" + joined + "" == "[" + joined;
  }

  lemma PrefixUnder(h: string, a: string, b: string, t: string)
    requires a <= b
    ensures h + a <= h + b + t
  {
    assert h + b + t == h + a + (b[|a|..] + t);
  }

  lemma {:induction false} CutTree(p: Node, n: Node)
    requires Cut(p, n) && IsComplete(n)
    ensures ToJson(p) <= ToJson(n)
    decreases p, 1
  {
    if p == n || p.text == "" {
    } else if IsLeaf(p.rule) {
      EscapedPrefix(p.text, n.text);
    } else {
      CutChildrenJoined(p.children, n.children);
      CutChildrenConcatenated(p.children, n.children);
      if p.children != [] { CutFirst(p.children, n.children); }
      CutInner(p, n);
    }
  }

  lemma CutInner(p: Node, n: Node)
    requires p.rule == n.rule && p.partial && !n.partial && !IsLeaf(p.rule) && p.text != "" && n.text != ""
    requires CommaJoined(p.children) <= CommaJoined(n.children)
    requires Concatenated(p.children) <= Concatenated(n.children)
    requires p.children != [] ==> n.children != [] && ToJson(p.children[0]) <= ToJson(n.children[0])
    ensures ToJson(p) <= ToJson(n)
  {
    hide Escaped, CommaJoined, Concatenated;
    if p.rule == ArrayRule {
      PrefixUnder("[", CommaJoined(p.children), CommaJoined(n.children), "]");
    } else if p.rule == DictRule {
      PrefixUnder("{", CommaJoined(p.children), CommaJoined(n.children), "}");
    } else if p.children != [] && (p.rule == StringRule || p.rule == DictKey) {
      var a, b := ToJson(p.children[0]), ToJson(n.children[0]);
      EscapedPrefix(a, b);
      PrefixUnder("\"", a, b, "\"");
      PrefixUnder("\"", Escaped(a), Escaped(b), "\":");
    }
  }

  lemma {:induction false} CutFirst(ps: seq<Node>, ns: seq<Node>)
    requires CutChildren(ps, ns) && ps != [] && forall i :: 0 <= i < |ns| ==> IsComplete(ns[i])
    ensures ns != [] && ToJson(ps[0]) <= ToJson(ns[0])
    decreases ps, 0
  {
    if |ps| == 1 {
      CutTree(ps[0], ns[0]);
    }
  }

  lemma {:induction false} CutChildrenJoined(ps: seq<Node>, ns: seq<Node>)
    requires CutChildren(ps, ns) && forall i :: 0 <= i < |ns| ==> IsComplete(ns[i])
    ensures CommaJoined(ps) <= CommaJoined(ns)
    decreases ps, 0
  {
    if |ps| == 1 {
      CutTree(ps[0], ns[0]);
      PrefixUnder("", ToJson(ps[0]), ToJson(ns[0]), (if |ns| > 1 then "," else "") + CommaJoined(ns[1..]));
      assert CommaJoined(ps) == ToJson(ps[0]) + "" + CommaJoined([]);
    } else if |ps| > 1 {
      CutChildrenJoined(ps[1..], ns[1..]);
      CutNotLonger(ps[1..], ns[1..]);
      PrefixUnder(ToJson(ps[0]) + ",", CommaJoined(ps[1..]), CommaJoined(ns[1..]), "");
    }
  }

  lemma {:induction false} CutNotLonger(ps: seq<Node>, ns: seq<Node>)
    requires CutChildren(ps, ns)
    ensures |ps| <= |ns|
    decreases |ps|
  {
    if |ps| > 1 {
      CutNotLonger(ps[1..], ns[1..]);
    }
  }

  lemma {:induction false} CutChildrenConcatenated(ps: seq<Node>, ns: seq<Node>)
    requires CutChildren(ps, ns) && forall i :: 0 <= i < |ns| ==> IsComplete(ns[i])
    ensures Concatenated(ps) <= Concatenated(ns)
    decreases ps, 0
  {
    if |ps| == 1 {
      CutTree(ps[0], ns[0]);
      PrefixUnder("", ToJson(ps[0]), ToJson(ns[0]), Concatenated(ns[1..]));
    } else if |ps| > 1 {
      CutChildrenConcatenated(ps[1..], ns[1..]);
      PrefixUnder(ToJson(ps[0]), Concatenated(ps[1..]), Concatenated(ns[1..]), "");
    }
  }

  lemma {:induction false} SpelledIsComplete(n: Node, v: Value)
    requires Spells(n, v) && IsValue(v)
    ensures IsComplete(n)
    decreases v, 1
  {
    match v
    case Arr(items) => SpelledItems(n.children[0].children, items);
    case Dict(members) => SpelledMembers(n.children[0].children, members);
    case _ =>
  }

  lemma {:induction false} SpelledItems(ns: seq<Node>, items: seq<Value>)
    requires SpellsItems(ns, items) && forall i :: 0 <= i < |items| ==> IsValue(items[i])
    ensures forall i :: 0 <= i < |ns| ==> IsComplete(ns[i])
    decreases items, 0
  {
    if items != [] {
      SpelledIsComplete(ns[0], items[0]);
      SpelledItems(ns[1..], items[1..]);
      assert forall i :: 1 <= i < |ns| ==> ns[i] == ns[1..][i - 1];
    }
  }

  lemma {:induction false} SpelledMembers(ns: seq<Node>, members: seq<Member>)
    requires SpellsMembers(ns, members)
    requires forall i :: 0 <= i < |members| ==> members[i].key != "" && IsValue(members[i].value)
    ensures forall i :: 0 <= i < |ns| ==> IsComplete(ns[i])
    decreases members, 0
  {
    if members != [] {
      var key := ns[0].children[0];
      assert IsComplete(key.children[0]) && IsComplete(key);
      SpelledIsComplete(ns[0].children[1], members[0].value);
      SpelledMembers(ns[1..], members[1..]);
      assert forall i :: 1 <= i < |ns| ==> ns[i] == ns[1..][i - 1];
    }
  }

  /** A truncated tree translates to a prefix of the complete translation. */
  lemma TruncatedTree(p: Node, n: Node, v: Value)
    requires Cut(p, n) && Spells(n, v) && IsValue(v)
    ensures ToJson(p) <= Print(v)
  {
    SpelledIsComplete(n, v);
    CutTree(p, n);
    CompleteTree(n, v);
  }

  /** So the differ never throws on the arguments of two parses of the same call. */
  lemma TruncationsNeverFork(p: Node, q: Node, n: Node, v: Value)
    requires Cut(p, n) && Cut(q, n) && Spells(n, v) && IsValue(v)
    ensures StringDiff(ToJson(p), ToJson(q)).Ok?
  {
    TruncatedTree(p, n, v);
    TruncatedTree(q, n, v);
    StringDiffExactly(ToJson(p), ToJson(q));
  }
}
