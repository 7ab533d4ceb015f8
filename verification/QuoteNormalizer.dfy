/**
 `normalize_quotes_to_json` of common/chat-peg-parser.cpp: Python-style
 single-quoted strings become JSON strings. The loop is proved equal to a
 transducer on pieces of one or two characters; the lemmas relate that transducer
 to a scanner of the raw input, to the JSON brace scanner and to JSON decoding.
 */
module QuoteNormalizer {
  import opened Text
  import opened JsonText

  // ---------------------------------------------------------------- the normaliser

  datatype Quotes = Bare | Single | Double

  /** One turn of the source's loop: what is appended, the quote state after it, characters read. */
  datatype Piece = Piece(text: string, next: Quotes, used: nat)

  function Turn(q: Quotes, s: string): (p: Piece)
    requires s != []
    ensures 1 <= p.used <= |s|
  {
    var c := s[0];
    if c == '\\' && |s| >= 2 then
      match q
      case Single =>
        if s[1] == '\'' then Piece("'", q, 2)
        else if s[1] == '"' then Piece("\\\"", q, 2)
        else Piece([c, s[1]], q, 2)
      case Double => Piece([c, s[1]], q, 2)
      case Bare => Piece([c], q, 1)
    else if c == '"' then
      match q
      case Single => Piece("\\\"", q, 1)
      case Double => Piece([c], Bare, 1)
      case Bare => Piece([c], Double, 1)
    else if c == '\'' then
      match q
      case Double => Piece([c], q, 1)
      case Single => Piece("\"", Bare, 1)
      case Bare => Piece("\"", Single, 1)
    else Piece([c], q, 1)
  }

  function NormalizedFrom(q: Quotes, s: string): string
    decreases |s|
  {
    if s == [] then [] else
    var p := Turn(q, s);
    p.text + NormalizedFrom(p.next, s[p.used..])
  }

  /** The quote state in which the loop ends. */
  function EndQuotes(q: Quotes, s: string): Quotes
    decreases |s|
  {
    if s == [] then q else
    var p := Turn(q, s);
    EndQuotes(p.next, s[p.used..])
  }

  function Normalized(s: string): string { NormalizedFrom(Bare, s) }

  function QuotesOf(single: bool, double: bool): Quotes {
    if single then Single else if double then Double else Bare
  }

  method NormalizeQuotesToJson(input: string) returns (result: string, inSingle: bool, inDouble: bool)
    ensures result == Normalized(input)
    ensures !(inSingle && inDouble) && QuotesOf(inSingle, inDouble) == EndQuotes(Bare, input)
  {
    result, inSingle, inDouble := "", false, false;
    var i := 0;
    while i < |input|
      invariant 0 <= i <= |input|
      invariant !(inSingle && inDouble)
      invariant result + NormalizedFrom(QuotesOf(inSingle, inDouble), input[i..]) == Normalized(input)
      invariant EndQuotes(QuotesOf(inSingle, inDouble), input[i..]) == EndQuotes(Bare, input)
    {
      ghost var before := result;
      ghost var p := Turn(QuotesOf(inSingle, inDouble), input[i..]);
      TurnAdvances(QuotesOf(inSingle, inDouble), input, i, result);
      var c := input[i];
      if c == '\\' && i + 1 < |input| {
        var next := input[i + 1];
        if inSingle {
          if next == '\'' {
            result := result + "'";
          } else if next == '"' {
            result := result + "\\\"";
          } else {
            result := result + [c, next];
          }
          i := i + 2;
        } else if inDouble {
          result := result + [c, next];
          i := i + 2;
        } else {
          result := result + [c];
          i := i + 1;
        }
      } else {
        if c == '"' {
          if inSingle {
            result := result + "\\\"";
          } else {
            inDouble := !inDouble;
            result := result + [c];
          }
        } else if c == '\'' {
          if inDouble {
            result := result + [c];
          } else {
            inSingle := !inSingle;
            result := result + "\"";
          }
        } else {
          result := result + [c];
        }
        i := i + 1;
      }
      assert result == before + p.text;
      assert QuotesOf(inSingle, inDouble) == p.next;
    }
  }

  lemma TurnAdvances(q: Quotes, input: string, i: nat, before: string)
    requires i < |input|
    ensures var p := Turn(q, input[i..]);
            && before + NormalizedFrom(q, input[i..]) == (before + p.text) + NormalizedFrom(p.next, input[i + p.used..])
            && EndQuotes(q, input[i..]) == EndQuotes(p.next, input[i + p.used..])
  {
    hide Turn;
    var p := Turn(q, input[i..]);
    assert input[i..][p.used..] == input[i + p.used..];
  }

  // ---------------------------------------------------------------- a scanner of the raw input

  /** Brace and quote state of the input itself, read one character at a time. */
  datatype Raw = Raw(quotes: Quotes, escaped: bool, depth: int)

  function RawChar(st: Raw, c: char): Raw {
    if st.escaped then st.(escaped := false)
    else match c
      case '\\' => if st.quotes == Bare then st else st.(escaped := true)
      case '"' => if st.quotes == Single then st else st.(quotes := if st.quotes == Bare then Double else Bare)
      case '\'' => if st.quotes == Double then st else st.(quotes := if st.quotes == Bare then Single else Bare)
      case '{' => if st.quotes == Bare then st.(depth := st.depth + 1) else st
      case '}' => if st.quotes == Bare then st.(depth := st.depth - 1) else st
      case _ => st
  }

  function RawFrom(st: Raw, s: string): Raw
    decreases |s|
  {
    if s == [] then st else RawFrom(RawChar(st, s[0]), s[1..])
  }

  lemma {:induction false} RawAppend(st: Raw, a: string, b: string)
    ensures RawFrom(st, a + b) == RawFrom(RawFrom(st, a), b)
    decreases |a|
  {
    if a == [] {
      assert a + b == b;
    } else {
      assert (a + b)[1..] == a[1..] + b;
      RawAppend(RawChar(st, a[0]), a[1..], b);
    }
  }

  function ScanOf(st: Raw): Scan { Scan(st.depth, st.quotes != Bare, st.escaped) }

  /** One turn keeps the raw scan of what it read and the JSON scan of what it wrote in step. */
  lemma TurnSimulates(q: Quotes, depth: int, s: string)
    requires s != []
    ensures var p, st := Turn(q, s), Raw(q, false, depth);
            var after := RawFrom(st, s[..p.used]);
            && after.quotes == p.next
            && (after.escaped ==> s == "\\" && q != Bare)
            && ScanFrom(ScanOf(st), p.text) == ScanOf(after)
            && !ApostropheOutside(ScanOf(st), p.text)
  {
    var p, st := Turn(q, s), Raw(q, false, depth);
    var a := s[..p.used];
    assert RawFrom(st, a) == RawFrom(RawChar(st, a[0]), a[1..]);
    if p.used == 2 {
      assert RawFrom(RawChar(st, a[0]), a[1..]) == RawFrom(RawChar(RawChar(st, a[0]), a[1]), a[1..][1..]);
    }
    var st' := ScanOf(st);
    assert ScanFrom(st', p.text) == ScanFrom(ScanChar(st', p.text[0]), p.text[1..]);
    if |p.text| == 2 {
      assert ScanFrom(ScanChar(st', p.text[0]), p.text[1..])
          == ScanFrom(ScanChar(ScanChar(st', p.text[0]), p.text[1]), p.text[1..][1..]);
    }
    ApostropheShort(st', p.text);
  }

  /** The JSON scan of the output is the raw scan of the input, on every input. */
  lemma {:induction false} Simulation(q: Quotes, depth: int, s: string)
    ensures ScanFrom(ScanOf(Raw(q, false, depth)), NormalizedFrom(q, s)) == ScanOf(RawFrom(Raw(q, false, depth), s))
    ensures EndQuotes(q, s) == RawFrom(Raw(q, false, depth), s).quotes
    decreases |s|
  {
    if s != [] {
      var p := Turn(q, s);
      var st := Raw(q, false, depth);
      var rest := s[p.used..];
      TurnSimulates(q, depth, s);
      assert s == s[..p.used] + rest;
      RawAppend(st, s[..p.used], rest);
      ScanAppend(ScanOf(st), p.text, NormalizedFrom(p.next, rest));
      Simulation(p.next, RawFrom(st, s[..p.used]).depth, rest);
    }
  }

  /**
   The brace scan of the output is inside a string exactly when the normaliser ends
   in a quoted state, and its depth counts the braces outside either quote style.
   */
  lemma NormalizedScan(s: string)
    ensures ScanFrom(Outside(0), Normalized(s)).inString <==> EndQuotes(Bare, s) != Bare
    ensures BraceDepth(Normalized(s)) == RawFrom(Raw(Bare, false, 0), s).depth
  {
    Simulation(Bare, 0, s);
  }

  // ---------------------------------------------------------------- identity and idempotence

  /** Whether `s` holds an apostrophe that the JSON scanner sees outside double quotes. */
  predicate ApostropheOutside(st: Scan, s: string)
    decreases |s|
  {
    s != [] && ((s[0] == '\'' && !st.inString) || ApostropheOutside(ScanChar(st, s[0]), s[1..]))
  }

  lemma ApostropheShort(st: Scan, s: string)
    requires 1 <= |s| <= 2
    ensures ApostropheOutside(st, s) <==>
            || (s[0] == '\'' && !st.inString)
            || (|s| == 2 && s[1] == '\'' && !ScanChar(st, s[0]).inString)
  {
    if |s| == 2 {
      assert s[1..] == [s[1]];
      assert ApostropheOutside(ScanChar(st, s[0]), [s[1]]) <==> s[1] == '\'' && !ScanChar(st, s[0]).inString;
    }
  }

  lemma {:induction false} ApostropheAppend(st: Scan, a: string, b: string)
    ensures ApostropheOutside(st, a + b) <==> ApostropheOutside(st, a) || ApostropheOutside(ScanFrom(st, a), b)
    decreases |a|
  {
    if a == [] {
      assert a + b == b;
    } else {
      assert (a + b)[1..] == a[1..] + b;
      ApostropheAppend(ScanChar(st, a[0]), a[1..], b);
    }
  }

  lemma {:induction false} OutputHasNoApostropheOutside(q: Quotes, depth: int, s: string)
    ensures !ApostropheOutside(Scan(depth, q != Bare, false), NormalizedFrom(q, s))
    decreases |s|
  {
    if s != [] {
      var p := Turn(q, s);
      var st := Raw(q, false, depth);
      TurnSimulates(q, depth, s);
      ApostropheAppend(ScanOf(st), p.text, NormalizedFrom(p.next, s[p.used..]));
      OutputHasNoApostropheOutside(p.next, RawFrom(st, s[..p.used]).depth, s[p.used..]);
    }
  }

  lemma {:induction false} UnchangedExactly(q: Quotes, depth: int, s: string)
    requires q != Single
    ensures NormalizedFrom(q, s) == s <==> !ApostropheOutside(Scan(depth, q != Bare, false), s)
    decreases |s|
  {
    if s != [] {
      var p, st := Turn(q, s), Scan(depth, q != Bare, false);
      var rest := s[p.used..];
      assert s == s[..p.used] + rest;
      TurnSimulates(q, depth, s);
      ApostropheAppend(st, s[..p.used], rest);
      if q == Bare && s[0] == '\'' {
        assert NormalizedFrom(q, s)[0] == '"';
      } else {
        assert p.text == s[..p.used] && p.next != Single;
        var after := ScanFrom(st, p.text);
        UnchangedExactly(p.next, after.depth, rest);
        assert NormalizedFrom(q, s)[p.used..] == NormalizedFrom(p.next, rest);
        if rest != [] {
          assert after == Scan(after.depth, p.next != Bare, false);
        }
      }
    }
  }

  /** Normalising leaves a text alone exactly when it has no apostrophe outside double quotes. */
  lemma IdentityExactly(s: string)
    ensures Normalized(s) == s <==> !ApostropheOutside(Outside(0), s)
  {
    UnchangedExactly(Bare, 0, s);
  }

  lemma Idempotent(s: string)
    ensures Normalized(Normalized(s)) == Normalized(s)
  {
    OutputHasNoApostropheOutside(Bare, 0, s);
    IdentityExactly(Normalized(s));
  }

  // ---------------------------------------------------------------- growing inputs

  /**
   While a value streams in, normalising its longer form extends the normalised shorter
   form, except in one case: the shorter form stops between the backslash and the
   apostrophe of `\'` inside a single-quoted string.
   */
  predicate CutsEscapedApostrophe(st: Raw, p: string, s: string)
    requires p <= s
  {
    var end := RawFrom(st, p);
    end.quotes == Single && end.escaped && |p| < |s| && s[|p|] == '\''
  }

  lemma {:induction false} GrowsExactly(q: Quotes, depth: int, p: string, s: string)
    requires p <= s
    ensures NormalizedFrom(q, p) <= NormalizedFrom(q, s) <==> !CutsEscapedApostrophe(Raw(q, false, depth), p, s)
    decreases |p|
  {
    if p == [] {
    } else if p == "\\" && q != Bare {
      LoneBackslash(q, depth, s);
    } else {
      var t, st := Turn(q, p), Raw(q, false, depth);
      SameTurn(q, p, s);
      GrowsAfterTurn(q, p, s, t);
      TurnSimulates(q, depth, p);
      CutAfterTurn(st, p, s, t.used);
      GrowsExactly(t.next, RawFrom(st, p[..t.used]).depth, p[t.used..], s[t.used..]);
    }
  }

  lemma CutAfterTurn(st: Raw, p: string, s: string, k: nat)
    requires p <= s && k <= |p|
    ensures CutsEscapedApostrophe(st, p, s) <==> CutsEscapedApostrophe(RawFrom(st, p[..k]), p[k..], s[k..])
  {
    assert p == p[..k] + p[k..];
    RawAppend(st, p[..k], p[k..]);
  }

  lemma LoneBackslash(q: Quotes, depth: int, s: string)
    requires "\\" <= s && q != Bare
    ensures NormalizedFrom(q, "\\") <= NormalizedFrom(q, s)
       <==> !CutsEscapedApostrophe(Raw(q, false, depth), "\\", s)
  {
    var p, st := "\\", Raw(q, false, depth);
    assert RawFrom(st, p) == RawFrom(RawChar(st, p[0]), p[1..]);
    assert Turn(q, p) == Piece(p, q, 1);
    assert NormalizedFrom(q, p[1..]) == [];
    assert NormalizedFrom(q, p) == p;
    assert NormalizedFrom(q, s)[0] == Turn(q, s).text[0];
  }

  lemma SameTurn(q: Quotes, p: string, s: string)
    requires p != [] && p <= s && !(p == "\\" && q != Bare)
    ensures Turn(q, s) == Turn(q, p)
  {
    assert p[0] == s[0];
    if |p| >= 2 {
      assert p[1] == s[1];
    } else if p[0] == '\\' {
      assert p == "\\";
    }
  }

  lemma GrowsAfterTurn(q: Quotes, p: string, s: string, t: Piece)
    requires p != [] && p <= s && t == Turn(q, p) == Turn(q, s)
    ensures p[t.used..] <= s[t.used..]
    ensures NormalizedFrom(q, p) <= NormalizedFrom(q, s)
       <==> NormalizedFrom(t.next, p[t.used..]) <= NormalizedFrom(t.next, s[t.used..])
  {
    PrefixAfter(t.text, NormalizedFrom(t.next, p[t.used..]), NormalizedFrom(t.next, s[t.used..]));
  }

  // ---------------------------------------------------------------- Python string literals

  /** How a character is written inside a single-quoted Python literal. */
  function PythonChar(c: char): string {
    if c == '\'' then "\\'"
    else if c == '\\' then "\\\\"
    else if c == 9 as char then "\\t"
    else if c == 10 as char then "\\n"
    else if c == 13 as char then "\\r"
    else if NeedsHexEscape(c) then "\\x" + [HexDigit(c as nat / 16), HexDigit(c as nat % 16)]
    else [c]
  }

  /** Control characters for which Python has only the `\xNN` form, which JSON lacks. */
  predicate NeedsHexEscape(c: char) {
    c == 0x7F as char || (c < ' ' && c != 9 as char && c != 10 as char && c != 13 as char)
  }

  function PythonBody(t: string): string {
    if t == [] then [] else PythonChar(t[0]) + PythonBody(t[1..])
  }

  function PythonLiteral(t: string): string { "'" + PythonBody(t) + "'" }

  /** What the normaliser makes of `PythonChar(c)`. */
  function JsonChar(c: char): string {
    if c == '\'' then "'" else if c == '"' then "\\\"" else PythonChar(c)
  }

  function JsonBody(t: string): string {
    if t == [] then [] else JsonChar(t[0]) + JsonBody(t[1..])
  }

  lemma AfterTurn(q: Quotes, head: string, rest: string)
    requires head != [] && Turn(q, head + rest).used == |head|
    ensures NormalizedFrom(q, head + rest) == Turn(q, head + rest).text
        + NormalizedFrom(Turn(q, head + rest).next, rest)
  {
    hide Turn;
    assert (head + rest)[|head|..] == rest;
  }

  lemma NormalizePythonChar(c: char, rest: string)
    ensures NormalizedFrom(Single, PythonChar(c) + rest) == JsonChar(c) + NormalizedFrom(Single, rest)
  {
    hide NormalizedFrom;
    var e := PythonChar(c);
    if NeedsHexEscape(c) {
      NormalizeHexEscape(HexDigit(c as nat / 16), HexDigit(c as nat % 16), rest);
    } else {
      hide HexDigit;
      AfterTurn(Single, e, rest);
    }
  }

  lemma NormalizeHexEscape(a: char, b: char, rest: string)
    requires IsPlain(a) && IsPlain(b)
    ensures NormalizedFrom(Single, "\\x" + [a, b] + rest) == "\\x" + [a, b] + NormalizedFrom(Single, rest)
  {
    hide NormalizedFrom;
    assert "\\x" + [a, b] + rest == "\\x" + ([a] + ([b] + rest));
    AfterTurn(Single, "\\x", [a] + ([b] + rest));
    PassOne(a, [b] + rest);
    PassOne(b, rest);
  }

  predicate IsPlain(c: char) { c != '\\' && c != '"' && c != '\'' }

  lemma PassOne(c: char, rest: string)
    requires IsPlain(c)
    ensures NormalizedFrom(Single, [c] + rest) == [c] + NormalizedFrom(Single, rest)
  {
    hide NormalizedFrom;
    AfterTurn(Single, [c], rest);
  }

  lemma {:induction false} NormalizePythonBody(t: string)
    ensures NormalizedFrom(Single, PythonBody(t) + "'") == JsonBody(t) + "\""
    decreases |t|
  {
    if t == [] {
      assert "'"[1..] == [];
      assert NormalizedFrom(Single, "'") == "\"";
    } else {
      assert PythonBody(t) + "'" == PythonChar(t[0]) + (PythonBody(t[1..]) + "'");
      NormalizePythonChar(t[0], PythonBody(t[1..]) + "'");
      NormalizePythonBody(t[1..]);
    }
  }

  lemma {:induction false} DecodeJsonBody(t: string)
    ensures if exists c :: c in t && NeedsHexEscape(c) then DecodeBody(JsonBody(t)).None?
            else DecodeBody(JsonBody(t)) == Some(t)
    decreases |t|
  {
    if t != [] {
      var e := JsonChar(t[0]);
      var s := JsonBody(t);
      assert t == [t[0]] + t[1..];
      if NeedsHexEscape(t[0]) {
        assert s[0] == '\\' && s[1] == 'x';
      } else {
        assert DecodeChar(s) == Some((t[0], |e|));
        assert s[|e|..] == JsonBody(t[1..]);
        DecodeJsonBody(t[1..]);
      }
    }
  }

  /**
   The Python literal of a text becomes a JSON string that decodes to that text, exactly
   when the text has no control character that Python can only write as `\xNN`.
   */
  lemma PythonLiteralDecodes(t: string)
    ensures DecodeString(Normalized(PythonLiteral(t))) == Some(t) <==> !(exists c :: c in t && NeedsHexEscape(c))
  {
    var s := PythonLiteral(t);
    assert s[1..] == PythonBody(t) + "'";
    assert Turn(Bare, s) == Piece("\"", Single, 1);
    NormalizePythonBody(t);
    assert Normalized(s) == "\"" + (JsonBody(t) + "\"");
    DecodeQuoted(JsonBody(t));
    DecodeJsonBody(t);
  }

  lemma DecodeQuoted(body: string)
    ensures DecodeString("\"" + (body + "\"")) == DecodeBody(body)
  {
    var s := "\"" + (body + "\"");
    assert s[1..|s| - 1] == body;
  }
}
