/**
 JSON at the character level: the brace scanner and the string escaper of
 common/chat-peg-parser.cpp, and a decoder for JSON string literals
 (section 7 of RFC 8259) against which the escaper is proved.
 */
module JsonText {
  import opened Text

  // ---------------------------------------------------------------- brace scanner

  datatype Scan = Scan(depth: int, inString: bool, escaped: bool)

  function ScanChar(st: Scan, c: char): Scan {
    if st.escaped then st.(escaped := false)
    else if c == '\\' && st.inString then st.(escaped := true)
    else if c == '"' then st.(inString := !st.inString)
    else if st.inString then st
    else if c == '{' then st.(depth := st.depth + 1)
    else if c == '}' then st.(depth := st.depth - 1)
    else st
  }

  function ScanFrom(st: Scan, s: string): Scan
    decreases |s|
  {
    if s == [] then st else ScanFrom(ScanChar(st, s[0]), s[1..])
  }

  function Outside(depth: int): Scan { Scan(depth, false, false) }

  function Inside(depth: int): Scan { Scan(depth, true, false) }

  /** Number of unclosed braces outside strings. */
  function BraceDepth(s: string): int { ScanFrom(Outside(0), s).depth }

  method JsonBraceDepth(s: string) returns (depth: int)
    ensures depth == BraceDepth(s)
  {
    depth := 0;
    var inString, escaped := false, false;
    for i := 0 to |s|
      invariant ScanFrom(Scan(depth, inString, escaped), s[i..]) == ScanFrom(Outside(0), s)
    {
      var c := s[i];
      assert s[i..][1..] == s[i + 1..];
      if escaped {
        escaped := false;
        continue;
      }
      if c == '\\' && inString {
        escaped := true;
        continue;
      }
      if c == '"' {
        inString := !inString;
        continue;
      }
      if !inString {
        if c == '{' {
          depth := depth + 1;
        } else if c == '}' {
          depth := depth - 1;
        }
      }
    }
  }

  /** Without strings the depth is the number of opening braces minus that of closing ones; nothing else counts. */
  lemma PlainDepth(s: string)
    requires '"' !in s
    ensures BraceDepth(s) == multiset(s)['{'] as int - multiset(s)['}'] as int
  {
    PlainScan(0, s);
  }

  lemma {:induction false} PlainScan(depth: int, s: string)
    requires '"' !in s
    ensures ScanFrom(Outside(depth), s) == Outside(depth + multiset(s)['{'] as int - multiset(s)['}'] as int)
    decreases |s|
  {
    if s != "" {
      assert s == [s[0]] + s[1..];
      PlainScan(ScanChar(Outside(depth), s[0]).depth, s[1..]);
    }
  }

  lemma {:induction false} ScanAppend(st: Scan, a: string, b: string)
    ensures ScanFrom(st, a + b) == ScanFrom(ScanFrom(st, a), b)
    decreases |a|
  {
    if a == [] {
      assert a + b == b;
    } else {
      assert (a + b)[1..] == a[1..] + b;
      ScanAppend(ScanChar(st, a[0]), a[1..], b);
    }
  }

  /** The scan never looks at the depth: shifting the start depth shifts the result. */
  lemma {:induction false} ScanShift(st: Scan, k: int, s: string)
    ensures ScanFrom(st.(depth := st.depth + k), s)
         == ScanFrom(st, s).(depth := ScanFrom(st, s).depth + k)
    decreases |s|
  {
    if s != [] {
      assert ScanChar(st.(depth := st.depth + k), s[0])
          == ScanChar(st, s[0]).(depth := ScanChar(st, s[0]).depth + k);
      ScanShift(ScanChar(st, s[0]), k, s[1..]);
    }
  }

  function Repeat(c: char, n: nat): (r: string)
    ensures |r| == n && forall i :: 0 <= i < n ==> r[i] == c
  {
    if n == 0 then [] else Repeat(c, n - 1) + [c]
  }

  // ---------------------------------------------------------------- escaping

  function HexDigit(n: nat): (c: char)
    requires n < 16
  {
    if n < 10 then '0' + n as char else 'a' + (n - 10) as char
  }

  function EscapedChar(c: char): string {
    if c == 8 as char then "\\b"
    else if c == 9 as char then "\\t"
    else if c == 10 as char then "\\n"
    else if c == 12 as char then "\\f"
    else if c == 13 as char then "\\r"
    else if c == '"' then "\\\""
    else if c == '\\' then "\\\\"
    else if c <= 0x1F as char then "\\u00" + [HexDigit(c as nat / 16), HexDigit(c as nat % 16)]
    else [c]
  }

  function Escaped(s: string): string {
    if s == [] then [] else EscapedChar(s[0]) + Escaped(s[1..])
  }

  /** What `ordered_json(s).dump()` prints for a string. */
  function Dump(s: string): string { "\"" + Escaped(s) + "\"" }

  /** The dump without its quotes, taken off the way the source does. */
  function EscapeJsonStringInner(s: string): (r: string)
    ensures r == Escaped(s)
  {
    var escaped := Dump(s);
    if |escaped| >= 2 && escaped[0] == '"' && escaped[|escaped| - 1] == '"'
    then escaped[1..|escaped| - 1]
    else escaped
  }

  lemma {:induction false} EscapedAppend(a: string, b: string)
    ensures Escaped(a + b) == Escaped(a) + Escaped(b)
    decreases |a|
  {
    if a == [] {
      assert a + b == b;
    } else {
      assert (a + b)[1..] == a[1..] + b;
      EscapedAppend(a[1..], b);
    }
  }

  lemma EscapedPrefix(p: string, s: string)
    requires p <= s
    ensures Escaped(p) <= Escaped(s)
  {
    assert s == p + s[|p|..];
    EscapedAppend(p, s[|p|..]);
  }

  lemma {:induction false} ScanEscaped(depth: int, s: string)
    ensures ScanFrom(Inside(depth), Escaped(s)) == Inside(depth)
    decreases |s|
  {
    if s != [] {
      var e := EscapedChar(s[0]);
      ScanEscapedChar(depth, s[0]);
      ScanAppend(Inside(depth), e, Escaped(s[1..]));
      ScanEscaped(depth, s[1..]);
    }
  }

  lemma ScanEscapedChar(depth: int, c: char)
    ensures ScanFrom(Inside(depth), EscapedChar(c)) == Inside(depth)
  {
    var e := EscapedChar(c);
    if |e| == 1 {
      assert e == [c];
      assert ScanFrom(Inside(depth), e) == ScanFrom(ScanChar(Inside(depth), c), []);
    } else {
      var st := ScanChar(Inside(depth), e[0]);
      assert ScanFrom(Inside(depth), e) == ScanFrom(st, e[1..]);
      assert ScanFrom(st, e[1..]) == ScanFrom(ScanChar(st, e[1]), e[1..][1..]);
      if |e| == 6 {
        assert e[1..][1..] == "00" + e[4..];
        ScanPlain(depth, e[1..][1..]);
      }
    }
  }

  /** Text without quotes or backslashes leaves a scan inside a string where it is. */
  lemma {:induction false} ScanPlain(depth: int, s: string)
    requires forall c :: c in s ==> c != '"' && c != '\\'
    ensures ScanFrom(Inside(depth), s) == Inside(depth)
    decreases |s|
  {
    if s != [] {
      assert s[0] in s;
      forall c | c in s[1..] ensures c != '"' && c != '\\' { assert c in s; }
      ScanPlain(depth, s[1..]);
    }
  }

  /** A dumped string is transparent to the scanner, whatever the string contains. */
  lemma ScanDump(depth: int, s: string)
    ensures ScanFrom(Outside(depth), Dump(s)) == Outside(depth)
  {
    ScanEscaped(depth, s);
    ScanAppend(Inside(depth), Escaped(s), "\"");
    assert Dump(s)[1..] == Escaped(s) + "\"";
    assert ScanFrom(Inside(depth), "\"") == ScanFrom(Outside(depth), []);
  }

  // ---------------------------------------------------------------- decoding

  function HexValue(c: char): Option<nat> {
    if '0' <= c <= '9' then Some(c as nat - '0' as nat)
    else if 'a' <= c <= 'f' then Some(c as nat - 'a' as nat + 10)
    else if 'A' <= c <= 'F' then Some(c as nat - 'A' as nat + 10)
    else None
  }

  /** The value of four hexadecimal digits, unless it names half of a surrogate pair. */
  function HexChar(h: string): Option<char>
    requires |h| == 4
  {
    var a, b, c, d := HexValue(h[0]), HexValue(h[1]), HexValue(h[2]), HexValue(h[3]);
    if a.Some? && b.Some? && c.Some? && d.Some? then
      var code := ((a.value * 16 + b.value) * 16 + c.value) * 16 + d.value;
      if 0 <= code < 0xD800 || 0xE000 <= code < 0x10000 then Some(code as char) else None
    else None
  }

  function ShortEscape(c: char): Option<char> {
    match c
    case '"' => Some('"')
    case '\\' => Some('\\')
    case '/' => Some('/')
    case 'b' => Some(8 as char)
    case 'f' => Some(12 as char)
    case 'n' => Some(10 as char)
    case 'r' => Some(13 as char)
    case 't' => Some(9 as char)
    case _ => None
  }

  /** The first decoded character of a string body and how many characters spell it. */
  function DecodeChar(s: string): (r: Option<(char, nat)>)
    requires s != []
    ensures r.Some? ==> 1 <= r.value.1 <= |s|
  {
    if s[0] == '\\' then
      if |s| >= 6 && s[1] == 'u' then
        var h := HexChar(s[2..6]);
        if h.Some? then Some((h.value, 6)) else None
      else if |s| >= 2 && ShortEscape(s[1]).Some? then Some((ShortEscape(s[1]).value, 2))
      else None
    else if s[0] == '"' || s[0] <= 0x1F as char then None
    else Some((s[0], 1))
  }

  function DecodeBody(s: string): Option<string> {
    if s == [] then Some([]) else
    var first := DecodeChar(s);
    if first.None? then None else
    var rest := DecodeBody(s[first.value.1..]);
    if rest.None? then None else Some([first.value.0] + rest.value)
  }

  /** Decodes a whole JSON string literal, quotes included. */
  function DecodeString(s: string): Option<string> {
    if |s| >= 2 && s[0] == '"' && s[|s| - 1] == '"' then DecodeBody(s[1..|s| - 1]) else None
  }

  lemma DecodeEscapedChar(c: char, rest: string)
    ensures DecodeChar(EscapedChar(c) + rest) == Some((c, |EscapedChar(c)|))
  {
    var e := EscapedChar(c);
    var s := e + rest;
    if |e| == 6 {
      assert s[2..6] == e[2..6];
      assert c as nat == c as nat / 16 * 16 + c as nat % 16;
    }
  }

  lemma DecodeCons(e: string, rest: string, c: char, t: string)
    requires e != [] && DecodeChar(e + rest) == Some((c, |e|)) && DecodeBody(rest) == Some(t)
    ensures DecodeBody(e + rest) == Some([c] + t)
  {
    assert (e + rest)[|e|..] == rest;
  }

  lemma {:induction false} DecodeEscaped(s: string)
    ensures DecodeBody(Escaped(s)) == Some(s)
    decreases |s|
  {
    if s != [] {
      DecodeEscapedChar(s[0], Escaped(s[1..]));
      DecodeEscaped(s[1..]);
      DecodeCons(EscapedChar(s[0]), Escaped(s[1..]), s[0], s[1..]);
      assert s == [s[0]] + s[1..];
    }
  }

  /** Dumping and decoding are inverse on every string, control characters included. */
  lemma DumpRoundTrip(s: string)
    ensures DecodeString(Dump(s)) == Some(s)
  {
    assert Dump(s)[1..|Dump(s)| - 1] == Escaped(s);
    DecodeEscaped(s);
  }
}
