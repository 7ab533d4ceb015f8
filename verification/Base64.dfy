/**
 The codec of common/base64.hpp: Base64 with the standard alphabet (section 4 of
 RFC 4648) and the URL-safe one (section 5), a decoder that carries bits from
 character to character, alphabet detection, and decoding in place.
 Characters and octets are both `bv8`, as they share one array in place.
 */
module Base64 {
  import opened Text

  type Byte = bv8

  datatype Alphabet = Auto | Standard | UrlSafe

  datatype Behavior = Moderate | Loose

  datatype Base64Error = InvalidCharacter

  type Decoded = Result<seq<Byte>, Base64Error>

  const PAD: Byte := 61  // '='

  // ---------------------------------------------------------------- alphabets

  /** The character of a six-bit value; everything but the URL-safe alphabet encodes with the standard one. */
  function CharOf(a: Alphabet, v: Byte): Byte
    requires v < 64
  {
    if v < 26 then v + 65                                // A-Z
    else if v < 52 then v + 71                           // a-z
    else if v < 62 then v - 4                            // 0-9
    else if v == 62 then (if a == UrlSafe then 45 else 43)  // - or +
    else (if a == UrlSafe then 95 else 47)               // _ or /
  }

  /** The value of a character, and the alphabet that detection settles on. */
  function ValueOf(a: Alphabet, c: Byte): (r: Option<(Byte, Alphabet)>)
    ensures r.Some? ==> r.value.0 < 64
    ensures c == PAD ==> r == None
  {
    if 65 <= c <= 90 then Some((c - 65, a))
    else if 97 <= c <= 122 then Some((c - 71, a))
    else if 48 <= c <= 57 then Some((c + 4, a))
    else match a
      case Standard => if c == 43 then Some((62, a)) else if c == 47 then Some((63, a)) else None
      case UrlSafe => if c == 45 then Some((62, a)) else if c == 95 then Some((63, a)) else None
      case Auto =>
        if c == 43 then Some((62, Standard)) else if c == 47 then Some((63, Standard))
        else if c == 45 then Some((62, UrlSafe)) else if c == 95 then Some((63, UrlSafe)) else None
  }

  /** A decoder for alphabet `d` reads what an encoder for `e` writes. */
  predicate Reads(d: Alphabet, e: Alphabet) {
    d == Auto || d == (if e == UrlSafe then UrlSafe else Standard)
  }

  lemma ValueOfChar(d: Alphabet, e: Alphabet, v: Byte)
    requires v < 64 && Reads(d, e)
    ensures var r := ValueOf(d, CharOf(e, v)); r.Some? && r.value.0 == v && Reads(r.value.1, e)
    ensures CharOf(e, v) != PAD
  {
  }

  const Upper := "ABCDEFGHIJKLMNOPQRSTUVWXYZ"
  const Lower := "abcdefghijklmnopqrstuvwxyz"
  const Numbers := "0123456789"

  /** The alphabet of section 4 of RFC 4648, or that of section 5. */
  function Letters(urlSafe: bool): (r: string)
    ensures |r| == 64
  {
    Upper + Lower + Numbers + if urlSafe then "-_" else "+/"
  }

  lemma UpperAt(v: nat)
    requires v < 26
    ensures Upper[v] as int == v + 65
  {
    assert v in {0, 1, 2, 3, 4, 5, 6, 7, 8, 9, 10, 11, 12, 13, 14, 15, 16, 17, 18, 19, 20, 21, 22, 23, 24, 25};
  }

  lemma LowerAt(v: nat)
    requires v < 26
    ensures Lower[v] as int == v + 97
  {
    assert v in {0, 1, 2, 3, 4, 5, 6, 7, 8, 9, 10, 11, 12, 13, 14, 15, 16, 17, 18, 19, 20, 21, 22, 23, 24, 25};
  }

  lemma NumberAt(v: nat)
    requires v < 10
    ensures Numbers[v] as int == v + 48
  {
    assert v in {0, 1, 2, 3, 4, 5, 6, 7, 8, 9};
  }

  lemma LetterAt(urlSafe: bool, v: nat)
    requires v < 64
    ensures Letters(urlSafe)[v] as int
         == if v < 26 then v + 65 else if v < 52 then v + 71 else if v < 62 then v - 4
            else if v == 62 then (if urlSafe then 45 else 43) else if urlSafe then 95 else 47
  {
    var s := Letters(urlSafe);
    if v < 26 {
      UpperAt(v);
      assert s[v] == Upper[v];
    } else if v < 52 {
      LowerAt(v - 26);
      assert s[v] == Lower[v - 26];
    } else if v < 62 {
      NumberAt(v - 52);
      assert s[v] == Numbers[v - 52];
    }
  }

  /** Each value is encoded as the character at its position in the alphabet. */
  lemma CharIsLetter(a: Alphabet, v: Byte)
    requires v < 64
    ensures CharOf(a, v) as int == Letters(a == UrlSafe)[v as int] as int
  {
    hide Letters;
    LetterAt(a == UrlSafe, v as int);
  }

  ghost predicate IsLetter(c: Byte, urlSafe: bool) {
    exists v: nat :: v < 64 && Letters(urlSafe)[v] as int == c as int
  }

  /** A character has a value if and only if it is in the alphabet, and then that is its position there. */
  lemma LettersExactly(a: Alphabet, c: Byte)
    requires a != Auto
    ensures ValueOf(a, c).Some? <==> IsLetter(c, a == UrlSafe)
    ensures var r := ValueOf(a, c);
            r.Some? ==> Letters(a == UrlSafe)[r.value.0 as int] as int == c as int && r.value.1 == a
  {
    hide Letters, CharOf, ValueOf, IsLetter;
    if IsLetter(c, a == UrlSafe) { LetterHasValue(a, c); }
    ValueIsChar(a, c);
    if ValueOf(a, c).Some? {
      CharIsLetter(a, ValueOf(a, c).value.0);
      IsLetterAt(c, a == UrlSafe, ValueOf(a, c).value.0 as int);
    }
  }

  lemma IsLetterAt(c: Byte, urlSafe: bool, v: nat)
    requires v < 64 && Letters(urlSafe)[v] as int == c as int
    ensures IsLetter(c, urlSafe)
  {
  }

  lemma LetterHasValue(a: Alphabet, c: Byte)
    requires a != Auto && IsLetter(c, a == UrlSafe)
    ensures ValueOf(a, c).Some?
  {
    hide Letters, CharOf, ValueOf;
    var v: nat :| v < 64 && Letters(a == UrlSafe)[v] as int == c as int;
    var b := SmallByte(v);
    CharIsLetter(a, b);
    SameByte(CharOf(a, b), c);
    ValueOfChar(a, a, b);
  }

  lemma SmallByte(v: nat) returns (b: Byte)
    requires v < 64
    ensures b < 64 && b as int == v
  {
    b := v as Byte;
  }

  lemma SameByte(x: Byte, y: Byte)
    requires x as int == y as int
    ensures x == y
  {
  }

  lemma ValueIsChar(a: Alphabet, c: Byte)
    requires a != Auto
    ensures var r := ValueOf(a, c); r.Some? ==> CharOf(a, r.value.0) == c && r.value.1 == a
  {
  }

  // ---------------------------------------------------------------- sizes

  function MaxDecodeSize(size: nat): nat { (size / 4 + (if size % 4 != 0 then 1 else 0)) * 3 }

  function RequiredEncodeSize(size: nat): nat { (size / 3 + (if size % 3 != 0 then 1 else 0)) * 4 }

  // ---------------------------------------------------------------- encoding

  /** The sextets of up to three octets. */
  function Sextet0(i0: Byte): (v: Byte) ensures v < 64 { (i0 >> 2) & 0x3F }

  function Sextet1(i0: Byte, i1: Byte): (v: Byte) ensures v < 64 { ((i0 & 0x3) << 4) | ((i1 >> 4) & 0x0F) }

  function Sextet2(i1: Byte, i2: Byte): (v: Byte) ensures v < 64 { ((i1 & 0xF) << 2) | ((i2 >> 6) & 0x03) }

  function Sextet3(i2: Byte): (v: Byte) ensures v < 64 { i2 & 0x3F }

  /** The encoding without its padding. */
  function Bare(x: seq<Byte>, a: Alphabet): seq<Byte> {
    if |x| == 0 then []
    else if |x| == 1 then [CharOf(a, Sextet0(x[0])), CharOf(a, Sextet1(x[0], 0))]
    else if |x| == 2 then
      [CharOf(a, Sextet0(x[0])), CharOf(a, Sextet1(x[0], x[1])), CharOf(a, Sextet2(x[1], 0))]
    else
      [CharOf(a, Sextet0(x[0])), CharOf(a, Sextet1(x[0], x[1])),
       CharOf(a, Sextet2(x[1], x[2])), CharOf(a, Sextet3(x[2]))] + Bare(x[3..], a)
  }

  function Padding(n: nat): seq<Byte> {
    if n % 3 == 1 then [PAD, PAD] else if n % 3 == 2 then [PAD] else []
  }

  function Encoded(x: seq<Byte>, a: Alphabet): seq<Byte> { Bare(x, a) + Padding(|x|) }

  lemma EncodedTail(x: seq<Byte>, i: nat, a: Alphabet)
    requires i < |x|
    ensures var r := Encoded(x[i..], a);
            && (i + 1 == |x| ==>
                  r == [CharOf(a, Sextet0(x[i])), CharOf(a, Sextet1(x[i], 0)), PAD, PAD])
            && (i + 2 == |x| ==>
                  r == [CharOf(a, Sextet0(x[i])), CharOf(a, Sextet1(x[i], x[i + 1])),
                    CharOf(a, Sextet2(x[i + 1], 0)), PAD])
            && (i + 3 <= |x| ==>
                  r == [CharOf(a, Sextet0(x[i])), CharOf(a, Sextet1(x[i], x[i + 1])),
                        CharOf(a, Sextet2(x[i + 1], x[i + 2])), CharOf(a, Sextet3(x[i + 2]))] + Encoded(x[i + 3..], a))
  {
    hide CharOf, Sextet0, Sextet1, Sextet2, Sextet3;
    var y := x[i..];
    if i + 3 <= |x| {
      assert y[3..] == x[i + 3..];
      assert |y| % 3 == (|y| - 3) % 3;
    }
  }

  method Encode(x: seq<Byte>, a: Alphabet) returns (out: seq<Byte>)
    ensures out == Encoded(x, a)
  {
    hide Encoded, CharOf, Sextet0, Sextet1, Sextet2, Sextet3;
    out := [];
    var i := 0;
    assert x[0..] == x;
    while i != |x|
      invariant 0 <= i <= |x|
      invariant out + Encoded(x[i..], a) == Encoded(x, a)
    {
      EncodedTail(x, i, a);
      var i0 := x[i];
      i := i + 1;
      var group := [CharOf(a, Sextet0(i0))];
      if i == |x| {
        group := group + [CharOf(a, Sextet1(i0, 0)), PAD, PAD];
        return out + group;
      }
      var i1 := x[i];
      i := i + 1;
      group := group + [CharOf(a, Sextet1(i0, i1))];
      if i == |x| {
        group := group + [CharOf(a, Sextet2(i1, 0)), PAD];
        return out + group;
      }
      var i2 := x[i];
      i := i + 1;
      group := group + [CharOf(a, Sextet2(i1, i2)), CharOf(a, Sextet3(i2))];
      out := out + group;
    }
    EncodedNothing(a);
    assert x[i..] == [];
  }

  lemma EncodedNothing(a: Alphabet)
    ensures Encoded([], a) == []
  {
  }

  /** A group of three octets and its four sextets are the same 24 bits (section 4 of RFC 4648). */
  lemma GroupOf24Bits(i0: Byte, i1: Byte, i2: Byte)
    ensures (Sextet0(i0) as bv24 << 18) | (Sextet1(i0, i1) as bv24 << 12)
            | (Sextet2(i1, i2) as bv24 << 6) | (Sextet3(i2) as bv24)
         == (i0 as bv24 << 16) | (i1 as bv24 << 8) | (i2 as bv24)
  {
  }

  lemma {:induction false} EncodedSize(x: seq<Byte>, a: Alphabet)
    ensures |Encoded(x, a)| == RequiredEncodeSize(|x|)
    decreases |x|
  {
    hide CharOf, Sextet0, Sextet1, Sextet2, Sextet3;
    if |x| >= 3 {
      EncodedSize(x[3..], a);
      assert |x| / 3 == (|x| - 3) / 3 + 1 && |x| % 3 == (|x| - 3) % 3;
    }
  }

  // ---------------------------------------------------------------- decoding

  /** The octet that `bits` carried bits of `last` and the top of `part` make. */
  function Combine(last: Byte, part: Byte, bits: nat): Byte
    requires bits == 2 || bits == 4 || bits == 6
  {
    if bits == 6 then (last << 2) | (part >> 4)
    else if bits == 4 then (last << 4) | (part >> 2)
    else (last << 6) | part
  }

  predicate AllPadding(s: seq<Byte>) {
    forall i :: 0 <= i < |s| ==> s[i] == PAD
  }

  type Bits = b: nat | b == 0 || b == 2 || b == 4 || b == 6

  function DecodedFrom(s: seq<Byte>, a: Alphabet, behavior: Behavior, last: Byte, bits: Bits): Decoded
    decreases |s|
  {
    if s == [] then Ok([])
    else if s[0] == PAD then
      if behavior == Loose || AllPadding(s[1..]) then Ok([]) else Err(InvalidCharacter)
    else
      var v := ValueOf(a, s[0]);
      if v.None? then Err(InvalidCharacter) else
      var rest := DecodedFrom(s[1..], v.value.1, behavior, v.value.0, if bits >= 2 then bits - 2 else 6);
      if rest.Err? || bits < 2 then rest else Ok([Combine(last, v.value.0, bits)] + rest.value)
  }

  function DecodedText(s: seq<Byte>, a: Alphabet, behavior: Behavior): Decoded {
    DecodedFrom(s, a, behavior, 0, 0)
  }

  /** `Ok` results behind octets that were already written. */
  function After(done: seq<Byte>, rest: Decoded): Decoded {
    if rest.Err? then rest else Ok(done + rest.value)
  }

  lemma DecodedStep(s: seq<Byte>, i: nat, done: seq<Byte>, a: Alphabet, behavior: Behavior, last: Byte, bits: Bits)
    requires i < |s|
    ensures s[i] == PAD ==>
              After(done, DecodedFrom(s[i..], a, behavior, last, bits))
              == if behavior == Loose || AllPadding(s[i + 1..]) then Ok(done) else Err(InvalidCharacter)
    ensures s[i] != PAD && ValueOf(a, s[i]).None? ==>
              After(done, DecodedFrom(s[i..], a, behavior, last, bits)) == Err(InvalidCharacter)
    ensures s[i] != PAD && ValueOf(a, s[i]).Some? ==>
              var v := ValueOf(a, s[i]).value;
              After(done, DecodedFrom(s[i..], a, behavior, last, bits))
              == if bits >= 2
                 then After(done + [Combine(last, v.0, bits)], DecodedFrom(s[i + 1..], v.1, behavior, v.0, bits - 2))
                 else After(done, DecodedFrom(s[i + 1..], v.1, behavior, v.0, 6))
  {
    hide ValueOf, Combine;
    assert s[i..][1..] == s[i + 1..];
    if s[i] == PAD {
      assert done + [] == done;
    } else if ValueOf(a, s[i]).Some? && bits >= 2 {
      var v := ValueOf(a, s[i]).value;
      AfterAfter(done, [Combine(last, v.0, bits)], DecodedFrom(s[i + 1..], v.1, behavior, v.0, bits - 2));
    }
  }

  lemma AfterAfter(a: seq<Byte>, b: seq<Byte>, d: Decoded)
    ensures After(a, After(b, d)) == After(a + b, d)
  {
    if d.Ok? {
      assert a + (b + d.value) == (a + b) + d.value;
    }
  }

  method CheckPadding(s: seq<Byte>, from: nat) returns (ok: bool)
    requires from <= |s|
    ensures ok <==> AllPadding(s[from..])
  {
    ok := true;
    var i := from;
    while i != |s|
      invariant from <= i <= |s|
      invariant AllPadding(s[from..i])
    {
      if s[i] != PAD {
        assert s[from..][i - from] == s[i];
        return false;
      }
      assert s[from..i + 1] == s[from..i] + [s[i]];
      i := i + 1;
    }
    assert s[from..i] == s[from..];
  }

  method Decode(s: seq<Byte>, a: Alphabet, behavior: Behavior) returns (r: Decoded)
    ensures r == DecodedText(s, a, behavior)
  {
    hide ValueOf, Combine, DecodedFrom;
    var out: seq<Byte> := [];
    var alphabet, last: Byte, bits: Bits, i := a, 0, 0, 0;
    assert s[0..] == s;
    AfterNothing(DecodedText(s, a, behavior));
    while i != |s|
      invariant 0 <= i <= |s|
      invariant After(out, DecodedFrom(s[i..], alphabet, behavior, last, bits)) == DecodedText(s, a, behavior)
    {
      DecodedStep(s, i, out, alphabet, behavior, last, bits);
      var c := s[i];
      i := i + 1;
      if c == PAD {
        if behavior != Loose {
          var ok := CheckPadding(s, i);
          if !ok {
            return Err(InvalidCharacter);
          }
        }
        return Ok(out);
      }
      var v := ValueOf(alphabet, c);
      if v.None? {
        return Err(InvalidCharacter);
      }
      alphabet := v.value.1;
      if bits + 6 >= 8 {
        out := out + [Combine(last, v.value.0, bits)];
        bits := bits - 2;
      } else {
        bits := bits + 6;
      }
      last := v.value.0;
    }
    DecodedNothing(alphabet, behavior, last, bits);
    assert s[i..] == [];
    assert out + [] == out;
    return Ok(out);
  }

  lemma AfterNothing(d: Decoded)
    ensures After([], d) == d
  {
    if d.Ok? {
      assert [] + d.value == d.value;
    }
  }

  lemma DecodedNothing(a: Alphabet, behavior: Behavior, last: Byte, bits: Bits)
    ensures DecodedFrom([], a, behavior, last, bits) == Ok([])
  {
  }

  // ---------------------------------------------------------------- round trip

  lemma CombineSextets(i0: Byte, i1: Byte, i2: Byte)
    ensures Combine(Sextet0(i0), Sextet1(i0, i1), 6) == i0
    ensures Combine(Sextet1(i0, i1), Sextet2(i1, i2), 4) == i1
    ensures Combine(Sextet2(i1, i2), Sextet3(i2), 2) == i2
  {
  }

  /** One encoded character in front of a text. */
  lemma DecodeChar(d: Alphabet, e: Alphabet, v: Byte, rest: seq<Byte>, behavior: Behavior, last: Byte, bits: Bits)
    requires v < 64 && Reads(d, e)
    ensures ValueOf(d, CharOf(e, v)).Some?
    ensures var d' := ValueOf(d, CharOf(e, v)).value.1;
            && Reads(d', e)
            && DecodedFrom([CharOf(e, v)] + rest, d, behavior, last, bits)
               == if bits < 2 then DecodedFrom(rest, d', behavior, v, 6)
                  else After([Combine(last, v, bits)], DecodedFrom(rest, d', behavior, v, bits - 2))
  {
    ValueOfChar(d, e, v);
    hide CharOf, ValueOf, Combine;
    assert ([CharOf(e, v)] + rest)[1..] == rest;
  }

  /** The padding that may follow a bare encoding. */
  lemma DecodePadding(n: nat, a: Alphabet, behavior: Behavior, last: Byte, bits: Bits)
    ensures DecodedFrom(Padding(n), a, behavior, last, bits) == Ok([])
  {
    if Padding(n) != [] {
      assert Padding(n)[0] == PAD;
      assert AllPadding(Padding(n)[1..]);
    }
  }

  /** The first two characters of a group give one octet and four bits. */
  lemma DecodeFirstTwo(v0: Byte, v1: Byte, e: Alphabet, d: Alphabet, rest: seq<Byte>, behavior: Behavior, last: Byte)
    returns (d': Alphabet)
    requires v0 < 64 && v1 < 64 && Reads(d, e)
    ensures Reads(d', e)
    ensures DecodedFrom([CharOf(e, v0)] + ([CharOf(e, v1)] + rest), d, behavior, last, 0)
         == After([Combine(v0, v1, 6)], DecodedFrom(rest, d', behavior, v1, 4))
  {
    hide CharOf, ValueOf, Combine, DecodedFrom;
    DecodeChar(d, e, v0, [CharOf(e, v1)] + rest, behavior, last, 0);
    var d1 := ValueOf(d, CharOf(e, v0)).value.1;
    DecodeChar(d1, e, v1, rest, behavior, v0, 6);
    d' := ValueOf(d1, CharOf(e, v1)).value.1;
  }

  /** The last two characters of a group use up the four bits. */
  lemma DecodeLastTwo(v1: Byte, v2: Byte, v3: Byte, e: Alphabet, d: Alphabet, rest: seq<Byte>, behavior: Behavior)
    returns (d': Alphabet)
    requires v2 < 64 && v3 < 64 && Reads(d, e)
    ensures Reads(d', e)
    ensures DecodedFrom([CharOf(e, v2)] + ([CharOf(e, v3)] + rest), d, behavior, v1, 4)
         == After([Combine(v1, v2, 4)] + [Combine(v2, v3, 2)], DecodedFrom(rest, d', behavior, v3, 0))
  {
    hide CharOf, ValueOf, Combine, DecodedFrom;
    DecodeChar(d, e, v2, [CharOf(e, v3)] + rest, behavior, v1, 4);
    var d1 := ValueOf(d, CharOf(e, v2)).value.1;
    DecodeChar(d1, e, v3, rest, behavior, v2, 2);
    d' := ValueOf(d1, CharOf(e, v3)).value.1;
    AfterAfter([Combine(v1, v2, 4)], [Combine(v2, v3, 2)], DecodedFrom(rest, d', behavior, v3, 0));
  }

  lemma DecodeGroup(x: seq<Byte>, e: Alphabet, d: Alphabet, rest: seq<Byte>, behavior: Behavior, last: Byte)
    returns (d': Alphabet, last': Byte)
    requires |x| >= 3 && Reads(d, e)
    ensures Reads(d', e)
    ensures DecodedFrom(Bare(x[..3], e) + rest, d, behavior, last, 0)
         == After(x[..3], DecodedFrom(rest, d', behavior, last', 0))
  {
    CombineSextets(x[0], x[1], x[2]);
    BareThree(x, e);
    hide CharOf, ValueOf, Combine, Sextet0, Sextet1, Sextet2, Sextet3, DecodedFrom, Bare;
    var v0, v1, v2, v3 := Sextet0(x[0]), Sextet1(x[0], x[1]), Sextet2(x[1], x[2]), Sextet3(x[2]);
    var tail := [CharOf(e, v2)] + ([CharOf(e, v3)] + rest);
    var d2 := DecodeFirstTwo(v0, v1, e, d, tail, behavior, last);
    d' := DecodeLastTwo(v1, v2, v3, e, d2, rest, behavior);
    last' := v3;
    FourAndRest(CharOf(e, v0), CharOf(e, v1), CharOf(e, v2), CharOf(e, v3), rest);
    AfterAfter([x[0]], [x[1]] + [x[2]], DecodedFrom(rest, d', behavior, last', 0));
    assert [x[0]] + ([x[1]] + [x[2]]) == x[..3];
  }

  lemma FourAndRest(a: Byte, b: Byte, c: Byte, d: Byte, rest: seq<Byte>)
    ensures [a, b, c, d] + rest == [a] + ([b] + ([c] + ([d] + rest)))
  {
  }

  lemma BareThree(x: seq<Byte>, e: Alphabet)
    requires |x| >= 3
    ensures Bare(x[..3], e) == [CharOf(e, Sextet0(x[0])), CharOf(e, Sextet1(x[0], x[1])),
                                CharOf(e, Sextet2(x[1], x[2])), CharOf(e, Sextet3(x[2]))]
    ensures Bare(x, e) == Bare(x[..3], e) + Bare(x[3..], e)
  {
    hide CharOf, Sextet0, Sextet1, Sextet2, Sextet3;
    assert x[..3][3..] == [];
    assert Bare([], e) == [];
  }

  lemma DecodeOne(i0: Byte, e: Alphabet, d: Alphabet, n: nat, behavior: Behavior, last: Byte)
    requires Reads(d, e)
    ensures DecodedFrom(Bare([i0], e) + Padding(n), d, behavior, last, 0) == Ok([i0])
  {
    CombineSextets(i0, 0, 0);
    assert Bare([i0], e) == [CharOf(e, Sextet0(i0)), CharOf(e, Sextet1(i0, 0))];
    hide CharOf, ValueOf, Combine, Sextet0, Sextet1, DecodedFrom, Bare, Padding;
    var v0, v1 := Sextet0(i0), Sextet1(i0, 0);
    var d2 := DecodeFirstTwo(v0, v1, e, d, Padding(n), behavior, last);
    assert [CharOf(e, v0), CharOf(e, v1)] + Padding(n) == [CharOf(e, v0)] + ([CharOf(e, v1)] + Padding(n));
    DecodePadding(n, d2, behavior, v1, 4);
    assert [i0] + [] == [i0];
  }

  lemma DecodeTwo(i0: Byte, i1: Byte, e: Alphabet, d: Alphabet, n: nat, behavior: Behavior, last: Byte)
    requires Reads(d, e)
    ensures DecodedFrom(Bare([i0, i1], e) + Padding(n), d, behavior, last, 0) == Ok([i0, i1])
  {
    CombineSextets(i0, i1, 0);
    assert Bare([i0, i1], e) == [CharOf(e, Sextet0(i0)), CharOf(e, Sextet1(i0, i1)), CharOf(e, Sextet2(i1, 0))];
    hide CharOf, ValueOf, Combine, Sextet0, Sextet1, Sextet2, DecodedFrom, Bare, Padding;
    var v0, v1, v2 := Sextet0(i0), Sextet1(i0, i1), Sextet2(i1, 0);
    var tail := [CharOf(e, v2)] + Padding(n);
    var d2 := DecodeFirstTwo(v0, v1, e, d, tail, behavior, last);
    DecodeChar(d2, e, v2, Padding(n), behavior, v1, 4);
    var d3 := ValueOf(d2, CharOf(e, v2)).value.1;
    DecodePadding(n, d3, behavior, v2, 2);
    assert [CharOf(e, v0), CharOf(e, v1), CharOf(e, v2)] + Padding(n) == [CharOf(e, v0)] + ([CharOf(e, v1)] + tail);
    assert [i0] + ([i1] + []) == [i0, i1];
  }

  lemma {:induction false} DecodeBare(x: seq<Byte>, e: Alphabet, d: Alphabet, n: nat, behavior: Behavior, last: Byte)
    requires Reads(d, e)
    ensures DecodedFrom(Bare(x, e) + Padding(n), d, behavior, last, 0) == Ok(x)
    decreases |x|
  {
    if x == [] {
      DecodePadding(n, d, behavior, last, 0);
      assert Bare(x, e) + Padding(n) == Padding(n);
    } else if |x| == 1 {
      assert x == [x[0]];
      DecodeOne(x[0], e, d, n, behavior, last);
    } else if |x| == 2 {
      assert x == [x[0], x[1]];
      DecodeTwo(x[0], x[1], e, d, n, behavior, last);
    } else {
      hide DecodedFrom, Padding;
      BareThree(x, e);
      var d', last' := DecodeGroup(x, e, d, Bare(x[3..], e) + Padding(n), behavior, last);
      DecodeBare(x[3..], e, d', n, behavior, last');
      assert (Bare(x[..3], e) + Bare(x[3..], e)) + Padding(n) == Bare(x[..3], e) + (Bare(x[3..], e) + Padding(n));
      assert x[..3] + x[3..] == x;
    }
  }

  /** Decoding undoes encoding for either alphabet, given or detected, with the padding or without it. */
  lemma RoundTrip(x: seq<Byte>, e: Alphabet, d: Alphabet, behavior: Behavior)
    requires Reads(d, e)
    ensures DecodedText(Encoded(x, e), d, behavior) == Ok(x)
    ensures DecodedText(Bare(x, e), d, behavior) == Ok(x)
  {
    DecodeBare(x, e, d, |x|, behavior, 0);
    DecodeBare(x, e, d, 0, behavior, 0);
    assert Bare(x, e) + Padding(0) == Bare(x, e);
  }

  // ---------------------------------------------------------------- alphabet detection

  lemma {:induction false} DetectionFrom(s: seq<Byte>, behavior: Behavior, last: Byte, bits: Bits)
    ensures var auto, std, url := DecodedFrom(s, Auto, behavior, last, bits),
                                  DecodedFrom(s, Standard, behavior, last, bits),
                                  DecodedFrom(s, UrlSafe, behavior, last, bits);
            && (auto.Ok? <==> std.Ok? || url.Ok?)
            && (std.Ok? ==> auto == std)
            && (url.Ok? ==> auto == url)
    decreases |s|
  {
    if s != [] && s[0] != PAD {
      var v := ValueOf(Auto, s[0]);
      if v.Some? && v.value.1 == Auto {
        hide Combine;
        DetectionFrom(s[1..], behavior, v.value.0, if bits >= 2 then bits - 2 else 6);
      }
    }
  }

  /** Detection succeeds exactly when one of the two alphabets does, with the same octets. */
  lemma DetectionExactly(s: seq<Byte>, behavior: Behavior)
    ensures var auto, std, url := DecodedText(s, Auto, behavior), DecodedText(s, Standard, behavior),
        DecodedText(s, UrlSafe, behavior);
            && (auto.Ok? <==> std.Ok? || url.Ok?)
            && (std.Ok? ==> auto == std)
            && (url.Ok? ==> auto == url)
  {
    DetectionFrom(s, behavior, 0, 0);
  }

  // ---------------------------------------------------------------- sizes of decoded texts

  /** How many characters come before the padding. */
  function DataLength(s: seq<Byte>): nat {
    if s == [] || s[0] == PAD then 0 else 1 + DataLength(s[1..])
  }

  lemma {:induction false} DecodedSizeFrom(s: seq<Byte>, a: Alphabet, behavior: Behavior, last: Byte, bits: Bits)
    requires DecodedFrom(s, a, behavior, last, bits).Ok?
    ensures |DecodedFrom(s, a, behavior, last, bits).value| == (bits + 6 * DataLength(s)) / 8
    ensures DataLength(s) <= |s|
    decreases |s|
  {
    hide ValueOf, Combine;
    if s != [] && s[0] != PAD {
      var v := ValueOf(a, s[0]).value;
      DecodedSizeFrom(s[1..], v.1, behavior, v.0, if bits >= 2 then bits - 2 else 6);
      var k := DataLength(s[1..]);
      assert (bits + 6 * (k + 1)) == (bits - 2 + 6 * k) + 8;
    }
  }

  /** `k` characters carry `6k` bits: the result has `6k / 8` octets, never more than the size bound. */
  lemma DecodedSize(s: seq<Byte>, a: Alphabet, behavior: Behavior)
    requires DecodedText(s, a, behavior).Ok?
    ensures |DecodedText(s, a, behavior).value| == 6 * DataLength(s) / 8 <= MaxDecodeSize(|s|)
  {
    DecodedSizeFrom(s, a, behavior, 0, 0);
    assert 6 * DataLength(s) / 8 <= 6 * |s| / 8;
    assert |s| == 4 * (|s| / 4) + |s| % 4;
  }

  // ---------------------------------------------------------------- what is decoded

  /** Characters of the alphabet, then padding only, or behind the first padding anything in loose mode. */
  ghost predicate Decodable(s: seq<Byte>, urlSafe: bool, behavior: Behavior) {
    var k := DataLength(s);
    && k <= |s|
    && (forall i :: 0 <= i < k ==> IsLetter(s[i], urlSafe))
    && (behavior == Loose || forall i :: k <= i < |s| ==> s[i] as int == '=' as int)
  }

  lemma {:induction false} DecodesFrom(s: seq<Byte>, a: Alphabet, behavior: Behavior, last: Byte, bits: Bits)
    requires a != Auto
    ensures DecodedFrom(s, a, behavior, last, bits).Ok? <==> Decodable(s, a == UrlSafe, behavior)
    decreases |s|
  {
    hide ValueOf, Combine, IsLetter;
    if s != [] && s[0] != PAD {
      LettersExactly(a, s[0]);
      DataFirst(s);
      if ValueOf(a, s[0]).Some? {
        DecodesFrom(s[1..], a, behavior, ValueOf(a, s[0]).value.0, if bits >= 2 then bits - 2 else 6);
        DecodableTail(s, a == UrlSafe, behavior);
      }
    }
  }

  lemma DataFirst(s: seq<Byte>)
    requires s != [] && s[0] != PAD
    ensures DataLength(s) == 1 + DataLength(s[1..])
  {
  }

  lemma DecodableTail(s: seq<Byte>, urlSafe: bool, behavior: Behavior)
    requires s != [] && s[0] != PAD && IsLetter(s[0], urlSafe)
    ensures Decodable(s, urlSafe, behavior) <==> Decodable(s[1..], urlSafe, behavior)
  {
    hide IsLetter;
    assert forall i :: 1 <= i < |s| ==> s[i] == s[1..][i - 1];
    assert forall i :: 0 <= i < |s| - 1 ==> s[1..][i] == s[i + 1];
  }

  /** Decoding succeeds exactly on characters of the alphabet and padding behind them; detection allows either. */
  lemma DecodesExactly(s: seq<Byte>, a: Alphabet, behavior: Behavior)
    ensures DecodedText(s, a, behavior).Ok? <==>
            match a
            case Standard => Decodable(s, false, behavior)
            case UrlSafe => Decodable(s, true, behavior)
            case Auto => Decodable(s, false, behavior) || Decodable(s, true, behavior)
  {
    DecodesFrom(s, Standard, behavior, 0, 0);
    DecodesFrom(s, UrlSafe, behavior, 0, 0);
    DetectionExactly(s, behavior);
  }

  // ---------------------------------------------------------------- in place

  /**
   Decoding into the array that is being read. The write position stays behind the read
   position, so no character is overwritten before it is read and the result is the same
   as with a separate destination.
   */
  method DecodeInPlace(text: array<Byte>, size: nat, a: Alphabet, behavior: Behavior)
    returns (r: Result<nat, Base64Error>)
    requires size <= text.Length
    modifies text
    ensures var d := DecodedText(old(text[..size]), a, behavior);
            if r.Err? then d == Err(r.error) else r.value <= size && d == Ok(text[..r.value])
    ensures text[size..] == old(text[size..])
  {
    hide ValueOf, Combine, DecodedFrom;
    ghost var s := text[..size];
    var alphabet, last: Byte, bits: Bits, i, out := a, 0, 0, 0, 0;
    assert s[0..] == s && text[..0] == [];
    AfterNothing(DecodedText(s, a, behavior));
    while i != size
      invariant 0 <= i <= size && out <= i
      invariant bits >= 2 ==> out < i
      invariant forall j :: i <= j < size ==> text[j] == s[j]
      invariant text[size..] == old(text[size..])
      invariant After(text[..out], DecodedFrom(s[i..], alphabet, behavior, last, bits)) == DecodedText(s, a, behavior)
    {
      DecodedStep(s, i, text[..out], alphabet, behavior, last, bits);
      var c := text[i];
      assert c == s[i];
      i := i + 1;
      if c == PAD {
        if behavior != Loose {
          var rest := text[i..size];
          assert forall j :: 0 <= j < |rest| ==> rest[j] == text[i + j] == s[i + j];
          assert rest == s[i..];
          var ok := CheckPadding(rest, 0);
          assert rest[0..] == rest;
          if !ok {
            return Err(InvalidCharacter);
          }
        }
        return Ok(out);
      }
      var v := ValueOf(alphabet, c);
      if v.None? {
        return Err(InvalidCharacter);
      }
      alphabet := v.value.1;
      if bits + 6 >= 8 {
        ghost var before := text[..out];
        text[out] := Combine(last, v.value.0, bits);
        out := out + 1;
        assert text[..out] == before + [Combine(last, v.value.0, bits)];
        bits := bits - 2;
      } else {
        bits := bits + 6;
      }
      last := v.value.0;
    }
    DecodedNothing(alphabet, behavior, last, bits);
    assert s[i..] == [];
    assert text[..out] + [] == text[..out];
    return Ok(out);
  }
}
