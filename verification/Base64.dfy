/**
 Canonical base64 (RFC 4648, sections 3.5 and 4): the encoder, a decoder that ignores unused bits, and the strict
 decoder that accepts exactly what the encoder produces.
 */
module Base64 {
  import opened Wrappers
  import opened Json

  type Byte = b: int | 0 <= b < 0x100
  type Bytes = seq<Byte>

  const PAD: CodeUnit := 0x3D

  // ---------------------------------------------------------------------------------------------
  // The alphabet
  // ---------------------------------------------------------------------------------------------

  function Symbol(n: int): CodeUnit
    requires 0 <= n < 64
  {
    if n < 26 then 0x41 + n
    else if n < 52 then 0x61 + n - 26
    else if n < 62 then 0x30 + n - 52
    else if n == 62 then 0x2B
    else 0x2F
  }

  predicate IsSymbol(c: CodeUnit) {
    0x41 <= c <= 0x5A || 0x61 <= c <= 0x7A || 0x30 <= c <= 0x39 || c == 0x2B || c == 0x2F
  }

  function Sextet(c: CodeUnit): (n: int)
    requires IsSymbol(c)
    ensures 0 <= n < 64
  {
    if c == 0x2B then 62
    else if c == 0x2F then 63
    else if c <= 0x39 then c - 0x30 + 52
    else if c <= 0x5A then c - 0x41
    else c - 0x61 + 26
  }

  lemma SymbolsAndSextets(n: int)
    requires 0 <= n < 64
    ensures IsSymbol(Symbol(n)) && Sextet(Symbol(n)) == n
  {
  }

  lemma SextetsAndSymbols(c: CodeUnit)
    requires IsSymbol(c)
    ensures Symbol(Sextet(c)) == c
  {
  }

  // ---------------------------------------------------------------------------------------------
  // Encoding
  // ---------------------------------------------------------------------------------------------

  function EncodeGroup(a: Byte, b: Byte, c: Byte): Text {
    [Symbol(a / 4), Symbol(a % 4 * 16 + b / 16), Symbol(b % 16 * 4 + c / 64), Symbol(c % 64)]
  }

  function EncodeOne(a: Byte): Text { [Symbol(a / 4), Symbol(a % 4 * 16), PAD, PAD] }

  function EncodeTwo(a: Byte, b: Byte): Text {
    [Symbol(a / 4), Symbol(a % 4 * 16 + b / 16), Symbol(b % 16 * 4), PAD]
  }

  function Encode(bytes: Bytes): Text {
    if bytes == [] then []
    else if |bytes| == 1 then EncodeOne(bytes[0])
    else if |bytes| == 2 then EncodeTwo(bytes[0], bytes[1])
    else EncodeGroup(bytes[0], bytes[1], bytes[2]) + Encode(bytes[3..])
  }

  /** The alphabet of section 4: capitals, small letters, digits, plus and slash, each in its own order. */
  lemma Alphabet()
    ensures Symbol(0) == 'A' as int && Symbol(26) == 'a' as int && Symbol(52) == '0' as int
    ensures Symbol(62) == '+' as int && Symbol(63) == '/' as int
    ensures forall n :: 0 < n < 62 && n != 26 && n != 52 ==> Symbol(n) == Symbol(n - 1) + 1
  {
  }

  /** Bytes as the digits of a number to base 256, behind what was read before. */
  function Base256(before: nat, bytes: Bytes): nat
    decreases |bytes|
  {
    if bytes == [] then before else Base256(before * 256 + bytes[0], bytes[1..])
  }

  /** Symbols up to the padding as the digits of a number to base 64. */
  function Base64Number(before: nat, text: Text): nat
    decreases |text|
  {
    if text == [] || !IsSymbol(text[0]) then before else Base64Number(before * 64 + Sextet(text[0]), text[1..])
  }

  lemma OneDigit(before: nat, bytes: Bytes)
    requires bytes != []
    ensures Base256(before, bytes) == Base256(before * 256 + bytes[0], bytes[1..])
  {
  }

  lemma ThreeDigits(before: nat, bytes: Bytes)
    requires |bytes| >= 3
    ensures Base256(before, bytes) == Base256(((before * 256 + bytes[0]) * 256 + bytes[1]) * 256 + bytes[2], bytes[3..])
  {
    assert bytes[1..][1..] == bytes[2..] && bytes[2..][1..] == bytes[3..];
    OneDigit(before, bytes);
    OneDigit(before * 256 + bytes[0], bytes[1..]);
    OneDigit((before * 256 + bytes[0]) * 256 + bytes[1], bytes[2..]);
  }

  lemma OneSymbol(before: nat, c: CodeUnit, rest: Text)
    requires IsSymbol(c)
    ensures Base64Number(before, [c] + rest) == Base64Number(before * 64 + Sextet(c), rest)
  {
    Behind(c, rest);
  }

  lemma FourSymbols(before: nat, p: CodeUnit, q: CodeUnit, r: CodeUnit, s: CodeUnit, rest: Text)
    requires IsSymbol(p) && IsSymbol(q) && IsSymbol(r) && IsSymbol(s)
    ensures Base64Number(before, [p, q, r, s] + rest)
         == Base64Number((((before * 64 + Sextet(p)) * 64 + Sextet(q)) * 64 + Sextet(r)) * 64 + Sextet(s), rest)
  {
    assert [p, q, r, s] + rest == [p] + ([q] + ([r] + ([s] + rest)));
    OneSymbol(before, p, [q] + ([r] + ([s] + rest)));
    OneSymbol(before * 64 + Sextet(p), q, [r] + ([s] + rest));
    OneSymbol((before * 64 + Sextet(p)) * 64 + Sextet(q), r, [s] + rest);
    OneSymbol(((before * 64 + Sextet(p)) * 64 + Sextet(q)) * 64 + Sextet(r), s, rest);
  }

  lemma NumberOfGroup(before: nat, a: Byte, b: Byte, c: Byte, rest: Text)
    ensures Base64Number(before, EncodeGroup(a, b, c) + rest)
         == Base64Number(((before * 256 + a) * 256 + b) * 256 + c, rest)
  {
    var p, q, r, s := a / 4, a % 4 * 16 + b / 16, b % 16 * 4 + c / 64, c % 64;
    SymbolsAndSextets(p);
    SymbolsAndSextets(q);
    SymbolsAndSextets(r);
    SymbolsAndSextets(s);
    FourSymbols(before, Symbol(p), Symbol(q), Symbol(r), Symbol(s), rest);
  }

  lemma NumberOfOne(before: nat, a: Byte)
    ensures Base64Number(before, EncodeOne(a)) == (before * 256 + a) * 16
  {
    var p, q, pads := a / 4, a % 4 * 16, [PAD, PAD];
    SymbolsAndSextets(p);
    SymbolsAndSextets(q);
    assert EncodeOne(a) == [Symbol(p)] + ([Symbol(q)] + pads);
    OneSymbol(before, Symbol(p), [Symbol(q)] + pads);
    OneSymbol(before * 64 + p, Symbol(q), pads);
  }

  lemma NumberOfTwo(before: nat, a: Byte, b: Byte)
    ensures Base64Number(before, EncodeTwo(a, b)) == ((before * 256 + a) * 256 + b) * 4
  {
    var p, q, r, pad := a / 4, a % 4 * 16 + b / 16, b % 16 * 4, [PAD];
    SymbolsAndSextets(p);
    SymbolsAndSextets(q);
    SymbolsAndSextets(r);
    assert EncodeTwo(a, b) == [Symbol(p)] + ([Symbol(q)] + ([Symbol(r)] + pad));
    OneSymbol(before, Symbol(p), [Symbol(q)] + ([Symbol(r)] + pad));
    OneSymbol(before * 64 + p, Symbol(q), [Symbol(r)] + pad);
    OneSymbol((before * 64 + p) * 64 + q, Symbol(r), pad);
  }

  /** Reading three bytes, and reading their four symbols. */
  lemma NumberBehindGroup(before: nat, bytes: Bytes) returns (n: nat)
    requires |bytes| >= 3
    ensures Base256(before, bytes) == Base256(n, bytes[3..])
    ensures Base64Number(before, Encode(bytes)) == Base64Number(n, Encode(bytes[3..]))
  {
    n := ((before * 256 + bytes[0]) * 256 + bytes[1]) * 256 + bytes[2];
    NumberOfGroup(before, bytes[0], bytes[1], bytes[2], Encode(bytes[3..]));
    ThreeDigits(before, bytes);
  }

  lemma NumberOfLast(before: nat, bytes: Bytes)
    requires |bytes| < 3
    ensures |bytes| == 0 ==> Base64Number(before, Encode(bytes)) == Base256(before, bytes)
    ensures |bytes| == 1 ==> Base64Number(before, Encode(bytes)) == Base256(before, bytes) * 16
    ensures |bytes| == 2 ==> Base64Number(before, Encode(bytes)) == Base256(before, bytes) * 4
  {
    if |bytes| == 1 {
      NumberOfOne(before, bytes[0]);
      OneDigit(before, bytes);
    } else if |bytes| == 2 {
      NumberOfTwo(before, bytes[0], bytes[1]);
      OneDigit(before, bytes);
      OneDigit(before * 256 + bytes[0], bytes[1..]);
    }
  }

  lemma SameRemainder(n: nat)
    requires n >= 3
    ensures (n - 3) % 3 == n % 3
  {
  }

  /** The text is the number the bytes are, with zero bits behind it up to a whole symbol. */
  lemma {:induction false} EncodesTheNumber(before: nat, bytes: Bytes)
    ensures |bytes| % 3 == 0 ==> Base64Number(before, Encode(bytes)) == Base256(before, bytes)
    ensures |bytes| % 3 == 1 ==> Base64Number(before, Encode(bytes)) == Base256(before, bytes) * 16
    ensures |bytes| % 3 == 2 ==> Base64Number(before, Encode(bytes)) == Base256(before, bytes) * 4
    decreases |bytes|
  {
    if |bytes| < 3 {
      NumberOfLast(before, bytes);
    } else {
      var n := NumberBehindGroup(before, bytes);
      SameRemainder(|bytes|);
      EncodesTheNumber(n, bytes[3..]);
    }
  }

  /** It has four symbols for each three bytes begun, and is padded by as many as were not there. */
  lemma {:induction false} EncodesInGroups(bytes: Bytes)
    ensures |Encode(bytes)| == (|bytes| + 2) / 3 * 4
    ensures var symbols := (4 * |bytes| + 2) / 3;
            forall i :: 0 <= i < |Encode(bytes)| ==> if i < symbols then IsSymbol(Encode(bytes)[i]) else Encode(bytes)[i] == PAD
    decreases |bytes|
  {
    if |bytes| >= 3 {
      EncodesInGroups(bytes[3..]);
    }
  }

  // ---------------------------------------------------------------------------------------------
  // Decoding
  // ---------------------------------------------------------------------------------------------

  /** The shape the regular expression asks for: groups of four symbols, the last one possibly padded. */
  predicate Shaped(text: Text) {
    if text == [] then true
    else if |text| < 4 || !IsSymbol(text[0]) || !IsSymbol(text[1]) then false
    else if text[3] == PAD then |text| == 4 && (text[2] == PAD || IsSymbol(text[2]))
    else IsSymbol(text[2]) && IsSymbol(text[3]) && Shaped(text[4..])
  }

  /** The decoder of the platform, which ignores the bits of the last symbol that no byte uses. */
  function Decode(text: Text): Bytes
    requires Shaped(text)
  {
    if text == [] then []
    else
      var p, q := Sextet(text[0]), Sextet(text[1]);
      var a := p * 4 + q / 16;
      if text[3] == PAD && text[2] == PAD then [a]
      else
        var r := Sextet(text[2]);
        var b := q % 16 * 16 + r / 4;
        if text[3] == PAD then [a, b]
        else [a, b, r % 4 * 64 + Sextet(text[3])] + Decode(text[4..])
  }

  /** `None` is the corruption error. */
  function DecodeCanonical(text: Text): Option<Bytes> {
    if !Shaped(text) then None
    else
      var decoded := Decode(text);
      if Encode(decoded) != text then None else Some(decoded)
  }

  // ---------------------------------------------------------------------------------------------
  // Main results
  // ---------------------------------------------------------------------------------------------

  lemma GroupRoundTrip(a: Byte, b: Byte, c: Byte)
    ensures var p, q, r, s := a / 4, a % 4 * 16 + b / 16, b % 16 * 4 + c / 64, c % 64;
            a == p * 4 + q / 16 && b == q % 16 * 16 + r / 4 && c == r % 4 * 64 + s
  {
  }

  lemma DecodesTwoSymbols(p: int, q: int)
    requires 0 <= p < 64 && 0 <= q < 64
    ensures var text := [Symbol(p), Symbol(q), PAD, PAD]; Shaped(text) && Decode(text) == [p * 4 + q / 16]
  {
    SymbolsAndSextets(p);
    SymbolsAndSextets(q);
  }

  lemma DecodesThreeSymbols(p: int, q: int, r: int)
    requires 0 <= p < 64 && 0 <= q < 64 && 0 <= r < 64
    ensures var text := [Symbol(p), Symbol(q), Symbol(r), PAD];
            Shaped(text) && Decode(text) == [p * 4 + q / 16, q % 16 * 16 + r / 4]
  {
    SymbolsAndSextets(p);
    SymbolsAndSextets(q);
    SymbolsAndSextets(r);
  }

  /** The sextets of one byte. */
  lemma SextetsOfOne(a: Byte) returns (p: int, q: int)
    ensures 0 <= p < 64 && 0 <= q < 64 && EncodeOne(a) == [Symbol(p), Symbol(q), PAD, PAD]
    ensures a == p * 4 + q / 16
  {
    p, q := a / 4, a % 4 * 16;
    GroupRoundTrip(a, 0, 0);
  }

  /** The sextets of two bytes. */
  lemma SextetsOfTwo(a: Byte, b: Byte) returns (p: int, q: int, r: int)
    ensures 0 <= p < 64 && 0 <= q < 64 && 0 <= r < 64 && EncodeTwo(a, b) == [Symbol(p), Symbol(q), Symbol(r), PAD]
    ensures a == p * 4 + q / 16 && b == q % 16 * 16 + r / 4
  {
    p, q, r := a / 4, a % 4 * 16 + b / 16, b % 16 * 4;
    GroupRoundTrip(a, b, 0);
  }

  lemma OneByteRoundTrip(a: Byte)
    ensures Shaped(Encode([a])) && Decode(Encode([a])) == [a]
  {
    var p, q := SextetsOfOne(a);
    DecodesTwoSymbols(p, q);
  }

  lemma TwoBytesRoundTrip(a: Byte, b: Byte)
    ensures Shaped(Encode([a, b])) && Decode(Encode([a, b])) == [a, b]
  {
    var p, q, r := SextetsOfTwo(a, b);
    DecodesThreeSymbols(p, q, r);
  }

  lemma FullGroupRoundTrip(a: Byte, b: Byte, c: Byte, rest: Text)
    requires Shaped(rest)
    ensures var text := EncodeGroup(a, b, c) + rest;
            Shaped(text) && Decode(text) == [a, b, c] + Decode(rest)
  {
    var p, q, r, s := a / 4, a % 4 * 16 + b / 16, b % 16 * 4 + c / 64, c % 64;
    GroupRoundTrip(a, b, c);
    SymbolsAndSextets(p);
    SymbolsAndSextets(q);
    SymbolsAndSextets(r);
    SymbolsAndSextets(s);
    var text := EncodeGroup(a, b, c) + rest;
    assert text[0] == Symbol(p) && text[1] == Symbol(q) && text[2] == Symbol(r) && text[3] == Symbol(s);
    assert text[4..] == rest;
  }

  /** Decoding undoes encoding. */
  lemma {:induction false} DecodeUndoesEncode(bytes: Bytes)
    ensures Shaped(Encode(bytes)) && Decode(Encode(bytes)) == bytes
  {
    if |bytes| == 1 {
      assert bytes == [bytes[0]];
      OneByteRoundTrip(bytes[0]);
    } else if |bytes| == 2 {
      assert bytes == [bytes[0], bytes[1]];
      TwoBytesRoundTrip(bytes[0], bytes[1]);
    } else if |bytes| > 2 {
      DecodeUndoesEncode(bytes[3..]);
      FullGroupRoundTrip(bytes[0], bytes[1], bytes[2], Encode(bytes[3..]));
      assert bytes == [bytes[0], bytes[1], bytes[2]] + bytes[3..];
    }
  }

  /** The strict decoder accepts exactly the encoder's image, and gives back what was encoded. */
  lemma AcceptsExactlyTheImage(text: Text, bytes: Bytes)
    ensures DecodeCanonical(text) == Some(bytes) <==> text == Encode(bytes)
  {
    if text == Encode(bytes) {
      DecodeUndoesEncode(bytes);
    }
  }

  /** The bits of the last symbol that no byte uses are zero: RFC 4648, section 3.5. */
  predicate UnusedBitsAreZero(text: Text)
    requires Shaped(text)
  {
    if text == [] then true
    else if text[3] == PAD && text[2] == PAD then Sextet(text[1]) % 16 == 0
    else if text[3] == PAD then Sextet(text[2]) % 4 == 0
    else UnusedBitsAreZero(text[4..])
  }

  lemma FullGroup(p: int, q: int, r: int, s: int)
    requires 0 <= p < 64 && 0 <= q < 64 && 0 <= r < 64 && 0 <= s < 64
    ensures EncodeGroup(p * 4 + q / 16, q % 16 * 16 + r / 4, r % 4 * 64 + s) == [Symbol(p), Symbol(q), Symbol(r), Symbol(s)]
  {
    var a, b, c := p * 4 + q / 16, q % 16 * 16 + r / 4, r % 4 * 64 + s;
    assert p == a / 4 && q == a % 4 * 16 + b / 16 && r == b % 16 * 4 + c / 64 && s == c % 64;
  }

  lemma PartialGroups(p: int, q: int, r: int)
    requires 0 <= p < 64 && 0 <= q < 64 && 0 <= r < 64
    ensures EncodeOne(p * 4 + q / 16) == [Symbol(p), Symbol(q - q % 16), PAD, PAD]
    ensures EncodeTwo(p * 4 + q / 16, q % 16 * 16 + r / 4) == [Symbol(p), Symbol(q), Symbol(r - r % 4), PAD]
  {
    var a, b := p * 4 + q / 16, q % 16 * 16 + r / 4;
    assert p == a / 4 && q - q % 16 == a % 4 * 16 && q == a % 4 * 16 + b / 16 && r - r % 4 == b % 16 * 4;
  }

  lemma SameSymbol(m: int, n: int)
    requires 0 <= m < 64 && 0 <= n < 64
    ensures Symbol(m) == Symbol(n) <==> m == n
  {
    SymbolsAndSextets(m);
    SymbolsAndSextets(n);
  }

  /** The one byte of a group with two pads. */
  lemma TwoPads(text: Text) returns (a: Byte)
    requires Shaped(text) && text != [] && text[3] == PAD && text[2] == PAD
    ensures Decode(text) == [a]
    ensures EncodeOne(a) == text <==> Sextet(text[1]) % 16 == 0
  {
    var p, q := Sextet(text[0]), Sextet(text[1]);
    a := p * 4 + q / 16;
    PartialGroups(p, q, 0);
    SextetsAndSymbols(text[0]);
    SextetsAndSymbols(text[1]);
    SameSymbol(q - q % 16, q);
  }

  /** The two bytes of a group with one pad. */
  lemma OnePad(text: Text) returns (a: Byte, b: Byte)
    requires Shaped(text) && text != [] && text[3] == PAD && text[2] != PAD
    ensures Decode(text) == [a, b]
    ensures EncodeTwo(a, b) == text <==> Sextet(text[2]) % 4 == 0
  {
    var p, q, r := Sextet(text[0]), Sextet(text[1]), Sextet(text[2]);
    a, b := p * 4 + q / 16, q % 16 * 16 + r / 4;
    PartialGroups(p, q, r);
    SextetsAndSymbols(text[0]);
    SextetsAndSymbols(text[1]);
    SextetsAndSymbols(text[2]);
    SameSymbol(r - r % 4, r);
  }

  /** The three bytes of a full group. */
  lemma NoPad(text: Text) returns (a: Byte, b: Byte, c: Byte)
    requires Shaped(text) && text != [] && text[3] != PAD
    ensures Decode(text) == [a, b, c] + Decode(text[4..])
    ensures EncodeGroup(a, b, c) == text[..4]
  {
    var p, q, r, s := Sextet(text[0]), Sextet(text[1]), Sextet(text[2]), Sextet(text[3]);
    a, b, c := p * 4 + q / 16, q % 16 * 16 + r / 4, r % 4 * 64 + s;
    FullGroup(p, q, r, s);
    SextetsAndSymbols(text[0]);
    SextetsAndSymbols(text[1]);
    SextetsAndSymbols(text[2]);
    SextetsAndSymbols(text[3]);
  }

  lemma EncodeStep(a: Byte, b: Byte, c: Byte, rest: Bytes)
    ensures Encode([a, b, c] + rest) == EncodeGroup(a, b, c) + Encode(rest)
  {
    assert ([a, b, c] + rest)[3..] == rest;
  }

  /** Encoding what was decoded clears the unused bits and nothing else. */
  lemma {:induction false} EncodeAfterDecode(text: Text)
    requires Shaped(text)
    ensures Encode(Decode(text)) == text <==> UnusedBitsAreZero(text)
  {
    if text == [] {
    } else if text[3] == PAD && text[2] == PAD {
      var a := TwoPads(text);
    } else if text[3] == PAD {
      var a, b := OnePad(text);
    } else {
      var a, b, c := NoPad(text);
      EncodeStep(a, b, c, Decode(text[4..]));
      EncodeAfterDecode(text[4..]);
      assert text == text[..4] + text[4..];
    }
  }

  /** In terms of the text alone: it is accepted when it has the right shape and its unused bits are zero. */
  lemma AcceptedTexts(text: Text)
    ensures DecodeCanonical(text).Some? <==> Shaped(text) && UnusedBitsAreZero(text)
  {
    if Shaped(text) {
      EncodeAfterDecode(text);
    }
  }
}
