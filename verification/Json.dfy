/**
 JSON values as the original hands them around, JSON.stringify without indentation, and JSON.parse.

 Text is a sequence of UTF-16 code units. A number, `true`, `false` or `null` is kept as the token JSON.stringify
 prints for it.
 */
module Json {
  import opened Wrappers

  type CodeUnit = u: int | 0 <= u < 0x10000
  type Text = seq<CodeUnit>

  datatype Member = Member(name: Text, value: Value)

  /** `Foreign` is a value JSON does not have: a function, a symbol or a bigint. */
  datatype Value =
    | Undefined
    | Foreign
    | Atom(token: Text)
    | Str(text: Text)
    | Arr(items: seq<Value>)
    | Obj(members: seq<Member>)

  /** What a JSON text denotes: the order of members plays no part. */
  datatype Meaning =
    | Token(token: Text)
    | String(text: Text)
    | List(items: seq<Meaning>)
    | Fields(fields: map<Text, Meaning>)

  const QUOTE: CodeUnit := 0x22
  const BACKSLASH: CodeUnit := 0x5C
  const COMMA: CodeUnit := 0x2C
  const COLON: CodeUnit := 0x3A
  const OPEN_LIST: CodeUnit := 0x5B
  const CLOSE_LIST: CodeUnit := 0x5D
  const OPEN_RECORD: CodeUnit := 0x7B
  const CLOSE_RECORD: CodeUnit := 0x7D
  const MINUS: CodeUnit := 0x2D
  const TRUE: Text := [0x74, 0x72, 0x75, 0x65]
  const FALSE: Text := [0x66, 0x61, 0x6C, 0x73, 0x65]
  const NULL: Text := [0x6E, 0x75, 0x6C, 0x6C]

  // ---------------------------------------------------------------------------------------------
  // Tokens
  // ---------------------------------------------------------------------------------------------

  predicate Digit(c: CodeUnit) { 0x30 <= c <= 0x39 }

  predicate NumberUnit(c: CodeUnit) { Digit(c) || c in [0x2B, MINUS, 0x2E, 0x45, 0x65] }

  /** How many code units at the start of `s` are digits. */
  function Digits(s: Text): (n: nat)
    ensures n <= |s|
  {
    if s == [] || !Digit(s[0]) then 0 else 1 + Digits(s[1..])
  }

  function NumberUnits(s: Text): (n: nat)
    ensures n <= |s|
    ensures forall i :: 0 <= i < n ==> NumberUnit(s[i])
  {
    if s == [] || !NumberUnit(s[0]) then 0 else 1 + NumberUnits(s[1..])
  }

  /** `(e|E)(+|-)?digits`, or nothing. */
  predicate Exponent(s: Text) {
    s == [] ||
    (s[0] in [0x45, 0x65] &&
     var rest := if |s| > 1 && s[1] in [0x2B, MINUS] then s[2..] else s[1..];
     rest != [] && Digits(rest) == |rest|)
  }

  /** `(.digits)?exponent`. */
  predicate Fraction(s: Text) {
    if s != [] && s[0] == 0x2E then
      var n := Digits(s[1..]);
      n > 0 && Exponent(s[1..][n..])
    else
      Exponent(s)
  }

  /** A number in the grammar of RFC 8259, section 6. */
  predicate Number(s: Text) {
    var unsigned := if s != [] && s[0] == MINUS then s[1..] else s;
    var n := Digits(unsigned);
    n > 0 && (unsigned[0] == 0x30 ==> n == 1) && Fraction(unsigned[n..])
  }

  predicate ValidToken(t: Text) {
    t in [TRUE, FALSE, NULL] || (Number(t) && NumberUnits(t) == |t|)
  }

  // ---------------------------------------------------------------------------------------------
  // Spelling
  // ---------------------------------------------------------------------------------------------

  /** The code units of a literal. */
  function Ascii(s: string): (t: Text)
    ensures |t| == |s|
  {
    seq(|s|, i requires 0 <= i < |s| => s[i] as int % 0x10000)
  }

  /** A digest as it is spelled. */
  predicate HexText(t: Text) { |t| == 64 && forall i :: 0 <= i < |t| ==> Digit(t[i]) || 0x61 <= t[i] <= 0x66 }

  /** A number as it is printed. */
  function Numeral(n: nat): Text {
    if n < 10 then [0x30 + n] else Numeral(n / 10) + [0x30 + n % 10]
  }

  lemma {:induction false} NumeralDigits(n: nat)
    ensures var t := Numeral(n); t != [] && Digit(t[0]) && (t[0] == 0x30 ==> n == 0)
    ensures Digits(Numeral(n)) == |Numeral(n)| && NumberUnits(Numeral(n)) == |Numeral(n)|
  {
    if n >= 10 {
      NumeralDigits(n / 10);
      AnotherDigit(Numeral(n / 10), 0x30 + n % 10);
    } else {
      AnotherDigit([], 0x30 + n);
      assert [] + Numeral(n) == Numeral(n);
    }
  }

  lemma NumeralIsToken(n: nat)
    ensures ValidToken(Numeral(n))
  {
    var t := Numeral(n);
    NumeralDigits(n);
    assert t[|t|..] == [];
    assert t[0] == 0x30 ==> t == [0x30];
  }

  lemma {:induction false} AnotherDigit(t: Text, c: CodeUnit)
    requires Digits(t) == |t| && NumberUnits(t) == |t| && Digit(c)
    ensures Digits(t + [c]) == |t| + 1 && NumberUnits(t + [c]) == |t| + 1
  {
    if t == [] {
      assert (t + [c])[1..] == [];
    } else {
      AnotherDigit(t[1..], c);
      assert (t + [c])[1..] == t[1..] + [c];
    }
  }

  // ---------------------------------------------------------------------------------------------
  // Printing
  // ---------------------------------------------------------------------------------------------

  predicate High(c: CodeUnit) { 0xD800 <= c <= 0xDBFF }

  predicate Low(c: CodeUnit) { 0xDC00 <= c <= 0xDFFF }

  function HexDigit(n: int): CodeUnit
    requires 0 <= n < 16
  {
    if n < 10 then 0x30 + n else 0x61 + n - 10
  }

  function Hex(c: CodeUnit): Text {
    var high := c / 0x10 / 0x10;
    [HexDigit(high / 0x10), HexDigit(high % 0x10), HexDigit(c / 0x10 % 0x10), HexDigit(c % 0x10)]
  }

  /** The letter of a two-unit escape, if `c` has one. */
  function ShortEscape(c: CodeUnit): Option<CodeUnit> {
    if c == QUOTE || c == BACKSLASH then Some(c)
    else if c == 0x08 then Some(0x62)
    else if c == 0x0C then Some(0x66)
    else if c == 0x0A then Some(0x6E)
    else if c == 0x0D then Some(0x72)
    else if c == 0x09 then Some(0x74)
    else None
  }

  function EscapeUnit(c: CodeUnit): Text {
    var short := ShortEscape(c);
    if short.Some? then [BACKSLASH, short.value]
    else if c < 0x20 || High(c) || Low(c) then [BACKSLASH, 0x75] + Hex(c)
    else [c]
  }

  // Each printer puts its text in front of `rest`.

  /** A surrogate pair is printed as it is, a lone surrogate as an escape. */
  function Escape(t: Text, rest: Text): Text {
    if t == [] then rest
    else if |t| > 1 && High(t[0]) && Low(t[1]) then [t[0]] + ([t[1]] + Escape(t[2..], rest))
    else EscapeUnit(t[0]) + Escape(t[1..], rest)
  }

  function Quote(t: Text, rest: Text): Text { [QUOTE] + Escape(t, [QUOTE] + rest) }

  function PrintBefore(v: Value, rest: Text): Text
    requires Plain(v)
  {
    match v
    case Atom(token) => token + rest
    case Str(text) => Quote(text, rest)
    case Arr(items) => [OPEN_LIST] + PrintItems(items, [CLOSE_LIST] + rest)
    case Obj(members) => [OPEN_RECORD] + PrintMembers(members, [CLOSE_RECORD] + rest)
  }

  function PrintItems(items: seq<Value>, rest: Text): Text
    requires PlainItems(items)
  {
    if items == [] then rest
    else PrintBefore(items[0], if |items| == 1 then rest else [COMMA] + PrintItems(items[1..], rest))
  }

  function PrintMembers(members: seq<Member>, rest: Text): Text
    requires PlainMembers(members)
  {
    if members == [] then rest
    else
      var after := if |members| == 1 then rest else [COMMA] + PrintMembers(members[1..], rest);
      Quote(members[0].name, [COLON] + PrintBefore(members[0].value, after))
  }

  /** JSON.stringify of a value without undefined or foreign parts. */
  function Print(v: Value): Text
    requires Plain(v)
  {
    PrintBefore(v, [])
  }

  // ---------------------------------------------------------------------------------------------
  // Values
  // ---------------------------------------------------------------------------------------------

  /** The names of an object's members are distinct, and its atoms are tokens of JSON. */
  predicate WellFormed(v: Value) {
    match v
    case Undefined | Foreign | Str(_) => true
    case Atom(token) => ValidToken(token)
    case Arr(items) => forall i :: 0 <= i < |items| ==> WellFormed(items[i])
    case Obj(members) =>
      Distinct(members) && forall i :: 0 <= i < |members| ==> WellFormed(members[i].value)
  }

  predicate Distinct(members: seq<Member>) {
    forall i, j :: 0 <= i < j < |members| ==> members[i].name != members[j].name
  }

  /** A well-formed value without undefined or foreign parts. */
  predicate Plain(v: Value) {
    match v
    case Undefined | Foreign => false
    case Str(_) => true
    case Atom(token) => ValidToken(token)
    case Arr(items) => PlainItems(items)
    case Obj(members) => PlainMembers(members)
  }

  predicate PlainItems(items: seq<Value>) { forall i :: 0 <= i < |items| ==> Plain(items[i]) }

  predicate PlainMembers(members: seq<Member>) {
    Distinct(members) && forall i :: 0 <= i < |members| ==> Plain(members[i].value)
  }

  /** The member of this name. */
  function Lookup(members: seq<Member>, name: Text): Option<Value> {
    if members == [] then None
    else if members[0].name == name then Some(members[0].value)
    else Lookup(members[1..], name)
  }

  /** What a value means as JSON; undefined members do not count. */
  function Denote(v: Value): Meaning {
    match v
    case Undefined | Foreign => Token(NULL)
    case Atom(token) => Token(token)
    case Str(text) => String(text)
    case Arr(items) => List(DenoteItems(items))
    case Obj(members) => Fields(DenoteMembers(members))
  }

  function DenoteItems(items: seq<Value>): (r: seq<Meaning>)
    ensures |r| == |items|
  {
    if items == [] then [] else [Denote(items[0])] + DenoteItems(items[1..])
  }

  function DenoteMembers(members: seq<Member>): map<Text, Meaning> {
    if members == [] then map[]
    else if members[0].value.Undefined? then DenoteMembers(members[1..])
    else DenoteMembers(members[1..])[members[0].name := Denote(members[0].value)]
  }

  // ---------------------------------------------------------------------------------------------
  // Parsing
  // ---------------------------------------------------------------------------------------------

  datatype Parsed<T> = Parsed(value: T, rest: Text)

  predicate Space(c: CodeUnit) { c in [0x20, 0x09, 0x0A, 0x0D] }

  function SkipSpace(s: Text): (r: Text)
    ensures |r| <= |s|
  {
    if s != [] && Space(s[0]) then SkipSpace(s[1..]) else s
  }

  function HexValue(c: CodeUnit): (r: Option<int>)
    ensures r.Some? ==> 0 <= r.value < 16
  {
    if Digit(c) then Some(c - 0x30)
    else if 0x61 <= c <= 0x66 then Some(c - 0x61 + 10)
    else if 0x41 <= c <= 0x46 then Some(c - 0x41 + 10)
    else None
  }

  /** Four hexadecimal digits. */
  function ParseHex(s: Text): Option<CodeUnit>
    requires |s| == 4
  {
    var a, b, c, d := HexValue(s[0]), HexValue(s[1]), HexValue(s[2]), HexValue(s[3]);
    if a.Some? && b.Some? && c.Some? && d.Some? then
      Some(a.value * 0x1000 + b.value * 0x100 + c.value * 0x10 + d.value)
    else None
  }

  /** The unit a two-unit escape with this letter stands for. */
  function Unescape(letter: CodeUnit): Option<CodeUnit> {
    if letter == QUOTE || letter == BACKSLASH || letter == 0x2F then Some(letter)
    else if letter == 0x62 then Some(0x08)
    else if letter == 0x66 then Some(0x0C)
    else if letter == 0x6E then Some(0x0A)
    else if letter == 0x72 then Some(0x0D)
    else if letter == 0x74 then Some(0x09)
    else None
  }

  /** One unit of a string and the text after it. */
  function ParseUnit(s: Text): (r: Option<Parsed<CodeUnit>>)
    requires s != []
    ensures r.Some? ==> |r.value.rest| < |s|
  {
    if s[0] < 0x20 || s[0] == QUOTE then None
    else if s[0] != BACKSLASH then Some(Parsed(s[0], s[1..]))
    else if |s| < 2 then None
    else if s[1] != 0x75 then
      var unit := Unescape(s[1]);
      if unit.Some? then Some(Parsed(unit.value, s[2..])) else None
    else if |s| < 6 then None
    else
      var unit := ParseHex(s[2..6]);
      if unit.Some? then Some(Parsed(unit.value, s[6..])) else None
  }

  /** The rest of a string, up to and including its closing quote. */
  function ParseString(s: Text): (r: Option<Parsed<Text>>)
    ensures r.Some? ==> |r.value.rest| < |s|
    decreases |s|
  {
    if s == [] then None
    else if s[0] == QUOTE then Some(Parsed([], s[1..]))
    else
      var unit := ParseUnit(s);
      if unit.None? then None
      else
        var more := ParseString(unit.value.rest);
        if more.None? then None else Some(Parsed([unit.value.value] + more.value.value, more.value.rest))
  }

  lemma {:induction false} NumberUnitsOfPrefix(s: Text)
    ensures NumberUnits(s[..NumberUnits(s)]) == NumberUnits(s)
  {
    var n := NumberUnits(s);
    if n > 0 {
      NumberUnitsOfPrefix(s[1..]);
      assert s[..n][1..] == s[1..][..n - 1];
    }
  }

  function ParseToken(s: Text): (r: Option<Parsed<Value>>)
    ensures r.Some? ==> |r.value.rest| < |s| && r.value.value.Atom? && ValidToken(r.value.value.token)
  {
    if TRUE <= s then Some(Parsed(Atom(TRUE), s[4..]))
    else if FALSE <= s then Some(Parsed(Atom(FALSE), s[5..]))
    else if NULL <= s then Some(Parsed(Atom(NULL), s[4..]))
    else
      var n := NumberUnits(s);
      NumberUnitsOfPrefix(s);
      if n > 0 && Number(s[..n]) then Some(Parsed(Atom(s[..n]), s[n..])) else None
  }

  function ParseValue(text: Text): (r: Option<Parsed<Value>>)
    ensures r.Some? ==> |r.value.rest| < |text| && Plain(r.value.value)
    decreases |text|, 0
  {
    var s := SkipSpace(text);
    if s == [] then None
    else if s[0] == QUOTE then
      var chars := ParseString(s[1..]);
      if chars.None? then None else Some(Parsed(Str(chars.value.value), chars.value.rest))
    else if s[0] == OPEN_LIST then
      var inner := SkipSpace(s[1..]);
      if inner != [] && inner[0] == CLOSE_LIST then Some(Parsed(Arr([]), inner[1..]))
      else
        var items := ParseItems(inner);
        if items.None? then None else Some(Parsed(Arr(items.value.value), items.value.rest))
    else if s[0] == OPEN_RECORD then
      var inner := SkipSpace(s[1..]);
      if inner != [] && inner[0] == CLOSE_RECORD then Some(Parsed(Obj([]), inner[1..]))
      else
        var members := ParseMembers(inner, []);
        if members.None? then None else Some(Parsed(Obj(members.value.value), members.value.rest))
    else ParseToken(s)
  }

  /** One or more items and the closing bracket. */
  function ParseItems(text: Text): (r: Option<Parsed<seq<Value>>>)
    ensures r.Some? ==> |r.value.rest| < |text| && PlainItems(r.value.value)
    decreases |text|, 1
  {
    var first := ParseValue(text);
    if first.None? then None
    else
      var s := SkipSpace(first.value.rest);
      if s == [] then None
      else if s[0] == CLOSE_LIST then Some(Parsed([first.value.value], s[1..]))
      else if s[0] != COMMA then None
      else
        var more := ParseItems(s[1..]);
        if more.None? then None else Some(Parsed([first.value.value] + more.value.value, more.value.rest))
  }

  /** Setting a property: a repeated name keeps its place and takes the new value. */
  function Put(members: seq<Member>, m: Member): (r: seq<Member>)
    requires PlainMembers(members) && Plain(m.value)
    ensures PlainMembers(r)
    ensures forall i :: 0 <= i < |r| ==> r[i].name == m.name || exists j :: 0 <= j < |members| && members[j].name == r[i].name
    ensures (forall i :: 0 <= i < |members| ==> members[i].name != m.name) ==> r == members + [m]
  {
    if members == [] then [m]
    else if members[0].name == m.name then [m] + members[1..]
    else [members[0]] + Put(members[1..], m)
  }

  /** One or more members and the closing brace, put after the members read before. */
  function ParseMembers(text: Text, before: seq<Member>): (r: Option<Parsed<seq<Member>>>)
    requires PlainMembers(before)
    ensures r.Some? ==> |r.value.rest| < |text| && PlainMembers(r.value.value)
    decreases |text|, 1
  {
    var s := SkipSpace(text);
    if s == [] || s[0] != QUOTE then None
    else
      var name := ParseString(s[1..]);
      if name.None? then None
      else
        var afterName := SkipSpace(name.value.rest);
        if afterName == [] || afterName[0] != COLON then None
        else
          var value := ParseValue(afterName[1..]);
          if value.None? then None
          else
            var members := Put(before, Member(name.value.value, value.value.value));
            var after := SkipSpace(value.value.rest);
            if after == [] then None
            else if after[0] == CLOSE_RECORD then Some(Parsed(members, after[1..]))
            else if after[0] != COMMA then None
            else ParseMembers(after[1..], members)
  }

  /** JSON.parse; `None` is a SyntaxError. The members of an object are listed as in the text. */
  function Parse(text: Text): (r: Option<Value>)
    ensures r.Some? ==> Plain(r.value)
  {
    var r := ParseValue(text);
    if r.Some? && SkipSpace(r.value.rest) == [] then Some(r.value.value) else None
  }

  // ---------------------------------------------------------------------------------------------
  // Parsing undoes printing: strings
  // ---------------------------------------------------------------------------------------------

  lemma HexDigitRoundTrip(n: int)
    requires 0 <= n < 16
    ensures HexValue(HexDigit(n)) == Some(n)
  {
  }

  lemma HexRoundTrip(c: CodeUnit)
    ensures ParseHex(Hex(c)) == Some(c)
  {
    var high := c / 0x10 / 0x10;
    var a, b, d, e := high / 0x10, high % 0x10, c / 0x10 % 0x10, c % 0x10;
    HexDigitRoundTrip(a);
    HexDigitRoundTrip(b);
    HexDigitRoundTrip(d);
    HexDigitRoundTrip(e);
    assert c == a * 0x1000 + b * 0x100 + d * 0x10 + e;
  }

  lemma Behind(c: CodeUnit, rest: Text)
    ensures ([c] + rest)[0] == c && ([c] + rest)[1..] == rest
  {
  }

  lemma UnitRoundTrip(c: CodeUnit, rest: Text)
    ensures EscapeUnit(c) != [] && EscapeUnit(c)[0] != QUOTE
    ensures ParseUnit(EscapeUnit(c) + rest) == Some(Parsed(c, rest))
  {
    var s := EscapeUnit(c) + rest;
    if ShortEscape(c).Some? {
      assert s[2..] == rest;
    } else if c < 0x20 || High(c) || Low(c) {
      HexRoundTrip(c);
      assert s[2..6] == Hex(c) && s[6..] == rest;
    } else {
      assert s[1..] == rest;
    }
  }

  /** One more unit in front of a string. */
  lemma ParseStringStep(c: CodeUnit, t: Text, s: Text, more: Text, rest: Text)
    requires s != [] && s[0] != QUOTE && ParseUnit(s) == Some(Parsed(c, more))
    requires ParseString(more) == Some(Parsed(t, rest))
    ensures ParseString(s) == Some(Parsed([c] + t, rest))
  {
  }

  lemma {:induction false} StringRoundTrip(t: Text, rest: Text)
    ensures ParseString(Escape(t, [QUOTE] + rest)) == Some(Parsed(t, rest))
  {
    if t == [] {
      Behind(QUOTE, rest);
    } else if |t| > 1 && High(t[0]) && Low(t[1]) {
      var more := Escape(t[2..], [QUOTE] + rest);
      StringRoundTrip(t[2..], rest);
      Behind(t[1], more);
      ParseStringStep(t[1], t[2..], [t[1]] + more, more, rest);
      Behind(t[0], [t[1]] + more);
      ParseStringStep(t[0], [t[1]] + t[2..], [t[0]] + ([t[1]] + more), [t[1]] + more, rest);
      assert t == [t[0]] + ([t[1]] + t[2..]);
    } else {
      var more := Escape(t[1..], [QUOTE] + rest);
      StringRoundTrip(t[1..], rest);
      UnitRoundTrip(t[0], more);
      ParseStringStep(t[0], t[1..], EscapeUnit(t[0]) + more, more, rest);
      assert t == [t[0]] + t[1..];
    }
  }

  // ---------------------------------------------------------------------------------------------
  // Parsing undoes printing: values
  // ---------------------------------------------------------------------------------------------

  /** What may follow a value: the end, a comma, or a closing bracket. */
  predicate Delimited(rest: Text) { rest == [] || rest[0] in [COMMA, CLOSE_LIST, CLOSE_RECORD] }

  lemma {:induction false} NumberStops(t: Text, rest: Text)
    requires NumberUnits(t) == |t| && Delimited(rest)
    ensures NumberUnits(t + rest) == |t|
  {
    if t == [] {
      assert t + rest == rest;
    } else {
      NumberStops(t[1..], rest);
      assert (t + rest)[1..] == t[1..] + rest;
    }
  }

  lemma TokenRoundTrip(t: Text, rest: Text)
    requires ValidToken(t) && Delimited(rest)
    ensures t != [] && t[0] !in [QUOTE, OPEN_LIST, OPEN_RECORD, CLOSE_LIST] && !Space(t[0])
    ensures ParseToken(t + rest) == Some(Parsed(Atom(t), rest))
  {
    var s := t + rest;
    assert s[..|t|] == t && s[|t|..] == rest;
    if t in [TRUE, FALSE, NULL] {
      assert t <= s && s[0] == t[0];
    } else {
      NumberStops(t, rest);
      assert NumberUnit(t[0]) && s[0] == t[0];
    }
  }

  /** A printed value starts with neither white space nor a closing bracket. */
  lemma PrintStarts(v: Value, rest: Text)
    requires Plain(v)
    ensures var s := PrintBefore(v, rest); s != [] && !Space(s[0]) && s[0] != CLOSE_LIST && SkipSpace(s) == s
  {
    if v.Atom? {
      TokenRoundTrip(v.token, []);
    }
  }

  lemma {:induction false} ValueRoundTrip(v: Value, rest: Text)
    requires Plain(v) && Delimited(rest)
    ensures ParseValue(PrintBefore(v, rest)) == Some(Parsed(v, rest))
    decreases v, 0
  {
    PrintStarts(v, rest);
    match v
    case Atom(token) =>
      TokenRoundTrip(token, rest);
      assert (token + rest)[0] == token[0];
    case Str(text) =>
      StringRoundTrip(text, rest);
      Behind(QUOTE, Escape(text, [QUOTE] + rest));
    case Arr(items) =>
      ListRoundTrip(items, rest);
    case Obj(members) =>
      RecordRoundTrip(members, rest);
  }

  lemma {:induction false} ListRoundTrip(items: seq<Value>, rest: Text)
    requires PlainItems(items)
    ensures ParseValue(PrintBefore(Arr(items), rest)) == Some(Parsed(Arr(items), rest))
    decreases items, 1
  {
    var inner := PrintItems(items, [CLOSE_LIST] + rest);
    Behind(OPEN_LIST, inner);
    Behind(CLOSE_LIST, rest);
    if items != [] {
      ItemsRoundTrip(items, rest);
      PrintStarts(items[0], if |items| == 1 then [CLOSE_LIST] + rest
                            else [COMMA] + PrintItems(items[1..], [CLOSE_LIST] + rest));
    }
  }

  lemma NoSpaceToSkip(s: Text)
    requires s != [] && !Space(s[0])
    ensures SkipSpace(s) == s
  {
  }

  /** Reading one item leaves the items after it, or the text behind the list, to be read. */
  lemma ReadsItem(text: Text, v: Value, after: Text)
    requires ParseValue(text) == Some(Parsed(v, after)) && after != [] && after[0] in [COMMA, CLOSE_LIST]
    ensures ParseItems(text)
         == if after[0] == CLOSE_LIST then Some(Parsed([v], after[1..]))
            else
              var more := ParseItems(after[1..]);
              if more.None? then None else Some(Parsed([v] + more.value.value, more.value.rest))
  {
    NoSpaceToSkip(after);
  }

  lemma {:induction false} ItemsRoundTrip(items: seq<Value>, rest: Text)
    requires items != [] && PlainItems(items)
    ensures ParseItems(PrintItems(items, [CLOSE_LIST] + rest)) == Some(Parsed(items, rest))
    decreases items, 0
  {
    var close := [CLOSE_LIST] + rest;
    Behind(CLOSE_LIST, rest);
    if |items| == 1 {
      ValueRoundTrip(items[0], close);
      ReadsItem(PrintItems(items, close), items[0], close);
      assert items == [items[0]];
    } else {
      var more := PrintItems(items[1..], close);
      Behind(COMMA, more);
      ValueRoundTrip(items[0], [COMMA] + more);
      ItemsRoundTrip(items[1..], rest);
      ReadsItem(PrintItems(items, close), items[0], [COMMA] + more);
      assert items == [items[0]] + items[1..];
    }
  }

  /** Members that can be read make an object that can be read. */
  lemma ReadsRecord(inner: Text, members: seq<Member>, rest: Text)
    requires inner != [] && inner[0] == QUOTE
    requires ParseMembers(inner, []) == Some(Parsed(members, rest))
    ensures ParseValue([OPEN_RECORD] + inner) == Some(Parsed(Obj(members), rest))
  {
    var s := [OPEN_RECORD] + inner;
    Behind(OPEN_RECORD, inner);
    NoSpaceToSkip(s);
    NoSpaceToSkip(inner);
  }

  lemma ReadsEmptyRecord(rest: Text)
    ensures ParseValue([OPEN_RECORD] + ([CLOSE_RECORD] + rest)) == Some(Parsed(Obj([]), rest))
  {
    var inner := [CLOSE_RECORD] + rest;
    Behind(OPEN_RECORD, inner);
    Behind(CLOSE_RECORD, rest);
    NoSpaceToSkip([OPEN_RECORD] + inner);
    NoSpaceToSkip(inner);
  }

  lemma {:induction false} RecordRoundTrip(members: seq<Member>, rest: Text)
    requires PlainMembers(members)
    ensures ParseValue(PrintBefore(Obj(members), rest)) == Some(Parsed(Obj(members), rest))
    decreases members, 1
  {
    if members == [] {
      ReadsEmptyRecord(rest);
    } else {
      var inner := PrintMembers(members, [CLOSE_RECORD] + rest);
      MembersRoundTrip(members, [], rest);
      assert [] + members == members;
      ReadsRecord(inner, members, rest);
    }
  }

  /** Reading one member leaves the text after it to be read. */
  lemma {:induction false} MemberRoundTrip(m: Member, before: seq<Member>, after: Text)
    requires PlainMembers(before) && Plain(m.value) && after != [] && after[0] in [COMMA, CLOSE_RECORD]
    ensures ParseMembers(Quote(m.name, [COLON] + PrintBefore(m.value, after)), before)
         == var members := Put(before, m);
            if after[0] == COMMA then ParseMembers(after[1..], members) else Some(Parsed(members, after[1..]))
    decreases m, 2
  {
    var value := PrintBefore(m.value, after);
    Behind(QUOTE, Escape(m.name, [QUOTE] + ([COLON] + value)));
    Behind(COLON, value);
    StringRoundTrip(m.name, [COLON] + value);
    ValueRoundTrip(m.value, after);
    assert SkipSpace(after) == after;
  }

  lemma {:induction false} MembersRoundTrip(members: seq<Member>, before: seq<Member>, rest: Text)
    requires members != [] && PlainMembers(members) && PlainMembers(before) && PlainMembers(before + members)
    ensures ParseMembers(PrintMembers(members, [CLOSE_RECORD] + rest), before) == Some(Parsed(before + members, rest))
    decreases members, 0
  {
    var m, tail := members[0], members[1..];
    assert (before + [m]) + tail == before + members;
    forall i | 0 <= i < |before|
      ensures before[i].name != m.name
    {
      assert (before + members)[i] == before[i] && (before + members)[|before|] == m;
    }
    if tail == [] {
      Behind(CLOSE_RECORD, rest);
      MemberRoundTrip(m, before, [CLOSE_RECORD] + rest);
      assert before + [m] == before + members;
    } else {
      var more := PrintMembers(tail, [CLOSE_RECORD] + rest);
      Behind(COMMA, more);
      MemberRoundTrip(m, before, [COMMA] + more);
      MembersRoundTrip(tail, before + [m], rest);
    }
  }

  lemma {:induction false} DenotedNames(members: seq<Member>)
    ensures forall name :: name in DenoteMembers(members)
                           <==> exists i :: 0 <= i < |members| && members[i].name == name && !members[i].value.Undefined?
  {
    if members != [] {
      DenotedNames(members[1..]);
      assert members == [members[0]] + members[1..];
    }
  }

  /** JSON.parse of the printed text gives back the value. */
  lemma ParseUndoesPrint(v: Value)
    requires Plain(v)
    ensures Parse(Print(v)) == Some(v)
  {
    ValueRoundTrip(v, []);
  }

  // ---------------------------------------------------------------------------------------------
  // Text behind a value
  // ---------------------------------------------------------------------------------------------

  predicate Blank(t: Text) { forall i :: 0 <= i < |t| ==> Space(t[i]) }

  lemma {:induction false} SkipsBlank(t: Text)
    ensures SkipSpace(t) == [] <==> Blank(t)
  {
    if t != [] {
      SkipsBlank(t[1..]);
      assert t == [t[0]] + t[1..];
    }
  }

  lemma {:induction false} EscapeAppend(t: Text, rest: Text, more: Text)
    ensures Escape(t, rest) + more == Escape(t, rest + more)
  {
    if t == [] {
    } else if |t| > 1 && High(t[0]) && Low(t[1]) {
      EscapeAppend(t[2..], rest, more);
    } else {
      EscapeAppend(t[1..], rest, more);
      assert EscapeUnit(t[0]) + Escape(t[1..], rest) + more == EscapeUnit(t[0]) + (Escape(t[1..], rest) + more);
    }
  }

  lemma QuoteAppend(t: Text, rest: Text, more: Text)
    ensures Quote(t, rest) + more == Quote(t, rest + more)
  {
    EscapeAppend(t, [QUOTE] + rest, more);
    assert [QUOTE] + rest + more == [QUOTE] + (rest + more);
  }

  lemma {:induction false} PrintAppend(v: Value, rest: Text, more: Text)
    requires Plain(v)
    ensures PrintBefore(v, rest) + more == PrintBefore(v, rest + more)
    decreases v, 0
  {
    match v
    case Atom(token) => assert token + rest + more == token + (rest + more);
    case Str(text) => QuoteAppend(text, rest, more);
    case Arr(items) =>
      PrintItemsAppend(items, [CLOSE_LIST] + rest, more);
      assert [CLOSE_LIST] + rest + more == [CLOSE_LIST] + (rest + more);
    case Obj(members) =>
      PrintMembersAppend(members, [CLOSE_RECORD] + rest, more);
      assert [CLOSE_RECORD] + rest + more == [CLOSE_RECORD] + (rest + more);
  }

  lemma {:induction false} PrintItemsAppend(items: seq<Value>, rest: Text, more: Text)
    requires PlainItems(items)
    ensures PrintItems(items, rest) + more == PrintItems(items, rest + more)
    decreases items, 1
  {
    if |items| == 1 {
      PrintAppend(items[0], rest, more);
    } else if items != [] {
      PrintItemsAppend(items[1..], rest, more);
      PrintAppend(items[0], [COMMA] + PrintItems(items[1..], rest), more);
      assert [COMMA] + PrintItems(items[1..], rest) + more == [COMMA] + (PrintItems(items[1..], rest) + more);
    }
  }

  lemma {:induction false} PrintMembersAppend(members: seq<Member>, rest: Text, more: Text)
    requires PlainMembers(members)
    ensures PrintMembers(members, rest) + more == PrintMembers(members, rest + more)
    decreases members, 1
  {
    if members != [] {
      var m := members[0];
      if |members| == 1 {
        MemberAppend(m, rest, more);
      } else {
        PrintMembersAppend(members[1..], rest, more);
        MemberAppend(m, [COMMA] + PrintMembers(members[1..], rest), more);
        assert [COMMA] + PrintMembers(members[1..], rest) + more == [COMMA] + (PrintMembers(members[1..], rest) + more);
      }
    }
  }

  lemma {:induction false} MemberAppend(m: Member, rest: Text, more: Text)
    requires Plain(m.value)
    ensures Quote(m.name, [COLON] + PrintBefore(m.value, rest)) + more == Quote(m.name, [COLON] + PrintBefore(m.value, rest + more))
    decreases m, 2
  {
    PrintAppend(m.value, rest, more);
    QuoteAppend(m.name, [COLON] + PrintBefore(m.value, rest), more);
    assert [COLON] + PrintBefore(m.value, rest) + more == [COLON] + (PrintBefore(m.value, rest) + more);
  }

  /** A printed string, list or object followed by a text is read exactly when that text is white space. */
  lemma TextBehindValue(v: Value, text: Text)
    requires Plain(v) && !v.Atom?
    ensures Parse(Print(v) + text) == if Blank(text) then Some(v) else None
  {
    PrintAppend(v, [], text);
    assert [] + text == text;
    SkipsBlank(text);
    PrintStarts(v, text);
    match v
    case Str(t) =>
      StringRoundTrip(t, text);
      Behind(QUOTE, Escape(t, [QUOTE] + text));
    case Arr(items) => ListRoundTrip(items, text);
    case Obj(members) => RecordRoundTrip(members, text);
  }

  // ---------------------------------------------------------------------------------------------
  // The printed text has no lone surrogates, so encoding it as UTF-8 loses nothing
  // ---------------------------------------------------------------------------------------------

  /** Every surrogate belongs to a pair. */
  predicate Paired(t: Text) {
    if t == [] then true
    else if High(t[0]) then |t| > 1 && Low(t[1]) && Paired(t[2..])
    else !Low(t[0]) && Paired(t[1..])
  }

  lemma {:induction false} NoSurrogatesBefore(prefix: Text, rest: Text)
    requires (forall i :: 0 <= i < |prefix| ==> !High(prefix[i]) && !Low(prefix[i])) && Paired(rest)
    ensures Paired(prefix + rest)
  {
    if prefix == [] {
      assert prefix + rest == rest;
    } else {
      NoSurrogatesBefore(prefix[1..], rest);
      assert (prefix + rest)[1..] == prefix[1..] + rest;
    }
  }

  lemma {:induction false} EscapedIsPaired(t: Text, rest: Text)
    requires Paired(rest)
    ensures Paired(Escape(t, rest))
  {
    if t == [] {
    } else if |t| > 1 && High(t[0]) && Low(t[1]) {
      var more := Escape(t[2..], rest);
      EscapedIsPaired(t[2..], rest);
      assert ([t[0]] + ([t[1]] + more))[2..] == more;
    } else {
      EscapedIsPaired(t[1..], rest);
      NoSurrogatesBefore(EscapeUnit(t[0]), Escape(t[1..], rest));
    }
  }

  lemma QuotedIsPaired(t: Text, rest: Text)
    requires Paired(rest)
    ensures Paired(Quote(t, rest))
  {
    NoSurrogatesBefore([QUOTE], rest);
    EscapedIsPaired(t, [QUOTE] + rest);
    NoSurrogatesBefore([QUOTE], Escape(t, [QUOTE] + rest));
  }

  lemma {:induction false} PrintedIsPaired(v: Value, rest: Text)
    requires Plain(v) && Paired(rest)
    ensures Paired(PrintBefore(v, rest))
  {
    match v
    case Atom(token) => NoSurrogatesBefore(token, rest);
    case Str(text) => QuotedIsPaired(text, rest);
    case Arr(items) =>
      NoSurrogatesBefore([CLOSE_LIST], rest);
      PrintedItemsArePaired(items, [CLOSE_LIST] + rest);
      NoSurrogatesBefore([OPEN_LIST], PrintItems(items, [CLOSE_LIST] + rest));
    case Obj(members) =>
      NoSurrogatesBefore([CLOSE_RECORD], rest);
      PrintedMembersArePaired(members, [CLOSE_RECORD] + rest);
      NoSurrogatesBefore([OPEN_RECORD], PrintMembers(members, [CLOSE_RECORD] + rest));
  }

  lemma {:induction false} PrintedItemsArePaired(items: seq<Value>, rest: Text)
    requires PlainItems(items) && Paired(rest)
    ensures Paired(PrintItems(items, rest))
  {
    if |items| == 1 {
      PrintedIsPaired(items[0], rest);
    } else if items != [] {
      var more := PrintItems(items[1..], rest);
      PrintedItemsArePaired(items[1..], rest);
      NoSurrogatesBefore([COMMA], more);
      PrintedIsPaired(items[0], [COMMA] + more);
    }
  }

  lemma {:induction false} PrintedMembersArePaired(members: seq<Member>, rest: Text)
    requires PlainMembers(members) && Paired(rest)
    ensures Paired(PrintMembers(members, rest))
  {
    if members != [] {
      var more := PrintMembers(members[1..], rest);
      PrintedMembersArePaired(members[1..], rest);
      NoSurrogatesBefore([COMMA], more);
      var after := if |members| == 1 then rest else [COMMA] + more;
      PrintedIsPaired(members[0].value, after);
      NoSurrogatesBefore([COLON], PrintBefore(members[0].value, after));
      QuotedIsPaired(members[0].name, [COLON] + PrintBefore(members[0].value, after));
    }
  }
}
