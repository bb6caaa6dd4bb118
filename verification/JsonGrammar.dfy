/**
 The JSON grammar (RFC 8259) as trees of what is written, and the parser against it.

 A text is parsed exactly when it is the writing of such a tree with white space around it, and the value is the one the
 tree says; of members with one name the last one counts, in the place of the first.
 */
module JsonGrammar {
  import opened Wrappers
  import opened Json

  // ---------------------------------------------------------------------------------------------
  // The grammar
  // ---------------------------------------------------------------------------------------------

  /** A code unit of a string, and how it is spelled. */
  datatype Unit = Unit(spelled: Text, unit: CodeUnit)

  datatype Doc =
    | Literal(token: Text)
    | Quoted(units: seq<Unit>)
    | Listing(blank: Text, items: seq<Item>)
    | Grouping(blank: Text, fields: seq<Field>)

  datatype Item = Item(before: Text, doc: Doc, after: Text)

  datatype Field = Field(before: Text, name: seq<Unit>, afterName: Text, beforeValue: Text, doc: Doc, after: Text)

  predicate IsHex(c: CodeUnit, n: int) {
    (0 <= n < 10 && c == 0x30 + n) || (10 <= n < 16 && (c == 0x61 + n - 10 || c == 0x41 + n - 10))
  }

  /** Section 7: the letter after the backslash, and the unit it stands for. */
  predicate IsEscape(letter: CodeUnit, unit: CodeUnit) {
    || (letter == unit && letter in [QUOTE, BACKSLASH, 0x2F])
    || (letter, unit) in {(0x62, 0x08), (0x66, 0x0C), (0x6E, 0x0A), (0x72, 0x0D), (0x74, 0x09)}
  }

  ghost predicate UnitOk(u: Unit) {
    || (u.spelled == [u.unit] && u.unit >= 0x20 && u.unit != QUOTE && u.unit != BACKSLASH)
    || (|u.spelled| == 2 && u.spelled[0] == BACKSLASH && IsEscape(u.spelled[1], u.unit))
    || (&& |u.spelled| == 6 && u.spelled[0] == BACKSLASH && u.spelled[1] == 0x75
        && exists a, b, c, d ::
             && IsHex(u.spelled[2], a) && IsHex(u.spelled[3], b) && IsHex(u.spelled[4], c) && IsHex(u.spelled[5], d)
             && u.unit == ((a * 16 + b) * 16 + c) * 16 + d)
  }

  ghost predicate UnitsOk(units: seq<Unit>) { forall i :: 0 <= i < |units| ==> UnitOk(units[i]) }

  predicate AllDigits(t: Text) { forall i :: 0 <= i < |t| ==> 0x30 <= t[i] <= 0x39 }

  /** Section 6. */
  ghost predicate IsNumber(t: Text) {
    exists minus: Text, whole: Text, fraction: Text, exponent: Text ::
      t == minus + whole + fraction + exponent && NumberParts(minus, whole, fraction, exponent)
  }

  predicate NumberParts(minus: Text, whole: Text, fraction: Text, exponent: Text) {
    && (minus == [] || minus == [0x2D])
    && whole != [] && AllDigits(whole) && (whole[0] == 0x30 ==> |whole| == 1)
    && (fraction == [] || (fraction[0] == 0x2E && |fraction| > 1 && AllDigits(fraction[1..])))
    && (exponent == []
        || (exponent[0] in [0x65, 0x45]
            && ((|exponent| > 1 && AllDigits(exponent[1..]))
                || (|exponent| > 2 && exponent[1] in [0x2B, 0x2D] && AllDigits(exponent[2..])))))
  }

  /** Section 3. */
  ghost predicate IsToken(t: Text) { t == Ascii("true") || t == Ascii("false") || t == Ascii("null") || IsNumber(t) }

  ghost predicate Legal(d: Doc) {
    match d
    case Literal(token) => IsToken(token)
    case Quoted(units) => UnitsOk(units)
    case Listing(blank, items) => Blank(blank) && LegalItems(items)
    case Grouping(blank, fields) => Blank(blank) && LegalFields(fields)
  }

  ghost predicate LegalItem(item: Item) { Blank(item.before) && Legal(item.doc) && Blank(item.after) }

  ghost predicate LegalItems(items: seq<Item>) { forall i :: 0 <= i < |items| ==> LegalItem(items[i]) }

  ghost predicate LegalField(f: Field) {
    && Blank(f.before) && UnitsOk(f.name) && Blank(f.afterName) && Blank(f.beforeValue) && Legal(f.doc) && Blank(f.after)
  }

  ghost predicate LegalFields(fields: seq<Field>) { forall i :: 0 <= i < |fields| ==> LegalField(fields[i]) }

  // Each writer puts its text in front of `rest`.

  function WriteUnits(units: seq<Unit>, rest: Text): Text {
    if units == [] then rest else units[0].spelled + WriteUnits(units[1..], rest)
  }

  function WriteString(units: seq<Unit>, rest: Text): Text { [QUOTE] + WriteUnits(units, [QUOTE] + rest) }

  function Write(d: Doc, rest: Text): Text {
    match d
    case Literal(token) => token + rest
    case Quoted(units) => WriteString(units, rest)
    case Listing(blank, items) => [OPEN_LIST] + (blank + WriteItems(items, [CLOSE_LIST] + rest))
    case Grouping(blank, fields) => [OPEN_RECORD] + (blank + WriteFields(fields, [CLOSE_RECORD] + rest))
  }

  function WriteItem(item: Item, more: Text): Text { item.before + Write(item.doc, item.after + more) }

  function WriteItems(items: seq<Item>, rest: Text): Text {
    if items == [] then rest
    else WriteItem(items[0], if |items| == 1 then rest else [COMMA] + WriteItems(items[1..], rest))
  }

  function WriteField(f: Field, more: Text): Text {
    f.before + WriteString(f.name, f.afterName + ([COLON] + (f.beforeValue + Write(f.doc, f.after + more))))
  }

  function WriteFields(fields: seq<Field>, rest: Text): Text {
    if fields == [] then rest
    else WriteField(fields[0], if |fields| == 1 then rest else [COMMA] + WriteFields(fields[1..], rest))
  }

  function Units(units: seq<Unit>): (t: Text)
    ensures |t| == |units|
  {
    if units == [] then [] else [units[0].unit] + Units(units[1..])
  }

  /** What is written. */
  ghost function Says(d: Doc): (v: Value)
    requires Legal(d)
    ensures Plain(v)
  {
    match d
    case Literal(token) =>
      TokenIsValid(token);
      Atom(token)
    case Quoted(units) => Str(Units(units))
    case Listing(_, items) => Arr(SaysItems(items))
    case Grouping(_, fields) => Obj(SaysFields([], fields))
  }

  ghost function SaysItems(items: seq<Item>): (r: seq<Value>)
    requires LegalItems(items)
    ensures PlainItems(r)
  {
    if items == [] then [] else
      assert LegalItem(items[0]);
      [Says(items[0].doc)] + SaysItems(items[1..])
  }

  ghost function SaysFields(before: seq<Member>, fields: seq<Field>): (r: seq<Member>)
    requires PlainMembers(before) && LegalFields(fields)
    ensures PlainMembers(r)
    decreases fields
  {
    if fields == [] then before else
      assert LegalField(fields[0]);
      SaysFields(Put(before, Member(Units(fields[0].name), Says(fields[0].doc))), fields[1..])
  }

  /** Of members with one name the last one counts. */
  lemma {:induction false} LastMemberCounts(members: seq<Member>, m: Member, name: Text)
    requires PlainMembers(members) && Plain(m.value)
    ensures Lookup(Put(members, m), name) == if name == m.name then Some(m.value) else Lookup(members, name)
  {
    if members != [] && members[0].name != m.name {
      LastMemberCounts(members[1..], m, name);
    }
  }

  // ---------------------------------------------------------------------------------------------
  // Numbers
  // ---------------------------------------------------------------------------------------------

  lemma {:induction false} DigitsOfPrefix(s: Text)
    ensures AllDigits(s[..Digits(s)])
    ensures Digits(s) < |s| ==> !Digit(s[Digits(s)])
  {
    if s != [] && Digit(s[0]) {
      DigitsOfPrefix(s[1..]);
      assert s[..Digits(s)] == [s[0]] + s[1..][..Digits(s[1..])];
    }
  }

  lemma {:induction false} DigitsThen(t: Text, rest: Text)
    requires AllDigits(t) && (rest == [] || !Digit(rest[0]))
    ensures Digits(t + rest) == |t|
  {
    if t == [] {
      assert t + rest == rest;
    } else {
      DigitsThen(t[1..], rest);
      assert (t + rest)[1..] == t[1..] + rest;
    }
  }

  lemma ExponentIs(s: Text)
    ensures Exponent(s) <==> NumberParts([], [0x30], [], s)
  {
    if s != [] && s[0] in [0x65, 0x45] {
      var signed := |s| > 1 && s[1] in [0x2B, 0x2D];
      var rest := if signed then s[2..] else s[1..];
      DigitsOfPrefix(rest);
      if Digits(rest) == |rest| {
        assert rest[..|rest|] == rest;
      }
      if AllDigits(rest) {
        DigitsThen(rest, []);
        assert rest + [] == rest;
      }
    }
  }

  lemma {:induction false} AllNumberUnits(t: Text)
    requires forall i :: 0 <= i < |t| ==> NumberUnit(t[i])
    ensures NumberUnits(t) == |t|
  {
    if t != [] {
      AllNumberUnits(t[1..]);
    }
  }

  /** What follows the whole part of a number. */
  lemma FractionIs(fraction: Text, exponent: Text)
    requires NumberParts([], [0x30], fraction, exponent)
    ensures Fraction(fraction + exponent) && (fraction + exponent == [] || !Digit((fraction + exponent)[0]))
  {
    ExponentIs(exponent);
    var s := fraction + exponent;
    if fraction == [] {
      assert s == exponent;
    } else {
      assert s[1..] == fraction[1..] + exponent;
      DigitsThen(fraction[1..], exponent);
      assert s[1..][|fraction| - 1..] == exponent;
    }
  }

  lemma WholeIsValid(whole: Text, rest: Text)
    requires NumberParts([], whole, [], []) && Fraction(rest) && (rest == [] || !Digit(rest[0]))
    ensures whole + rest != [] && Digit((whole + rest)[0])
    ensures Digits(whole + rest) == |whole| && (whole + rest)[|whole|..] == rest && Number(whole + rest)
  {
    DigitsThen(whole, rest);
  }

  lemma NumberIsValid(minus: Text, whole: Text, fraction: Text, exponent: Text)
    requires NumberParts(minus, whole, fraction, exponent)
    ensures Number(minus + whole + fraction + exponent)
  {
    var unsigned := whole + (fraction + exponent);
    FractionIs(fraction, exponent);
    WholeIsValid(whole, fraction + exponent);
    Regrouped(minus, whole, fraction, exponent);
    if minus == [] {
      assert minus + unsigned == unsigned;
    } else {
      assert (minus + unsigned)[1..] == unsigned;
    }
  }

  lemma NumberUnitsOnly(minus: Text, whole: Text, fraction: Text, exponent: Text)
    requires NumberParts(minus, whole, fraction, exponent)
    ensures NumberUnits(minus + whole + fraction + exponent) == |minus + whole + fraction + exponent|
  {
    UnitsOfParts(fraction, exponent);
    AllNumberUnits(minus + whole + fraction + exponent);
  }

  lemma UnitsOfParts(fraction: Text, exponent: Text)
    requires NumberParts([], [0x30], fraction, exponent)
    ensures forall i :: 0 <= i < |fraction| ==> NumberUnit(fraction[i])
    ensures forall i :: 0 <= i < |exponent| ==> NumberUnit(exponent[i])
  {
    forall i | 0 <= i < |fraction|
      ensures NumberUnit(fraction[i])
    {
      if i > 0 {
        assert fraction[i] == fraction[1..][i - 1];
      }
    }
    forall i | 0 <= i < |exponent|
      ensures NumberUnit(exponent[i])
    {
      if i > 1 {
        assert exponent[i] == exponent[1..][i - 1] == exponent[2..][i - 2];
      } else if i == 1 {
        assert exponent[1] == exponent[1..][0];
      }
    }
  }

  lemma SpelledTokens()
    ensures TRUE == Ascii("true") && FALSE == Ascii("false") && NULL == Ascii("null")
  {
  }

  lemma TokenIsValid(t: Text)
    requires IsToken(t)
    ensures ValidToken(t)
  {
    SpelledTokens();
    if IsNumber(t) {
      var minus: Text, whole: Text, fraction: Text, exponent: Text :|
        t == minus + whole + fraction + exponent && NumberParts(minus, whole, fraction, exponent);
      NumberIsValid(minus, whole, fraction, exponent);
      NumberUnitsOnly(minus, whole, fraction, exponent);
    }
  }

  /** What follows the whole part of a number the parser accepts. */
  lemma FractionHasParts(s: Text) returns (fraction: Text, exponent: Text)
    requires Fraction(s)
    ensures s == fraction + exponent && NumberParts([], [0x30], fraction, exponent)
  {
    if s != [] && s[0] == 0x2E {
      var n := Digits(s[1..]);
      DigitsOfPrefix(s[1..]);
      fraction, exponent := s[..n + 1], s[1..][n..];
      assert fraction[1..] == s[1..][..n];
      ExponentIs(exponent);
    } else {
      fraction, exponent := [], s;
      ExponentIs(s);
    }
  }

  lemma WholeHasParts(unsigned: Text) returns (whole: Text, fraction: Text, exponent: Text)
    requires Digits(unsigned) > 0 && (unsigned[0] == 0x30 ==> Digits(unsigned) == 1) && Fraction(unsigned[Digits(unsigned)..])
    ensures unsigned == whole + (fraction + exponent) && NumberParts([], whole, fraction, exponent)
  {
    var n := Digits(unsigned);
    DigitsOfPrefix(unsigned);
    whole := unsigned[..n];
    fraction, exponent := FractionHasParts(unsigned[n..]);
  }

  lemma NumberHasParts(t: Text)
    requires Number(t)
    ensures IsNumber(t)
  {
    var minus: Text := if t[0] == MINUS then [0x2D] else [];
    var whole, fraction, exponent := WholeHasParts(t[|minus|..]);
    assert t == minus + t[|minus|..];
    Regrouped(minus, whole, fraction, exponent);
    assert NumberParts(minus, whole, fraction, exponent);
  }

  lemma Regrouped(a: Text, b: Text, c: Text, d: Text)
    ensures a + (b + (c + d)) == a + b + c + d
  {
  }

  lemma ValidIsToken(t: Text)
    requires ValidToken(t)
    ensures IsToken(t)
  {
    SpelledTokens();
    if t !in [TRUE, FALSE, NULL] {
      NumberHasParts(t);
    }
  }

  // ---------------------------------------------------------------------------------------------
  // White space
  // ---------------------------------------------------------------------------------------------

  lemma {:induction false} SkipsOver(blank: Text, s: Text)
    requires Blank(blank)
    ensures SkipSpace(blank + s) == SkipSpace(s)
  {
    if blank == [] {
      assert blank + s == s;
    } else {
      assert (blank + s)[1..] == blank[1..] + s && (blank + s)[0] == blank[0];
      SkipsOver(blank[1..], s);
    }
  }

  lemma {:induction false} SpaceBefore(s: Text) returns (blank: Text)
    ensures Blank(blank) && s == blank + SkipSpace(s)
    ensures SkipSpace(s) == [] || !Space(SkipSpace(s)[0])
  {
    if s != [] && Space(s[0]) {
      var rest := SpaceBefore(s[1..]);
      blank := [s[0]] + rest;
      assert s == [s[0]] + s[1..] == blank + SkipSpace(s[1..]);
      assert forall i :: 0 < i < |blank| ==> blank[i] == rest[i - 1];
    } else {
      blank := [];
    }
  }

  /** The parser of values looks behind leading white space only. */
  lemma SpaceIsIgnored(text: Text, other: Text)
    requires SkipSpace(text) == SkipSpace(other)
    ensures ParseValue(text) == ParseValue(other)
  {
  }

  // ---------------------------------------------------------------------------------------------
  // Strings
  // ---------------------------------------------------------------------------------------------

  lemma HexIs(c: CodeUnit, n: int)
    ensures IsHex(c, n) <==> HexValue(c) == Some(n)
  {
  }

  lemma EscapeIs(letter: CodeUnit, unit: CodeUnit)
    ensures IsEscape(letter, unit) <==> Unescape(letter) == Some(unit)
  {
  }

  lemma UnitIsRead(u: Unit, more: Text)
    requires UnitOk(u)
    ensures u.spelled != [] && u.spelled[0] != QUOTE && ParseUnit(u.spelled + more) == Some(Parsed(u.unit, more))
  {
    var s := u.spelled + more;
    if |u.spelled| == 1 {
      assert s[1..] == more;
    } else if |u.spelled| == 2 {
      EscapeIs(u.spelled[1], u.unit);
      assert s[2..] == more;
    } else {
      var a, b, c, d :| IsHex(u.spelled[2], a) && IsHex(u.spelled[3], b) && IsHex(u.spelled[4], c) && IsHex(u.spelled[5], d)
                        && u.unit == ((a * 16 + b) * 16 + c) * 16 + d;
      HexIs(u.spelled[2], a);
      HexIs(u.spelled[3], b);
      HexIs(u.spelled[4], c);
      HexIs(u.spelled[5], d);
      assert s[2..6] == u.spelled[2..6] && s[6..] == more;
    }
  }

  lemma UnitWasWritten(s: Text) returns (u: Unit)
    requires s != [] && ParseUnit(s).Some?
    ensures UnitOk(u) && u.unit == ParseUnit(s).value.value && s == u.spelled + ParseUnit(s).value.rest
  {
    var r := ParseUnit(s).value;
    if s[0] != BACKSLASH {
      u := Unit([s[0]], r.value);
    } else if s[1] != 0x75 {
      u := Unit(s[..2], r.value);
      EscapeIs(s[1], r.value);
    } else {
      u := Unit(s[..6], r.value);
      var hex := s[2..6];
      var a, b, c, d := HexValue(hex[0]).value, HexValue(hex[1]).value, HexValue(hex[2]).value, HexValue(hex[3]).value;
      HexIs(hex[0], a);
      HexIs(hex[1], b);
      HexIs(hex[2], c);
      HexIs(hex[3], d);
      assert IsHex(u.spelled[2], a) && IsHex(u.spelled[3], b) && IsHex(u.spelled[4], c) && IsHex(u.spelled[5], d);
    }
  }

  lemma {:induction false} UnitsAreRead(units: seq<Unit>, rest: Text)
    requires UnitsOk(units)
    ensures ParseString(WriteUnits(units, [QUOTE] + rest)) == Some(Parsed(Units(units), rest))
  {
    if units == [] {
      Behind(QUOTE, rest);
    } else {
      var more := WriteUnits(units[1..], [QUOTE] + rest);
      UnitsAreRead(units[1..], rest);
      UnitIsRead(units[0], more);
      ParseStringStep(units[0].unit, Units(units[1..]), units[0].spelled + more, more, rest);
    }
  }

  lemma {:induction false} StringWasWritten(s: Text) returns (units: seq<Unit>)
    requires ParseString(s).Some?
    ensures UnitsOk(units) && Units(units) == ParseString(s).value.value
    ensures s == WriteUnits(units, [QUOTE] + ParseString(s).value.rest)
    decreases |s|
  {
    if s[0] == QUOTE {
      units := [];
      assert s == [QUOTE] + s[1..];
    } else {
      var u := UnitWasWritten(s);
      var more := StringWasWritten(ParseUnit(s).value.rest);
      units := [u] + more;
      assert units[1..] == more;
    }
  }

  // ---------------------------------------------------------------------------------------------
  // What is written is read
  // ---------------------------------------------------------------------------------------------

  /** A number may only be followed by what is no part of one. */
  predicate Ends(d: Doc, rest: Text) { d.Literal? ==> rest == [] || !NumberUnit(rest[0]) }

  predicate Stops(rest: Text) { rest == [] || !NumberUnit(rest[0]) }

  lemma StopsBehindBlank(blank: Text, c: CodeUnit, rest: Text)
    requires Blank(blank) && c in [COMMA, CLOSE_LIST, CLOSE_RECORD, COLON]
    ensures Stops(blank + ([c] + rest)) && SkipSpace(blank + ([c] + rest)) == [c] + rest
  {
    SkipsOver(blank, [c] + rest);
    Behind(c, rest);
    assert blank + ([c] + rest) != [];
  }

  lemma {:induction false} NumberEnds(t: Text, rest: Text)
    requires NumberUnits(t) == |t| && Stops(rest)
    ensures NumberUnits(t + rest) == |t|
  {
    if t == [] {
      assert t + rest == rest;
    } else {
      NumberEnds(t[1..], rest);
      assert (t + rest)[1..] == t[1..] + rest;
    }
  }

  lemma LiteralIsRead(t: Text, rest: Text)
    requires IsToken(t) && Stops(rest)
    ensures t != [] && t[0] !in [QUOTE, OPEN_LIST, OPEN_RECORD, CLOSE_LIST, CLOSE_RECORD] && !Space(t[0])
    ensures ParseToken(t + rest) == Some(Parsed(Atom(t), rest))
  {
    TokenIsValid(t);
    var s := t + rest;
    assert s[..|t|] == t && s[|t|..] == rest;
    if t in [TRUE, FALSE, NULL] {
      assert t <= s && s[0] == t[0];
    } else {
      NumberEnds(t, rest);
      assert NumberUnit(t[0]) && s[0] == t[0];
    }
  }

  /** What is written starts with neither white space nor a closing bracket. */
  lemma WritingStarts(d: Doc, rest: Text)
    requires Legal(d)
    ensures var s := Write(d, rest); s != [] && !Space(s[0]) && s[0] !in [CLOSE_LIST, CLOSE_RECORD] && SkipSpace(s) == s
  {
    if d.Literal? {
      LiteralIsRead(d.token, []);
    }
  }

  lemma {:induction false} DocIsRead(text: Text, d: Doc, rest: Text)
    requires Legal(d) && SkipSpace(text) == Write(d, rest) && Ends(d, rest)
    ensures ParseValue(text) == Some(Parsed(Says(d), rest))
    decreases d, 0
  {
    WritingStarts(d, rest);
    match d
    case Literal(token) =>
      LiteralIsRead(token, rest);
      assert (token + rest)[0] == token[0];
    case Quoted(units) =>
      UnitsAreRead(units, rest);
      Behind(QUOTE, WriteUnits(units, [QUOTE] + rest));
    case Listing(blank, items) => ListingIsRead(text, blank, items, rest);
    case Grouping(blank, fields) => GroupingIsRead(text, blank, fields, rest);
  }

  lemma {:induction false} ListingIsRead(text: Text, blank: Text, items: seq<Item>, rest: Text)
    requires Blank(blank) && LegalItems(items) && SkipSpace(text) == Write(Listing(blank, items), rest)
    ensures ParseValue(text) == Some(Parsed(Arr(SaysItems(items)), rest))
    decreases items, 1
  {
    var close := [CLOSE_LIST] + rest;
    var inner := WriteItems(items, close);
    Behind(OPEN_LIST, blank + inner);
    Behind(CLOSE_LIST, rest);
    SkipsOver(blank, inner);
    if items == [] {
      assert SkipSpace(close) == close;
    } else {
      ItemsStart(items, close);
      ItemsAreRead(SkipSpace(inner), items, rest);
    }
  }

  lemma ItemsStart(items: seq<Item>, close: Text)
    requires items != [] && LegalItems(items)
    ensures var s := SkipSpace(WriteItems(items, close)); s != [] && s[0] != CLOSE_LIST && SkipSpace(s) == s
  {
    var more := if |items| == 1 then close else [COMMA] + WriteItems(items[1..], close);
    SkipsOver(items[0].before, Write(items[0].doc, items[0].after + more));
    WritingStarts(items[0].doc, items[0].after + more);
  }

  lemma {:induction false} ItemsAreRead(text: Text, items: seq<Item>, rest: Text)
    requires items != [] && LegalItems(items) && SkipSpace(text) == SkipSpace(WriteItems(items, [CLOSE_LIST] + rest))
    ensures ParseItems(text) == Some(Parsed(SaysItems(items), rest))
    decreases items, 0
  {
    var close := [CLOSE_LIST] + rest;
    if |items| == 1 {
      assert WriteItems(items, close) == WriteItem(items[0], close);
      ItemIsRead(text, items[0], CLOSE_LIST, rest);
      assert items[1..] == [] && SaysItems(items) == [Says(items[0].doc)];
    } else {
      var others := WriteItems(items[1..], close);
      assert WriteItems(items, close) == WriteItem(items[0], [COMMA] + others);
      ItemIsRead(text, items[0], COMMA, others);
      ItemsAreRead(others, items[1..], rest);
    }
  }

  /** Reading one item leaves what is behind it. */
  lemma {:induction false} ItemIsRead(text: Text, item: Item, c: CodeUnit, rest: Text)
    requires LegalItem(item) && c in [COMMA, CLOSE_LIST]
    requires SkipSpace(text) == SkipSpace(WriteItem(item, [c] + rest))
    ensures ParseItems(text)
         == if c == CLOSE_LIST then Some(Parsed([Says(item.doc)], rest))
            else
              var more := ParseItems(rest);
              if more.None? then None else Some(Parsed([Says(item.doc)] + more.value.value, more.value.rest))
    decreases item, 2
  {
    var after := item.after + ([c] + rest);
    SkipsOver(item.before, Write(item.doc, after));
    WritingStarts(item.doc, after);
    StopsBehindBlank(item.after, c, rest);
    DocIsRead(text, item.doc, after);
    ReadsSpacedItem(text, Says(item.doc), after, [c] + rest);
    Behind(c, rest);
  }

  /** Reading one item and the white space behind it. */
  lemma ReadsSpacedItem(text: Text, v: Value, after: Text, s: Text)
    requires ParseValue(text) == Some(Parsed(v, after)) && SkipSpace(after) == s
    requires s != [] && s[0] in [COMMA, CLOSE_LIST]
    ensures ParseItems(text)
         == if s[0] == CLOSE_LIST then Some(Parsed([v], s[1..]))
            else
              var more := ParseItems(s[1..]);
              if more.None? then None else Some(Parsed([v] + more.value.value, more.value.rest))
  {
  }

  lemma {:induction false} GroupingIsRead(text: Text, blank: Text, fields: seq<Field>, rest: Text)
    requires Blank(blank) && LegalFields(fields) && SkipSpace(text) == Write(Grouping(blank, fields), rest)
    ensures ParseValue(text) == Some(Parsed(Obj(SaysFields([], fields)), rest))
    decreases fields, 1
  {
    var close := [CLOSE_RECORD] + rest;
    var inner := WriteFields(fields, close);
    SkipsOver(blank, inner);
    if fields == [] {
      ReadsEmptyGrouping(text, blank + inner, rest);
    } else {
      assert SkipSpace(text) == [OPEN_RECORD] + (blank + inner);
      FieldsStart(fields, close);
      FieldsAreRead(SkipSpace(inner), [], fields, rest);
      ReadsGrouping(text, SkipSpace(inner), SaysFields([], fields), blank + inner, rest);
    }
  }

  lemma ReadsEmptyGrouping(text: Text, spaced: Text, rest: Text)
    requires SkipSpace(text) == [OPEN_RECORD] + spaced && SkipSpace(spaced) == SkipSpace([CLOSE_RECORD] + rest)
    ensures ParseValue(text) == Some(Parsed(Obj([]), rest))
  {
    Behind(OPEN_RECORD, spaced);
    Behind(CLOSE_RECORD, rest);
    NoSpaceToSkip([CLOSE_RECORD] + rest);
  }

  /** Fields that are read make a group that is read. */
  lemma ReadsGrouping(text: Text, inner: Text, members: seq<Member>, spaced: Text, rest: Text)
    requires SkipSpace(text) == [OPEN_RECORD] + spaced && SkipSpace(spaced) == inner && inner != [] && inner[0] == QUOTE
    requires ParseMembers(inner, []) == Some(Parsed(members, rest))
    ensures ParseValue(text) == Some(Parsed(Obj(members), rest))
  {
    Behind(OPEN_RECORD, spaced);
  }

  lemma FieldsStart(fields: seq<Field>, close: Text)
    requires fields != [] && LegalFields(fields)
    ensures var s := SkipSpace(WriteFields(fields, close)); s != [] && s[0] == QUOTE && SkipSpace(s) == s
  {
    var f := fields[0];
    var more := if |fields| == 1 then close else [COMMA] + WriteFields(fields[1..], close);
    var tail := f.afterName + ([COLON] + (f.beforeValue + Write(f.doc, f.after + more)));
    SkipsOver(f.before, WriteString(f.name, tail));
    Behind(QUOTE, WriteUnits(f.name, [QUOTE] + tail));
  }

  lemma {:induction false} FieldsAreRead(text: Text, before: seq<Member>, fields: seq<Field>, rest: Text)
    requires fields != [] && LegalFields(fields) && PlainMembers(before)
    requires SkipSpace(text) == SkipSpace(WriteFields(fields, [CLOSE_RECORD] + rest))
    ensures ParseMembers(text, before) == Some(Parsed(SaysFields(before, fields), rest))
    decreases fields, 0
  {
    var close, f := [CLOSE_RECORD] + rest, fields[0];
    var members := Put(before, Member(Units(f.name), Says(f.doc)));
    if |fields| == 1 {
      FieldIsRead(text, before, f, CLOSE_RECORD, rest);
      assert WriteFields(fields, close) == WriteField(f, close);
      assert fields[1..] == [] && SaysFields(members, []) == members;
    } else {
      var others := WriteFields(fields[1..], close);
      assert WriteFields(fields, close) == WriteField(f, [COMMA] + others);
      FieldIsRead(text, before, f, COMMA, others);
      FieldsAreRead(others, members, fields[1..], rest);
    }
  }

  /** Reading one field leaves what is behind it. */
  lemma {:induction false} FieldIsRead(text: Text, before: seq<Member>, f: Field, c: CodeUnit, rest: Text)
    requires LegalField(f) && PlainMembers(before) && c in [COMMA, CLOSE_RECORD]
    requires SkipSpace(text) == SkipSpace(WriteField(f, [c] + rest))
    ensures ParseMembers(text, before)
         == var members := Put(before, Member(Units(f.name), Says(f.doc)));
            if c == COMMA then ParseMembers(rest, members) else Some(Parsed(members, rest))
    decreases f, 2
  {
    var value := f.beforeValue + Write(f.doc, f.after + ([c] + rest));
    var tail := f.afterName + ([COLON] + value);
    SkipsOver(f.before, WriteString(f.name, tail));
    Behind(QUOTE, WriteUnits(f.name, [QUOTE] + tail));
    NoSpaceToSkip(WriteString(f.name, tail));
    UnitsAreRead(f.name, tail);
    StopsBehindBlank(f.afterName, COLON, value);
    Behind(COLON, value);
    SkipsOver(f.beforeValue, Write(f.doc, f.after + ([c] + rest)));
    WritingStarts(f.doc, f.after + ([c] + rest));
    StopsBehindBlank(f.after, c, rest);
    DocIsRead(value, f.doc, f.after + ([c] + rest));
    Behind(c, rest);
  }

  // ---------------------------------------------------------------------------------------------
  // What is read was written
  // ---------------------------------------------------------------------------------------------

  lemma FirstThenRest(t: Text)
    requires t != []
    ensures t == [t[0]] + t[1..]
  {
  }

  lemma TokenWasWritten(s: Text)
    requires ParseToken(s).Some?
    ensures IsToken(ParseToken(s).value.value.token) && s == ParseToken(s).value.value.token + ParseToken(s).value.rest
  {
    var t := ParseToken(s).value.value.token;
    ValidIsToken(t);
    assert s[..|t|] == t && s[|t|..] == ParseToken(s).value.rest;
  }

  lemma {:induction false} DocWasWritten(text: Text) returns (before: Text, d: Doc)
    requires ParseValue(text).Some?
    ensures Blank(before) && Legal(d) && Says(d) == ParseValue(text).value.value
    ensures text == before + Write(d, ParseValue(text).value.rest)
    decreases |text|, 3
  {
    before := SpaceBefore(text);
    var s, rest := SkipSpace(text), ParseValue(text).value.rest;
    if s[0] == QUOTE {
      var units := StringWasWritten(s[1..]);
      d := Quoted(units);
      assert s == [QUOTE] + s[1..];
    } else if s[0] == OPEN_LIST {
      d := ListingWasWritten(s);
      NoSpaceToSkip(s);
      SpaceIsIgnored(text, s);
    } else if s[0] == OPEN_RECORD {
      d := GroupingWasWritten(s);
      NoSpaceToSkip(s);
      SpaceIsIgnored(text, s);
    } else {
      TokenWasWritten(s);
      d := Literal(ParseToken(s).value.value.token);
    }
  }

  lemma {:induction false} ListingWasWritten(s: Text) returns (d: Doc)
    requires s != [] && s[0] == OPEN_LIST && ParseValue(s).Some?
    ensures Legal(d) && Says(d) == ParseValue(s).value.value && s == Write(d, ParseValue(s).value.rest)
    decreases |s|, 1
  {
    var inner, rest := SkipSpace(s[1..]), ParseValue(s).value.rest;
    var blank := SpaceBefore(s[1..]);
    assert s == [OPEN_LIST] + s[1..];
    if inner != [] && inner[0] == CLOSE_LIST {
      d := Listing(blank, []);
      assert inner == [CLOSE_LIST] + rest;
    } else {
      var items := ItemsWereWritten(inner);
      d := Listing(blank, items);
    }
  }

  lemma OneMoreItem(item: Item, more: seq<Item>, rest: Text)
    requires LegalItem(item) && LegalItems(more)
    ensures LegalItems([item] + more) && SaysItems([item] + more) == [Says(item.doc)] + SaysItems(more)
    ensures WriteItems([item] + more, rest) == WriteItem(item, if more == [] then rest else [COMMA] + WriteItems(more, rest))
  {
    assert ([item] + more)[1..] == more;
  }

  lemma {:induction false} ItemsWereWritten(text: Text) returns (items: seq<Item>)
    requires ParseItems(text).Some?
    ensures items != [] && LegalItems(items) && SaysItems(items) == ParseItems(text).value.value
    ensures text == WriteItems(items, [CLOSE_LIST] + ParseItems(text).value.rest)
    decreases |text|, 5
  {
    var before, doc := DocWasWritten(text);
    var first := ParseValue(text).value;
    var after := SpaceBefore(first.rest);
    var s := SkipSpace(first.rest);
    ReadsSpacedItem(text, first.value, first.rest, s);
    var item, more := Item(before, doc, after), [];
    FirstThenRest(s);
    if s[0] != CLOSE_LIST {
      more := ItemsWereWritten(s[1..]);
    }
    items := [item] + more;
    OneMoreItem(item, more, [CLOSE_LIST] + ParseItems(text).value.rest);
  }

  lemma {:induction false} GroupingWasWritten(s: Text) returns (d: Doc)
    requires s != [] && s[0] == OPEN_RECORD && ParseValue(s).Some?
    ensures Legal(d) && Says(d) == ParseValue(s).value.value && s == Write(d, ParseValue(s).value.rest)
    decreases |s|, 1
  {
    var inner, rest := SkipSpace(s[1..]), ParseValue(s).value.rest;
    var blank := SpaceBefore(s[1..]);
    assert s == [OPEN_RECORD] + s[1..];
    if inner != [] && inner[0] == CLOSE_RECORD {
      d := Grouping(blank, []);
      assert inner == [CLOSE_RECORD] + rest;
    } else {
      var fields := FieldsWereWritten(inner, []);
      d := Grouping(blank, fields);
    }
  }

  /** The fields are what the text up to its closing brace says, after the members read before. */
  ghost predicate AreFieldsOf(fields: seq<Field>, text: Text, before: seq<Member>, r: Parsed<seq<Member>>)
    requires PlainMembers(before)
  {
    && fields != [] && LegalFields(fields) && SaysFields(before, fields) == r.value
    && text == WriteFields(fields, [CLOSE_RECORD] + r.rest)
  }

  lemma LastField(text: Text, before: seq<Member>, f: Field, rest: Text)
    requires PlainMembers(before) && LegalField(f) && text == WriteField(f, [CLOSE_RECORD] + rest)
    ensures AreFieldsOf([f], text, before, Parsed(Put(before, Member(Units(f.name), Says(f.doc))), rest))
  {
    var members := Put(before, Member(Units(f.name), Says(f.doc)));
    assert [f][1..] == [] && SaysFields(members, []) == members;
  }

  lemma WriteOneMoreField(f: Field, more: seq<Field>, rest: Text)
    requires more != []
    ensures WriteFields([f] + more, rest) == WriteField(f, [COMMA] + WriteFields(more, rest))
  {
    assert ([f] + more)[1..] == more;
  }

  lemma SayOneMoreField(before: seq<Member>, f: Field, more: seq<Field>)
    requires PlainMembers(before) && LegalField(f) && LegalFields(more)
    ensures LegalFields([f] + more)
    ensures SaysFields(before, [f] + more) == SaysFields(Put(before, Member(Units(f.name), Says(f.doc))), more)
  {
    assert ([f] + more)[1..] == more;
  }

  lemma OneMoreField(text: Text, before: seq<Member>, f: Field, other: Text, more: seq<Field>, r: Parsed<seq<Member>>)
    requires PlainMembers(before) && LegalField(f) && text == WriteField(f, [COMMA] + other)
    requires AreFieldsOf(more, other, Put(before, Member(Units(f.name), Says(f.doc))), r)
    ensures AreFieldsOf([f] + more, text, before, r)
  {
    SayOneMoreField(before, f, more);
    WriteOneMoreField(f, more, [CLOSE_RECORD] + r.rest);
  }

  lemma {:induction false} FieldsWereWritten(text: Text, before: seq<Member>) returns (fields: seq<Field>)
    requires PlainMembers(before) && ParseMembers(text, before).Some?
    ensures AreFieldsOf(fields, text, before, ParseMembers(text, before).value)
    decreases |text|, 5
  {
    var f, after := FieldWasWritten(text, before);
    FirstThenRest(after);
    if after[0] == CLOSE_RECORD {
      fields := [f];
      LastField(text, before, f, after[1..]);
    } else {
      var members := Put(before, Member(Units(f.name), Says(f.doc)));
      var more := FieldsWereWritten(after[1..], members);
      fields := [f] + more;
      OneMoreField(text, before, f, after[1..], more, ParseMembers(after[1..], members).value);
    }
  }

  /** The parts of a text that starts with a member. */
  datatype Parts = Parts(name: Parsed<Text>, colon: Text, value: Parsed<Value>, after: Text)

  ghost predicate HasParts(text: Text, p: Parts) {
    && SkipSpace(text) != [] && SkipSpace(text)[0] == QUOTE && ParseString(SkipSpace(text)[1..]) == Some(p.name)
    && p.colon == SkipSpace(p.name.rest) && p.colon != [] && p.colon[0] == COLON
    && ParseValue(p.colon[1..]) == Some(p.value)
    && p.after == SkipSpace(p.value.rest) && p.after != [] && p.after[0] in [COMMA, CLOSE_RECORD]
  }

  lemma MembersHaveParts(text: Text, before: seq<Member>) returns (p: Parts)
    requires PlainMembers(before) && ParseMembers(text, before).Some?
    ensures HasParts(text, p) && |p.colon| <= |text| && |p.after| < |text|
    ensures var members := Put(before, Member(p.name.value, p.value.value));
            ParseMembers(text, before)
            == if p.after[0] == CLOSE_RECORD then Some(Parsed(members, p.after[1..])) else ParseMembers(p.after[1..], members)
  {
    var name := ParseString(SkipSpace(text)[1..]).value;
    var colon := SkipSpace(name.rest);
    var value := ParseValue(colon[1..]).value;
    p := Parts(name, colon, value, SkipSpace(value.rest));
  }

  lemma {:induction false} FieldWasWritten(text: Text, before: seq<Member>) returns (f: Field, after: Text)
    requires PlainMembers(before) && ParseMembers(text, before).Some?
    ensures LegalField(f) && text == WriteField(f, after) && after != [] && |after| < |text|
    ensures var members := Put(before, Member(Units(f.name), Says(f.doc)));
            && (after[0] == CLOSE_RECORD || after[0] == COMMA)
            && ParseMembers(text, before)
               == if after[0] == CLOSE_RECORD then Some(Parsed(members, after[1..])) else ParseMembers(after[1..], members)
    decreases |text|, 4
  {
    var p := MembersHaveParts(text, before);
    f := PartsWereWritten(text, p);
    after := p.after;
  }

  lemma {:induction false} PartsWereWritten(text: Text, p: Parts) returns (f: Field)
    requires HasParts(text, p) && |p.colon| <= |text|
    ensures LegalField(f) && text == WriteField(f, p.after) && Units(f.name) == p.name.value && Says(f.doc) == p.value.value
    decreases |text|, 3
  {
    var s := SkipSpace(text);
    var blank := SpaceBefore(text);
    var name := StringWasWritten(s[1..]);
    var afterName := SpaceBefore(p.name.rest);
    var beforeValue, doc := DocWasWritten(p.colon[1..]);
    var afterValue := SpaceBefore(p.value.rest);
    f := Field(blank, name, afterName, beforeValue, doc, afterValue);
    FirstThenRest(p.colon);
    FirstThenRest(s);
    assert s == WriteString(name, afterName + p.colon);
  }

  // ---------------------------------------------------------------------------------------------
  // The parser accepts JSON, and nothing else
  // ---------------------------------------------------------------------------------------------

  /** The text is the writing of the document, with white space around it. */
  ghost predicate IsWriting(text: Text, before: Text, d: Doc, after: Text) {
    Blank(before) && Legal(d) && Blank(after) && text == before + Write(d, after)
  }

  /** JSON.parse accepts a text exactly when it is JSON, and then gives what it says. */
  lemma ParsesExactlyJson(text: Text, v: Value)
    ensures Parse(text) == Some(v)
       <==> exists before: Text, d: Doc, after: Text :: IsWriting(text, before, d, after) && Says(d) == v
  {
    if Parse(text) == Some(v) {
      var before, d := DocWasWritten(text);
      var after := ParseValue(text).value.rest;
      SkipsBlank(after);
      assert IsWriting(text, before, d, after) && Says(d) == v;
    }
    if before: Text, d: Doc, after: Text :| IsWriting(text, before, d, after) && Says(d) == v {
      SkipsOver(before, Write(d, after));
      WritingStarts(d, after);
      assert after == [] || Space(after[0]);
      DocIsRead(text, d, after);
      SkipsBlank(after);
    }
  }
}
