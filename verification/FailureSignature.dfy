/**
 The failure oracle as it is written to failure-signature.json and read back by its schema.

 An accepted oracle can be hashed exactly when no value it compares a field with hides something JSON cannot express,
 and what is read back judges every run as the oracle did.
 */
module FailureSignature {
  import opened Wrappers
  import opened Json
  import opened CanonicalJson
  import opened Lists
  import opened Verification

  /**
   What the schema depends on besides the value: which patterns compile, the integer a token spells, and whether a
   member whose type is unknown may be missing.
   */
  datatype Reader = Reader(validRegex: Text -> bool, integer: Text -> Option<int>, absentOk: bool)

  const MAX_SAFE_INTEGER := 0x1F_FFFF_FFFF_FFFF

  predicate SafeInteger(n: int) { -MAX_SAFE_INTEGER <= n <= MAX_SAFE_INTEGER }

  function IntegerText(n: int): Text { if n < 0 then [MINUS] + Numeral(-n) else Numeral(n) }

  ghost predicate Lawful(r: Reader) { forall n :: SafeInteger(n) ==> r.integer(IntegerText(n)) == Some(n) }

  // ---------------------------------------------------------------------------------------------
  // What the schema accepts from a caller
  // ---------------------------------------------------------------------------------------------

  predicate ExpressionOk(r: Reader, e: Expression) {
    match e
    case ExitCode(expected) => SafeInteger(expected)
    case OutputContains(_, _) => true
    case OutputRegex(_, pattern) => |pattern| <= 256 && r.validRegex(pattern)
    case JsonField(_, path, equals) => path != [] && WellFormed(equals)
    case All(children) => children != [] && forall i :: 0 <= i < |children| ==> ExpressionOk(r, children[i])
    case Any(children) => children != [] && forall i :: 0 <= i < |children| ==> ExpressionOk(r, children[i])
    case Not(child) => ExpressionOk(r, child)
  }

  predicate OracleOk(r: Reader, o: Oracle) {
    o.id != [] && o.version > 0 && SafeInteger(o.version) && ExpressionOk(r, o.root)
  }

  /** Every value a field is compared with has the property. */
  predicate EveryField(p: Value -> bool, e: Expression) {
    match e
    case ExitCode(_) | OutputContains(_, _) | OutputRegex(_, _) => true
    case JsonField(_, _, equals) => p(equals)
    case All(children) => forall i :: 0 <= i < |children| ==> EveryField(p, children[i])
    case Any(children) => forall i :: 0 <= i < |children| ==> EveryField(p, children[i])
    case Not(child) => EveryField(p, child)
  }

  /** As a member of an object, the value does not make normalizeJson throw. */
  predicate Hashable(v: Value) { v.Undefined? || Supported(v) }

  /** The schema accepts the member this value is printed as, or its absence. */
  function Readable(r: Reader): Value -> bool { (v: Value) => r.absentOk || !v.Undefined? }

  // ---------------------------------------------------------------------------------------------
  // Writing
  // ---------------------------------------------------------------------------------------------

  const TYPE := Ascii("type")
  const EXPECTED := Ascii("expected")
  const STREAM := Ascii("stream")
  const VALUE := Ascii("value")
  const PATTERN := Ascii("pattern")
  const PATH := Ascii("path")
  const EQUALS := Ascii("equals")
  const CHILDREN := Ascii("children")
  const CHILD := Ascii("child")

  const EXIT_CODE := Ascii("exit_code")
  const OUTPUT_CONTAINS := Ascii("output_contains")
  const OUTPUT_REGEX := Ascii("output_regex")
  const JSON_FIELD := Ascii("json_field")
  const ALL := Ascii("all")
  const ANY := Ascii("any")
  const NOT := Ascii("not")

  const STDOUT := Ascii("stdout")
  const STDERR := Ascii("stderr")

  const ID := Ascii("id")
  const ROOT := Ascii("root")
  const VERSION := Ascii("version")

  function StreamText(stream: Stream): Text { if stream == Stdout then STDOUT else STDERR }

  function Strings(texts: seq<Text>): (r: seq<Value>)
    ensures |r| == |texts| && forall i :: 0 <= i < |r| ==> r[i] == Str(texts[i])
  {
    seq(|texts|, i requires 0 <= i < |texts| => Str(texts[i]))
  }

  function Tagged(kind: Text, members: seq<Member>): Value { Obj([Member(TYPE, Str(kind))] + members) }

  /** The expression as an object; comparing with undefined is a member that is undefined. */
  function ExpressionValue(e: Expression): Value {
    match e
    case ExitCode(expected) => Tagged(EXIT_CODE, [Member(EXPECTED, Atom(IntegerText(expected)))])
    case OutputContains(stream, value) =>
      Tagged(OUTPUT_CONTAINS, [Member(STREAM, Str(StreamText(stream))), Member(VALUE, Str(value))])
    case OutputRegex(stream, pattern) =>
      Tagged(OUTPUT_REGEX, [Member(STREAM, Str(StreamText(stream))), Member(PATTERN, Str(pattern))])
    case JsonField(stream, path, equals) =>
      Tagged(JSON_FIELD, [Member(STREAM, Str(StreamText(stream))), Member(PATH, Arr(Strings(path))), Member(EQUALS, equals)])
    case All(children) => Tagged(ALL, [Member(CHILDREN, Arr(EachValue(children)))])
    case Any(children) => Tagged(ANY, [Member(CHILDREN, Arr(EachValue(children)))])
    case Not(child) => Tagged(NOT, [Member(CHILD, ExpressionValue(child))])
  }

  function EachValue(es: seq<Expression>): (r: seq<Value>)
    ensures |r| == |es| && forall i :: 0 <= i < |r| ==> r[i] == ExpressionValue(es[i])
  {
    if es == [] then [] else [ExpressionValue(es[0])] + EachValue(es[1..])
  }

  function OracleValue(o: Oracle): Value {
    Obj([Member(ID, Str(o.id)), Member(ROOT, ExpressionValue(o.root)), Member(VERSION, Atom(IntegerText(o.version)))])
  }

  // ---------------------------------------------------------------------------------------------
  // Reading
  // ---------------------------------------------------------------------------------------------

  function Names(members: seq<Member>): set<Text> { set i | 0 <= i < |members| :: members[i].name }

  function ReadStream(v: Option<Value>): Option<Stream> {
    if v == Some(Str(STDOUT)) then Some(Stdout) else if v == Some(Str(STDERR)) then Some(Stderr) else None
  }

  function ReadStrings(items: seq<Value>): Option<seq<Text>> {
    if items == [] then Some([])
    else
      var rest := ReadStrings(items[1..]);
      if items[0].Str? && rest.Some? then Some([items[0].text] + rest.value) else None
  }

  function ReadExit(r: Reader, members: seq<Member>): Option<Expression> {
    var expected := Lookup(members, EXPECTED);
    if Names(members) == {TYPE, EXPECTED} && expected.Some? && expected.value.Atom?
       && r.integer(expected.value.token).Some?
    then Some(ExitCode(r.integer(expected.value.token).value))
    else None
  }

  function ReadContains(members: seq<Member>): Option<Expression> {
    var stream, value := ReadStream(Lookup(members, STREAM)), Lookup(members, VALUE);
    if Names(members) == {TYPE, STREAM, VALUE} && stream.Some? && value.Some? && value.value.Str? then
      Some(OutputContains(stream.value, value.value.text))
    else None
  }

  function ReadRegex(r: Reader, members: seq<Member>): Option<Expression> {
    var stream, pattern := ReadStream(Lookup(members, STREAM)), Lookup(members, PATTERN);
    if Names(members) == {TYPE, STREAM, PATTERN} && stream.Some? && pattern.Some? && pattern.value.Str?
       && |pattern.value.text| <= 256 && r.validRegex(pattern.value.text)
    then Some(OutputRegex(stream.value, pattern.value.text))
    else None
  }

  function ReadField(r: Reader, members: seq<Member>): Option<Expression> {
    var stream, path, equals := ReadStream(Lookup(members, STREAM)), Lookup(members, PATH), Lookup(members, EQUALS);
    var names := Names(members);
    if (names == {TYPE, STREAM, PATH, EQUALS} || (r.absentOk && names == {TYPE, STREAM, PATH}))
       && stream.Some? && path.Some? && path.value.Arr? && path.value.items != [] && ReadStrings(path.value.items).Some?
    then
      Some(JsonField(stream.value, ReadStrings(path.value.items).value, if equals.Some? then equals.value else Undefined))
    else None
  }

  /** The oracle expression the schema reads; `None` when it refuses. */
  function ReadExpression(r: Reader, v: Value): Option<Expression>
    decreases v
  {
    if !v.Obj? then None
    else
      var kind := Lookup(v.members, TYPE);
      if kind == Some(Str(EXIT_CODE)) then ReadExit(r, v.members)
      else if kind == Some(Str(OUTPUT_CONTAINS)) then ReadContains(v.members)
      else if kind == Some(Str(OUTPUT_REGEX)) then ReadRegex(r, v.members)
      else if kind == Some(Str(JSON_FIELD)) then ReadField(r, v.members)
      else if kind == Some(Str(ALL)) || kind == Some(Str(ANY)) then
        var children := Lookup(v.members, CHILDREN);
        LookupIsSmaller(v.members, CHILDREN);
        if Names(v.members) == {TYPE, CHILDREN} && children.Some? && children.value.Arr? && children.value.items != [] then
          var each := ReadEach(r, children.value.items);
          if each.None? then None else Some(if kind == Some(Str(ALL)) then All(each.value) else Any(each.value))
        else None
      else if kind == Some(Str(NOT)) then
        var child := Lookup(v.members, CHILD);
        LookupIsSmaller(v.members, CHILD);
        if Names(v.members) == {TYPE, CHILD} && child.Some? then
          var e := ReadExpression(r, child.value);
          if e.None? then None else Some(Not(e.value))
        else None
      else None
  }

  function ReadEach(r: Reader, items: seq<Value>): Option<seq<Expression>>
    decreases items
  {
    if items == [] then Some([])
    else
      var first, rest := ReadExpression(r, items[0]), ReadEach(r, items[1..]);
      if first.Some? && rest.Some? then Some([first.value] + rest.value) else None
  }

  lemma {:induction false} LookupIsSmaller(members: seq<Member>, name: Text)
    ensures Lookup(members, name).Some? ==>
              exists i :: 0 <= i < |members| && members[i].value == Lookup(members, name).value
  {
    if members != [] && members[0].name != name {
      LookupIsSmaller(members[1..], name);
      if Lookup(members, name).Some? {
        var i :| 0 <= i < |members[1..]| && members[1..][i].value == Lookup(members[1..], name).value;
        assert members[i + 1].value == Lookup(members, name).value;
      }
    }
  }

  function ReadOracle(r: Reader, v: Value): Option<Oracle> {
    if !v.Obj? || Names(v.members) != {ID, ROOT, VERSION} then None
    else
      var id, version, root := Lookup(v.members, ID), Lookup(v.members, VERSION), Lookup(v.members, ROOT);
      if id.Some? && id.value.Str? && id.value.text != []
         && version.Some? && version.value.Atom? && r.integer(version.value.token).Some?
         && r.integer(version.value.token).value > 0 && root.Some? && ReadExpression(r, root.value).Some?
      then Some(Oracle(id.value.text, r.integer(version.value.token).value, ReadExpression(r, root.value).value))
      else None
  }

  // ---------------------------------------------------------------------------------------------
  // What is written
  // ---------------------------------------------------------------------------------------------

  lemma NamesDiffer()
    ensures |TYPE| == |PATH| == 4 && TYPE != PATH && |EXPECTED| == |CHILDREN| == 8 && |STREAM| == |EQUALS| == 6
    ensures STREAM != EQUALS && |VALUE| == |CHILD| == 5 && |PATTERN| == |VERSION| == 7 && |ID| == 2 && |ROOT| == 4
  {
    assert TYPE[0] != PATH[0] && STREAM[0] != EQUALS[0];
  }

  lemma KindsDiffer()
    ensures |EXIT_CODE| == 9 && |OUTPUT_CONTAINS| == 15 && |OUTPUT_REGEX| == 12 && |JSON_FIELD| == 10
    ensures |ALL| == |ANY| == |NOT| == 3 && ALL != ANY && ALL != NOT && ANY != NOT
    ensures STDOUT != STDERR
  {
    assert ALL[1] != ANY[1] && ALL[0] != NOT[0] && ANY[0] != NOT[0] && STDOUT[3] != STDERR[3];
  }

  lemma IntegerIsToken(n: int)
    ensures ValidToken(IntegerText(n))
  {
    var digits := Numeral(if n < 0 then -n else n);
    NumeralDigits(if n < 0 then -n else n);
    assert digits[|digits|..] == [] && (digits[0] == 0x30 ==> n == 0);
    if n < 0 {
      var text := [MINUS] + digits;
      assert text[1..] == digits;
      assert NumberUnits(text) == 1 + NumberUnits(digits);
    } else {
      NumeralIsToken(n);
    }
  }

  /** A member and the others of an object, as they are printed. */
  lemma PrintsFirst(m: Member, rest: seq<Member>)
    ensures AsJsonMembers([m] + rest)
         == (if Absent(m.value) then [] else [Member(m.name, AsJson(m.value))]) + AsJsonMembers(rest)
  {
    assert ([m] + rest)[1..] == rest;
  }

  lemma PrintsTagged(kind: Text, members: seq<Member>)
    ensures AsJson(Tagged(kind, members)) == Tagged(kind, AsJsonMembers(members))
  {
    PrintsFirst(Member(TYPE, Str(kind)), members);
  }

  lemma PrintsOne(a: Member)
    requires !Absent(a.value)
    ensures AsJsonMembers([a]) == [Member(a.name, AsJson(a.value))]
  {
    PrintsFirst(a, []);
    assert [a] == [a] + [];
  }

  lemma PrintsTwo(a: Member, b: Member)
    requires !Absent(a.value) && !Absent(b.value)
    ensures AsJsonMembers([a, b]) == [Member(a.name, AsJson(a.value)), Member(b.name, AsJson(b.value))]
  {
    PrintsFirst(a, [b]);
    PrintsOne(b);
    assert [a, b] == [a] + [b];
  }

  lemma PrintsThree(a: Member, b: Member, c: Member)
    requires !Absent(a.value) && !Absent(b.value)
    ensures AsJsonMembers([a, b, c])
         == [Member(a.name, AsJson(a.value)), Member(b.name, AsJson(b.value))] + AsJsonMembers([c])
  {
    PrintsFirst(a, [b, c]);
    PrintsFirst(b, [c]);
    assert [a, b, c] == [a] + [b, c] && [b, c] == [b] + [c];
  }

  lemma {:induction false} PrintsStrings(texts: seq<Text>)
    ensures AsJsonItems(Strings(texts)) == Strings(texts) && ReadStrings(Strings(texts)) == Some(texts)
  {
    if texts == [] {
      assert Strings(texts) == [];
    } else {
      PrintsStrings(texts[1..]);
      assert Strings(texts)[1..] == Strings(texts[1..]);
      assert texts == [texts[0]] + texts[1..];
    }
  }

  /** The expression as it is read back: values are without their undefined members. */
  function Kept(e: Expression): Expression {
    match e
    case ExitCode(_) | OutputContains(_, _) | OutputRegex(_, _) => e
    case JsonField(stream, path, equals) => JsonField(stream, path, AsJson(equals))
    case All(children) => All(KeptEach(children))
    case Any(children) => Any(KeptEach(children))
    case Not(child) => Not(Kept(child))
  }

  function KeptEach(es: seq<Expression>): (r: seq<Expression>)
    ensures |r| == |es| && forall i :: 0 <= i < |r| ==> r[i] == Kept(es[i])
  {
    if es == [] then [] else [Kept(es[0])] + KeptEach(es[1..])
  }

  // ---------------------------------------------------------------------------------------------
  // The object that is hashed
  // ---------------------------------------------------------------------------------------------

  lemma TaggedIsWellFormed(kind: Text, members: seq<Member>)
    requires WellFormed(Obj(members)) && forall i :: 0 <= i < |members| ==> members[i].name != TYPE
    ensures WellFormed(Tagged(kind, members))
    ensures Supported(Tagged(kind, members)) == Supported(Obj(members))
  {
    var all := [Member(TYPE, Str(kind))] + members;
    assert forall i :: 0 < i < |all| ==> all[i] == members[i - 1];
    assert forall i :: 0 <= i < |members| ==> members[i] == all[i + 1];
    assert all[0].value == Str(kind);
  }

  /** An accepted expression is an object that normalizeJson accepts exactly when it accepts every value in it. */
  lemma {:induction false} HashableExactly(r: Reader, e: Expression)
    requires ExpressionOk(r, e)
    ensures WellFormed(ExpressionValue(e)) && !Absent(ExpressionValue(e))
    ensures Supported(ExpressionValue(e)) <==> EveryField(Hashable, e)
    decreases e
  {
    NamesDiffer();
    match e
    case ExitCode(expected) =>
      IntegerIsToken(expected);
      OneIsHashable(EXIT_CODE, Member(EXPECTED, Atom(IntegerText(expected))));
    case OutputContains(stream, value) => TwoAreHashable(OUTPUT_CONTAINS, stream, VALUE, value);
    case OutputRegex(stream, pattern) => TwoAreHashable(OUTPUT_REGEX, stream, PATTERN, pattern);
    case JsonField(stream, path, equals) => FieldIsHashable(stream, path, equals);
    case All(children) => ChildrenAreHashable(r, ALL, children);
    case Any(children) => ChildrenAreHashable(r, ANY, children);
    case Not(child) =>
      HashableExactly(r, child);
      OneIsHashable(NOT, Member(CHILD, ExpressionValue(child)));
  }

  lemma OneIsHashable(kind: Text, m: Member)
    requires WellFormed(m.value) && !m.value.Undefined? && m.name != TYPE
    ensures WellFormed(Tagged(kind, [m])) && (Supported(Tagged(kind, [m])) <==> Supported(m.value))
  {
    assert [m][0] == m;
    TaggedIsWellFormed(kind, [m]);
  }

  lemma TwoAreHashable(kind: Text, stream: Stream, name: Text, text: Text)
    requires name != TYPE && name != STREAM
    ensures var v := Tagged(kind, [Member(STREAM, Str(StreamText(stream))), Member(name, Str(text))]);
            WellFormed(v) && Supported(v)
  {
    NamesDiffer();
    TaggedIsWellFormed(kind, [Member(STREAM, Str(StreamText(stream))), Member(name, Str(text))]);
  }

  lemma FieldIsHashable(stream: Stream, path: seq<Text>, equals: Value)
    requires WellFormed(equals)
    ensures WellFormed(ExpressionValue(JsonField(stream, path, equals)))
    ensures Supported(ExpressionValue(JsonField(stream, path, equals))) <==> Hashable(equals)
  {
    NamesDiffer();
    var members := [Member(STREAM, Str(StreamText(stream))), Member(PATH, Arr(Strings(path))), Member(EQUALS, equals)];
    assert Supported(members[0].value) && Supported(members[1].value) && members[2].value == equals;
    TaggedIsWellFormed(JSON_FIELD, members);
  }

  lemma {:induction false} ChildrenAreHashable(r: Reader, kind: Text, children: seq<Expression>)
    requires forall i :: 0 <= i < |children| ==> ExpressionOk(r, children[i])
    ensures var v := Tagged(kind, [Member(CHILDREN, Arr(EachValue(children)))]);
            WellFormed(v) && (Supported(v) <==> forall i :: 0 <= i < |children| ==> EveryField(Hashable, children[i]))
    decreases children
  {
    NamesDiffer();
    forall i | 0 <= i < |children|
      ensures WellFormed(ExpressionValue(children[i]))
      ensures Supported(ExpressionValue(children[i])) <==> EveryField(Hashable, children[i])
    {
      HashableExactly(r, children[i]);
    }
    var list := Arr(EachValue(children));
    assert Supported(list) <==> forall i :: 0 <= i < |children| ==> EveryField(Hashable, children[i]);
    OneIsHashable(kind, Member(CHILDREN, list));
  }

  // ---------------------------------------------------------------------------------------------
  // Reading back
  // ---------------------------------------------------------------------------------------------

  lemma LookupFirst(m: Member, rest: seq<Member>, name: Text)
    ensures Lookup([m] + rest, name) == if m.name == name then Some(m.value) else Lookup(rest, name)
  {
    assert ([m] + rest)[1..] == rest;
  }

  /** The members of a tagged object by name. */
  lemma TaggedLookup(kind: Text, members: seq<Member>, name: Text)
    ensures Lookup(Tagged(kind, members).members, name) == if name == TYPE then Some(Str(kind)) else Lookup(members, name)
    ensures Names(Tagged(kind, members).members) == {TYPE} + Names(members)
  {
    var m := Member(TYPE, Str(kind));
    LookupFirst(m, members, name);
    var all := [m] + members;
    assert all[0].name == TYPE;
    assert forall i :: 0 < i < |all| ==> all[i] == members[i - 1];
    assert forall i :: 0 <= i < |members| ==> members[i] == all[i + 1];
  }

  lemma OneName(a: Member)
    ensures Names([a]) == {a.name} && Lookup([a], a.name) == Some(a.value)
  {
    assert [a][0] == a;
  }

  lemma TwoNames(a: Member, b: Member)
    requires a.name != b.name
    ensures Names([a, b]) == {a.name, b.name}
    ensures Lookup([a, b], a.name) == Some(a.value) && Lookup([a, b], b.name) == Some(b.value)
  {
    OneName(b);
    LookupFirst(a, [b], b.name);
    assert [a, b] == [a] + [b] && [a, b][0] == a && [a, b][1] == b;
  }

  lemma ThreeNames(a: Member, b: Member, c: Member)
    requires a.name != b.name && a.name != c.name && b.name != c.name
    ensures Names([a, b, c]) == {a.name, b.name, c.name}
    ensures Lookup([a, b, c], a.name) == Some(a.value) && Lookup([a, b, c], b.name) == Some(b.value)
    ensures Lookup([a, b, c], c.name) == Some(c.value)
  {
    TwoNames(b, c);
    LookupFirst(a, [b, c], b.name);
    LookupFirst(a, [b, c], c.name);
    assert [a, b, c] == [a] + [b, c] && [a, b, c][0] == a && [a, b, c][1] == b && [a, b, c][2] == c;
  }

  lemma NotThere(members: seq<Member>, name: Text)
    requires forall i :: 0 <= i < |members| ==> members[i].name != name
    ensures Lookup(members, name) == None
  {
  }

  lemma ExitReadsBack(r: Reader, expected: int)
    requires Lawful(r) && SafeInteger(expected)
    ensures ReadExpression(r, AsJson(ExpressionValue(ExitCode(expected)))) == Some(ExitCode(expected))
  {
    var m := Member(EXPECTED, Atom(IntegerText(expected)));
    PrintsTagged(EXIT_CODE, [m]);
    PrintsOne(m);
    NamesDiffer();
    OneName(m);
    TaggedLookup(EXIT_CODE, [m], TYPE);
    TaggedLookup(EXIT_CODE, [m], EXPECTED);
  }

  lemma ContainsReadsBack(r: Reader, stream: Stream, value: Text)
    ensures ReadExpression(r, AsJson(ExpressionValue(OutputContains(stream, value)))) == Some(OutputContains(stream, value))
  {
    var a, b := Member(STREAM, Str(StreamText(stream))), Member(VALUE, Str(value));
    PrintsTagged(OUTPUT_CONTAINS, [a, b]);
    PrintsTwo(a, b);
    NamesDiffer();
    KindsDiffer();
    TwoNames(a, b);
    TaggedLookup(OUTPUT_CONTAINS, [a, b], TYPE);
    TaggedLookup(OUTPUT_CONTAINS, [a, b], STREAM);
    TaggedLookup(OUTPUT_CONTAINS, [a, b], VALUE);
  }

  lemma RegexReadsBack(r: Reader, stream: Stream, pattern: Text)
    requires |pattern| <= 256 && r.validRegex(pattern)
    ensures ReadExpression(r, AsJson(ExpressionValue(OutputRegex(stream, pattern)))) == Some(OutputRegex(stream, pattern))
  {
    var a, b := Member(STREAM, Str(StreamText(stream))), Member(PATTERN, Str(pattern));
    PrintsTagged(OUTPUT_REGEX, [a, b]);
    PrintsTwo(a, b);
    NamesDiffer();
    KindsDiffer();
    TwoNames(a, b);
    TaggedLookup(OUTPUT_REGEX, [a, b], TYPE);
    TaggedLookup(OUTPUT_REGEX, [a, b], STREAM);
    TaggedLookup(OUTPUT_REGEX, [a, b], PATTERN);
  }

  /** The members of a printed field, after its type. */
  function PrintedField(stream: Stream, path: seq<Text>, equals: Value): seq<Member> {
    [Member(STREAM, Str(StreamText(stream))), Member(PATH, Arr(Strings(path)))]
    + if Absent(equals) then [] else [Member(EQUALS, AsJson(equals))]
  }

  lemma PrintsField(stream: Stream, path: seq<Text>, equals: Value)
    ensures AsJson(ExpressionValue(JsonField(stream, path, equals))) == Tagged(JSON_FIELD, PrintedField(stream, path, equals))
  {
    var a, b, c := Member(STREAM, Str(StreamText(stream))), Member(PATH, Arr(Strings(path))), Member(EQUALS, equals);
    PrintsTagged(JSON_FIELD, [a, b, c]);
    PrintsThree(a, b, c);
    PrintsFirst(c, []);
    assert [c] == [c] + [];
    PrintsStrings(path);
  }

  lemma PrintedFieldLookup(stream: Stream, path: seq<Text>, equals: Value)
    ensures var ms := PrintedField(stream, path, equals);
            && Names(ms) == (if Absent(equals) then {STREAM, PATH} else {STREAM, PATH, EQUALS})
            && Lookup(ms, STREAM) == Some(Str(StreamText(stream))) && Lookup(ms, PATH) == Some(Arr(Strings(path)))
            && Lookup(ms, EQUALS) == (if Absent(equals) then None else Some(AsJson(equals)))
  {
    NamesDiffer();
    var a, b, c := Member(STREAM, Str(StreamText(stream))), Member(PATH, Arr(Strings(path))), Member(EQUALS, AsJson(equals));
    if Absent(equals) {
      assert PrintedField(stream, path, equals) == [a, b];
      TwoNames(a, b);
      NotThere([a, b], EQUALS);
    } else {
      assert PrintedField(stream, path, equals) == [a, b, c];
      ThreeNames(a, b, c);
    }
  }

  lemma ReadsAsField(r: Reader, members: seq<Member>)
    ensures ReadExpression(r, Tagged(JSON_FIELD, members)) == ReadField(r, Tagged(JSON_FIELD, members).members)
  {
    KindsDiffer();
    TaggedLookup(JSON_FIELD, members, TYPE);
  }

  lemma FieldReadsBack(r: Reader, stream: Stream, path: seq<Text>, equals: Value)
    requires path != [] && Hashable(equals)
    ensures var e := JsonField(stream, path, equals);
            ReadExpression(r, AsJson(ExpressionValue(e))) == if Readable(r)(equals) then Some(Kept(e)) else None
  {
    var ms := PrintedField(stream, path, equals);
    PrintsField(stream, path, equals);
    ReadsAsField(r, ms);
    NamesDiffer();
    assert STDOUT != STDERR by { KindsDiffer(); }
    PrintedFieldLookup(stream, path, equals);
    PrintsStrings(path);
    TaggedLookup(JSON_FIELD, ms, STREAM);
    TaggedLookup(JSON_FIELD, ms, PATH);
    TaggedLookup(JSON_FIELD, ms, EQUALS);
    assert EQUALS !in {TYPE, STREAM, PATH};
  }

  lemma NotReadsBack(r: Reader, child: Expression)
    requires !Absent(ExpressionValue(child))
    ensures var e := ReadExpression(r, AsJson(ExpressionValue(child)));
            ReadExpression(r, AsJson(ExpressionValue(Not(child)))) == if e.Some? then Some(Not(e.value)) else None
  {
    var m := Member(CHILD, ExpressionValue(child));
    var printed := Member(CHILD, AsJson(m.value));
    PrintsTagged(NOT, [m]);
    PrintsOne(m);
    NamesDiffer();
    KindsDiffer();
    OneName(printed);
    TaggedLookup(NOT, [printed], TYPE);
    TaggedLookup(NOT, [printed], CHILD);
  }

  lemma ListReadsBack(r: Reader, all: bool, children: seq<Expression>)
    requires children != []
    ensures ReadExpression(r, AsJson(ExpressionValue(if all then All(children) else Any(children))))
         == Combined(all, ReadEach(r, AsJsonItems(EachValue(children))))
  {
    var kind := if all then ALL else ANY;
    var m := Member(CHILDREN, Arr(EachValue(children)));
    PrintsTagged(kind, [m]);
    PrintsOne(m);
    ReadsAsList(r, all, AsJsonItems(EachValue(children)));
  }

  function Combined(all: bool, each: Option<seq<Expression>>): Option<Expression> {
    if each.None? then None else if all then Some(All(each.value)) else Some(Any(each.value))
  }

  lemma ReadsAsList(r: Reader, all: bool, items: seq<Value>)
    requires items != []
    ensures ReadExpression(r, Tagged(if all then ALL else ANY, [Member(CHILDREN, Arr(items))])) == Combined(all, ReadEach(r, items))
  {
    var kind, m := if all then ALL else ANY, Member(CHILDREN, Arr(items));
    NamesDiffer();
    KindsDiffer();
    OneName(m);
    TaggedLookup(kind, [m], TYPE);
    TaggedLookup(kind, [m], CHILDREN);
  }

  /** What is printed for an accepted and hashable expression is read back as it, or refused for a missing member. */
  lemma {:induction false} ExpressionReadsBack(r: Reader, e: Expression)
    requires Lawful(r) && ExpressionOk(r, e) && EveryField(Hashable, e)
    ensures ReadExpression(r, AsJson(ExpressionValue(e))) == if EveryField(Readable(r), e) then Some(Kept(e)) else None
    decreases e
  {
    match e
    case ExitCode(expected) => ExitReadsBack(r, expected);
    case OutputContains(stream, value) => ContainsReadsBack(r, stream, value);
    case OutputRegex(stream, pattern) => RegexReadsBack(r, stream, pattern);
    case JsonField(stream, path, equals) => FieldReadsBack(r, stream, path, equals);
    case All(children) =>
      ListReadsBack(r, true, children);
      EachReadsBack(r, children);
    case Any(children) =>
      ListReadsBack(r, false, children);
      EachReadsBack(r, children);
    case Not(child) =>
      HashableExactly(r, child);
      NotReadsBack(r, child);
      ExpressionReadsBack(r, child);
  }

  predicate EachField(p: Value -> bool, es: seq<Expression>) { forall i :: 0 <= i < |es| ==> EveryField(p, es[i]) }

  lemma FirstField(p: Value -> bool, es: seq<Expression>)
    requires es != []
    ensures EachField(p, es) <==> EveryField(p, es[0]) && EachField(p, es[1..])
  {
    assert es == [es[0]] + es[1..];
  }

  lemma {:induction false} EachReadsBack(r: Reader, es: seq<Expression>)
    requires Lawful(r) && EachField(Hashable, es) && forall i :: 0 <= i < |es| ==> ExpressionOk(r, es[i])
    ensures ReadEach(r, AsJsonItems(EachValue(es))) == if EachField(Readable(r), es) then Some(KeptEach(es)) else None
    decreases es
  {
    if es != [] {
      HashableExactly(r, es[0]);
      FirstField(Hashable, es);
      FirstField(Readable(r), es);
      ExpressionReadsBack(r, es[0]);
      EachReadsBack(r, es[1..]);
      ReadsFirst(r, es);
    }
  }

  lemma ReadsFirst(r: Reader, es: seq<Expression>)
    requires es != [] && !Absent(ExpressionValue(es[0]))
    ensures var first := ReadExpression(r, AsJson(ExpressionValue(es[0])));
            var rest := ReadEach(r, AsJsonItems(EachValue(es[1..])));
            ReadEach(r, AsJsonItems(EachValue(es)))
            == (if first.Some? && rest.Some? then Some([first.value] + rest.value) else None)
  {
    var items := AsJsonItems(EachValue(es));
    assert EachValue(es)[1..] == EachValue(es[1..]) && items[1..] == AsJsonItems(EachValue(es[1..]));
  }

  // ---------------------------------------------------------------------------------------------
  // The whole oracle
  // ---------------------------------------------------------------------------------------------

  lemma AroundRoot(id: Value, root: Value, version: Value)
    requires WellFormed(id) && WellFormed(root) && WellFormed(version)
    requires Supported(id) && Supported(version) && !root.Undefined?
    ensures var v := Obj([Member(ID, id), Member(ROOT, root), Member(VERSION, version)]);
            WellFormed(v) && (Supported(v) <==> Supported(root))
  {
    NamesDiffer();
    var members := [Member(ID, id), Member(ROOT, root), Member(VERSION, version)];
    assert members[1].value == root;
  }

  lemma OracleIsHashable(r: Reader, o: Oracle)
    requires OracleOk(r, o)
    ensures WellFormed(OracleValue(o)) && (Supported(OracleValue(o)) <==> EveryField(Hashable, o.root))
  {
    HashableExactly(r, o.root);
    IntegerIsToken(o.version);
    AroundRoot(Str(o.id), ExpressionValue(o.root), Atom(IntegerText(o.version)));
  }

  lemma OracleReadsBack(r: Reader, o: Oracle)
    requires Lawful(r) && OracleOk(r, o) && EveryField(Hashable, o.root)
    ensures ReadOracle(r, AsJson(OracleValue(o)))
         == if EveryField(Readable(r), o.root) then Some(o.(root := Kept(o.root))) else None
  {
    HashableExactly(r, o.root);
    ExpressionReadsBack(r, o.root);
    NamesDiffer();
    var id, root := Member(ID, Str(o.id)), Member(ROOT, ExpressionValue(o.root));
    var version := Member(VERSION, Atom(IntegerText(o.version)));
    PrintsThree(id, root, version);
    PrintsOne(version);
    ThreeNames(id, Member(ROOT, AsJson(root.value)), version);
    assert AsJson(OracleValue(o)).members == [id, Member(ROOT, AsJson(root.value)), version];
  }

  /** JSON.stringify of a value that can be canonicalised. */
  function Stringify(v: Value): Text { if Plain(AsJson(v)) then Print(AsJson(v)) else [] }

  lemma StringifyParses(v: Value)
    requires Canonical(v)
    ensures Parse(Stringify(v)) == Some(AsJson(v))
  {
    AsJsonIsPlain(v);
    ParseUndoesPrint(AsJson(v));
  }

  /**
   The text of an accepted oracle that can be hashed is read back as the oracle without undefined members, unless the
   schema misses a member that was undefined.
   */
  lemma SignatureReadsBack(r: Reader, o: Oracle)
    requires Lawful(r) && OracleOk(r, o) && EveryField(Hashable, o.root)
    ensures var v := Parse(Stringify(OracleValue(o)));
            && v.Some?
            && ReadOracle(r, v.value) == if EveryField(Readable(r), o.root) then Some(o.(root := Kept(o.root))) else None
  {
    OracleIsHashable(r, o);
    StringifyParses(OracleValue(o));
    OracleReadsBack(r, o);
  }

  // ---------------------------------------------------------------------------------------------
  // What is read back judges alike
  // ---------------------------------------------------------------------------------------------

  /** Fields are compared by what JSON.stringify keeps of the value. */
  ghost predicate ComparesAsJson(leaf: Leaf) {
    forall stream, path, equals, run ::
      leaf(JsonField(stream, path, equals), run) == leaf(JsonField(stream, path, AsJson(equals)), run)
  }

  lemma {:induction false} KeptJudgesAlike(leaf: Leaf, e: Expression, run: RunResult)
    requires ComparesAsJson(leaf)
    ensures Evaluate(leaf, Kept(e), run).matched == Evaluate(leaf, e, run).matched
    decreases e
  {
    match e
    case ExitCode(_) | OutputContains(_, _) | OutputRegex(_, _) | JsonField(_, _, _) =>
    case All(children) => KeptEachJudgesAlike(leaf, children, run);
    case Any(children) => KeptEachJudgesAlike(leaf, children, run);
    case Not(child) => KeptJudgesAlike(leaf, child, run);
  }

  lemma KeptEachJudgesAlike(leaf: Leaf, es: seq<Expression>, run: RunResult)
    requires ComparesAsJson(leaf)
    ensures forall i :: 0 <= i < |es| ==>
              EvaluateEach(leaf, KeptEach(es), run)[i].matched == EvaluateEach(leaf, es, run)[i].matched
    decreases es
  {
    forall i | 0 <= i < |es|
      ensures Evaluate(leaf, Kept(es[i]), run).matched == Evaluate(leaf, es[i], run).matched
    {
      KeptJudgesAlike(leaf, es[i], run);
    }
  }

  /** Whatever runs it is given, the oracle that is read back reaches the verdict of the original. */
  lemma SignatureJudgesAlike(leaf: Leaf, r: Reader, o: Oracle, control: RunResult, candidates: seq<RunResult>,
                             requiredRuns: nat)
    requires ComparesAsJson(leaf) && Lawful(r) && OracleOk(r, o)
    requires EveryField(Hashable, o.root) && EveryField(Readable(r), o.root)
    ensures var v := Parse(Stringify(OracleValue(o)));
            && v.Some? && ReadOracle(r, v.value).Some?
            && Verify(leaf, ReadOracle(r, v.value).value, control, candidates, requiredRuns)
               == Verify(leaf, o, control, candidates, requiredRuns)
  {
    SignatureReadsBack(r, o);
    var kept := o.(root := Kept(o.root));
    forall run
      ensures Matches(leaf, kept, run) == Matches(leaf, o, run)
    {
      KeptJudgesAlike(leaf, o.root, run);
    }
    SameMatchesSameVerdict(leaf, kept, o, control, candidates, requiredRuns);
  }

  lemma SameMatchesSameVerdict(leaf: Leaf, a: Oracle, b: Oracle, control: RunResult, candidates: seq<RunResult>,
                               requiredRuns: nat)
    requires a.id == b.id && a.version == b.version && forall run :: Matches(leaf, a, run) == Matches(leaf, b, run)
    ensures Verify(leaf, a, control, candidates, requiredRuns) == Verify(leaf, b, control, candidates, requiredRuns)
  {
    SameCount(Matching(leaf, a), Matching(leaf, b), candidates);
  }

  lemma {:induction false} SameCount<T(!new)>(p: T -> bool, q: T -> bool, xs: seq<T>)
    requires forall x :: p(x) == q(x)
    ensures Where(p, xs) == Where(q, xs)
  {
    if xs != [] {
      SameCount(p, q, xs[1..]);
    }
  }

  // ---------------------------------------------------------------------------------------------
  // A field of the output
  // ---------------------------------------------------------------------------------------------

  function Own(v: Value, name: Text): Value {
    match v
    case Obj(members) =>
      var found := Lookup(members, name);
      if found.Some? then found.value else Undefined
    case Arr(items) =>
      if Index(name) && DigitsValue(name) < |items| then items[DigitsValue(name)] else Undefined
    case _ => Undefined
  }

  function AtPath(v: Value, path: seq<Text>): Value
    decreases |path|
  {
    if path == [] then v else AtPath(Own(v, path[0]), path[1..])
  }

  predicate PrintedAlike(a: Value, b: Value) { AsJson(a) == AsJson(b) || (Absent(a) && Absent(b)) }

  /** The field of the output and the expected value are printed alike; inherited names are not looked up. */
  predicate FieldMatches(e: Expression, run: RunResult) {
    && e.JsonField?
    && var output := Parse(Output(run, e.stream));
       output.Some? && PrintedAlike(AtPath(output.value, e.path), e.equals)
  }

  lemma {:induction false} AsJsonTwice(v: Value)
    ensures AsJson(AsJson(v)) == AsJson(v)
  {
    match v
    case Undefined | Foreign | Atom(_) | Str(_) =>
    case Arr(items) => AsJsonItemsTwice(items);
    case Obj(members) => AsJsonMembersTwice(members);
  }

  lemma {:induction false} AsJsonItemsTwice(items: seq<Value>)
    ensures AsJsonItems(AsJsonItems(items)) == AsJsonItems(items)
  {
    if items != [] {
      AsJsonTwice(items[0]);
      AsJsonItemsTwice(items[1..]);
      assert AsJsonItems(items)[1..] == AsJsonItems(items[1..]);
    }
  }

  lemma {:induction false} AsJsonMembersTwice(members: seq<Member>)
    ensures AsJsonMembers(AsJsonMembers(members)) == AsJsonMembers(members)
  {
    if members != [] {
      AsJsonMembersTwice(members[1..]);
      if Absent(members[0].value) {
        assert AsJsonMembers(members) == AsJsonMembers(members[1..]);
      } else {
        AsJsonTwice(members[0].value);
        PrintsFirst(Member(members[0].name, AsJson(members[0].value)), AsJsonMembers(members[1..]));
      }
    }
  }

  lemma FieldsCompareAsJson()
    ensures ComparesAsJson(FieldMatches)
  {
    forall stream, path, equals, run
      ensures FieldMatches(JsonField(stream, path, equals), run) == FieldMatches(JsonField(stream, path, AsJson(equals)), run)
    {
      AsJsonTwice(equals);
    }
  }
}
