/** Cutting a text at a separator and joining the parts again. */
module Texts {
  import opened Json

  /** `text.split(separator)` for a separator of one code unit. */
  function Split(separator: CodeUnit, text: Text): (parts: seq<Text>)
    ensures parts != []
  {
    if text == [] then [[]]
    else if text[0] == separator then [[]] + Split(separator, text[1..])
    else
      var rest := Split(separator, text[1..]);
      [[text[0]] + rest[0]] + rest[1..]
  }

  /** `parts.join(separator)`. */
  function Join(separator: CodeUnit, parts: seq<Text>): Text {
    if parts == [] then []
    else if |parts| == 1 then parts[0]
    else parts[0] + [separator] + Join(separator, parts[1..])
  }

  /** The first of the parts joined, and what follows it. */
  lemma JoinsFirst(separator: CodeUnit, parts: seq<Text>, rest: Text)
    requires parts != []
    ensures Join(separator, parts) + rest
         == parts[0] + if |parts| == 1 then rest else [separator] + (Join(separator, parts[1..]) + rest)
  {
  }

  predicate Without(separator: CodeUnit, text: Text) { separator !in text }

  /** One more unit in front of the first part. */
  lemma JoinPrepended(separator: CodeUnit, c: CodeUnit, parts: seq<Text>)
    requires parts != []
    ensures Join(separator, [[c] + parts[0]] + parts[1..]) == [c] + Join(separator, parts)
  {
    var more := [[c] + parts[0]] + parts[1..];
    assert more[1..] == parts[1..];
    if |parts| > 1 {
      assert [c] + parts[0] + [separator] + Join(separator, parts[1..])
          == [c] + (parts[0] + [separator] + Join(separator, parts[1..]));
    }
  }

  lemma {:induction false} JoinUndoesSplit(separator: CodeUnit, text: Text)
    ensures Join(separator, Split(separator, text)) == text
  {
    if text != [] {
      var rest := Split(separator, text[1..]);
      JoinUndoesSplit(separator, text[1..]);
      assert text == [text[0]] + text[1..];
      if text[0] == separator {
        assert ([[]] + rest)[1..] == rest;
        assert Join(separator, [[]] + rest) == [] + [separator] + Join(separator, rest);
      } else {
        JoinPrepended(separator, text[0], rest);
      }
    }
  }

  lemma {:induction false} PartsAreWithout(separator: CodeUnit, text: Text)
    ensures forall i :: 0 <= i < |Split(separator, text)| ==> Without(separator, Split(separator, text)[i])
  {
    if text != [] {
      PartsAreWithout(separator, text[1..]);
    }
  }

  lemma {:induction false} SplitOfOne(separator: CodeUnit, part: Text)
    requires Without(separator, part)
    ensures Split(separator, part) == [part]
  {
    if part != [] {
      SplitOfOne(separator, part[1..]);
      assert part == [part[0]] + part[1..];
    }
  }

  lemma {:induction false} SplitOfMore(separator: CodeUnit, part: Text, rest: Text)
    requires Without(separator, part)
    ensures Split(separator, part + [separator] + rest) == [part] + Split(separator, rest)
  {
    var text := part + [separator] + rest;
    if part == [] {
      assert text[1..] == rest;
    } else {
      SplitOfMore(separator, part[1..], rest);
      assert text[1..] == part[1..] + [separator] + rest;
      assert part == [part[0]] + part[1..];
    }
  }

  lemma {:induction false} SplitUndoesJoin(separator: CodeUnit, parts: seq<Text>)
    requires parts != [] && forall i :: 0 <= i < |parts| ==> Without(separator, parts[i])
    ensures Split(separator, Join(separator, parts)) == parts
  {
    if |parts| == 1 {
      SplitOfOne(separator, parts[0]);
    } else {
      SplitUndoesJoin(separator, parts[1..]);
      SplitOfMore(separator, parts[0], Join(separator, parts[1..]));
      assert parts == [parts[0]] + parts[1..];
    }
  }
}
