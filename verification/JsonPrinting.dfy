/** What is printed of a JSON value: exactly the text that JSON.stringify writes, without any white space. */
module JsonPrinting {
  import opened Wrappers
  import opened Json
  import Texts

  /** Neither a quote nor a backslash nor a control character nor half of a surrogate pair. */
  predicate Ordinary(c: CodeUnit) { c >= 0x20 && c != QUOTE && c != BACKSLASH && !(0xD800 <= c <= 0xDFFF) }

  /** Ordinary text is printed as it is, between quotes. */
  lemma OrdinaryTextIsPrinted(t: Text)
    requires forall i :: 0 <= i < |t| ==> Ordinary(t[i])
    ensures Print(Str(t)) == [QUOTE] + t + [QUOTE]
  {
    OrdinaryTextIsKept(t, [QUOTE]);
    assert [QUOTE] + [] == [QUOTE];
  }

  lemma OrdinaryUnitIsKept(c: CodeUnit)
    requires Ordinary(c)
    ensures EscapeUnit(c) == [c] && !High(c)
  {
  }

  lemma {:induction false} OrdinaryTextIsKept(t: Text, rest: Text)
    requires forall i :: 0 <= i < |t| ==> Ordinary(t[i])
    ensures Escape(t, rest) == t + rest
  {
    if t != [] {
      OrdinaryUnitIsKept(t[0]);
      OrdinaryTextIsKept(t[1..], rest);
      assert Escape(t, rest) == [t[0]] + (t[1..] + rest);
    }
  }

  /** A unit that is not ordinary is escaped: by a letter where there is one, or else by four small hexadecimal digits. */
  lemma EscapesOthers(c: CodeUnit)
    requires !Ordinary(c)
    ensures Escape([c], []) == match c
                               case 0x22 => [BACKSLASH, '\"' as int]
                               case 0x5C => [BACKSLASH, '\\' as int]
                               case 0x08 => [BACKSLASH, 'b' as int]
                               case 0x09 => [BACKSLASH, 't' as int]
                               case 0x0A => [BACKSLASH, 'n' as int]
                               case 0x0C => [BACKSLASH, 'f' as int]
                               case 0x0D => [BACKSLASH, 'r' as int]
                               case _ => [BACKSLASH, 'u' as int] + Hex(c)
    ensures forall i :: 0 <= i < 4 ==> '0' as int <= Hex(c)[i] <= '9' as int || 'a' as int <= Hex(c)[i] <= 'f' as int
    ensures ParseHex(Hex(c)) == Some(c)
  {
    HexRoundTrip(c);
    assert [c][1..] == [] && EscapeUnit(c) + [] == EscapeUnit(c);
  }

  function PrintedItems(items: seq<Value>): (r: seq<Text>)
    requires PlainItems(items)
    ensures |r| == |items| && forall i :: 0 <= i < |r| ==> r[i] == Print(items[i])
  {
    if items == [] then [] else [Print(items[0])] + PrintedItems(items[1..])
  }

  function PrintedMembers(members: seq<Member>): (r: seq<Text>)
    requires PlainMembers(members)
    ensures |r| == |members| && forall i :: 0 <= i < |r| ==> r[i] == Print(Str(members[i].name)) + [COLON] + Print(members[i].value)
  {
    if members == [] then []
    else [Print(Str(members[0].name)) + [COLON] + Print(members[0].value)] + PrintedMembers(members[1..])
  }

  lemma {:induction false} ItemsAreJoined(items: seq<Value>, rest: Text)
    requires PlainItems(items)
    ensures PrintItems(items, rest) == Texts.Join(COMMA, PrintedItems(items)) + rest
  {
    if items != [] {
      var more := if |items| == 1 then rest else [COMMA] + PrintItems(items[1..], rest);
      ItemsAreJoined(items[1..], rest);
      PrintsBefore(items[0], more);
      assert PrintedItems(items)[1..] == PrintedItems(items[1..]);
      Texts.JoinsFirst(COMMA, PrintedItems(items), rest);
    }
  }

  lemma PrintsBefore(v: Value, more: Text)
    requires Plain(v)
    ensures PrintBefore(v, more) == Print(v) + more
  {
    PrintAppend(v, [], more);
    assert [] + more == more;
  }

  lemma Regrouped(a: Text, b: Text, c: Text, d: Text)
    ensures a + (b + (c + d)) == a + b + c + d
  {
  }

  lemma MemberIsPrinted(m: Member, more: Text)
    requires Plain(m.value)
    ensures Quote(m.name, [COLON] + PrintBefore(m.value, more)) == Print(Str(m.name)) + [COLON] + Print(m.value) + more
  {
    PrintsBefore(m.value, more);
    PrintsBefore(Str(m.name), [COLON] + PrintBefore(m.value, more));
    Regrouped(Print(Str(m.name)), [COLON], Print(m.value), more);
  }

  lemma {:induction false} MembersAreJoined(members: seq<Member>, rest: Text)
    requires PlainMembers(members)
    ensures PrintMembers(members, rest) == Texts.Join(COMMA, PrintedMembers(members)) + rest
  {
    if members != [] {
      var m, more := members[0], if |members| == 1 then rest else [COMMA] + PrintMembers(members[1..], rest);
      MembersAreJoined(members[1..], rest);
      MemberIsPrinted(m, more);
      assert PrintedMembers(members)[1..] == PrintedMembers(members[1..]);
      Texts.JoinsFirst(COMMA, PrintedMembers(members), rest);
    }
  }

  /** Lists and objects are printed without any white space: their parts, with commas between them. */
  lemma PrintsCompactly(v: Value)
    requires Plain(v)
    ensures v.Atom? ==> Print(v) == v.token
    ensures v.Arr? ==> Print(v) == [OPEN_LIST] + Texts.Join(COMMA, PrintedItems(v.items)) + [CLOSE_LIST]
    ensures v.Obj? ==> Print(v) == [OPEN_RECORD] + Texts.Join(COMMA, PrintedMembers(v.members)) + [CLOSE_RECORD]
  {
    match v
    case Arr(items) =>
      ItemsAreJoined(items, [CLOSE_LIST]);
      assert [CLOSE_LIST] + [] == [CLOSE_LIST];
    case Obj(members) =>
      MembersAreJoined(members, [CLOSE_RECORD]);
      assert [CLOSE_RECORD] + [] == [CLOSE_RECORD];
    case _ =>
  }
}
