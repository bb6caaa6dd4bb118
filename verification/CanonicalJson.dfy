/**
 Canonical JSON: undefined members are dropped, members are sorted by name at every level, and the result is printed.

 The two main results say that the canonical text is a canonical form: it parses back to what the value means, and
 two values have the same canonical text exactly when they mean the same.
 */
module CanonicalJson {
  import opened Wrappers
  import opened Json
  import opened Lists

  /** A comparison of names, such as `localeCompare` without ties between distinct names. */
  type Before = (Text, Text) -> bool

  // ---------------------------------------------------------------------------------------------
  // The order of an object's own properties: array indices first, by value, then the others as inserted
  // ---------------------------------------------------------------------------------------------

  function DigitsValue(s: Text): nat
    requires forall i :: 0 <= i < |s| ==> Digit(s[i])
  {
    if s == [] then 0
    else
      var last := s[|s| - 1];
      assert Digit(last);
      10 * DigitsValue(s[..|s| - 1]) + (last as int - 0x30)
  }

  predicate Decimal(name: Text) {
    name != [] && (forall i :: 0 <= i < |name| ==> Digit(name[i])) && (name[0] == 0x30 ==> |name| == 1)
  }

  /** An array index: the decimal spelling of an integer below 2^32 - 1. */
  predicate Index(name: Text) { Decimal(name) && DigitsValue(name) < 0xFFFF_FFFF }

  predicate IndexBefore(a: Text, b: Text) { Index(a) && Index(b) && DigitsValue(a) < DigitsValue(b) }

  /** The order in which members inserted in the order `before` are listed. */
  predicate OwnBefore(before: Before, a: Text, b: Text) {
    if Index(a) then !Index(b) || IndexBefore(a, b) else !Index(b) && before(a, b)
  }

  /** Members compared by name. */
  function ByName(before: Before): (Member, Member) -> bool { (m: Member, n: Member) => before(m.name, n.name) }

  function Select(index: bool, members: seq<Member>): seq<Member> {
    if members == [] then []
    else if Index(members[0].name) == index then [members[0]] + Select(index, members[1..])
    else Select(index, members[1..])
  }

  /** Object.fromEntries: the members in the order in which the new object lists them. */
  function FromEntries(members: seq<Member>): seq<Member> {
    Sort(ByName(IndexBefore), Select(true, members)) + Select(false, members)
  }

  // ---------------------------------------------------------------------------------------------
  // normalizeJson
  // ---------------------------------------------------------------------------------------------

  /** What normalizeJson accepts: it throws on undefined and foreign values, except undefined members. */
  predicate Supported(v: Value) {
    match v
    case Undefined | Foreign => false
    case Atom(_) | Str(_) => true
    case Arr(items) => forall i :: 0 <= i < |items| ==> Supported(items[i])
    case Obj(members) => forall i :: 0 <= i < |members| ==> members[i].value.Undefined? || Supported(members[i].value)
  }

  predicate Canonical(v: Value) { WellFormed(v) && Supported(v) }

  lemma {:induction false} PlainIsCanonical(v: Value)
    requires Plain(v)
    ensures Canonical(v)
  {
    match v
    case Atom(_) | Str(_) =>
    case Arr(items) =>
      forall i | 0 <= i < |items| ensures Canonical(items[i]) { PlainIsCanonical(items[i]); }
    case Obj(members) =>
      forall i | 0 <= i < |members| ensures Canonical(members[i].value) { PlainIsCanonical(members[i].value); }
  }

  function Normalize(before: Before, v: Value): Value {
    match v
    case Undefined | Foreign | Atom(_) | Str(_) => v
    case Arr(items) => Arr(NormalizeItems(before, items))
    case Obj(members) => Obj(FromEntries(Sort(ByName(before), NormalizeMembers(before, members))))
  }

  function NormalizeItems(before: Before, items: seq<Value>): (r: seq<Value>)
    ensures |r| == |items|
  {
    if items == [] then [] else [Normalize(before, items[0])] + NormalizeItems(before, items[1..])
  }

  /** The defined members with normalised values; names do not change, so sorting may come after. */
  function NormalizeMembers(before: Before, members: seq<Member>): seq<Member> {
    if members == [] then []
    else if members[0].value.Undefined? then NormalizeMembers(before, members[1..])
    else [Member(members[0].name, Normalize(before, members[0].value))] + NormalizeMembers(before, members[1..])
  }

  /** The canonical text; `None` when normalizeJson throws. */
  function CanonicalText(before: Before, v: Value): Option<Text>
    requires WellFormed(v) && Total(before)
  {
    if Supported(v) then
      NormalIsPlain(before, v);
      Some(Print(Normalize(before, v)))
    else None
  }

  // ---------------------------------------------------------------------------------------------
  // The order of a new object's members
  // ---------------------------------------------------------------------------------------------

  lemma {:induction false} ValueBound(s: Text)
    requires Decimal(s) && |s| > 1
    ensures DigitsValue(s) >= 10
  {
    var init := s[..|s| - 1];
    if |init| == 1 {
      assert init[..0] == [];
      assert DigitsValue(init) == init[0] - 0x30;
    } else {
      ValueBound(init);
    }
  }

  lemma {:induction false} SpellingIsUnique(a: Text, b: Text)
    requires Decimal(a) && Decimal(b) && DigitsValue(a) == DigitsValue(b)
    ensures a == b
    decreases |a|
  {
    if |a| == 1 || |b| == 1 {
      if |a| > 1 { ValueBound(a); }
      if |b| > 1 { ValueBound(b); }
      assert a[..0] == [] && b[..0] == [];
    } else {
      assert a == a[..|a| - 1] + [a[|a| - 1]] && b == b[..|b| - 1] + [b[|b| - 1]];
      SpellingIsUnique(a[..|a| - 1], b[..|b| - 1]);
    }
  }

  lemma ByNameIsStrict(before: Before)
    requires StrictOrder(before)
    ensures StrictOrder(ByName(before))
  {
    var order := ByName(before);
    forall m: Member
      ensures !order(m, m)
    {
      assert order(m, m) == before(m.name, m.name);
    }
    forall l: Member, m: Member, n: Member | order(l, m) && order(m, n)
      ensures order(l, n)
    {
      assert before(l.name, m.name) && before(m.name, n.name);
    }
  }

  lemma IndicesAreComparable(members: seq<Member>)
    requires Distinct(members) && forall m :: m in members ==> Index(m.name)
    ensures Comparable(ByName(IndexBefore), members)
  {
    forall i, j | 0 <= i < j < |members|
      ensures IndexBefore(members[i].name, members[j].name) || IndexBefore(members[j].name, members[i].name)
    {
      assert members[i] in members && members[j] in members;
      if DigitsValue(members[i].name) == DigitsValue(members[j].name) {
        SpellingIsUnique(members[i].name, members[j].name);
      }
    }
  }

  lemma {:induction false} SelectKeepsOrder(before: Before, index: bool, members: seq<Member>)
    requires Sorted(ByName(before), members)
    ensures Sorted(ByName(before), Select(index, members))
    ensures forall m :: m in Select(index, members) <==> m in members && Index(m.name) == index
  {
    if members != [] {
      SelectKeepsOrder(before, index, members[1..]);
      assert members == [members[0]] + members[1..];
      var rest := Select(index, members[1..]);
      forall j | 0 <= j < |rest|
        ensures before(members[0].name, rest[j].name)
      {
        assert rest[j] in members[1..];
      }
    }
  }

  function Own(before: Before): Before { (a, b) => OwnBefore(before, a, b) }

  lemma FromEntriesSorts(before: Before, members: seq<Member>)
    requires Total(before) && Sorted(ByName(before), members)
    ensures Sorted(ByName(Own(before)), FromEntries(members)) && SameElements(FromEntries(members), members)
  {
    SelectKeepsOrder(before, true, members);
    SelectKeepsOrder(before, false, members);
    var indices := Select(true, members);
    assert Distinct(indices);
    IndicesAreComparable(indices);
    ByNameIsStrict(IndexBefore);
    SortSorts(ByName(IndexBefore), indices);
    var first := Sort(ByName(IndexBefore), indices);
    assert forall i :: 0 <= i < |first| ==> first[i] in indices;
  }

  /** The members of a normalised object: sorted the same way whatever their order was. */
  lemma NormalMembers(before: Before, members: seq<Member>)
    requires Total(before) && Distinct(members)
    ensures var r := FromEntries(Sort(ByName(before), members));
            Sorted(ByName(Own(before)), r) && SameElements(r, members) && Distinct(r)
  {
    ByNameIsStrict(before);
    SortSorts(ByName(before), members);
    FromEntriesSorts(before, Sort(ByName(before), members));
  }

  // ---------------------------------------------------------------------------------------------
  // What normalisation does
  // ---------------------------------------------------------------------------------------------

  /** Where a normalised member comes from. */
  lemma {:induction false} NormalizedSource(before: Before, members: seq<Member>, m: Member) returns (i: nat)
    requires m in NormalizeMembers(before, members)
    ensures i < |members| && !members[i].value.Undefined?
    ensures m == Member(members[i].name, Normalize(before, members[i].value))
  {
    if !members[0].value.Undefined? && m == Member(members[0].name, Normalize(before, members[0].value)) {
      i := 0;
    } else {
      i := NormalizedSource(before, members[1..], m);
      i := i + 1;
    }
  }

  lemma {:induction false} NormalizedHas(before: Before, members: seq<Member>, i: nat)
    requires i < |members| && !members[i].value.Undefined?
    ensures Member(members[i].name, Normalize(before, members[i].value)) in NormalizeMembers(before, members)
  {
    if i > 0 {
      NormalizedHas(before, members[1..], i - 1);
    }
  }

  lemma {:induction false} NormalizedAreDistinct(before: Before, members: seq<Member>)
    requires Distinct(members)
    ensures Distinct(NormalizeMembers(before, members))
  {
    if members != [] {
      NormalizedAreDistinct(before, members[1..]);
      var rest := NormalizeMembers(before, members[1..]);
      forall k | 0 <= k < |rest|
        ensures rest[k].name != members[0].name
      {
        var i := NormalizedSource(before, members[1..], rest[k]);
        assert members[1..][i] == members[i + 1];
      }
    }
  }

  /** The members of the list before sorting: one for each defined member. */
  lemma NormalizedMembers(before: Before, members: seq<Member>)
    requires Distinct(members)
    ensures Distinct(NormalizeMembers(before, members))
    ensures forall i :: 0 <= i < |members| && !members[i].value.Undefined? ==>
              Member(members[i].name, Normalize(before, members[i].value)) in NormalizeMembers(before, members)
    ensures forall m :: m in NormalizeMembers(before, members) ==>
              exists i :: 0 <= i < |members| && !members[i].value.Undefined?
                          && m == Member(members[i].name, Normalize(before, members[i].value))
  {
    NormalizedAreDistinct(before, members);
    forall i | 0 <= i < |members| && !members[i].value.Undefined?
      ensures Member(members[i].name, Normalize(before, members[i].value)) in NormalizeMembers(before, members)
    {
      NormalizedHas(before, members, i);
    }
    forall m | m in NormalizeMembers(before, members)
      ensures exists i :: 0 <= i < |members| && !members[i].value.Undefined?
                          && m == Member(members[i].name, Normalize(before, members[i].value))
    {
      var i := NormalizedSource(before, members, m);
    }
  }

  lemma {:induction false} NormalIsPlain(before: Before, v: Value)
    requires Total(before) && Canonical(v)
    ensures Plain(Normalize(before, v))
  {
    match v
    case Atom(_) | Str(_) =>
    case Arr(items) => NormalItemsArePlain(before, items);
    case Obj(members) =>
      var list := NormalizeMembers(before, members);
      NormalizedMembers(before, members);
      NormalMembers(before, list);
      forall i | 0 <= i < |members| && !members[i].value.Undefined?
        ensures Plain(Normalize(before, members[i].value))
      {
        NormalIsPlain(before, members[i].value);
      }
      var r := FromEntries(Sort(ByName(before), list));
      assert forall i :: 0 <= i < |r| ==> r[i] in list;
  }

  lemma {:induction false} NormalItemsArePlain(before: Before, items: seq<Value>)
    requires Total(before) && forall i :: 0 <= i < |items| ==> Canonical(items[i])
    ensures PlainItems(NormalizeItems(before, items))
  {
    if items != [] {
      NormalIsPlain(before, items[0]);
      NormalItemsArePlain(before, items[1..]);
    }
  }

  /** Looking a name up in what an object means. */
  lemma {:induction false} DenotedField(members: seq<Member>, i: nat)
    requires Distinct(members) && i < |members| && !members[i].value.Undefined?
    ensures members[i].name in DenoteMembers(members)
    ensures DenoteMembers(members)[members[i].name] == Denote(members[i].value)
  {
    if i > 0 {
      DenotedField(members[1..], i - 1);
    }
  }

  ghost predicate Has(members: seq<Member>, name: Text, meaning: Meaning) {
    exists i :: 0 <= i < |members| && IsField(members[i], name, meaning)
  }

  ghost predicate IsField(m: Member, name: Text, meaning: Meaning) {
    m.name == name && !m.value.Undefined? && Denote(m.value) == meaning
  }

  /** The members of an object are its fields. */
  lemma HasIsField(members: seq<Member>, name: Text, meaning: Meaning)
    requires Distinct(members)
    ensures Has(members, name, meaning) <==> name in DenoteMembers(members) && DenoteMembers(members)[name] == meaning
  {
    DenotedNames(members);
    if Has(members, name, meaning) {
      var i :| 0 <= i < |members| && IsField(members[i], name, meaning);
      DenotedField(members, i);
    }
    if name in DenoteMembers(members) {
      var i :| 0 <= i < |members| && members[i].name == name && !members[i].value.Undefined?;
      DenotedField(members, i);
      assert IsField(members[i], name, DenoteMembers(members)[name]);
    }
  }

  /** Objects with the same fields mean the same. */
  lemma SameFields(one: seq<Member>, other: seq<Member>)
    requires Distinct(one) && Distinct(other)
    requires forall name, meaning :: Has(one, name, meaning) <==> Has(other, name, meaning)
    ensures DenoteMembers(one) == DenoteMembers(other)
  {
    var fields, others := DenoteMembers(one), DenoteMembers(other);
    forall name | name in fields
      ensures name in others && others[name] == fields[name]
    {
      HasIsField(one, name, fields[name]);
      HasIsField(other, name, fields[name]);
    }
    forall name | name in others
      ensures name in fields
    {
      HasIsField(one, name, others[name]);
      HasIsField(other, name, others[name]);
    }
  }

  /** A normalised object means the same, given that its normalised members do. */
  lemma NormalObjectMeansTheSame(before: Before, members: seq<Member>)
    requires Total(before) && Canonical(Obj(members))
    requires forall i :: 0 <= i < |members| && !members[i].value.Undefined? ==>
               Denote(Normalize(before, members[i].value)) == Denote(members[i].value)
    ensures Denote(Normalize(before, Obj(members))) == Denote(Obj(members))
  {
    var list := NormalizeMembers(before, members);
    NormalizedMembers(before, members);
    NormalMembers(before, list);
    var r := FromEntries(Sort(ByName(before), list));
    assert PlainMembers(r) by { NormalIsPlain(before, Obj(members)); }
    forall name, meaning
      ensures Has(r, name, meaning) <==> Has(members, name, meaning)
    {
      if Has(r, name, meaning) {
        var k :| 0 <= k < |r| && IsField(r[k], name, meaning);
        assert r[k] in list;
        var i :| 0 <= i < |members| && !members[i].value.Undefined?
                 && r[k] == Member(members[i].name, Normalize(before, members[i].value));
        assert IsField(members[i], name, meaning);
      }
      if Has(members, name, meaning) {
        var i :| 0 <= i < |members| && IsField(members[i], name, meaning);
        var m := Member(members[i].name, Normalize(before, members[i].value));
        assert m in list && m in r;
        var k :| 0 <= k < |r| && r[k] == m;
        assert Plain(r[k].value);
        assert IsField(r[k], name, meaning);
      }
    }
    SameFields(r, members);
  }

  /** Normalisation keeps the meaning. */
  lemma {:induction false} NormalMeansTheSame(before: Before, v: Value)
    requires Total(before) && Canonical(v)
    ensures Denote(Normalize(before, v)) == Denote(v)
  {
    match v
    case Atom(_) | Str(_) =>
    case Arr(items) => NormalItemsMeanTheSame(before, items);
    case Obj(members) =>
      forall i | 0 <= i < |members| && !members[i].value.Undefined?
        ensures Denote(Normalize(before, members[i].value)) == Denote(members[i].value)
      {
        NormalMeansTheSame(before, members[i].value);
      }
      NormalObjectMeansTheSame(before, members);
  }

  lemma {:induction false} NormalItemsMeanTheSame(before: Before, items: seq<Value>)
    requires Total(before) && forall i :: 0 <= i < |items| ==> Canonical(items[i])
    ensures DenoteItems(NormalizeItems(before, items)) == DenoteItems(items)
  {
    if items != [] {
      NormalMeansTheSame(before, items[0]);
      NormalItemsMeanTheSame(before, items[1..]);
      assert NormalizeItems(before, items)[1..] == NormalizeItems(before, items[1..]);
    }
  }

  // ---------------------------------------------------------------------------------------------
  // Equal meanings have equal normal forms
  // ---------------------------------------------------------------------------------------------

  lemma {:induction false} SameMeaningSameNormal(before: Before, a: Value, b: Value)
    requires Total(before) && Canonical(a) && Canonical(b) && Denote(a) == Denote(b)
    ensures Normalize(before, a) == Normalize(before, b)
  {
    match a
    case Atom(_) | Str(_) =>
    case Arr(items) => SameMeaningSameItems(before, items, b.items);
    case Obj(members) =>
      var one, other := NormalizeMembers(before, members), NormalizeMembers(before, b.members);
      NormalizedMembers(before, members);
      NormalizedMembers(before, b.members);
      NormalMembers(before, one);
      NormalMembers(before, other);
      DenotedNames(members);
      DenotedNames(b.members);
      forall i | 0 <= i < |members| && !members[i].value.Undefined?
        ensures Member(members[i].name, Normalize(before, members[i].value)) in other
      {
        var j := Counterpart(members, b.members, i);
        SameMeaningSameNormal(before, members[i].value, b.members[j].value);
      }
      forall j | 0 <= j < |b.members| && !b.members[j].value.Undefined?
        ensures Member(b.members[j].name, Normalize(before, b.members[j].value)) in one
      {
        var i := Counterpart(b.members, members, j);
        SameMeaningSameNormal(before, members[i].value, b.members[j].value);
      }
      ByNameIsStrict(Own(before));
      SortedIsUnique(ByName(Own(before)), FromEntries(Sort(ByName(before), one)), FromEntries(Sort(ByName(before), other)));
  }

  /** Where the other object has the member of the same name. */
  lemma Counterpart(members: seq<Member>, others: seq<Member>, i: nat) returns (j: nat)
    requires Distinct(members) && Distinct(others) && DenoteMembers(members) == DenoteMembers(others)
    requires i < |members| && !members[i].value.Undefined?
    ensures j < |others| && IsField(others[j], members[i].name, Denote(members[i].value))
  {
    var m := members[i];
    assert IsField(m, m.name, Denote(m.value));
    HasIsField(members, m.name, Denote(m.value));
    HasIsField(others, m.name, Denote(m.value));
    j :| 0 <= j < |others| && IsField(others[j], m.name, Denote(m.value));
  }

  lemma {:induction false} SameMeaningSameItems(before: Before, items: seq<Value>, others: seq<Value>)
    requires Total(before) && DenoteItems(items) == DenoteItems(others)
    requires forall i :: 0 <= i < |items| ==> Canonical(items[i])
    requires forall i :: 0 <= i < |others| ==> Canonical(others[i])
    ensures NormalizeItems(before, items) == NormalizeItems(before, others)
  {
    if items != [] {
      assert DenoteItems(items)[0] == DenoteItems(others)[0];
      assert DenoteItems(items)[1..] == DenoteItems(items[1..]) && DenoteItems(others)[1..] == DenoteItems(others[1..]);
      SameMeaningSameNormal(before, items[0], others[0]);
      SameMeaningSameItems(before, items[1..], others[1..]);
    }
  }

  // ---------------------------------------------------------------------------------------------
  // The normal form
  // ---------------------------------------------------------------------------------------------

  /** At every level, indices come first and ascend by value, and the other names ascend. */
  ghost predicate InOrder(before: Before, v: Value) {
    match v
    case Undefined | Foreign | Atom(_) | Str(_) => true
    case Arr(items) => forall i :: 0 <= i < |items| ==> InOrder(before, items[i])
    case Obj(members) =>
      && (forall i, j :: 0 <= i < j < |members| ==> OwnBefore(before, members[i].name, members[j].name))
      && forall i :: 0 <= i < |members| ==> InOrder(before, members[i].value)
  }

  lemma SortedByOwn(before: Before, members: seq<Member>)
    ensures Sorted(ByName(Own(before)), members)
       <==> forall i, j :: 0 <= i < j < |members| ==> OwnBefore(before, members[i].name, members[j].name)
  {
    assert forall i, j :: 0 <= i < j < |members| ==>
             (ByName(Own(before))(members[i], members[j]) <==> OwnBefore(before, members[i].name, members[j].name));
  }

  lemma {:induction false} NormalIsInOrder(before: Before, v: Value)
    requires Total(before) && Canonical(v)
    ensures InOrder(before, Normalize(before, v))
  {
    match v
    case Atom(_) | Str(_) =>
    case Arr(items) => NormalItemsAreInOrder(before, items);
    case Obj(members) =>
      var list := NormalizeMembers(before, members);
      var r := FromEntries(Sort(ByName(before), list));
      NormalizedMembers(before, members);
      NormalMembers(before, list);
      SortedByOwn(before, r);
      forall i | 0 <= i < |r|
        ensures InOrder(before, r[i].value)
      {
        assert r[i] in list;
        var k := NormalizedSource(before, members, r[i]);
        NormalIsInOrder(before, members[k].value);
      }
  }

  lemma {:induction false} NormalItemsAreInOrder(before: Before, items: seq<Value>)
    requires Total(before) && forall i :: 0 <= i < |items| ==> Canonical(items[i])
    ensures forall i :: 0 <= i < |items| ==> InOrder(before, NormalizeItems(before, items)[i])
  {
    if items != [] {
      NormalIsInOrder(before, items[0]);
      NormalItemsAreInOrder(before, items[1..]);
    }
  }

  /** A value in order is its own normal form. */
  lemma {:induction false} InOrderIsNormal(before: Before, v: Value)
    requires Total(before) && Plain(v) && InOrder(before, v)
    ensures Normalize(before, v) == v
  {
    match v
    case Atom(_) | Str(_) =>
    case Arr(items) => ItemsInOrderAreNormal(before, items);
    case Obj(members) =>
      MembersInOrderAreNormal(before, members);
      NormalMembers(before, members);
      SortedByOwn(before, members);
      ByNameIsStrict(Own(before));
      SortedIsUnique(ByName(Own(before)), FromEntries(Sort(ByName(before), members)), members);
  }

  lemma {:induction false} ItemsInOrderAreNormal(before: Before, items: seq<Value>)
    requires Total(before) && forall i :: 0 <= i < |items| ==> Plain(items[i]) && InOrder(before, items[i])
    ensures NormalizeItems(before, items) == items
  {
    if items != [] {
      InOrderIsNormal(before, items[0]);
      ItemsInOrderAreNormal(before, items[1..]);
    }
  }

  lemma {:induction false} MembersInOrderAreNormal(before: Before, members: seq<Member>)
    requires Total(before) && forall i :: 0 <= i < |members| ==> Plain(members[i].value) && InOrder(before, members[i].value)
    ensures NormalizeMembers(before, members) == members
  {
    if members != [] {
      InOrderIsNormal(before, members[0].value);
      MembersInOrderAreNormal(before, members[1..]);
    }
  }

  // ---------------------------------------------------------------------------------------------
  // What JSON.stringify keeps
  // ---------------------------------------------------------------------------------------------

  /** Values JSON.stringify has no text for: it writes null for them in a list, and leaves such members out. */
  predicate Absent(v: Value) { v.Undefined? || v.Foreign? }

  /** The value that JSON.stringify prints; a bigint, for which it throws, is not told from a function. */
  function AsJson(v: Value): (r: Value)
    ensures Absent(r) <==> Absent(v)
  {
    match v
    case Undefined | Foreign | Atom(_) | Str(_) => v
    case Arr(items) => Arr(AsJsonItems(items))
    case Obj(members) => Obj(AsJsonMembers(members))
  }

  function AsJsonItems(items: seq<Value>): (r: seq<Value>)
    ensures |r| == |items|
  {
    if items == [] then []
    else [if Absent(items[0]) then Atom(NULL) else AsJson(items[0])] + AsJsonItems(items[1..])
  }

  function AsJsonMembers(members: seq<Member>): seq<Member> {
    if members == [] then []
    else (if Absent(members[0].value) then [] else [Member(members[0].name, AsJson(members[0].value))])
         + AsJsonMembers(members[1..])
  }

  /** For a value that can be canonicalised, what is printed has no undefined parts and means the same. */
  lemma {:induction false} AsJsonIsPlain(v: Value)
    requires Canonical(v)
    ensures Plain(AsJson(v)) && Denote(AsJson(v)) == Denote(v)
  {
    match v
    case Atom(_) | Str(_) =>
    case Arr(items) => AsJsonItemsArePlain(items);
    case Obj(members) => AsJsonMembersArePlain(members);
  }

  lemma {:induction false} AsJsonItemsArePlain(items: seq<Value>)
    requires forall i :: 0 <= i < |items| ==> Canonical(items[i])
    ensures PlainItems(AsJsonItems(items)) && DenoteItems(AsJsonItems(items)) == DenoteItems(items)
  {
    if items != [] {
      AsJsonIsPlain(items[0]);
      AsJsonItemsArePlain(items[1..]);
      assert AsJsonItems(items)[1..] == AsJsonItems(items[1..]);
    }
  }

  lemma {:induction false} AsJsonAddsNoName(members: seq<Member>, name: Text)
    requires forall i :: 0 <= i < |members| ==> members[i].name != name
    ensures forall k :: 0 <= k < |AsJsonMembers(members)| ==> AsJsonMembers(members)[k].name != name
  {
    if members != [] {
      AsJsonAddsNoName(members[1..], name);
    }
  }

  lemma {:induction false} AsJsonMembersArePlain(members: seq<Member>)
    requires Distinct(members)
    requires forall i :: 0 <= i < |members| ==> members[i].value.Undefined? || Canonical(members[i].value)
    ensures PlainMembers(AsJsonMembers(members)) && DenoteMembers(AsJsonMembers(members)) == DenoteMembers(members)
  {
    if members != [] {
      AsJsonMembersArePlain(members[1..]);
      if members[0].value.Undefined? {
        assert AsJsonMembers(members) == AsJsonMembers(members[1..]);
      } else {
        AsJsonIsPlain(members[0].value);
        AsJsonAddsNoName(members[1..], members[0].name);
        OneMorePlain(Member(members[0].name, AsJson(members[0].value)), AsJsonMembers(members[1..]));
      }
    }
  }

  lemma OneMorePlain(m: Member, rest: seq<Member>)
    requires Plain(m.value) && PlainMembers(rest) && forall k :: 0 <= k < |rest| ==> rest[k].name != m.name
    ensures PlainMembers([m] + rest) && DenoteMembers([m] + rest) == DenoteMembers(rest)[m.name := Denote(m.value)]
  {
    assert ([m] + rest)[1..] == rest;
  }

  // ---------------------------------------------------------------------------------------------
  // Main results
  // ---------------------------------------------------------------------------------------------

  /** The canonical text parses back to the normal form, which means the same as the value. */
  lemma CanonicalTextParses(before: Before, v: Value)
    requires Total(before) && Canonical(v)
    ensures var parsed := Parse(CanonicalText(before, v).value);
            parsed == Some(Normalize(before, v)) && Denote(parsed.value) == Denote(v)
  {
    NormalIsPlain(before, v);
    NormalMeansTheSame(before, v);
    ParseUndoesPrint(Normalize(before, v));
  }

  /** The canonical text of a value is the printing of the one value in order that means the same. */
  lemma CanonicalTextExactly(before: Before, v: Value, w: Value)
    requires Total(before) && Canonical(v) && Plain(w)
    ensures CanonicalText(before, v) == Some(Print(w)) <==> InOrder(before, w) && Denote(w) == Denote(v)
  {
    if CanonicalText(before, v) == Some(Print(w)) {
      CanonicalTextParses(before, v);
      ParseUndoesPrint(w);
      NormalIsInOrder(before, v);
    }
    if InOrder(before, w) && Denote(w) == Denote(v) {
      PlainIsCanonical(w);
      SameMeaningSameNormal(before, v, w);
      InOrderIsNormal(before, w);
    }
  }

  /**
   Two values have the same canonical text exactly when they mean the same: neither the order of members nor
   undefined members ever show, and nothing else is lost.
   */
  lemma SameTextMeansSameMeaning(before: Before, a: Value, b: Value)
    requires Total(before) && Canonical(a) && Canonical(b)
    ensures CanonicalText(before, a) == CanonicalText(before, b) <==> Denote(a) == Denote(b)
  {
    CanonicalTextParses(before, a);
    CanonicalTextParses(before, b);
    if Denote(a) == Denote(b) {
      SameMeaningSameNormal(before, a, b);
    }
  }
}
