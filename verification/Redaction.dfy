/**
 Redaction of registered secrets: the text is cut at the redaction marker, every leftmost longest secret in a
 segment is replaced by the marker, and the segments are joined again.

 The marker has no proper border, which is what makes cutting at markers and joining with markers undo each other.
 */
module Redaction {
  import opened Json

  /** [REDACTED] */
  const MARKER: Text := [0x5B, 0x52, 0x45, 0x44, 0x41, 0x43, 0x54, 0x45, 0x44, 0x5D]

  // ---------------------------------------------------------------------------------------------
  // The pattern
  // ---------------------------------------------------------------------------------------------

  /** `new Set(secrets.filter(length > 0))`: first occurrences, in order. */
  function Unique(secrets: seq<Text>): (r: seq<Text>)
    ensures forall s :: s in r <==> s in secrets && s != []
    ensures forall i, j :: 0 <= i < j < |r| ==> r[i] != r[j]
  {
    if secrets == [] then []
    else
      var last := secrets[|secrets| - 1];
      var before := Unique(secrets[..|secrets| - 1]);
      if last == [] || last in before then before else before + [last]
  }

  /** Insertion keeping longer texts first, and the earlier of two equally long ones first. */
  function Insert(s: Text, sorted: seq<Text>): (r: seq<Text>)
    ensures |r| == |sorted| + 1
    ensures forall t :: t in r <==> t == s || t in sorted
    ensures LongestFirst(sorted) ==> LongestFirst(r)
  {
    if sorted == [] || |sorted[0]| <= |s| then [s] + sorted
    else
      var rest := Insert(s, sorted[1..]);
      assert forall t :: t in rest ==> t == s || t in sorted[1..];
      assert LongestFirst(sorted) ==> forall t :: t in rest ==> |t| <= |sorted[0]|;
      [sorted[0]] + rest
  }

  predicate LongestFirst(ts: seq<Text>) {
    forall i, j :: 0 <= i < j < |ts| ==> |ts[i]| >= |ts[j]|
  }

  /** `sort((left, right) => right.length - left.length)`, which is stable. */
  function ByLength(ts: seq<Text>): (r: seq<Text>)
    ensures forall t :: t in r <==> t in ts
    ensures LongestFirst(r)
  {
    if ts == [] then [] else Insert(ts[0], ByLength(ts[1..]))
  }

  /** The alternatives of the regular expression, in order. */
  function Alternatives(secrets: seq<Text>): seq<Text> { ByLength(Unique(secrets)) }

  predicate At(s: Text, value: Text) { s <= value }

  /** The first alternative that matches at the start of `value`, or the empty text. */
  function FirstMatch(alternatives: seq<Text>, value: Text): (m: Text)
    ensures m == [] || (m in alternatives && At(m, value))
  {
    if alternatives == [] then []
    else if alternatives[0] != [] && At(alternatives[0], value) then alternatives[0]
    else FirstMatch(alternatives[1..], value)
  }

  // ---------------------------------------------------------------------------------------------
  // split, replace, join
  // ---------------------------------------------------------------------------------------------

  /** `value.replace(pattern, MARKER)` as the pieces of text between the replaced matches. */
  function Pieces(alternatives: seq<Text>, value: Text, piece: Text): (r: seq<Text>)
    ensures |r| > 0
    decreases |value|
  {
    if value == [] then [piece]
    else
      var m := FirstMatch(alternatives, value);
      if m == [] then Pieces(alternatives, value[1..], piece + [value[0]])
      else [piece] + Pieces(alternatives, value[|m|..], [])
  }

  /** `value.split(MARKER)`. */
  function Split(value: Text, piece: Text): (r: seq<Text>)
    ensures |r| > 0
    decreases |value|
  {
    if value == [] then [piece]
    else if At(MARKER, value) then [piece] + Split(value[|MARKER|..], [])
    else Split(value[1..], piece + [value[0]])
  }

  /** `join(MARKER)`. */
  function Join(pieces: seq<Text>): Text
    requires |pieces| > 0
  {
    if |pieces| == 1 then pieces[0] else pieces[0] + MARKER + Join(pieces[1..])
  }

  function ReplaceAll(alternatives: seq<Text>, segments: seq<Text>): (r: seq<Text>)
    ensures |r| == |segments|
  {
    if segments == [] then []
    else [Join(Pieces(alternatives, segments[0], []))] + ReplaceAll(alternatives, segments[1..])
  }

  function RedactString(value: Text, secrets: seq<Text>): Text {
    var alternatives := Alternatives(secrets);
    if alternatives == [] then value
    else Join(ReplaceAll(alternatives, Split(value, [])))
  }

  function RedactSecrets(value: Value, secrets: seq<Text>): Value {
    match value
    case Str(text) => Str(RedactString(text, secrets))
    case Undefined | Foreign | Atom(_) => value
    case Arr(items) => Arr(RedactItems(items, secrets))
    case Obj(members) => Obj(RedactMembers(members, secrets))
  }

  function RedactItems(items: seq<Value>, secrets: seq<Text>): (r: seq<Value>)
    ensures |r| == |items|
  {
    if items == [] then [] else [RedactSecrets(items[0], secrets)] + RedactItems(items[1..], secrets)
  }

  /** Member names are kept. */
  function RedactMembers(members: seq<Member>, secrets: seq<Text>): (r: seq<Member>)
    ensures |r| == |members|
  {
    if members == [] then []
    else [Member(members[0].name, RedactSecrets(members[0].value, secrets))] + RedactMembers(members[1..], secrets)
  }

  // ---------------------------------------------------------------------------------------------
  // Occurrences
  // ---------------------------------------------------------------------------------------------

  /** No non-empty alternative matches at the start of `value`. */
  ghost predicate NoMatch(alternatives: seq<Text>, value: Text) {
    forall a :: a in alternatives && a != [] ==> !At(a, value)
  }

  /** No non-empty alternative occurs anywhere in `value`. */
  ghost predicate Free(alternatives: seq<Text>, value: Text) {
    forall i :: 0 <= i < |value| ==> NoMatch(alternatives, value[i..])
  }

  ghost predicate MarkerFree(value: Text) {
    forall i :: 0 <= i < |value| ==> !At(MARKER, value[i..])
  }

  ghost predicate Clean(alternatives: seq<Text>, pieces: seq<Text>) {
    forall p :: p in pieces ==> MarkerFree(p) && Free(alternatives, p)
  }

  ghost predicate Contains(value: Text, s: Text) {
    exists i :: 0 <= i <= |value| && At(s, value[i..])
  }

  lemma {:induction false} FirstMatchMeans(alternatives: seq<Text>, value: Text)
    ensures FirstMatch(alternatives, value) == [] <==> NoMatch(alternatives, value)
  {
    if alternatives != [] {
      FirstMatchMeans(alternatives[1..], value);
      assert alternatives == [alternatives[0]] + alternatives[1..];
    }
  }

  lemma AtExtends(s: Text, value: Text, more: Text)
    requires At(s, value)
    ensures At(s, value + more)
  {
  }

  /** The marker has no proper border: none of its proper suffixes is one of its prefixes. */
  lemma MarkerHasNoBorder(n: nat)
    requires 0 < n < |MARKER|
    ensures MARKER[..|MARKER| - n] != MARKER[n..]
  {
    // Its first code unit occurs nowhere else in it.
    assert MARKER[..|MARKER| - n][0] == 0x5B;
    assert MARKER[n..][0] == MARKER[n];
  }

  /** A marker cannot begin inside a marker-free text and end in the marker that follows it. */
  lemma MarkersDoNotStraddle(piece: Text, rest: Text)
    requires piece != [] && !At(MARKER, piece)
    requires rest == [] || At(MARKER, rest)
    ensures !At(MARKER, piece + rest)
  {
    var n, whole := |piece|, piece + rest;
    if n < |MARKER| && At(MARKER, whole) {
      assert MARKER == whole[..|MARKER|];
      assert rest != [];
      assert MARKER[n..] == rest[..|MARKER| - n] == MARKER[..|MARKER| - n];
      MarkerHasNoBorder(n);
    } else if n >= |MARKER| {
      assert whole[..|MARKER|] == piece[..|MARKER|];
    }
  }

  // ---------------------------------------------------------------------------------------------
  // split undoes join on marker-free pieces
  // ---------------------------------------------------------------------------------------------

  lemma {:induction false} SplitSkips(piece: Text, rest: Text, acc: Text)
    requires MarkerFree(piece)
    requires rest == [] || At(MARKER, rest)
    ensures Split(piece + rest, acc) == Split(rest, acc + piece)
    decreases |piece|
  {
    if piece == [] {
      assert piece + rest == rest && acc + piece == acc;
    } else {
      assert piece[0..] == piece;
      MarkersDoNotStraddle(piece, rest);
      assert (piece + rest)[1..] == piece[1..] + rest;
      assert forall i :: 0 <= i < |piece[1..]| ==> piece[1..][i..] == piece[i + 1..];
      SplitSkips(piece[1..], rest, acc + [piece[0]]);
      assert acc + [piece[0]] + piece[1..] == acc + piece;
    }
  }

  lemma {:induction false} SplitJoin(pieces: seq<Text>)
    requires |pieces| > 0 && forall p :: p in pieces ==> MarkerFree(p)
    ensures Split(Join(pieces), []) == pieces
  {
    var first := pieces[0];
    if |pieces| == 1 {
      SplitSkips(first, [], []);
      assert first + [] == first && [] + first == first;
      assert Split([], first) == [first];
    } else {
      var rest := MARKER + Join(pieces[1..]);
      SplitSkips(first, rest, []);
      assert Join(pieces) == first + rest && [] + first == first;
      assert rest[|MARKER|..] == Join(pieces[1..]);
      assert Split(rest, first) == [first] + Split(Join(pieces[1..]), []);
      SplitJoin(pieces[1..]);
    }
  }

  lemma {:induction false} JoinConcat(a: seq<Text>, b: seq<Text>)
    requires |a| > 0 && |b| > 0
    ensures Join(a + b) == Join(a) + MARKER + Join(b)
  {
    if |a| == 1 {
      assert (a + b)[1..] == b;
    } else {
      assert (a + b)[0] == a[0] && (a + b)[1..] == a[1..] + b;
      JoinConcat(a[1..], b);
    }
  }

  // ---------------------------------------------------------------------------------------------
  // What one pass leaves between the markers
  // ---------------------------------------------------------------------------------------------

  lemma {:induction false} SplitIsMarkerFree(value: Text, acc: Text)
    requires forall i :: 0 <= i < |acc| ==> !At(MARKER, (acc + value)[i..])
    ensures forall p :: p in Split(value, acc) ==> MarkerFree(p)
    decreases |value|
  {
    if value == [] {
      assert acc + value == acc;
    } else if At(MARKER, value) {
      CutIsMarkerFree(acc, value);
      SplitIsMarkerFree(value[|MARKER|..], []);
    } else {
      assert (acc + [value[0]]) + value[1..] == acc + value;
      assert (acc + value)[|acc|..] == value;
      SplitIsMarkerFree(value[1..], acc + [value[0]]);
    }
  }

  lemma CutIsMarkerFree(acc: Text, value: Text)
    requires forall i :: 0 <= i < |acc| ==> !At(MARKER, (acc + value)[i..])
    ensures MarkerFree(acc)
  {
    forall i | 0 <= i < |acc|
      ensures !At(MARKER, acc[i..])
    {
      assert (acc + value)[i..] == acc[i..] + value;
      if At(MARKER, acc[i..]) {
        AtExtends(MARKER, acc[i..], value);
      }
    }
  }

  lemma CutIsFree(alternatives: seq<Text>, acc: Text, value: Text)
    requires forall i :: 0 <= i < |acc| ==> NoMatch(alternatives, (acc + value)[i..])
    ensures Free(alternatives, acc)
  {
    forall i, a | 0 <= i < |acc| && a in alternatives && a != []
      ensures !At(a, acc[i..])
    {
      assert (acc + value)[i..] == acc[i..] + value;
      if At(a, acc[i..]) {
        AtExtends(a, acc[i..], value);
      }
    }
  }

  lemma {:induction false} PiecesAreClean(alternatives: seq<Text>, value: Text, acc: Text)
    requires forall i :: 0 <= i < |acc + value| ==> !At(MARKER, (acc + value)[i..])
    requires forall i :: 0 <= i < |acc| ==> NoMatch(alternatives, (acc + value)[i..])
    ensures Clean(alternatives, Pieces(alternatives, value, acc))
    decreases |value|
  {
    CutIsMarkerFree(acc, value);
    CutIsFree(alternatives, acc, value);
    if value != [] {
      var m := FirstMatch(alternatives, value);
      FirstMatchMeans(alternatives, value);
      assert (acc + value)[|acc|..] == value;
      if m == [] {
        assert (acc + [value[0]]) + value[1..] == acc + value;
        PiecesAreClean(alternatives, value[1..], acc + [value[0]]);
      } else {
        var rest := value[|m|..];
        assert [] + rest == rest;
        forall i | 0 <= i < |rest|
          ensures !At(MARKER, rest[i..])
        {
          assert rest[i..] == (acc + value)[|acc| + |m| + i..];
        }
        PiecesAreClean(alternatives, rest, []);
      }
    }
  }

  lemma {:induction false} FreeTextIsOnePiece(alternatives: seq<Text>, value: Text, acc: Text)
    requires Free(alternatives, value)
    ensures Pieces(alternatives, value, acc) == [acc + value]
    decreases |value|
  {
    if value == [] {
      assert acc + value == acc;
    } else {
      assert value[0..] == value;
      FirstMatchMeans(alternatives, value);
      assert forall i :: 0 <= i < |value[1..]| ==> value[1..][i..] == value[i + 1..];
      FreeTextIsOnePiece(alternatives, value[1..], acc + [value[0]]);
      assert acc + [value[0]] + value[1..] == acc + value;
    }
  }

  /** All the pieces of all the segments. */
  function AllPieces(alternatives: seq<Text>, segments: seq<Text>): (r: seq<Text>)
    ensures |r| >= |segments|
  {
    if segments == [] then []
    else Pieces(alternatives, segments[0], []) + AllPieces(alternatives, segments[1..])
  }

  lemma {:induction false} JoinReplaced(alternatives: seq<Text>, segments: seq<Text>)
    requires |segments| > 0
    ensures Join(ReplaceAll(alternatives, segments)) == Join(AllPieces(alternatives, segments))
  {
    var first := Pieces(alternatives, segments[0], []);
    if |segments| == 1 {
      assert first + AllPieces(alternatives, segments[1..]) == first;
    } else {
      var rest := AllPieces(alternatives, segments[1..]);
      JoinReplaced(alternatives, segments[1..]);
      JoinConcat(first, rest);
      assert ReplaceAll(alternatives, segments)[1..] == ReplaceAll(alternatives, segments[1..]);
    }
  }

  lemma {:induction false} AllPiecesAreClean(alternatives: seq<Text>, segments: seq<Text>)
    requires forall p :: p in segments ==> MarkerFree(p)
    ensures Clean(alternatives, AllPieces(alternatives, segments))
  {
    if segments != [] {
      var none: Text := [];
      assert segments[0] in segments && none + segments[0] == segments[0];
      PiecesAreClean(alternatives, segments[0], []);
      AllPiecesAreClean(alternatives, segments[1..]);
    }
  }

  lemma {:induction false} CleanPiecesStay(alternatives: seq<Text>, pieces: seq<Text>)
    requires Clean(alternatives, pieces)
    ensures ReplaceAll(alternatives, pieces) == pieces
  {
    if pieces != [] {
      FreeTextIsOnePiece(alternatives, pieces[0], []);
      assert [] + pieces[0] == pieces[0];
      CleanPiecesStay(alternatives, pieces[1..]);
    }
  }

  /** The redacted text is clean pieces joined by markers, and splitting it gives exactly those pieces. */
  lemma RedactedForm(value: Text, secrets: seq<Text>)
    requires Alternatives(secrets) != []
    ensures var pieces := Split(RedactString(value, secrets), []);
            Clean(Alternatives(secrets), pieces) && RedactString(value, secrets) == Join(pieces)
  {
    var alternatives := Alternatives(secrets);
    var segments := Split(value, []);
    SplitIsMarkerFree(value, []);
    AllPiecesAreClean(alternatives, segments);
    JoinReplaced(alternatives, segments);
    SplitJoin(AllPieces(alternatives, segments));
  }

  // ---------------------------------------------------------------------------------------------
  // Main results
  // ---------------------------------------------------------------------------------------------

  /** Redacting twice is redacting once. */
  lemma RedactStringIsIdempotent(value: Text, secrets: seq<Text>)
    ensures RedactString(RedactString(value, secrets), secrets) == RedactString(value, secrets)
  {
    if Alternatives(secrets) != [] {
      RedactedForm(value, secrets);
      CleanPiecesStay(Alternatives(secrets), Split(RedactString(value, secrets), []));
    }
  }

  /** No registered secret occurs in the text between the markers of the output. */
  lemma NoSecretBetweenMarkers(value: Text, secrets: seq<Text>, piece: Text, secret: Text)
    requires piece in Split(RedactString(value, secrets), [])
    requires secret in secrets && secret != []
    ensures !Contains(piece, secret)
  {
    assert secret in Alternatives(secrets);
    RedactedForm(value, secrets);
    if Contains(piece, secret) {
      var i :| 0 <= i <= |piece| && At(secret, piece[i..]);
    }
  }

  // ---------------------------------------------------------------------------------------------
  // What is replaced
  // ---------------------------------------------------------------------------------------------

  /** The pieces with the cuts between them. */
  function Weave(pieces: seq<Text>, cuts: seq<Text>): Text
    requires |pieces| == |cuts| + 1
  {
    if cuts == [] then pieces[0] else pieces[0] + cuts[0] + Weave(pieces[1..], cuts[1..])
  }

  /** The matches that were replaced between the pieces. */
  function Matched(alternatives: seq<Text>, value: Text): (r: seq<Text>)
    ensures forall m :: m in r ==> m in alternatives
    decreases |value|
  {
    if value == [] then []
    else
      var m := FirstMatch(alternatives, value);
      if m == [] then Matched(alternatives, value[1..]) else [m] + Matched(alternatives, value[|m|..])
  }

  lemma {:induction false} PiecesWeave(alternatives: seq<Text>, value: Text, acc: Text)
    ensures |Pieces(alternatives, value, acc)| == |Matched(alternatives, value)| + 1
    ensures Weave(Pieces(alternatives, value, acc), Matched(alternatives, value)) == acc + value
    decreases |value|
  {
    if value != [] {
      var m := FirstMatch(alternatives, value);
      if m == [] {
        PiecesWeave(alternatives, value[1..], acc + [value[0]]);
      } else {
        PiecesWeave(alternatives, value[|m|..], []);
        assert value == m + value[|m|..];
      }
    }
  }

  lemma {:induction false} WeaveConcat(a: seq<Text>, x: seq<Text>, cut: Text, b: seq<Text>, y: seq<Text>)
    requires |a| == |x| + 1 && |b| == |y| + 1
    ensures Weave(a + b, x + [cut] + y) == Weave(a, x) + cut + Weave(b, y)
  {
    var cuts := x + [cut] + y;
    if x == [] {
      assert (a + b)[0] == a[0] && (a + b)[1..] == b && cuts[0] == cut && cuts[1..] == y;
    } else {
      assert (a + b)[0] == a[0] && (a + b)[1..] == a[1..] + b && cuts[0] == x[0] && cuts[1..] == x[1..] + [cut] + y;
      WeaveConcat(a[1..], x[1..], cut, b, y);
    }
  }

  /** The matches of all the segments, with the markers that were there before. */
  function AllMatched(alternatives: seq<Text>, segments: seq<Text>): (r: seq<Text>)
    requires |segments| > 0
    ensures forall m :: m in r ==> m in alternatives || m == MARKER
  {
    if |segments| == 1 then Matched(alternatives, segments[0])
    else Matched(alternatives, segments[0]) + [MARKER] + AllMatched(alternatives, segments[1..])
  }

  lemma {:induction false} SegmentsWeave(alternatives: seq<Text>, segments: seq<Text>)
    requires |segments| > 0
    ensures |AllPieces(alternatives, segments)| == |AllMatched(alternatives, segments)| + 1
    ensures Weave(AllPieces(alternatives, segments), AllMatched(alternatives, segments)) == Join(segments)
  {
    var first, cuts := Pieces(alternatives, segments[0], []), Matched(alternatives, segments[0]);
    PiecesWeave(alternatives, segments[0], []);
    assert [] + segments[0] == segments[0];
    if |segments| == 1 {
      assert AllPieces(alternatives, segments[1..]) == [];
      assert AllPieces(alternatives, segments) == first;
    } else {
      SegmentsWeave(alternatives, segments[1..]);
      WeaveConcat(first, cuts, MARKER, AllPieces(alternatives, segments[1..]), AllMatched(alternatives, segments[1..]));
    }
  }

  /**
   Nothing but registered secrets is replaced: the original is the text between the output's markers, unchanged and
   in order, with a secret or an old marker where each marker now stands.
   */
  lemma OnlySecretsAreReplaced(value: Text, secrets: seq<Text>) returns (replaced: seq<Text>)
    ensures var pieces := Split(RedactString(value, secrets), []);
            && |pieces| == |replaced| + 1
            && RedactString(value, secrets) == Join(pieces)
            && value == Weave(pieces, replaced)
    ensures forall m :: m in replaced ==> m == MARKER || (m in secrets && m != [])
  {
    var alternatives, segments := Alternatives(secrets), Split(value, []);
    SplitIsMarkerFree(value, []);
    if alternatives == [] {
      CleanPiecesStay(alternatives, segments);
    }
    AllPiecesAreClean(alternatives, segments);
    JoinReplaced(alternatives, segments);
    SplitKeepsText(value, []);
    var none: Text := [];
    assert none + value == value;
    SplitJoin(AllPieces(alternatives, segments));
    SegmentsWeave(alternatives, segments);
    replaced := AllMatched(alternatives, segments);
  }

  /** No registered secret is shown between the markers of the text. */
  ghost predicate Hides(text: Text, secrets: seq<Text>) {
    forall piece, secret :: piece in Split(text, []) && secret in secrets && secret != [] ==> !Contains(piece, secret)
  }

  /** Between its markers the text shows the value itself; only markers and registered secrets are replaced. */
  ghost predicate Shows(text: Text, value: Text, secrets: seq<Text>) {
    exists replaced: seq<Text> ::
      && |Split(text, [])| == |replaced| + 1
      && text == Join(Split(text, []))
      && value == Weave(Split(text, []), replaced)
      && forall m :: m in replaced ==> m == MARKER || (m in secrets && m != [])
  }

  lemma RedactedHidesAndShows(value: Text, secrets: seq<Text>)
    ensures Hides(RedactString(value, secrets), secrets)
    ensures Shows(RedactString(value, secrets), value, secrets)
  {
    forall piece, secret | piece in Split(RedactString(value, secrets), []) && secret in secrets && secret != []
      ensures !Contains(piece, secret)
    {
      NoSecretBetweenMarkers(value, secrets, piece, secret);
    }
    var replaced := OnlySecretsAreReplaced(value, secrets);
  }

  /** A text without an opening bracket is in one piece. */
  lemma {:induction false} OnePieceWithoutBracket(text: Text, acc: Text)
    requires MARKER[0] !in text
    ensures Split(text, acc) == [acc + text]
    decreases |text|
  {
    if text == [] {
      assert acc + text == acc;
    } else {
      assert text[0] != MARKER[0];
      OnePieceWithoutBracket(text[1..], acc + [text[0]]);
      assert acc + [text[0]] + text[1..] == acc + text;
    }
  }

  /** Such a text hides the secrets exactly when none occurs in it. */
  lemma HidesWithoutBracket(text: Text, secrets: seq<Text>)
    requires MARKER[0] !in text
    ensures Hides(text, secrets) <==> forall secret :: secret in secrets && secret != [] ==> !Contains(text, secret)
  {
    OnePieceWithoutBracket(text, []);
    assert [] + text == text;
    assert text in Split(text, []);
  }

  /** The alternation picks the longest registered secret at a position. */
  lemma {:induction false} FirstMatchIsLongest(alternatives: seq<Text>, value: Text, a: Text)
    requires LongestFirst(alternatives) && a in alternatives && At(a, value)
    ensures |a| <= |FirstMatch(alternatives, value)|
  {
    if alternatives[0] != [] && At(alternatives[0], value) {
    } else if a in alternatives[1..] {
      FirstMatchIsLongest(alternatives[1..], value, a);
    }
  }

  lemma SameSecretsSameMatch(one: seq<Text>, other: seq<Text>, value: Text)
    requires LongestFirst(one) && LongestFirst(other)
    requires forall a :: a in one <==> a in other
    ensures FirstMatch(one, value) == FirstMatch(other, value)
  {
    var m, n := FirstMatch(one, value), FirstMatch(other, value);
    if m != [] {
      FirstMatchIsLongest(other, value, m);
    }
    if n != [] {
      FirstMatchIsLongest(one, value, n);
    }
    assert m == value[..|m|] && n == value[..|n|];
  }

  lemma {:induction false} SameSecretsSamePieces(one: seq<Text>, other: seq<Text>, value: Text, acc: Text)
    requires LongestFirst(one) && LongestFirst(other)
    requires forall a :: a in one <==> a in other
    ensures Pieces(one, value, acc) == Pieces(other, value, acc)
    decreases |value|
  {
    if value != [] {
      SameSecretsSameMatch(one, other, value);
      var m := FirstMatch(one, value);
      if m == [] {
        SameSecretsSamePieces(one, other, value[1..], acc + [value[0]]);
      } else {
        SameSecretsSamePieces(one, other, value[|m|..], []);
      }
    }
  }

  lemma {:induction false} SameSecretsSameReplacement(one: seq<Text>, other: seq<Text>, segments: seq<Text>)
    requires LongestFirst(one) && LongestFirst(other)
    requires forall a :: a in one <==> a in other
    ensures ReplaceAll(one, segments) == ReplaceAll(other, segments)
  {
    if segments != [] {
      SameSecretsSamePieces(one, other, segments[0], []);
      SameSecretsSameReplacement(one, other, segments[1..]);
    }
  }

  /** Only the set of non-empty secrets matters, not their order or how often they are listed. */
  lemma SecretOrderIsIrrelevant(value: Text, secrets: seq<Text>, others: seq<Text>)
    requires forall s :: s != [] ==> (s in secrets <==> s in others)
    ensures RedactString(value, secrets) == RedactString(value, others)
  {
    var one, other := Alternatives(secrets), Alternatives(others);
    assert forall a :: a in one <==> a in other;
    SameSecretsSameReplacement(one, other, Split(value, []));
    if one != [] {
      assert one[0] in one;
    }
    if other != [] {
      assert other[0] in other;
    }
  }

  /** Redaction of a whole JSON value is idempotent. */
  lemma {:induction false} RedactSecretsIsIdempotent(value: Value, secrets: seq<Text>)
    ensures RedactSecrets(RedactSecrets(value, secrets), secrets) == RedactSecrets(value, secrets)
  {
    match value
    case Str(text) => RedactStringIsIdempotent(text, secrets);
    case Undefined | Foreign | Atom(_) =>
    case Arr(items) => RedactItemsIsIdempotent(items, secrets);
    case Obj(members) => RedactMembersIsIdempotent(members, secrets);
  }

  lemma {:induction false} RedactItemsIsIdempotent(items: seq<Value>, secrets: seq<Text>)
    ensures RedactItems(RedactItems(items, secrets), secrets) == RedactItems(items, secrets)
  {
    if items != [] {
      RedactSecretsIsIdempotent(items[0], secrets);
      RedactItemsIsIdempotent(items[1..], secrets);
      assert RedactItems(items, secrets)[1..] == RedactItems(items[1..], secrets);
    }
  }

  lemma {:induction false} RedactMembersIsIdempotent(members: seq<Member>, secrets: seq<Text>)
    ensures RedactMembers(RedactMembers(members, secrets), secrets) == RedactMembers(members, secrets)
  {
    if members != [] {
      RedactSecretsIsIdempotent(members[0].value, secrets);
      RedactMembersIsIdempotent(members[1..], secrets);
      assert RedactMembers(members, secrets)[1..] == RedactMembers(members[1..], secrets);
    }
  }

  /** Only the set of secrets matters for whole values too. */
  lemma {:induction false} SecretOrderIsIrrelevantInValues(value: Value, secrets: seq<Text>, others: seq<Text>)
    requires forall s :: s != [] ==> (s in secrets <==> s in others)
    ensures RedactSecrets(value, secrets) == RedactSecrets(value, others)
  {
    match value
    case Str(text) => SecretOrderIsIrrelevant(text, secrets, others);
    case Undefined | Foreign | Atom(_) =>
    case Arr(items) => SecretOrderIsIrrelevantInItems(items, secrets, others);
    case Obj(members) => SecretOrderIsIrrelevantInMembers(members, secrets, others);
  }

  lemma {:induction false} SecretOrderIsIrrelevantInItems(items: seq<Value>, secrets: seq<Text>, others: seq<Text>)
    requires forall s :: s != [] ==> (s in secrets <==> s in others)
    ensures RedactItems(items, secrets) == RedactItems(items, others)
  {
    if items != [] {
      SecretOrderIsIrrelevantInValues(items[0], secrets, others);
      SecretOrderIsIrrelevantInItems(items[1..], secrets, others);
    }
  }

  lemma {:induction false} SecretOrderIsIrrelevantInMembers(members: seq<Member>, secrets: seq<Text>, others: seq<Text>)
    requires forall s :: s != [] ==> (s in secrets <==> s in others)
    ensures RedactMembers(members, secrets) == RedactMembers(members, others)
  {
    if members != [] {
      SecretOrderIsIrrelevantInValues(members[0].value, secrets, others);
      SecretOrderIsIrrelevantInMembers(members[1..], secrets, others);
    }
  }

  /** The text is a string somewhere in the value; member names do not count, redaction leaves them alone. */
  ghost predicate HasText(value: Value, text: Text) {
    match value
    case Str(t) => t == text
    case Undefined | Foreign | Atom(_) => false
    case Arr(items) => exists i :: 0 <= i < |items| && HasText(items[i], text)
    case Obj(members) => exists i :: 0 <= i < |members| && HasText(members[i].value, text)
  }

  lemma {:induction false} RedactItemsAt(items: seq<Value>, secrets: seq<Text>, i: nat)
    requires i < |items|
    ensures RedactItems(items, secrets)[i] == RedactSecrets(items[i], secrets)
  {
    if i > 0 {
      RedactItemsAt(items[1..], secrets, i - 1);
    }
  }

  lemma {:induction false} RedactMembersAt(members: seq<Member>, secrets: seq<Text>, i: nat)
    requires i < |members|
    ensures RedactMembers(members, secrets)[i] == Member(members[i].name, RedactSecrets(members[i].value, secrets))
  {
    if i > 0 {
      RedactMembersAt(members[1..], secrets, i - 1);
    }
  }

  /** No string of a redacted value shows a registered secret between its markers. */
  lemma {:induction false} NoSecretInValues(value: Value, secrets: seq<Text>, text: Text, piece: Text, secret: Text)
    requires HasText(RedactSecrets(value, secrets), text) && piece in Split(text, [])
    requires secret in secrets && secret != []
    ensures !Contains(piece, secret)
  {
    match value
    case Str(t) => NoSecretBetweenMarkers(t, secrets, piece, secret);
    case Arr(items) =>
      var redacted := RedactItems(items, secrets);
      var i :| 0 <= i < |redacted| && HasText(redacted[i], text);
      RedactItemsAt(items, secrets, i);
      NoSecretInValues(items[i], secrets, text, piece, secret);
    case Obj(members) =>
      var redacted := RedactMembers(members, secrets);
      var i :| 0 <= i < |redacted| && HasText(redacted[i].value, text);
      RedactMembersAt(members, secrets, i);
      NoSecretInValues(members[i].value, secrets, text, piece, secret);
    case Undefined | Foreign | Atom(_) =>
  }

  /** A non-empty text stays non-empty, so no redacted field can fail a minimum length of one. */
  lemma RedactionKeepsNonEmpty(value: Text, secrets: seq<Text>)
    requires value != []
    ensures RedactString(value, secrets) != []
  {
    if Alternatives(secrets) != [] && RedactString(value, secrets) == [] {
      RedactedForm(value, secrets);
      var alternatives, segments := Alternatives(secrets), Split(value, []);
      JoinReplaced(alternatives, segments);
      EmptyJoin(AllPieces(alternatives, segments));
      assert |segments| == 1;
      assert AllPieces(alternatives, segments) == Pieces(alternatives, segments[0], []) by {
        assert segments[1..] == [];
      }
      SplitKeepsText(value, []);
      var none: Text := [];
      assert none + value == value;
      assert segments[0] == value;
      OneEmptyPiece(alternatives, value, []);
    }
  }

  lemma EmptyJoin(pieces: seq<Text>)
    requires |pieces| > 0 && Join(pieces) == []
    ensures pieces == [[]]
  {
  }

  lemma {:induction false} SplitKeepsText(value: Text, acc: Text)
    ensures Join(Split(value, acc)) == acc + value
    decreases |value|
  {
    if value == [] {
    } else if At(MARKER, value) {
      SplitKeepsText(value[|MARKER|..], []);
      assert value == MARKER + value[|MARKER|..];
    } else {
      SplitKeepsText(value[1..], acc + [value[0]]);
    }
  }

  lemma {:induction false} OneEmptyPiece(alternatives: seq<Text>, value: Text, acc: Text)
    requires acc + value != []
    ensures Pieces(alternatives, value, acc) != [[]]
    decreases |value|
  {
    if value != [] && FirstMatch(alternatives, value) == [] {
      OneEmptyPiece(alternatives, value[1..], acc + [value[0]]);
    }
  }
}
