/**
 Validation of the entries of a source archive.

 An archive is accepted or rejected independently of the order of its entries, and every order of an accepted archive
 gives the same manifest, and so the same manifest digest.
 */
module SourceProvenance {
  import opened Wrappers
  import opened Json
  import opened Lists
  import opened Texts

  const MAX_ARCHIVE_BYTES := 100 * 1024 * 1024
  const MAX_ENTRIES := 25_000
  const MAX_EXTRACTED_BYTES := 500 * 1024 * 1024

  datatype EntryType = File | Directory | Symlink | Hardlink | Device | Fifo | Socket

  datatype Entry = Entry(path: Text, size: nat, kind: EntryType)

  datatype Input = Input(archiveBytes: nat, archiveSha256: Text, entries: seq<Entry>)

  datatype SourceFile = SourceFile(path: Text, size: nat)

  datatype Manifest = Manifest(
    archiveBytes: nat,
    archiveSha256: Text,
    extractedBytes: nat,
    fileCount: nat,
    files: seq<SourceFile>,
    rootDirectory: Text)

  datatype Code =
    | ARCHIVE_LIMIT_EXCEEDED
    | DUPLICATE_PATH
    | EMPTY_ARCHIVE
    | EXTRACTED_LIMIT_EXCEEDED
    | INVALID_ROOT
    | MULTIPLE_ROOTS
    | PATH_ESCAPE
    | UNSAFE_ENTRY_TYPE

  // ---------------------------------------------------------------------------------------------
  // Paths
  // ---------------------------------------------------------------------------------------------

  const SLASH: CodeUnit := 0x2F
  const DOT: CodeUnit := 0x2E

  predicate Letter(c: CodeUnit) { 0x41 <= c <= 0x5A || 0x61 <= c <= 0x7A }

  predicate Control(c: CodeUnit) { c < 0x20 || c == 0x7F }

  /** A drive letter, a colon and a separator. */
  predicate DrivePrefix(path: Text) {
    |path| >= 3 && Letter(path[0]) && path[1] == 0x3A && path[2] in [SLASH, BACKSLASH]
  }

  function Segments(path: Text): (r: seq<Text>)
    ensures r != []
  {
    Split(SLASH, path)
  }

  predicate SafeSegment(s: Text) { s != [] && s != [DOT] && s != [DOT, DOT] }

  predicate AllSafe(segments: seq<Text>) { forall i :: 0 <= i < |segments| ==> SafeSegment(segments[i]) }

  predicate PlainUnits(path: Text) { forall i :: 0 <= i < |path| ==> path[i] != BACKSLASH && !Control(path[i]) }

  /** isSafeArchivePath; a leading slash is an empty first segment. */
  predicate SafePath(path: Text) { !DrivePrefix(path) && PlainUnits(path) && AllSafe(Segments(path)) }

  // ---------------------------------------------------------------------------------------------
  // Where a path leads
  // ---------------------------------------------------------------------------------------------

  /** Following segments from a directory as a file system does; `None` is going above its root. */
  function Follow(at: seq<Text>, segments: seq<Text>): (r: Option<seq<Text>>)
    ensures r.Some? ==> |r.value| <= |at| + |segments|
    decreases segments
  {
    if segments == [] then Some(at)
    else if segments[0] == [] || segments[0] == [DOT] then Follow(at, segments[1..])
    else if segments[0] == [DOT, DOT] then if at == [] then None else Follow(at[..|at| - 1], segments[1..])
    else Follow(at + [segments[0]], segments[1..])
  }

  /** Where a path leads from a directory; a leading slash leads back to the root of the file system. */
  function Destination(at: seq<Text>, path: Text): Option<seq<Text>> {
    Follow(if path != [] && path[0] == SLASH then [] else at, Segments(path))
  }

  /** Segments are safe exactly when following them enters one after the other. */
  lemma {:induction false} SafeSegmentsExactly(at: seq<Text>, segments: seq<Text>)
    ensures AllSafe(segments) <==> Follow(at, segments) == Some(at + segments)
    decreases segments
  {
    if segments == [] {
      assert at + segments == at;
    } else {
      var first, rest := segments[0], segments[1..];
      SafeSegmentsExactly(at + [first], rest);
      assert at + [first] + rest == at + segments;
      assert AllSafe(segments) <==> SafeSegment(first) && AllSafe(rest) by {
        assert segments == [first] + rest;
      }
    }
  }

  lemma PlainUnitsExactly(path: Text)
    ensures PlainUnits(path) <==> BACKSLASH !in path && forall c :: c in path ==> 0x20 <= c != 0x7F
  {
    if BACKSLASH !in path && forall c :: c in path ==> 0x20 <= c != 0x7F {
      forall i | 0 <= i < |path|
        ensures path[i] != BACKSLASH && !Control(path[i])
      {
        assert path[i] in path;
      }
    }
  }

  /**
   The check accepts exactly the paths without a drive, backslashes and control characters that lead, from whatever
   directory, into the directories they name, one below the other.
   */
  lemma SafePathExactly(at: seq<Text>, path: Text)
    ensures SafePath(path) <==> && !DrivePrefix(path) && BACKSLASH !in path && (forall c :: c in path ==> 0x20 <= c != 0x7F)
                                && Destination(at, path) == Some(at + Segments(path))
  {
    SafeSegmentsExactly(at, Segments(path));
    PlainUnitsExactly(path);
    if path != [] && path[0] == SLASH {
      assert Segments(path)[0] == [];
      assert Follow([], Segments(path)) == Follow([], Segments(path)[1..]);
    }
  }

  // ---------------------------------------------------------------------------------------------
  // What makes an archive acceptable
  // ---------------------------------------------------------------------------------------------

  /** `String.prototype.normalize("NFC")`. */
  type Normalization = Text -> Text

  function Root(nfc: Normalization, e: Entry): Text { Segments(nfc(e.path))[0] }

  predicate IsRoot(nfc: Normalization, e: Entry) { |Segments(nfc(e.path))| == 1 }

  function Relative(nfc: Normalization, e: Entry): Text { Join(SLASH, Segments(nfc(e.path))[1..]) }

  predicate EntryOk(nfc: Normalization, e: Entry) {
    SafePath(nfc(e.path)) && if IsRoot(nfc, e) then e.kind == Directory else e.kind in {File, Directory}
  }

  /** Two entries below the root have different paths; the root itself may be listed more than once. */
  predicate Apart(nfc: Normalization, a: Entry, b: Entry) {
    IsRoot(nfc, a) || IsRoot(nfc, b) || Relative(nfc, a) != Relative(nfc, b)
  }

  predicate Counts(nfc: Normalization, e: Entry) { !IsRoot(nfc, e) && e.kind == File }

  function SizeOf(nfc: Normalization): Entry -> nat { (e: Entry) => if Counts(nfc, e) then e.size else 0 }

  function FileOf(nfc: Normalization): Entry -> SourceFile { (e: Entry) => SourceFile(Relative(nfc, e), e.size) }

  function CountsAsFile(nfc: Normalization): Entry -> bool { (e: Entry) => Counts(nfc, e) }

  function ApartBy(nfc: Normalization): (Entry, Entry) -> bool { (a: Entry, b: Entry) => Apart(nfc, a, b) }

  /** What the loop has established about the entries it has seen. */
  ghost predicate EntriesOk(nfc: Normalization, entries: seq<Entry>) {
    && (forall i :: 0 <= i < |entries| ==> EntryOk(nfc, entries[i]))
    && (forall i :: 0 <= i < |entries| ==> Root(nfc, entries[i]) == Root(nfc, entries[0]))
    && Pairwise(ApartBy(nfc), entries)
    && Sum(SizeOf(nfc), entries) <= MAX_EXTRACTED_BYTES
  }

  ghost predicate Acceptable(nfc: Normalization, input: Input) {
    && input.archiveBytes <= MAX_ARCHIVE_BYTES
    && |input.entries| <= MAX_ENTRIES
    && EntriesOk(nfc, input.entries)
    && exists e :: e in input.entries && Counts(nfc, e)
  }

  type Collation = (Text, Text) -> bool

  function ByPath(collation: Collation): (SourceFile, SourceFile) -> bool {
    (a: SourceFile, b: SourceFile) => collation(a.path, b.path)
  }

  function FilesOf(nfc: Normalization, entries: seq<Entry>): seq<SourceFile> {
    Apply(FileOf(nfc), Where(CountsAsFile(nfc), entries))
  }

  /** The manifest of an acceptable archive. */
  function ManifestOf(nfc: Normalization, collation: Collation, input: Input): Manifest
    requires input.entries != []
  {
    var files := FilesOf(nfc, input.entries);
    Manifest(input.archiveBytes, input.archiveSha256, Sum(SizeOf(nfc), input.entries), |files|,
             Sort(ByPath(collation), files), Root(nfc, input.entries[0]))
  }

  // ---------------------------------------------------------------------------------------------
  // validateArchiveManifest
  // ---------------------------------------------------------------------------------------------

  lemma {:induction false} SumGrows<T>(f: T -> nat, xs: seq<T>, n: nat)
    requires n <= |xs|
    ensures Sum(f, xs[..n]) <= Sum(f, xs)
  {
    if n < |xs| {
      SumGrows(f, xs[..|xs| - 1], n);
      assert xs[..|xs| - 1][..n] == xs[..n];
    } else {
      assert xs[..n] == xs;
    }
  }

  lemma SumStep<T>(f: T -> nat, xs: seq<T>, i: nat)
    requires i < |xs|
    ensures Sum(f, xs[..i + 1]) == Sum(f, xs[..i]) + f(xs[i])
  {
    assert xs[..i + 1][..i] == xs[..i];
  }

  lemma FilesStep(nfc: Normalization, entries: seq<Entry>, i: nat)
    requires i < |entries|
    ensures FilesOf(nfc, entries[..i + 1])
         == FilesOf(nfc, entries[..i]) + if Counts(nfc, entries[i]) then [FileOf(nfc)(entries[i])] else []
  {
    assert entries[..i + 1] == entries[..i] + [entries[i]];
    WhereSnoc(CountsAsFile(nfc), entries[..i], entries[i]);
  }

  /** A prefix of acceptable entries is acceptable. */
  lemma PrefixOk(nfc: Normalization, entries: seq<Entry>, n: nat)
    requires n <= |entries| && EntriesOk(nfc, entries)
    ensures EntriesOk(nfc, entries[..n])
  {
    SumGrows(SizeOf(nfc), entries, n);
  }

  /** The next entry fits what was seen. */
  ghost predicate Fits(nfc: Normalization, entries: seq<Entry>, i: nat)
    requires i < |entries|
  {
    && EntryOk(nfc, entries[i])
    && Root(nfc, entries[i]) == Root(nfc, entries[0])
    && (forall k :: 0 <= k < i ==> Apart(nfc, entries[k], entries[i]))
    && Sum(SizeOf(nfc), entries[..i + 1]) <= MAX_EXTRACTED_BYTES
  }

  lemma AfterFits(nfc: Normalization, entries: seq<Entry>, i: nat)
    requires i < |entries| && EntriesOk(nfc, entries[..i + 1])
    ensures Fits(nfc, entries, i)
  {
    var after := entries[..i + 1];
    assert after[i] == entries[i] && after[0] == entries[0];
    forall k | 0 <= k < i
      ensures Apart(nfc, entries[k], entries[i])
    {
      assert ApartBy(nfc)(after[k], after[i]);
    }
  }

  lemma FitsAfter(nfc: Normalization, entries: seq<Entry>, i: nat)
    requires i < |entries| && EntriesOk(nfc, entries[..i]) && Fits(nfc, entries, i)
    ensures EntriesOk(nfc, entries[..i + 1])
  {
    var before, after := entries[..i], entries[..i + 1];
    forall k | 0 <= k < |after|
      ensures EntryOk(nfc, after[k]) && Root(nfc, after[k]) == Root(nfc, after[0])
    {
      assert k < i ==> EntryOk(nfc, before[k]) && Root(nfc, before[k]) == Root(nfc, before[0]);
    }
    forall j, k | 0 <= j < k < |after|
      ensures ApartBy(nfc)(after[j], after[k])
    {
      assert k < i ==> ApartBy(nfc)(before[j], before[k]);
    }
  }

  lemma Rejected(nfc: Normalization, entries: seq<Entry>, i: nat)
    requires i < |entries| && EntriesOk(nfc, entries[..i]) && !Fits(nfc, entries, i)
    ensures !EntriesOk(nfc, entries)
  {
    if EntriesOk(nfc, entries) {
      PrefixOk(nfc, entries, i + 1);
      AfterFits(nfc, entries, i);
    }
  }

  /** What is wrong with the entry at `i`, given that the ones before it are in order. */
  ghost predicate Blames(nfc: Normalization, entries: seq<Entry>, i: nat, code: Code)
    requires i < |entries|
  {
    var e := entries[i];
    match code
    case PATH_ESCAPE => !SafePath(nfc(e.path))
    case MULTIPLE_ROOTS => Root(nfc, e) != Root(nfc, entries[0])
    case INVALID_ROOT => IsRoot(nfc, e) && e.kind != Directory
    case UNSAFE_ENTRY_TYPE => !IsRoot(nfc, e) && e.kind !in {File, Directory}
    case DUPLICATE_PATH => exists k :: 0 <= k < i && !Apart(nfc, entries[k], e)
    case EXTRACTED_LIMIT_EXCEEDED => Sum(SizeOf(nfc), entries[..i + 1]) > MAX_EXTRACTED_BYTES
    case ARCHIVE_LIMIT_EXCEEDED | EMPTY_ARCHIVE => false
  }

  /** The error is about the first entry that does not fit, or about the archive as a whole. */
  ghost predicate Justifies(nfc: Normalization, input: Input, code: Code) {
    if code == ARCHIVE_LIMIT_EXCEEDED then input.archiveBytes > MAX_ARCHIVE_BYTES || |input.entries| > MAX_ENTRIES
    else if code == EMPTY_ARCHIVE then
      EntriesOk(nfc, input.entries) && forall e :: e in input.entries ==> !Counts(nfc, e)
    else
      exists i :: 0 <= i < |input.entries| && EntriesOk(nfc, input.entries[..i]) && Blames(nfc, input.entries, i, code)
  }

  /** Accepts exactly the acceptable archives and returns their manifest; every rejection names its cause. */
  method Validate(nfc: Normalization, collation: Collation, input: Input) returns (r: Result<Manifest, Code>)
    ensures r.Ok? <==> Acceptable(nfc, input)
    ensures r.Ok? ==> r.value == ManifestOf(nfc, collation, input)
    ensures r.Err? ==> Justifies(nfc, input, r.error)
  {
    if input.archiveBytes > MAX_ARCHIVE_BYTES || |input.entries| > MAX_ENTRIES {
      return Err(ARCHIVE_LIMIT_EXCEEDED);
    }
    var entries := input.entries;
    var root: Option<Text>, extracted: nat, files: seq<SourceFile>, seen: set<Text> := None, 0, [], {};
    for i := 0 to |entries|
      invariant EntriesOk(nfc, entries[..i])
      invariant root == if i == 0 then None else Some(Root(nfc, entries[0]))
      invariant extracted == Sum(SizeOf(nfc), entries[..i])
      invariant files == FilesOf(nfc, entries[..i])
      invariant Tracks(nfc, entries, i, seen)
    {
      var e := entries[i];
      SumStep(SizeOf(nfc), entries, i);
      FilesStep(nfc, entries, i);
      var code := CheckEntry(nfc, e, root, extracted, seen, entries, i);
      if code.Some? {
        Rejected(nfc, entries, i);
        return Err(code.value);
      }
      FitsAfter(nfc, entries, i);
      SeenStep(nfc, entries, i, seen);
      root := Some(Root(nfc, e));
      if !IsRoot(nfc, e) {
        seen := seen + {Relative(nfc, e)};
        if e.kind == File {
          extracted := extracted + e.size;
          files := files + [SourceFile(Relative(nfc, e), e.size)];
        }
      }
    }
    assert entries[..|entries|] == entries;
    if root.None? || |files| == 0 {
      NoFiles(nfc, entries);
      return Err(EMPTY_ARCHIVE);
    }
    SomeFile(nfc, entries);
    return Ok(Manifest(input.archiveBytes, input.archiveSha256, extracted, |files|, Sort(ByPath(collation), files), root.value));
  }

  /** Some entry below the root before position `n` has this relative path. */
  ghost predicate SeenAt(nfc: Normalization, entries: seq<Entry>, n: nat, path: Text)
    requires n <= |entries|
  {
    exists k :: 0 <= k < n && !IsRoot(nfc, entries[k]) && Relative(nfc, entries[k]) == path
  }

  /** The set holds the relative paths seen so far. */
  ghost predicate Tracks(nfc: Normalization, entries: seq<Entry>, n: nat, seen: set<Text>)
    requires n <= |entries|
  {
    forall p :: p in seen <==> SeenAt(nfc, entries, n, p)
  }

  lemma SeenStep(nfc: Normalization, entries: seq<Entry>, i: nat, seen: set<Text>)
    requires i < |entries| && Tracks(nfc, entries, i, seen)
    ensures Tracks(nfc, entries, i + 1, if IsRoot(nfc, entries[i]) then seen else seen + {Relative(nfc, entries[i])})
  {
    forall p
      ensures SeenAt(nfc, entries, i + 1, p)
         <==> SeenAt(nfc, entries, i, p) || (!IsRoot(nfc, entries[i]) && Relative(nfc, entries[i]) == p)
    {
      if SeenAt(nfc, entries, i + 1, p) {
        var k :| 0 <= k < i + 1 && !IsRoot(nfc, entries[k]) && Relative(nfc, entries[k]) == p;
      }
      if !IsRoot(nfc, entries[i]) && Relative(nfc, entries[i]) == p {
        assert SeenAt(nfc, entries, i + 1, p);
      }
    }
  }

  /** The checks on one entry, in order; nothing when it passes all of them. */
  method CheckEntry(nfc: Normalization, e: Entry, root: Option<Text>, extracted: nat, seen: set<Text>,
                    ghost entries: seq<Entry>, ghost i: nat)
    returns (code: Option<Code>)
    requires i < |entries| && e == entries[i]
    requires root == if i == 0 then None else Some(Root(nfc, entries[0]))
    requires extracted == Sum(SizeOf(nfc), entries[..i]) <= MAX_EXTRACTED_BYTES
    requires Tracks(nfc, entries, i, seen)
    ensures code.None? <==> Fits(nfc, entries, i)
    ensures code.Some? ==> Blames(nfc, entries, i, code.value)
  {
    SumStep(SizeOf(nfc), entries, i);
    var path := nfc(e.path);
    if !SafePath(path) {
      return Some(PATH_ESCAPE);
    }
    if root.Some? && Segments(path)[0] != root.value {
      return Some(MULTIPLE_ROOTS);
    }
    if |Segments(path)| == 1 {
      return if e.kind == Directory then None else Some(INVALID_ROOT);
    }
    if e.kind != File && e.kind != Directory {
      return Some(UNSAFE_ENTRY_TYPE);
    }
    var relative := Join(SLASH, Segments(path)[1..]);
    if relative in seen {
      assert SeenAt(nfc, entries, i, relative);
      return Some(DUPLICATE_PATH);
    }
    assert forall k :: 0 <= k < i ==> Apart(nfc, entries[k], e) by {
      assert !SeenAt(nfc, entries, i, relative);
    }
    if e.kind == File && extracted + e.size > MAX_EXTRACTED_BYTES {
      return Some(EXTRACTED_LIMIT_EXCEEDED);
    }
    return None;
  }

  lemma NoFiles(nfc: Normalization, entries: seq<Entry>)
    requires entries == [] || FilesOf(nfc, entries) == []
    ensures forall e :: e in entries ==> !Counts(nfc, e)
  {
    forall e | e in entries
      ensures !Counts(nfc, e)
    {
      WhereMeans(CountsAsFile(nfc), entries, e);
    }
  }

  lemma SomeFile(nfc: Normalization, entries: seq<Entry>)
    requires FilesOf(nfc, entries) != []
    ensures exists e :: e in entries && Counts(nfc, e)
  {
    var e := Where(CountsAsFile(nfc), entries)[0];
    WhereMeans(CountsAsFile(nfc), entries, e);
  }

  // ---------------------------------------------------------------------------------------------
  // The order of entries does not matter
  // ---------------------------------------------------------------------------------------------

  lemma FilesAreComparable(nfc: Normalization, collation: Collation, entries: seq<Entry>)
    requires Total(collation) && EntriesOk(nfc, entries)
    ensures Comparable(ByPath(collation), FilesOf(nfc, entries))
  {
    var counted, files := Where(CountsAsFile(nfc), entries), FilesOf(nfc, entries);
    WherePairwise(ApartBy(nfc), CountsAsFile(nfc), entries);
    forall i, j | 0 <= i < j < |files|
      ensures ByPath(collation)(files[i], files[j]) || ByPath(collation)(files[j], files[i])
    {
      WhereMeans(CountsAsFile(nfc), entries, counted[i]);
      WhereMeans(CountsAsFile(nfc), entries, counted[j]);
      assert ApartBy(nfc)(counted[i], counted[j]);
    }
  }

  lemma SameFiles(nfc: Normalization, entries: seq<Entry>, others: seq<Entry>)
    requires SameElements(entries, others)
    ensures SameElements(FilesOf(nfc, entries), FilesOf(nfc, others))
  {
    forall f
      ensures f in FilesOf(nfc, entries) <==> f in FilesOf(nfc, others)
    {
      SameFile(nfc, entries, others, f);
      SameFile(nfc, others, entries, f);
    }
  }

  lemma SameFile(nfc: Normalization, entries: seq<Entry>, others: seq<Entry>, f: SourceFile)
    requires SameElements(entries, others)
    ensures f in FilesOf(nfc, entries) ==> f in FilesOf(nfc, others)
  {
    if f in FilesOf(nfc, entries) {
      var counted, rest := Where(CountsAsFile(nfc), entries), Where(CountsAsFile(nfc), others);
      var i :| 0 <= i < |counted| && FilesOf(nfc, entries)[i] == f;
      WhereMeans(CountsAsFile(nfc), entries, counted[i]);
      WhereMeans(CountsAsFile(nfc), others, counted[i]);
      var j :| 0 <= j < |rest| && rest[j] == counted[i];
      assert FilesOf(nfc, others)[j] == f;
    }
  }

  lemma ByPathIsStrict(collation: Collation)
    requires Total(collation)
    ensures StrictOrder(ByPath(collation))
  {
    var order := ByPath(collation);
    forall a: SourceFile, b: SourceFile, c: SourceFile
      ensures !order(a, a) && (order(a, b) && order(b, c) ==> order(a, c))
    {
      assert !collation(a.path, a.path);
      assert collation(a.path, b.path) && collation(b.path, c.path) ==> collation(a.path, c.path);
    }
  }

  lemma EntriesOkPermuted(nfc: Normalization, entries: seq<Entry>, others: seq<Entry>)
    requires multiset(entries) == multiset(others) && EntriesOk(nfc, entries)
    ensures EntriesOk(nfc, others)
  {
    SamePermutation(entries, others);
    PermutedPairwise(ApartBy(nfc), entries, others);
    PermutedSum(SizeOf(nfc), entries, others);
    forall i | 0 <= i < |others|
      ensures EntryOk(nfc, others[i]) && Root(nfc, others[i]) == Root(nfc, others[0])
    {
      assert others[i] in entries && others[0] in entries;
    }
  }

  /** Every order of the entries is accepted or rejected alike, and gives the same manifest. */
  lemma EntryOrderIsIrrelevant(nfc: Normalization, collation: Collation, input: Input, others: seq<Entry>)
    requires Total(collation) && multiset(input.entries) == multiset(others)
    ensures Acceptable(nfc, input) <==> Acceptable(nfc, input.(entries := others))
    ensures Acceptable(nfc, input) ==>
              ManifestOf(nfc, collation, input.(entries := others)) == ManifestOf(nfc, collation, input)
  {
    var entries := input.entries;
    SamePermutation(entries, others);
    if EntriesOk(nfc, others) {
      EntriesOkPermuted(nfc, others, entries);
    }
    if EntriesOk(nfc, entries) {
      EntriesOkPermuted(nfc, entries, others);
    }
    if Acceptable(nfc, input) {
      var e :| e in entries && Counts(nfc, e);
      assert e in others;
      PermutedSum(SizeOf(nfc), entries, others);
      SameFiles(nfc, entries, others);
      FilesAreComparable(nfc, collation, entries);
      FilesAreComparable(nfc, collation, others);
      ByPathIsStrict(collation);
      SortIgnoresOrder(ByPath(collation), FilesOf(nfc, entries), FilesOf(nfc, others));
      SortSorts(ByPath(collation), FilesOf(nfc, entries));
      SortSorts(ByPath(collation), FilesOf(nfc, others));
      assert others[0] in entries;
    }
    if Acceptable(nfc, input.(entries := others)) {
      var e :| e in others && Counts(nfc, e);
      assert e in entries;
    }
  }

  // ---------------------------------------------------------------------------------------------
  // What an accepted manifest promises
  // ---------------------------------------------------------------------------------------------

  /** An entry below the root is the root, a slash, and its relative path. */
  lemma RelativeIsBelowRoot(nfc: Normalization, e: Entry)
    requires !IsRoot(nfc, e)
    ensures nfc(e.path) == Root(nfc, e) + [SLASH] + Relative(nfc, e)
    ensures Segments(Relative(nfc, e)) == Segments(nfc(e.path))[1..]
  {
    var segments := Segments(nfc(e.path));
    JoinUndoesSplit(SLASH, nfc(e.path));
    PartsAreWithout(SLASH, nfc(e.path));
    SplitUndoesJoin(SLASH, segments[1..]);
  }

  /**
   The relative path of an accepted entry passes the path check again unless its first segment is a drive letter and
   a colon: the check looks for a drive only at the start of the whole path.
   */
  lemma RelativePathIsSafe(nfc: Normalization, e: Entry)
    requires EntryOk(nfc, e) && !IsRoot(nfc, e)
    ensures SafePath(Relative(nfc, e)) <==> !DrivePrefix(Relative(nfc, e))
  {
    RelativeIsBelowRoot(nfc, e);
    var path, root, relative := nfc(e.path), Root(nfc, e), Relative(nfc, e);
    assert forall i :: 0 <= i < |relative| ==> relative[i] == path[|root| + 1 + i];
  }

  /**
   Wherever an accepted archive is unpacked, each of its files ends up below the one root directory, under the path the
   manifest gives it, and no step on the way leaves the directory it is unpacked in.
   */
  lemma FilesStayInside(nfc: Normalization, collation: Collation, input: Input, at: seq<Text>, f: SourceFile, n: nat)
    requires Total(collation) && Acceptable(nfc, input) && f in ManifestOf(nfc, collation, input).files
    requires n <= |Segments(f.path)|
    ensures var root := ManifestOf(nfc, collation, input).rootDirectory;
            && Destination(at, root + [SLASH] + f.path) == Some(at + [root] + Segments(f.path))
            && Follow(at + [root], Segments(f.path)[..n]) == Some(at + [root] + Segments(f.path)[..n])
  {
    ManifestIsSound(nfc, collation, input);
    var e :| e in input.entries && Counts(nfc, e) && f == FileOf(nfc)(e);
    EntryStaysInside(nfc, e, at, n);
  }

  lemma EntryStaysInside(nfc: Normalization, e: Entry, at: seq<Text>, n: nat)
    requires EntryOk(nfc, e) && !IsRoot(nfc, e) && n <= |Segments(Relative(nfc, e))|
    ensures var (root, segments) := (Root(nfc, e), Segments(Relative(nfc, e)));
            && Destination(at, root + [SLASH] + Relative(nfc, e)) == Some(at + [root] + segments)
            && Follow(at + [root], segments[..n]) == Some(at + [root] + segments[..n])
  {
    var root, segments := Root(nfc, e), Segments(nfc(e.path));
    RelativeIsBelowRoot(nfc, e);
    SafePathExactly(at, nfc(e.path));
    assert at + segments == at + [root] + segments[1..];
    assert AllSafe(segments[1..][..n]);
    SafeSegmentsExactly(at + [root], segments[1..][..n]);
  }

  /** Such an entry is accepted. */
  lemma DriveBelowRootIsAccepted() returns (e: Entry)
    ensures EntryOk(p => p, e) && !IsRoot(p => p, e) && !SafePath(Relative(p => p, e))
  {
    var root: Text, drive: Text, name: Text := [0x72], [0x43, 0x3A], [0x78];
    var path := Join(SLASH, [root, drive, name]);
    SplitUndoesJoin(SLASH, [root, drive, name]);
    assert [root, drive, name][1..] == [drive, name] && [drive, name][1..] == [name];
    assert Join(SLASH, [drive, name]) == [0x43, 0x3A, SLASH, 0x78];
    assert path == [0x72, SLASH] + Join(SLASH, [drive, name]);
    e := Entry(path, 0, File);
    var nfc: Normalization := p => p;
    assert nfc(e.path) == path;
    assert DrivePrefix(Relative(nfc, e));
  }

  /** The files of the manifest are distinct and ascending, are exactly the files listed, and their sizes add up. */
  lemma ManifestIsSound(nfc: Normalization, collation: Collation, input: Input)
    requires Total(collation) && Acceptable(nfc, input)
    ensures var m := ManifestOf(nfc, collation, input);
            && Sorted(ByPath(collation), m.files)
            && (forall f :: f in m.files <==> exists e :: e in input.entries && Counts(nfc, e) && f == FileOf(nfc)(e))
            && m.fileCount == |m.files|
            && m.extractedBytes == Sum((f: SourceFile) => f.size, m.files) <= MAX_EXTRACTED_BYTES
            && forall e :: e in input.entries ==> Root(nfc, e) == m.rootDirectory
  {
    var files := FilesOf(nfc, input.entries);
    FilesAreComparable(nfc, collation, input.entries);
    ByPathIsStrict(collation);
    SortSorts(ByPath(collation), files);
    forall f
      ensures f in files <==> exists e :: e in input.entries && Counts(nfc, e) && f == FileOf(nfc)(e)
    {
      FileMeans(nfc, input.entries, f);
    }
    var size: SourceFile -> nat := (f: SourceFile) => f.size;
    FileSizesAddUp(nfc, input.entries, size);
    SortIsPermutation(ByPath(collation), files);
    PermutedSum(size, files, Sort(ByPath(collation), files));
  }

  lemma FileMeans(nfc: Normalization, entries: seq<Entry>, f: SourceFile)
    ensures f in FilesOf(nfc, entries) <==> exists e :: e in entries && Counts(nfc, e) && f == FileOf(nfc)(e)
  {
    var counted := Where(CountsAsFile(nfc), entries);
    if f in FilesOf(nfc, entries) {
      var i :| 0 <= i < |counted| && FilesOf(nfc, entries)[i] == f;
      WhereMeans(CountsAsFile(nfc), entries, counted[i]);
    }
    if e :| e in entries && Counts(nfc, e) && f == FileOf(nfc)(e) {
      WhereMeans(CountsAsFile(nfc), entries, e);
      var i :| 0 <= i < |counted| && counted[i] == e;
      assert FilesOf(nfc, entries)[i] == f;
    }
  }

  lemma SumAppend<T>(f: T -> nat, xs: seq<T>, x: T)
    ensures Sum(f, xs + [x]) == Sum(f, xs) + f(x)
  {
    assert (xs + [x])[..|xs|] == xs;
  }

  lemma {:induction false} FileSizesAddUp(nfc: Normalization, entries: seq<Entry>, size: SourceFile -> nat)
    requires forall f :: size(f) == f.size
    ensures Sum(size, FilesOf(nfc, entries)) == Sum(SizeOf(nfc), entries)
  {
    if entries != [] {
      var n := |entries| - 1;
      var before := FilesOf(nfc, entries[..n]);
      FileSizesAddUp(nfc, entries[..n], size);
      FilesStep(nfc, entries, n);
      assert entries[..n + 1] == entries;
      SumStep(SizeOf(nfc), entries, n);
      SumAppend(size, before, FileOf(nfc)(entries[n]));
      assert before + [] == before;
    }
  }
}
