/**
 The bundle of a verified reproduction: it is named by the hash of its canonical text, and is written to files that
 validate and say what it is.
 */
module ReproductionBundle {
  import opened Wrappers
  import opened Json
  import opened CanonicalJson
  import opened Lists
  import opened RepositoryEvidence
  import F = FailureSignature
  import Minimization
  import Texts
  import V = Verification

  // ---------------------------------------------------------------------------------------------
  // The bundle
  // ---------------------------------------------------------------------------------------------

  /** A bundle before its hash. */
  datatype Base = Base(
    caseId: string,
    hypotheses: seq<Hypothesis>,
    lockOracleId: Text,
    lockOracleVersion: nat,
    minimization: Minimization.Outcome,
    oracle: V.Oracle,
    runLog: seq<V.RunResult>,
    summary: V.Summary)

  datatype Bundle = Bundle(base: Base, hash: Text)

  /** The cross-field rules of the bundle schema, and the rules of its oracle. */
  predicate BaseOk(reader: F.Reader, b: Base) {
    && b.summary.status == V.VERIFIED
    && b.summary.oracleId == b.oracle.id == b.lockOracleId
    && b.summary.oracleVersion == b.oracle.version == b.lockOracleVersion
    && F.OracleOk(reader, b.oracle)
    && Minimization.OutcomeOk(b.minimization)
    && (forall i :: 0 <= i < |b.hypotheses| ==> HypothesisOk(b.hypotheses[i]))
    && (forall i :: 0 <= i < |b.runLog| ==> RunOk(b.runLog[i]))
  }

  predicate BundleOk(reader: F.Reader, b: Bundle) { BaseOk(reader, b.base) && HexText(b.hash) }

  /**
   SHA-256 in hexadecimal, how the parts of a bundle other than its oracle are written as JSON values, and which values
   their schemas accept when they are read. `lock` is the members of the lock, `others` the remaining members of the
   bundle: case id, time, patch and schema version.
   */
  datatype Schemas = Schemas(
    digest: Text -> Text,
    reader: F.Reader,
    run: V.RunResult -> Value,
    lock: Base -> seq<Member>,
    others: Base -> seq<Member>,
    hypotheses: seq<Hypothesis> -> Value,
    minimization: Minimization.Outcome -> Value,
    summary: V.Summary -> Value,
    runOk: Value -> bool,
    lockOk: Value -> bool,
    hypothesesOk: Value -> bool,
    minimizationOk: Value -> bool,
    summaryOk: Value -> bool)

  /** What is written for a part that passes its rules is accepted when it is read. */
  ghost predicate Lawful(s: Schemas) {
    && F.Lawful(s.reader)
    && (forall t :: HexText(s.digest(t)))
    && (forall r :: RunOk(r) ==> Plain(s.run(r)) && s.run(r).Obj? && s.runOk(s.run(r)))
    && (forall b :: BundleOk(s.reader, b) ==> Plain(LockValue(s, b)) && s.lockOk(LockValue(s, b)))
    && (forall b :: BaseOk(s.reader, b) ==> PlainMembers(s.lock(b)) && PlainMembers(s.others(b)) && NamesApart(s.others(b)))
    && (forall b :: BaseOk(s.reader, b) ==> Plain(s.hypotheses(b.hypotheses)) && s.hypothesesOk(s.hypotheses(b.hypotheses)))
    && (forall b :: BaseOk(s.reader, b) ==>
          Plain(s.minimization(b.minimization)) && s.minimizationOk(s.minimization(b.minimization)))
    && (forall b :: BaseOk(s.reader, b) ==> Plain(s.summary(b.summary)) && s.summaryOk(s.summary(b.summary)))
  }

  const BUNDLE_HASH := Ascii("bundleHash")
  const SCHEMA_VERSION := Ascii("schemaVersion")
  const LEDGER := Ascii("hypothesisLedger")
  const LOCK := Ascii("lock")
  const MINIMIZATION := Ascii("minimization")
  const ORACLE := Ascii("oracle")
  const RUN_LOG := Ascii("runLog")
  const SUMMARY := Ascii("summary")

  const PART_NAMES := [LEDGER, LOCK, MINIMIZATION, ORACLE, RUN_LOG, SUMMARY]

  predicate NamesApart(members: seq<Member>) { forall i :: 0 <= i < |members| ==> members[i].name !in PART_NAMES }

  /** The object in reproforge.lock.json. */
  function LockValue(s: Schemas, b: Bundle): Value {
    Obj([Member(BUNDLE_HASH, Str(b.hash)), Member(SCHEMA_VERSION, Str(Ascii("1.1")))] + s.lock(b.base))
  }

  function RunValues(s: Schemas, runs: seq<V.RunResult>): (r: seq<Value>)
    ensures |r| == |runs| && forall i :: 0 <= i < |r| ==> r[i] == s.run(runs[i])
  {
    seq(|runs|, i requires 0 <= i < |runs| => s.run(runs[i]))
  }

  function Parts(s: Schemas, b: Base): seq<Member> {
    [Member(LEDGER, s.hypotheses(b.hypotheses)), Member(LOCK, Obj(s.lock(b))),
     Member(MINIMIZATION, s.minimization(b.minimization)), Member(ORACLE, F.OracleValue(b.oracle)),
     Member(RUN_LOG, Arr(RunValues(s, b.runLog))), Member(SUMMARY, s.summary(b.summary))]
  }

  /** What createBundle hashes. */
  function BaseValue(s: Schemas, b: Base): Value { Obj(s.others(b) + Parts(s, b)) }

  lemma PartNamesDiffer()
    ensures forall i, j :: 0 <= i < j < |PART_NAMES| ==> PART_NAMES[i] != PART_NAMES[j]
  {
    assert |LEDGER| == 16 && |LOCK| == 4 && |MINIMIZATION| == 12 && |ORACLE| == 6 && |RUN_LOG| == 6 && |SUMMARY| == 7;
    assert ORACLE[0] != RUN_LOG[0];
  }

  /** The parts but for the oracle are values that JSON can express. */
  lemma OtherParts(s: Schemas, b: Base)
    requires Lawful(s) && BaseOk(s.reader, b)
    ensures forall i :: 0 <= i < 6 && i != 3 ==> Canonical(Parts(s, b)[i].value)
  {
    forall i | 0 <= i < |b.runLog|
      ensures Plain(s.run(b.runLog[i]))
    {
      assert RunOk(b.runLog[i]);
    }
    forall i | 0 <= i < 6 && i != 3
      ensures Canonical(Parts(s, b)[i].value)
    {
      PlainIsCanonical(Parts(s, b)[i].value);
    }
  }

  lemma JoinedAreDistinct(s: Schemas, b: Base)
    requires Lawful(s) && BaseOk(s.reader, b)
    ensures Distinct(s.others(b) + Parts(s, b))
  {
    var others, parts := s.others(b), Parts(s, b);
    PartNamesDiffer();
    assert forall i :: 0 <= i < 6 ==> parts[i].name == PART_NAMES[i];
    var all := others + parts;
    forall i, j | 0 <= i < j < |all|
      ensures all[i].name != all[j].name
    {
      if i < |others| <= j {
        assert all[j].name == PART_NAMES[j - |others|];
      }
    }
  }

  /** A bundle can be hashed exactly when its oracle can. */
  lemma BaseIsHashable(s: Schemas, b: Base)
    requires Lawful(s) && BaseOk(s.reader, b)
    ensures WellFormed(BaseValue(s, b))
    ensures CanonicalJson.Supported(BaseValue(s, b)) <==> F.EveryField(F.Hashable, b.oracle.root)
  {
    var others, parts := s.others(b), Parts(s, b);
    JoinedAreDistinct(s, b);
    OtherParts(s, b);
    F.OracleIsHashable(s.reader, b.oracle);
    PlainIsCanonical(Obj(others));
    Joined(others, parts);
    assert parts[3].value == F.OracleValue(b.oracle);
  }

  lemma Joined(xs: seq<Member>, ys: seq<Member>)
    requires Distinct(xs + ys) && Canonical(Obj(xs)) && forall i :: 0 <= i < |ys| ==> WellFormed(ys[i].value)
    ensures WellFormed(Obj(xs + ys))
    ensures CanonicalJson.Supported(Obj(xs + ys)) <==> forall i :: 0 <= i < |ys| ==> ys[i].value.Undefined? || CanonicalJson.Supported(ys[i].value)
  {
    var all := xs + ys;
    assert forall i :: 0 <= i < |xs| ==> all[i] == xs[i];
    assert forall i :: |xs| <= i < |all| ==> all[i] == ys[i - |xs|];
    assert forall i :: 0 <= i < |ys| ==> ys[i] == all[|xs| + i];
  }

  /** The hash of a bundle, which says what the bundle is. */
  function HashOf(s: Schemas, collation: Minimization.Collation, b: Base): Text
    requires Total(collation) && Canonical(BaseValue(s, b))
  {
    s.digest(CanonicalText(collation, BaseValue(s, b)).value)
  }

  datatype Failure = NotJson | InvalidProof

  /** createBundle: `NotJson` is the TypeError of the canonical text. */
  method CreateBundle(s: Schemas, collation: Minimization.Collation, b: Base) returns (r: Result<Bundle, Failure>)
    requires Lawful(s) && Total(collation) && BaseOk(s.reader, b)
    ensures r.Ok? <==> F.EveryField(F.Hashable, b.oracle.root)
    ensures r.Err? ==> r.error == NotJson
    ensures r.Ok? ==> BundleOk(s.reader, r.value) && r.value.base == b
    ensures r.Ok? ==> Canonical(BaseValue(s, b)) && r.value.hash == HashOf(s, collation, b)
  {
    BaseIsHashable(s, b);
    var text := CanonicalText(collation, BaseValue(s, b));
    if text.None? {
      return Err(NotJson);
    }
    var bundle := Bundle(b, s.digest(text.value));
    return if BundleOk(s.reader, bundle) then Ok(bundle) else Err(InvalidProof);
  }

  const NEWLINE: CodeUnit := 0x0A

  /** `## Run` */
  const RUN_HEADING: Text := [0x23, 0x23, 0x20, 0x52, 0x75, 0x6E]

  /** REPRO.md, reproforge.lock.json, failure-signature.json, reproduction.patch and the files under artifacts/. */
  datatype FileName = Readme | LockFile | Signature | Patch | RunLog | Ledger | MinimizationFile | SummaryFile

  type Files = map<FileName, Text>

  const REQUIRED_FILES := [Readme, LockFile, Signature, Patch, RunLog, Ledger, MinimizationFile, SummaryFile]

  /** JSON.stringify of a value that has no undefined or foreign parts. */
  function Stringify(v: Value): Text { if Plain(v) then Print(v) else [] }

  function LogLines(s: Schemas, runs: seq<V.RunResult>): seq<Text> {
    Apply((r: V.RunResult) => Stringify(s.run(r)), runs)
  }

  function Materialize(s: Schemas, b: Bundle, heading: Text, tail: Text): Files {
    map[Readme := heading + RUN_HEADING + tail,
        LockFile := Stringify(LockValue(s, b)),
        Signature := F.Stringify(F.OracleValue(b.base.oracle)),
        Patch := [],
        RunLog := Texts.Join(NEWLINE, LogLines(s, b.base.runLog)),
        Ledger := Stringify(s.hypotheses(b.base.hypotheses)),
        MinimizationFile := Stringify(s.minimization(b.base.minimization)),
        SummaryFile := Stringify(s.summary(b.base.summary))]
  }

  // ---------------------------------------------------------------------------------------------
  // Validation of the files
  // ---------------------------------------------------------------------------------------------

  function Content(files: Files, name: FileName): Text { if name in files then files[name] else [] }

  type Parser = Text -> Option<Value>

  predicate ParsesAs(parse: Parser, text: Text, ok: Value -> bool) { parse(text).Some? && ok(parse(text).value) }

  /** What the schema of a failure oracle accepts. */
  function OracleReads(reader: F.Reader): Value -> bool { (v: Value) => F.ReadOracle(reader, v).Some? }

  /** Every line that is not empty is an acceptable run. */
  predicate LinesOk(parse: Parser, lines: seq<Text>, ok: Value -> bool) {
    forall i :: 0 <= i < |lines| && lines[i] != [] ==> ParsesAs(parse, lines[i], ok)
  }

  predicate AllPresent(files: Files) { forall i :: 0 <= i < |REQUIRED_FILES| ==> REQUIRED_FILES[i] in files }

  predicate PartsOk(parse: Parser, s: Schemas, files: Files) {
    && ParsesAs(parse, Content(files, Signature), OracleReads(s.reader))
    && ParsesAs(parse, Content(files, LockFile), s.lockOk)
    && ParsesAs(parse, Content(files, Ledger), s.hypothesesOk)
    && ParsesAs(parse, Content(files, MinimizationFile), s.minimizationOk)
    && ParsesAs(parse, Content(files, SummaryFile), s.summaryOk)
    && V.Includes(Content(files, Readme), RUN_HEADING)
  }

  predicate LogOk(parse: Parser, s: Schemas, files: Files) {
    LinesOk(parse, Texts.Split(NEWLINE, Content(files, RunLog)), s.runOk)
  }

  predicate FilesOk(parse: Parser, s: Schemas, files: Files) {
    AllPresent(files) && PartsOk(parse, s, files) && LogOk(parse, s, files)
  }

  /** Every required file that is missing. */
  method CheckPresent(files: Files) returns (errors: seq<FileName>)
    ensures errors == [] <==> AllPresent(files)
  {
    errors := [];
    for i := 0 to |REQUIRED_FILES|
      invariant errors == [] <==> forall k :: 0 <= k < i ==> REQUIRED_FILES[k] in files
    {
      if REQUIRED_FILES[i] !in files {
        errors := errors + [REQUIRED_FILES[i]];
      }
    }
  }

  /** Pushes an error when the file does not parse as what it should be. */
  method CheckFile(parse: Parser, files: Files, name: FileName, ok: Value -> bool, before: seq<FileName>)
    returns (errors: seq<FileName>)
    ensures errors == if ParsesAs(parse, Content(files, name), ok) then before else before + [name]
  {
    errors := before;
    var parsed := parse(Content(files, name));
    if parsed.None? || !ok(parsed.value) {
      errors := errors + [name];
    }
  }

  method CheckParts(parse: Parser, s: Schemas, files: Files, before: seq<FileName>) returns (errors: seq<FileName>)
    ensures errors == [] <==> before == [] && PartsOk(parse, s, files)
  {
    errors := CheckFile(parse, files, Signature, OracleReads(s.reader), before);
    errors := CheckFile(parse, files, LockFile, s.lockOk, errors);
    errors := CheckFile(parse, files, Ledger, s.hypothesesOk, errors);
    errors := CheckFile(parse, files, MinimizationFile, s.minimizationOk, errors);
    errors := CheckFile(parse, files, SummaryFile, s.summaryOk, errors);
    if !V.Includes(Content(files, Readme), RUN_HEADING) {
      errors := errors + [Readme];
    }
  }

  /** One error for the whole log, at the first line that is not a run. */
  method CheckLog(parse: Parser, s: Schemas, files: Files, before: seq<FileName>) returns (errors: seq<FileName>)
    ensures errors == [] <==> before == [] && LogOk(parse, s, files)
  {
    errors := before;
    var lines := Texts.Split(NEWLINE, Content(files, RunLog));
    for i := 0 to |lines|
      invariant errors == before
      invariant forall k :: 0 <= k < i && lines[k] != [] ==> ParsesAs(parse, lines[k], s.runOk)
    {
      if lines[i] != [] && !ParsesAs(parse, lines[i], s.runOk) {
        return before + [RunLog];
      }
    }
  }

  /** validateMaterializedBundle: no errors exactly when every file is there and is what it should be. */
  method ValidateFiles(parse: Parser, s: Schemas, files: Files) returns (errors: seq<FileName>)
    ensures errors == [] <==> FilesOk(parse, s, files)
  {
    errors := CheckPresent(files);
    errors := CheckParts(parse, s, files, errors);
    errors := CheckLog(parse, s, files, errors);
  }

  // ---------------------------------------------------------------------------------------------
  // What is written validates
  // ---------------------------------------------------------------------------------------------

  predicate OneLine(t: Text) { Texts.Without(NEWLINE, t) }

  lemma {:induction false} EscapedIsOneLine(t: Text, rest: Text)
    requires OneLine(rest)
    ensures OneLine(Escape(t, rest))
  {
    if t == [] {
    } else if |t| > 1 && High(t[0]) && Low(t[1]) {
      EscapedIsOneLine(t[2..], rest);
    } else {
      EscapedIsOneLine(t[1..], rest);
    }
  }

  lemma {:induction false} NumberHasNoNewline(t: Text)
    requires NumberUnits(t) == |t|
    ensures OneLine(t)
  {
    if t != [] {
      NumberHasNoNewline(t[1..]);
      assert t == [t[0]] + t[1..];
    }
  }

  /** A printed value has no line break: line breaks in strings are escaped. */
  lemma {:induction false} PrintedIsOneLine(v: Value, rest: Text)
    requires Plain(v) && OneLine(rest)
    ensures OneLine(PrintBefore(v, rest))
  {
    match v
    case Atom(token) =>
      if token !in [TRUE, FALSE, NULL] {
        NumberHasNoNewline(token);
      }
    case Str(text) => EscapedIsOneLine(text, [QUOTE] + rest);
    case Arr(items) => PrintedItemsAreOneLine(items, [CLOSE_LIST] + rest);
    case Obj(members) => PrintedMembersAreOneLine(members, [CLOSE_RECORD] + rest);
  }

  lemma {:induction false} PrintedItemsAreOneLine(items: seq<Value>, rest: Text)
    requires PlainItems(items) && OneLine(rest)
    ensures OneLine(PrintItems(items, rest))
  {
    if |items| == 1 {
      PrintedIsOneLine(items[0], rest);
    } else if items != [] {
      PrintedItemsAreOneLine(items[1..], rest);
      PrintedIsOneLine(items[0], [COMMA] + PrintItems(items[1..], rest));
    }
  }

  lemma {:induction false} PrintedMembersAreOneLine(members: seq<Member>, rest: Text)
    requires PlainMembers(members) && OneLine(rest)
    ensures OneLine(PrintMembers(members, rest))
  {
    if members != [] {
      PrintedMembersAreOneLine(members[1..], rest);
      var after := if |members| == 1 then rest else [COMMA] + PrintMembers(members[1..], rest);
      PrintedIsOneLine(members[0].value, after);
      var value := PrintBefore(members[0].value, after);
      EscapedIsOneLine(members[0].name, [QUOTE] + ([COLON] + value));
    }
  }

  /** Parsing undoes printing. */
  ghost predicate RoundTrips(parse: Parser) { forall v :: Plain(v) ==> parse(Print(v)) == Some(v) }

  lemma JsonRoundTrips()
    ensures RoundTrips(Parse)
  {
    forall v | Plain(v)
      ensures Parse(Print(v)) == Some(v)
    {
      ParseUndoesPrint(v);
    }
  }

  /** The lines of the log are the printed runs, and each parses back to its run. */
  lemma LogLinesOk(parse: Parser, s: Schemas, runs: seq<V.RunResult>)
    requires RoundTrips(parse) && Lawful(s) && runs != [] && forall i :: 0 <= i < |runs| ==> RunOk(runs[i])
    ensures LinesOk(parse, Texts.Split(NEWLINE, Texts.Join(NEWLINE, LogLines(s, runs))), s.runOk)
  {
    var lines := LogLines(s, runs);
    forall i | 0 <= i < |lines|
      ensures OneLine(lines[i]) && ParsesAs(parse, lines[i], s.runOk)
    {
      assert RunOk(runs[i]);
      PrintedIsOneLine(s.run(runs[i]), []);
    }
    Texts.SplitUndoesJoin(NEWLINE, lines);
  }

  lemma ReadmeHasRun(heading: Text, tail: Text)
    ensures V.Includes(heading + RUN_HEADING + tail, RUN_HEADING)
  {
    var text := heading + RUN_HEADING + tail;
    assert text[|heading|..] == RUN_HEADING + tail;
  }

  lemma PartsParse(parse: Parser, s: Schemas, b: Bundle)
    requires RoundTrips(parse) && Lawful(s) && BundleOk(s.reader, b)
    ensures ParsesAs(parse, Stringify(LockValue(s, b)), s.lockOk)
    ensures ParsesAs(parse, Stringify(s.hypotheses(b.base.hypotheses)), s.hypothesesOk)
    ensures ParsesAs(parse, Stringify(s.minimization(b.base.minimization)), s.minimizationOk)
    ensures ParsesAs(parse, Stringify(s.summary(b.base.summary)), s.summaryOk)
  {
  }

  lemma SignatureParses(parse: Parser, reader: F.Reader, o: V.Oracle)
    requires RoundTrips(parse) && F.Lawful(reader) && F.OracleOk(reader, o) && F.EveryField(F.Hashable, o.root)
    ensures ParsesAs(parse, F.Stringify(F.OracleValue(o)), OracleReads(reader))
       <==> F.EveryField(F.Readable(reader), o.root)
  {
    F.OracleIsHashable(reader, o);
    AsJsonIsPlain(F.OracleValue(o));
    F.OracleReadsBack(reader, o);
    assert parse(Print(AsJson(F.OracleValue(o)))) == Some(AsJson(F.OracleValue(o)));
  }

  /**
   The files of a bundle that passes its rules validate, unless its oracle compares a field with undefined and the
   schema misses the member that is not printed for it.
   */
  lemma MaterializedValidates(parse: Parser, s: Schemas, b: Bundle, heading: Text, tail: Text)
    requires RoundTrips(parse) && Lawful(s) && BundleOk(s.reader, b) && b.base.runLog != []
    requires F.EveryField(F.Hashable, b.base.oracle.root)
    ensures FilesOk(parse, s, Materialize(s, b, heading, tail)) <==> F.EveryField(F.Readable(s.reader), b.base.oracle.root)
  {
    MaterializedContents(s, b, heading, tail);
    PartsParse(parse, s, b);
    SignatureParses(parse, s.reader, b.base.oracle);
    LogLinesOk(parse, s, b.base.runLog);
    ReadmeHasRun(heading, tail);
    ValidExactly(parse, s, Materialize(s, b, heading, tail));
  }

  lemma MaterializedContents(s: Schemas, b: Bundle, heading: Text, tail: Text)
    ensures var files := Materialize(s, b, heading, tail);
            && AllPresent(files)
            && Content(files, Readme) == heading + RUN_HEADING + tail
            && Content(files, LockFile) == Stringify(LockValue(s, b))
            && Content(files, Signature) == F.Stringify(F.OracleValue(b.base.oracle))
            && Content(files, RunLog) == Texts.Join(NEWLINE, LogLines(s, b.base.runLog))
            && Content(files, Ledger) == Stringify(s.hypotheses(b.base.hypotheses))
            && Content(files, MinimizationFile) == Stringify(s.minimization(b.base.minimization))
            && Content(files, SummaryFile) == Stringify(s.summary(b.base.summary))
  {
  }

  /** The files say what the bundle is: each parses to its part, and the lines of the log are the runs, in order. */
  ghost predicate FilesTell(s: Schemas, b: Bundle, files: Files) {
    && AllPresent(files)
    && Parse(Content(files, LockFile)) == Some(LockValue(s, b))
    && Parse(Content(files, Ledger)) == Some(s.hypotheses(b.base.hypotheses))
    && Parse(Content(files, MinimizationFile)) == Some(s.minimization(b.base.minimization))
    && Parse(Content(files, SummaryFile)) == Some(s.summary(b.base.summary))
    && SignatureTells(s.reader, b.base.oracle, Content(files, Signature))
    && LogTells(s, b.base.runLog, Texts.Split(NEWLINE, Content(files, RunLog)))
  }

  /** The signature is the oracle, without the members that are undefined. */
  ghost predicate SignatureTells(reader: F.Reader, o: V.Oracle, text: Text) {
    var v := Parse(text);
    v.Some? && F.ReadOracle(reader, v.value) == if F.EveryField(F.Readable(reader), o.root) then Some(o.(root := F.Kept(o.root))) else None
  }

  ghost predicate LogTells(s: Schemas, runs: seq<V.RunResult>, lines: seq<Text>) {
    |lines| == |runs| && forall i :: 0 <= i < |runs| ==> Parse(lines[i]) == Some(s.run(runs[i]))
  }

  lemma LogIsTold(s: Schemas, runs: seq<V.RunResult>)
    requires Lawful(s) && runs != [] && forall i :: 0 <= i < |runs| ==> RunOk(runs[i])
    ensures LogTells(s, runs, Texts.Split(NEWLINE, Texts.Join(NEWLINE, LogLines(s, runs))))
  {
    var lines := LogLines(s, runs);
    forall i | 0 <= i < |lines|
      ensures OneLine(lines[i]) && Parse(lines[i]) == Some(s.run(runs[i]))
    {
      assert RunOk(runs[i]);
      PrintedIsOneLine(s.run(runs[i]), []);
      ParseUndoesPrint(s.run(runs[i]));
    }
    Texts.SplitUndoesJoin(NEWLINE, lines);
  }

  lemma PartsAreTold(s: Schemas, b: Bundle)
    requires Lawful(s) && BundleOk(s.reader, b)
    ensures Parse(Stringify(LockValue(s, b))) == Some(LockValue(s, b))
    ensures Parse(Stringify(s.hypotheses(b.base.hypotheses))) == Some(s.hypotheses(b.base.hypotheses))
    ensures Parse(Stringify(s.minimization(b.base.minimization))) == Some(s.minimization(b.base.minimization))
    ensures Parse(Stringify(s.summary(b.base.summary))) == Some(s.summary(b.base.summary))
  {
    ParseUndoesPrint(LockValue(s, b));
    ParseUndoesPrint(s.hypotheses(b.base.hypotheses));
    ParseUndoesPrint(s.minimization(b.base.minimization));
    ParseUndoesPrint(s.summary(b.base.summary));
  }

  /** Nothing of a bundle is lost in its files. */
  lemma MaterializedTellsBundle(s: Schemas, b: Bundle, heading: Text, tail: Text)
    requires Lawful(s) && BundleOk(s.reader, b) && b.base.runLog != [] && F.EveryField(F.Hashable, b.base.oracle.root)
    ensures FilesTell(s, b, Materialize(s, b, heading, tail))
  {
    MaterializedContents(s, b, heading, tail);
    PartsAreTold(s, b);
    F.SignatureReadsBack(s.reader, b.base.oracle);
    LogIsTold(s, b.base.runLog);
  }

  /** Files that are as they should be apart from the signature validate exactly when the signature does. */
  lemma ValidExactly(parse: Parser, s: Schemas, files: Files)
    requires AllPresent(files) && LogOk(parse, s, files)
    requires ParsesAs(parse, Content(files, LockFile), s.lockOk) && ParsesAs(parse, Content(files, Ledger), s.hypothesesOk)
    requires ParsesAs(parse, Content(files, MinimizationFile), s.minimizationOk)
    requires ParsesAs(parse, Content(files, SummaryFile), s.summaryOk)
    requires V.Includes(Content(files, Readme), RUN_HEADING)
    ensures FilesOk(parse, s, files) <==> ParsesAs(parse, Content(files, Signature), OracleReads(s.reader))
  {
  }
}
