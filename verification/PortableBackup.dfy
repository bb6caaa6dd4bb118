/**
 The portable form of a tenant backup: the archive as one canonical JSON text with the artifact bodies in base64.

 Reading what was written gives the archive back, and whatever is read is an intact archive.
 */
module PortableBackup {
  import opened Wrappers
  import opened Json
  import opened CanonicalJson
  import opened Lists
  import opened TenantManifest
  import Base64

  type Bytes = Base64.Bytes

  const MAX_PORTABLE_BACKUP_BYTES := 128 * 1024 * 1024

  /**
   What the platform provides: `localeCompare`, the shape of a manifest (field types and lengths, without the checks
   across fields), SHA-256 in hexadecimal, and the UTF-8 encoder and fatal decoder.
   */
  datatype Platform = Platform(
    before: Before,
    shape: Value -> Option<Manifest>,
    sha256: Bytes -> Text,
    encode: Text -> Bytes,
    decode: Bytes -> Option<Text>)

  /**
   The shape of what JSON can express depends on what it means; of other values the schema may make what it likes. The
   decoder drops a leading byte order mark; a code unit takes at least one byte.
   */
  ghost predicate Lawful(p: Platform) {
    && Total(p.before)
    && (forall v, w :: Canonical(v) && Canonical(w) && Denote(v) == Denote(w) ==> p.shape(v) == p.shape(w))
    && (forall bytes :: HexText(p.sha256(bytes)))
    && (forall t :: |p.encode(t)| >= |t|)
    && (forall t :: Paired(t) && t != [] && t[0] != 0xFEFF ==> p.decode(p.encode(t)) == Some(t))
  }

  /** `manifest` is the manifest as a JavaScript object, whatever the order of its members. */
  datatype Archive = Archive(manifest: Value, manifestSha256: Text, objects: map<Text, Bytes>)

  /** `Unsupported` is the TypeError of canonicalJson, which nothing turns into a corruption error when sealing. */
  datatype Error = Corrupt | Unsupported

  // ---------------------------------------------------------------------------------------------
  // Intact archives
  // ---------------------------------------------------------------------------------------------

  ghost predicate Accepts(p: Platform, manifest: Value) {
    p.shape(manifest).Some? && Consistent(p.shape(manifest).value)
  }

  function Artifacts(p: Platform, manifest: Value): seq<Artifact>
    requires p.shape(manifest).Some?
  {
    p.shape(manifest).value.artifacts
  }

  function ManifestSha256(p: Platform, manifest: Value): Text
    requires Canonical(manifest) && Total(p.before)
  {
    p.sha256(p.encode(CanonicalText(p.before, manifest).value))
  }

  function Keys(artifacts: seq<Artifact>): set<Text> { set i | 0 <= i < |artifacts| :: artifacts[i].objectKey }

  lemma OneMoreKey(artifacts: seq<Artifact>, i: nat)
    requires i < |artifacts|
    ensures Keys(artifacts[..i + 1]) == Keys(artifacts[..i]) + {artifacts[i].objectKey}
  {
    var more := artifacts[..i + 1];
    assert more == artifacts[..i] + [artifacts[i]];
    forall key | key in Keys(artifacts[..i])
      ensures key in Keys(more)
    {
      var k :| 0 <= k < i && artifacts[k].objectKey == key;
      assert more[k].objectKey == key;
    }
    assert more[i].objectKey == artifacts[i].objectKey;
  }

  predicate BodyOk(p: Platform, a: Artifact, objects: map<Text, Bytes>) {
    a.objectKey in objects && |objects[a.objectKey]| == a.byteCount && p.sha256(objects[a.objectKey]) == a.sha256
  }

  /** The manifest is valid and has the stated digest, and the objects are exactly the bodies it describes. */
  ghost predicate Intact(p: Platform, a: Archive)
    requires Total(p.before)
  {
    && Canonical(a.manifest)
    && Accepts(p, a.manifest)
    && a.manifestSha256 == ManifestSha256(p, a.manifest)
    && a.objects.Keys == Keys(Artifacts(p, a.manifest))
    && forall artifact :: artifact in Artifacts(p, a.manifest) ==>
         && artifact.objectKey in a.objects
         && |a.objects[artifact.objectKey]| == artifact.byteCount
         && p.sha256(a.objects[artifact.objectKey]) == artifact.sha256
  }

  /** The bodies the artifacts describe, or nothing when one is missing or does not match. */
  method CopyBodies(p: Platform, artifacts: seq<Artifact>, bodies: map<Text, Bytes>)
    returns (r: Option<map<Text, Bytes>>)
    ensures r.Some? <==> forall k :: 0 <= k < |artifacts| ==> BodyOk(p, artifacts[k], bodies)
    ensures r.Some? ==> Keys(artifacts) <= bodies.Keys
    ensures r.Some? ==> r.value == map key | key in Keys(artifacts) && key in bodies :: bodies[key]
  {
    var objects: map<Text, Bytes> := map[];
    for i := 0 to |artifacts|
      invariant objects.Keys == Keys(artifacts[..i])
      invariant forall key :: key in objects ==> key in bodies && objects[key] == bodies[key]
      invariant forall k :: 0 <= k < i ==> BodyOk(p, artifacts[k], bodies)
    {
      var a := artifacts[i];
      OneMoreKey(artifacts, i);
      if !BodyOk(p, a, bodies) {
        return None;
      }
      objects := objects[a.objectKey := bodies[a.objectKey]];
    }
    assert artifacts[..|artifacts|] == artifacts;
    return Some(objects);
  }

  /** The manifest alone: it is valid, it can be canonicalised, and its digest. */
  method CheckedManifest(p: Platform, manifest: Value) returns (r: Result<Manifest, Error>)
    requires Lawful(p) && WellFormed(manifest)
    ensures r.Ok? <==> Accepts(p, manifest) && Supported(manifest)
    ensures r.Ok? ==> p.shape(manifest) == Some(r.value)
    ensures r == Err(Unsupported) <==> Accepts(p, manifest) && !Supported(manifest)
  {
    var shape := p.shape(manifest);
    if shape.None? {
      return Err(Corrupt);
    }
    var ok := CheckManifest(shape.value);
    if !ok {
      return Err(Corrupt);
    }
    return if Supported(manifest) then Ok(shape.value) else Err(Unsupported);
  }

  /** verifyTenantBackupArchive: the objects of the result are rebuilt from the manifest. */
  method Verify(p: Platform, raw: Archive) returns (r: Result<Archive, Error>)
    requires Lawful(p) && WellFormed(raw.manifest)
    ensures r.Ok? <==> Intact(p, raw)
    ensures r.Ok? ==> r.value == raw
    ensures r == Err(Unsupported) <==> Accepts(p, raw.manifest) && !Supported(raw.manifest)
  {
    var manifest := CheckedManifest(p, raw.manifest);
    if manifest.Err? {
      return Err(manifest.error);
    }
    r := VerifyObjects(p, raw, manifest.value.artifacts);
  }

  /** The digest and the bodies of an archive with an acceptable manifest. */
  method VerifyObjects(p: Platform, raw: Archive, artifacts: seq<Artifact>) returns (r: Result<Archive, Error>)
    requires Lawful(p) && Canonical(raw.manifest) && Accepts(p, raw.manifest) && artifacts == Artifacts(p, raw.manifest)
    ensures r == if Intact(p, raw) then Ok(raw) else Err(Corrupt)
  {
    if raw.manifestSha256 != ManifestSha256(p, raw.manifest) || raw.objects.Keys != Keys(artifacts) {
      return Err(Corrupt);
    }
    var objects := CopyBodies(p, artifacts, raw.objects);
    if objects.None? {
      return Err(Corrupt);
    }
    assert objects.value == raw.objects;
    return Ok(Archive(raw.manifest, raw.manifestSha256, objects.value));
  }

  // ---------------------------------------------------------------------------------------------
  // A manifest that is accepted and cannot be canonicalised
  // ---------------------------------------------------------------------------------------------

  const REPRODUCTIONS_NAME := Ascii("reproductions")
  const DESCRIPTOR_NAME := Ascii("sourceDescriptor")

  /** Member `i` of the manifest is the list of reproductions, and member `j` of entry `k` its source descriptor. */
  predicate HasDescriptor(manifest: Value, i: nat, k: nat, j: nat) {
    && manifest.Obj? && i < |manifest.members| && manifest.members[i].name == REPRODUCTIONS_NAME
    && var list := manifest.members[i].value;
       && list.Arr? && k < |list.items| && list.items[k].Obj? && j < |list.items[k].members|
       && list.items[k].members[j].name == DESCRIPTOR_NAME
  }

  /** The manifest with another source descriptor there. */
  function WithDescriptor(manifest: Value, i: nat, k: nat, j: nat, descriptor: Value): Value
    requires HasDescriptor(manifest, i, k, j)
  {
    WithMember(manifest, i, WithItem(manifest.members[i].value, k,
                                     WithMember(manifest.members[i].value.items[k], j, descriptor)))
  }

  function WithMember(v: Value, i: nat, value: Value): Value
    requires v.Obj? && i < |v.members|
  {
    Obj(v.members[i := Member(v.members[i].name, value)])
  }

  function WithItem(v: Value, k: nat, item: Value): Value
    requires v.Arr? && k < |v.items|
  {
    Arr(v.items[k := item])
  }

  function Redescribed(m: Manifest, k: nat, descriptor: Meaning): Manifest
    requires k < |m.reproductions|
  {
    m.(reproductions := m.reproductions[k := m.reproductions[k].(sourceDescriptor := descriptor)])
  }

  /** A source descriptor is any record of unknown values: the schema does not look inside. */
  ghost predicate LeavesDescriptors(p: Platform) {
    forall manifest: Value, i: nat, k: nat, j: nat, descriptor: Value ::
      HasDescriptor(manifest, i, k, j) && p.shape(manifest).Some? && descriptor.Obj? && WellFormed(descriptor) ==>
        && k < |p.shape(manifest).value.reproductions|
        && p.shape(WithDescriptor(manifest, i, k, j, descriptor))
           == Some(Redescribed(p.shape(manifest).value, k, Denote(descriptor)))
  }

  lemma WithMemberIs(v: Value, i: nat, value: Value)
    requires v.Obj? && i < |v.members| && WellFormed(v) && WellFormed(value)
    ensures WellFormed(WithMember(v, i, value))
    ensures !Supported(value) && !value.Undefined? ==> !Supported(WithMember(v, i, value))
  {
    var w := WithMember(v, i, value);
    assert w.members[i].value == value;
  }

  lemma WithItemIs(v: Value, k: nat, item: Value)
    requires v.Arr? && k < |v.items| && WellFormed(v) && WellFormed(item)
    ensures WellFormed(WithItem(v, k, item)) && (!Supported(item) ==> !Supported(WithItem(v, k, item)))
  {
    var w := WithItem(v, k, item);
    assert w.items[k] == item;
  }

  /** The same reproductions but for their source descriptors. */
  ghost predicate SameButDescriptors(rs: seq<Reproduction>, others: seq<Reproduction>) {
    && |rs| == |others|
    && forall i :: 0 <= i < |rs| ==> others[i] == rs[i].(sourceDescriptor := others[i].sourceDescriptor)
  }

  lemma ReferencesResolveStill(rs: seq<Reproduction>, others: seq<Reproduction>)
    requires SameButDescriptors(rs, others)
    ensures forall e :: Attempted(rs, e) ==> Attempted(others, e)
    ensures forall caseId :: HasCase(rs, caseId) ==> HasCase(others, caseId)
  {
    forall e | Attempted(rs, e)
      ensures Attempted(others, e)
    {
      var i :| 0 <= i < |rs| && IsAttempt(rs[i].record, e);
      assert IsAttempt(others[i].record, e);
    }
    forall caseId | HasCase(rs, caseId)
      ensures HasCase(others, caseId)
    {
      var i :| 0 <= i < |rs| && rs[i].record.caseId == caseId;
      assert others[i].record.caseId == caseId;
    }
  }

  lemma ReproductionsAreOkStill(tenantId: Text, rs: seq<Reproduction>, others: seq<Reproduction>, artifacts: seq<Artifact>)
    requires SameButDescriptors(rs, others) && ReproductionsAgree(tenantId, rs)
    requires forall i :: 0 <= i < |rs| ==> ReproductionOk(rs[i]) && BundlePresent(artifacts, rs[i])
    ensures ReproductionsAgree(tenantId, others)
    ensures forall i :: 0 <= i < |others| ==> ReproductionOk(others[i]) && BundlePresent(artifacts, others[i])
  {
    assert forall i, j :: 0 <= i < j < |rs| ==> Apart(rs[i], rs[j]);
  }

  /** The checks of a manifest do not depend on its source descriptors. */
  lemma RedescribedIsConsistent(m: Manifest, k: nat, descriptor: Meaning)
    requires k < |m.reproductions| && Consistent(m)
    ensures Consistent(Redescribed(m, k, descriptor))
  {
    var rs, others := m.reproductions, Redescribed(m, k, descriptor).reproductions;
    ReferencesResolveStill(rs, others);
    ReproductionsAreOkStill(m.tenant.tenantId, rs, others, m.artifacts);
  }

  /**
   Whatever manifest is accepted, with a function in one of its source descriptors it is accepted still, and can then
   not be canonicalised.
   */
  lemma FunctionInDescriptor(p: Platform, manifest: Value, i: nat, k: nat, j: nat) returns (other: Value)
    requires Lawful(p) && LeavesDescriptors(p)
    requires WellFormed(manifest) && Accepts(p, manifest) && HasDescriptor(manifest, i, k, j)
    ensures other == WithDescriptor(manifest, i, k, j, Obj([Member(FIRST_ID, Foreign)]))
    ensures WellFormed(other) && Accepts(p, other) && !Supported(other)
  {
    var descriptor := Obj([Member(FIRST_ID, Foreign)]);
    assert !Supported(descriptor.members[0].value) && WellFormed(descriptor);
    other := WithDescriptor(manifest, i, k, j, descriptor);
    var list := manifest.members[i].value;
    WithMemberIs(list.items[k], j, descriptor);
    WithItemIs(list, k, WithMember(list.items[k], j, descriptor));
    WithMemberIs(manifest, i, WithItem(list, k, WithMember(list.items[k], j, descriptor)));
    RedescribedIsConsistent(p.shape(manifest).value, k, Denote(descriptor));
  }

  // ---------------------------------------------------------------------------------------------
  // Writing
  // ---------------------------------------------------------------------------------------------

  const VERSION_NAME := Ascii("archiveSchemaVersion")
  const MANIFEST_NAME := Ascii("manifest")
  const SHA_NAME := Ascii("manifestSha256")
  const OBJECTS_NAME := Ascii("objects")
  const BASE64_NAME := Ascii("base64")
  const COUNT_NAME := Ascii("byteCount")
  const DIGEST_NAME := Ascii("sha256")
  const VERSION := Ascii("1.0")

  function EncodedObject(a: Artifact, body: Bytes): Value {
    Obj([Member(BASE64_NAME, Str(Base64.Encode(body))),
         Member(COUNT_NAME, Atom(Numeral(a.byteCount))),
         Member(DIGEST_NAME, Str(a.sha256))])
  }

  function EncodedObjects(artifacts: seq<Artifact>, objects: map<Text, Bytes>): (r: seq<Member>)
    requires forall i :: 0 <= i < |artifacts| ==> artifacts[i].objectKey in objects
    ensures |r| == |artifacts|
    ensures forall i :: 0 <= i < |r| ==>
              r[i] == Member(artifacts[i].objectKey, EncodedObject(artifacts[i], objects[artifacts[i].objectKey]))
  {
    seq(|artifacts|, i requires 0 <= i < |artifacts| =>
          Member(artifacts[i].objectKey, EncodedObject(artifacts[i], objects[artifacts[i].objectKey])))
  }

  function PortableValue(a: Archive, objects: seq<Member>): Value {
    Obj([Member(VERSION_NAME, Str(VERSION)),
         Member(MANIFEST_NAME, a.manifest),
         Member(SHA_NAME, Str(a.manifestSha256)),
         Member(OBJECTS_NAME, Obj(objects))])
  }

  /** The whole archive as one JSON value. */
  ghost function Portable(p: Platform, a: Archive): Value
    requires Total(p.before) && Intact(p, a)
  {
    PortableValue(a, EncodedObjects(Artifacts(p, a.manifest), a.objects))
  }

  lemma NamesDiffer()
    ensures |VERSION_NAME| == 20 && |MANIFEST_NAME| == 8 && |SHA_NAME| == 14 && |OBJECTS_NAME| == 7
    ensures BASE64_NAME != DIGEST_NAME && |BASE64_NAME| == 6 && |COUNT_NAME| == 9
  {
    assert BASE64_NAME[0] != DIGEST_NAME[0];
  }

  lemma EncodedObjectIsCanonical(a: Artifact, body: Bytes)
    ensures Canonical(EncodedObject(a, body))
  {
    NamesDiffer();
    NumeralIsToken(a.byteCount);
  }

  predicate Keyed(artifacts: seq<Artifact>, bodies: map<Text, Bytes>) {
    && (forall i :: 0 <= i < |artifacts| ==> artifacts[i].objectKey in bodies)
    && (forall i, j :: 0 <= i < j < |artifacts| ==> artifacts[i].objectKey != artifacts[j].objectKey)
  }

  /** The parts of an intact archive that its entries depend on. */
  lemma EntriesAreKeyed(p: Platform, a: Archive)
    requires Total(p.before) && Intact(p, a)
    ensures Keyed(Artifacts(p, a.manifest), a.objects)
    ensures forall i :: 0 <= i < |Artifacts(p, a.manifest)| ==> ArtifactOk(Artifacts(p, a.manifest)[i])
  {
  }

  lemma EncodedObjectsAreCanonical(artifacts: seq<Artifact>, bodies: map<Text, Bytes>)
    requires Keyed(artifacts, bodies)
    ensures Canonical(Obj(EncodedObjects(artifacts, bodies)))
  {
    var members := EncodedObjects(artifacts, bodies);
    forall i | 0 <= i < |members|
      ensures Canonical(members[i].value)
    {
      EncodedObjectIsCanonical(artifacts[i], bodies[artifacts[i].objectKey]);
    }
  }

  lemma PortableValueIsCanonical(a: Archive, objects: seq<Member>)
    requires Canonical(a.manifest) && Canonical(Obj(objects))
    ensures Canonical(PortableValue(a, objects))
  {
    NamesDiffer();
  }

  lemma PortableIsCanonical(p: Platform, a: Archive)
    requires Total(p.before) && Intact(p, a)
    ensures Canonical(Portable(p, a))
  {
    EntriesAreKeyed(p, a);
    EncodedObjectsAreCanonical(Artifacts(p, a.manifest), a.objects);
    PortableValueIsCanonical(a, EncodedObjects(Artifacts(p, a.manifest), a.objects));
  }

  ghost function PortableText(p: Platform, a: Archive): Text
    requires Total(p.before) && Intact(p, a)
  {
    PortableIsCanonical(p, a);
    CanonicalText(p.before, Portable(p, a)).value
  }

  ghost function PortableBytes(p: Platform, a: Archive): Bytes
    requires Total(p.before) && Intact(p, a)
  {
    p.encode(PortableText(p, a))
  }

  method EncodeObjects(artifacts: seq<Artifact>, bodies: map<Text, Bytes>) returns (members: seq<Member>)
    requires forall i :: 0 <= i < |artifacts| ==> artifacts[i].objectKey in bodies
    ensures members == EncodedObjects(artifacts, bodies)
  {
    members := [];
    for i := 0 to |artifacts|
      invariant members == EncodedObjects(artifacts, bodies)[..i]
    {
      var body := bodies[artifacts[i].objectKey];
      members := members + [Member(artifacts[i].objectKey, EncodedObject(artifacts[i], body))];
    }
  }

  /** serializePortableTenantBackup. */
  method Serialize(p: Platform, raw: Archive) returns (r: Result<Bytes, Error>)
    requires Lawful(p) && WellFormed(raw.manifest)
    ensures r.Ok? <==> Intact(p, raw) && |PortableBytes(p, raw)| <= MAX_PORTABLE_BACKUP_BYTES
    ensures r.Ok? ==> r.value == PortableBytes(p, raw)
  {
    var verified := Verify(p, raw);
    if verified.Err? {
      return Err(verified.error);
    }
    var archive := verified.value;
    var objects := EncodeObjects(Artifacts(p, archive.manifest), archive.objects);
    PortableIsCanonical(p, archive);
    var bytes := p.encode(CanonicalText(p.before, PortableValue(archive, objects)).value);
    return if |bytes| > MAX_PORTABLE_BACKUP_BYTES then Err(Corrupt) else Ok(bytes);
  }

  // ---------------------------------------------------------------------------------------------
  // Reading
  // ---------------------------------------------------------------------------------------------

  datatype Encoded = Encoded(base64: Text, byteCount: Text, sha256: Text)

  datatype Contents = Contents(manifest: Meaning, manifestSha256: Text, objects: map<Text, Encoded>)

  /** An entry of `objects`, with exactly the expected members. */
  function ReadEncoded(m: Meaning): Option<Encoded> {
    if !m.Fields? || m.fields.Keys != {BASE64_NAME, COUNT_NAME, DIGEST_NAME} then None
    else
      var base64, count, digest := m.fields[BASE64_NAME], m.fields[COUNT_NAME], m.fields[DIGEST_NAME];
      if base64.String? && |base64.text| <= 2 * MAX_PORTABLE_BACKUP_BYTES
         && count.Token? && Digits(count.token) == |count.token|
         && digest.String? && HexText(digest.text)
      then Some(Encoded(base64.text, count.token, digest.text))
      else None
  }

  predicate EntryOk(key: Text, m: Meaning) { 1 <= |key| <= 1024 && ReadEncoded(m).Some? }

  function Entries(fields: map<Text, Meaning>): map<Text, Encoded> {
    map key | key in fields && EntryOk(key, fields[key]) :: ReadEncoded(fields[key]).value
  }

  /** The schema of the portable form, except for the manifest. */
  function ReadContents(m: Meaning): Option<Contents> {
    if !m.Fields? || m.fields.Keys != {VERSION_NAME, MANIFEST_NAME, SHA_NAME, OBJECTS_NAME} then None
    else
      var sha, objects := m.fields[SHA_NAME], m.fields[OBJECTS_NAME];
      if m.fields[VERSION_NAME] == String(VERSION)
         && sha.String? && HexText(sha.text)
         && objects.Fields? && forall key :: key in objects.fields ==> EntryOk(key, objects.fields[key])
      then
        Some(Contents(m.fields[MANIFEST_NAME], sha.text, Entries(objects.fields)))
      else None
  }

  lemma {:induction false} LookupFinds(members: seq<Member>, name: Text)
    requires PlainMembers(members) && name in DenoteMembers(members)
    ensures var r := Lookup(members, name);
            r.Some? && Plain(r.value) && Denote(r.value) == DenoteMembers(members)[name]
  {
    if members[0].name != name {
      LookupFinds(members[1..], name);
    }
  }

  type Decoder = Text -> Option<Bytes>

  predicate EntryMatches(decode: Decoder, a: Artifact, objects: map<Text, Encoded>) {
    && a.objectKey in objects
    && objects[a.objectKey].byteCount == Numeral(a.byteCount)
    && objects[a.objectKey].sha256 == a.sha256
    && decode(objects[a.objectKey].base64).Some?
  }

  function Decoded(decode: Decoder, objects: map<Text, Encoded>): map<Text, Bytes> {
    map key | key in objects && decode(objects[key].base64).Some? :: decode(objects[key].base64).value
  }

  predicate AllMatch(decode: Decoder, artifacts: seq<Artifact>, objects: map<Text, Encoded>) {
    forall i :: 0 <= i < |artifacts| ==> EntryMatches(decode, artifacts[i], objects)
  }

  /** The archive that a parsed JSON value spells out, before it is verified. */
  ghost function Spelled(p: Platform, v: Value): Option<Archive>
    requires Plain(v)
  {
    var contents := ReadContents(Denote(v));
    if contents.None? then None
    else
      LookupFinds(v.members, MANIFEST_NAME);
      var manifest := Lookup(v.members, MANIFEST_NAME).value;
      if !Accepts(p, manifest) then None
      else
        var artifacts, objects := Artifacts(p, manifest), contents.value.objects;
        if objects.Keys == Keys(artifacts) && AllMatch(Base64.DecodeCanonical, artifacts, objects) then
          Some(Archive(manifest, contents.value.manifestSha256, Decoded(Base64.DecodeCanonical, objects)))
        else None
  }

  /** parsePortableTenantBackup, as a function: the archive, or nothing when the bytes are corrupt. */
  ghost function Read(p: Platform, bytes: Bytes): Option<Archive>
    requires Total(p.before)
  {
    if |bytes| > MAX_PORTABLE_BACKUP_BYTES then None
    else
      var text := p.decode(bytes);
      var v := if text.Some? then Parse(text.value) else None;
      if v.None? then None
      else
        var a := Spelled(p, v.value);
        if a.Some? && Intact(p, a.value) then a else None
  }

  method DecodeObjects(decode: Decoder, artifacts: seq<Artifact>, encoded: map<Text, Encoded>)
    returns (r: Option<map<Text, Bytes>>)
    requires encoded.Keys == Keys(artifacts)
    ensures r.Some? <==> AllMatch(decode, artifacts, encoded)
    ensures r.Some? ==> r.value == Decoded(decode, encoded)
  {
    var objects: map<Text, Bytes> := map[];
    for i := 0 to |artifacts|
      invariant objects.Keys == Keys(artifacts[..i])
      invariant forall key :: key in objects ==> key in encoded && decode(encoded[key].base64) == Some(objects[key])
      invariant forall k :: 0 <= k < i ==> EntryMatches(decode, artifacts[k], encoded)
    {
      var a := artifacts[i];
      OneMoreKey(artifacts, i);
      if !EntryMatches(decode, a, encoded) {
        return None;
      }
      objects := objects[a.objectKey := decode(encoded[a.objectKey].base64).value];
    }
    assert artifacts[..|artifacts|] == artifacts;
    return Some(objects);
  }

  /** The archive spelled out by a parsed value. */
  method SpellOut(p: Platform, v: Value) returns (r: Option<Archive>)
    requires Lawful(p) && Plain(v)
    ensures r == Spelled(p, v)
    ensures r.Some? ==> WellFormed(r.value.manifest)
  {
    var contents := ReadContents(Denote(v));
    if contents.None? {
      return None;
    }
    LookupFinds(v.members, MANIFEST_NAME);
    var manifest := Lookup(v.members, MANIFEST_NAME).value;
    PlainIsCanonical(manifest);
    var checked := CheckedManifest(p, manifest);
    if checked.Err? || contents.value.objects.Keys != Keys(checked.value.artifacts) {
      return None;
    }
    var objects := DecodeObjects(Base64.DecodeCanonical, checked.value.artifacts, contents.value.objects);
    if objects.None? {
      return None;
    }
    return Some(Archive(manifest, contents.value.manifestSha256, objects.value));
  }

  /** The steps of reading: every failure is reported as corruption, and only intact archives are returned. */
  method ReadBackup(p: Platform, bytes: Bytes) returns (r: Result<Archive, Error>)
    requires Lawful(p)
    ensures r == if Read(p, bytes).Some? then Ok(Read(p, bytes).value) else Err(Corrupt)
    ensures r.Ok? ==> Intact(p, r.value)
  {
    if |bytes| > MAX_PORTABLE_BACKUP_BYTES {
      return Err(Corrupt);
    }
    var text := p.decode(bytes);
    if text.None? {
      return Err(Corrupt);
    }
    var v := Parse(text.value);
    if v.None? {
      return Err(Corrupt);
    }
    var spelled := SpellOut(p, v.value);
    if spelled.None? {
      return Err(Corrupt);
    }
    var verified := Verify(p, spelled.value);
    return if verified.Ok? then verified else Err(Corrupt);
  }

  // ---------------------------------------------------------------------------------------------
  // No string is longer than the text it is printed in
  // ---------------------------------------------------------------------------------------------

  /** Every string in the value has at most `n` code units. */
  predicate StringsWithin(v: Value, n: nat) {
    match v
    case Undefined | Foreign | Atom(_) => true
    case Str(text) => |text| <= n
    case Arr(items) => forall i :: 0 <= i < |items| ==> StringsWithin(items[i], n)
    case Obj(members) => forall i :: 0 <= i < |members| ==> StringsWithin(members[i].value, n)
  }

  lemma {:induction false} MoreRoom(v: Value, n: nat, m: nat)
    requires StringsWithin(v, n) && n <= m
    ensures StringsWithin(v, m)
  {
    match v
    case Undefined | Foreign | Atom(_) | Str(_) =>
    case Arr(items) =>
      forall i | 0 <= i < |items| ensures StringsWithin(items[i], m) { MoreRoom(items[i], n, m); }
    case Obj(members) =>
      forall i | 0 <= i < |members| ensures StringsWithin(members[i].value, m) { MoreRoom(members[i].value, n, m); }
  }

  lemma {:induction false} EscapeIsLonger(t: Text, rest: Text)
    ensures |Escape(t, rest)| >= |t| + |rest|
  {
    if t == [] {
    } else if |t| > 1 && High(t[0]) && Low(t[1]) {
      EscapeIsLonger(t[2..], rest);
    } else {
      EscapeIsLonger(t[1..], rest);
    }
  }

  lemma {:induction false} StringsFit(v: Value, rest: Text)
    requires Plain(v)
    ensures |PrintBefore(v, rest)| >= |rest| && StringsWithin(v, |PrintBefore(v, rest)|)
    decreases v
  {
    match v
    case Atom(_) =>
    case Str(text) => EscapeIsLonger(text, [QUOTE] + rest);
    case Arr(items) => ItemsFit(items, [CLOSE_LIST] + rest, |PrintBefore(v, rest)|);
    case Obj(members) => MembersFit(members, [CLOSE_RECORD] + rest, |PrintBefore(v, rest)|);
  }

  lemma {:induction false} ItemsFit(items: seq<Value>, rest: Text, n: nat)
    requires PlainItems(items) && n >= |PrintItems(items, rest)|
    ensures |PrintItems(items, rest)| >= |rest|
    ensures forall i :: 0 <= i < |items| ==> StringsWithin(items[i], n)
    decreases items
  {
    if items != [] {
      var after := if |items| == 1 then rest else [COMMA] + PrintItems(items[1..], rest);
      StringsFit(items[0], after);
      MoreRoom(items[0], |PrintBefore(items[0], after)|, n);
      if |items| > 1 {
        ItemsFit(items[1..], rest, n);
      }
    }
  }

  lemma {:induction false} MembersFit(members: seq<Member>, rest: Text, n: nat)
    requires PlainMembers(members) && n >= |PrintMembers(members, rest)|
    ensures |PrintMembers(members, rest)| >= |rest|
    ensures forall i :: 0 <= i < |members| ==> StringsWithin(members[i].value, n)
    decreases members
  {
    if members != [] {
      var after := if |members| == 1 then rest else [COMMA] + PrintMembers(members[1..], rest);
      var value := PrintBefore(members[0].value, after);
      StringsFit(members[0].value, after);
      EscapeIsLonger(members[0].name, [QUOTE] + ([COLON] + value));
      MoreRoom(members[0].value, |value|, n);
      if |members| > 1 {
        MembersFit(members[1..], rest, n);
      }
    }
  }

  /** A field of an object whose strings are within `n`. */
  lemma FieldWithin(members: seq<Member>, name: Text, n: nat) returns (v: Value)
    requires PlainMembers(members) && StringsWithin(Obj(members), n) && name in DenoteMembers(members)
    ensures Plain(v) && Denote(v) == DenoteMembers(members)[name] && StringsWithin(v, n)
  {
    HasIsField(members, name, DenoteMembers(members)[name]);
    var i :| 0 <= i < |members| && IsField(members[i], name, DenoteMembers(members)[name]);
    v := members[i].value;
  }

  // ---------------------------------------------------------------------------------------------
  // The round trip
  // ---------------------------------------------------------------------------------------------

  lemma DenoteFirst(m: Member, rest: seq<Member>)
    requires !m.value.Undefined?
    ensures DenoteMembers([m] + rest) == DenoteMembers(rest)[m.name := Denote(m.value)]
  {
    assert ([m] + rest)[1..] == rest;
  }

  lemma ThreeFields(a: Member, b: Member, c: Member)
    requires Distinct([a, b, c]) && !a.value.Undefined? && !b.value.Undefined? && !c.value.Undefined?
    ensures DenoteMembers([a, b, c])
         == map[a.name := Denote(a.value), b.name := Denote(b.value), c.name := Denote(c.value)]
  {
    assert [a, b, c] == [a] + ([b] + ([c] + [])) && Distinct([a, b, c]);
    assert [a, b, c][0].name != [a, b, c][1].name && [a, b, c][0].name != [a, b, c][2].name;
    assert [a, b, c][1].name != [a, b, c][2].name;
    DenoteFirst(c, []);
    DenoteFirst(b, [c] + []);
    DenoteFirst(a, [b] + ([c] + []));
  }

  lemma FourFields(a: Member, b: Member, c: Member, d: Member)
    requires a.name !in {b.name, c.name, d.name} && Distinct([b, c, d])
    requires !a.value.Undefined? && !b.value.Undefined? && !c.value.Undefined? && !d.value.Undefined?
    ensures DenoteMembers([a, b, c, d])
         == map[a.name := Denote(a.value), b.name := Denote(b.value), c.name := Denote(c.value), d.name := Denote(d.value)]
  {
    ThreeFields(b, c, d);
    DenoteFirst(a, [b, c, d]);
    assert [a, b, c, d] == [a] + [b, c, d];
  }

  /** What the portable value means. */
  lemma PortableMeans(a: Archive, objects: seq<Member>)
    requires !a.manifest.Undefined?
    ensures Denote(PortableValue(a, objects))
         == Fields(map[VERSION_NAME := String(VERSION), MANIFEST_NAME := Denote(a.manifest),
                       SHA_NAME := String(a.manifestSha256), OBJECTS_NAME := Fields(DenoteMembers(objects))])
  {
    NamesDiffer();
    FourFields(Member(VERSION_NAME, Str(VERSION)), Member(MANIFEST_NAME, a.manifest),
               Member(SHA_NAME, Str(a.manifestSha256)), Member(OBJECTS_NAME, Obj(objects)));
  }

  lemma EncodedObjectMeans(a: Artifact, body: Bytes)
    ensures Denote(EncodedObject(a, body))
         == Fields(map[BASE64_NAME := String(Base64.Encode(body)), COUNT_NAME := Token(Numeral(a.byteCount)),
                       DIGEST_NAME := String(a.sha256)])
  {
    NamesDiffer();
    ThreeFields(Member(BASE64_NAME, Str(Base64.Encode(body))), Member(COUNT_NAME, Atom(Numeral(a.byteCount))),
                Member(DIGEST_NAME, Str(a.sha256)));
  }

  /** The entry of one artifact, as it is read back. */
  function EntryOf(a: Artifact, body: Bytes): Encoded { Encoded(Base64.Encode(body), Numeral(a.byteCount), a.sha256) }

  lemma EntryReadsBack(a: Artifact, body: Bytes)
    requires HexText(a.sha256) && |Base64.Encode(body)| <= 2 * MAX_PORTABLE_BACKUP_BYTES
    ensures ReadEncoded(Denote(EncodedObject(a, body))) == Some(EntryOf(a, body))
  {
    EncodedObjectMeans(a, body);
    NumeralDigits(a.byteCount);
    NamesDiffer();
  }

  /** Whatever is in the printed text is no longer than the text, so the length limit on base64 never bites. */
  lemma EncodedFits(n: Value, size: nat, a: Archive, objects: seq<Member>, i: nat, artifact: Artifact, body: Bytes)
    requires Plain(n) && StringsWithin(n, size) && !a.manifest.Undefined?
    requires Denote(n) == Denote(PortableValue(a, objects))
    requires Distinct(objects) && i < |objects| && objects[i].value == EncodedObject(artifact, body)
    ensures |Base64.Encode(body)| <= size
  {
    PortableMeans(a, objects);
    NamesDiffer();
    var all := FieldWithin(n.members, OBJECTS_NAME, size);
    DenotedField(objects, i);
    var entry := FieldWithin(all.members, objects[i].name, size);
    EncodedObjectMeans(artifact, body);
    var text := FieldWithin(entry.members, BASE64_NAME, size);
  }

  /** The entries of all artifacts, as they are read back. */
  ghost predicate ReadsBack(artifacts: seq<Artifact>, bodies: map<Text, Bytes>, entries: map<Text, Encoded>) {
    && entries.Keys == Keys(artifacts)
    && forall i :: 0 <= i < |artifacts| ==>
         artifacts[i].objectKey in bodies && artifacts[i].objectKey in entries
         && entries[artifacts[i].objectKey] == EntryOf(artifacts[i], bodies[artifacts[i].objectKey])
  }

  lemma EntriesDecode(artifacts: seq<Artifact>, bodies: map<Text, Bytes>, entries: map<Text, Encoded>)
    requires ReadsBack(artifacts, bodies, entries) && bodies.Keys == Keys(artifacts)
    ensures AllMatch(Base64.DecodeCanonical, artifacts, entries)
    ensures Decoded(Base64.DecodeCanonical, entries) == bodies
  {
    var decode: Decoder := Base64.DecodeCanonical;
    forall i | 0 <= i < |artifacts|
      ensures EntryMatches(decode, artifacts[i], entries)
      ensures decode(entries[artifacts[i].objectKey].base64) == Some(bodies[artifacts[i].objectKey])
    {
      var body := bodies[artifacts[i].objectKey];
      Base64.AcceptsExactlyTheImage(Base64.Encode(body), body);
    }
    forall key | key in bodies
      ensures key in entries && decode(entries[key].base64) == Some(bodies[key])
    {
      var i :| 0 <= i < |artifacts| && artifacts[i].objectKey == key;
    }
  }

  lemma EntryAt(artifacts: seq<Artifact>, bodies: map<Text, Bytes>, i: nat)
    requires Keyed(artifacts, bodies) && i < |artifacts| && ArtifactOk(artifacts[i])
    requires |Base64.Encode(bodies[artifacts[i].objectKey])| <= 2 * MAX_PORTABLE_BACKUP_BYTES
    ensures var fields, key := DenoteMembers(EncodedObjects(artifacts, bodies)), artifacts[i].objectKey;
            && key in fields && EntryOk(key, fields[key])
            && ReadEncoded(fields[key]) == Some(EntryOf(artifacts[i], bodies[key]))
  {
    DenotedField(EncodedObjects(artifacts, bodies), i);
    EntryReadsBack(artifacts[i], bodies[artifacts[i].objectKey]);
  }

  /** Every field is the entry of an artifact. */
  lemma FieldIsEntry(artifacts: seq<Artifact>, bodies: map<Text, Bytes>, key: Text) returns (i: nat)
    requires Keyed(artifacts, bodies) && key in DenoteMembers(EncodedObjects(artifacts, bodies))
    ensures i < |artifacts| && artifacts[i].objectKey == key
  {
    var objects := EncodedObjects(artifacts, bodies);
    DenotedNames(objects);
    i :| 0 <= i < |objects| && objects[i].name == key && !objects[i].value.Undefined?;
  }

  ghost predicate BodiesFit(artifacts: seq<Artifact>, bodies: map<Text, Bytes>)
    requires Keyed(artifacts, bodies)
  {
    forall i :: 0 <= i < |artifacts| ==>
      ArtifactOk(artifacts[i]) && |Base64.Encode(bodies[artifacts[i].objectKey])| <= 2 * MAX_PORTABLE_BACKUP_BYTES
  }

  lemma FieldsAreEntries(artifacts: seq<Artifact>, bodies: map<Text, Bytes>)
    requires Keyed(artifacts, bodies) && BodiesFit(artifacts, bodies)
    ensures var fields := DenoteMembers(EncodedObjects(artifacts, bodies));
            forall key :: key in fields ==> EntryOk(key, fields[key])
  {
    var fields := DenoteMembers(EncodedObjects(artifacts, bodies));
    forall key | key in fields
      ensures EntryOk(key, fields[key])
    {
      var i := FieldIsEntry(artifacts, bodies, key);
      EntryAt(artifacts, bodies, i);
    }
  }

  lemma EntriesReadBack(artifacts: seq<Artifact>, bodies: map<Text, Bytes>)
    requires Keyed(artifacts, bodies) && BodiesFit(artifacts, bodies)
    ensures var fields := DenoteMembers(EncodedObjects(artifacts, bodies));
            && (forall key :: key in fields ==> EntryOk(key, fields[key]))
            && ReadsBack(artifacts, bodies, Entries(fields))
  {
    var fields := DenoteMembers(EncodedObjects(artifacts, bodies));
    FieldsAreEntries(artifacts, bodies);
    var entries := Entries(fields);
    forall i | 0 <= i < |artifacts|
      ensures artifacts[i].objectKey in entries
      ensures entries[artifacts[i].objectKey] == EntryOf(artifacts[i], bodies[artifacts[i].objectKey])
    {
      EntryAt(artifacts, bodies, i);
    }
    forall key | key in entries
      ensures key in Keys(artifacts)
    {
      var i := FieldIsEntry(artifacts, bodies, key);
    }
  }

  /** The bodies are within the length limit on base64. */
  ghost predicate Fits(a: Archive) {
    forall key :: key in a.objects ==> |Base64.Encode(a.objects[key])| <= 2 * MAX_PORTABLE_BACKUP_BYTES
  }

  lemma BodyFits(a: Archive, artifacts: seq<Artifact>, n: Value, size: nat, key: Text)
    requires Keyed(artifacts, a.objects) && key in Keys(artifacts) && !a.manifest.Undefined?
    requires Plain(n) && StringsWithin(n, size) && Denote(n) == Denote(PortableValue(a, EncodedObjects(artifacts, a.objects)))
    ensures |Base64.Encode(a.objects[key])| <= size
  {
    var i :| 0 <= i < |artifacts| && artifacts[i].objectKey == key;
    EncodedFits(n, size, a, EncodedObjects(artifacts, a.objects), i, artifacts[i], a.objects[key]);
  }

  /** An archive whose portable form is printed within the size limit fits. */
  lemma PrintedFits(p: Platform, a: Archive, n: Value, size: nat)
    requires Lawful(p) && Intact(p, a)
    requires Plain(n) && StringsWithin(n, size) && size <= MAX_PORTABLE_BACKUP_BYTES
    requires Denote(n) == Denote(Portable(p, a))
    ensures Fits(a)
  {
    EntriesAreKeyed(p, a);
    forall key | key in a.objects
      ensures |Base64.Encode(a.objects[key])| <= size
    {
      BodyFits(a, Artifacts(p, a.manifest), n, size, key);
    }
  }

  lemma ContentsReadBack(p: Platform, a: Archive, n: Value)
    requires Lawful(p) && Intact(p, a) && Fits(a)
    requires Plain(n) && Denote(n) == Denote(Portable(p, a))
    ensures var r := ReadContents(Denote(n));
            && r.Some? && r.value.manifest == Denote(a.manifest) && r.value.manifestSha256 == a.manifestSha256
            && ReadsBack(Artifacts(p, a.manifest), a.objects, r.value.objects)
  {
    var artifacts := Artifacts(p, a.manifest);
    EntriesAreKeyed(p, a);
    EntriesReadBack(artifacts, a.objects);
    ReadsItsFields(a, EncodedObjects(artifacts, a.objects));
  }

  lemma ReadsItsFields(a: Archive, objects: seq<Member>)
    requires !a.manifest.Undefined? && HexText(a.manifestSha256)
    requires forall key :: key in DenoteMembers(objects) ==> EntryOk(key, DenoteMembers(objects)[key])
    ensures ReadContents(Denote(PortableValue(a, objects)))
         == Some(Contents(Denote(a.manifest), a.manifestSha256, Entries(DenoteMembers(objects))))
  {
    PortableMeans(a, objects);
    NamesDiffer();
  }

  /** Equal as archives: the manifests mean the same, and so do the digests and the bodies. */
  predicate SameArchive(a: Archive, b: Archive) {
    Denote(a.manifest) == Denote(b.manifest) && a.manifestSha256 == b.manifestSha256 && a.objects == b.objects
  }

  /** Being intact depends on what the manifest means, not on how its members are ordered. */
  lemma SameIsIntact(p: Platform, a: Archive, b: Archive)
    requires Lawful(p) && Intact(p, a) && SameArchive(a, b) && Canonical(b.manifest)
    ensures Intact(p, b)
  {
    SameTextMeansSameMeaning(p.before, a.manifest, b.manifest);
  }

  /** Contents that are those of an intact archive spell it out. */
  lemma ContentsSpell(p: Platform, a: Archive, n: Value, contents: Contents)
    requires Lawful(p) && Intact(p, a) && Plain(n) && ReadContents(Denote(n)) == Some(contents)
    requires contents.manifest == Denote(a.manifest) && contents.manifestSha256 == a.manifestSha256
    requires ReadsBack(Artifacts(p, a.manifest), a.objects, contents.objects)
    ensures var r := Spelled(p, n); r.Some? && SameArchive(a, r.value) && Canonical(r.value.manifest)
  {
    LookupFinds(n.members, MANIFEST_NAME);
    PlainIsCanonical(Lookup(n.members, MANIFEST_NAME).value);
    EntriesDecode(Artifacts(p, a.manifest), a.objects, contents.objects);
  }

  lemma SpelledReadsBack(p: Platform, a: Archive, n: Value)
    requires Lawful(p) && Intact(p, a) && Fits(a)
    requires Plain(n) && Denote(n) == Denote(Portable(p, a))
    ensures var r := Spelled(p, n); r.Some? && SameArchive(a, r.value) && Intact(p, r.value)
  {
    ContentsReadBack(p, a, n);
    ContentsSpell(p, a, n, ReadContents(Denote(n)).value);
    SameIsIntact(p, a, Spelled(p, n).value);
  }

  // ---------------------------------------------------------------------------------------------
  // What is read, exactly
  // ---------------------------------------------------------------------------------------------

  /** An entry that matches its artifact is the one that would be written for it. */
  lemma EntryIsWritten(a: Artifact, m: Meaning, body: Bytes)
    requires ReadEncoded(m).Some? && ReadEncoded(m).value.byteCount == Numeral(a.byteCount) && ReadEncoded(m).value.sha256 == a.sha256
    requires Base64.DecodeCanonical(ReadEncoded(m).value.base64) == Some(body)
    ensures m == Denote(EncodedObject(a, body))
  {
    EncodedObjectMeans(a, body);
    Base64.AcceptsExactlyTheImage(ReadEncoded(m).value.base64, body);
    NamesDiffer();
    assert m.fields == map[BASE64_NAME := String(Base64.Encode(body)), COUNT_NAME := Token(Numeral(a.byteCount)),
                           DIGEST_NAME := String(a.sha256)];
  }

  /** The entry of artifact `i` is the one that would be written. */
  lemma ObjectIsWritten(artifacts: seq<Artifact>, bodies: map<Text, Bytes>, i: nat, m: Meaning)
    requires Keyed(artifacts, bodies) && i < |artifacts| && ReadEncoded(m).Some?
    requires ReadEncoded(m).value.byteCount == Numeral(artifacts[i].byteCount)
    requires ReadEncoded(m).value.sha256 == artifacts[i].sha256
    requires Base64.DecodeCanonical(ReadEncoded(m).value.base64) == Some(bodies[artifacts[i].objectKey])
    ensures var written, key := DenoteMembers(EncodedObjects(artifacts, bodies)), artifacts[i].objectKey;
            key in written && written[key] == m
  {
    DenotedField(EncodedObjects(artifacts, bodies), i);
    EntryIsWritten(artifacts[i], m, bodies[artifacts[i].objectKey]);
  }

  /** The fields are entries, and these are their contents. */
  ghost predicate AreEntries(fields: map<Text, Meaning>, entries: map<Text, Encoded>) {
    fields.Keys == entries.Keys && forall key :: key in fields ==> ReadEncoded(fields[key]) == Some(entries[key])
  }

  lemma FieldIsWritten(artifacts: seq<Artifact>, fields: map<Text, Meaning>, entries: map<Text, Encoded>,
                       bodies: map<Text, Bytes>, i: nat)
    requires Keyed(artifacts, bodies) && AreEntries(fields, entries) && i < |artifacts|
    requires EntryMatches(Base64.DecodeCanonical, artifacts[i], entries)
    requires bodies == Decoded(Base64.DecodeCanonical, entries)
    ensures var written, key := DenoteMembers(EncodedObjects(artifacts, bodies)), artifacts[i].objectKey;
            key in written && written[key] == fields[key]
  {
    ObjectIsWritten(artifacts, bodies, i, fields[artifacts[i].objectKey]);
  }

  /** Field `i` of what is written is that of the fields. */
  ghost predicate WrittenAt(artifacts: seq<Artifact>, bodies: map<Text, Bytes>, fields: map<Text, Meaning>, i: nat)
    requires Keyed(artifacts, bodies) && i < |artifacts|
  {
    var written, key := DenoteMembers(EncodedObjects(artifacts, bodies)), artifacts[i].objectKey;
    key in written && key in fields && written[key] == fields[key]
  }

  lemma AllWritten(artifacts: seq<Artifact>, bodies: map<Text, Bytes>, fields: map<Text, Meaning>)
    requires Keyed(artifacts, bodies) && fields.Keys == Keys(artifacts)
    requires forall i :: 0 <= i < |artifacts| ==> WrittenAt(artifacts, bodies, fields, i)
    ensures DenoteMembers(EncodedObjects(artifacts, bodies)) == fields
  {
    var written := DenoteMembers(EncodedObjects(artifacts, bodies));
    forall key | key in fields
      ensures key in written && written[key] == fields[key]
    {
      var i :| 0 <= i < |artifacts| && artifacts[i].objectKey == key;
      assert WrittenAt(artifacts, bodies, fields, i);
    }
    forall key | key in written
      ensures key in fields
    {
      var i := FieldIsEntry(artifacts, bodies, key);
    }
  }

  lemma ObjectsAreWritten(artifacts: seq<Artifact>, fields: map<Text, Meaning>, entries: map<Text, Encoded>,
                          bodies: map<Text, Bytes>)
    requires Keyed(artifacts, bodies) && AreEntries(fields, entries) && entries.Keys == Keys(artifacts)
    requires AllMatch(Base64.DecodeCanonical, artifacts, entries)
    requires bodies == Decoded(Base64.DecodeCanonical, entries)
    ensures DenoteMembers(EncodedObjects(artifacts, bodies)) == fields
  {
    forall i | 0 <= i < |artifacts|
      ensures WrittenAt(artifacts, bodies, fields, i)
    {
      FieldIsWritten(artifacts, fields, entries, bodies, i);
    }
    AllWritten(artifacts, bodies, fields);
  }

  /** Contents that spell out an archive are its portable form. */
  lemma ContentsAreWritten(m: Meaning, contents: Contents, a: Archive, artifacts: seq<Artifact>)
    requires ReadContents(m) == Some(contents) && !a.manifest.Undefined?
    requires Denote(a.manifest) == contents.manifest && a.manifestSha256 == contents.manifestSha256
    requires Keyed(artifacts, a.objects) && contents.objects.Keys == Keys(artifacts)
    requires AllMatch(Base64.DecodeCanonical, artifacts, contents.objects)
    requires a.objects == Decoded(Base64.DecodeCanonical, contents.objects)
    ensures m == Denote(PortableValue(a, EncodedObjects(artifacts, a.objects)))
  {
    var fields := ContentsMean(m, contents);
    ObjectsAreWritten(artifacts, fields, contents.objects, a.objects);
    PortableMeans(a, EncodedObjects(artifacts, a.objects));
  }

  lemma ContentsMean(m: Meaning, contents: Contents) returns (fields: map<Text, Meaning>)
    requires ReadContents(m) == Some(contents)
    ensures m == Fields(map[VERSION_NAME := String(VERSION), MANIFEST_NAME := contents.manifest,
                            SHA_NAME := String(contents.manifestSha256), OBJECTS_NAME := Fields(fields)])
    ensures AreEntries(fields, contents.objects)
  {
    NamesDiffer();
    fields := m.fields[OBJECTS_NAME].fields;
    assert forall key :: key in fields ==> EntryOk(key, fields[key]);
    assert m.fields == map[VERSION_NAME := String(VERSION), MANIFEST_NAME := contents.manifest,
                           SHA_NAME := String(contents.manifestSha256), OBJECTS_NAME := Fields(fields)];
  }

  lemma DecodedFits(entries: map<Text, Encoded>, a: Archive)
    requires a.objects == Decoded(Base64.DecodeCanonical, entries)
    requires forall key :: key in entries ==> |entries[key].base64| <= 2 * MAX_PORTABLE_BACKUP_BYTES
    ensures Fits(a)
  {
    forall key | key in a.objects
      ensures |Base64.Encode(a.objects[key])| <= 2 * MAX_PORTABLE_BACKUP_BYTES
    {
      Base64.AcceptsExactlyTheImage(entries[key].base64, a.objects[key]);
    }
  }

  /** A value that spells out an intact archive means what is written for it. */
  lemma SpelledIsWritten(p: Platform, v: Value)
    requires Lawful(p) && Plain(v) && Spelled(p, v).Some? && Intact(p, Spelled(p, v).value)
    ensures Denote(v) == Denote(Portable(p, Spelled(p, v).value)) && Fits(Spelled(p, v).value)
  {
    var a, contents := Spelled(p, v).value, ReadContents(Denote(v)).value;
    SpelledIs(p, v, a, contents);
    EntriesAreKeyed(p, a);
    ContentsAreWritten(Denote(v), contents, a, Artifacts(p, a.manifest));
    DecodedFits(contents.objects, a);
  }

  lemma SpelledIs(p: Platform, v: Value, a: Archive, contents: Contents)
    requires Plain(v) && Spelled(p, v) == Some(a) && ReadContents(Denote(v)) == Some(contents)
    ensures p.shape(a.manifest).Some? && !a.manifest.Undefined?
    ensures Denote(a.manifest) == contents.manifest && a.manifestSha256 == contents.manifestSha256
    ensures contents.objects.Keys == Keys(Artifacts(p, a.manifest))
    ensures AllMatch(Base64.DecodeCanonical, Artifacts(p, a.manifest), contents.objects)
    ensures a.objects == Decoded(Base64.DecodeCanonical, contents.objects)
    ensures forall key :: key in contents.objects ==> |contents.objects[key].base64| <= 2 * MAX_PORTABLE_BACKUP_BYTES
  {
    LookupFinds(v.members, MANIFEST_NAME);
  }

  /** The bytes are the UTF-8 of a JSON text, and of nothing else, that means the portable form of this intact archive. */
  ghost predicate Carries(p: Platform, bytes: Bytes, a: Archive)
    requires Lawful(p)
  {
    && Intact(p, a) && Fits(a)
    && |bytes| <= MAX_PORTABLE_BACKUP_BYTES && p.decode(bytes).Some?
    && var v := Parse(p.decode(bytes).value);
       v.Some? && Denote(v.value) == Denote(Portable(p, a))
  }

  /** Bytes are read exactly when they carry an intact archive, and then that archive is read. */
  lemma ReadsExactly(p: Platform, bytes: Bytes, a: Archive)
    requires Lawful(p)
    ensures Carries(p, bytes, a) ==> Read(p, bytes).Some? && SameArchive(a, Read(p, bytes).value)
    ensures Read(p, bytes).Some? ==> Carries(p, bytes, Read(p, bytes).value)
  {
    if Carries(p, bytes, a) {
      SpelledReadsBack(p, a, Parse(p.decode(bytes).value).value);
    }
    if Read(p, bytes).Some? {
      SpelledIsWritten(p, Parse(p.decode(bytes).value).value);
    }
  }

  /** parsePortableTenantBackup: whatever the bytes do not carry is reported as corruption. */
  method ParseBackup(p: Platform, bytes: Bytes) returns (r: Result<Archive, Error>)
    requires Lawful(p)
    ensures r.Ok? ==> Intact(p, r.value) && Carries(p, bytes, r.value)
    ensures r.Err? ==> r == Err(Corrupt) && forall a :: !Carries(p, bytes, a)
    ensures forall a :: Carries(p, bytes, a) ==> r.Ok? && SameArchive(a, r.value)
  {
    forall a ensures Carries(p, bytes, a) ==> Read(p, bytes).Some? && SameArchive(a, Read(p, bytes).value) {
      ReadsExactly(p, bytes, a);
    }
    r := ReadBackup(p, bytes);
    if r.Ok? {
      ReadsExactly(p, bytes, r.value);
    }
  }

  lemma WrittenText(p: Platform, a: Archive) returns (n: Value, text: Text)
    requires Lawful(p) && Intact(p, a)
    ensures Plain(n) && n.Obj? && text == Print(n) == PortableText(p, a)
    ensures p.decode(PortableBytes(p, a)) == Some(text) && Denote(n) == Denote(Portable(p, a))
    ensures |PortableBytes(p, a)| <= MAX_PORTABLE_BACKUP_BYTES ==> Fits(a)
  {
    PortableIsCanonical(p, a);
    var v := Portable(p, a);
    n := Normalize(p.before, v);
    text := PortableText(p, a);
    CanonicalTextParses(p.before, v);
    NormalIsPlain(p.before, v);
    PrintedIsPaired(n, []);
    assert text[0] == OPEN_RECORD;
    StringsFit(n, []);
    if |PortableBytes(p, a)| <= MAX_PORTABLE_BACKUP_BYTES {
      PrintedFits(p, a, n, |text|);
    }
  }

  /** Reading the portable form of an intact archive gives that archive back, if it is within the size limit. */
  lemma ReadUndoesWrite(p: Platform, a: Archive)
    requires Lawful(p) && Intact(p, a) && |PortableBytes(p, a)| <= MAX_PORTABLE_BACKUP_BYTES
    ensures var r := Read(p, PortableBytes(p, a)); r.Some? && SameArchive(a, r.value)
  {
    var n, text := WrittenText(p, a);
    ParseUndoesPrint(n);
    ReadsExactly(p, PortableBytes(p, a), a);
  }

  /** A written archive followed by more text is read exactly when that text is white space, and nothing is too long. */
  lemma TextBehindBackup(p: Platform, a: Archive, more: Text, bytes: Bytes)
    requires Lawful(p) && Intact(p, a) && |PortableBytes(p, a)| <= MAX_PORTABLE_BACKUP_BYTES
    requires p.decode(bytes) == Some(PortableText(p, a) + more)
    ensures Read(p, bytes).Some? <==> Blank(more) && |bytes| <= MAX_PORTABLE_BACKUP_BYTES
    ensures Read(p, bytes).Some? ==> SameArchive(a, Read(p, bytes).value)
  {
    var n, text := WrittenText(p, a);
    TextBehindValue(n, more);
    ReadsExactly(p, bytes, a);
  }

  /** Archives that mean the same are written to the same bytes, and only those. */
  lemma SameBytesSameArchive(p: Platform, a: Archive, b: Archive)
    requires Lawful(p) && Intact(p, a) && Intact(p, b)
    requires |PortableBytes(p, a)| <= MAX_PORTABLE_BACKUP_BYTES
    ensures PortableBytes(p, a) == PortableBytes(p, b) <==> SameArchive(a, b)
  {
    if PortableBytes(p, a) == PortableBytes(p, b) {
      ReadUndoesWrite(p, a);
      ReadUndoesWrite(p, b);
    }
    if SameArchive(a, b) {
      SameArchiveSameBytes(p, a, b);
    }
  }

  lemma SameArchiveSameBytes(p: Platform, a: Archive, b: Archive)
    requires Lawful(p) && Intact(p, a) && Intact(p, b) && SameArchive(a, b)
    ensures PortableBytes(p, a) == PortableBytes(p, b)
  {
    PortableIsCanonical(p, a);
    PortableIsCanonical(p, b);
    PortableMeans(a, EncodedObjects(Artifacts(p, a.manifest), a.objects));
    PortableMeans(b, EncodedObjects(Artifacts(p, b.manifest), b.objects));
    SameTextMeansSameMeaning(p.before, Portable(p, a), Portable(p, b));
  }
}
