/** The byte messages that issuers and signers sign, and the preimage of a release id: what each contains can
    be read back, so that no two documents share a message. */
module SigningMessages {
  import opened Bytes
  import opened Fields

  datatype Envelope = Envelope(
    schemaVersion: nat, reportDigest: string, issuerId: string, keyId: string,
    issuedAtUnix: nat, expiresAtUnix: nat, algorithm: string, signature: string)

  datatype Revocation = Revocation(revocationId: string, revokedAtUnix: nat, reason: string)

  datatype RevocationList = RevocationList(
    schemaVersion: nat, issuerId: string, keyId: string, sequence: nat, issuedAtUnix: nat, nextUpdateUnix: nat,
    algorithm: string, revoked: seq<Revocation>, signature: string)

  datatype Artifact = Artifact(
    pluginId: string, version: string, platform: string, apiVersion: nat, artifactDigest: string, releaseId: string)

  datatype ArtifactSignature = ArtifactSignature(
    schemaVersion: nat, artifact: Artifact, signerId: string, keyId: string,
    issuedAtUnix: nat, expiresAtUnix: nat, algorithm: string, signature: string)

  datatype Release = Release(pluginId: string, version: string, platform: string, artifactDigest: string)

  const ENVELOPE_DOMAIN := "TokenSaver certification envelope v1"
  const REVOCATION_DOMAIN := "TokenSaver certification revocations v1"
  const ARTIFACT_DOMAIN := "TokenSaver plugin artifact signature v1"
  const RELEASE_DOMAIN := "tokensaver-plugin-release-v1"

  // ---------------------------------------------------------------------------------------------
  // What each message consists of, after its domain
  // ---------------------------------------------------------------------------------------------

  function EnvelopeParts(e: Envelope): Parts {
    Number(e.schemaVersion, Text(e.reportDigest, Text(e.issuerId, Text(e.keyId,
      Number(e.issuedAtUnix, Number(e.expiresAtUnix, Text(e.algorithm, End)))))))
  }

  /** Revocations from the `i`-th on. */
  function EntryParts(revoked: seq<Revocation>, i: nat): Parts
    requires i <= |revoked|
    decreases |revoked| - i
  {
    if i == |revoked| then End
    else
      var more := EntryParts(revoked, i + 1);
      Text(revoked[i].revocationId, Number(revoked[i].revokedAtUnix, Text(revoked[i].reason, more)))
  }

  function ListParts(l: RevocationList): Parts {
    Number(l.schemaVersion, Text(l.issuerId, Text(l.keyId,
      Number(l.sequence, Number(l.issuedAtUnix, Number(l.nextUpdateUnix, Text(l.algorithm,
        Number(|l.revoked|, EntryParts(l.revoked, 0)))))))))
  }

  function ArtifactParts(a: ArtifactSignature): Parts {
    Number(a.schemaVersion, Text(a.artifact.pluginId, Text(a.artifact.version, Text(a.artifact.platform,
      Number(a.artifact.apiVersion, Text(a.artifact.artifactDigest, Text(a.artifact.releaseId,
        Text(a.signerId, Text(a.keyId, Number(a.issuedAtUnix, Number(a.expiresAtUnix, Text(a.algorithm, End))))))))))))
  }

  function ReleaseParts(r: Release): Parts {
    Text(r.pluginId, Text(r.version, Text(r.platform, Text(r.artifactDigest, End))))
  }

  function Message(w: Words, domain: string, p: Parts): string { Encode(w, Text(domain, p)) }

  // ---------------------------------------------------------------------------------------------
  // The messages are built by appending
  // ---------------------------------------------------------------------------------------------

  /** What a vector holding `out` becomes when the parts are appended to it. */
  function Appended(w: Words, out: string, p: Parts): string
    decreases p
  {
    match p
    case End => out
    case Number(n, rest) => Appended(w, out + w.write(n), rest)
    case Text(text, rest) => Appended(w, out + w.write(|text|) + text, rest)
  }

  lemma {:induction false} AppendedIsEncoded(w: Words, out: string, p: Parts)
    ensures Appended(w, out, p) == out + Encode(w, p)
    decreases p
  {
    match p
    case End => assert out + "" == out;
    case Number(n, rest) =>
      AppendedIsEncoded(w, out + w.write(n), rest);
      assert out + w.write(n) + Encode(w, rest) == out + (w.write(n) + Encode(w, rest));
    case Text(text, rest) =>
      AppendedIsEncoded(w, out + w.write(|text|) + text, rest);
      assert out + w.write(|text|) + text + Encode(w, rest) == out + (w.write(|text|) + (text + Encode(w, rest)));
  }

  /** A byte vector, with the parts that its owner still has to append. */
  class Output {
    const words: Words
    var bytes: string
    ghost var todo: Parts

    constructor (words: Words, ghost parts: Parts)
      ensures this.words == words && bytes == "" && todo == parts
    {
      this.words := words;
      bytes := "";
      todo := parts;
    }

    ghost function Goal(): string
      reads this
    {
      Appended(words, bytes, todo)
    }

    method AppendU64(n: nat)
      requires todo.Number? && todo.n == n
      modifies this
      ensures bytes == old(bytes) + words.write(n)
      ensures todo == old(todo).rest && Goal() == old(Goal())
    {
      bytes := bytes + words.write(n);
      todo := todo.rest;
    }

    method AppendField(text: string)
      requires todo.Text? && todo.text == text
      modifies this
      ensures bytes == old(bytes) + words.write(|text|) + text
      ensures todo == old(todo).rest && Goal() == old(Goal())
    {
      bytes := bytes + words.write(|text|);
      bytes := bytes + text;
      todo := todo.rest;
    }
  }

  method EnvelopeSigningMessage(w: Words, domain: string, e: Envelope) returns (message: string)
    ensures message == Message(w, domain, EnvelopeParts(e))
  {
    var output := new Output(w, Text(domain, EnvelopeParts(e)));
    AppendedIsEncoded(w, "", output.todo);
    output.AppendField(domain);
    output.AppendU64(e.schemaVersion);
    output.AppendField(e.reportDigest);
    output.AppendField(e.issuerId);
    output.AppendField(e.keyId);
    output.AppendU64(e.issuedAtUnix);
    output.AppendU64(e.expiresAtUnix);
    output.AppendField(e.algorithm);
    return output.bytes;
  }

  method RevocationListSigningMessage(w: Words, domain: string, l: RevocationList) returns (message: string)
    ensures message == Message(w, domain, ListParts(l))
  {
    var output := new Output(w, Text(domain, ListParts(l)));
    AppendedIsEncoded(w, "", output.todo);
    output.AppendField(domain);
    output.AppendU64(l.schemaVersion);
    output.AppendField(l.issuerId);
    output.AppendField(l.keyId);
    output.AppendU64(l.sequence);
    output.AppendU64(l.issuedAtUnix);
    output.AppendU64(l.nextUpdateUnix);
    output.AppendField(l.algorithm);
    output.AppendU64(|l.revoked|);
    AppendEntries(output, l.revoked);
    return output.bytes;
  }

  method AppendEntries(output: Output, revoked: seq<Revocation>)
    requires output.todo == EntryParts(revoked, 0)
    modifies output
    ensures output.bytes == old(output.Goal())
  {
    for i := 0 to |revoked|
      invariant output.todo == EntryParts(revoked, i) && output.Goal() == old(output.Goal())
    {
      output.AppendField(revoked[i].revocationId);
      output.AppendU64(revoked[i].revokedAtUnix);
      output.AppendField(revoked[i].reason);
    }
  }

  method ArtifactSigningMessage(w: Words, domain: string, a: ArtifactSignature) returns (message: string)
    ensures message == Message(w, domain, ArtifactParts(a))
  {
    var output := new Output(w, Text(domain, ArtifactParts(a)));
    AppendedIsEncoded(w, "", output.todo);
    output.AppendField(domain);
    output.AppendU64(a.schemaVersion);
    output.AppendField(a.artifact.pluginId);
    output.AppendField(a.artifact.version);
    output.AppendField(a.artifact.platform);
    output.AppendU64(a.artifact.apiVersion);
    output.AppendField(a.artifact.artifactDigest);
    output.AppendField(a.artifact.releaseId);
    output.AppendField(a.signerId);
    output.AppendField(a.keyId);
    output.AppendU64(a.issuedAtUnix);
    output.AppendU64(a.expiresAtUnix);
    output.AppendField(a.algorithm);
    return output.bytes;
  }

  /** The preimage of a release id, fed to the hash part by part. */
  method ReleasePreimage(w: Words, domain: string, r: Release) returns (preimage: string)
    ensures preimage == Message(w, domain, ReleaseParts(r))
  {
    var output := new Output(w, Text(domain, ReleaseParts(r)));
    AppendedIsEncoded(w, "", output.todo);
    ReleaseTexts(domain, r);
    var parts := [domain, r.pluginId, r.version, r.platform, r.artifactDigest];
    for i := 0 to |parts|
      invariant output.todo == TextsFrom(parts, i) && output.Goal() == Message(w, domain, ReleaseParts(r))
    {
      output.AppendField(parts[i]);
    }
    return output.bytes;
  }

  lemma ReleaseTexts(domain: string, r: Release)
    ensures TextsFrom([domain, r.pluginId, r.version, r.platform, r.artifactDigest], 0) == Text(domain, ReleaseParts(r))
  {
    var parts := [domain, r.pluginId, r.version, r.platform, r.artifactDigest];
    assert TextsFrom(parts, 4) == Text(r.artifactDigest, TextsFrom(parts, 5));
    assert TextsFrom(parts, 3) == Text(r.platform, TextsFrom(parts, 4));
    assert TextsFrom(parts, 2) == Text(r.version, TextsFrom(parts, 3));
    assert TextsFrom(parts, 1) == Text(r.pluginId, TextsFrom(parts, 2));
  }

  // ---------------------------------------------------------------------------------------------
  // Readers
  // ---------------------------------------------------------------------------------------------

  /** The parts of a message of this domain and shape with nothing after them. */
  function ReadParts(w: Words, domain: string, shape: Shape, s: string): Option<Parts> {
    match Decode(w, AText(shape), s)
    case None => None
    case Some(d) => if d.tail == "" && d.parts.text == domain then Some(d.parts.rest) else None
  }

  lemma ReadPartsIsExact(w: Words, domain: string, shape: Shape, s: string, p: Parts)
    requires Exact(w) && |domain| < U64_LIMIT
    ensures ReadParts(w, domain, shape, s) == Some(p) <==>
            Fit(p) && ShapeOf(p) == shape && s == Message(w, domain, p)
  {
    if Decode(w, AText(shape), s).Some? {
      DecodedWasEncoded(w, AText(shape), s);
      var d := Decode(w, AText(shape), s).value;
      if d.tail == "" {
        assert Encode(w, d.parts) + "" == Encode(w, d.parts);
      }
    }
    if Fit(p) && ShapeOf(p) == shape && s == Message(w, domain, p) {
      DecodeEncoded(w, Text(domain, p), "");
      assert s + "" == s;
    }
  }

  const ENVELOPE_SHAPE := ANumber(AText(AText(AText(ANumber(ANumber(AText(Done)))))))

  const ARTIFACT_SHAPE :=
    ANumber(AText(AText(AText(ANumber(AText(AText(AText(AText(ANumber(ANumber(AText(Done))))))))))))

  const RELEASE_SHAPE := AText(AText(AText(AText(Done))))

  function EntryShape(n: nat): Shape { if n == 0 then Done else AText(ANumber(AText(EntryShape(n - 1)))) }

  function ListShape(entries: Shape): Shape {
    ANumber(AText(AText(ANumber(ANumber(ANumber(AText(ANumber(entries))))))))
  }

  /** Schema and API versions have 32 bits. */
  predicate EnvelopeFits(e: Envelope) { Fit(EnvelopeParts(e)) && e.schemaVersion < U32_LIMIT }

  predicate ListFits(l: RevocationList) { Fit(ListParts(l)) && l.schemaVersion < U32_LIMIT }

  predicate ArtifactFits(a: ArtifactSignature) {
    Fit(ArtifactParts(a)) && a.schemaVersion < U32_LIMIT && a.artifact.apiVersion < U32_LIMIT
  }

  function EnvelopeOf(p: Parts): Option<Envelope> {
    match p
    case Number(v, Text(digest, Text(issuer, Text(key, Number(issued, Number(expires, Text(algorithm, End))))))) =>
      if v < U32_LIMIT then Some(Envelope(v, digest, issuer, key, issued, expires, algorithm, "")) else None
    case _ => None
  }

  function ArtifactOf(p: Parts): Option<ArtifactSignature> {
    match p
    case Number(v, Text(id, Text(version, Text(platform, Number(api, Text(digest, Text(release,
           Text(signer, Text(key, Number(issued, Number(expires, Text(algorithm, End)))))))))))) =>
      if v < U32_LIMIT && api < U32_LIMIT then
        Some(ArtifactSignature(
          v, Artifact(id, version, platform, api, digest, release), signer, key, issued, expires, algorithm, ""))
      else None
    case _ => None
  }

  function ReleaseOf(p: Parts): Option<Release> {
    match p
    case Text(id, Text(version, Text(platform, Text(digest, End)))) => Some(Release(id, version, platform, digest))
    case _ => None
  }

  /** The entries in `p`, which holds nothing else. */
  function EntriesOf(p: Parts): Option<seq<Revocation>> {
    match p
    case End => Some([])
    case Text(id, Number(at, Text(reason, rest))) =>
      (match EntriesOf(rest)
       case None => None
       case Some(entries) => Some([Revocation(id, at, reason)] + entries))
    case _ => None
  }

  function ListOf(p: Parts): Option<RevocationList> {
    match p
    case Number(v, Text(issuer, Text(key, Number(sequence, Number(issued, Number(next,
           Text(algorithm, Number(count, rest)))))))) =>
      (match EntriesOf(rest)
       case None => None
       case Some(entries) =>
         if v < U32_LIMIT && |entries| == count then
           Some(RevocationList(v, issuer, key, sequence, issued, next, algorithm, entries, ""))
         else None)
    case _ => None
  }

  lemma EnvelopeShape(e: Envelope)
    ensures ShapeOf(EnvelopeParts(e)) == ENVELOPE_SHAPE
  {
    var p := EnvelopeParts(e).rest.rest;
    assert ShapeOf(p.rest.rest) == ANumber(ANumber(AText(Done))) by {
      assert ShapeOf(Text(e.algorithm, End)) == AText(Done);
    }
    assert ShapeOf(p) == AText(AText(ShapeOf(p.rest.rest)));
  }

  lemma ArtifactShape(a: ArtifactSignature)
    ensures ShapeOf(ArtifactParts(a)) == ARTIFACT_SHAPE
  {
    var p := ArtifactParts(a);
    var q := p.rest.rest.rest.rest;
    var r := q.rest.rest.rest.rest;
    assert ShapeOf(r.rest) == ANumber(ANumber(AText(Done))) by {
      assert ShapeOf(Text(a.algorithm, End)) == AText(Done);
    }
    assert ShapeOf(r) == AText(ShapeOf(r.rest));
    assert ShapeOf(q) == ANumber(AText(AText(AText(ShapeOf(r))))) by {
      assert ShapeOf(q.rest.rest) == AText(AText(ShapeOf(r)));
    }
    assert ShapeOf(p.rest.rest) == AText(AText(ShapeOf(q)));
  }

  lemma ReleaseShape(r: Release)
    ensures ShapeOf(ReleaseParts(r)) == RELEASE_SHAPE
  {
    assert ShapeOf(Text(r.artifactDigest, End)) == AText(Done);
    assert ShapeOf(ReleaseParts(r).rest) == AText(AText(AText(Done)));
  }

  lemma {:induction false} EntriesShape(revoked: seq<Revocation>, i: nat)
    requires i <= |revoked|
    ensures ShapeOf(EntryParts(revoked, i)) == EntryShape(|revoked| - i)
    decreases |revoked| - i
  {
    if i < |revoked| {
      EntriesShape(revoked, i + 1);
      var p := EntryParts(revoked, i);
      assert ShapeOf(p.rest) == ANumber(AText(ShapeOf(EntryParts(revoked, i + 1))));
    }
  }

  lemma ListShapeOf(l: RevocationList)
    ensures ShapeOf(ListParts(l)) == ListShape(EntryShape(|l.revoked|))
  {
    EntriesShape(l.revoked, 0);
    var p := ListParts(l);
    var q := p.rest.rest.rest.rest;
    assert ShapeOf(q.rest.rest) == AText(ANumber(ShapeOf(EntryParts(l.revoked, 0))));
    assert ShapeOf(q) == ANumber(ANumber(ShapeOf(q.rest.rest)));
    assert ShapeOf(p.rest.rest) == AText(ANumber(ShapeOf(q)));
  }

  lemma {:induction false} EntriesAreExact(p: Parts, revoked: seq<Revocation>, i: nat)
    requires i <= |revoked|
    ensures EntriesOf(p) == Some(revoked[i..]) <==> p == EntryParts(revoked, i)
    decreases |revoked| - i
  {
    match p
    case End =>
    case Text(id, Number(at, Text(reason, rest))) =>
      if i < |revoked| {
        EntriesAreExact(rest, revoked, i + 1);
        assert revoked[i..] == [revoked[i]] + revoked[i + 1..];
        if EntriesOf(p) == Some(revoked[i..]) {
          assert EntriesOf(p).value[0] == Revocation(id, at, reason);
          assert EntriesOf(p).value[1..] == EntriesOf(rest).value;
          assert revoked[i..][1..] == revoked[i + 1..];
        }
      } else {
        assert EntriesOf(p).Some? ==> |EntriesOf(p).value| > 0;
      }
    case _ =>
  }

  function ReadEnvelope(w: Words, domain: string, s: string): Option<Envelope> {
    match ReadParts(w, domain, ENVELOPE_SHAPE, s)
    case None => None
    case Some(p) => EnvelopeOf(p)
  }

  function ReadArtifact(w: Words, domain: string, s: string): Option<ArtifactSignature> {
    match ReadParts(w, domain, ARTIFACT_SHAPE, s)
    case None => None
    case Some(p) => ArtifactOf(p)
  }

  function ReadRelease(w: Words, domain: string, s: string): Option<Release> {
    match ReadParts(w, domain, RELEASE_SHAPE, s)
    case None => None
    case Some(p) => ReleaseOf(p)
  }

  /** The number of entries that the message announces. */
  function ReadCount(w: Words, s: string): Option<nat> {
    match Decode(w, AText(ListShape(Done)), s)
    case None => None
    case Some(d) =>
      match d.parts
      case Text(_, Number(_, Text(_, Text(_, Number(_, Number(_, Number(_, Text(_, Number(count, _))))))))) =>
        Some(count)
      case _ => None
  }

  function ReadList(w: Words, domain: string, s: string): Option<RevocationList> {
    match ReadCount(w, s)
    case None => None
    case Some(count) =>
      match ReadParts(w, domain, ListShape(EntryShape(count)), s)
      case None => None
      case Some(p) => ListOf(p)
  }

  lemma EnvelopePartsAreExact(p: Parts, e: Envelope)
    ensures EnvelopeOf(p) == Some(e) <==> e.schemaVersion < U32_LIMIT && e.signature == "" && p == EnvelopeParts(e)
  {
    match p
    case Number(v, Text(digest, Text(issuer, Text(key, Number(issued, Number(expires, Text(algorithm, End))))))) =>
    case _ =>
  }

  lemma ArtifactPartsAreExact(p: Parts, a: ArtifactSignature)
    ensures ArtifactOf(p) == Some(a) <==>
            && a.schemaVersion < U32_LIMIT && a.artifact.apiVersion < U32_LIMIT
            && a.signature == "" && p == ArtifactParts(a)
  {
    match p
    case Number(v, Text(id, Text(version, Text(platform, Number(api, Text(digest, Text(release,
           Text(signer, Text(key, Number(issued, Number(expires, Text(algorithm, End)))))))))))) =>
    case _ =>
  }

  lemma ReleasePartsAreExact(p: Parts, r: Release)
    ensures ReleaseOf(p) == Some(r) <==> p == ReleaseParts(r)
  {
    match p
    case Text(id, Text(version, Text(platform, Text(digest, End)))) =>
    case _ =>
  }

  lemma ListPartsAreExact(p: Parts, l: RevocationList)
    ensures ListOf(p) == Some(l) <==> l.schemaVersion < U32_LIMIT && l.signature == "" && p == ListParts(l)
  {
    match p
    case Number(v, Text(issuer, Text(key, Number(sequence, Number(issued, Number(next,
           Text(algorithm, Number(count, rest)))))))) =>
      EntriesAreExact(rest, l.revoked, 0);
      assert l.revoked[0..] == l.revoked;
    case _ =>
  }

  /** Envelope messages can be read back, and only they can. */
  lemma EnvelopeIsExact(w: Words, domain: string, s: string, e: Envelope)
    requires Exact(w) && |domain| < U64_LIMIT
    ensures ReadEnvelope(w, domain, s) == Some(e) <==>
            EnvelopeFits(e) && e.signature == "" && s == Message(w, domain, EnvelopeParts(e))
  {
    EnvelopeShape(e);
    ReadPartsIsExact(w, domain, ENVELOPE_SHAPE, s, EnvelopeParts(e));
    if ReadParts(w, domain, ENVELOPE_SHAPE, s).Some? {
      EnvelopePartsAreExact(ReadParts(w, domain, ENVELOPE_SHAPE, s).value, e);
      ReadPartsIsExact(w, domain, ENVELOPE_SHAPE, s, ReadParts(w, domain, ENVELOPE_SHAPE, s).value);
    }
  }

  lemma ArtifactIsExact(w: Words, domain: string, s: string, a: ArtifactSignature)
    requires Exact(w) && |domain| < U64_LIMIT
    ensures ReadArtifact(w, domain, s) == Some(a) <==>
            ArtifactFits(a) && a.signature == "" && s == Message(w, domain, ArtifactParts(a))
  {
    ArtifactShape(a);
    ReadPartsIsExact(w, domain, ARTIFACT_SHAPE, s, ArtifactParts(a));
    if ReadParts(w, domain, ARTIFACT_SHAPE, s).Some? {
      ArtifactPartsAreExact(ReadParts(w, domain, ARTIFACT_SHAPE, s).value, a);
      ReadPartsIsExact(w, domain, ARTIFACT_SHAPE, s, ReadParts(w, domain, ARTIFACT_SHAPE, s).value);
    }
  }

  lemma ReleaseIsExact(w: Words, domain: string, s: string, r: Release)
    requires Exact(w) && |domain| < U64_LIMIT
    ensures ReadRelease(w, domain, s) == Some(r) <==>
            Fit(ReleaseParts(r)) && s == Message(w, domain, ReleaseParts(r))
  {
    ReleaseShape(r);
    ReadPartsIsExact(w, domain, RELEASE_SHAPE, s, ReleaseParts(r));
    if ReadParts(w, domain, RELEASE_SHAPE, s).Some? {
      ReleasePartsAreExact(ReadParts(w, domain, RELEASE_SHAPE, s).value, r);
      ReadPartsIsExact(w, domain, RELEASE_SHAPE, s, ReadParts(w, domain, RELEASE_SHAPE, s).value);
    }
  }

  /** The parts of a list up to its count, followed by `rest`. */
  function ListHeader(domain: string, l: RevocationList, rest: Parts): Parts {
    Text(domain, Number(l.schemaVersion, Text(l.issuerId, Text(l.keyId,
      Number(l.sequence, Number(l.issuedAtUnix, Number(l.nextUpdateUnix, Text(l.algorithm,
        Number(|l.revoked|, rest)))))))))
  }

  /** Cutting a message after its header leaves the message of the rest. */
  lemma CutAfter(w: Words, n: nat, p: Parts, q: Parts, s: string)
    requires Encode(w, p) == Encode(w, q) + s
    ensures Encode(w, Number(n, p)) == Encode(w, Number(n, q)) + s
  {
  }

  lemma CutAfterText(w: Words, text: string, p: Parts, q: Parts, s: string)
    requires Encode(w, p) == Encode(w, q) + s
    ensures Encode(w, Text(text, p)) == Encode(w, Text(text, q)) + s
  {
    assert w.write(|text|) + (text + (Encode(w, q) + s)) == w.write(|text|) + (text + Encode(w, q)) + s;
  }

  lemma HeaderThenEntries(w: Words, domain: string, l: RevocationList, rest: Parts)
    ensures Encode(w, ListHeader(domain, l, rest)) == Encode(w, ListHeader(domain, l, End)) + Encode(w, rest)
  {
    var p, q, s := ListHeader(domain, l, rest), ListHeader(domain, l, End), Encode(w, rest);
    assert Encode(w, End) + s == s;
    var p4, q4 := p.rest.rest.rest.rest, q.rest.rest.rest.rest;
    CutAfter(w, |l.revoked|, rest, End, s);
    CutAfterText(w, l.algorithm, p4.rest.rest.rest.rest, q4.rest.rest.rest.rest, s);
    CutAfter(w, l.nextUpdateUnix, p4.rest.rest.rest, q4.rest.rest.rest, s);
    CutAfter(w, l.issuedAtUnix, p4.rest.rest, q4.rest.rest, s);
    CutAfter(w, l.sequence, p4.rest, q4.rest, s);
    CutAfterText(w, l.keyId, p4, q4, s);
    CutAfterText(w, l.issuerId, p.rest.rest.rest, q.rest.rest.rest, s);
    CutAfter(w, l.schemaVersion, p.rest.rest, q.rest.rest, s);
    CutAfterText(w, domain, p.rest, q.rest, s);
  }

  /** A list's message announces the number of its entries. */
  lemma CountIsRead(w: Words, domain: string, l: RevocationList)
    requires Exact(w) && |domain| < U64_LIMIT && ListFits(l)
    ensures ReadCount(w, Message(w, domain, ListParts(l))) == Some(|l.revoked|)
  {
    var header := ListHeader(domain, l, End);
    HeaderThenEntries(w, domain, l, EntryParts(l.revoked, 0));
    HeaderFits(domain, l);
    HeaderShape(domain, l);
    DecodeEncoded(w, header, Encode(w, EntryParts(l.revoked, 0)));
  }

  lemma HeaderFits(domain: string, l: RevocationList)
    requires |domain| < U64_LIMIT && Fit(ListParts(l))
    ensures Fit(ListHeader(domain, l, End))
  {
    var p, q := ListParts(l), ListHeader(domain, l, End).rest;
    var p2, q2 := p.rest.rest, q.rest.rest;
    var p4, q4 := p2.rest.rest, q2.rest.rest;
    var p6, q6 := p4.rest.rest, q4.rest.rest;
    assert Fit(p.rest) && Fit(p2) && Fit(p2.rest) && Fit(p4) && Fit(p4.rest) && Fit(p6) && Fit(p6.rest);
    assert Fit(q6.rest);
    assert Fit(q6) && Fit(q4.rest);
    assert Fit(q4) && Fit(q2.rest);
    assert Fit(q2) && Fit(q.rest);
  }

  lemma HeaderShape(domain: string, l: RevocationList)
    ensures ShapeOf(ListHeader(domain, l, End)) == AText(ListShape(Done))
  {
    var p := ListHeader(domain, l, End).rest;
    var q := p.rest.rest.rest.rest;
    assert ShapeOf(Number(|l.revoked|, End)) == ANumber(Done);
    assert ShapeOf(q.rest.rest) == AText(ANumber(Done));
    assert ShapeOf(q) == ANumber(ANumber(ShapeOf(q.rest.rest)));
    assert ShapeOf(p.rest.rest) == AText(ANumber(ShapeOf(q)));
    assert ShapeOf(p) == ANumber(AText(ShapeOf(p.rest.rest)));
  }

  /** Revocation-list messages can be read back, however many entries they have, and only they can. */
  lemma ListIsExact(w: Words, domain: string, s: string, l: RevocationList)
    requires Exact(w) && |domain| < U64_LIMIT
    ensures ReadList(w, domain, s) == Some(l) <==>
            ListFits(l) && l.signature == "" && s == Message(w, domain, ListParts(l))
  {
    ListShapeOf(l);
    if ReadCount(w, s).Some? {
      var shape := ListShape(EntryShape(ReadCount(w, s).value));
      if ReadParts(w, domain, shape, s).Some? {
        var p := ReadParts(w, domain, shape, s).value;
        ReadPartsIsExact(w, domain, shape, s, p);
        ListPartsAreExact(p, l);
      }
    }
    if ListFits(l) && l.signature == "" && s == Message(w, domain, ListParts(l)) {
      CountIsRead(w, domain, l);
      ReadPartsIsExact(w, domain, ListShape(EntryShape(|l.revoked|)), s, ListParts(l));
      ListPartsAreExact(ListParts(l), l);
    }
  }

  // ---------------------------------------------------------------------------------------------
  // No two documents share a message
  // ---------------------------------------------------------------------------------------------

  lemma EnvelopesAreBound(w: Words, domain: string, e: Envelope, f: Envelope)
    requires Exact(w) && |domain| < U64_LIMIT && EnvelopeFits(e) && EnvelopeFits(f)
    ensures Message(w, domain, EnvelopeParts(e)) == Message(w, domain, EnvelopeParts(f)) <==>
            e == f.(signature := e.signature)
  {
    var s, t := Message(w, domain, EnvelopeParts(e)), Message(w, domain, EnvelopeParts(f));
    EnvelopeIsExact(w, domain, s, e.(signature := ""));
    EnvelopeIsExact(w, domain, t, f.(signature := ""));
  }

  lemma ListsAreBound(w: Words, domain: string, l: RevocationList, m: RevocationList)
    requires Exact(w) && |domain| < U64_LIMIT && ListFits(l) && ListFits(m)
    ensures Message(w, domain, ListParts(l)) == Message(w, domain, ListParts(m)) <==>
            l == m.(signature := l.signature)
  {
    var s, t := Message(w, domain, ListParts(l)), Message(w, domain, ListParts(m));
    ListIsExact(w, domain, s, l.(signature := ""));
    ListIsExact(w, domain, t, m.(signature := ""));
  }

  lemma ArtifactsAreBound(w: Words, domain: string, a: ArtifactSignature, b: ArtifactSignature)
    requires Exact(w) && |domain| < U64_LIMIT && ArtifactFits(a) && ArtifactFits(b)
    ensures Message(w, domain, ArtifactParts(a)) == Message(w, domain, ArtifactParts(b)) <==>
            a == b.(signature := a.signature)
  {
    var s, t := Message(w, domain, ArtifactParts(a)), Message(w, domain, ArtifactParts(b));
    ArtifactIsExact(w, domain, s, a.(signature := ""));
    ArtifactIsExact(w, domain, t, b.(signature := ""));
  }

  lemma ReleasesAreBound(w: Words, domain: string, r: Release, q: Release)
    requires Exact(w) && |domain| < U64_LIMIT && Fit(ReleaseParts(r)) && Fit(ReleaseParts(q))
    ensures Message(w, domain, ReleaseParts(r)) == Message(w, domain, ReleaseParts(q)) <==> r == q
  {
    ReleaseIsExact(w, domain, Message(w, domain, ReleaseParts(r)), r);
    ReleaseIsExact(w, domain, Message(w, domain, ReleaseParts(q)), q);
  }

  /** Messages of different kinds are never equal. */
  lemma KindsAreSeparate(w: Words, a: string, p: Parts, b: string, q: Parts)
    requires Exact(w)
    requires {a, b} <= {ENVELOPE_DOMAIN, REVOCATION_DOMAIN, ARTIFACT_DOMAIN, RELEASE_DOMAIN} && a != b
    ensures Message(w, a, p) != Message(w, b, q)
  {
    assert |a| < U64_LIMIT && |b| < U64_LIMIT;
    assert Encode(w, End) + Encode(w, p) == Encode(w, p) && Encode(w, End) + Encode(w, q) == Encode(w, q);
    CutAfterText(w, a, p, End, Encode(w, p));
    CutAfterText(w, b, q, End, Encode(w, q));
    DomainsSeparate(w, a, Encode(w, p), b, Encode(w, q));
  }

  lemma DomainsDiffer()
    ensures ENVELOPE_DOMAIN != REVOCATION_DOMAIN && ENVELOPE_DOMAIN != ARTIFACT_DOMAIN
    ensures ENVELOPE_DOMAIN != RELEASE_DOMAIN && REVOCATION_DOMAIN != ARTIFACT_DOMAIN
    ensures REVOCATION_DOMAIN != RELEASE_DOMAIN && ARTIFACT_DOMAIN != RELEASE_DOMAIN
  {
    assert REVOCATION_DOMAIN[11] == 'c' && ARTIFACT_DOMAIN[11] == 'p';
  }

  /** The signing messages and release preimages of the repository, in 64-bit words and under their own domains,
      determine what is signed but for the signature ... */
  lemma DocumentsAreBound(
      e: Envelope, f: Envelope, l: RevocationList, m: RevocationList, a: ArtifactSignature, b: ArtifactSignature,
      r: Release, q: Release)
    requires EnvelopeFits(e) && EnvelopeFits(f) && ListFits(l) && ListFits(m)
    requires ArtifactFits(a) && ArtifactFits(b) && Fit(ReleaseParts(r)) && Fit(ReleaseParts(q))
    ensures Message(U64(), ENVELOPE_DOMAIN, EnvelopeParts(e)) == Message(U64(), ENVELOPE_DOMAIN, EnvelopeParts(f)) <==>
            e == f.(signature := e.signature)
    ensures Message(U64(), REVOCATION_DOMAIN, ListParts(l)) == Message(U64(), REVOCATION_DOMAIN, ListParts(m)) <==>
            l == m.(signature := l.signature)
    ensures Message(U64(), ARTIFACT_DOMAIN, ArtifactParts(a)) == Message(U64(), ARTIFACT_DOMAIN, ArtifactParts(b)) <==>
            a == b.(signature := a.signature)
    ensures Message(U64(), RELEASE_DOMAIN, ReleaseParts(r)) == Message(U64(), RELEASE_DOMAIN, ReleaseParts(q)) <==>
            r == q
  {
    U64IsExact();
    DomainsFit();
    EnvelopesAreBound(U64(), ENVELOPE_DOMAIN, e, f);
    ListsAreBound(U64(), REVOCATION_DOMAIN, l, m);
    ArtifactsAreBound(U64(), ARTIFACT_DOMAIN, a, b);
    ReleasesAreBound(U64(), RELEASE_DOMAIN, r, q);
  }

  lemma DomainsFit()
    ensures |ENVELOPE_DOMAIN| < U64_LIMIT && |REVOCATION_DOMAIN| < U64_LIMIT
    ensures |ARTIFACT_DOMAIN| < U64_LIMIT && |RELEASE_DOMAIN| < U64_LIMIT
  {
  }

  /** ... and its kind. */
  lemma KindsAreBound(e: Envelope, l: RevocationList, a: ArtifactSignature, r: Release)
    ensures
      var envelope := Message(U64(), ENVELOPE_DOMAIN, EnvelopeParts(e));
      var list := Message(U64(), REVOCATION_DOMAIN, ListParts(l));
      var artifact := Message(U64(), ARTIFACT_DOMAIN, ArtifactParts(a));
      var release := Message(U64(), RELEASE_DOMAIN, ReleaseParts(r));
      && envelope != list && envelope != artifact && envelope != release
      && list != artifact && list != release && artifact != release
  {
    U64IsExact();
    DomainsDiffer();
    KindsAreSeparate(U64(), ENVELOPE_DOMAIN, EnvelopeParts(e), REVOCATION_DOMAIN, ListParts(l));
    KindsAreSeparate(U64(), ENVELOPE_DOMAIN, EnvelopeParts(e), ARTIFACT_DOMAIN, ArtifactParts(a));
    KindsAreSeparate(U64(), ENVELOPE_DOMAIN, EnvelopeParts(e), RELEASE_DOMAIN, ReleaseParts(r));
    KindsAreSeparate(U64(), REVOCATION_DOMAIN, ListParts(l), ARTIFACT_DOMAIN, ArtifactParts(a));
    KindsAreSeparate(U64(), REVOCATION_DOMAIN, ListParts(l), RELEASE_DOMAIN, ReleaseParts(r));
    KindsAreSeparate(U64(), ARTIFACT_DOMAIN, ArtifactParts(a), RELEASE_DOMAIN, ReleaseParts(r));
  }
}
