/** Signed agent releases: build, sign, write and verify, with an ideal hash and signature. */
module Release {
  import opened Texts
  import opened JsonText
  import opened Json
  import opened JsonLaws
  import opened JsonBytes
  import Base64
  import Utf8

  /** One file under the agent directory: its relative POSIX path and its bytes. */
  datatype Entry = Entry(path: Text, content: Bytes)

  type Package = seq<Entry>

  /** SHA-256 in hexadecimal and Ed25519, as parameters. */
  datatype Crypto = Crypto(
    hash: Bytes -> Text,
    publicOf: int -> Bytes,
    sign: (int, Bytes) -> Bytes,
    check: (Bytes, Bytes, Bytes) -> bool)

  /** What releasing relies on: digests are plain text and a signature verifies for its own message. */
  ghost predicate Sound(c: Crypto) {
    && (forall b :: Plain(c.hash(b)))
    && (forall k, m :: c.check(c.publicOf(k), c.sign(k, m), m))
  }

  /** What detection relies on: no collisions, and no signature verifies for a second message. */
  ghost predicate Ideal(c: Crypto) {
    && Sound(c)
    && (forall a, b :: c.hash(a) == c.hash(b) ==> a == b)
    && (forall k, m, other :: c.check(c.publicOf(k), c.sign(k, m), other) ==> m == other)
  }

  datatype LoadedKey = Ed25519(raw: Bytes) | OtherKey

  datatype VerifyError =
    | NotSigned
    | Unreadable
    | NotAnObject
    | UnsupportedSchema
    | UnsupportedSignatureSchema
    | UnsupportedAlgorithm
    | FileManifest
    | Unencodable
    | Digest
    | NotEd25519
    | Fingerprint
    | SignatureType
    | BadSignature

  datatype Verdict = Accepted(document: Doc) | Rejected(error: VerifyError)

  const RELEASE_JSON := Lit("release.json")
  const SIGNATURE_JSON := Lit("release.signature.json")
  const PYCACHE := Lit("__pycache__/")
  const DOCUMENT_SCHEMA := Lit("assurance.agent_release.v1")
  const SIGNATURE_SCHEMA := Lit("assurance.agent_release_signature.v1")
  const ALGORITHM := Lit("Ed25519")

  predicate DistinctPaths(pkg: Package) {
    forall i, j | 0 <= i < j < |pkg| :: pkg[i].path != pkg[j].path
  }

  function Lookup(pkg: Package, path: Text): Option<Bytes> {
    if pkg == [] then None else if pkg[0].path == path then Some(pkg[0].content) else Lookup(pkg[1..], path)
  }

  predicate Excluded(path: Text) {
    path == RELEASE_JSON || path == SIGNATURE_JSON || StartsWith(path, PYCACHE)
  }

  /** The members `package_files` collects, in listing order. */
  function FilesOf(c: Crypto, pkg: Package): seq<Member> {
    if pkg == [] then []
    else if Excluded(pkg[0].path) then FilesOf(c, pkg[1..])
    else [Member(pkg[0].path, Str(c.hash(pkg[0].content)))] + FilesOf(c, pkg[1..])
  }

  /** `package_files` over a listing of the directory. */
  method PackageFiles(c: Crypto, pkg: Package) returns (files: seq<Member>)
    requires DistinctPaths(pkg)
    ensures files == FilesOf(c, pkg)
  {
    files := [];
    for i := 0 to |pkg|
      invariant files == FilesOf(c, pkg[..i])
    {
      var path := pkg[i].path;
      FilesOfAppend(c, pkg[..i], pkg[i]);
      assert pkg[..i + 1] == pkg[..i] + [pkg[i]];
      if Excluded(path) {
        continue;
      }
      FilesOfPaths(c, pkg[..i]);
      assert forall m | m in files :: m.key != path;
      DictSetNew(files, path, Str(c.hash(pkg[i].content)));
      files := DictSet(files, path, Str(c.hash(pkg[i].content)));
    }
    assert pkg[..|pkg|] == pkg;
  }

  /** `package_digest`; a file name without an encoding raises. */
  function PackageDigest(c: Crypto, files: seq<Member>): Option<Text> {
    match CanonicalJson(Obj(files))
    case None => None
    case Some(bytes) => Some(c.hash(bytes))
  }

  function BuildDocument(c: Crypto, pkg: Package, agentId: Text, version: Text, releasedAt: Text): Option<Doc> {
    var files := FilesOf(c, pkg);
    match PackageDigest(c, files)
    case None => None
    case Some(digest) =>
      Some(Obj([
        Member(Lit("schema"), Str(DOCUMENT_SCHEMA)),
        Member(Lit("agent_id"), Str(agentId)),
        Member(Lit("version"), Str(version)),
        Member(Lit("released_at"), Str(releasedAt)),
        Member(Lit("files"), Obj(files)),
        Member(Lit("package_sha256"), Str(digest))
      ]))
  }

  function SignatureDocument(c: Crypto, message: Bytes, key: int, keyId: Text): Doc {
    Obj([
      Member(Lit("schema"), Str(SIGNATURE_SCHEMA)),
      Member(Lit("algorithm"), Str(ALGORITHM)),
      Member(Lit("key_id"), Str(keyId)),
      Member(Lit("public_key_sha256"), Str(c.hash(c.publicOf(key)))),
      Member(Lit("signature_base64"), Str(Base64.Encode(c.sign(key, message), false)))
    ])
  }

  function SignDocument(c: Crypto, document: Doc, key: int, keyId: Text): Option<Doc> {
    match CanonicalJson(document)
    case None => None
    case Some(message) => Some(SignatureDocument(c, message, key, keyId))
  }

  /** `json.dumps(d, indent=2, sort_keys=True) + "\n"`. */
  function FileText(d: Doc): Text {
    Dump(d, Pretty(2)) + [LINE_FEED]
  }

  /** `write_text`, replacing a file of the same path. */
  function WriteFile(pkg: Package, path: Text, content: Bytes): Package {
    if pkg == [] then [Entry(path, content)]
    else if pkg[0].path == path then [Entry(path, content)] + pkg[1..]
    else [pkg[0]] + WriteFile(pkg[1..], path, content)
  }

  /** The release script on one directory: build, sign, write both files. */
  function Publish(c: Crypto, pkg: Package, agentId: Text, version: Text, releasedAt: Text, key: int, keyId: Text)
    : Option<(Package, Doc)>
  {
    match BuildDocument(c, pkg, agentId, version, releasedAt)
    case None => None
    case Some(document) =>
      match SignDocument(c, document, key, keyId)
      case None => None
      case Some(signature) =>
        match (Utf8.Encode(FileText(document)), Utf8.Encode(FileText(signature)))
        case (Some(first), Some(second)) =>
          Some((WriteFile(WriteFile(pkg, RELEASE_JSON, first), SIGNATURE_JSON, second), document))
        case _ => None
  }

  /** Universal newlines, which `read_text` translates. */
  function Newlines(t: Text): Text {
    if t == [] then []
    else if t[0] == CARRIAGE_RETURN then [LINE_FEED] + Newlines(if |t| > 1 && t[1] == LINE_FEED then t[2..] else t[1..])
    else [t[0]] + Newlines(t[1..])
  }

  function ReadJson(content: Bytes): Option<Doc> {
    match Utf8.Decode(content)
    case None => None
    case Some(t) => Parse(Newlines(t))
  }

  /** `dict.get`. */
  function Get(ms: seq<Member>, key: Text): Option<Doc> {
    if ms == [] then None else if ms[0].key == key then Some(ms[0].value) else Get(ms[1..], key)
  }

  function VerifySignature(c: Crypto, document: Doc, signature: seq<Member>, raw: Bytes): Verdict {
    if Get(signature, Lit("public_key_sha256")) != Some(Str(c.hash(raw))) then Rejected(Fingerprint)
    else
      match Get(signature, Lit("signature_base64"))
      case None => Rejected(BadSignature)
      case Some(Str(text)) =>
        (match (Base64.Decode(text, false, true), CanonicalJson(document))
         case (Some(bytes), Some(message)) =>
           if c.check(raw, bytes, message) then Accepted(document) else Rejected(BadSignature)
         case _ => Rejected(BadSignature))
      case Some(_) => Rejected(SignatureType)
  }

  /** `verify_agent_release`, guard by guard. */
  function Verify(c: Crypto, pkg: Package, key: LoadedKey): Verdict {
    match (Lookup(pkg, RELEASE_JSON), Lookup(pkg, SIGNATURE_JSON))
    case (Some(documentBytes), Some(signatureBytes)) =>
      (match (ReadJson(documentBytes), ReadJson(signatureBytes))
       case (Some(Obj(document)), Some(Obj(signature))) =>
         VerifyDocuments(c, pkg, key, document, signature)
       case (Some(_), Some(_)) => Rejected(NotAnObject)
       case _ => Rejected(Unreadable))
    case _ => Rejected(NotSigned)
  }

  function VerifyDocuments(c: Crypto, pkg: Package, key: LoadedKey, document: seq<Member>, signature: seq<Member>)
    : Verdict
  {
    if Get(document, Lit("schema")) != Some(Str(DOCUMENT_SCHEMA)) then Rejected(UnsupportedSchema)
    else if Get(signature, Lit("schema")) != Some(Str(SIGNATURE_SCHEMA)) then Rejected(UnsupportedSignatureSchema)
    else if Get(signature, Lit("algorithm")) != Some(Str(ALGORITHM)) then Rejected(UnsupportedAlgorithm)
    else
      var files := Get(document, Lit("files"));
      var expected := FilesOf(c, pkg);
      if files.None? || !Same(files.value, Obj(expected)) then Rejected(FileManifest)
      else
        match PackageDigest(c, expected)
        case None => Rejected(Unencodable)
        case Some(digest) =>
          if Get(document, Lit("package_sha256")) != Some(Str(digest)) then Rejected(Digest)
          else if key.OtherKey? then Rejected(NotEd25519)
          else VerifySignature(c, Obj(document), signature, key.raw)
  }

  // --------------------------------------------------------- the file map

  lemma {:induction false} FilesOfAppend(c: Crypto, pkg: Package, e: Entry)
    ensures FilesOf(c, pkg + [e]) == FilesOf(c, pkg) + FilesOf(c, [e])
  {
    if pkg == [] {
      assert pkg + [e] == [e];
    } else {
      assert (pkg + [e])[1..] == pkg[1..] + [e];
      FilesOfAppend(c, pkg[1..], e);
    }
  }

  predicate HasPath(pkg: Package, path: Text) {
    exists j | 0 <= j < |pkg| :: pkg[j].path == path
  }

  lemma {:induction false} FilesOfPaths(c: Crypto, pkg: Package)
    ensures forall m | m in FilesOf(c, pkg) :: HasPath(pkg, m.key)
  {
    if pkg != [] {
      FilesOfPaths(c, pkg[1..]);
      forall m | m in FilesOf(c, pkg) ensures HasPath(pkg, m.key) {
        if m.key == pkg[0].path {
          assert pkg[0].path == m.key;
        } else {
          assert m in FilesOf(c, pkg[1..]);
          var j :| 0 <= j < |pkg[1..]| && pkg[1..][j].path == m.key;
          assert pkg[j + 1].path == m.key;
        }
      }
    }
  }

  /** The file map holds the digest of every included file and nothing else. */
  lemma {:induction false} FilesOfGet(c: Crypto, pkg: Package, path: Text)
    ensures Get(FilesOf(c, pkg), path)
         == if Excluded(path) || Lookup(pkg, path).None? then None else Some(Str(c.hash(Lookup(pkg, path).value)))
  {
    if pkg != [] {
      FilesOfGet(c, pkg[1..], path);
      if !Excluded(pkg[0].path) {
        assert FilesOf(c, pkg)[1..] == FilesOf(c, pkg[1..]);
      }
    }
  }

  lemma {:induction false} FilesOfDistinct(c: Crypto, pkg: Package)
    requires DistinctPaths(pkg)
    ensures DistinctKeys(FilesOf(c, pkg)) && WellFormed(Obj(FilesOf(c, pkg)))
    ensures forall i | 0 <= i < |FilesOf(c, pkg)| :: FilesOf(c, pkg)[i].value.Str?
  {
    if pkg != [] {
      FilesOfDistinct(c, pkg[1..]);
      FilesOfPaths(c, pkg[1..]);
      var rest := FilesOf(c, pkg[1..]);
      forall i | 0 <= i < |rest| ensures rest[i].key != pkg[0].path {
        assert HasPath(pkg[1..], rest[i].key);
        var j :| 0 <= j < |pkg[1..]| && pkg[1..][j].path == rest[i].key;
        assert pkg[j + 1].path == rest[i].key;
      }
    }
  }

  lemma {:induction false} GetHasKey(ms: seq<Member>, key: Text)
    ensures Get(ms, key).Some? <==> HasKey(ms, key)
    ensures Get(ms, key).Some? ==> Member(key, Get(ms, key).value) in ms
  {
    if ms != [] {
      HeadKeys(ms[0], ms[1..]);
      assert ms == [ms[0]] + ms[1..];
      GetHasKey(ms[1..], key);
    } else {
      assert !HasKey(ms, key);
    }
  }

  lemma {:induction false} GetMember(ms: seq<Member>, i: int)
    requires DistinctKeys(ms) && 0 <= i < |ms|
    ensures Get(ms, ms[i].key) == Some(ms[i].value)
  {
    if i > 0 {
      GetMember(ms[1..], i - 1);
    }
  }

  ghost predicate SameGets(x: seq<Member>, y: seq<Member>) {
    forall key: Text :: Get(x, key) == Get(y, key)
  }

  /** Dicts are equal exactly when every `get` is. */
  lemma SameByGet(x: seq<Member>, y: seq<Member>)
    requires DistinctKeys(x) && DistinctKeys(y)
    requires forall i | 0 <= i < |x| :: x[i].value.Str?
    requires forall i | 0 <= i < |y| :: y[i].value.Str?
    ensures Same(Obj(x), Obj(y)) <==> SameGets(x, y)
  {
    hide Get;
    if Same(Obj(x), Obj(y)) {
      forall key: Text ensures Get(x, key) == Get(y, key) {
        SameGet(x, y, key);
      }
    }
    if SameGets(x, y) {
      GetCovers(x, y);
      GetCovers(y, x);
      forall i, j | 0 <= i < |x| && 0 <= j < |y| && x[i].key == y[j].key ensures Same(x[i].value, y[j].value) {
        GetMember(x, i);
        GetMember(y, j);
      }
    }
  }

  lemma GetCovers(x: seq<Member>, y: seq<Member>)
    requires DistinctKeys(x) && SameGets(x, y)
    ensures forall i | 0 <= i < |x| :: HasKey(y, x[i].key)
  {
    forall i | 0 <= i < |x| ensures HasKey(y, x[i].key) {
      GetMember(x, i);
      GetHasKey(y, x[i].key);
    }
  }

  lemma SameGet(x: seq<Member>, y: seq<Member>, key: Text)
    requires DistinctKeys(x) && DistinctKeys(y) && Same(Obj(x), Obj(y))
    requires forall i | 0 <= i < |x| :: x[i].value.Str?
    ensures Get(x, key) == Get(y, key)
  {
    hide Get;
    GetHasKey(x, key);
    GetHasKey(y, key);
    if HasKey(x, key) {
      var i :| 0 <= i < |x| && x[i].key == key;
      assert HasKey(y, x[i].key);
      var j :| 0 <= j < |y| && y[j].key == key;
      GetMember(x, i);
      GetMember(y, j);
      assert Same(x[i].value, y[j].value);
    }
  }

  /** Two directories agree on every file a release covers. */
  ghost predicate SameIncluded(a: Package, b: Package) {
    forall path: Text | !Excluded(path) :: Lookup(a, path) == Lookup(b, path)
  }

  /** Equal covered files make equal file maps, in whatever order they are listed. */
  lemma SameFiles(c: Crypto, a: Package, b: Package)
    requires DistinctPaths(a) && DistinctPaths(b) && SameIncluded(a, b)
    ensures Same(Obj(FilesOf(c, a)), Obj(FilesOf(c, b)))
  {
    hide FilesOf, Lookup, Excluded, Same;
    FilesOfDistinct(c, a);
    FilesOfDistinct(c, b);
    SameByGet(FilesOf(c, a), FilesOf(c, b));
    forall path: Text ensures Get(FilesOf(c, a), path) == Get(FilesOf(c, b), path) {
      FilesOfGet(c, a, path);
      FilesOfGet(c, b, path);
      assert Excluded(path) || Lookup(a, path) == Lookup(b, path);
    }
  }

  /** With a hash free of collisions, equal file maps come from equal covered files only. */
  lemma FilesIdentifyPackage(c: Crypto, a: Package, b: Package)
    requires Ideal(c) && DistinctPaths(a) && DistinctPaths(b)
    ensures Same(Obj(FilesOf(c, a)), Obj(FilesOf(c, b))) <==> SameIncluded(a, b)
  {
    hide FilesOf, Lookup, Excluded, Same;
    FilesOfDistinct(c, a);
    FilesOfDistinct(c, b);
    SameByGet(FilesOf(c, a), FilesOf(c, b));
    if Same(Obj(FilesOf(c, a)), Obj(FilesOf(c, b))) {
      forall path: Text | !Excluded(path) ensures Lookup(a, path) == Lookup(b, path) {
        assert Get(FilesOf(c, a), path) == Get(FilesOf(c, b), path);
        FilesOfGet(c, a, path);
        FilesOfGet(c, b, path);
      }
    } else if SameIncluded(a, b) {
      SameFiles(c, a, b);
    }
  }

  /** The listing order never reaches the digest. */
  lemma DigestOrderFree(c: Crypto, a: Package, b: Package)
    requires Ideal(c) && DistinctPaths(a) && DistinctPaths(b)
    requires PackageDigest(c, FilesOf(c, a)).Some?
    ensures PackageDigest(c, FilesOf(c, a)) == PackageDigest(c, FilesOf(c, b)) <==> SameIncluded(a, b)
  {
    hide FilesOf, CanonicalJson, Same, SameIncluded;
    FilesOfDistinct(c, a);
    FilesOfDistinct(c, b);
    CanonicalIdentifies(Obj(FilesOf(c, a)), Obj(FilesOf(c, b)));
    FilesIdentifyPackage(c, a, b);
  }

  // ------------------------------------------------ reading back what was written

  lemma {:induction false} NewlinesPlain(t: Text)
    requires Plain(t)
    ensures Newlines(t) == t
  {
    if t != [] {
      NewlinesPlain(t[1..]);
      assert t == [t[0]] + t[1..];
    }
  }

  /** A written JSON file reads back in canonical order, with every string value joined. */
  lemma FileReads(d: Doc)
    requires WellFormed(d) && KeysUnsplit(d)
    ensures Utf8.Encode(FileText(d)).Some?
    ensures ReadJson(Utf8.Encode(FileText(d)).value) == Some(Canon(Joined(d)))
  {
    hide Canon, Print, Parse, Utf8.EncodeScalar, Utf8.Decode, Newlines, Joined, KeysUnsplit;
    var t := FileText(d);
    PrintPlain(Canon(d), Pretty(2), 0);
    assert Plain([LINE_FEED]);
    PlainConcat(Dump(d, Pretty(2)), [LINE_FEED]);
    assert Scalar(t);
    Utf8.DecodeEncode(t);
    NewlinesPlain(t);
    DumpJoins(d, Pretty(2), [LINE_FEED]);
  }

  /** A document without split pairs comes back as it was. */
  lemma FileRoundTrip(d: Doc)
    requires WellFormed(d) && AllTexts(d, Unsplit)
    ensures Utf8.Encode(FileText(d)).Some?
    ensures ReadJson(Utf8.Encode(FileText(d)).value) == Some(Canon(d))
  {
    hide Canon, FileText, ReadJson, Joined, Utf8.Encode, Unsplit;
    UnsplitKeys(d);
    FileReads(d);
    JoinedIdentity(d);
  }

  lemma UnsplitKeys(d: Doc)
    requires AllTexts(d, Unsplit)
    ensures KeysUnsplit(d)
  {
    match d
    case Arr(items) =>
      forall i | 0 <= i < |items| ensures KeysUnsplit(items[i]) {
        UnsplitKeys(items[i]);
      }
    case Obj(ms) =>
      forall i | 0 <= i < |ms| ensures KeysUnsplit(ms[i].value) {
        UnsplitKeys(ms[i].value);
      }
    case _ =>
  }

  lemma ScalarUnsplit(d: Doc)
    requires AllTexts(d, Scalar)
    ensures AllTexts(d, Unsplit)
  {
    match d
    case Arr(items) =>
      forall i | 0 <= i < |items| ensures AllTexts(items[i], Unsplit) {
        ScalarUnsplit(items[i]);
      }
    case Obj(ms) =>
      forall i | 0 <= i < |ms| ensures Unsplit(ms[i].key) && AllTexts(ms[i].value, Unsplit) {
        ScalarUnsplit(ms[i].value);
      }
    case _ =>
  }

  lemma CanonGet(ms: seq<Member>, key: Text)
    requires DistinctKeys(ms)
    ensures Get(Canon(Obj(ms)).members, key)
         == if Get(ms, key).Some? then Some(Canon(Get(ms, key).value)) else None
  {
    CanonMembers(ms);
    var c := Canon(Obj(ms)).members;
    hide Canon, Get, Entries;
    GetHasKey(c, key);
    GetHasKey(ms, key);
    if HasKey(ms, key) {
      var i :| 0 <= i < |ms| && ms[i].key == key;
      GetMember(ms, i);
      InCanon(ms, c, i);
      var j :| 0 <= j < |c| && c[j] == Member(key, Canon(ms[i].value));
      GetMember(c, j);
    } else if HasKey(c, key) {
      var j :| 0 <= j < |c| && c[j].key == key;
      FromEntries(ms, c, j);
    }
  }

  lemma InCanon(ms: seq<Member>, c: seq<Member>, i: int)
    requires multiset(c) == multiset(Entries(ms)) && 0 <= i < |ms|
    ensures Member(ms[i].key, Canon(ms[i].value)) in c
  {
    assert Entries(ms)[i] in multiset(c);
  }

  lemma FromEntries(ms: seq<Member>, c: seq<Member>, j: int)
    requires multiset(c) == multiset(Entries(ms)) && 0 <= j < |c|
    ensures HasKey(ms, c[j].key)
  {
    assert c[j] in multiset(Entries(ms));
    var i :| 0 <= i < |ms| && Entries(ms)[i] == c[j];
    assert ms[i].key == c[j].key;
  }

  lemma {:induction false} WriteFileFacts(pkg: Package, path: Text, content: Bytes)
    requires DistinctPaths(pkg)
    ensures DistinctPaths(WriteFile(pkg, path, content))
    ensures forall q: Text ::
      Lookup(WriteFile(pkg, path, content), q) == if q == path then Some(content) else Lookup(pkg, q)
    ensures forall e | e in WriteFile(pkg, path, content) :: e in pkg || e.path == path
  {
    if pkg != [] && pkg[0].path != path {
      WriteFileFacts(pkg[1..], path, content);
      var rest := WriteFile(pkg[1..], path, content);
      forall i | 0 <= i < |rest| ensures rest[i].path != pkg[0].path {
        assert rest[i] in rest;
      }
      assert WriteFile(pkg, path, content)[1..] == rest;
    }
  }

  // -------------------------------------------------------------- the guarantees

  lemma DocumentWellFormed(c: Crypto, pkg: Package, agentId: Text, version: Text, releasedAt: Text)
    requires DistinctPaths(pkg) && BuildDocument(c, pkg, agentId, version, releasedAt).Some?
    ensures var d := BuildDocument(c, pkg, agentId, version, releasedAt).value;
      && d.Obj? && WellFormed(d) && PackageDigest(c, FilesOf(c, pkg)).Some?
      && Get(d.members, Lit("schema")) == Some(Str(DOCUMENT_SCHEMA))
      && Get(d.members, Lit("files")) == Some(Obj(FilesOf(c, pkg)))
      && Get(d.members, Lit("package_sha256")) == Some(Str(PackageDigest(c, FilesOf(c, pkg)).value))
  {
    hide FilesOf, CanonicalJson;
    FilesOfDistinct(c, pkg);
    var ms := BuildDocument(c, pkg, agentId, version, releasedAt).value.members;
    assert |ms[0].key| == 6 && |ms[1].key| == 8 && |ms[2].key| == 7;
    assert |ms[3].key| == 11 && |ms[4].key| == 5 && |ms[5].key| == 14;
    assert DistinctKeys(ms);
    GetMember(ms, 0);
    GetMember(ms, 4);
    GetMember(ms, 5);
  }

  lemma SignatureKeys(ms: seq<Member>)
    requires |ms| == 5 && ms[0].key == Lit("schema") && ms[1].key == Lit("algorithm") && ms[2].key == Lit("key_id")
    requires ms[3].key == Lit("public_key_sha256") && ms[4].key == Lit("signature_base64")
    ensures DistinctKeys(ms) && forall i | 0 <= i < 5 :: Unsplit(ms[i].key)
  {
    assert |ms[0].key| == 6 && |ms[1].key| == 9 && |ms[2].key| == 6 && |ms[3].key| == 17 && |ms[4].key| == 16;
    assert ms[0].key[0] == 115 && ms[2].key[0] == 107;
  }

  lemma SignatureWellFormed(c: Crypto, message: Bytes, key: int, keyId: Text)
    ensures var d := SignatureDocument(c, message, key, keyId);
      && d.Obj? && WellFormed(d) && KeysUnsplit(d)
      && Get(d.members, Lit("schema")) == Some(Str(SIGNATURE_SCHEMA))
      && Get(d.members, Lit("algorithm")) == Some(Str(ALGORITHM))
      && Get(d.members, Lit("public_key_sha256")) == Some(Str(c.hash(c.publicOf(key))))
      && Get(d.members, Lit("signature_base64")) == Some(Str(Base64.Encode(c.sign(key, message), false)))
  {
    hide Base64.Encode, DistinctKeys, Lit, Get, Unsplit;
    var ms := SignatureDocument(c, message, key, keyId).members;
    SignatureKeys(ms);
    GetMember(ms, 0);
    GetMember(ms, 1);
    GetMember(ms, 3);
    GetMember(ms, 4);
  }

  /** The written signature reads back whole, but for a key identifier with split pairs, which are joined. */
  lemma SignatureReads(c: Crypto, message: Bytes, key: int, keyId: Text)
    requires Sound(c)
    ensures var d := SignatureDocument(c, message, key, keyId);
      && Utf8.Encode(FileText(d)).Some?
      && ReadJson(Utf8.Encode(FileText(d)).value) == Some(Canon(SignatureDocument(c, message, key, Join(keyId))))
  {
    hide Canon, FileText, ReadJson, Utf8.Encode, Unsplit, Join, Lit, Base64.Encode, KeysUnsplit, WellFormed;
    SignatureWellFormed(c, message, key, keyId);
    FileReads(SignatureDocument(c, message, key, keyId));
    SignatureTexts(c, message, key);
    JoinIdentity(SIGNATURE_SCHEMA);
    JoinIdentity(ALGORITHM);
    JoinIdentity(c.hash(c.publicOf(key)));
    JoinIdentity(Base64.Encode(c.sign(key, message), false));
    var d := SignatureDocument(c, message, key, keyId);
    assert Joined(d).members == SignatureDocument(c, message, key, Join(keyId)).members;
  }

  lemma SignatureTexts(c: Crypto, message: Bytes, key: int)
    requires Sound(c)
    ensures Unsplit(SIGNATURE_SCHEMA) && Unsplit(ALGORITHM) && Unsplit(c.hash(c.publicOf(key)))
    ensures Unsplit(Base64.Encode(c.sign(key, message), false))
  {
    hide Base64.Encode;
    assert Plain(c.hash(c.publicOf(key)));
    Base64.EncodeAscii(c.sign(key, message), false);
  }

  /** Every covered path has a UTF-8 encoding. */
  predicate EncodablePaths(pkg: Package) {
    forall i | 0 <= i < |pkg| && !Excluded(pkg[i].path) :: Scalar(pkg[i].path)
  }

  lemma {:induction false} FilesTexts(c: Crypto, pkg: Package)
    requires Sound(c)
    ensures AllTexts(Obj(FilesOf(c, pkg)), Scalar) <==> EncodablePaths(pkg)
  {
    if pkg != [] {
      FilesTexts(c, pkg[1..]);
      assert EncodablePaths(pkg)
        <==> (Excluded(pkg[0].path) || Scalar(pkg[0].path)) && EncodablePaths(pkg[1..]) by {
        if (Excluded(pkg[0].path) || Scalar(pkg[0].path)) && EncodablePaths(pkg[1..]) {
          forall i | 0 <= i < |pkg| && !Excluded(pkg[i].path) ensures Scalar(pkg[i].path) {
            if i > 0 {
              assert pkg[i] == pkg[1..][i - 1];
            }
          }
        }
      }
      assert Plain(c.hash(pkg[0].content));
      if !Excluded(pkg[0].path) {
        ObjTexts(FilesOf(c, pkg));
        assert FilesOf(c, pkg)[1..] == FilesOf(c, pkg[1..]);
      }
    }
  }

  lemma BuildDefined(c: Crypto, pkg: Package, agentId: Text, version: Text, releasedAt: Text)
    requires Sound(c) && DistinctPaths(pkg)
    ensures var d := BuildDocument(c, pkg, agentId, version, releasedAt);
      && (d.Some? <==> EncodablePaths(pkg))
      && (d.Some? ==> (AllTexts(d.value, Scalar) <==> Scalar(agentId) && Scalar(version) && Scalar(releasedAt)))
  {
    hide FilesOf, CanonicalJson, EncodablePaths, Scalar, Lit, AllTexts;
    FilesOfDistinct(c, pkg);
    FilesTexts(c, pkg);
    CanonicalDefined(Obj(FilesOf(c, pkg)));
    if BuildDocument(c, pkg, agentId, version, releasedAt).Some? {
      DocumentTexts(c, BuildDocument(c, pkg, agentId, version, releasedAt).value.members);
    }
  }

  /** Publishing succeeds exactly when every name it signs can be encoded. */
  lemma PublishDefined(c: Crypto, pkg: Package, agentId: Text, version: Text, releasedAt: Text, key: int, keyId: Text)
    requires Sound(c) && DistinctPaths(pkg)
    ensures Publish(c, pkg, agentId, version, releasedAt, key, keyId).Some?
      <==> EncodablePaths(pkg) && Scalar(agentId) && Scalar(version) && Scalar(releasedAt)
  {
    hide FilesOf, CanonicalJson, SignatureDocument, FileText, Utf8.Encode, EncodablePaths, WriteFile, Scalar,
      BuildDocument, WellFormed, AllTexts;
    BuildDefined(c, pkg, agentId, version, releasedAt);
    if BuildDocument(c, pkg, agentId, version, releasedAt).Some? {
      var d := BuildDocument(c, pkg, agentId, version, releasedAt).value;
      DocumentWellFormed(c, pkg, agentId, version, releasedAt);
      CanonicalDefined(d);
      if CanonicalJson(d).Some? {
        ScalarUnsplit(d);
        FileRoundTrip(d);
        SignatureReads(c, CanonicalJson(d).value, key, keyId);
      }
    }
  }

  /** A file whose name Python read as a lone surrogate: the directory lists, and does not publish. */
  lemma SurrogatePathFails(c: Crypto, agentId: Text, version: Text, releasedAt: Text, key: int, keyId: Text)
    requires Sound(c)
    ensures var pkg := [Entry([0xDC80], [])];
      DistinctPaths(pkg) && Publish(c, pkg, agentId, version, releasedAt, key, keyId).None?
  {
    var pkg := [Entry([0xDC80], [])];
    assert !Excluded(pkg[0].path) by {
      assert |RELEASE_JSON| > 1 && |SIGNATURE_JSON| > 1 && |PYCACHE| > 1;
    }
    assert !Scalar(pkg[0].path) by {
      assert IsLow(pkg[0].path[0]);
    }
    hide Publish, Excluded, Scalar;
    PublishDefined(c, pkg, agentId, version, releasedAt, key, keyId);
    assert !EncodablePaths(pkg);
  }

  lemma DocumentTexts(c: Crypto, ms: seq<Member>)
    requires Sound(c) && |ms| == 6
    requires ms[0] == Member(Lit("schema"), Str(DOCUMENT_SCHEMA))
    requires ms[1].key == Lit("agent_id") && ms[2].key == Lit("version") && ms[3].key == Lit("released_at")
    requires ms[1].value.Str? && ms[2].value.Str? && ms[3].value.Str?
    requires ms[4].key == Lit("files") && ms[5].key == Lit("package_sha256")
    requires exists b :: ms[5].value == Str(c.hash(b))
    ensures AllTexts(Obj(ms), Scalar)
      <==> (Scalar(ms[1].value.text) && Scalar(ms[2].value.text) && Scalar(ms[3].value.text)
        && AllTexts(ms[4].value, Scalar))
  {
    hide Scalar, Lit, AllTexts;
    DocumentKeysScalar(ms);
    var b :| ms[5].value == Str(c.hash(b));
    HashScalar(c, b);
    TextsOfMembers(ms);
    TextsOfString(DOCUMENT_SCHEMA);
    TextsOfString(c.hash(b));
    TextsOfString(ms[1].value.text);
    TextsOfString(ms[2].value.text);
    TextsOfString(ms[3].value.text);
  }

  lemma DocumentKeysScalar(ms: seq<Member>)
    requires |ms| == 6 && ms[0].key == Lit("schema") && ms[1].key == Lit("agent_id") && ms[2].key == Lit("version")
    requires ms[3].key == Lit("released_at") && ms[4].key == Lit("files") && ms[5].key == Lit("package_sha256")
    ensures forall i | 0 <= i < 6 :: Scalar(ms[i].key)
    ensures Scalar(DOCUMENT_SCHEMA)
  {
  }

  lemma HashScalar(c: Crypto, b: Bytes)
    requires Sound(c)
    ensures Scalar(c.hash(b))
  {
    assert Plain(c.hash(b));
  }

  lemma TextsOfMembers(ms: seq<Member>)
    ensures AllTexts(Obj(ms), Scalar) <==> forall i | 0 <= i < |ms| :: Scalar(ms[i].key) && AllTexts(ms[i].value, Scalar)
  {
    hide Scalar;
  }

  lemma TextsOfString(t: Text)
    ensures AllTexts(Str(t), Scalar) <==> Scalar(t)
  {
    hide Scalar;
  }

  /** The two release files of a package are the ones written for a document. */
  predicate Carries(c: Crypto, pkg: Package, document: Doc, key: int, keyId: Text) {
    && CanonicalJson(document).Some?
    && Lookup(pkg, RELEASE_JSON) == Utf8.Encode(FileText(document))
    && Lookup(pkg, SIGNATURE_JSON)
    == Utf8.Encode(FileText(SignatureDocument(c, CanonicalJson(document).value, key, keyId)))
  }

  lemma PublishCarries(c: Crypto, pkg: Package, agentId: Text, version: Text, releasedAt: Text, key: int, keyId: Text,
    out: Package, document: Doc)
    requires DistinctPaths(pkg)
    requires Publish(c, pkg, agentId, version, releasedAt, key, keyId) == Some((out, document))
    ensures BuildDocument(c, pkg, agentId, version, releasedAt) == Some(document)
    ensures Carries(c, out, document, key, keyId) && DistinctPaths(out) && SameIncluded(pkg, out)
  {
    hide BuildDocument, CanonicalJson, SignatureDocument, FileText, Utf8.Encode, WriteFile, Lookup;
    var first := Utf8.Encode(FileText(document)).value;
    var second := Utf8.Encode(FileText(SignDocument(c, document, key, keyId).value)).value;
    WriteFileFacts(pkg, RELEASE_JSON, first);
    WriteFileFacts(WriteFile(pkg, RELEASE_JSON, first), SIGNATURE_JSON, second);
    assert |RELEASE_JSON| != |SIGNATURE_JSON|;
  }

  /** The written signature verifies for a document exactly when its canonical bytes are the signed ones. */
  lemma SignatureAccepts(c: Crypto, document: Doc, message: Bytes, key: int, keyId: Text)
    requires Sound(c)
    ensures var sig := Canon(SignatureDocument(c, message, key, keyId)).members;
      && (CanonicalJson(document) == Some(message)
          ==> VerifySignature(c, document, sig, c.publicOf(key)) == Accepted(document))
      && (Ideal(c) && VerifySignature(c, document, sig, c.publicOf(key)).Accepted?
          ==> CanonicalJson(document) == Some(message))
  {
    hide Canon, Base64.Encode, Base64.Decode, CanonicalJson, Get, SignatureDocument;
    SignatureWellFormed(c, message, key, keyId);
    var ms := SignatureDocument(c, message, key, keyId).members;
    CanonGet(ms, Lit("public_key_sha256"));
    CanonGet(ms, Lit("signature_base64"));
    CanonStr(c.hash(c.publicOf(key)));
    CanonStr(Base64.Encode(c.sign(key, message), false));
    Base64.RoundTrip(c.sign(key, message), false, true);
  }

  lemma CanonStr(t: Text)
    ensures Canon(Str(t)) == Str(t)
  {
  }

  /** Reading the two files of a published package gives back both documents, the key identifier joined. */
  lemma CarriedDocuments(c: Crypto, pkg: Package, document: Doc, key: int, keyId: Text)
    requires Sound(c) && WellFormed(document) && Carries(c, pkg, document, key, keyId)
    ensures var sig := SignatureDocument(c, CanonicalJson(document).value, key, Join(keyId));
      && Lookup(pkg, RELEASE_JSON).Some? && Lookup(pkg, SIGNATURE_JSON).Some?
      && ReadJson(Lookup(pkg, RELEASE_JSON).value) == Some(Canon(document))
      && ReadJson(Lookup(pkg, SIGNATURE_JSON).value) == Some(Canon(sig))
  {
    hide Canon, CanonicalJson, SignatureDocument, FileText, ReadJson, Utf8.Encode, Lookup;
    CanonicalDefined(document);
    ScalarUnsplit(document);
    FileRoundTrip(document);
    SignatureReads(c, CanonicalJson(document).value, key, keyId);
  }

  lemma CanonicalOfCanon(d: Doc)
    requires WellFormed(d)
    ensures CanonicalJson(Canon(d)) == CanonicalJson(d)
  {
    CanonIdempotent(d);
  }

  lemma SameCanonLeft(a: Doc, b: Doc)
    requires WellFormed(a) && WellFormed(b)
    ensures Same(Canon(a), b) <==> Same(a, b)
  {
    CanonIdempotent(a);
    CanonWellFormed(a, COMPACT);
    SameIffCanon(Canon(a), b);
    SameIffCanon(a, b);
  }

  /** The verdict on any package that carries the release files written for `built`. */
  lemma VerifyCarried(c: Crypto, built: Package, pkg: Package, agentId: Text, version: Text, releasedAt: Text,
    key: int, keyId: Text, document: Doc)
    requires Sound(c) && DistinctPaths(built) && DistinctPaths(pkg)
    requires BuildDocument(c, built, agentId, version, releasedAt) == Some(document)
    requires Carries(c, pkg, document, key, keyId)
    ensures Verify(c, pkg, Ed25519(c.publicOf(key)))
         == if Same(Obj(FilesOf(c, built)), Obj(FilesOf(c, pkg))) then Accepted(Canon(document))
            else Rejected(FileManifest)
  {
    hide Canon, CanonicalJson, SignatureDocument, FileText, ReadJson, Utf8.Encode, Lookup, Get, FilesOf, Same,
      BuildDocument, VerifySignature;
    var message := CanonicalJson(document).value;
    var sig := SignatureDocument(c, message, key, Join(keyId));
    DocumentWellFormed(c, built, agentId, version, releasedAt);
    SignatureWellFormed(c, message, key, Join(keyId));
    CarriedDocuments(c, pkg, document, key, keyId);
    CanonObj(document.members);
    CanonObj(sig.members);
    CanonGet(document.members, Lit("schema"));
    CanonGet(document.members, Lit("files"));
    CanonGet(document.members, Lit("package_sha256"));
    CanonGet(sig.members, Lit("schema"));
    CanonGet(sig.members, Lit("algorithm"));
    CanonStr(DOCUMENT_SCHEMA);
    CanonStr(SIGNATURE_SCHEMA);
    CanonStr(ALGORITHM);
    CanonStr(PackageDigest(c, FilesOf(c, built)).value);
    FilesOfDistinct(c, built);
    FilesOfDistinct(c, pkg);
    SameCanonLeft(Obj(FilesOf(c, built)), Obj(FilesOf(c, pkg)));
    CanonicalOfCanon(document);
    SignatureAccepts(c, Canon(document), message, key, Join(keyId));
    if Same(Obj(FilesOf(c, built)), Obj(FilesOf(c, pkg))) {
      SameDigest(c, built, pkg);
    }
  }

  lemma CanonObj(ms: seq<Member>)
    ensures Canon(Obj(ms)).Obj?
  {
  }

  lemma SameDigest(c: Crypto, a: Package, b: Package)
    requires DistinctPaths(a) && DistinctPaths(b) && PackageDigest(c, FilesOf(c, a)).Some?
    requires Same(Obj(FilesOf(c, a)), Obj(FilesOf(c, b)))
    ensures PackageDigest(c, FilesOf(c, a)) == PackageDigest(c, FilesOf(c, b))
  {
    hide FilesOf, CanonicalJson, Same;
    FilesOfDistinct(c, a);
    FilesOfDistinct(c, b);
    CanonicalIdentifies(Obj(FilesOf(c, a)), Obj(FilesOf(c, b)));
  }

  /** Every package that publishes verifies under the key that signed it. */
  lemma PublishedVerifies(c: Crypto, pkg: Package, agentId: Text, version: Text, releasedAt: Text, key: int,
    keyId: Text, out: Package, document: Doc)
    requires Sound(c) && DistinctPaths(pkg)
    requires Publish(c, pkg, agentId, version, releasedAt, key, keyId) == Some((out, document))
    ensures Verify(c, out, Ed25519(c.publicOf(key))) == Accepted(Canon(document))
  {
    hide Canon, Publish, BuildDocument, Verify, Carries, SameIncluded, FilesOf;
    PublishCarries(c, pkg, agentId, version, releasedAt, key, keyId, out, document);
    SameFiles(c, pkg, out);
    VerifyCarried(c, pkg, out, agentId, version, releasedAt, key, keyId, document);
  }

  /**
   * After publishing, adding, removing or editing a covered file is refused as a manifest mismatch,
   * and nothing else is: only changes outside the covered files go unnoticed.
   */
  lemma TamperingDetected(c: Crypto, pkg: Package, agentId: Text, version: Text, releasedAt: Text, key: int,
    keyId: Text, out: Package, document: Doc, tampered: Package)
    requires Ideal(c) && DistinctPaths(pkg) && DistinctPaths(tampered)
    requires Publish(c, pkg, agentId, version, releasedAt, key, keyId) == Some((out, document))
    requires Lookup(tampered, RELEASE_JSON) == Lookup(out, RELEASE_JSON)
    requires Lookup(tampered, SIGNATURE_JSON) == Lookup(out, SIGNATURE_JSON)
    ensures Verify(c, tampered, Ed25519(c.publicOf(key)))
         == if SameIncluded(pkg, tampered) then Accepted(Canon(document)) else Rejected(FileManifest)
  {
    hide Canon, Publish, BuildDocument, Verify, SameIncluded, FilesOf, CanonicalJson, SignatureDocument, FileText,
      Utf8.Encode, Lookup;
    PublishCarries(c, pkg, agentId, version, releasedAt, key, keyId, out, document);
    VerifyCarried(c, pkg, tampered, agentId, version, releasedAt, key, keyId, document);
    FilesIdentifyPackage(c, pkg, tampered);
  }

  /** A published signature vouches for no other document, however `release.json` is rewritten. */
  lemma SignatureBindsDocument(c: Crypto, pkg: Package, document: Doc, key: int, keyId: Text)
    requires Ideal(c) && WellFormed(document) && CanonicalJson(document).Some?
    requires Lookup(pkg, SIGNATURE_JSON)
      == Utf8.Encode(FileText(SignatureDocument(c, CanonicalJson(document).value, key, keyId)))
    ensures var verdict := Verify(c, pkg, Ed25519(c.publicOf(key)));
      verdict.Accepted? ==> Same(verdict.document, document)
  {
    hide Canon, CanonicalJson, SignatureDocument, FileText, ReadJson, Utf8.Encode, Lookup, Get, FilesOf, Same,
      VerifySignature, PackageDigest;
    var message := CanonicalJson(document).value;
    var sig := SignatureDocument(c, message, key, Join(keyId));
    SignatureReads(c, message, key, keyId);
    SignatureWellFormed(c, message, key, Join(keyId));
    CanonObj(sig.members);
    var verdict := Verify(c, pkg, Ed25519(c.publicOf(key)));
    if verdict.Accepted? {
      var read := ReadJson(Lookup(pkg, RELEASE_JSON).value).value;
      assert VerifySignature(c, read, Canon(sig).members, c.publicOf(key)) == verdict;
      VerifiedDocument(c, read, Canon(sig).members, c.publicOf(key));
      SignatureAccepts(c, read, message, key, Join(keyId));
      ReadWellFormed(Lookup(pkg, RELEASE_JSON).value);
      CanonicalIdentifies(read, document);
    }
  }

  lemma VerifiedDocument(c: Crypto, document: Doc, signature: seq<Member>, raw: Bytes)
    ensures var v := VerifySignature(c, document, signature, raw); v.Accepted? ==> v.document == document
  {
  }

  lemma ReadWellFormed(content: Bytes)
    ensures ReadJson(content).Some? ==> WellFormed(ReadJson(content).value)
  {
    if Utf8.Decode(content).Some? {
      ParseWellFormed(SkipBlanks(Newlines(Utf8.Decode(content).value)));
    }
  }

  // ------------------------------------------------- what each step means, in its inputs' own fields

  /** A file is listed with the digest of its bytes unless it is a release file or a cached one. */
  lemma FilesListed(c: Crypto, pkg: Package, e: Entry)
    requires DistinctPaths(pkg) && e in pkg
    ensures Get(FilesOf(c, pkg), e.path)
         == if e.path == Lit("release.json") || e.path == Lit("release.signature.json") || Lit("__pycache__/") <= e.path
            then None else Some(Str(c.hash(e.content)))
  {
    hide Lit;
    FilesOfGet(c, pkg, e.path);
    LookupMeans(pkg, e);
  }

  lemma {:induction false} LookupMeans(pkg: Package, e: Entry)
    requires DistinctPaths(pkg) && e in pkg
    ensures Lookup(pkg, e.path) == Some(e.content)
  {
    assert pkg == [pkg[0]] + pkg[1..];
    if pkg[0] != e {
      LookupMeans(pkg[1..], e);
      var j :| 0 < j < |pkg| && pkg[j] == e;
    }
  }

  /** The document names its schema, the agent, the version and the time it was given, the files and their digest. */
  lemma DocumentMeans(c: Crypto, pkg: Package, agentId: Text, version: Text, releasedAt: Text, document: Doc)
    requires DistinctPaths(pkg) && BuildDocument(c, pkg, agentId, version, releasedAt) == Some(document)
    ensures document.Obj? && CanonicalJson(Obj(FilesOf(c, pkg))).Some?
    ensures Get(document.members, Lit("schema")) == Some(Str(Lit("assurance.agent_release.v1")))
    ensures Get(document.members, Lit("agent_id")) == Some(Str(agentId))
    ensures Get(document.members, Lit("version")) == Some(Str(version))
    ensures Get(document.members, Lit("released_at")) == Some(Str(releasedAt))
    ensures Get(document.members, Lit("files")) == Some(Obj(FilesOf(c, pkg)))
    ensures Get(document.members, Lit("package_sha256"))
         == Some(Str(c.hash(CanonicalJson(Obj(FilesOf(c, pkg))).value)))
    ensures |document.members| == 6
  {
    hide Lit, FilesOf, CanonicalJson, Get, DistinctKeys;
    var ms := document.members;
    DocumentKeys(ms);
    forall i | 0 <= i < 6 ensures Get(ms, ms[i].key) == Some(ms[i].value) {
      GetMember(ms, i);
    }
    assert ms[0].key == Lit("schema") && ms[1].key == Lit("agent_id") && ms[2].key == Lit("version")
      && ms[3].key == Lit("released_at") && ms[4].key == Lit("files") && ms[5].key == Lit("package_sha256");
  }

  lemma DocumentKeys(ms: seq<Member>)
    requires |ms| == 6 && ms[0].key == Lit("schema") && ms[1].key == Lit("agent_id") && ms[2].key == Lit("version")
    requires ms[3].key == Lit("released_at") && ms[4].key == Lit("files") && ms[5].key == Lit("package_sha256")
    ensures DistinctKeys(ms)
  {
    assert |ms[0].key| == 6 && |ms[1].key| == 8 && |ms[2].key| == 7;
    assert |ms[3].key| == 11 && |ms[4].key| == 5 && |ms[5].key| == 14;
  }

  /** The signature names its schema, algorithm and key, and holds the signature of the message it was given. */
  lemma SignatureMeans(c: Crypto, message: Bytes, key: int, keyId: Text)
    ensures var d := SignatureDocument(c, message, key, keyId);
      && d.Obj? && |d.members| == 5
      && Get(d.members, Lit("schema")) == Some(Str(Lit("assurance.agent_release_signature.v1")))
      && Get(d.members, Lit("algorithm")) == Some(Str(Lit("Ed25519")))
      && Get(d.members, Lit("key_id")) == Some(Str(keyId))
      && Get(d.members, Lit("public_key_sha256")) == Some(Str(c.hash(c.publicOf(key))))
      && Get(d.members, Lit("signature_base64")) == Some(Str(Base64.Encode(c.sign(key, message), false)))
  {
    hide Lit, Base64.Encode, DistinctKeys, Get, Unsplit;
    var ms := SignatureDocument(c, message, key, keyId).members;
    SignatureKeys(ms);
    forall i | 0 <= i < 5 ensures Get(ms, ms[i].key) == Some(ms[i].value) {
      GetMember(ms, i);
    }
    assert ms[0].key == Lit("schema") && ms[1].key == Lit("algorithm") && ms[2].key == Lit("key_id")
      && ms[3].key == Lit("public_key_sha256") && ms[4].key == Lit("signature_base64");
  }

  /** The file is there and reads as this object. */
  predicate ReadsAs(pkg: Package, path: Text, ms: seq<Member>) {
    Lookup(pkg, path).Some? && ReadJson(Lookup(pkg, path).value) == Some(Obj(ms))
  }

  /** The directory is the one described, file for file. */
  predicate Describes(c: Crypto, document: seq<Member>, pkg: Package) {
    && Get(document, Lit("files")).Some? && Same(Get(document, Lit("files")).value, Obj(FilesOf(c, pkg)))
    && CanonicalJson(Obj(FilesOf(c, pkg))).Some?
    && Get(document, Lit("package_sha256")) == Some(Str(c.hash(CanonicalJson(Obj(FilesOf(c, pkg))).value)))
  }

  /** The recorded fingerprint is that of the key, and the recorded signature is the key's, of this document. */
  predicate VouchedBy(c: Crypto, document: seq<Member>, signature: seq<Member>, raw: Bytes) {
    && Get(signature, Lit("public_key_sha256")) == Some(Str(c.hash(raw)))
    && Get(signature, Lit("signature_base64")).Some? && Get(signature, Lit("signature_base64")).value.Str?
    && Base64.Decode(Get(signature, Lit("signature_base64")).value.text, false, true).Some?
    && CanonicalJson(Obj(document)).Some?
    && c.check(raw, Base64.Decode(Get(signature, Lit("signature_base64")).value.text, false, true).value,
               CanonicalJson(Obj(document)).value)
  }

  /** Both documents say what they are. */
  predicate Announced(document: seq<Member>, signature: seq<Member>) {
    && Get(document, Lit("schema")) == Some(Str(Lit("assurance.agent_release.v1")))
    && Get(signature, Lit("schema")) == Some(Str(Lit("assurance.agent_release_signature.v1")))
    && Get(signature, Lit("algorithm")) == Some(Str(Lit("Ed25519")))
  }

  /** A directory is accepted, and as this document, exactly when nothing is missing, misdescribed or unvouched. */
  lemma AcceptedMeans(c: Crypto, pkg: Package, key: LoadedKey, document: Doc)
    ensures Verify(c, pkg, key) == Accepted(document)
      <==> (key.Ed25519? && document.Obj? && ReadsAs(pkg, Lit("release.json"), document.members)
            && exists signature: seq<Member> ::
                 && ReadsAs(pkg, Lit("release.signature.json"), signature)
                 && Announced(document.members, signature)
                 && Describes(c, document.members, pkg)
                 && VouchedBy(c, document.members, signature, key.raw))
  {
    hide Lit, Lookup, ReadJson, Get, FilesOf, Same, CanonicalJson, Base64.Decode;
    if document.Obj? && ReadsAs(pkg, RELEASE_JSON, document.members) {
      if Lookup(pkg, SIGNATURE_JSON).Some? && ReadJson(Lookup(pkg, SIGNATURE_JSON).value).Some? {
        var read := ReadJson(Lookup(pkg, SIGNATURE_JSON).value).value;
        if read.Obj? {
          assert ReadsAs(pkg, SIGNATURE_JSON, read.members);
        }
      }
    }
  }

  /** Each refusal names the first requirement that is not met. */
  lemma RefusedFor(c: Crypto, pkg: Package, key: LoadedKey, document: seq<Member>, signature: seq<Member>)
    requires ReadsAs(pkg, Lit("release.json"), document) && ReadsAs(pkg, Lit("release.signature.json"), signature)
    ensures Verify(c, pkg, key) == Rejected(UnsupportedSchema)
      <==> Get(document, Lit("schema")) != Some(Str(Lit("assurance.agent_release.v1")))
    ensures Announced(document, signature)
      <==> !(Verify(c, pkg, key) in
             {Rejected(UnsupportedSchema), Rejected(UnsupportedSignatureSchema), Rejected(UnsupportedAlgorithm)})
    ensures Verify(c, pkg, key) == Rejected(FileManifest)
      <==> (Announced(document, signature)
            && !(Get(document, Lit("files")).Some? && Same(Get(document, Lit("files")).value, Obj(FilesOf(c, pkg)))))
    ensures Verify(c, pkg, key) == Rejected(NotEd25519)
      <==> (Announced(document, signature) && Describes(c, document, pkg) && key.OtherKey?)
    ensures Verify(c, pkg, key) == Rejected(Fingerprint)
      <==> (Announced(document, signature) && Describes(c, document, pkg) && key.Ed25519?
            && Get(signature, Lit("public_key_sha256")) != Some(Str(c.hash(key.raw))))
    ensures Verify(c, pkg, key) == Rejected(SignatureType)
      <==> (Announced(document, signature) && Describes(c, document, pkg) && key.Ed25519?
            && Get(signature, Lit("public_key_sha256")) == Some(Str(c.hash(key.raw)))
            && Get(signature, Lit("signature_base64")).Some? && !Get(signature, Lit("signature_base64")).value.Str?)
  {
    hide Lit, Lookup, ReadJson, Get, FilesOf, Same, CanonicalJson, Base64.Decode;
  }

  /** The file map matches and the digest of the whole cannot be formed, or is another. */
  lemma DigestRefused(c: Crypto, pkg: Package, key: LoadedKey, document: seq<Member>, signature: seq<Member>)
    requires ReadsAs(pkg, Lit("release.json"), document) && ReadsAs(pkg, Lit("release.signature.json"), signature)
    requires Announced(document, signature)
    requires Get(document, Lit("files")).Some? && Same(Get(document, Lit("files")).value, Obj(FilesOf(c, pkg)))
    ensures Verify(c, pkg, key) == Rejected(Unencodable) <==> CanonicalJson(Obj(FilesOf(c, pkg))).None?
    ensures Verify(c, pkg, key) == Rejected(Digest)
      <==> (CanonicalJson(Obj(FilesOf(c, pkg))).Some?
            && Get(document, Lit("package_sha256")) != Some(Str(c.hash(CanonicalJson(Obj(FilesOf(c, pkg))).value))))
  {
    hide Lit, Lookup, ReadJson, Get, FilesOf, Same, CanonicalJson, Base64.Decode;
  }

  /** The refusals before any document is looked into: a file is missing, does not read, or holds no object. */
  lemma UnreadRefused(c: Crypto, pkg: Package, key: LoadedKey)
    ensures var first, second := Lookup(pkg, Lit("release.json")), Lookup(pkg, Lit("release.signature.json"));
      && (Verify(c, pkg, key) == Rejected(NotSigned) <==> first.None? || second.None?)
      && (Verify(c, pkg, key) == Rejected(Unreadable)
          <==> first.Some? && second.Some? && (ReadJson(first.value).None? || ReadJson(second.value).None?))
      && (Verify(c, pkg, key) == Rejected(NotAnObject)
          <==> (first.Some? && second.Some? && ReadJson(first.value).Some? && ReadJson(second.value).Some?
                && !(ReadJson(first.value).value.Obj? && ReadJson(second.value).value.Obj?)))
  {
    hide Lit, Lookup, ReadJson, Get, FilesOf, Same, CanonicalJson, Base64.Decode;
  }

  /** Before a carriage return a text reads as it stands; the return is a line feed, with one behind it or without. */
  lemma {:induction false} NewlinesMean(a: Text, b: Text)
    requires CARRIAGE_RETURN !in a
    ensures Newlines(a) == a
    ensures Newlines(a + ([CARRIAGE_RETURN] + b))
         == a + ([LINE_FEED] + Newlines(if b != [] && b[0] == LINE_FEED then b[1..] else b))
  {
    hide Newlines;
    var t := a + ([CARRIAGE_RETURN] + b);
    PlainStep(a);
    if a == [] {
      assert t == [CARRIAGE_RETURN] + b;
      ReturnStep(b);
    } else {
      assert a[0] in a && forall x | x in a[1..] :: x in a;
      PlainStep(t);
      assert t[1..] == a[1..] + ([CARRIAGE_RETURN] + b);
      NewlinesMean(a[1..], b);
      assert a == [a[0]] + a[1..];
    }
  }

  lemma PlainStep(t: Text)
    ensures t == [] ==> Newlines(t) == []
    ensures t != [] && t[0] != CARRIAGE_RETURN ==> Newlines(t) == [t[0]] + Newlines(t[1..])
  {
  }

  lemma ReturnStep(b: Text)
    ensures Newlines([CARRIAGE_RETURN] + b)
         == [LINE_FEED] + Newlines(if b != [] && b[0] == LINE_FEED then b[1..] else b)
  {
    var t := [CARRIAGE_RETURN] + b;
    assert t[1..] == b;
    assert b != [] ==> t[2..] == b[1..];
  }

  /** What verifies under one key is turned away under any other, by its fingerprint, and without a key of the kind. */
  lemma OneKeyOnly(c: Crypto, pkg: Package, raw: Bytes, document: Doc, loaded: LoadedKey)
    requires Ideal(c) && Verify(c, pkg, Ed25519(raw)) == Accepted(document)
    ensures Verify(c, pkg, loaded)
         == match loaded
            case OtherKey => Rejected(NotEd25519)
            case Ed25519(other) => if other == raw then Accepted(document) else Rejected(Fingerprint)
  {
    hide Lit, Lookup, ReadJson, Get, FilesOf, Same, CanonicalJson, Base64.Decode;
    if loaded.Ed25519? {
      assert c.hash(loaded.raw) == c.hash(raw) ==> loaded.raw == raw;
    }
  }

  /** A published package verifies under the key that signed it and under no other. */
  lemma OnlySigningKey(c: Crypto, pkg: Package, agentId: Text, version: Text, releasedAt: Text, key: int,
    keyId: Text, out: Package, document: Doc, loaded: LoadedKey)
    requires Ideal(c) && DistinctPaths(pkg)
    requires Publish(c, pkg, agentId, version, releasedAt, key, keyId) == Some((out, document))
    ensures Verify(c, out, loaded)
         == match loaded
            case OtherKey => Rejected(NotEd25519)
            case Ed25519(raw) => if raw == c.publicOf(key) then Accepted(Canon(document)) else Rejected(Fingerprint)
  {
    hide Canon, Publish, Verify;
    PublishedVerifies(c, pkg, agentId, version, releasedAt, key, keyId, out, document);
    OneKeyOnly(c, out, c.publicOf(key), Canon(document), loaded);
  }
}
