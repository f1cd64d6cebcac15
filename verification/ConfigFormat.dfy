/** Identity, envelope and serialisation of portable configuration documents. */
module ConfigFormat {
  import opened Wrappers
  import opened Strings
  import opened Json
  import Decimal

  datatype Format = Format(kind: string, file: string, version: nat)

  /** The supported kinds in order, each with its schema file and latest version. */
  type Table = seq<Format>

  const CONFIG_FORMATS: Table := [
    Format("Tenant", "TenantConfigFile", 1),
    Format("Client", "ClientConfigFile", 1),
    Format("KmsConfig", "KmsConfigFile", 1),
    Format("KeyChain", "KeyChainConfigFile", 1),
    Format("RegistrarConfig", "RegistrarConfigFile", 1),
    Format("IssuanceConfig", "IssuanceConfigFile", 3),
    Format("CredentialConfig", "CredentialConfigFile", 1),
    Format("PresentationConfig", "PresentationConfigFile", 3),
    Format("AttributeProvider", "AttributeProviderConfigFile", 1),
    Format("WebhookEndpoint", "WebhookEndpointConfigFile", 1),
    Format("TrustList", "TrustListConfigFile", 1),
    Format("StatusList", "StatusListConfigFile", 1)
  ]

  const MAX_SAFE_INTEGER: int := 0x1F_FFFF_FFFF_FFFF
  const URL_PREFIX := "https://eudiplo.dev/schemas/v"
  const URL_SUFFIX := ".schema.json"

  datatype Error =
    | SchemaNotAString
    | UnknownSchema
    | VersionTooNew
    | InvalidEnvelope
    | UnknownEnvelopeProperty
    | SpecOrMetadataMissing
    | UnsupportedMetadata
    | BadGeneration
    | BadOwnership
    | IdRequired
    | KindConflict
    | InvalidVersion
    | Downgrade
    | NoUniqueMigration(version: nat)

  // ---- Schema URLs ----------------------------------------------------------------------

  predicate IsAlphabetic(s: string) {
    s != "" && forall i :: 0 <= i < |s| ==> 'A' <= s[i] <= 'Z' || 'a' <= s[i] <= 'z'
  }

  /** Distinct kinds with distinct alphabetic file names: what the table has to satisfy. */
  ghost predicate ValidTable(t: Table) {
    && (forall i :: 0 <= i < |t| ==> IsAlphabetic(t[i].file) && t[i].version <= MAX_SAFE_INTEGER)
    && (forall i, j :: 0 <= i < j < |t| ==> t[i].kind != t[j].kind && t[i].file != t[j].file)
  }

  function UrlOf(file: string, version: nat): string {
    URL_PREFIX + Decimal.Digits(version) + "/" + file + URL_SUFFIX
  }

  function FindKind(t: Table, kind: string): (r: Option<Format>)
    ensures r.Some? <==> exists i :: 0 <= i < |t| && t[i].kind == kind
    ensures r.Some? ==> r.value in t && r.value.kind == kind
  {
    if t == [] then None
    else if t[0].kind == kind then Some(t[0])
    else
      var r := FindKind(t[1..], kind);
      assert forall i :: 0 < i < |t| ==> t[i] == t[1..][i - 1];
      r
  }

  /** CONFIG_RESOURCE_KINDS.find by file name. */
  function FindFile(t: Table, file: string): (r: Option<Format>)
    ensures r.Some? ==> r.value in t && r.value.file == file
    ensures r.None? ==> forall f :: f in t ==> f.file != file
  {
    if t == [] then None
    else if t[0].file == file then Some(t[0])
    else
      assert forall f :: f in t <==> f == t[0] || f in t[1..];
      FindFile(t[1..], file)
  }

  function SchemaUrl(t: Table, kind: string, version: int): Result<string, Error>
    requires FindKind(t, kind).Some?
  {
    if !(1 <= version <= MAX_SAFE_INTEGER) then Err(InvalidVersion)
    else Ok(UrlOf(FindKind(t, kind).value.file, version))
  }

  function IndexOfSlash(s: string): (i: nat)
    ensures i <= |s| && (i < |s| ==> s[i] == '/') && forall k :: 0 <= k < i ==> s[k] != '/'
  {
    if s == "" || s[0] == '/' then 0 else 1 + IndexOfSlash(s[1..])
  }

  /** The two capture groups of the schema URL expression: the version digits and the file name. */
  function MatchUrl(url: string): Option<(string, string)> {
    if !(URL_PREFIX <= url) then None
    else
      var rest := url[|URL_PREFIX|..];
      var i := IndexOfSlash(rest);
      if i == |rest| then None
      else
        var digits, tail := rest[..i], rest[i + 1..];
        if !Decimal.Canonical(digits) || digits == "0" || |tail| < |URL_SUFFIX| then None
        else
          var n := |tail| - |URL_SUFFIX|;
          if tail[n..] == URL_SUFFIX && IsAlphabetic(tail[..n]) then Some((digits, tail[..n])) else None
  }

  datatype Identity = Identity(kind: string, version: nat)

  /** resolveConfigIdentity on a `$schema` string. */
  function ResolveIdentity(t: Table, url: string): Result<Identity, Error> {
    match MatchUrl(url)
    case None => Err(UnknownSchema)
    case Some((digits, file)) =>
      match FindFile(t, file)
      case None => Err(UnknownSchema)
      case Some(f) =>
        if !Decimal.AllDigits(digits) || Decimal.Value(digits) > MAX_SAFE_INTEGER then Err(UnknownSchema)
        else if Decimal.Value(digits) > f.version then Err(VersionTooNew)
        else Ok(Identity(f.kind, Decimal.Value(digits)))
  }

  lemma UrlParts(p: string, d: string, s: string, f: string, x: string)
    ensures p + d + s + f + x == p + (d + s + (f + x))
    ensures (p + (d + s + (f + x)))[|p|..] == d + s + (f + x)
  {
  }

  lemma TakeParts(d: string, f: string, x: string)
    ensures var rest := d + "/" + (f + x);
      && rest[..|d|] == d && rest[|d| + 1..] == f + x
      && (f + x)[..|f|] == f && (f + x)[|f|..] == x
  {
  }

  /** The expression matches exactly the texts of its shape, with these groups. */
  lemma MatchedUrl(url: string, digits: string, file: string)
    ensures MatchUrl(url) == Some((digits, file)) <==> UrlShape(url, digits, file)
  {
    if MatchUrl(url) == Some((digits, file)) {
      MatchSound(url, digits, file);
    }
    if UrlShape(url, digits, file) {
      MatchComplete(url, digits, file);
    }
  }

  predicate UrlShape(url: string, digits: string, file: string) {
    && Decimal.Canonical(digits) && digits != "0" && IsAlphabetic(file)
    && url == "https://eudiplo.dev/schemas/v" + digits + "/" + file + ".schema.json"
  }

  lemma MatchSound(url: string, digits: string, file: string)
    requires MatchUrl(url) == Some((digits, file))
    ensures UrlShape(url, digits, file)
  {
    hide Decimal.Canonical, IsAlphabetic;
    var rest := url[|URL_PREFIX|..];
    var i := IndexOfSlash(rest);
    SplitBefore(url, |URL_PREFIX|);
    SplitBefore(rest, i);
    SplitBefore(rest[i..], 1);
    SplitBefore(rest[i + 1..], |file|);
    assert rest[i..][..1] == "/" && rest[i..][1..] == rest[i + 1..];
    Assoc(digits, "/", file + URL_SUFFIX);
    UrlParts(URL_PREFIX, digits, "/", file, URL_SUFFIX);
  }

  lemma SplitBefore(s: string, n: nat)
    requires n <= |s|
    ensures s == s[..n] + s[n..]
  {
  }

  lemma MatchComplete(url: string, digits: string, file: string)
    requires UrlShape(url, digits, file)
    ensures MatchUrl(url) == Some((digits, file))
  {
    var tail := file + URL_SUFFIX;
    UrlParts(URL_PREFIX, digits, "/", file, URL_SUFFIX);
    TakeParts(digits, file, URL_SUFFIX);
    SlashAfter(digits, tail);
    assert URL_PREFIX <= url && url[|URL_PREFIX|..] == digits + "/" + tail;
  }

  lemma SlashAfter(digits: string, tail: string)
    requires Decimal.AllDigits(digits)
    ensures IndexOfSlash(digits + "/" + tail) == |digits|
  {
    var s := digits + "/" + tail;
    var i := IndexOfSlash(s);
    assert s[|digits|] == '/';
    assert forall k :: 0 <= k < |digits| ==> s[k] == digits[k] && Decimal.IsDigit(s[k]);
  }

  lemma IdentitySound(t: Table, url: string, f: Format, version: nat)
    requires ValidTable(t) && f in t && ResolveIdentity(t, url) == Ok(Identity(f.kind, version))
    ensures 1 <= version <= f.version && url == UrlOf(f.file, version)
  {
    var (digits, file) := MatchUrl(url).value;
    MatchedUrl(url, digits, file);
    hide MatchUrl;
    Decimal.ValueDigits(digits);
    assert version > 0 by {
      assert |digits| == 1 ==> Decimal.Digits(version) == digits && Decimal.Digits(0) == "0";
    }
    SameFormat(t, FindFile(t, file).value, f);
  }

  lemma IdentityComplete(t: Table, url: string, f: Format, version: nat)
    requires ValidTable(t) && f in t && 1 <= version <= f.version && url == UrlOf(f.file, version)
    ensures ResolveIdentity(t, url) == Ok(Identity(f.kind, version))
  {
    Decimal.DigitsValue(version);
    MatchedUrl(url, Decimal.Digits(version), f.file);
    assert Decimal.Digits(version) != "0";
    hide MatchUrl;
    SameFormat(t, FindFile(t, f.file).value, f);
  }

  /** resolveConfigIdentity accepts exactly the URLs that schemaUrl prints for supported versions. */
  lemma IdentityInvertsUrl(t: Table, url: string, f: Format, version: nat)
    requires ValidTable(t) && f in t
    ensures ResolveIdentity(t, url) == Ok(Identity(f.kind, version)) <==>
      1 <= version <= f.version && SchemaUrl(t, f.kind, version) == Ok(url)
  {
    SameFormat(t, FindKind(t, f.kind).value, f);
    hide ResolveIdentity, UrlOf;
    if ResolveIdentity(t, url) == Ok(Identity(f.kind, version)) {
      IdentitySound(t, url, f, version);
    }
    if 1 <= version <= f.version && SchemaUrl(t, f.kind, version) == Ok(url) {
      IdentityComplete(t, url, f, version);
    }
  }

  lemma SameFormat(t: Table, a: Format, b: Format)
    requires ValidTable(t) && a in t && b in t
    ensures a.kind == b.kind || a.file == b.file ==> a == b
  {
  }

  /** Length and first letter tell the kinds of the source apart, and their files. */
  function KindPosition(name: string): int {
    if |name| == 6 && name[0] == 'T' then 0
    else if |name| == 6 && name[0] == 'C' then 1
    else if |name| == 9 && name[0] == 'K' then 2
    else if |name| == 8 && name[0] == 'K' then 3
    else if |name| == 15 && name[0] == 'R' then 4
    else if |name| == 14 && name[0] == 'I' then 5
    else if |name| == 16 && name[0] == 'C' then 6
    else if |name| == 18 && name[0] == 'P' then 7
    else if |name| == 17 && name[0] == 'A' then 8
    else if |name| == 15 && name[0] == 'W' then 9
    else if |name| == 9 && name[0] == 'T' then 10
    else if |name| == 10 && name[0] == 'S' then 11
    else -1
  }

  function FilePosition(name: string): int {
    if |name| == 16 && name[0] == 'T' then 0
    else if |name| == 16 && name[0] == 'C' then 1
    else if |name| == 13 && name[0] == 'K' then 2
    else if |name| == 18 && name[0] == 'K' then 3
    else if |name| == 19 && name[0] == 'R' then 4
    else if |name| == 18 && name[0] == 'I' then 5
    else if |name| == 20 && name[0] == 'C' then 6
    else if |name| == 22 && name[0] == 'P' then 7
    else if |name| == 27 && name[0] == 'A' then 8
    else if |name| == 25 && name[0] == 'W' then 9
    else if |name| == 19 && name[0] == 'T' then 10
    else if |name| == 20 && name[0] == 'S' then 11
    else -1
  }

  lemma Positions(i: nat)
    requires i < |CONFIG_FORMATS|
    ensures KindPosition(CONFIG_FORMATS[i].kind) == i && FilePosition(CONFIG_FORMATS[i].file) == i
  {
  }

  lemma FileLetters0()
    ensures IsAlphabetic("TenantConfigFile")
    ensures IsAlphabetic("ClientConfigFile")
    ensures IsAlphabetic("KmsConfigFile")
  {
  }

  lemma FileLetters1()
    ensures IsAlphabetic("KeyChainConfigFile")
    ensures IsAlphabetic("RegistrarConfigFile")
    ensures IsAlphabetic("IssuanceConfigFile")
  {
  }

  lemma FileLetters2()
    ensures IsAlphabetic("CredentialConfigFile")
    ensures IsAlphabetic("PresentationConfigFile")
    ensures IsAlphabetic("AttributeProviderConfigFile")
  {
  }

  lemma FileLetters3()
    ensures IsAlphabetic("WebhookEndpointConfigFile")
    ensures IsAlphabetic("TrustListConfigFile")
    ensures IsAlphabetic("StatusListConfigFile")
  {
  }

  lemma FileLetters(i: nat)
    requires i < |CONFIG_FORMATS|
    ensures IsAlphabetic(CONFIG_FORMATS[i].file)
  {
    hide IsAlphabetic;
    FileLetters0();
    FileLetters1();
    FileLetters2();
    FileLetters3();
  }

  /** The table of the source satisfies what the theorems ask of a table. */
  lemma ConfigFormatsIsValid()
    ensures ValidTable(CONFIG_FORMATS)
  {
    hide KindPosition, FilePosition, IsAlphabetic;
    forall i | 0 <= i < |CONFIG_FORMATS|
      ensures IsAlphabetic(CONFIG_FORMATS[i].file) && CONFIG_FORMATS[i].version <= MAX_SAFE_INTEGER
      ensures KindPosition(CONFIG_FORMATS[i].kind) == i && FilePosition(CONFIG_FORMATS[i].file) == i
    {
      Positions(i);
      FileLetters(i);
    }
  }

  // ---- Resource ids ---------------------------------------------------------------------

  function SingletonId(kind: string): Option<string> {
    if kind == "Tenant" then Some("tenant")
    else if kind == "KmsConfig" then Some("kms")
    else if kind == "RegistrarConfig" then Some("registrar")
    else if kind == "IssuanceConfig" then Some("issuance")
    else None
  }

  /** The characters that String.prototype.trim removes. */
  predicate IsSpace(c: char) {
    var n := c as int;
    9 <= n <= 13 || n == 0x20 || n == 0xA0 || n == 0x1680 || 0x2000 <= n <= 0x200A || n == 0x2028 || n == 0x2029
    || n == 0x202F || n == 0x205F || n == 0x3000 || n == 0xFEFF
  }

  predicate IsBlank(s: string) {
    forall i :: 0 <= i < |s| ==> IsSpace(s[i])
  }

  type Members = map<string, Value>

  /** resourceId, for a document of the given kind. */
  function ResourceId(kind: string, spec: Members): Result<string, Error> {
    match SingletonId(kind)
    case Some(id) => Ok(id)
    case None =>
      var field := if kind == "Client" then "clientId" else "id";
      if field in spec && spec[field].Str? && !IsBlank(spec[field].s) then Ok(spec[field].s) else Err(IdRequired)
  }

  // ---- The envelope ---------------------------------------------------------------------

  /** A normalised document; `$schema` is the URL of its kind and version. */
  datatype Document = Document(kind: string, version: nat, metadata: Members, spec: Members)

  /** String(value), as far as it is needed to compare with a word. */
  function JsString(v: Value): string
    decreases v
  {
    match v
    case Null => "null"
    case Bool(b) => if b then "true" else "false"
    case Num(n) => NumberText(n)
    case Str(s) => s
    case Arr(items) => JoinItems(items, true)
    case Obj(_) => "[object Object]"
  }

  function JoinItems(items: seq<Value>, first: bool): string
    decreases items
  {
    if items == [] then ""
    else
      (if first then "" else ",") + (if items[0].Null? then "" else JsString(items[0])) + JoinItems(items[1..], false)
  }

  predicate IsGeneration(v: Value) {
    v.Num? && 1 <= v.n <= MAX_SAFE_INTEGER
  }

  predicate IsOwnership(word: string) {
    word == "unmanaged" || word == "file-managed"
  }

  /** The checks of the metadata object. */
  function CheckMetadata(metadata: Members): Option<Error> {
    if exists k :: k in metadata && k != "generation" && k != "ownership" then Some(UnsupportedMetadata)
    else if "generation" in metadata && !IsGeneration(metadata["generation"]) then Some(BadGeneration)
    else if "ownership" in metadata && !IsOwnership(JsString(metadata["ownership"])) then Some(BadOwnership)
    else None
  }

  function Identify(t: Table, input: Members): Result<Identity, Error> {
    if "$schema" !in input || !input["$schema"].Str? then Err(SchemaNotAString)
    else ResolveIdentity(t, input["$schema"].s)
  }

  /** normalizeDocument. */
  function Normalize(t: Table, input: Value): Result<Document, Error> {
    if !input.Obj? then Err(InvalidEnvelope)
    else
      var members := input.members;
      var identity :- Identify(t, members);
      if exists k :: k in members && k != "$schema" && k != "kind" && k != "metadata" && k != "spec" then
        Err(UnknownEnvelopeProperty)
      else
        var metadata := if "metadata" in members && !members["metadata"].Null? then members["metadata"] else Obj(map[]);
        if !metadata.Obj? || "spec" !in members || !members["spec"].Obj? then Err(SpecOrMetadataMissing)
        else
          match CheckMetadata(metadata.members)
          case Some(error) => Err(error)
          case None =>
            var spec := members["spec"].members;
            var id :- ResourceId(identity.kind, spec);
            if "kind" in members && members["kind"] != Str(identity.kind) then Err(KindConflict)
            else Ok(Document(identity.kind, identity.version, metadata.members, spec))
  }

  /** The kind of a document is in the table, and its version is one the table supports. */
  ghost predicate Supported(t: Table, d: Document) {
    exists f :: f in t && f.kind == d.kind && 1 <= d.version <= f.version
  }

  function DocumentUrl(t: Table, d: Document): string {
    match FindKind(t, d.kind)
    case Some(f) => UrlOf(f.file, d.version)
    case None => ""
  }

  /** The normalised document as the object normalizeDocument returns. */
  function ToObject(t: Table, d: Document): Value {
    Obj(map["$schema" := Str(DocumentUrl(t, d)), "kind" := Str(d.kind), "metadata" := Obj(d.metadata),
            "spec" := Obj(d.spec)])
  }

  /** serializeDocument on a normalised document: no kind, and metadata only when there is some. */
  function Serialize(t: Table, d: Document): Value {
    if d.metadata == map[] then Obj(map["$schema" := Str(DocumentUrl(t, d)), "spec" := Obj(d.spec)])
    else Obj(map["$schema" := Str(DocumentUrl(t, d)), "metadata" := Obj(d.metadata), "spec" := Obj(d.spec)])
  }

  /** What normalisation guarantees of a document. */
  ghost predicate Canonical(t: Table, d: Document) {
    Supported(t, d) && CheckMetadata(d.metadata).None? && ResourceId(d.kind, d.spec).Ok?
  }

  lemma NormalizedIsCanonical(t: Table, input: Value)
    requires ValidTable(t) && Normalize(t, input).Ok?
    ensures Canonical(t, Normalize(t, input).value)
  {
    var url := input.members["$schema"].s;
    var (digits, file) := MatchUrl(url).value;
    MatchedUrl(url, digits, file);
    Decimal.ValueDigits(digits);
    assert Decimal.Value(digits) > 0 by {
      assert |digits| == 1 ==> digits == Decimal.Digits(Decimal.Value(digits)) && Decimal.Digits(0) == "0";
    }
    assert FindFile(t, file).value in t;
  }

  lemma OwnUrl(t: Table, d: Document)
    requires ValidTable(t) && Supported(t, d)
    ensures ResolveIdentity(t, DocumentUrl(t, d)) == Ok(Identity(d.kind, d.version))
  {
    var f :| f in t && f.kind == d.kind && 1 <= d.version <= f.version;
    SameFormat(t, f, FindKind(t, d.kind).value);
    IdentityInvertsUrl(t, DocumentUrl(t, d), f, d.version);
  }

  /**
   * Normalising the returned object, or the serialised file, gives the document again; the file has no kind,
   * and metadata only when there is some.
   */
  lemma RoundTrip(t: Table, d: Document)
    requires ValidTable(t) && Canonical(t, d)
    ensures Normalize(t, ToObject(t, d)) == Ok(d)
    ensures Normalize(t, Serialize(t, d)) == Ok(d)
    ensures Serialize(t, d).Obj? && "kind" !in Serialize(t, d).members
    ensures "metadata" in Serialize(t, d).members <==> d.metadata != map[]
  {
    hide ResolveIdentity, DocumentUrl, CheckMetadata, ResourceId;
    OwnUrl(t, d);
  }

  /** normalizeDocument is idempotent, and normalising a serialised document gives its normal form. */
  lemma NormalizeIdempotent(t: Table, input: Value, d: Document)
    requires ValidTable(t) && Normalize(t, input) == Ok(d)
    ensures Normalize(t, ToObject(t, d)) == Ok(d)
    ensures Normalize(t, Serialize(t, d)) == Ok(d)
  {
    NormalizedIsCanonical(t, input);
    RoundTrip(t, d);
  }

  // ---- Which inputs are documents -------------------------------------------------------

  /** The word, or an array around it: what prints as the word when it is converted to a string. */
  predicate WrapsWord(v: Value, word: string)
    decreases v
  {
    v == Str(word) || (v.Arr? && |v.items| == 1 && WrapsWord(v.items[0], word))
  }

  /** A word that no other value is converted to. */
  predicate IsProperWord(word: string) {
    && word != "" && ',' !in word && word[0] != '-' && word[0] != '[' && !Decimal.IsDigit(word[0])
    && word != "null" && word != "true" && word != "false"
  }

  lemma JoinHasComma(items: seq<Value>)
    requires |items| > 1
    ensures ',' in JoinItems(items, true)
  {
    var rest := JoinItems(items[1..], false);
    assert rest[0] == ',';
    assert rest[0] in rest;
  }

  lemma {:induction false} JsStringWord(v: Value, word: string)
    requires IsProperWord(word)
    ensures JsString(v) == word <==> WrapsWord(v, word)
    decreases v
  {
    match v
    case Num(n) => NumberStart(n);
    case Arr(items) =>
      if |items| > 1 {
        JoinHasComma(items);
      } else if |items| == 1 {
        JsStringWord(items[0], word);
        assert JoinItems(items[1..], false) == "";
      }
    case Obj(_) => assert JsString(v)[0] == '[';
    case _ =>
  }

  /** The metadata that the source admits. */
  predicate ProperMetadata(metadata: Members) {
    && (forall k :: k in metadata ==> k == "generation" || k == "ownership")
    && ("generation" in metadata ==>
          metadata["generation"].Num? && 1 <= metadata["generation"].n <= 9_007_199_254_740_991)
    && ("ownership" in metadata ==>
          WrapsWord(metadata["ownership"], "unmanaged") || WrapsWord(metadata["ownership"], "file-managed"))
  }

  lemma OwnershipWords()
    ensures IsProperWord("unmanaged") && IsProperWord("file-managed")
  {
  }

  lemma MetadataExactly(metadata: Members)
    ensures CheckMetadata(metadata).None? <==> ProperMetadata(metadata)
  {
    if "ownership" in metadata {
      OwnershipWords();
      hide IsProperWord;
      JsStringWord(metadata["ownership"], "unmanaged");
      JsStringWord(metadata["ownership"], "file-managed");
    }
    hide JsString, WrapsWord;
  }

  /** White space and line terminators, by their code points (section 12 of ECMA-262). */
  predicate IsWhiteSpaceCode(n: int) {
    || n in {0x9, 0xA, 0xB, 0xC, 0xD, 0x20, 0xA0, 0x1680, 0x2028, 0x2029, 0x202F, 0x205F, 0x3000, 0xFEFF}
    || n in {0x2000, 0x2001, 0x2002, 0x2003, 0x2004, 0x2005, 0x2006, 0x2007, 0x2008, 0x2009, 0x200A}
  }

  lemma SpaceExactly(c: char)
    ensures IsSpace(c) <==> IsWhiteSpaceCode(c as int)
  {
  }

  /** The id of a document: fixed for the kinds that exist once, or else a text that is not blank. */
  predicate HasId(kind: string, spec: Members, id: string) {
    if kind == "Tenant" then id == "tenant"
    else if kind == "KmsConfig" then id == "kms"
    else if kind == "RegistrarConfig" then id == "registrar"
    else if kind == "IssuanceConfig" then id == "issuance"
    else
      var field := if kind == "Client" then "clientId" else "id";
      field in spec && spec[field] == Str(id) && exists c :: c in id && !IsWhiteSpaceCode(c as int)
  }

  lemma ResourceIdExactly(kind: string, spec: Members, id: string)
    ensures ResourceId(kind, spec) == Ok(id) <==> HasId(kind, spec, id)
  {
    BlankExactly(id);
    hide IsBlank, IsWhiteSpaceCode;
  }

  lemma BlankExactly(id: string)
    ensures IsBlank(id) <==> !exists c :: c in id && !IsWhiteSpaceCode(c as int)
  {
    forall c
      ensures IsSpace(c) <==> IsWhiteSpaceCode(c as int)
    {
      SpaceExactly(c);
    }
    hide IsSpace, IsWhiteSpaceCode;
    if IsBlank(id) {
      forall c | c in id
        ensures IsWhiteSpaceCode(c as int)
      {
        var i :| 0 <= i < |id| && id[i] == c;
      }
    } else {
      var i :| 0 <= i < |id| && !IsSpace(id[i]);
      assert id[i] in id && !IsWhiteSpaceCode(id[i] as int);
    }
  }

  /** The schema URL of a supported version, written out. */
  predicate IsUrlOf(url: string, f: Format, version: nat) {
    1 <= version <= f.version
    && url == "https://eudiplo.dev/schemas/v" + Decimal.Digits(version) + "/" + f.file + ".schema.json"
  }

  /** `input` is a file, or a normalised object, of the document `d`. */
  ghost predicate IsFileOf(t: Table, input: Value, d: Document) {
    && input.Obj?
    && var ms := input.members;
       && (forall k :: k in ms ==> k == "$schema" || k == "kind" || k == "metadata" || k == "spec")
       && (exists f :: f in t && f.kind == d.kind && "$schema" in ms && ms["$schema"].Str?
                       && IsUrlOf(ms["$schema"].s, f, d.version))
       && ("kind" in ms ==> ms["kind"] == Str(d.kind))
       && (if "metadata" in ms && ms["metadata"] != Null then ms["metadata"] == Obj(d.metadata)
           else d.metadata == map[])
       && "spec" in ms && ms["spec"] == Obj(d.spec)
       && ProperMetadata(d.metadata) && exists id :: HasId(d.kind, d.spec, id)
  }

  lemma IdentifyExactly(t: Table, url: string, kind: string, version: nat)
    requires ValidTable(t)
    ensures ResolveIdentity(t, url) == Ok(Identity(kind, version)) <==>
      exists f :: f in t && f.kind == kind && IsUrlOf(url, f, version)
  {
    forall f | f in t
      ensures ResolveIdentity(t, url) == Ok(Identity(f.kind, version)) <==> IsUrlOf(url, f, version)
    {
      IdentityInvertsUrl(t, url, f, version);
      SameFormat(t, FindKind(t, f.kind).value, f);
    }
    hide IsUrlOf;
    if ResolveIdentity(t, url) == Ok(Identity(kind, version)) {
      var f := FindFile(t, MatchUrl(url).value.1).value;
      assert f in t && f.kind == kind;
    }
  }

  /** What normalizeDocument checks, with its parts named as the code has them. */
  ghost predicate PassesNormalize(t: Table, input: Value, d: Document) {
    && input.Obj?
    && var ms := input.members;
       && Identify(t, ms) == Ok(Identity(d.kind, d.version))
       && (forall k :: k in ms ==> k == "$schema" || k == "kind" || k == "metadata" || k == "spec")
       && ("kind" in ms ==> ms["kind"] == Str(d.kind))
       && (if "metadata" in ms && ms["metadata"] != Null then ms["metadata"] == Obj(d.metadata)
           else d.metadata == map[])
       && "spec" in ms && ms["spec"] == Obj(d.spec)
       && CheckMetadata(d.metadata).None? && ResourceId(d.kind, d.spec).Ok?
  }

  lemma NormalizePasses(t: Table, input: Value, d: Document)
    ensures Normalize(t, input) == Ok(d) <==> PassesNormalize(t, input, d)
  {
    hide Identify, CheckMetadata, ResourceId;
  }

  /** normalizeDocument accepts exactly the files of documents, and returns their document. */
  lemma NormalizeExactly(t: Table, input: Value, d: Document)
    requires ValidTable(t)
    ensures Normalize(t, input) == Ok(d) <==> IsFileOf(t, input, d)
  {
    NormalizePasses(t, input, d);
    MetadataExactly(d.metadata);
    forall id
      ensures ResourceId(d.kind, d.spec) == Ok(id) <==> HasId(d.kind, d.spec, id)
    {
      ResourceIdExactly(d.kind, d.spec, id);
    }
    if input.Obj? && "$schema" in input.members && input.members["$schema"].Str? {
      IdentifyExactly(t, input.members["$schema"].s, d.kind, d.version);
    }
    hide Normalize, ValidTable, ResolveIdentity, CheckMetadata, ProperMetadata, ResourceId, HasId, IsUrlOf;
  }
}
