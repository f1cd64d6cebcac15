/** The configuration bundle codec: a ZIP archive of documents and assets under a manifest with checksums. */
module ConfigBundle {
  import opened Wrappers
  import opened Bytes
  import opened Json
  import opened ConfigFormat
  import opened ZipDirectory
  import Base64
  import Ordering

  // ---- Data -----------------------------------------------------------------------------

  /** A manifest entry for a document; `rest` is what the codec carries along (ownership, generation). */
  datatype Resource = Resource(kind: string, id: string, schema: string, path: string, sha256: string, rest: Value)

  datatype AssetEntry = AssetEntry(path: string, contentType: Option<string>, sha256: string)

  datatype Manifest = Manifest(format: string, formatVersion: int, tenant: string,
                               resources: seq<Resource>, assets: seq<AssetEntry>, rest: Value)

  datatype Asset = Asset(path: string, contentType: Option<string>, sha256: string, data: string)

  datatype Bundle = Bundle(manifest: Manifest, documents: seq<Value>, assets: seq<Asset>)

  type Entries = map<string, Bytes>

  /** The library functions the codec calls. */
  datatype Library = Library(
    sha256: Bytes -> string,
    printManifest: Manifest -> Bytes,
    parseManifest: Bytes -> Option<Manifest>,
    printDocument: Value -> Bytes,
    parseDocument: Bytes -> Option<Value>,
    decodeName: Decoder,
    zip: Entries -> Bytes,
    unzip: Bytes -> Option<Entries>)

  datatype CodecError =
    | InvalidManifest
    | InvalidResource
    | KindConflictsWithSchema
    | DuplicateResource
    | UnsafeBundlePath
    | DuplicateBundlePath
    | InvalidChecksum
    | CountMismatch
    | InvalidDocument
    | MissingManifestEntry
    | ChecksumMismatch
    | InvalidBase64
    | DuplicateAsset
    | InvalidAsset
    | MissingDocument
    | ArchiveTooLarge
    | BadDirectory(error: ZipDirectory.Error)
    | InvalidZip
    | ExpandedTooLarge
    | NoManifest
    | InvalidJson
    | MissingResource
    | UnlistedEntry

  const MANIFEST := "manifest.json"
  const MAX_ARCHIVE := 50 * 1024 * 1024

  // ---- Keys, lookups --------------------------------------------------------------------

  /** What identifies a document: its kind and its id (the source joins them with a slash). */
  type Key = (string, string)

  function ResourceKey(r: Resource): Key {
    (r.kind, r.id)
  }

  function FindResource(rs: seq<Resource>, key: Key): (r: Option<Resource>)
    ensures r.Some? ==> r.value in rs && ResourceKey(r.value) == key
    ensures r.None? ==> forall i :: 0 <= i < |rs| ==> ResourceKey(rs[i]) != key
  {
    if rs == [] then None
    else if ResourceKey(rs[0]) == key then Some(rs[0])
    else
      var r := FindResource(rs[1..], key);
      assert forall i :: 0 < i < |rs| ==> rs[i] == rs[1..][i - 1];
      r
  }

  function FindAsset(es: seq<AssetEntry>, path: string): (r: Option<AssetEntry>)
    ensures r.Some? ==> r.value in es && r.value.path == path
    ensures r.None? ==> forall i :: 0 <= i < |es| ==> es[i].path != path
  {
    if es == [] then None
    else if es[0].path == path then Some(es[0])
    else
      var r := FindAsset(es[1..], path);
      assert forall i :: 0 < i < |es| ==> es[i] == es[1..][i - 1];
      r
  }

  /** Kind, id and version of a document file. */
  datatype Identified = Identified(key: Key, version: nat)

  function IdentifyDocument(t: Table, file: Value): Option<Identified> {
    match Normalize(t, file)
    case Err(_) => None
    case Ok(d) =>
      match ResourceId(d.kind, d.spec)
      case Err(_) => None
      case Ok(id) => Some(Identified((d.kind, id), d.version))
  }

  function ResourceVersion(t: Table, r: Resource): Option<nat> {
    match ResolveIdentity(t, r.schema)
    case Err(_) => None
    case Ok(identity) => Some(identity.version)
  }

  /** The document that `encode` looks up for a manifest resource. */
  predicate Matches(t: Table, file: Value, r: Resource) {
    var d := IdentifyDocument(t, file);
    d.Some? && d.value.key == ResourceKey(r) && ResourceVersion(t, r) == Some(d.value.version)
  }

  function FindDocument(t: Table, files: seq<Value>, r: Resource): (d: Option<Value>)
    ensures d.Some? ==> d.value in files && Matches(t, d.value, r)
    ensures d.None? ==> forall i :: 0 <= i < |files| ==> !Matches(t, files[i], r)
  {
    if files == [] then None
    else if Matches(t, files[0], r) then Some(files[0])
    else
      var d := FindDocument(t, files[1..], r);
      assert forall i :: 0 < i < |files| ==> files[i] == files[1..][i - 1];
      d
  }

  // ---- What a valid bundle is -----------------------------------------------------------

  /** Sixty-four lower-case hexadecimal digits. */
  predicate IsChecksum(s: string) {
    |s| == 64 && forall i :: 0 <= i < |s| ==> 'a' <= s[i] <= 'f' || '0' <= s[i] <= '9'
  }

  function ResourcePaths(rs: seq<Resource>): seq<string> {
    seq(|rs|, i requires 0 <= i < |rs| => rs[i].path)
  }

  function AssetPaths(es: seq<AssetEntry>): seq<string> {
    seq(|es|, i requires 0 <= i < |es| => es[i].path)
  }

  function ResourceKeys(rs: seq<Resource>): seq<Key> {
    seq(|rs|, i requires 0 <= i < |rs| => ResourceKey(rs[i]))
  }

  function DeclaredPaths(m: Manifest): seq<string> {
    [MANIFEST] + ResourcePaths(m.resources) + AssetPaths(m.assets)
  }

  predicate ValidResource(t: Table, r: Resource) {
    r.id != "" && ResolveIdentity(t, r.schema).Ok? && ResolveIdentity(t, r.schema).value.kind == r.kind
  }

  predicate ValidEntry(path: string, sha256: string) {
    SafePath(path) && IsChecksum(sha256)
  }

  ghost predicate ValidManifest(t: Table, m: Manifest) {
    && m.format == "eudiplo.config-bundle" && (m.formatVersion == 1 || m.formatVersion == 2)
    && ValidResources(t, m.resources) && ValidEntries(m)
  }

  ghost predicate ValidResources(t: Table, rs: seq<Resource>) {
    (forall i :: 0 <= i < |rs| ==> ValidResource(t, rs[i])) && Ordering.Distinct(ResourceKeys(rs))
  }

  ghost predicate ValidEntries(m: Manifest) {
    && (forall i :: 0 <= i < |m.resources| ==> ValidEntry(m.resources[i].path, m.resources[i].sha256))
    && (forall i :: 0 <= i < |m.assets| ==> ValidEntry(m.assets[i].path, m.assets[i].sha256))
    && Ordering.Distinct(DeclaredPaths(m))
  }

  /** A place below the root and a hexadecimal SHA-256. */
  predicate HarmlessEntry(path: string, sha256: string) {
    Harmless(path) && |sha256| == 64 && forall c :: c in sha256 ==> c in "0123456789abcdef"
  }

  lemma ValidEntryExactly(path: string, sha256: string)
    ensures ValidEntry(path, sha256) <==> HarmlessEntry(path, sha256)
  {
    SafePathExactly(path);
    hide SafePath, Harmless;
    HexDigits();
    if HarmlessEntry(path, sha256) {
      assert forall i :: 0 <= i < |sha256| ==> sha256[i] in sha256;
    }
  }

  lemma HexDigits()
    ensures forall c :: c in "0123456789abcdef" <==> 'a' <= c <= 'f' || '0' <= c <= '9'
  {
    var digits := "0123456789abcdef";
    forall c: char | 'a' <= c <= 'f' || '0' <= c <= '9'
      ensures c in digits
    {
      assert digits[if c <= '9' then c as int - '0' as int else c as int - 'a' as int + 10] == c;
    }
  }

  /** A manifest accepts exactly entries that lie below the root, with hexadecimal checksums and distinct paths. */
  lemma ManifestPathsStay(m: Manifest)
    ensures ValidEntries(m) <==>
      && (forall r :: r in m.resources ==> HarmlessEntry(r.path, r.sha256))
      && (forall a :: a in m.assets ==> HarmlessEntry(a.path, a.sha256))
      && Ordering.Distinct(["manifest.json"] + ResourcePaths(m.resources) + AssetPaths(m.assets))
  {
    forall path, sha256
      ensures ValidEntry(path, sha256) <==> HarmlessEntry(path, sha256)
    {
      ValidEntryExactly(path, sha256);
    }
    hide ValidEntry, HarmlessEntry, Ordering.Distinct;
  }

  /** The document has an entry of its kind, id and version, with the checksum of its compact text. */
  predicate ValidDocument(t: Table, lib: Library, m: Manifest, file: Value) {
    var d := IdentifyDocument(t, file);
    && d.Some?
    && var r := FindResource(m.resources, d.value.key);
       && r.Some? && ResourceVersion(t, r.value) == Some(d.value.version)
       && r.value.sha256 == lib.sha256(lib.printDocument(file))
  }

  /** `file` is a file of the document `d`, and `r` gives its kind, id and version. */
  ghost predicate IsDocumentOf(t: Table, file: Value, r: Resource, d: Document) {
    && IsFileOf(t, file, d) && r.kind == d.kind && HasId(d.kind, d.spec, r.id)
    && exists f :: f in t && f.kind == d.kind && IsUrlOf(r.schema, f, d.version)
  }

  lemma IdentifiedExactly(t: Table, file: Value, r: Resource, d: Document)
    requires ValidTable(t) && Normalize(t, file) == Ok(d)
    ensures IdentifyDocument(t, file) == Some(Identified(ResourceKey(r), d.version)) <==>
      r.kind == d.kind && HasId(d.kind, d.spec, r.id)
  {
    ResourceIdExactly(d.kind, d.spec, r.id);
    hide HasId, ResourceId, Normalize;
  }

  lemma VersionExactly(t: Table, r: Resource, version: nat)
    requires ValidTable(t) && ValidResource(t, r)
    ensures ResourceVersion(t, r) == Some(version) <==>
      exists f :: f in t && f.kind == r.kind && IsUrlOf(r.schema, f, version)
  {
    IdentifyExactly(t, r.schema, r.kind, version);
    hide ResolveIdentity, IsUrlOf, ValidTable;
  }

  /** A manifest resource is valid with an id and the schema of a supported version of its kind. */
  lemma ValidResourceExactly(t: Table, r: Resource)
    requires ValidTable(t)
    ensures ValidResource(t, r) <==>
      r.id != "" && exists f, version :: f in t && f.kind == r.kind && IsUrlOf(r.schema, f, version)
  {
    hide ResolveIdentity, IsUrlOf, ValidTable;
    if ValidResource(t, r) {
      IdentifyExactly(t, r.schema, r.kind, ResolveIdentity(t, r.schema).value.version);
    }
    if f, version :| f in t && f.kind == r.kind && IsUrlOf(r.schema, f, version) {
      IdentifyExactly(t, r.schema, r.kind, version);
    }
  }

  /** A document is valid for a manifest that lists its kind, id and version with the checksum of its compact text. */
  lemma ValidDocumentExactly(t: Table, lib: Library, m: Manifest, file: Value)
    requires ValidTable(t) && ValidResources(t, m.resources)
    ensures ValidDocument(t, lib, m, file) <==>
      exists r, d :: r in m.resources && IsDocumentOf(t, file, r, d)
                     && r.sha256 == lib.sha256(lib.printDocument(file))
  {
    forall r, d | r in m.resources
      ensures IsDocumentOf(t, file, r, d) <==>
        && Normalize(t, file) == Ok(d)
        && IdentifyDocument(t, file) == Some(Identified(ResourceKey(r), d.version))
        && ResourceVersion(t, r) == Some(d.version)
    {
      NormalizeExactly(t, file, d);
      if Normalize(t, file) == Ok(d) {
        IdentifiedExactly(t, file, r, d);
        VersionExactly(t, r, d.version);
      }
      hide Normalize, IsFileOf, IdentifyDocument, ResourceVersion, HasId, IsUrlOf;
    }
    IdentifyNormal(t, file);
    hide Normalize, IsDocumentOf, IdentifyDocument, ResourceVersion, ValidTable, ValidResource;
    if ValidDocument(t, lib, m, file) {
      var d, r := Normalize(t, file).value, FindResource(m.resources, IdentifyDocument(t, file).value.key).value;
      assert IsDocumentOf(t, file, r, d);
    }
    if r, d :| r in m.resources && IsDocumentOf(t, file, r, d) && r.sha256 == lib.sha256(lib.printDocument(file)) {
      OneResource(m.resources, r);
    }
  }

  lemma IdentifyNormal(t: Table, file: Value)
    ensures IdentifyDocument(t, file).Some? ==>
      Normalize(t, file).Ok? && IdentifyDocument(t, file).value.version == Normalize(t, file).value.version
  {
    hide Normalize;
  }

  lemma OneResource(rs: seq<Resource>, r: Resource)
    requires r in rs && Ordering.Distinct(ResourceKeys(rs))
    ensures FindResource(rs, ResourceKey(r)) == Some(r)
  {
    var i :| 0 <= i < |rs| && rs[i] == r;
    var found := FindResource(rs, ResourceKey(r));
    var j :| 0 <= j < |rs| && rs[j] == found.value;
    assert ResourceKeys(rs)[i] == ResourceKeys(rs)[j];
  }

  predicate ValidAsset(lib: Library, m: Manifest, a: Asset) {
    && Base64.IsBase64(a.data)
    && var e := FindAsset(m.assets, a.path);
       e.Some? && e.value.sha256 == a.sha256 && a.sha256 == lib.sha256(Base64.Decode(a.data))
  }

  /** Both files are documents, of the same kind and id. */
  predicate SameDocument(t: Table, file: Value, other: Value) {
    var d, e := IdentifyDocument(t, file), IdentifyDocument(t, other);
    d.Some? && e.Some? && d.value.key == e.value.key
  }

  ghost predicate DistinctDocuments(t: Table, files: seq<Value>) {
    forall i, j :: 0 <= i < j < |files| ==> !SameDocument(t, files[i], files[j])
  }

  ghost predicate DistinctAssets(assets: seq<Asset>) {
    forall i, j :: 0 <= i < j < |assets| ==> assets[i].path != assets[j].path
  }

  ghost predicate ValidBundle(t: Table, lib: Library, b: Bundle) {
    && ValidManifest(t, b.manifest)
    && |b.documents| == |b.manifest.resources| && |b.assets| == |b.manifest.assets|
    && AllValidDocuments(t, lib, b.manifest, b.documents)
    && DistinctDocuments(t, b.documents)
    && (forall i :: 0 <= i < |b.assets| ==> ValidAsset(lib, b.manifest, b.assets[i]))
    && DistinctAssets(b.assets)
  }

  // ---- The validators -------------------------------------------------------------------

  /** The first loop of assertBundleManifest: identities. */
  method CheckResources(t: Table, rs: seq<Resource>) returns (error: Option<CodecError>)
    ensures error.None? <==> ValidResources(t, rs)
  {
    hide ValidResource;
    var identities: set<Key> := {};
    ghost var keys := ResourceKeys(rs);
    for i := 0 to |rs|
      invariant identities == Ordering.Elements(keys[..i]) && Ordering.Distinct(keys[..i])
      invariant forall k :: 0 <= k < i ==> ValidResource(t, rs[k])
    {
      error := CheckResource(t, rs[i]);
      if error.Some? {
        return;
      }
      Ordering.SeenOneMore(keys, i);
      if ResourceKey(rs[i]) in identities {
        return Some(DuplicateResource);
      }
      identities := identities + {ResourceKey(rs[i])};
    }
    assert keys[..|keys|] == keys;
    return None;
  }

  method CheckResource(t: Table, r: Resource) returns (error: Option<CodecError>)
    ensures error.None? <==> ValidResource(t, r)
  {
    if r.id == "" {
      return Some(InvalidResource);
    }
    var identity := ResolveIdentity(t, r.schema);
    if identity.Err? {
      return Some(InvalidResource);
    }
    return if identity.value.kind != r.kind then Some(KindConflictsWithSchema) else None;
  }

  /** Path and checksum of every manifest entry: resources, then assets. */
  function AllEntries(m: Manifest): seq<(string, string)> {
    seq(|m.resources|, i requires 0 <= i < |m.resources| => (m.resources[i].path, m.resources[i].sha256))
    + seq(|m.assets|, i requires 0 <= i < |m.assets| => (m.assets[i].path, m.assets[i].sha256))
  }

  lemma AllEntriesMeaning(m: Manifest, all: seq<(string, string)>)
    requires all == AllEntries(m)
    ensures |DeclaredPaths(m)| == |all| + 1 && DeclaredPaths(m)[..1] == [MANIFEST]
    ensures forall i :: 0 <= i < |all| ==> DeclaredPaths(m)[i + 1] == all[i].0
    ensures (forall i :: 0 <= i < |all| ==> ValidEntry(all[i].0, all[i].1)) <==>
      && (forall i :: 0 <= i < |m.resources| ==> ValidEntry(m.resources[i].path, m.resources[i].sha256))
      && (forall i :: 0 <= i < |m.assets| ==> ValidEntry(m.assets[i].path, m.assets[i].sha256))
  {
    hide ValidEntry;
    var n := |m.resources|;
    assert forall i :: 0 <= i < n ==> all[i] == (m.resources[i].path, m.resources[i].sha256);
    assert forall i :: 0 <= i < |m.assets| ==> all[n + i] == (m.assets[i].path, m.assets[i].sha256);
  }

  /** The second loop of assertBundleManifest: paths and checksums of all entries. */
  method CheckEntries(m: Manifest) returns (error: Option<CodecError>)
    ensures error.None? <==> ValidEntries(m)
  {
    hide SafePath, IsChecksum, DeclaredPaths, AllEntries, Ordering.Distinct, Ordering.Elements;
    var all := AllEntries(m);
    var paths := {MANIFEST};
    ghost var declared := DeclaredPaths(m);
    AllEntriesMeaning(m, all);
    OneDistinct(MANIFEST);
    for i := 0 to |all|
      invariant paths == Ordering.Elements(declared[..i + 1]) && Ordering.Distinct(declared[..i + 1])
      invariant forall k :: 0 <= k < i ==> ValidEntry(all[k].0, all[k].1)
    {
      var (path, sha256) := all[i];
      if !SafePath(path) {
        return Some(UnsafeBundlePath);
      }
      Ordering.SeenOneMore(declared, i + 1);
      if path in paths {
        return Some(DuplicateBundlePath);
      }
      paths := paths + {path};
      if !IsChecksum(sha256) {
        return Some(InvalidChecksum);
      }
    }
    assert declared[..|declared|] == declared;
    return None;
  }

  lemma OneDistinct(path: string)
    ensures Ordering.Distinct([path]) && Ordering.Elements([path]) == {path}
  {
  }

  method AssertBundleManifest(t: Table, m: Manifest) returns (error: Option<CodecError>)
    ensures error.None? <==> ValidManifest(t, m)
  {
    if m.format != "eudiplo.config-bundle" || !(m.formatVersion == 1 || m.formatVersion == 2) {
      return Some(InvalidManifest);
    }
    error := CheckResources(t, m.resources);
    if error.None? {
      error := CheckEntries(m);
    }
  }

  ghost predicate AllValidDocuments(t: Table, lib: Library, m: Manifest, files: seq<Value>) {
    forall i :: 0 <= i < |files| ==> ValidDocument(t, lib, m, files[i])
  }

  /** The loop over the documents in assertConfigBundle. */
  method CheckDocuments(t: Table, lib: Library, m: Manifest, files: seq<Value>) returns (error: Option<CodecError>)
    ensures error.None? <==> AllValidDocuments(t, lib, m, files) && DistinctDocuments(t, files)
  {
    hide IdentifyDocument, ResourceVersion;
    var seen: set<Key> := {};
    for i := 0 to |files|
      invariant forall k :: 0 <= k < i ==> ValidDocument(t, lib, m, files[k])
      invariant forall k :: 0 <= k < i ==>
        IdentifyDocument(t, files[k]).Some? && IdentifyDocument(t, files[k]).value.key in seen
      invariant forall key :: key in seen ==> exists k :: 0 <= k < i && IdentifyDocument(t, files[k]).value.key == key
      invariant DistinctDocuments(t, files[..i])
    {
      var document := IdentifyDocument(t, files[i]);
      if document.None? {
        return Some(InvalidDocument);
      }
      var key := document.value.key;
      if key in seen {
        return Some(DuplicateResource);
      }
      seen := seen + {key};
      var entry := FindResource(m.resources, key);
      if entry.None? || ResourceVersion(t, entry.value) != Some(document.value.version) {
        return Some(MissingManifestEntry);
      }
      if entry.value.sha256 != lib.sha256(lib.printDocument(files[i])) {
        return Some(ChecksumMismatch);
      }
      assert files[..i + 1] == files[..i] + [files[i]];
    }
    assert files[..|files|] == files;
    return None;
  }

  /** The loop over the assets in assertConfigBundle. */
  method CheckAssets(lib: Library, m: Manifest, assets: seq<Asset>) returns (error: Option<CodecError>)
    ensures error.None? <==> (forall i :: 0 <= i < |assets| ==> ValidAsset(lib, m, assets[i])) && DistinctAssets(assets)
  {
    hide Base64.IsBase64, Base64.Decode;
    var paths: set<string> := {};
    for i := 0 to |assets|
      invariant forall k :: 0 <= k < i ==> ValidAsset(lib, m, assets[k])
      invariant paths == set k | 0 <= k < i :: assets[k].path
      invariant DistinctAssets(assets[..i])
    {
      var asset := assets[i];
      if !Base64.IsBase64(asset.data) {
        return Some(InvalidBase64);
      }
      if asset.path in paths {
        return Some(DuplicateAsset);
      }
      paths := paths + {asset.path};
      var entry := FindAsset(m.assets, asset.path);
      if entry.None? || entry.value.sha256 != asset.sha256 || asset.sha256 != lib.sha256(Base64.Decode(asset.data)) {
        return Some(InvalidAsset);
      }
      assert assets[..i + 1] == assets[..i] + [asset];
    }
    assert assets[..|assets|] == assets;
    return None;
  }

  method AssertConfigBundle(t: Table, lib: Library, b: Bundle) returns (error: Option<CodecError>)
    ensures error.None? <==> ValidBundle(t, lib, b)
  {
    hide ValidManifest, ValidDocument, ValidAsset, DistinctDocuments, DistinctAssets;
    error := AssertBundleManifest(t, b.manifest);
    if error.Some? {
      return;
    }
    if |b.documents| != |b.manifest.resources| || |b.assets| != |b.manifest.assets| {
      return Some(CountMismatch);
    }
    error := CheckDocuments(t, lib, b.manifest, b.documents);
    if error.None? {
      error := CheckAssets(lib, b.manifest, b.assets);
    }
  }
}
