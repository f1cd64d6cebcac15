/** ConfigBundleCodec: packing a bundle, unpacking an archive, and what the two are to each other. */
module BundleCodec {
  import opened Wrappers
  import opened Bytes
  import opened Json
  import opened ConfigFormat
  import opened ZipDirectory
  import opened ConfigBundle
  import Base64
  import Ordering

  // ---- Validation makes packing total ---------------------------------------------------

  function DocumentKeys(t: Table, files: seq<Value>): seq<Key>
    requires forall i :: 0 <= i < |files| ==> IdentifyDocument(t, files[i]).Some?
  {
    seq(|files|, i requires 0 <= i < |files| => IdentifyDocument(t, files[i]).value.key)
  }

  lemma SameResource(rs: seq<Resource>, i: nat, r: Resource)
    requires i < |rs| && r in rs && Ordering.Distinct(ResourceKeys(rs)) && ResourceKey(r) == ResourceKey(rs[i])
    ensures r == rs[i]
  {
    var j :| 0 <= j < |rs| && rs[j] == r;
    assert ResourceKeys(rs)[i] == ResourceKeys(rs)[j];
  }

  /** Every manifest resource has its document, found by the lookup of `encode`, with the right checksum. */
  lemma DocumentFor(t: Table, lib: Library, b: Bundle, i: nat)
    requires ValidBundle(t, lib, b) && i < |b.manifest.resources|
    ensures var r := b.manifest.resources[i]; var d := FindDocument(t, b.documents, r);
      d.Some? && lib.sha256(lib.printDocument(d.value)) == r.sha256 && Matches(t, d.value, r)
  {
    hide Normalize, ResolveIdentity, SafePath, Base64.IsBase64, Base64.Decode;
    var rs, files := b.manifest.resources, b.documents;
    var r := rs[i];
    var own := DocumentKeys(t, files);
    assert Ordering.Elements(own) <= Ordering.Elements(ResourceKeys(rs)) by {
      forall k | 0 <= k < |files|
        ensures own[k] in Ordering.Elements(ResourceKeys(rs))
      {
        KnownDocument(t, lib, b.manifest, files[k]);
      }
    }
    Ordering.Pigeonhole(own, ResourceKeys(rs));
    assert ResourceKeys(rs)[i] in Ordering.Elements(own);
    var k :| 0 <= k < |files| && own[k] == ResourceKey(r);
    MatchesOwn(t, lib, b, i, files[k]);
    var d := FindDocument(t, files, r);
    MatchesOwn(t, lib, b, i, d.value);
  }

  lemma KnownDocument(t: Table, lib: Library, m: Manifest, file: Value)
    requires ValidDocument(t, lib, m, file)
    ensures IdentifyDocument(t, file).Some?
    ensures IdentifyDocument(t, file).value.key in Ordering.Elements(ResourceKeys(m.resources))
  {
    hide IdentifyDocument;
    var key := IdentifyDocument(t, file).value.key;
    var r := FindResource(m.resources, key).value;
    var j :| 0 <= j < |m.resources| && m.resources[j] == r;
    assert ResourceKeys(m.resources)[j] == key;
  }

  /** A document with the key of a resource matches it in version and checksum too. */
  lemma MatchesOwn(t: Table, lib: Library, b: Bundle, i: nat, file: Value)
    requires ValidBundle(t, lib, b) && i < |b.manifest.resources| && file in b.documents
    requires IdentifyDocument(t, file).Some?
    requires IdentifyDocument(t, file).value.key == ResourceKey(b.manifest.resources[i])
    ensures Matches(t, file, b.manifest.resources[i])
    ensures lib.sha256(lib.printDocument(file)) == b.manifest.resources[i].sha256
  {
    hide IdentifyDocument, ResourceVersion, SafePath, Base64.IsBase64, Base64.Decode;
    assert ValidDocument(t, lib, b.manifest, file);
    var rs := b.manifest.resources;
    var entry := FindResource(rs, ResourceKey(rs[i])).value;
    SameResource(rs, i, entry);
  }

  function BundleAssetPaths(assets: seq<Asset>): seq<string> {
    seq(|assets|, i requires 0 <= i < |assets| => assets[i].path)
  }

  /** The assets of the bundle are those of the manifest, in some order. */
  lemma AssetsMatch(t: Table, lib: Library, b: Bundle)
    requires ValidBundle(t, lib, b)
    ensures Ordering.Distinct(AssetPaths(b.manifest.assets))
    ensures Ordering.Distinct(BundleAssetPaths(b.assets))
    ensures Ordering.Elements(BundleAssetPaths(b.assets)) == Ordering.Elements(AssetPaths(b.manifest.assets))
  {
    hide SafePath, IsChecksum, Base64.IsBase64, Base64.Decode, ValidDocument, ValidResources;
    var own, listed := BundleAssetPaths(b.assets), AssetPaths(b.manifest.assets);
    ManifestPaths(b.manifest);
    forall k | 0 <= k < |own|
      ensures own[k] in Ordering.Elements(listed)
    {
      assert ValidAsset(lib, b.manifest, b.assets[k]);
      var e := FindAsset(b.manifest.assets, own[k]).value;
      var j :| 0 <= j < |b.manifest.assets| && b.manifest.assets[j] == e;
      assert listed[j] == own[k];
    }
    Ordering.Pigeonhole(own, listed);
  }

  /** The declared paths are the manifest's own, the resources' and the assets', without repetition. */
  lemma ManifestPaths(m: Manifest)
    requires Ordering.Distinct(DeclaredPaths(m))
    ensures Ordering.Distinct(ResourcePaths(m.resources)) && Ordering.Distinct(AssetPaths(m.assets))
    ensures Ordering.Elements(DeclaredPaths(m))
         == {MANIFEST} + Ordering.Elements(ResourcePaths(m.resources)) + Ordering.Elements(AssetPaths(m.assets))
    ensures MANIFEST !in Ordering.Elements(ResourcePaths(m.resources))
    ensures MANIFEST !in Ordering.Elements(AssetPaths(m.assets))
    ensures Ordering.Elements(ResourcePaths(m.resources)) !! Ordering.Elements(AssetPaths(m.assets))
  {
    var d, r, a := DeclaredPaths(m), ResourcePaths(m.resources), AssetPaths(m.assets);
    assert d[0] == MANIFEST;
    assert forall i :: 0 <= i < |r| ==> d[1 + i] == r[i];
    assert forall i :: 0 <= i < |a| ==> d[1 + |r| + i] == a[i];
  }

  // ---- Packing --------------------------------------------------------------------------

  /** The archive entries of a bundle: the manifest, each document, each asset. */
  ghost predicate IsPacked(t: Table, lib: Library, b: Bundle, entries: Entries) {
    && entries.Keys == Ordering.Elements(DeclaredPaths(b.manifest))
    && entries[MANIFEST] == lib.printManifest(b.manifest)
    && PackedResources(t, lib, b, entries, |b.manifest.resources|)
    && PackedAssets(b, entries, |b.assets|)
  }

  ghost predicate PackedResources(t: Table, lib: Library, b: Bundle, entries: Entries, n: nat) {
    && n <= |b.manifest.resources|
    && forall i :: 0 <= i < n ==> PackedResource(t, lib, b, entries, i)
  }

  ghost predicate PackedResource(t: Table, lib: Library, b: Bundle, entries: Entries, i: nat)
    requires i < |b.manifest.resources|
  {
    var r := b.manifest.resources[i];
    var d := FindDocument(t, b.documents, r);
    d.Some? && r.path in entries && entries[r.path] == lib.printDocument(d.value)
  }

  ghost predicate PackedAssets(b: Bundle, entries: Entries, n: nat) {
    && n <= |b.assets|
    && forall i :: 0 <= i < n ==> PackedAsset(b.assets[i], entries)
  }

  ghost predicate PackedAsset(a: Asset, entries: Entries) {
    a.path in entries && Base64.IsBase64(a.data) && entries[a.path] == Base64.Decode(a.data)
  }

  lemma PackedMore(t: Table, lib: Library, b: Bundle, entries: Entries, i: nat)
    requires i < |b.manifest.resources| && PackedResources(t, lib, b, entries, i)
    requires b.manifest.resources[i].path !in entries && FindDocument(t, b.documents, b.manifest.resources[i]).Some?
    ensures var r := b.manifest.resources[i];
      PackedResources(t, lib, b, entries[r.path := lib.printDocument(FindDocument(t, b.documents, r).value)], i + 1)
  {
    hide FindDocument, PackedResource, Matches;
    var r := b.manifest.resources[i];
    var bytes := lib.printDocument(FindDocument(t, b.documents, r).value);
    var more := entries[r.path := bytes];
    forall k | 0 <= k < i + 1
      ensures PackedResource(t, lib, b, more, k)
    {
      if k < i {
        StaysPacked(t, lib, b, entries, k, r.path, bytes);
      } else {
        NowPacked(t, lib, b, entries, i);
      }
    }
  }

  lemma StaysPacked(t: Table, lib: Library, b: Bundle, entries: Entries, k: nat, path: string, bytes: Bytes)
    requires k < |b.manifest.resources| && PackedResource(t, lib, b, entries, k) && path !in entries
    ensures PackedResource(t, lib, b, entries[path := bytes], k)
  {
    hide FindDocument, Matches;
  }

  lemma NowPacked(t: Table, lib: Library, b: Bundle, entries: Entries, i: nat)
    requires i < |b.manifest.resources| && FindDocument(t, b.documents, b.manifest.resources[i]).Some?
    ensures var r := b.manifest.resources[i];
      PackedResource(t, lib, b, entries[r.path := lib.printDocument(FindDocument(t, b.documents, r).value)], i)
  {
    hide FindDocument, Matches;
  }

  /** The loop of encode over the manifest resources; none of its three errors can be reached. */
  method PackResources(t: Table, lib: Library, b: Bundle, start: Entries) returns (entries: Entries)
    requires ValidBundle(t, lib, b) && start.Keys == {MANIFEST}
    ensures entries.Keys == {MANIFEST} + Ordering.Elements(ResourcePaths(b.manifest.resources))
    ensures entries[MANIFEST] == start[MANIFEST]
    ensures PackedResources(t, lib, b, entries, |b.manifest.resources|)
  {
    hide ValidBundle, SafePath, FindDocument, PackedResources, Ordering.Distinct, Ordering.Elements, DeclaredPaths,
         Matches;
    var m := b.manifest;
    entries := start;
    ghost var paths := ResourcePaths(m.resources);
    ValidPaths(t, lib, b);
    ManifestPaths(m);
    NothingPacked(t, lib, b, entries, paths);
    for i := 0 to |m.resources|
      invariant entries.Keys == {MANIFEST} + Ordering.Elements(paths[..i])
      invariant entries[MANIFEST] == start[MANIFEST]
      invariant PackedResources(t, lib, b, entries, i)
    {
      var resource := m.resources[i];
      if !SafePath(resource.path) {
        assert false;
      }
      DocumentFor(t, lib, b, i);
      var document := FindDocument(t, b.documents, resource);
      if document.None? {
        assert false;
      }
      var bytes := lib.printDocument(document.value);
      if lib.sha256(bytes) != resource.sha256 {
        assert false;
      }
      ElementAt(paths, i);
      AddEntry(paths, i, entries, bytes, {MANIFEST});
      PackedMore(t, lib, b, entries, i);
      entries := entries[resource.path := bytes];
    }
    assert paths[..|paths|] == paths;
  }

  lemma NothingPacked(t: Table, lib: Library, b: Bundle, entries: Entries, paths: seq<string>)
    ensures PackedResources(t, lib, b, entries, 0) && PackedAssets(b, entries, 0) && Ordering.Elements(paths[..0]) == {}
  {
  }

  lemma ElementAt(paths: seq<string>, i: nat)
    requires i < |paths|
    ensures paths[i] in Ordering.Elements(paths)
  {
  }

  lemma PackedOneMore(b: Bundle, entries: Entries, i: nat)
    requires i < |b.assets| && PackedAssets(b, entries, i)
    requires b.assets[i].path !in entries && Base64.IsBase64(b.assets[i].data)
    ensures PackedAssets(b, entries[b.assets[i].path := Base64.Decode(b.assets[i].data)], i + 1)
  {
    hide Base64.IsBase64, Base64.Decode;
    var more := entries[b.assets[i].path := Base64.Decode(b.assets[i].data)];
    forall k | 0 <= k < i + 1
      ensures PackedAsset(b.assets[k], more)
    {
      if k < i {
        assert PackedAsset(b.assets[k], entries);
      }
    }
  }

  /** The loop of encode over the assets; neither of its errors can be reached. */
  method PackAssets(t: Table, lib: Library, b: Bundle, start: Entries) returns (entries: Entries)
    requires ValidBundle(t, lib, b) && start.Keys == {MANIFEST} + Ordering.Elements(ResourcePaths(b.manifest.resources))
    ensures entries.Keys == start.Keys + Ordering.Elements(AssetPaths(b.manifest.assets))
    ensures forall path :: path in start ==> entries[path] == start[path]
    ensures PackedAssets(b, entries, |b.assets|)
  {
    hide ValidBundle, SafePath, Base64.IsBase64, Base64.Decode, PackedAssets, Ordering.Distinct, Ordering.Elements,
         DeclaredPaths, FindAsset;
    entries := start;
    ghost var paths := BundleAssetPaths(b.assets);
    AssetsMatch(t, lib, b);
    ValidPaths(t, lib, b);
    ManifestPaths(b.manifest);
    NothingPacked(t, lib, b, entries, paths);
    for i := 0 to |b.assets|
      invariant entries.Keys == start.Keys + Ordering.Elements(paths[..i])
      invariant forall path :: path in start ==> entries[path] == start[path]
      invariant PackedAssets(b, entries, i)
    {
      var asset := b.assets[i];
      AssetFor(t, lib, b, i);
      if !SafePath(asset.path) {
        assert false;
      }
      var bytes := Base64.Decode(asset.data);
      if lib.sha256(bytes) != asset.sha256 {
        assert false;
      }
      ElementAt(paths, i);
      AddEntry(paths, i, entries, bytes, start.Keys);
      PackedOneMore(b, entries, i);
      entries := entries[asset.path := bytes];
    }
    assert paths[..|paths|] == paths;
  }

  /**
   * encode. It fails exactly when the bundle is invalid: after validation no document is missing, no
   * checksum differs, and no entry overwrites another.
   */
  method EncodeBundle(t: Table, lib: Library, b: Bundle) returns (r: Result<Bytes, CodecError>, ghost packed: Entries)
    ensures r.Ok? <==> ValidBundle(t, lib, b)
    ensures r.Ok? ==> IsPacked(t, lib, b, packed) && r.value == lib.zip(packed)
  {
    hide ValidBundle;
    packed := map[];
    var error := AssertConfigBundle(t, lib, b);
    if error.Some? {
      return Err(error.value), packed;
    }
    var start := map[MANIFEST := lib.printManifest(b.manifest)];
    var withResources := PackResources(t, lib, b, start);
    var entries := PackAssets(t, lib, b, withResources);
    packed := entries;
    KeepResources(t, lib, b, withResources, entries);
    r := Ok(lib.zip(entries));
  }

  lemma KeepResources(t: Table, lib: Library, b: Bundle, before: Entries, after: Entries)
    requires ValidBundle(t, lib, b) && PackedResources(t, lib, b, before, |b.manifest.resources|)
    requires before.Keys == {MANIFEST} + Ordering.Elements(ResourcePaths(b.manifest.resources))
    requires after.Keys == before.Keys + Ordering.Elements(AssetPaths(b.manifest.assets))
    requires forall path :: path in before ==> after[path] == before[path]
    ensures PackedResources(t, lib, b, after, |b.manifest.resources|)
    ensures after.Keys == Ordering.Elements(DeclaredPaths(b.manifest))
  {
    hide FindDocument, SafePath;
    ManifestPaths(b.manifest);
    forall i | 0 <= i < |b.manifest.resources|
      ensures PackedResource(t, lib, b, after, i)
    {
      assert PackedResource(t, lib, b, before, i);
    }
  }

  lemma ValidPaths(t: Table, lib: Library, b: Bundle)
    requires ValidBundle(t, lib, b)
    ensures Ordering.Distinct(DeclaredPaths(b.manifest))
    ensures forall i :: 0 <= i < |b.manifest.resources| ==> SafePath(b.manifest.resources[i].path)
    ensures forall i :: 0 <= i < |b.manifest.assets| ==> SafePath(b.manifest.assets[i].path)
  {
  }

  lemma AssetFor(t: Table, lib: Library, b: Bundle, i: nat)
    requires ValidBundle(t, lib, b) && i < |b.assets|
    ensures var a := b.assets[i];
      && Base64.IsBase64(a.data) && SafePath(a.path) && lib.sha256(Base64.Decode(a.data)) == a.sha256
      && FindAsset(b.manifest.assets, a.path).Some? && FindAsset(b.manifest.assets, a.path).value.sha256 == a.sha256
  {
    hide SafePath, Base64.IsBase64, Base64.Decode;
    assert ValidAsset(lib, b.manifest, b.assets[i]);
    var e := FindAsset(b.manifest.assets, b.assets[i].path).value;
    var j :| 0 <= j < |b.manifest.assets| && b.manifest.assets[j] == e;
    assert ValidEntry(b.manifest.assets[j].path, b.manifest.assets[j].sha256);
  }

  /** A new path is new: nothing already packed is replaced. */
  lemma AddEntry(paths: seq<string>, i: nat, entries: Entries, bytes: Bytes, others: set<string>)
    requires i < |paths| && Ordering.Distinct(paths) && paths[i] !in others
    requires entries.Keys == others + Ordering.Elements(paths[..i])
    ensures paths[i] !in entries
    ensures entries[paths[i] := bytes].Keys == others + Ordering.Elements(paths[..i + 1])
  {
    Ordering.SeenOneMore(paths, i);
  }

  // ---- Unpacking ------------------------------------------------------------------------

  function Total(entries: Entries): nat {
    if entries == map[] then 0
    else
      var path := PickPath(entries);
      |entries[path]| + Total(entries - {path})
  }

  function PickPath(entries: Entries): (path: string)
    requires entries != map[]
    ensures path in entries
  {
    Ordering.CodeUnitOrder(entries.Keys)[0]
  }

  function BytesAt(entries: Entries, path: string): Bytes {
    if path in entries then entries[path] else []
  }

  function DecodedDocuments(lib: Library, m: Manifest, entries: Entries): seq<Value> {
    seq(|m.resources|, i requires 0 <= i < |m.resources| => DecodedDocument(lib, entries, m.resources[i]))
  }

  function DecodedDocument(lib: Library, entries: Entries, r: Resource): Value {
    match lib.parseDocument(BytesAt(entries, r.path))
    case Some(d) => d
    case None => Null
  }

  function DecodedAssets(m: Manifest, entries: Entries): seq<Asset> {
    seq(|m.assets|, i requires 0 <= i < |m.assets| => DecodedAsset(m.assets[i], entries))
  }

  function DecodedAsset(e: AssetEntry, entries: Entries): Asset {
    Asset(e.path, e.contentType, e.sha256, Base64.Encode(BytesAt(entries, e.path)))
  }

  /** The resources with the checksums of the compact texts of their documents. */
  function Rehashed(lib: Library, rs: seq<Resource>, documents: seq<Value>): seq<Resource>
    requires |documents| == |rs|
  {
    seq(|rs|, i requires 0 <= i < |rs| => rs[i].(sha256 := lib.sha256(lib.printDocument(documents[i]))))
  }

  function DecodedBundle(lib: Library, m: Manifest, entries: Entries): Bundle {
    var documents := DecodedDocuments(lib, m, entries);
    Bundle(m.(resources := Rehashed(lib, m.resources, documents)), documents, DecodedAssets(m, entries))
  }

  predicate ReadableResource(lib: Library, entries: Entries, r: Resource) {
    r.path in entries && lib.sha256(entries[r.path]) == r.sha256 && lib.parseDocument(entries[r.path]).Some?
  }

  predicate ReadableAsset(lib: Library, entries: Entries, e: AssetEntry) {
    e.path in entries && lib.sha256(entries[e.path]) == e.sha256
  }

  /** The checks of decode on the manifest and the expanded entries. */
  ghost predicate Consistent(t: Table, lib: Library, m: Manifest, entries: Entries) {
    && ValidManifest(t, m)
    && (forall i :: 0 <= i < |m.resources| ==> ReadableResource(lib, entries, m.resources[i]))
    && (forall i :: 0 <= i < |m.assets| ==> ReadableAsset(lib, entries, m.assets[i]))
    && ValidBundle(t, lib, DecodedBundle(lib, m, entries))
    && entries.Keys <= Ordering.Elements(DeclaredPaths(m))
  }

  ghost predicate ExpandsTo(lib: Library, input: Bytes, entries: Entries) {
    && |input| <= MAX_ARCHIVE
    && Inspect(input, lib.decodeName).Ok?
    && lib.unzip(input) == Some(entries)
    && (forall path :: path in entries ==> SafePath(path))
    && Total(entries) <= MAX_EXPANDED
  }

  /** `b` is what decode returns for `input`. */
  ghost predicate Decodes(t: Table, lib: Library, input: Bytes, b: Bundle) {
    match lib.unzip(input)
    case None => false
    case Some(entries) =>
      && ExpandsTo(lib, input, entries)
      && MANIFEST in entries
      && match lib.parseManifest(entries[MANIFEST])
         case None => false
         case Some(m) => Consistent(t, lib, m, entries) && b == DecodedBundle(lib, m, entries)
  }

  lemma {:induction false} TotalSplit(entries: Entries, path: string)
    requires path in entries
    ensures Total(entries) == |entries[path]| + Total(entries - {path})
    decreases |entries|
  {
    hide PickPath;
    var first := PickPath(entries);
    assert Total(entries) == |entries[first]| + Total(entries - {first});
    if path != first {
      FewerEntries(entries, first);
      FewerEntries(entries, path);
      TotalSplit(entries - {first}, path);
      TotalSplit(entries - {path}, first);
      assert entries - {first} - {path} == entries - {path} - {first};
    }
  }

  lemma FewerEntries(entries: Entries, path: string)
    requires path in entries
    ensures |entries - {path}| == |entries| - 1
  {
    assert (entries - {path}).Keys == entries.Keys - {path};
    assert |entries.Keys - {path}| == |entries.Keys| - 1;
  }

  /** Object.values(entries).reduce: the sum of the lengths, in whatever order. */
  method ExpandedTotal(entries: Entries) returns (total: nat)
    ensures total == Total(entries)
  {
    total := 0;
    var rest := entries;
    while rest != map[]
      invariant total + Total(rest) == Total(entries)
      decreases |rest|
    {
      var path := PickPath(rest);
      TotalSplit(rest, path);
      FewerEntries(rest, path);
      total := total + |rest[path]|;
      rest := rest - {path};
    }
  }

  /** The loop of decode over the manifest resources. */
  method ReadDocuments(lib: Library, m: Manifest, entries: Entries) returns (r: Result<seq<Value>, CodecError>)
    requires forall i :: 0 <= i < |m.resources| ==> SafePath(m.resources[i].path)
    ensures r.Ok? <==> forall i :: 0 <= i < |m.resources| ==> ReadableResource(lib, entries, m.resources[i])
    ensures r.Ok? ==> r.value == DecodedDocuments(lib, m, entries)
  {
    hide SafePath;
    var documents: seq<Value> := [];
    for i := 0 to |m.resources|
      invariant |documents| == i && forall k :: 0 <= k < i ==>
        documents[k] == DecodedDocument(lib, entries, m.resources[k])
      invariant forall k :: 0 <= k < i ==> ReadableResource(lib, entries, m.resources[k])
    {
      var resource := m.resources[i];
      if !SafePath(resource.path) {
        assert false;
      }
      if resource.path !in entries {
        return Err(MissingResource);
      }
      var bytes := entries[resource.path];
      if lib.sha256(bytes) != resource.sha256 {
        return Err(ChecksumMismatch);
      }
      var document := lib.parseDocument(bytes);
      if document.None? {
        return Err(InvalidJson);
      }
      documents := documents + [document.value];
    }
    return Ok(documents);
  }

  /** The map of decode over the manifest assets. */
  method ReadAssets(lib: Library, m: Manifest, entries: Entries) returns (r: Result<seq<Asset>, CodecError>)
    requires forall i :: 0 <= i < |m.assets| ==> SafePath(m.assets[i].path)
    ensures r.Ok? <==> forall i :: 0 <= i < |m.assets| ==> ReadableAsset(lib, entries, m.assets[i])
    ensures r.Ok? ==> r.value == DecodedAssets(m, entries)
  {
    hide SafePath, Base64.Encode;
    var assets: seq<Asset> := [];
    for i := 0 to |m.assets|
      invariant |assets| == i && forall k :: 0 <= k < i ==> assets[k] == DecodedAsset(m.assets[k], entries)
      invariant forall k :: 0 <= k < i ==> ReadableAsset(lib, entries, m.assets[k])
    {
      var entry := m.assets[i];
      if !SafePath(entry.path) {
        assert false;
      }
      if entry.path !in entries || lib.sha256(entries[entry.path]) != entry.sha256 {
        return Err(InvalidAsset);
      }
      assets := assets + [Asset(entry.path, entry.contentType, entry.sha256, Base64.Encode(entries[entry.path]))];
    }
    return Ok(assets);
  }

  /** decode: returns exactly the bundle that the archive decodes to, if it does. */
  method DecodeBundle(t: Table, lib: Library, input: Bytes) returns (r: Result<Bundle, CodecError>)
    ensures forall b :: Decodes(t, lib, input, b) <==> r == Ok(b)
  {
    hide ValidManifest, ValidBundle, Inspect, SafePath, DecodedBundle;
    if |input| > MAX_ARCHIVE {
      return Err(ArchiveTooLarge);
    }
    var directory := InspectCentralDirectory(input, lib.decodeName);
    if directory.Err? {
      return Err(BadDirectory(directory.error));
    }
    var expanded := lib.unzip(input);
    if expanded.None? {
      return Err(InvalidZip);
    }
    var entries := expanded.value;
    if exists path :: path in entries && !SafePath(path) {
      return Err(UnsafeBundlePath);
    }
    var total := ExpandedTotal(entries);
    if total > MAX_EXPANDED {
      return Err(ExpandedTooLarge);
    }
    if MANIFEST !in entries {
      return Err(NoManifest);
    }
    var manifest := lib.parseManifest(entries[MANIFEST]);
    if manifest.None? {
      return Err(InvalidJson);
    }
    r := DecodeEntries(t, lib, manifest.value, entries);
  }

  /** The part of decode after the manifest is parsed. */
  method DecodeEntries(t: Table, lib: Library, m: Manifest, entries: Entries) returns (r: Result<Bundle, CodecError>)
    ensures r.Ok? <==> Consistent(t, lib, m, entries)
    ensures r.Ok? ==> r.value == DecodedBundle(lib, m, entries)
  {
    hide ValidManifest, ValidBundle, ReadableResource, ReadableAsset, DecodedDocuments, DecodedAssets;
    var error := AssertBundleManifest(t, m);
    if error.Some? {
      return Err(error.value);
    }
    SafeManifest(t, m);
    var documents := ReadDocuments(lib, m, entries);
    if documents.Err? {
      return Err(documents.error);
    }
    var assets := ReadAssets(lib, m, entries);
    if assets.Err? {
      return Err(assets.error);
    }
    LengthOfDocuments(lib, m, entries);
    var bundle := Bundle(m.(resources := Rehashed(lib, m.resources, documents.value)), documents.value, assets.value);
    error := AssertConfigBundle(t, lib, bundle);
    if error.Some? {
      return Err(error.value);
    }
    if !(entries.Keys <= Ordering.Elements(DeclaredPaths(m))) {
      return Err(UnlistedEntry);
    }
    return Ok(bundle);
  }

  lemma LengthOfDocuments(lib: Library, m: Manifest, entries: Entries)
    ensures |DecodedDocuments(lib, m, entries)| == |m.resources|
  {
  }

  lemma SafeManifest(t: Table, m: Manifest)
    requires ValidManifest(t, m)
    ensures forall i :: 0 <= i < |m.assets| ==> SafePath(m.assets[i].path)
    ensures forall i :: 0 <= i < |m.resources| ==> SafePath(m.resources[i].path)
  {
  }

  /** Every entry of a decoded archive, and every path in its bundle, lies below the root. */
  lemma DecodedPathsStay(t: Table, lib: Library, input: Bytes, b: Bundle)
    requires Decodes(t, lib, input, b)
    ensures forall path :: path in lib.unzip(input).value ==> Harmless(path)
    ensures forall r :: r in b.manifest.resources ==> Harmless(r.path)
    ensures forall a :: a in b.manifest.assets ==> Harmless(a.path)
    ensures forall a :: a in b.assets ==> Harmless(a.path)
  {
    hide SafePath, Harmless, ValidBundle, Inspect;
    var entries := lib.unzip(input).value;
    var m := lib.parseManifest(entries[MANIFEST]).value;
    forall path | SafePath(path)
      ensures Harmless(path)
    {
      SafePathExactly(path);
    }
    SafeManifest(t, m);
    LengthOfDocuments(lib, m, entries);
  }
}
