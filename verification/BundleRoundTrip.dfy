/** Packing and unpacking a bundle are inverse to each other, up to the order and spelling that archives keep. */
module BundleRoundTrip {
  import opened Wrappers
  import opened Bytes
  import opened Json
  import opened ConfigFormat
  import opened ZipDirectory
  import opened ConfigBundle
  import opened BundleCodec
  import Base64
  import Ordering
  import Strings

  // ---- What is assumed of the library ---------------------------------------------------

  /** JSON.parse undoes JSON.stringify on manifests and on documents. */
  ghost predicate LawfulJson(lib: Library) {
    && (forall m :: lib.parseManifest(lib.printManifest(m)) == Some(m))
    && (forall d :: lib.parseDocument(lib.printDocument(d)) == Some(d))
  }

  /** The directory entries `es` list the paths and sizes of `entries`. */
  ghost predicate Lists(es: seq<Entry>, entries: Entries, decode: Decoder) {
    && |es| == |entries|
    && DistinctNames(es, decode)
    && forall e :: e in es ==> !IsEncrypted(e) && decode(e.name) in entries && e.size == |entries[decode(e.name)]|
  }

  /**
   * `archive` is a ZIP file without comment whose directory lists `entries`. The end record gives their
   * number if the field can hold it, and says anything otherwise.
   */
  ghost predicate ZipOf(archive: Bytes, entries: Entries, decode: Decoder) {
    exists local, es, count :: IsZip(archive, local, es, count) && Lists(es, entries, decode)
  }

  ghost predicate IsZip(archive: Bytes, local: Bytes, es: seq<Entry>, count: uint16) {
    FitsZip32(local, es) && (|es| < 0x1_0000 ==> count == |es|) && archive == WriteArchive(local, es, count, [])
  }

  /** Every path has a name of less than 64 KiB: what a directory entry can hold. */
  ghost predicate Nameable(entries: Entries, decode: Decoder) {
    forall path :: path in entries ==> exists name: Field :: decode(name) == path
  }

  /** The sizes are those that `decode` admits, so that no 32-bit field of the archive overflows. */
  ghost predicate IsModest(lib: Library, entries: Entries) {
    |lib.zip(entries)| <= MAX_ARCHIVE && Total(entries) <= MAX_EXPANDED && Nameable(entries, lib.decodeName)
  }

  /** zipSync writes such files, unzipSync reads them back, and gives names that an archive can hold only. */
  ghost predicate LawfulZip(lib: Library) {
    && (forall entries :: Nameable(entries, lib.decodeName) ==> lib.unzip(lib.zip(entries)) == Some(entries))
    && (forall archive :: lib.unzip(archive).Some? ==> Nameable(lib.unzip(archive).value, lib.decodeName))
    && (forall entries :: IsModest(lib, entries) ==> ZipOf(lib.zip(entries), entries, lib.decodeName))
  }

  ghost predicate Lawful(lib: Library) {
    LawfulJson(lib) && LawfulZip(lib)
  }

  // ---- The written archive passes the directory check -----------------------------------

  lemma {:induction false} ListedSize(es: seq<Entry>, entries: Entries, decode: Decoder)
    requires DistinctNames(es, decode)
    requires forall e :: e in es ==> decode(e.name) in entries && e.size == |entries[decode(e.name)]|
    ensures ExpandedSize(es) <= Total(entries)
    decreases |es|
  {
    if es != [] {
      var path, rest := decode(es[0].name), entries - {decode(es[0].name)};
      assert es[0] in es;
      DistinctSplit(es, decode);
      assert forall e :: e in es[1..] ==> e in es;
      ListedSize(es[1..], rest, decode);
      TotalSplit(entries, path);
    }
  }

  lemma {:induction false} OneListed(es: seq<Entry>, e: Entry)
    requires e in es
    ensures e.size <= ExpandedSize(es)
  {
    if e != es[0] {
      OneListed(es[1..], e);
    }
  }

  /** An archive of safe paths within the size budget passes the directory check exactly up to 10,000 entries. */
  lemma ZipIsAccepted(archive: Bytes, entries: Entries, decode: Decoder)
    requires ZipOf(archive, entries, decode)
    requires Total(entries) <= MAX_EXPANDED && forall path :: path in entries ==> SafePath(path)
    ensures Inspect(archive, decode).Ok? <==> |entries| <= MAX_ENTRIES
  {
    hide Inspect, SafePath, IsEncrypted, WriteArchive, DistinctNames, Total, U32;
    var local, es, count :| IsZip(archive, local, es, count) && Lists(es, entries, decode);
    if |entries| > MAX_ENTRIES {
      TooManyAreRefused(local, es, count, decode);
    } else {
      ListedSize(es, entries, decode);
      forall e | e in es
        ensures WholesomeEntry(e, decode, {})
      {
        OneListed(es, e);
      }
      WrittenIsAccepted(local, es, [], decode);
    }
  }

  // ---- Encode, then decode --------------------------------------------------------------

  /**
   * `c` is `b` as an archive keeps it: documents and assets in manifest order, content types from the
   * manifest, asset data in canonical base64.
   */
  ghost predicate IsRestored(t: Table, b: Bundle, c: Bundle) {
    && c.manifest == b.manifest
    && |c.documents| == |b.manifest.resources| && |c.assets| == |b.manifest.assets|
    && (forall i :: 0 <= i < |c.documents| ==>
          FindDocument(t, b.documents, b.manifest.resources[i]) == Some(c.documents[i]))
    && (forall i :: 0 <= i < |c.assets| ==> RestoredAsset(b, b.manifest.assets[i], c.assets[i]))
  }

  ghost predicate RestoredAsset(b: Bundle, e: AssetEntry, c: Asset) {
    exists a :: a in b.assets && a.path == e.path && Base64.IsBase64(a.data)
      && c == Asset(e.path, e.contentType, e.sha256, Base64.Encode(Base64.Decode(a.data)))
  }

  /** Each manifest asset has its data among the packed entries, with the right checksum. */
  lemma PackedData(t: Table, lib: Library, b: Bundle, entries: Entries, i: nat) returns (a: Asset)
    requires ValidBundle(t, lib, b) && IsPacked(t, lib, b, entries) && i < |b.manifest.assets|
    ensures var e := b.manifest.assets[i];
      && a in b.assets && a.path == e.path && Base64.IsBase64(a.data)
      && e.path in entries && entries[e.path] == Base64.Decode(a.data) && lib.sha256(entries[e.path]) == e.sha256
      && FindAsset(b.manifest.assets, e.path) == Some(e)
  {
    hide ValidBundle, SafePath, Base64.IsBase64, Base64.Decode, PackedResources, DeclaredPaths;
    AssetsMatch(t, lib, b);
    var e, own, listed := b.manifest.assets[i], BundleAssetPaths(b.assets), AssetPaths(b.manifest.assets);
    assert listed[i] in Ordering.Elements(own);
    var k :| 0 <= k < |own| && own[k] == e.path;
    a := b.assets[k];
    AssetFor(t, lib, b, k);
    assert PackedAsset(b.assets[k], entries);
    var found := FindAsset(b.manifest.assets, e.path).value;
    var j :| 0 <= j < |b.manifest.assets| && b.manifest.assets[j] == found;
    assert listed[j] == listed[i];
  }

  lemma PackedDocument(t: Table, lib: Library, b: Bundle, entries: Entries, i: nat)
    requires LawfulJson(lib) && ValidBundle(t, lib, b) && IsPacked(t, lib, b, entries) && i < |b.manifest.resources|
    ensures var r := b.manifest.resources[i]; var d := FindDocument(t, b.documents, r);
      && d.Some? && ReadableResource(lib, entries, r) && DecodedDocument(lib, entries, r) == d.value
      && lib.sha256(lib.printDocument(d.value)) == r.sha256
  {
    hide ValidBundle, SafePath, FindDocument, Matches;
    DocumentFor(t, lib, b, i);
    assert PackedResource(t, lib, b, entries, i);
  }

  lemma DecodedIsRestored(t: Table, lib: Library, b: Bundle, entries: Entries)
    requires LawfulJson(lib) && ValidBundle(t, lib, b) && IsPacked(t, lib, b, entries)
    ensures IsRestored(t, b, DecodedBundle(lib, b.manifest, entries))
    ensures forall i :: 0 <= i < |b.manifest.resources| ==> ReadableResource(lib, entries, b.manifest.resources[i])
    ensures forall i :: 0 <= i < |b.manifest.assets| ==> ReadableAsset(lib, entries, b.manifest.assets[i])
  {
    hide ValidBundle, IsPacked, FindDocument, LawfulJson, Base64.IsBase64, Base64.Decode, Base64.Encode;
    var m, c := b.manifest, DecodedBundle(lib, b.manifest, entries);
    forall i | 0 <= i < |m.resources|
      ensures ReadableResource(lib, entries, m.resources[i])
      ensures FindDocument(t, b.documents, m.resources[i]) == Some(c.documents[i])
      ensures c.manifest.resources[i] == m.resources[i]
    {
      PackedDocument(t, lib, b, entries, i);
    }
    assert c.manifest.resources == m.resources;
    forall i | 0 <= i < |m.assets|
      ensures ReadableAsset(lib, entries, m.assets[i])
      ensures RestoredAsset(b, m.assets[i], c.assets[i])
    {
      var a := PackedData(t, lib, b, entries, i);
      assert c.assets[i] == DecodedAsset(m.assets[i], entries);
    }
  }

  /** What an archive keeps of a valid bundle is a valid bundle. */
  lemma RestoredIsValid(t: Table, lib: Library, b: Bundle, entries: Entries)
    requires LawfulJson(lib) && ValidBundle(t, lib, b) && IsPacked(t, lib, b, entries)
    ensures ValidBundle(t, lib, DecodedBundle(lib, b.manifest, entries))
  {
    DecodedIsRestored(t, lib, b, entries);
    AssetsMatch(t, lib, b);
    RestoredDocuments(t, lib, b, entries);
    RestoredAssets(t, lib, b, entries);
    hide IsPacked, SafePath, ValidDocument, ValidAsset, SameDocument, ValidResources, ValidEntries;
  }

  lemma RestoredDocuments(t: Table, lib: Library, b: Bundle, entries: Entries)
    requires LawfulJson(lib) && ValidBundle(t, lib, b) && IsPacked(t, lib, b, entries)
    ensures var c := DecodedBundle(lib, b.manifest, entries);
      AllValidDocuments(t, lib, b.manifest, c.documents) && DistinctDocuments(t, c.documents)
  {
    hide LawfulJson, IsPacked, SafePath, IdentifyDocument, ResourceVersion, Base64.IsBase64, Base64.Decode,
         Base64.Encode, DeclaredPaths, ValidEntries, ValidAsset, FindAsset;
    var m, c := b.manifest, DecodedBundle(lib, b.manifest, entries);
    DecodedIsRestored(t, lib, b, entries);
    forall i | 0 <= i < |c.documents|
      ensures ValidDocument(t, lib, m, c.documents[i])
      ensures IdentifyDocument(t, c.documents[i]).value.key == ResourceKeys(m.resources)[i]
    {
      var d := FindDocument(t, b.documents, m.resources[i]).value;
      assert d in b.documents && Matches(t, d, m.resources[i]);
    }
  }

  lemma RestoredAssets(t: Table, lib: Library, b: Bundle, entries: Entries)
    requires LawfulJson(lib) && ValidBundle(t, lib, b) && IsPacked(t, lib, b, entries)
    requires Ordering.Distinct(AssetPaths(b.manifest.assets))
    ensures var c := DecodedBundle(lib, b.manifest, entries);
      (forall i :: 0 <= i < |c.assets| ==> ValidAsset(lib, b.manifest, c.assets[i])) && DistinctAssets(c.assets)
  {
    hide LawfulJson, IsPacked, ValidBundle, Base64.IsBase64, Base64.Decode, Base64.Encode, FindAsset, DecodedDocuments;
    var m, c := b.manifest, DecodedBundle(lib, b.manifest, entries);
    forall i | 0 <= i < |c.assets|
      ensures ValidAsset(lib, m, c.assets[i]) && c.assets[i].path == AssetPaths(m.assets)[i]
    {
      var a := PackedData(t, lib, b, entries, i);
      Base64.DecodeEncode(entries[m.assets[i].path]);
      assert c.assets[i] == DecodedAsset(m.assets[i], entries);
    }
  }

  lemma ManifestIsSafe()
    ensures SafePath(MANIFEST)
  {
    PlainIsSafe(MANIFEST);
  }

  lemma PlainIsSafe(path: string)
    requires |path| > 2 && path[1] != ':'
    requires forall i :: 0 <= i < |path| ==> path[i] != '/' && path[i] != '\\' && path[i] as int >= 0x20
    ensures SafePath(path)
  {
    NoSlash(path);
  }

  lemma {:induction false} NoSlash(s: string)
    requires '/' !in s
    ensures Strings.Split(s, '/') == [s]
  {
    if s != "" {
      NoSlash(s[1..]);
      assert [s[0]] + s[1..] == s;
    }
  }

  lemma PackedPathsAreSafe(t: Table, lib: Library, b: Bundle, entries: Entries)
    requires ValidBundle(t, lib, b) && IsPacked(t, lib, b, entries)
    ensures forall path :: path in entries ==> SafePath(path)
  {
    hide SafePath, PackedResources, PackedAssets, ValidBundle;
    ManifestIsSafe();
    ValidPaths(t, lib, b);
    forall path | path in entries
      ensures SafePath(path)
    {
      var i :| 0 <= i < |DeclaredPaths(b.manifest)| && DeclaredPaths(b.manifest)[i] == path;
    }
  }

  lemma PackedIsConsistent(t: Table, lib: Library, b: Bundle, entries: Entries)
    requires LawfulJson(lib) && ValidBundle(t, lib, b) && IsPacked(t, lib, b, entries)
    ensures Consistent(t, lib, b.manifest, entries)
    ensures MANIFEST in entries && lib.parseManifest(entries[MANIFEST]) == Some(b.manifest)
  {
    hide ValidBundle, SafePath, DecodedBundle, ReadableResource, ReadableAsset, IsRestored, PackedResources,
         PackedAssets;
    DecodedIsRestored(t, lib, b, entries);
    RestoredIsValid(t, lib, b, entries);
    ManifestOf(t, lib, b);
    ManifestListed(b.manifest);
  }

  lemma DecodesWithin(t: Table, lib: Library, archive: Bytes, m: Manifest, entries: Entries)
    requires lib.unzip(archive) == Some(entries) && |archive| <= MAX_ARCHIVE && Total(entries) <= MAX_EXPANDED
    requires Inspect(archive, lib.decodeName).Ok? && forall path :: path in entries ==> SafePath(path)
    requires MANIFEST in entries && lib.parseManifest(entries[MANIFEST]) == Some(m) && Consistent(t, lib, m, entries)
    ensures Decodes(t, lib, archive, DecodedBundle(lib, m, entries))
  {
    hide SafePath, Inspect, Total, DecodedBundle, Consistent;
  }

  lemma DecodesOnlyWithin(t: Table, lib: Library, archive: Bytes, d: Bundle, entries: Entries)
    requires Decodes(t, lib, archive, d) && lib.unzip(archive) == Some(entries)
    ensures |archive| <= MAX_ARCHIVE && Total(entries) <= MAX_EXPANDED && Inspect(archive, lib.decodeName).Ok?
  {
    hide SafePath, Inspect, Total, DecodedBundle, Consistent;
  }

  ghost predicate WithinLimits(archive: Bytes, entries: Entries) {
    |archive| <= 52_428_800 && Total(entries) <= 104_857_600 && |entries| <= 10_000
  }

  /**
   * Round trip: for every valid bundle whose names fit a ZIP directory, decoding what encode writes
   * succeeds exactly when the archive is within the three limits, and then gives the same manifest, the
   * documents in manifest order, and the assets with the same bytes in canonical base64.
   */
  lemma DecodeEncoded(t: Table, lib: Library, b: Bundle, entries: Entries, archive: Bytes, c: Bundle)
    requires Lawful(lib) && ValidBundle(t, lib, b) && IsPacked(t, lib, b, entries) && Nameable(entries, lib.decodeName)
    requires archive == lib.zip(entries) && c == DecodedBundle(lib, b.manifest, entries)
    ensures IsRestored(t, b, c)
    ensures Decodes(t, lib, archive, c) <==> WithinLimits(archive, entries)
    ensures (exists d :: Decodes(t, lib, archive, d)) <==> WithinLimits(archive, entries)
  {
    hide ValidBundle, IsPacked, SafePath, Inspect, Total, IsRestored, DecodedBundle, Consistent, ReadableResource,
         ReadableAsset, ZipOf, Decodes, LawfulJson, Nameable;
    DecodedIsRestored(t, lib, b, entries);
    PackedIsConsistent(t, lib, b, entries);
    PackedPathsAreSafe(t, lib, b, entries);
    assert lib.unzip(archive) == Some(entries);
    if IsModest(lib, entries) {
      ZipIsAccepted(archive, entries, lib.decodeName);
    }
    if WithinLimits(archive, entries) {
      DecodesWithin(t, lib, archive, b.manifest, entries);
    }
    forall d | Decodes(t, lib, archive, d)
      ensures WithinLimits(archive, entries)
    {
      DecodesOnlyWithin(t, lib, archive, d, entries);
    }
  }

  lemma ManifestOf(t: Table, lib: Library, b: Bundle)
    requires ValidBundle(t, lib, b)
    ensures ValidManifest(t, b.manifest)
  {
  }

  lemma ManifestListed(m: Manifest)
    ensures MANIFEST in Ordering.Elements(DeclaredPaths(m))
  {
    assert DeclaredPaths(m)[0] == MANIFEST;
  }

  // ---- Decode, then encode --------------------------------------------------------------

  predicate Collide(lib: Library, d: Value, e: Value) {
    var p, q := lib.printDocument(d), lib.printDocument(e);
    p != q && lib.sha256(p) == lib.sha256(q)
  }

  /** No two different documents of the bundle have texts with the same checksum. */
  ghost predicate NoCollision(lib: Library, files: seq<Value>) {
    forall i, j :: 0 <= i < |files| && 0 <= j < |files| ==> !Collide(lib, files[i], files[j])
  }

  /** In a decoded bundle the document at each place is the one its manifest resource names. */
  lemma InPlace(t: Table, lib: Library, b: Bundle, i: nat)
    requires LawfulJson(lib) && ValidBundle(t, lib, b) && NoCollision(lib, b.documents) && i < |b.documents|
    requires forall k :: 0 <= k < |b.documents| ==>
      b.manifest.resources[k].sha256 == lib.sha256(lib.printDocument(b.documents[k]))
    ensures FindDocument(t, b.documents, b.manifest.resources[i]) == Some(b.documents[i])
  {
    hide SafePath, IdentifyDocument, ResourceVersion, Base64.IsBase64, Base64.Decode, ValidEntries;
    var rs, files := b.manifest.resources, b.documents;
    DocumentFor(t, lib, b, i);
    var d := FindDocument(t, files, rs[i]).value;
    var k :| 0 <= k < |files| && files[k] == d;
    assert lib.sha256(lib.printDocument(files[k])) == lib.sha256(lib.printDocument(files[i]));
    assert lib.parseDocument(lib.printDocument(files[k])) == lib.parseDocument(lib.printDocument(files[i]));
  }

  /** What an archive keeps of a decoded bundle is the bundle itself. */
  lemma DecodedIsStable(t: Table, lib: Library, input: Bytes, b: Bundle, c: Bundle)
    requires LawfulJson(lib) && Decodes(t, lib, input, b) && NoCollision(lib, b.documents) && IsRestored(t, b, c)
    ensures ValidBundle(t, lib, b) && c == b
  {
    hide SafePath, ExpandsTo, ValidBundle, LawfulJson, FindDocument, NoCollision, Base64.IsBase64, Base64.Decode,
         Base64.Encode, ReadableResource, ReadableAsset, ValidManifest;
    var entries := lib.unzip(input).value;
    var m := lib.parseManifest(entries[MANIFEST]).value;
    SameLengths(t, lib, b);
    forall i | 0 <= i < |c.documents|
      ensures c.documents[i] == b.documents[i]
    {
      InPlace(t, lib, b, i);
    }
    forall i | 0 <= i < |c.assets|
      ensures c.assets[i] == b.assets[i]
    {
      assert b.assets[i] == DecodedAsset(m.assets[i], entries);
      AssetInPlace(t, lib, b, i, c.assets[i], BytesAt(entries, m.assets[i].path));
    }
    assert c.documents == b.documents && c.assets == b.assets;
  }

  lemma SameLengths(t: Table, lib: Library, b: Bundle)
    requires ValidBundle(t, lib, b)
    ensures |b.documents| == |b.manifest.resources| && |b.assets| == |b.manifest.assets|
  {
  }

  lemma AssetInPlace(t: Table, lib: Library, b: Bundle, i: nat, c: Asset, bytes: Bytes)
    requires ValidBundle(t, lib, b) && i < |b.assets| && i < |b.manifest.assets|
    requires var e := b.manifest.assets[i]; b.assets[i] == Asset(e.path, e.contentType, e.sha256, Base64.Encode(bytes))
    requires RestoredAsset(b, b.manifest.assets[i], c)
    ensures c == b.assets[i]
  {
    hide SafePath, Base64.IsBase64, Base64.Decode, Base64.Encode, ValidManifest, ValidDocument;
    var e := b.manifest.assets[i];
    var a :| a in b.assets && a.path == e.path && Base64.IsBase64(a.data)
      && c == Asset(e.path, e.contentType, e.sha256, Base64.Encode(Base64.Decode(a.data)));
    var k :| 0 <= k < |b.assets| && b.assets[k] == a;
    assert k == i;
    Base64.DecodeEncode(bytes);
  }

  lemma DeclaredIsRead(t: Table, lib: Library, m: Manifest, was: Entries, i: nat)
    requires Consistent(t, lib, m, was) && MANIFEST in was
    requires i < |DeclaredPaths(DecodedBundle(lib, m, was).manifest)|
    ensures DeclaredPaths(DecodedBundle(lib, m, was).manifest)[i] in was
  {
    hide ValidBundle, ValidManifest, Ordering.Elements;
    var path, n := DeclaredPaths(DecodedBundle(lib, m, was).manifest)[i], |m.resources|;
    if 0 < i <= n {
      assert path == m.resources[i - 1].path && ReadableResource(lib, was, m.resources[i - 1]);
    } else if n < i {
      assert path == m.assets[i - 1 - n].path && ReadableAsset(lib, was, m.assets[i - 1 - n]);
    }
  }

  /** The paths of a decoded bundle are paths of the archive. */
  lemma RepackedIsNameable(t: Table, lib: Library, input: Bytes, b: Bundle, entries: Entries)
    requires LawfulZip(lib) && Decodes(t, lib, input, b) && IsPacked(t, lib, b, entries)
    ensures Nameable(entries, lib.decodeName)
  {
    hide Consistent, DecodedBundle, DeclaredPaths, ExpandsTo, PackedResources, PackedAssets, ZipOf, IsModest;
    var was := lib.unzip(input).value;
    var m := lib.parseManifest(was[MANIFEST]).value;
    forall path | path in entries
      ensures path in was
    {
      var i :| 0 <= i < |DeclaredPaths(b.manifest)| && DeclaredPaths(b.manifest)[i] == path;
      DeclaredIsRead(t, lib, m, was, i);
    }
    assert Nameable(was, lib.decodeName);
  }

  /**
   * Fixed point: whatever an archive decodes to can be encoded again, and decoding that archive gives the
   * same bundle, exactly when it is within the limits.
   */
  lemma DecodedIsFixedPoint(t: Table, lib: Library, input: Bytes, b: Bundle, entries: Entries)
    requires Lawful(lib) && Decodes(t, lib, input, b) && NoCollision(lib, b.documents)
    requires IsPacked(t, lib, b, entries)
    ensures ValidBundle(t, lib, b)
    ensures Decodes(t, lib, lib.zip(entries), b) <==> WithinLimits(lib.zip(entries), entries)
  {
    RepackedIsNameable(t, lib, input, b, entries);
    hide ValidBundle, IsPacked, Total, IsRestored, DecodedBundle, NoCollision, LawfulZip, WithinLimits, Decodes,
         Nameable;
    DecodedIsValid(t, lib, input, b);
    var c := DecodedBundle(lib, b.manifest, entries);
    DecodeEncoded(t, lib, b, entries, lib.zip(entries), c);
    DecodedIsStable(t, lib, input, b, c);
  }

  lemma DecodedIsValid(t: Table, lib: Library, input: Bytes, b: Bundle)
    requires Decodes(t, lib, input, b)
    ensures ValidBundle(t, lib, b)
  {
    hide ValidBundle, ExpandsTo, DecodedBundle, ValidManifest;
  }
}
