/**
 * inspectCentralDirectory: reads the central directory of a ZIP file (sections 4.3.12 and 4.3.16 of
 * PKWARE APPNOTE.TXT) before anything is expanded. The writer below follows the same sections.
 */
module ZipDirectory {
  import opened Wrappers
  import opened Bytes
  import opened Strings

  const END_SIGNATURE: uint32 := 0x06054b50
  const CENTRAL_SIGNATURE: uint32 := 0x02014b50
  const MAX_ENTRIES := 10_000
  const MAX_EXPANDED := 100 * 1024 * 1024

  /** How file names are read (UTF-8 decoding in the source, where bad bytes are replaced). */
  type Decoder = Bytes -> string

  datatype Error =
    | NoDirectory
    | Zip64Archive
    | TooManyEntries
    | DirectoryOutOfPlace
    | BadEntry
    | Encrypted
    | Zip64Entry
    | TooLarge
    | BadEntryLength
    | UnsafePath(path: string)
    | DuplicatePath(path: string)
    | BadDirectorySize

  // ---- Paths ----------------------------------------------------------------------------

  predicate IsLetter(c: char) {
    'A' <= c <= 'Z' || 'a' <= c <= 'z'
  }

  /** assertSafeBundlePath. */
  predicate SafePath(path: string) {
    && path != ""
    && path[0] != '/'
    && !(|path| >= 2 && IsLetter(path[0]) && path[1] == ':')
    && (forall i :: 0 <= i < |path| ==> path[i] != '\\' && path[i] as int >= 0x20)
    && (forall part :: part in Split(path, '/') ==> part != ".." && part != "." && part != "")
  }

  /** Where following the segments leads from a folder: ".." goes up, but not above the root. */
  function Walk(folder: seq<string>, segments: seq<string>): Option<seq<string>>
    decreases |segments|
  {
    if segments == [] then Some(folder)
    else if segments[0] == ".." then
      if folder == [] then None else Walk(folder[..|folder| - 1], segments[1..])
    else if segments[0] == "." || segments[0] == "" then Walk(folder, segments[1..])
    else Walk(folder + [segments[0]], segments[1..])
  }

  /** From the root the path leads down its own segments to the place it spells out. */
  predicate StaysBelow(path: string) {
    Walk([], Split(path, '/')) == Some(Split(path, '/'))
  }

  /** The code of an ASCII letter. */
  predicate LetterCode(n: int) {
    65 <= n <= 90 || 97 <= n <= 122
  }

  /** No drive letter, no backslash and no control character. */
  predicate PlainCharacters(path: string) {
    && (1 < |path| && path[1] == ':' ==> !LetterCode(path[0] as int))
    && forall c :: c in path ==> c != '\\' && ' ' <= c
  }

  predicate Harmless(path: string) {
    StaysBelow(path) && PlainCharacters(path)
  }

  predicate PlainSegment(segment: string) {
    segment != ".." && segment != "." && segment != ""
  }

  /** A walk gets as deep as there are segments only if all of them go down. */
  lemma {:induction false} WalkDown(folder: seq<string>, segments: seq<string>)
    ensures Walk(folder, segments).Some? ==> |Walk(folder, segments).value| <= |folder| + |segments|
    ensures Walk(folder, segments).Some? && |Walk(folder, segments).value| == |folder| + |segments| ==>
      forall segment :: segment in segments ==> PlainSegment(segment)
    ensures (forall segment :: segment in segments ==> PlainSegment(segment)) ==>
      Walk(folder, segments) == Some(folder + segments)
    decreases |segments|
  {
    if segments == [] {
      assert folder + segments == folder;
    } else {
      var s, rest := segments[0], segments[1..];
      assert segments == [s] + rest;
      if PlainSegment(s) {
        WalkDown(folder + [s], rest);
        assert folder + [s] + rest == folder + segments;
      } else if s == ".." {
        if folder != [] {
          WalkDown(folder[..|folder| - 1], rest);
        }
      } else {
        WalkDown(folder, rest);
      }
    }
  }

  lemma StaysBelowExactly(path: string)
    ensures StaysBelow(path) <==> forall part :: part in Split(path, '/') ==> PlainSegment(part)
  {
    WalkDown([], Split(path, '/'));
    assert [] + Split(path, '/') == Split(path, '/');
  }

  /** The safe paths are those of plain characters that lead from the root to the place they spell out. */
  lemma SafePathExactly(path: string)
    ensures SafePath(path) <==> Harmless(path)
  {
    StaysBelowExactly(path);
    if path == "" || path[0] == '/' {
      assert Split(path, '/')[0] == "" && "" in Split(path, '/');
    }
    hide StaysBelow, Split;
    if PlainCharacters(path) {
      assert forall i :: 0 <= i < |path| ==> path[i] in path;
    }
  }

  // ---- Central directory entries --------------------------------------------------------

  type Block4 = b: Bytes | |b| == 4 witness [0, 0, 0, 0]
  type Block12 = b: Bytes | |b| == 12 witness [0, 0, 0, 0, 0, 0, 0, 0, 0, 0, 0, 0]
  type Block14 = b: Bytes | |b| == 14 witness [0, 0, 0, 0, 0, 0, 0, 0, 0, 0, 0, 0, 0, 0]
  type Field = b: Bytes | |b| < 0x1_0000

  /**
   * One central file header. Fields nobody looks at are kept as blocks: the versions; method, time,
   * date, CRC and compressed size; disk, attributes and local header offset.
   */
  datatype Entry = Entry(versions: Block4, flags: uint16, coding: Block14, size: uint32, placement: Block12,
                         name: Field, extra: Field, comment: Field)

  function FixedPart(e: Entry): (b: Bytes)
    ensures |b| == 46
  {
    LE32(CENTRAL_SIGNATURE) + e.versions + LE16(e.flags) + e.coding + LE32(e.size)
    + LE16(|e.name|) + LE16(|e.extra|) + LE16(|e.comment|) + e.placement
  }

  function EntryLength(e: Entry): nat {
    46 + |e.name| + |e.extra| + |e.comment|
  }

  function WriteEntry(e: Entry): (b: Bytes)
    ensures |b| == EntryLength(e)
  {
    FixedPart(e) + e.name + e.extra + e.comment
  }

  function WriteEntries(es: seq<Entry>): (b: Bytes)
    ensures |b| >= 46 * |es|
  {
    if es == [] then [] else WriteEntry(es[0]) + WriteEntries(es[1..])
  }

  function NextOffset(b: Bytes, at: nat): nat
    requires at + 46 <= |b|
  {
    at + 46 + U16(b, at + 28) + U16(b, at + 30) + U16(b, at + 32)
  }

  function ReadEntry(b: Bytes, at: nat): Entry
    requires at + 46 <= |b| && NextOffset(b, at) <= |b|
  {
    var nameEnd := at + 46 + U16(b, at + 28);
    var extraEnd := nameEnd + U16(b, at + 30);
    Entry(b[at + 4..at + 8], U16(b, at + 8), b[at + 10..at + 24], U32(b, at + 24), b[at + 34..at + 46],
          b[at + 46..nameEnd], b[nameEnd..extraEnd], b[extraEnd..NextOffset(b, at)])
  }

  lemma EntryFields(b: Bytes, at: nat)
    requires at + 46 <= |b| && NextOffset(b, at) <= |b|
    ensures var e := ReadEntry(b, at); e.flags == U16(b, at + 8) && e.size == U32(b, at + 24)
  {
  }

  predicate Readable(b: Bytes, at: nat) {
    at + 46 <= |b| && U32(b, at) == CENTRAL_SIGNATURE && NextOffset(b, at) <= |b|
  }

  lemma FixedRead(b: Bytes, at: nat)
    requires Readable(b, at)
    ensures FixedPart(ReadEntry(b, at)) == b[at..at + 46]
  {
    hide U16, U32, LE16, LE32;
    EntryFields(b, at);
    ReadBack32(b, at);
    ReadBack16(b, at + 8);
    ReadBack32(b, at + 24);
    ReadBack16(b, at + 28);
    ReadBack16(b, at + 30);
    ReadBack16(b, at + 32);
    FourParts(b, at, at + 4, at + 8, at + 10, at + 24);
    FourParts(b, at + 24, at + 28, at + 30, at + 32, at + 34);
    FourParts(b, at, at, at + 24, at + 34, at + 46);
    NineParts(LE32(CENTRAL_SIGNATURE), b[at + 4..at + 8], b[at + 8..at + 10], b[at + 10..at + 24], b[at + 24..at + 28],
              b[at + 28..at + 30], b[at + 30..at + 32], b[at + 32..at + 34], b[at + 34..at + 46]);
  }

  lemma NineParts(a: Bytes, b: Bytes, c: Bytes, d: Bytes, e: Bytes, f: Bytes, g: Bytes, h: Bytes, i: Bytes)
    ensures a + b + c + d + e + f + g + h + i == (a + b + c + d) + (e + f + g + h) + i
  {
  }

  /** Writing what was read gives the bytes that were read. */
  lemma WriteRead(b: Bytes, at: nat)
    requires Readable(b, at)
    ensures WriteEntry(ReadEntry(b, at)) == b[at..NextOffset(b, at)]
  {
    FixedRead(b, at);
    var e := ReadEntry(b, at);
    var n, x := at + 46 + |e.name|, at + 46 + |e.name| + |e.extra|;
    FourParts(b, at, at + 46, n, x, NextOffset(b, at));
  }

  lemma FixedSlices(e: Entry, f: Bytes)
    requires f == FixedPart(e)
    ensures f[0..4] == LE32(CENTRAL_SIGNATURE) && f[4..8] == e.versions && f[8..10] == LE16(e.flags)
    ensures f[10..24] == e.coding && f[24..28] == LE32(e.size) && f[28..30] == LE16(|e.name|)
    ensures f[30..32] == LE16(|e.extra|) && f[32..34] == LE16(|e.comment|) && f[34..46] == e.placement
  {
  }

  lemma FixedFields(b: Bytes, at: nat, e: Entry)
    requires at + 46 <= |b| && b[at..at + 46] == FixedPart(e)
    ensures U32(b, at) == CENTRAL_SIGNATURE && U16(b, at + 8) == e.flags && U32(b, at + 24) == e.size
    ensures U16(b, at + 28) == |e.name| && U16(b, at + 30) == |e.extra| && U16(b, at + 32) == |e.comment|
    ensures b[at + 4..at + 8] == e.versions && b[at + 10..at + 24] == e.coding && b[at + 34..at + 46] == e.placement
  {
    FixedSlices(e, b[at..at + 46]);
    SubSlice(b, at, 46, 0, 4);
    SubSlice(b, at, 46, 4, 8);
    SubSlice(b, at, 46, 8, 10);
    SubSlice(b, at, 46, 10, 24);
    SubSlice(b, at, 46, 24, 28);
    SubSlice(b, at, 46, 28, 30);
    SubSlice(b, at, 46, 30, 32);
    SubSlice(b, at, 46, 32, 34);
    SubSlice(b, at, 46, 34, 46);
    Inside32(b, at, CENTRAL_SIGNATURE);
    Inside16(b, at + 8, e.flags);
    Inside32(b, at + 24, e.size);
    Inside16(b, at + 28, |e.name|);
    Inside16(b, at + 30, |e.extra|);
    Inside16(b, at + 32, |e.comment|);
  }

  lemma EntrySlices(e: Entry, w: Bytes)
    requires w == WriteEntry(e)
    ensures var n := 46 + |e.name|; var x := n + |e.extra|;
      w[0..46] == FixedPart(e) && w[46..n] == e.name && w[n..x] == e.extra && w[x..EntryLength(e)] == e.comment
  {
  }

  /** Reading what was written gives the entry that was written. */
  lemma ReadWrite(b: Bytes, at: nat, e: Entry)
    requires at + EntryLength(e) <= |b| && b[at..at + EntryLength(e)] == WriteEntry(e)
    ensures Readable(b, at) && NextOffset(b, at) == at + EntryLength(e) && ReadEntry(b, at) == e
  {
    hide U16, U32, LE16, LE32, FixedPart, WriteEntry;
    var n, x, m := 46 + |e.name|, 46 + |e.name| + |e.extra|, EntryLength(e);
    EntrySlices(e, b[at..at + m]);
    SubSlice(b, at, m, 0, 46);
    SubSlice(b, at, m, 46, n);
    SubSlice(b, at, m, n, x);
    SubSlice(b, at, m, x, m);
    FixedFields(b, at, e);
  }

  // ---- The scan of the directory --------------------------------------------------------

  predicate IsEncrypted(e: Entry) {
    e.flags % 2 == 1
  }

  /** What the source checks of one entry, given the names and the total size before it. */
  predicate Acceptable(e: Entry, decode: Decoder, paths: set<string>, expanded: nat) {
    && !IsEncrypted(e)
    && e.size != 0xFFFF_FFFF
    && expanded + e.size <= MAX_EXPANDED
    && SafePath(decode(e.name))
    && decode(e.name) !in paths
  }

  /** All of `es` are acceptable one after the other. */
  predicate AllAcceptable(es: seq<Entry>, decode: Decoder, paths: set<string>, expanded: nat) {
    es == []
    || (Acceptable(es[0], decode, paths, expanded)
        && AllAcceptable(es[1..], decode, paths + {decode(es[0].name)}, expanded + es[0].size))
  }

  /** The loop of inspectCentralDirectory from `offset` on, `count` entries before `end`. */
  function Scan(b: Bytes, offset: nat, end: nat, count: nat, decode: Decoder, paths: set<string>, expanded: nat)
    : Result<seq<Entry>, Error>
    requires end <= |b|
    decreases count
  {
    if count == 0 then (if offset == end then Ok([]) else Err(BadDirectorySize))
    else if offset + 46 > end || U32(b, offset) != CENTRAL_SIGNATURE then Err(BadEntry)
    else if U16(b, offset + 8) % 2 == 1 then Err(Encrypted)
    else if U32(b, offset + 24) == 0xFFFF_FFFF then Err(Zip64Entry)
    else if expanded + U32(b, offset + 24) > MAX_EXPANDED then Err(TooLarge)
    else if NextOffset(b, offset) > end then Err(BadEntryLength)
    else
      var e := ReadEntry(b, offset);
      var path := decode(e.name);
      if !SafePath(path) then Err(UnsafePath(path))
      else if path in paths then Err(DuplicatePath(path))
      else
        var rest :- Scan(b, NextOffset(b, offset), end, count - 1, decode, paths + {path}, expanded + e.size);
        Ok([e] + rest)
  }

  /** An accepted directory is the written form of the entries read from it. */
  lemma {:induction false} ScanSound(b: Bytes, offset: nat, end: nat, count: nat, decode: Decoder, paths: set<string>,
                                     expanded: nat)
    requires offset <= end <= |b| && Scan(b, offset, end, count, decode, paths, expanded).Ok?
    ensures var es := Scan(b, offset, end, count, decode, paths, expanded).value;
      |es| == count && WriteEntries(es) == b[offset..end] && AllAcceptable(es, decode, paths, expanded)
    decreases count
  {
    hide U16, U32, LE16, LE32, SafePath, ReadEntry, WriteEntry, FixedPart;
    if count > 0 {
      var e, next := ReadEntry(b, offset), NextOffset(b, offset);
      EntryFields(b, offset);
      ScanSound(b, next, end, count - 1, decode, paths + {decode(e.name)}, expanded + e.size);
      WriteRead(b, offset);
      assert b[offset..end] == b[offset..next] + b[next..end];
    }
  }

  lemma FirstEntry(b: Bytes, offset: nat, end: nat, es: seq<Entry>)
    requires offset <= end <= |b| && WriteEntries(es) == b[offset..end] && es != []
    ensures var m := EntryLength(es[0]);
      && offset + m <= end
      && b[offset..offset + m] == WriteEntry(es[0]) && b[offset + m..end] == WriteEntries(es[1..])
  {
    hide WriteEntry;
    var m, w := EntryLength(es[0]), b[offset..end];
    assert w == WriteEntry(es[0]) + WriteEntries(es[1..]);
    hide WriteEntries;
    assert w[0..m] == WriteEntry(es[0]) && w[m..end - offset] == WriteEntries(es[1..]);
    SubSlice(b, offset, end - offset, 0, m);
    SubSlice(b, offset, end - offset, m, end - offset);
  }

  /** The written form of acceptable entries is accepted, and read back unchanged. */
  lemma {:induction false} ScanComplete(b: Bytes, offset: nat, end: nat, es: seq<Entry>, decode: Decoder,
                                        paths: set<string>, expanded: nat)
    requires offset <= end <= |b| && WriteEntries(es) == b[offset..end]
    requires AllAcceptable(es, decode, paths, expanded)
    ensures Scan(b, offset, end, |es|, decode, paths, expanded) == Ok(es)
    decreases |es|
  {
    hide U16, U32, LE16, LE32, SafePath, ReadEntry, WriteEntry, FixedPart;
    if es != [] {
      var e, m := es[0], EntryLength(es[0]);
      FirstEntry(b, offset, end, es);
      ReadWrite(b, offset, e);
      EntryFields(b, offset);
      ScanComplete(b, offset + m, end, es[1..], decode, paths + {decode(e.name)}, expanded + e.size);
      assert es == [e] + es[1..];
    }
  }

  // ---- The end of central directory record ----------------------------------------------

  /** The place where the source finds the end record: the highest signature in the last 65,557 bytes. */
  ghost predicate EndRecordAt(b: Bytes, at: nat) {
    && at + 22 <= |b| <= at + 65_557
    && U32(b, at) == END_SIGNATURE
    && NoLaterSignature(b, at)
  }

  /** The directory described by the end record at `at` consists of the entries `es`. */
  ghost predicate Describes(b: Bytes, at: nat, es: seq<Entry>, decode: Decoder) {
    && EndRecordAt(b, at)
    && |es| == U16(b, at + 10) <= 10_000
    && var size: int, offset: int := U32(b, at + 12), U32(b, at + 16);
       && size != 0xFFFF_FFFF && offset != 0xFFFF_FFFF && offset + size <= at
       && b[offset..offset + size] == WriteEntries(es)
       && AllAcceptable(es, decode, {}, 0)
  }

  /** The checks of inspectCentralDirectory once the end record is found. */
  function InspectAt(b: Bytes, at: nat, decode: Decoder): Result<seq<Entry>, Error>
    requires at + 22 <= |b|
  {
    var count: int, size: int, offset: int := U16(b, at + 10), U32(b, at + 12), U32(b, at + 16);
    if count == 0xFFFF || size == 0xFFFF_FFFF || offset == 0xFFFF_FFFF then Err(Zip64Archive)
    else if count > MAX_ENTRIES then Err(TooManyEntries)
    else if offset + size > at then Err(DirectoryOutOfPlace)
    else Scan(b, offset, offset + size, count, decode, {}, 0)
  }

  lemma InspectDescribes(b: Bytes, at: nat, decode: Decoder, es: seq<Entry>)
    requires EndRecordAt(b, at)
    ensures InspectAt(b, at, decode) == Ok(es) <==> Describes(b, at, es, decode)
  {
    hide U16, U32, LE16, LE32, SafePath, ReadEntry, WriteEntry, FixedPart, Scan, WriteEntries, AllAcceptable;
    var count: int, size: int, offset: int := U16(b, at + 10), U32(b, at + 12), U32(b, at + 16);
    if InspectAt(b, at, decode) == Ok(es) {
      ScanSound(b, offset, offset + size, count, decode, {}, 0);
    }
    if Describes(b, at, es, decode) {
      ScanComplete(b, offset, offset + size, es, decode, {}, 0);
    }
  }

  lemma EndRecordUnique(b: Bytes, at: nat, other: nat)
    requires EndRecordAt(b, at) && EndRecordAt(b, other)
    ensures at == other
  {
  }

  ghost function Inspect(b: Bytes, decode: Decoder): Result<seq<Entry>, Error> {
    if exists at: nat :: EndRecordAt(b, at) then
      var at: nat :| EndRecordAt(b, at);
      InspectAt(b, at, decode)
    else Err(NoDirectory)
  }

  /**
   * An archive is accepted, with the entries `es`, exactly when its directory is the written form of
   * acceptable entries: they tile the directory, in number as many as the end record says.
   */
  lemma AcceptedIffDescribed(b: Bytes, decode: Decoder, es: seq<Entry>)
    ensures Inspect(b, decode) == Ok(es) <==> exists at: nat :: Describes(b, at, es, decode)
  {
    if at: nat :| EndRecordAt(b, at) {
      InspectDescribes(b, at, decode, es);
      forall other: nat | EndRecordAt(b, other)
        ensures other == at
      {
        EndRecordUnique(b, at, other);
      }
    }
  }

  method InspectCentralDirectory(input: Bytes, decode: Decoder) returns (r: Result<seq<Entry>, Error>)
    ensures r == Inspect(input, decode)
    ensures r.Ok? ==> forall e :: e in r.value ==> Harmless(decode(e.name))
  {
    hide U16, U32, SafePath, Harmless, ReadEntry, WriteEntry, FixedPart, Scan;
    var minimum := if |input| < 65_557 then 0 else |input| - 65_557;
    var eocd := -1;
    var probe := |input| - 22;
    while probe >= minimum
      invariant minimum - 1 <= probe || probe == |input| - 22
      invariant probe <= |input| - 22
      invariant forall j :: probe < j <= |input| - 22 && 0 <= j ==> U32(input, j) != END_SIGNATURE
    {
      if U32(input, probe) == END_SIGNATURE {
        eocd := probe;
        break;
      }
      probe := probe - 1;
    }
    if eocd < 0 {
      return Err(NoDirectory);
    }
    assert EndRecordAt(input, eocd);
    forall at: nat | EndRecordAt(input, at)
      ensures at == eocd
    {
      EndRecordUnique(input, at, eocd);
    }
    var count: int, size: int, offset: int := U16(input, eocd + 10), U32(input, eocd + 12), U32(input, eocd + 16);
    if count == 0xFFFF || size == 0xFFFF_FFFF || offset == 0xFFFF_FFFF {
      return Err(Zip64Archive);
    }
    if count > MAX_ENTRIES {
      return Err(TooManyEntries);
    }
    if offset + size > eocd {
      return Err(DirectoryOutOfPlace);
    }
    r := ScanLoop(input, offset, offset + size, count, decode);
    if r.Ok? {
      AcceptedPathsStay(input, decode, r.value);
    }
  }

  /** The loop over the entries. */
  method ScanLoop(input: Bytes, start: nat, end: nat, count: nat, decode: Decoder)
    returns (r: Result<seq<Entry>, Error>)
    requires start <= end <= |input|
    ensures r == Scan(input, start, end, count, decode, {}, 0)
  {
    hide U16, U32, LE16, LE32, SafePath, ReadEntry, WriteEntry, FixedPart;
    var offset, expanded := start, 0;
    var paths: set<string> := {};
    var entries: seq<Entry> := [];
    PrependNone(Scan(input, start, end, count, decode, {}, 0));
    for index := 0 to count
      invariant start <= offset <= end && 0 <= expanded
      invariant Prepend(entries, Scan(input, offset, end, count - index, decode, paths, expanded))
             == Scan(input, start, end, count, decode, {}, 0)
    {
      if offset + 46 > end || U32(input, offset) != CENTRAL_SIGNATURE {
        return Err(BadEntry);
      }
      if U16(input, offset + 8) % 2 == 1 {
        return Err(Encrypted);
      }
      var size := U32(input, offset + 24);
      if size == 0xFFFF_FFFF {
        return Err(Zip64Entry);
      }
      if expanded + size > MAX_EXPANDED {
        return Err(TooLarge);
      }
      var next := NextOffset(input, offset);
      if next > end {
        return Err(BadEntryLength);
      }
      var entry := ReadEntry(input, offset);
      EntryFields(input, offset);
      var path := decode(entry.name);
      if !SafePath(path) {
        return Err(UnsafePath(path));
      }
      if path in paths {
        return Err(DuplicatePath(path));
      }
      PrependSnoc(entries, entry, Scan(input, next, end, count - index - 1, decode, paths + {path}, expanded + size));
      paths := paths + {path};
      expanded := expanded + size;
      entries := entries + [entry];
      offset := next;
    }
    if offset != end {
      return Err(BadDirectorySize);
    }
    assert entries + [] == entries;
    return Ok(entries);
  }

  ghost function Prepend(es: seq<Entry>, r: Result<seq<Entry>, Error>): Result<seq<Entry>, Error> {
    match r
    case Ok(rest) => Ok(es + rest)
    case Err(error) => Err(error)
  }

  lemma PrependNone(r: Result<seq<Entry>, Error>)
    ensures Prepend([], r) == r
  {
    if r.Ok? {
      assert [] + r.value == r.value;
    }
  }

  lemma PrependSnoc(es: seq<Entry>, e: Entry, r: Result<seq<Entry>, Error>)
    ensures Prepend(es + [e], r) == Prepend(es, Prepend([e], r))
  {
    if r.Ok? {
      assert es + [e] + r.value == es + ([e] + r.value);
    }
  }

  // ---- What acceptance means ------------------------------------------------------------

  function ExpandedSize(es: seq<Entry>): nat {
    if es == [] then 0 else es[0].size + ExpandedSize(es[1..])
  }

  ghost predicate DistinctNames(es: seq<Entry>, decode: Decoder) {
    forall i, j :: 0 <= i < j < |es| ==> decode(es[i].name) != decode(es[j].name)
  }

  predicate WholesomeEntry(e: Entry, decode: Decoder, paths: set<string>) {
    !IsEncrypted(e) && e.size != 0xFFFF_FFFF && SafePath(decode(e.name)) && decode(e.name) !in paths
  }

  /** The checks of the scan, stated once for the whole list. */
  ghost predicate Wholesome(es: seq<Entry>, decode: Decoder, paths: set<string>, expanded: nat) {
    && (forall e :: e in es ==> WholesomeEntry(e, decode, paths))
    && DistinctNames(es, decode)
    && (es != [] ==> expanded + ExpandedSize(es) <= 104_857_600)
  }

  lemma DistinctSplit(es: seq<Entry>, decode: Decoder)
    requires es != []
    ensures DistinctNames(es, decode) <==>
      DistinctNames(es[1..], decode) && forall e :: e in es[1..] ==> decode(e.name) != decode(es[0].name)
  {
    var rest := es[1..];
    if DistinctNames(es, decode) {
      forall e | e in rest
        ensures decode(e.name) != decode(es[0].name)
      {
        var j :| 0 <= j < |rest| && rest[j] == e;
        assert es[j + 1] == e;
      }
      assert forall i :: 0 <= i < |rest| ==> rest[i] == es[i + 1];
    }
    if DistinctNames(rest, decode) && forall e :: e in rest ==> decode(e.name) != decode(es[0].name) {
      forall i, j | 0 <= i < j < |es|
        ensures decode(es[i].name) != decode(es[j].name)
      {
        assert es[j] == rest[j - 1] && es[j] in rest;
        assert i > 0 ==> es[i] == rest[i - 1];
      }
    }
  }

  /** Accepted entries are unencrypted, have distinct safe names, and expand to at most 100 MiB. */
  lemma {:induction false} AcceptableIsWholesome(es: seq<Entry>, decode: Decoder, paths: set<string>, expanded: nat)
    ensures AllAcceptable(es, decode, paths, expanded) <==> Wholesome(es, decode, paths, expanded)
  {
    hide SafePath, IsEncrypted, DistinctNames;
    if es == [] {
      assert DistinctNames(es, decode) by {
        EmptyDistinct(decode);
      }
    } else {
      var p := decode(es[0].name);
      AcceptableIsWholesome(es[1..], decode, paths + {p}, expanded + es[0].size);
      DistinctSplit(es, decode);
      assert forall e :: e in es <==> e == es[0] || e in es[1..];
      assert forall e :: WholesomeEntry(e, decode, paths + {p}) <==>
        WholesomeEntry(e, decode, paths) && decode(e.name) != p;
      assert ExpandedSize(es) == es[0].size + ExpandedSize(es[1..]);
      assert es[1..] == [] ==> ExpandedSize(es[1..]) == 0;
      assert Acceptable(es[0], decode, paths, expanded) <==>
        WholesomeEntry(es[0], decode, paths) && expanded + es[0].size <= 104_857_600;
    }
  }

  lemma EmptyDistinct(decode: Decoder)
    ensures DistinctNames([], decode)
  {
  }

  /** The consequences of acceptance, in one place. */
  lemma AcceptedDirectory(b: Bytes, decode: Decoder, es: seq<Entry>)
    requires Inspect(b, decode) == Ok(es)
    ensures exists at: nat :: EndRecordAt(b, at) && |es| == U16(b, at + 10) && 46 * |es| <= U32(b, at + 12)
    ensures Wholesome(es, decode, {}, 0) && |es| <= 10_000
  {
    hide U16, U32, SafePath, Inspect, AllAcceptable, WriteEntries, Wholesome;
    AcceptedIffDescribed(b, decode, es);
    AcceptableIsWholesome(es, decode, {}, 0);
    var at: nat :| Describes(b, at, es, decode);
    assert |WriteEntries(es)| == U32(b, at + 12);
    assert EndRecordAt(b, at) && |es| == U16(b, at + 10) && 46 * |es| <= U32(b, at + 12);
  }

  /** Every path of an accepted archive leads down from the root to the place it spells out. */
  lemma AcceptedPathsStay(b: Bytes, decode: Decoder, es: seq<Entry>)
    requires Inspect(b, decode) == Ok(es)
    ensures forall e :: e in es ==> Harmless(decode(e.name))
  {
    hide U16, U32, SafePath, Inspect, Harmless;
    AcceptedDirectory(b, decode, es);
    forall e | e in es
      ensures Harmless(decode(e.name))
    {
      SafePathExactly(decode(e.name));
    }
  }

  // ---- The specification writer ---------------------------------------------------------

  function WriteEnd(count: uint16, size: uint32, offset: uint32, comment: Field): (b: Bytes)
    ensures |b| == 22 + |comment|
  {
    LE32(END_SIGNATURE) + [0, 0, 0, 0] + LE16(count) + LE16(count) + LE32(size) + LE32(offset)
    + LE16(|comment|) + comment
  }

  /** Both signatures start with the letters PK. */
  lemma Signatures()
    ensures LE32(END_SIGNATURE) == ['P' as int, 'K' as int, 5, 6]
    ensures LE32(CENTRAL_SIGNATURE) == ['P' as int, 'K' as int, 1, 2]
  {
  }

  predicate FitsZip32(local: Bytes, es: seq<Entry>) {
    |local| < 0xFFFF_FFFF && |WriteEntries(es)| < 0xFFFF_FFFF
  }

  /** Local file data, then the directory, then the end record announcing `count` entries, with the archive comment. */
  function WriteArchive(local: Bytes, es: seq<Entry>, count: uint16, comment: Field): Bytes
    requires FitsZip32(local, es)
  {
    local + WriteEntries(es) + WriteEnd(count, |WriteEntries(es)|, |local|, comment)
  }

  lemma EndFields(b: Bytes, at: nat, count: uint16, size: uint32, offset: uint32, comment: Field)
    requires at + 22 + |comment| <= |b| && b[at..at + 22 + |comment|] == WriteEnd(count, size, offset, comment)
    ensures U32(b, at) == END_SIGNATURE && U16(b, at + 10) == count && U32(b, at + 12) == size
    ensures U32(b, at + 16) == offset
  {
    var m := 22 + |comment|;
    EndSlices(count, size, offset, comment, b[at..at + m]);
    SubSlice(b, at, m, 0, 4);
    SubSlice(b, at, m, 10, 12);
    SubSlice(b, at, m, 12, 16);
    SubSlice(b, at, m, 16, 20);
    Inside32(b, at, END_SIGNATURE);
    Inside16(b, at + 10, count);
    Inside32(b, at + 12, size);
    Inside32(b, at + 16, offset);
  }

  lemma EndSlices(count: uint16, size: uint32, offset: uint32, comment: Field, f: Bytes)
    requires f == WriteEnd(count, size, offset, comment)
    ensures f[0..4] == LE32(END_SIGNATURE) && f[10..12] == LE16(count) && f[12..16] == LE32(size)
    ensures f[16..20] == LE32(offset)
    ensures f[4..8] == [0, 0, 0, 0] && f[8..10] == LE16(count) && f[12..] == EndTail(size, offset, comment)
  {
    hide LE16, LE32;
    var head := LE32(END_SIGNATURE) + [0, 0, 0, 0] + LE16(count) + LE16(count);
    assert |head| == 12;
    assert f == head + EndTail(size, offset, comment);
    assert f[12..] == EndTail(size, offset, comment);
  }

  // ---- The record that is found ---------------------------------------------------------

  /** The end record from its size field on. */
  function EndTail(size: uint32, offset: uint32, comment: Field): (b: Bytes)
    ensures |b| == 10 + |comment|
  {
    LE32(size) + LE32(offset) + LE16(|comment|) + comment
  }

  /**
   * The end record contains no further signature from its size field on, early enough to be taken for an
   * end record itself. No comment of less than twelve bytes can violate this.
   */
  ghost predicate NoSignatureWithin(size: uint32, offset: uint32, comment: Field) {
    forall k :: 0 <= k <= |comment| - 12 ==> U32(EndTail(size, offset, comment), k) != END_SIGNATURE
  }

  ghost predicate NoLaterSignature(b: Bytes, at: nat) {
    forall j :: at < j <= |b| - 22 ==> U32(b, j) != END_SIGNATURE
  }

  lemma SignatureBytes(b: Bytes, j: nat)
    requires j + 4 <= |b| && U32(b, j) == END_SIGNATURE
    ensures b[j] == 0x50 && b[j + 1] == 0x4B && b[j + 2] == 5 && b[j + 3] == 6
  {
    var n := U32(b, j);
    DigitsBase256(b[j], b[j + 1], b[j + 2], b[j + 3]);
    assert LE32(n) == [b[j], b[j + 1], b[j + 2], b[j + 3]];
    assert LE32(END_SIGNATURE) == [0x50, 0x4B, 5, 6];
  }

  /** The fields before the size cannot start a signature when the count is one that is accepted. */
  lemma NoEarlySignature(r: Bytes, count: uint16, size: uint32, offset: uint32, comment: Field, k: nat)
    requires r == WriteEnd(count, size, offset, comment) && count <= MAX_ENTRIES && 0 < k < 12 && k + 4 <= |r|
    ensures U32(r, k) != END_SIGNATURE
  {
    hide U32, LE32, LE16, WriteEnd;
    EndBytes(r, count, size, offset, comment);
    if U32(r, k) == END_SIGNATURE {
      SignatureBytes(r, k);
    }
  }

  lemma EndBytes(r: Bytes, count: uint16, size: uint32, offset: uint32, comment: Field)
    requires r == WriteEnd(count, size, offset, comment)
    ensures r[1] == 0x4B && r[2] == 5 && r[3] == 6 && r[4] == r[5] == r[6] == r[7] == 0
    ensures r[8] == r[10] == count % 0x100 && r[9] == r[11] == count / 0x100
  {
    hide U32, WriteEnd;
    EndSlices(count, size, offset, comment, r);
    var s, z, c, d := r[0..4], r[4..8], r[8..10], r[10..12];
    assert LE32(END_SIGNATURE) == [0x50, 0x4B, 5, 6];
    assert r[1] == s[1] && r[2] == s[2] && r[3] == s[3];
    assert r[4] == z[0] && r[5] == z[1] && r[6] == z[2] && r[7] == z[3];
    assert r[8] == c[0] && r[9] == c[1] && r[10] == d[0] && r[11] == d[1];
  }

  lemma Shifted32(b: Bytes, r: Bytes, at: nat, k: nat)
    requires at + |r| <= |b| && b[at..at + |r|] == r && k + 4 <= |r|
    ensures U32(b, at + k) == U32(r, k)
  {
    var s := b[at..at + |r|];
    assert b[at + k] == s[k] && b[at + k + 1] == s[k + 1] && b[at + k + 2] == s[k + 2] && b[at + k + 3] == s[k + 3];
  }

  /** The search finds the record that was written exactly when there is no further signature within it. */
  lemma WrittenRecordIsFound(local: Bytes, es: seq<Entry>, comment: Field)
    requires FitsZip32(local, es) && |es| <= MAX_ENTRIES
    ensures EndRecordAt(WriteArchive(local, es, |es|, comment), |local| + |WriteEntries(es)|)
      <==> NoSignatureWithin(|WriteEntries(es)|, |local|, comment)
  {
    hide U16, U32, LE16, LE32, WriteEntries, WriteEnd, EndTail;
    var b, size := WriteArchive(local, es, |es|, comment), |WriteEntries(es)|;
    var at, r, tail := |local| + size, WriteEnd(|es|, size, |local|, comment), EndTail(size, |local|, comment);
    assert |r| == 22 + |comment| && b[at..at + |r|] == r;
    EndFields(b, at, |es|, size, |local|, comment);
    EndSlices(|es|, size, |local|, comment, r);
    assert r[12..] == tail && r[12..12 + |tail|] == tail;
    if EndRecordAt(b, at) {
      forall k | 0 <= k <= |comment| - 12
        ensures U32(tail, k) != END_SIGNATURE
      {
        var j := at + 12 + k;
        Shifted32(b, r, at, 12 + k);
        Shifted32(r, tail, 12, k);
        assert U32(b, j) != END_SIGNATURE;
      }
    }
    if NoSignatureWithin(size, |local|, comment) {
      forall j | at < j <= |b| - 22
        ensures U32(b, j) != END_SIGNATURE
      {
        var k := j - at;
        Shifted32(b, r, at, k);
        if k < 12 {
          NoEarlySignature(r, |es|, size, |local|, comment, k);
        } else {
          Shifted32(r, tail, 12, k - 12);
          assert U32(tail, k - 12) != END_SIGNATURE;
        }
      }
    }
  }

  /**
   * Round trip: an archive written from wholesome entries is accepted and read back unchanged exactly when
   * its record is the one that is found, or the later one that is found describes the same entries.
   */
  lemma WrittenIsAccepted(local: Bytes, es: seq<Entry>, comment: Field, decode: Decoder)
    requires FitsZip32(local, es) && |es| <= MAX_ENTRIES && Wholesome(es, decode, {}, 0)
    ensures var b, at := WriteArchive(local, es, |es|, comment), |local| + |WriteEntries(es)|;
      Inspect(b, decode) == Ok(es)
      <==> NoSignatureWithin(|WriteEntries(es)|, |local|, comment)
           || exists later: nat :: later > at && Describes(b, later, es, decode)
  {
    hide U16, U32, LE16, LE32, SafePath, Wholesome, AllAcceptable, WriteEntries, WriteEnd, Inspect, NoSignatureWithin,
         NoLaterSignature;
    var b, size := WriteArchive(local, es, |es|, comment), |WriteEntries(es)|;
    var at := |local| + size;
    assert b[at..at + 22 + |comment|] == WriteEnd(|es|, size, |local|, comment);
    EndFields(b, at, |es|, size, |local|, comment);
    assert b[|local|..|local| + size] == WriteEntries(es);
    AcceptableIsWholesome(es, decode, {}, 0);
    WrittenRecordIsFound(local, es, comment);
    AcceptedIffDescribed(b, decode, es);
    if NoSignatureWithin(size, |local|, comment) {
      assert Describes(b, at, es, decode);
    } else if Inspect(b, decode) == Ok(es) {
      var found: nat :| Describes(b, found, es, decode);
      NotBefore(b, at, found);
    }
  }

  /** The record that is found is never before one that is there. */
  lemma NotBefore(b: Bytes, at: nat, found: nat)
    requires at + 22 <= |b| && U32(b, at) == END_SIGNATURE && EndRecordAt(b, found)
    ensures at <= found
  {
  }

  /** A comment that is itself an end record: of an empty archive. */
  const HIDING: Field := [0x50, 0x4B, 5, 6, 0, 0, 0, 0, 0, 0, 0, 0, 0, 0, 0, 0, 0, 0, 0, 0, 0, 0]

  /** With that comment every archive, whatever its entries, is read as an empty one. */
  lemma CommentHidesDirectory(local: Bytes, es: seq<Entry>, count: uint16, decode: Decoder)
    requires FitsZip32(local, es)
    ensures Inspect(WriteArchive(local, es, count, HIDING), decode) == Ok([])
  {
    hide WriteEntries, Inspect;
    var b := WriteArchive(local, es, count, HIDING);
    var at := |b| - 22;
    assert b[at..] == HIDING;
    assert forall i :: 0 <= i < 22 ==> b[at + i] == HIDING[i];
    assert U32(b, at) == END_SIGNATURE && U16(b, at + 10) == 0 && U32(b, at + 12) == 0 && U32(b, at + 16) == 0;
    assert WriteEntries([]) == [] by {
      NothingWritten();
    }
    assert b[0..0] == [];
    assert Describes(b, at, [], decode);
    AcceptedIffDescribed(b, decode, []);
  }

  lemma NothingWritten()
    ensures WriteEntries([]) == []
  {
  }

  // ---- More entries than are accepted ---------------------------------------------------

  /** The written form determines the entries. */
  lemma {:induction false} WriteEntriesInjective(es: seq<Entry>, fs: seq<Entry>)
    requires WriteEntries(es) == WriteEntries(fs)
    ensures es == fs
  {
    hide U16, U32, LE16, LE32, ReadEntry, WriteEntry, FixedPart;
    if es != [] && fs != [] {
      var b := WriteEntries(es);
      assert b[0..|b|] == b;
      FirstEntry(b, 0, |b|, es);
      FirstEntry(b, 0, |b|, fs);
      ReadWrite(b, 0, es[0]);
      ReadWrite(b, 0, fs[0]);
      WriteEntriesInjective(es[1..], fs[1..]);
      assert es == [es[0]] + es[1..] && fs == [fs[0]] + fs[1..];
    }
  }

  /** An archive of more than 10,000 entries is refused, whatever number its end record announces. */
  lemma TooManyAreRefused(local: Bytes, es: seq<Entry>, count: uint16, decode: Decoder)
    requires FitsZip32(local, es) && |es| > 10_000
    ensures Inspect(WriteArchive(local, es, count, []), decode).Err?
  {
    hide U16, U32, LE16, LE32, WriteEntries, WriteEnd, AllAcceptable, Inspect;
    var b, size := WriteArchive(local, es, count, []), |WriteEntries(es)|;
    var at := |local| + size;
    assert b[at..at + 22] == WriteEnd(count, size, |local|, []);
    EndFields(b, at, count, size, |local|, []);
    assert b[|local|..|local| + size] == WriteEntries(es);
    if Inspect(b, decode).Ok? {
      var fs := Inspect(b, decode).value;
      AcceptedIffDescribed(b, decode, fs);
      var other: nat :| Describes(b, other, fs, decode);
      assert EndRecordAt(b, at);
      EndRecordUnique(b, at, other);
      WriteEntriesInjective(es, fs);
    }
  }
}
