# Verified model of EUDIPLO's configuration, session, trust and audit cores

EUDIPLO exports and imports tenant configuration as files and ZIP bundles, streams session statuses to
clients, caches federation trust decisions, checks registration certificates against the credentials a
verifier asks for, and prunes its audit log. This project models that logic in Dafny and proves what
each part is for. `dafny verify dfyconfig.toml` checks everything.

Algorithms that the program runs step by step are methods proved against a specification; services that
keep state are classes whose methods are tied to a specification state machine; the laws are lemmas
about those specifications, for every input or for every run.

| file | content |
|---|---|
| `Placeholders.dfy` | the placeholder scanner and the regular expression it replaces |
| `VariableGraph.dfy` | variable resolution on shared and cyclic object graphs |
| `Json.dfy`, `StableJson.dfy` | JSON values, their canonical texts, `stableConfigJson` |
| `Pointers.dfy`, `SensitivePaths.dfy`, `ConfigDiff.dfy` | JSON pointers, which places are secret, `configChanges` |
| `ConfigFormat.dfy`, `Migration.dfy` | identities, envelopes, the migration engine |
| `ZipDirectory.dfy`, `Bytes.dfy`, `Base64.dfy` | the ZIP central-directory check and its encodings |
| `ConfigBundle.dfy`, `BundleCodec.dfy`, `BundleRoundTrip.dfy` | bundle validation, `encode`, `decode`, the round trips |
| `AtomicWrite.dfy` | atomic file replacement under faults, crashes and concurrent calls |
| `SessionEvents.dfy` | the session status stream over all interleavings |
| `FederationTrust.dfy` | the trust cache, its stale and negative entries, single flight |
| `RegistrationCertificate.dfy` | registration-certificate authorisation and fingerprints |
| `AuditLog.dfy` | audit-log pruning |
| `Ordering.dfy`, `Decimal.dfy`, `Strings.dfy`, `Wrappers.dfy` | shared orders, numerals, strings, Option and Result |

Library code enters as function-valued parameters: SHA-256, UTF-8 decoding, `zipSync`/`unzipSync`,
`JSON.parse`/`JSON.stringify`, the schema validator, the chain evaluator, JWT decoding. What a theorem
assumes of it is a named predicate in its contract (`BundleRoundTrip.Lawful`, `NoCollision`,
`Json.Enumerates`, `Ordering.TotalOrder`). Time and the outcomes of I/O are parameters chosen by the
environment, differently at every step.

## What the proofs found

Where a promise does not hold of the code as it stands, the model keeps the code, a lemma gives the
input, and another gives the exact condition.

- `configChanges` prints "/" both for the whole value and for its member with the empty key, so two
  different comparisons can have the same report (`ConfigDiff.RootPointerIsAmbiguous`). Its paths are
  pointers exactly for prefixed or equal values and for values that are not secret as a whole and of which
  one is an object or array (`ConfigDiff.PointersArePrinted`); otherwise the report does not patch by pointer
  (`RootIsMissed`, `SecretRootIsMissed`).
- `configChanges` looks members up with `left?.[key]`, which on a plain object also finds what it inherits:
  for `{constructor: 5}` against `{}` it reports a change to the function `Object`
  (`ConfigDiff.ConstructorIsReported`). The report is that of the
  JSON values exactly when no compared pair of objects differs in such a name (`ConfigDiff.IdealExactly`),
  and as a patch it goes wrong exactly when a public primitive member of such a name is removed
  (`ConfigDiff.PointersPatch`, `ConfigDiff.RemovedNameIsKept`).
- `atomicWriteFile` can throw although the new contents are in place: exactly when everything worked and
  removing the no longer existing temporary name reports an error other than "not found"
  (`AtomicWrite.FailureKeepsOld`). Its temporary file stays behind not only when removal fails but also
  when the second close fails, because the removal is then skipped (`AtomicWrite.CallOutcome`). A normal
  return does not yet survive a crash, since the directory is not flushed (`AtomicWrite.CrashAfterReturn`).
- Clearing the trust cache while an evaluation of a key is in flight breaks single flight for that key: a
  second evaluation starts beside a running one, or the first caller's `finally` deletes the entry of the
  second and a third starts. Clearing is safe for a key exactly when none of its evaluations is in flight
  (`FederationTrust.ClearIsSafeExactlyWhenIdle`).
- `pruneByMaxEntries` keeps fewer than the configured number when several entries share the time at the
  limit. On a database that stamps in microseconds it can also keep more, because the cutoff is read back in
  milliseconds: the entries of that millisecond stay. It keeps exactly the newest N when, and only when,
  the stamp at the limit is one of whole milliseconds and no tie lies across it (`AuditLog.KeepsTheNewest`).
- The status stream relies on its store. `ChangeSessionState.execute` writes without looking at the old
  status, and `HandleCredentialNotification` uses it for accepted and failed events alike. The terminal
  status a client was given stays the session's status in every run exactly when no terminal commit is
  followed by a different one (`SessionEvents.CurrentExactlyWhenSteadfast`).
- An archive comment of twelve bytes or more can contain an end record, and the directory check then reads
  that one: one comment makes every archive read as empty (`ZipDirectory.CommentHidesDirectory`).
- A bundle of more than 10,000 entries is written and then refused on reading
  (`BundleRoundTrip.DecodeEncoded`).
- A registration certificate is matched credential by credential as a whole: a query for fewer claims
  than authorised is refused (`RegistrationCertificate.FewerClaimsAreRefused`), and a certificate derived
  from a query that uses `claim` instead of `claims` does not authorise that query
  (`RegistrationCertificate.DerivedKeepsDefinition`).
- `normalizeDocument` compares `ownership` as a string, so an array such as `["file-managed"]` passes
  (`ConfigFormat.MetadataExactly`).
- A migration whose source already has the target version ends at the target even when validation
  blocks it; otherwise reaching the target and not being blocked are the same (`Migration.MigrationAdvances`).

## Model

| member | source | states |
|---|---|---|
| Placeholders.ReplacePlaceholders | packages/eudiplo-config-format/src/config-values.ts:13-43 | the scan equals the global substitution of the regular expression for every string and replacer, calls `replace` on exactly its matches in order, and inspects at most 4n+3 characters |
| Placeholders.TryOpening | packages/eudiplo-config-format/src/config-values.ts:21-36 | at one opening the scan finds the match that starts there, or shows that there is none; the early `break` happens only when no match starts at or after this opening |
| Placeholders.IndexOfOpening | packages/eudiplo-config-format/src/config-values.ts:19-20 | the search for `${` returns the first opening and its cost |
| Placeholders.IndexOfBrace | packages/eudiplo-config-format/src/config-values.ts:28-28 | the search for the closing brace returns the first one and its cost |
| Placeholders.MatchShape | packages/eudiplo-config-format/src/config-values.ts:10-10 | the groups of a match are forced by where it starts: the variable is the whole run, an absent and an empty fallback differ, the fallback ends at the first brace |
| Placeholders.SameStartSameMatch | packages/eudiplo-config-format/src/config-values.ts:10-10 | the regular expression has at most one match at a place |
| Placeholders.MatchesAreMaximal | packages/eudiplo-config-format/src/config-values.ts:8-12 | the leftmost non-overlapping matches are maximal: any other match starts inside one of them |
| Placeholders.ScannedIsMatch | packages/eudiplo-config-format/src/config-values.ts:23-32 | what the scanner has read is a match of the expression with these groups |
| Placeholders.TakePlaceholder | packages/eudiplo-config-format/src/config-values.ts:8-12 | the first placeholder of a text is replaced, and what follows it is matched and replaced as a text of its own |
| Placeholders.VariableCharCodes | packages/eudiplo-config-format/src/config-values.ts:6-7 | variable names consist of capitals, digits and underscores |
| VariableGraph.ResolveConfigVariables | packages/eudiplo-config-format/src/config-values.ts:45-85 | terminates on every finite graph, cyclic or shared; the result is isomorphic to the reachable input with every string resolved once; the issues are one block per string of a reachable object (or the input itself), each block the unresolved placeholders of that string in order under a pointer leading to that very entry |
| VariableGraph.PlaceholderResolved | packages/eudiplo-config-format/src/config-values.ts:53-67 | the first placeholder of a string becomes the value of its variable if that is set and not empty, or else its fallback, or else it stays and is reported under the path, "/" for the root; the rest of the string is resolved by itself |
| VariableGraph.NothingResolved | packages/eudiplo-config-format/src/config-values.ts:53-67 | a string without placeholders stays as it is and nothing is reported |
| VariableGraph.Resolver.Visit | packages/eudiplo-config-format/src/config-values.ts:51-83 | one visit extends the copy injectively, keeps what was copied, and logs exactly the strings of the newly visited objects, each once and at its own place |
| VariableGraph.Resolver.CopyObject | packages/eudiplo-config-format/src/config-values.ts:69-82 | an object met for the first time is entered in `seen` before its entries are visited and ends up copied entry by entry, with its strings and those of the objects below logged |
| VariableGraph.ReachableIsClosed | packages/eudiplo-config-format/src/config-values.ts:69-73 | the nodes reachable from the input form the least closed set, the bound of the recursion |
| VariableGraph.CopiedIsClosed | packages/eudiplo-config-format/src/config-values.ts:69-82 | a finished copy covers everything reachable |
| VariableGraph.LogOne | packages/eudiplo-config-format/src/config-values.ts:53-66 | reporting one more string keeps the log a list of distinct places whose blocks are all the issues |
| StableJson.StableTextDecidesEquality | packages/eudiplo-config-format/src/config-values.ts:92-104 | two values have the same stable text exactly when they are related member by member: equal up to key order and undefined members at every depth, undefined array items reading as null; and exactly when they denote the same JSON value |
| StableJson.SameExactly | packages/eudiplo-config-format/src/config-values.ts:93-102 | that relation is equality of the JSON values denoted |
| StableJson.SortedText | packages/eudiplo-config-format/src/config-values.ts:92-104 | sorting, filtering and re-inserting members prints the canonical text of the value meant, array-index keys first |
| StableJson.StableTextIgnoresKeyOrder | packages/eudiplo-config-format/src/config-values.ts:96-101 | reordering members does not change the text |
| Json.TextPrefix | packages/eudiplo-config-format/src/config-values.ts:103-103 | the printed form of a JSON value is self-delimiting: no other value starts the same text, for any key order |
| Json.TextInjective | apps/backend/src/registrar/registration-certificate.service.ts:554-565 | the canonical printer over any enumeration of the keys is injective |
| Ordering.OwnKeyOrder | packages/eudiplo-config-format/src/config-values.ts:96-101 | the own keys of the rebuilt object, each once: array indices by number, then the others in code unit order |
| Ordering.CodeUnitOrder | packages/eudiplo-config-format/src/config-values.ts:98-98 | default sorting of distinct keys lists every key once, ascending by UTF-16 code units |
| Ordering.CodeUnitLessExactly | packages/eudiplo-config-format/src/config-values.ts:98-98 | a text comes first when it ends at the first difference or has the lower UTF-16 code unit there |
| Ordering.IsArrayIndexExactly | packages/eudiplo-config-format/src/config-values.ts:96-101 | the keys that objects list first are the numerals up to 2^32 - 2 |
| Ordering.NumericLessExactly | packages/eudiplo-config-format/src/config-values.ts:96-101 | and they are listed in the order of their numbers |
| Ordering.SortedUnique | packages/eudiplo-config-format/src/config-values.ts:147-152 | a set of keys has one ascending list under a total order |
| Pointers.PointerInjective | packages/eudiplo-config-format/src/config-values.ts:156-156 | escaping as in RFC 6901 sections 3 and 4 makes a pointer determine its path |
| Pointers.PointerChild | packages/eudiplo-config-format/src/config-values.ts:156-156 | appending one escaped segment gives the pointer of the child |
| Pointers.PointerReads | packages/eudiplo-config-format/src/config-values.ts:156-156 | splitting a printed pointer at its slashes and replacing "~1" and then "~0", as RFC 6901 section 4 has it, gives the path |
| ConfigDiff.ConfigChanges | packages/eudiplo-config-format/src/config-values.ts:106-188 | the report is that of the specification difference; no change under a secret path carries anything but "[redacted]" or a missing side, and all values carried are primitive |
| SensitivePaths.SensitiveNameExactly | packages/eudiplo-config-format/src/config-values.ts:113-116 | a path is sensitive by name exactly when one of the nineteen names, in any ASCII case, stands in it between slashes or ends of the path |
| SensitivePaths.PatternExactly | packages/eudiplo-config-format/src/config-values.ts:117-126 | a pattern of dotted parts covers a path of slashed segments, with or without "/spec/" and a slash in front, exactly when every part is a star or the segment at its place |
| SensitivePaths.CanBeWritten | packages/eudiplo-config-format/src/config-values.ts:118-122 | every path and every pattern can be written in that form |
| SensitivePaths.SensitiveExactly | packages/eudiplo-config-format/src/config-values.ts:113-126 | together: which paths the check takes for secret |
| ConfigDiff.SecretsAreHidden | packages/eudiplo-config-format/src/config-values.ts:129-137 | a change under a secret path is redacted and shows only whether there are values; elsewhere only a change of kind is withheld; nothing but primitive values is ever shown |
| ConfigDiff.Visit | packages/eudiplo-config-format/src/config-values.ts:127-185 | each branch of the recursive visit appends exactly the entries of the specification, also where one side is a function that `left?.[key]` finds on a plain object |
| ConfigDiff.VisitMembers | packages/eudiplo-config-format/src/config-values.ts:147-157 | the loop over the union of the keys reports them in order; a key that only one of two objects has is looked up on the other and may find an inherited function |
| ConfigDiff.VisitItems | packages/eudiplo-config-format/src/config-values.ts:164-169 | the loop over the indices reports the items of the longer array in order |
| ConfigDiff.ReportPatches | packages/eudiplo-config-format/src/config-values.ts:106-188 | by internal path: applying the reported changes to the leaves of the old value gives the leaves of the new value at every path outside redacted parts and members compared with an inherited function, and every other reported change is one |
| ConfigDiff.IdealExactly | packages/eudiplo-config-format/src/config-values.ts:147-157 | the report is the difference of the two values as JSON exactly when at every compared pair of objects the key sets differ in no name that objects inherit |
| ConfigDiff.FunctionsExactly | packages/eudiplo-config-format/src/config-values.ts:153-157 | a function is reported exactly when some compared pair of objects differs in an inherited name whose member is a primitive and not secret |
| ConfigDiff.PointersPatch | packages/eudiplo-config-format/src/config-values.ts:106-188 | by printed pointer, whenever paths are printed as pointers: applying the listed changes to the map from pointers to old leaves gives the new leaves at every pointer no redacted change covers, exactly when no primitive member with an inherited name, not secret, is removed from a compared object |
| ConfigDiff.RemovedNameIsKept | packages/eudiplo-config-format/src/config-values.ts:153-157 | such a removed member is listed as changed to the inherited function, which is what a reader of the report then finds at its pointer |
| ConfigDiff.FunctionNameIsReported | packages/eudiplo-config-format/src/config-values.ts:153-157 | removing such a member of an object with no other is reported in exactly this way |
| ConfigDiff.ConstructorIsReported | packages/eudiplo-config-format/src/config-values.ts:153-157 | for example `{constructor: 5}` against `{}` |
| ConfigDiff.PointersArePrinted | packages/eudiplo-config-format/src/config-values.ts:131-184 | paths are printed as pointers exactly for prefixed or equal values, and for values that are not secret as a whole and of which one is an object or array |
| ConfigDiff.ListedChange | packages/eudiplo-config-format/src/config-values.ts:184-184 | where paths are pointers and no function is reported, a listed change carries the two different leaves its pointer names |
| ConfigDiff.LeavesAreReported | packages/eudiplo-config-format/src/config-values.ts:184-184 | where paths are pointers, all listed changes carry such leaves exactly when no compared pair of objects differs in an inherited name whose member is a primitive and not secret |
| ConfigDiff.PointerWithin | packages/eudiplo-config-format/src/config-values.ts:156-156 | a pointer lies within another as text exactly when its path extends the other |
| ConfigDiff.RootIsMissed | packages/eudiplo-config-format/src/config-values.ts:184-184 | in every other comparison of values that are not secret, reading the report by pointers misses the change of the root |
| ConfigDiff.SecretRootIsMissed | packages/eudiplo-config-format/src/config-values.ts:129-136 | a value secret as a whole is reported as "/", which covers the member with the empty key and nothing else |
| ConfigDiff.EntriesApart | packages/eudiplo-config-format/src/config-values.ts:127-185 | no two entries speak about the same part or one about a part of the other's |
| ConfigDiff.ReportedOnce | packages/eudiplo-config-format/src/config-values.ts:127-188 | no pointer is reported twice |
| ConfigDiff.EmptyReport | packages/eudiplo-config-format/src/config-values.ts:127-187 | the report is empty exactly when the values agree at every path up to empty containers, agree fully in sensitive parts, and no two objects at one path differ in an inherited name |
| ConfigDiff.SecretsDoNotInterfere | packages/eudiplo-config-format/src/config-values.ts:105-188 | pairs that agree outside sensitive parts, and on which of those exist and changed, give identical reports, also when whole parents are removed or change type |
| ConfigDiff.ReportedIsPublic | packages/eudiplo-config-format/src/config-values.ts:129-137 | a value or function in the report never lies in a sensitive part |
| ConfigDiff.SegmentsCover | packages/eudiplo-config-format/src/config-values.ts:142-169 | exactly the parts that either side has are compared |
| ConfigDiff.StableTextEquality | packages/eudiplo-config-format/src/config-values.ts:128-128 | comparing stable texts is comparing values |
| ConfigDiff.RootPointerIsAmbiguous | packages/eudiplo-config-format/src/config-values.ts:184-184 | two comparisons with different leaves that print the same report |
| ConfigFormat.IdentityInvertsUrl | packages/eudiplo-config-format/src/config-format.ts:180-215 | `resolveConfigIdentity` accepts exactly the URLs `schemaUrl` prints for supported versions, and returns their kind and version |
| ConfigFormat.MatchedUrl | packages/eudiplo-config-format/src/config-format.ts:200-203 | the URL expression matches exactly the texts of its shape, without leading zeros, with these groups |
| ConfigFormat.ConfigFormatsIsValid | packages/eudiplo-config-format/src/config-format.ts:3-44 | the table has distinct kinds with distinct alphabetic file names |
| ConfigFormat.FindKind | packages/eudiplo-config-format/src/config-format.ts:180-186 | the table lookup by kind finds the row of that kind whenever there is one |
| ConfigFormat.FindFile | packages/eudiplo-config-format/src/config-format.ts:204-206 | the table lookup by file name finds a row of that name whenever there is one |
| ConfigFormat.NormalizedIsCanonical | packages/eudiplo-config-format/src/config-format.ts:216-263 | what `normalizeDocument` returns has a supported kind and version, valid metadata and an id |
| ConfigFormat.NormalizeExactly | packages/eudiplo-config-format/src/config-format.ts:216-263 | `normalizeDocument` accepts exactly objects with the four envelope members, the URL of a supported version, a fitting kind, proper metadata and an id, and returns their document |
| ConfigFormat.MetadataExactly | packages/eudiplo-config-format/src/config-format.ts:227-250 | metadata is proper exactly when it has no other members, a generation that is a safe positive integer and an ownership that is one of the two words, possibly wrapped in arrays |
| ConfigFormat.ResourceIdExactly | packages/eudiplo-config-format/src/config-format.ts:78-88 | ids are fixed for four kinds; for the others the member `id`, or `clientId` for clients, if it is text that is not blank |
| ConfigFormat.RoundTrip | packages/eudiplo-config-format/src/config-format.ts:216-275 | normalising a normal document, as an object or serialised, gives it back |
| ConfigFormat.NormalizeIdempotent | packages/eudiplo-config-format/src/config-format.ts:216-275 | `normalizeDocument` is idempotent, and normalising a serialised document gives the original's normal form |
| Migration.MigrateDocument | packages/eudiplo-config-format/src/config-format.ts:279-325 | the loop computes the specified chain of steps with validation before and after each |
| Migration.MigrationAdvances | packages/eudiplo-config-format/src/config-format.ts:289-324 | the version grows by one per applied step, the steps are the unique registered ones, the target is reached exactly when nothing blocked (or the source was there already); there is a trail of documents from the normalised input, each what the next step made of the one before and validated with warnings only, ending in the returned document, and the issues are those found along it and by the blocked step |
| Migration.ChainReaches | packages/eudiplo-config-format/src/config-format.ts:298-323 | the same for the loop from any document and any record of earlier steps |
| Migration.ChainFollows | packages/eudiplo-config-format/src/config-format.ts:298-323 | the loop leaves such a trail from any document and any record of earlier steps |
| Migration.TrailCons | packages/eudiplo-config-format/src/config-format.ts:307-322 | one applied step put before a trail gives a trail, with its issues and those of validating its result in front |
| Migration.ChainThrough | packages/eudiplo-config-format/src/config-format.ts:298-323 | a chain to a later version passes through every intermediate version unless blocked before |
| Migration.ChainRecords | packages/eudiplo-config-format/src/config-format.ts:298-324 | earlier applied steps and warnings do not influence a chain, they are only carried along |
| Migration.MigrationComposes | packages/eudiplo-config-format/src/config-format.ts:279-325 | migrating in two stages gives the document, steps and issues of migrating directly, but for the repeated validation of the intermediate document |
| Migration.RegisteredSteps | packages/eudiplo-config-format/src/config-format.ts:148-179 | each registered step is the unique one for its kind and version |
| Migration.EveryStepRegistered | packages/eudiplo-config-format/src/config-format.ts:147-179 | a step is registered for every version of every kind below its latest |
| Migration.LatestIsReachable | packages/eudiplo-config-format/src/config-format.ts:279-325 | with the registered steps no document that can be normalised fails to migrate for lack of a step, and without a target it ends at the latest version of its kind exactly when all issues are warnings or it was there from the start |
| Migration.DropsOnlyProvidedAttestations | packages/eudiplo-config-format/src/config-format.ts:116-144 | after the v1-to-v2 step that one member is absent, the one warning is given exactly when it was there, nothing else changes, and a second run changes nothing |
| Migration.StepKeeps | packages/eudiplo-config-format/src/config-format.ts:148-179 | all other registered steps return the spec unchanged, without metadata and without issues |
| Migration.MigrationKeeps | packages/eudiplo-config-format/src/config-format.ts:279-325 | a migration with the registered steps changes nothing but the version, except that a presentation configuration that leaves version 1 loses that member |
| ZipDirectory.InspectCentralDirectory | packages/eudiplo-config-format/src/config-bundle.ts:185-266 | the backward search and the scan return the specified result; every path of an accepted archive leads from the root down its own segments |
| ZipDirectory.SafePathExactly | packages/eudiplo-config-format/src/config-bundle.ts:277-290 | safe paths are exactly those that, walked from the root with ".." going up, lead to their own segments, and have no drive letter, backslash or control character |
| ZipDirectory.AcceptedPathsStay | packages/eudiplo-config-format/src/config-bundle.ts:253-256 | so do all paths of an accepted archive |
| ZipDirectory.ScanLoop | packages/eudiplo-config-format/src/config-bundle.ts:219-265 | the loop over the entries, with its running offset, size and set of paths, equals the recursive scan |
| ZipDirectory.AcceptedIffDescribed | packages/eudiplo-config-format/src/config-bundle.ts:185-266 | an archive is accepted with given entries exactly when the directory at its last end record is their written form and they are acceptable |
| ZipDirectory.InspectDescribes | packages/eudiplo-config-format/src/config-bundle.ts:203-265 | the same once the end record is found |
| ZipDirectory.EndRecordUnique | packages/eudiplo-config-format/src/config-bundle.ts:188-199 | the highest end signature in the last 65,557 bytes is one place |
| ZipDirectory.ScanSound | packages/eudiplo-config-format/src/config-bundle.ts:219-265 | accepted entries, as many as announced, tile the directory byte for byte |
| ZipDirectory.ScanComplete | packages/eudiplo-config-format/src/config-bundle.ts:219-265 | the written form of acceptable entries is accepted and read back unchanged |
| ZipDirectory.AcceptableIsWholesome | packages/eudiplo-config-format/src/config-bundle.ts:229-260 | the entry-by-entry checks amount to: none encrypted, distinct safe names, at most 100 MiB in all |
| ZipDirectory.AcceptedDirectory | packages/eudiplo-config-format/src/config-bundle.ts:203-265 | acceptance implies those properties, at most 10,000 entries, and 46 bytes of directory per entry |
| ZipDirectory.WrittenIsAccepted | packages/eudiplo-config-format/src/config-bundle.ts:185-266 | an archive written by the specification writer (APPNOTE.TXT sections 4.3.12 and 4.3.16) from wholesome entries is accepted and its entries read back exactly when its end record is the one found, or the later one that is found describes the same entries |
| ZipDirectory.WrittenRecordIsFound | packages/eudiplo-config-format/src/config-bundle.ts:188-199 | the backward search finds the written end record exactly when no further signature lies between its size field and the end of its comment; comments of less than twelve bytes never matter |
| ZipDirectory.CommentHidesDirectory | packages/eudiplo-config-format/src/config-bundle.ts:188-217 | with a comment that is itself an empty end record every archive is accepted as an empty one |
| ZipDirectory.TooManyAreRefused | packages/eudiplo-config-format/src/config-bundle.ts:213-215 | an archive of more than 10,000 entries is refused whatever number its end record announces |
| ZipDirectory.WriteEntriesInjective | packages/eudiplo-config-format/src/config-bundle.ts:222-262 | the bytes of a directory determine its entries |
| ZipDirectory.WriteRead | packages/eudiplo-config-format/src/config-bundle.ts:229-255 | writing a header that was read gives its bytes |
| ZipDirectory.ReadWrite | packages/eudiplo-config-format/src/config-bundle.ts:229-255 | reading a header that was written gives its fields |
| Bytes.LE32 | packages/eudiplo-config-format/src/config-bundle.ts:195-195 | the little-endian 32-bit field reads back |
| Bytes.ReadBack32 | packages/eudiplo-config-format/src/config-bundle.ts:204-205 | four bytes are the field of the number they denote |
| Base64.DecodeEncode | packages/eudiplo-config-format/src/config-bundle.ts:155-158 | base64 text (RFC 4648 section 4) of any bytes passes the check of assets and decodes to the bytes |
| Base64.Alphabet | packages/eudiplo-config-format/src/config-bundle.ts:158-158 | the alphabet is that of RFC 4648 section 4 |
| ConfigBundle.AssertConfigBundle | packages/eudiplo-config-format/src/config-bundle.ts:325-376 | the validator accepts exactly the valid bundles |
| ConfigBundle.AssertBundleManifest | packages/eudiplo-config-format/src/config-bundle.ts:291-324 | it accepts exactly the valid manifests: identities agree with schemas, keys and paths are distinct, paths safe, checksums well formed |
| ConfigBundle.CheckResources | packages/eudiplo-config-format/src/config-bundle.ts:302-311 | the loop over identities |
| ConfigBundle.CheckResource | packages/eudiplo-config-format/src/config-bundle.ts:303-307 | one resource: an id, a known schema, and the kind of that schema |
| ConfigBundle.ValidResourceExactly | packages/eudiplo-config-format/src/config-bundle.ts:302-307 | it is accepted exactly with an id and the schema URL of a supported version of its kind |
| ConfigBundle.CheckEntries | packages/eudiplo-config-format/src/config-bundle.ts:312-323 | the loop over paths and checksums of resources and assets |
| ConfigBundle.ManifestPathsStay | packages/eudiplo-config-format/src/config-bundle.ts:311-325 | manifest entries are accepted exactly when their paths lead down from the root, their checksums are sixty-four hexadecimal digits, and all paths differ from each other and from manifest.json |
| ConfigBundle.CheckDocuments | packages/eudiplo-config-format/src/config-bundle.ts:337-354 | the loop over documents: distinct keys, an entry of the same version, the right checksum |
| ConfigBundle.ValidDocumentExactly | packages/eudiplo-config-format/src/config-bundle.ts:338-354 | a document is accepted exactly when the manifest lists its kind, id and version with the checksum of its compact text |
| ConfigBundle.CheckAssets | packages/eudiplo-config-format/src/config-bundle.ts:355-375 | the loop over assets: base64, distinct paths, an entry with the right checksum |
| ConfigBundle.FindDocument | packages/eudiplo-config-format/src/config-bundle.ts:71-77 | the lookup returns a document of the kind, version and id, or there is none |
| BundleCodec.EncodeBundle | packages/eudiplo-config-format/src/config-bundle.ts:64-102 | `encode` fails exactly on invalid bundles; otherwise it packs the manifest, every document and every asset under its own path |
| BundleCodec.PackResources | packages/eudiplo-config-format/src/config-bundle.ts:69-90 | after validation the missing-document and checksum failures are unreachable and no entry overwrites another |
| BundleCodec.PackAssets | packages/eudiplo-config-format/src/config-bundle.ts:91-100 | likewise for assets |
| BundleCodec.DocumentFor | packages/eudiplo-config-format/src/config-bundle.ts:71-88 | by counting distinct keys, every manifest resource has its document, with the right checksum |
| BundleCodec.AssetsMatch | packages/eudiplo-config-format/src/config-bundle.ts:330-375 | by counting distinct paths, the assets are those of the manifest |
| BundleCodec.DecodeBundle | packages/eudiplo-config-format/src/config-bundle.ts:104-179 | `decode` returns a bundle exactly when the archive decodes to it |
| BundleCodec.DecodedPathsStay | packages/eudiplo-config-format/src/config-bundle.ts:103-179 | every entry of a decoded archive, and every path in its bundle, leads down from the root |
| BundleCodec.DecodeEntries | packages/eudiplo-config-format/src/config-bundle.ts:133-178 | the part after the manifest is parsed, with the rehashing of resources and the check for unlisted entries |
| BundleCodec.ReadDocuments | packages/eudiplo-config-format/src/config-bundle.ts:134-147 | the documents are read in manifest order, or some resource is missing, altered or not JSON |
| BundleCodec.ReadAssets | packages/eudiplo-config-format/src/config-bundle.ts:148-160 | the assets are read in manifest order, or some asset is missing or altered |
| BundleCodec.ExpandedTotal | packages/eudiplo-config-format/src/config-bundle.ts:118-121 | the sum of the expanded sizes in whatever order |
| BundleRoundTrip.DecodeEncoded | packages/eudiplo-config-format/src/config-bundle.ts:64-179 | for every valid bundle, decoding its archive succeeds exactly when the archive is within the limits of 50 MiB, 100 MiB expanded and 10,000 entries, and returns the manifest, the documents in manifest order and the assets with the same bytes in canonical base64 |
| BundleRoundTrip.DecodedIsFixedPoint | packages/eudiplo-config-format/src/config-bundle.ts:64-179 | a decoded bundle can be encoded, and decoding that archive gives the same bundle exactly when it is within the limits |
| BundleRoundTrip.DecodedIsRestored | packages/eudiplo-config-format/src/config-bundle.ts:133-168 | what packed entries decode to is the bundle as an archive keeps it |
| BundleRoundTrip.RestoredIsValid | packages/eudiplo-config-format/src/config-bundle.ts:163-169 | the bundle an archive keeps passes validation again |
| BundleRoundTrip.DecodedIsStable | packages/eudiplo-config-format/src/config-bundle.ts:161-178 | what an archive keeps of a decoded bundle is that bundle |
| BundleRoundTrip.ZipIsAccepted | packages/eudiplo-config-format/src/config-bundle.ts:108-108 | the archive written for safe paths within the size budget passes the directory check exactly up to 10,000 entries |
| AtomicWrite.CrashLeavesOldOrNew | packages/eudiplo-config-format/src/config-io.ts:14-61 | for any number of interleaved calls, faults at every step and a crash at any moment, a destination durably holds what it could have held before or the complete data of a call that reached its rename |
| AtomicWrite.ReadersSeeOldOrNew | packages/eudiplo-config-format/src/config-io.ts:14-14 | the running system only sees the complete old or complete new contents |
| AtomicWrite.NormalReturn | packages/eudiplo-config-format/src/config-io.ts:24-37 | a call that returns normally has renamed its file and left no temporary file, in every interleaving |
| AtomicWrite.NextKeeps | packages/eudiplo-config-format/src/config-io.ts:24-37 | every operation of every call keeps the invariant of files, handles and names |
| AtomicWrite.StopsAreSafe | packages/eudiplo-config-format/src/config-io.ts:14-37 | after any operation of one call a crash leaves the complete old or complete new contents |
| AtomicWrite.CallOutcome | packages/eudiplo-config-format/src/config-io.ts:24-37 | for every combination of faults: whether the call throws, which contents the destination has, whether the temporary file stays, and that nothing else changed |
| AtomicWrite.FailureKeepsOld | packages/eudiplo-config-format/src/config-io.ts:14-14 | a failed call leaves the destination as it was except exactly when only the final removal reported an error |
| AtomicWrite.CrashAfterReturn | packages/eudiplo-config-format/src/config-io.ts:26-30 | after a normal return a crash leaves the new contents or anything it could have left before |
| AtomicWrite.TakenNameIsRemoved | packages/eudiplo-config-format/src/config-io.ts:25-36 | if the temporary name is taken the call fails and its clean-up removes the file it did not create |
| AtomicWrite.TrailIsReached | packages/eudiplo-config-format/src/config-io.ts:24-37 | every disk a single call goes through is reached by a run of the step machine |
| AtomicWrite.FileSystem.AtomicWriteFile | packages/eudiplo-config-format/src/config-io.ts:15-61 | the code, with its handle variable and `finally` block, ends as the step protocol does by way of the same disks, and a normal return means complete new contents and no temporary file; the asynchronous and the synchronous form perform the same operations |
| AtomicWrite.FileSystem.TryWrite | packages/eudiplo-config-format/src/config-io.ts:24-30 | the `try` block follows the protocol and leaves the handle defined exactly when it must be closed again |
| SessionEvents.StreamIsFaithful | apps/backend/src/session/session-events.service.ts:60-158 | in every run, whatever the store commits: at most three statuses, active before fetched before one of completed, failed, expired and cancelled, each committed or announced for the session after its deletion; such an end closes the stream, and nothing else does but deletion; failure reasons are code and reason of a recorded failure, and a failed message carries one whenever its read found the session failed |
| SessionEvents.StreamIsSubsequence | apps/backend/src/session/session-events.service.ts:60-71 | against a store that never moves back the statuses are a subsequence of its history |
| SessionEvents.PollDelivers | apps/backend/src/session/session-events.service.ts:118-135 | a successful poll on an open stream gives the status it saw unless one of that rank was given, and so at least the rank of the last commit before it was started |
| SessionEvents.EventDelivers | apps/backend/src/session/session-events.service.ts:109-135 | likewise an in-process event |
| SessionEvents.PollDeliversTerminal | apps/backend/src/session/session-events.service.ts:118-136 | once a store that keeps its terminal status is terminal, the first successful poll started afterwards ends a still-open stream with that status |
| SessionEvents.MissCloses | apps/backend/src/session/session-events.service.ts:164-185 | a poll that finds the session gone completes an open stream without a further status |
| SessionEvents.RisingIsShort | apps/backend/src/session/session-events.service.ts:64-75 | statuses of rising rank are at most three with no terminal one before the last |
| SessionEvents.NextKeeps | apps/backend/src/session/session-events.service.ts:101-204 | every step of store, events, polls and delivery keeps the invariant |
| SessionEvents.Subscription.OnSnapshot | apps/backend/src/session/session-events.service.ts:124-136 | the pipeline of takeWhile, filter and takeWhile on one snapshot |
| SessionEvents.Subscription.OnEvent | apps/backend/src/session/session-events.service.ts:109-117 | events of other sessions change nothing |
| SessionEvents.Subscription.OnPoll | apps/backend/src/session/session-events.service.ts:164-185 | a found session is a snapshot with its reason, a missing one ends the stream, a failed read is skipped |
| SessionEvents.Subscription.SendNext | apps/backend/src/session/session-events.service.ts:139-155 | a failed status without reason is completed by a read if that succeeds, and is sent in any case |
| SessionEvents.OverwrittenTerminal | apps/backend/src/session/application/change-session-state.ts:18-28 | whenever a terminal commit is followed by a different one, there is a run in which the client was told the first and never hears of the second |
| SessionEvents.CurrentExactlyWhenSteadfast | apps/backend/src/session/application/change-session-state.ts:18-49 | for every history: in all runs the terminal status delivered is, at every moment, the status of the session exactly when no terminal commit is followed by a different one |
| FederationTrust.TrustIsProduced | apps/backend/src/trust/federation-trust.service.ts:131-254 | in every run, unless one of the anchors names the entity, a returned "trusted" is what the evaluator answered to an evaluation of the same entity and anchors: from the cache, within its storing caller's lifetime of at least five seconds; from an evaluation, exactly its own answer; and only if the evaluator threw, what the cache held when it began, at most an hour old |
| FederationTrust.AnchorExactly | apps/backend/src/trust/federation-trust.service.ts:171-184 | an entity counts as an anchor only if an anchor is spelled like it or with a slash added, and always then if it has no slash at its end |
| FederationTrust.AnchorsAreNotFetched | apps/backend/src/trust/federation-trust.service.ts:171-184 | such an entity is trusted and the evaluator is never asked about it |
| FederationTrust.ReturnsAreExplained | apps/backend/src/trust/federation-trust.service.ts:131-254 | the same for every returned value: a cache hit within its lifetime or a negative entry of under ten seconds; an evaluation's own answer; after a throw exactly what the cache held when the evaluation began if that was fetched at most an hour before, else the negative result |
| FederationTrust.StaleIsExplained | apps/backend/src/trust/federation-trust.service.ts:198-209 | the stale value of a failed refresh was produced at most an hour before the evaluation began, or is itself the negative result |
| FederationTrust.JoinersAgree | apps/backend/src/trust/federation-trust.service.ts:160-166 | all callers served by one evaluation get the same result |
| FederationTrust.ResultIsCached | apps/backend/src/trust/federation-trust.service.ts:149-220 | without a clear, an answer is a hit for every call until its lifetime ends, and a failure for ten seconds, in every run, so no call starts another evaluation before; the one exception is a failure for which a stale value was served |
| FederationTrust.AnchorIsCached | apps/backend/src/trust/federation-trust.service.ts:172-184 | so is the answer for a trust anchor |
| FederationTrust.SingleFlight | apps/backend/src/trust/federation-trust.service.ts:146-230 | when clears happen only while no evaluation of the key is in flight, at most one runs in any interleaving, whatever happens to other keys, and a `finally` removes only its own entry |
| FederationTrust.ClearIsSafeExactlyWhenIdle | apps/backend/src/trust/federation-trust.service.ts:35-38 | after a clear every continuation runs at most one evaluation of a key at a time exactly when none of that key was in flight (or the key is an anchor, which is never fetched) |
| FederationTrust.ClearWhileRunning | apps/backend/src/trust/federation-trust.service.ts:35-38 | cleared while an evaluation runs, the next call starts a second one beside it |
| FederationTrust.ClearBeforeResume | apps/backend/src/trust/federation-trust.service.ts:225-229 | cleared before the first caller resumes, its `finally` removes the entry of the next evaluation and a third starts beside that |
| FederationTrust.NextKeeps | apps/backend/src/trust/federation-trust.service.ts:131-254 | every step keeps cache, flights and returned values backed by productions |
| FederationTrust.FederationTrustService.EvaluateEntityTrust | apps/backend/src/trust/federation-trust.service.ts:146-223 | the synchronous part: a fresh entry, an evaluation to join, or a new evaluation with what was cached |
| FederationTrust.FederationTrustService.OnChainResult | apps/backend/src/trust/federation-trust.service.ts:188-220 | success is cached; failure serves a stale value of at most an hour or caches a negative result for ten seconds |
| FederationTrust.FederationTrustService.Resume | apps/backend/src/trust/federation-trust.service.ts:225-229 | the `finally` removes the key |
| FederationTrust.FederationTrustService.ClearTrustCache | apps/backend/src/trust/federation-trust.service.ts:35-38 | both maps are emptied |
| RegistrationCertificate.ValidateRegistrationCertificate | apps/backend/src/registrar/registration-certificate.service.ts:410-512 | accepts exactly the decodable certificates that are in date within 60 s of skew and, unless the check is skipped, have for every requested credential an authorised one of equal format, claim paths and meta; each error says which condition failed first, and overasking lists the offending credentials in order |
| RegistrationCertificate.FingerprintDecides | apps/backend/src/registrar/registration-certificate.service.ts:523-565 | two credentials have the same fingerprint exactly when their normalised definitions are equal, for any key order |
| RegistrationCertificate.DefinitionPrefix | apps/backend/src/registrar/registration-certificate.service.ts:523-565 | a fingerprint is self-delimiting, also where a member prints as "undefined" |
| RegistrationCertificate.LookupIsCover | apps/backend/src/registrar/registration-certificate.service.ts:477-489 | looking a fingerprint up among the authorised ones is looking for an equal definition |
| RegistrationCertificate.Normal | apps/backend/src/registrar/registration-certificate.service.ts:523-545 | normalising an entry gives a definition; only values that are no objects stay as they are |
| RegistrationCertificate.AcceptanceIsMonotone | apps/backend/src/registrar/registration-certificate.service.ts:449-509 | asking for less or being authorised for more never turns an acceptable certificate down |
| RegistrationCertificate.AcceptedAsksNothingMore | apps/backend/src/registrar/registration-certificate.service.ts:477-509 | for an accepted credential the certificate lists one with the same format and meta and as many claims, with the same paths one by one |
| RegistrationCertificate.AcceptableExactly | apps/backend/src/registrar/registration-certificate.service.ts:428-509 | a certificate is acceptable exactly when it is in date within 60 s and, unless the check is skipped, lists for each requested credential one that says the same |
| RegistrationCertificate.NormalExactly | apps/backend/src/registrar/registration-certificate.service.ts:523-545 | two entries have the same definition exactly when they agree in format, in the paths of `claims` (or `claim`) one by one, and in meta, where anything but an object or array reads as {} |
| RegistrationCertificate.FewerClaimsAreRefused | apps/backend/src/registrar/registration-certificate.service.ts:483-509 | a query for fewer claims than the only authorised credential lists is refused |
| RegistrationCertificate.DerivedKeepsDefinition | apps/backend/src/registrar/registration-certificate.service.ts:183-195 | the credential sent to the registrar for a requested one has the same definition exactly when the latter is an object and does not use `claim` in place of `claims` |
| RegistrationCertificate.IssuedForTheQuery | apps/backend/src/registrar/registration-certificate.service.ts:183-195 | a certificate issued for a query's derived credentials authorises that query |
| RegistrationCertificate.SortTexts | apps/backend/src/registrar/registration-certificate.service.ts:364-366 | sorting keeps the texts with their multiplicities and puts them in non-descending order |
| RegistrationCertificate.JoinInjective | apps/backend/src/registrar/registration-certificate.service.ts:367-367 | joining fingerprints with a bar is unambiguous although strings in them may hold bars |
| RegistrationCertificate.QueryTextDecides | apps/backend/src/registrar/registration-certificate.service.ts:360-382 | under one total order, two lists of credentials have the same text to hash exactly when they hold the same definitions equally often |
| AuditLog.AuditLogService.PruneByMaxEntries | apps/backend/src/audit-log/audit-log.service.ts:99-138 | after the loop over the tenants exactly those entries remain that at most N entries of their tenant match in newness when read back; the total is the number deleted |
| AuditLog.AuditLogService.PruneTenant | apps/backend/src/audit-log/audit-log.service.ts:107-129 | one round prunes one tenant and touches no other |
| AuditLog.AuditLogService.FindAtOffset | apps/backend/src/audit-log/audit-log.service.ts:114-120 | the entry found is one that stands at offset N of the list by descending time |
| AuditLog.AuditLogService.DeleteUpTo | apps/backend/src/audit-log/audit-log.service.ts:122-129 | the deletion removes the tenant's entries up to the given time and nothing else |
| AuditLog.AuditLogService.PruneOldLogs | apps/backend/src/audit-log/audit-log.service.ts:73-97 | the job keeps exactly the entries young enough and within the limit, each condition only where it is enabled |
| AuditLog.OffsetOfList | apps/backend/src/audit-log/audit-log.service.ts:114-119 | wherever ties are put, the entry at offset N has at most N newer entries and more than N at least as new |
| AuditLog.CutoffIsPruning | apps/backend/src/audit-log/audit-log.service.ts:113-128 | deleting what is not newer than the stamp of that entry, read back in milliseconds, keeps exactly what pruning keeps |
| AuditLog.KeptEntries | apps/backend/src/audit-log/audit-log.service.ts:113-129 | a tenant over the limit keeps the entries newer than its (N+1)-th newest stamp as read back |
| AuditLog.AtMostLimit | apps/backend/src/audit-log/audit-log.service.ts:66-68 | a tenant ends up within N exactly when the stamp at the limit is one of whole milliseconds |
| AuditLog.SurplusIsOneMillisecond | apps/backend/src/audit-log/audit-log.service.ts:113-128 | beyond N only entries of the very millisecond at the limit stay |
| AuditLog.KeepsTheNewest | apps/backend/src/audit-log/audit-log.service.ts:66-68 | the newest N stay, all of them and no others, exactly when the stamp at the limit is one of whole milliseconds and no tie lies across the limit |
| AuditLog.TiesGoTogether | apps/backend/src/audit-log/audit-log.service.ts:122-128 | a tenant whose too many entries share one time loses all of them, or none if that time has a fraction of a millisecond |
| AuditLog.BothNewestAreLost | apps/backend/src/audit-log/audit-log.service.ts:122-128 | two entries of one moment under a limit of one: none is kept |
| AuditLog.BothEntriesStay | apps/backend/src/audit-log/audit-log.service.ts:122-128 | two entries a microsecond apart under a limit of one: both are kept |
| AuditLog.WithinLimitUntouched | apps/backend/src/audit-log/audit-log.service.ts:108-111 | a tenant within the limit keeps everything |
| AuditLog.PruningTwice | apps/backend/src/audit-log/audit-log.service.ts:99-138 | a second run deletes nothing |
| AuditLog.OldestGoFirst | apps/backend/src/audit-log/audit-log.service.ts:122-128 | no entry goes while one as old or older of its tenant stays |
| AuditLog.LimitsAreIndependent | apps/backend/src/audit-log/audit-log.service.ts:83-96 | deleting by age first does not change which remaining entries the limit keeps |

## Left out

- SHA-256, DEFLATE and the local file records of ZIP, UTF-8, `JSON.parse`, JWT signatures and X.509: library code, function parameters here; the writer and reader of the central directory are modelled byte by byte.
- Schema validation: the validator of the migration engine is any function; `MigrationComposes` asks that it rejects what cannot be normalised again, as the schemas do.
- Numbers: JSON numbers are integers, and `exp` and `nbf` are too; printing of fractions and exponents is library code.
- JavaScript oddities: `__proto__` keys, additions to `Object.prototype` (of which the functions of the language are modelled), sparse arrays, lone surrogates, NaN, and the locale rules of `localeCompare`, which is any order of the keys that lists each once (for whole lists, any total order); that it puts "claims" before "format" before "meta" is taken for granted.
- BundleRoundTrip.DecodeEncoded: assumes that every path has a name of less than 64 KiB, which is all a ZIP name field holds, and of the library that it writes plain ZIP files up to the size limits and reads back what it writes.
- ConfigBundle.AssertConfigBundle: says whether a bundle is accepted, not which error is reported first; the same holds of the other validators and of the error cases of `encode` and `decode`.
- Shape checks of a parsed manifest (arrays, strings): part of parsing it; the key "kind/id" is a pair, so ids containing slashes cannot collide with kinds, which contain none.
- VariableGraph.ResolveConfigVariables: objects have explicit identities in a finite graph instead of being heap objects, because the source's objects are untyped; property attributes and `Uint8Array` values, which are passed through, are not distinguished from other atoms, and the depth of the call stack is not modelled.
- ConfigDiff.ReportPatches: speaks about leaves by internal path, because printed pointers can be ambiguous at the root; PointersPatch restates it by pointer, and empty containers are covered by EmptyReport.
- RxJS and timers: the stream pipeline is one step per snapshot, at most one poll in flight, ticks at any time; `updatedAt`, serialisation of messages and unsubscribing are not modelled.
- FederationTrust.TrustIsProduced: covers enabled federation with trust anchors; the constant answers for disabled modes and the extraction of an entity id from a certificate are not modelled.
- AtomicWrite.FileSystem.AtomicWriteFile: one method stands for both source functions; a write is one step with an arbitrary partial result, and renames are atomic, as POSIX promises.
- RegistrationCertificate.QueryTextDecides: stated for the text before hashing and for one order at a time, because `computeDcqlFingerprint` and `computeAuthorizedCredentialsFingerprint` sort differently.
- Registrar calls, certificate lookup by id and revocation: plumbing around the modelled check.
- AuditLog.AuditLogService.PruneByMaxEntries: no entries are recorded while the job runs; stamps are microseconds, of which a coarser database uses only some; day arithmetic across daylight-saving changes is part of the retention cutoff, a parameter.
- HTTP, NestJS wiring, TypeORM, KMS, S3, the Angular client, the CLI and the documentation site.
