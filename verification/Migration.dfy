/** migrateDocument: the chain of migration steps, with validation before and after every step. */
module Migration {
  import opened Wrappers
  import opened Json
  import opened ConfigFormat

  datatype Severity = Warning | RequiredInput | Failure

  datatype Issue = Issue(severity: Severity, code: string, path: string)

  datatype StepResult = StepResult(spec: Members, metadata: Option<Members>, issues: seq<Issue>)

  datatype Step = Step(id: string, kind: string, from: nat, to: nat, migrate: (Members, Members) -> StepResult)

  type Registry = seq<Step>

  type Validator = Document -> seq<Issue>

  datatype Outcome = Outcome(document: Document, migrations: seq<string>, issues: seq<Issue>)

  predicate Blocking(issues: seq<Issue>) {
    exists i :: 0 <= i < |issues| && issues[i].severity != Warning
  }

  /** The step alone, if it is for this version of this kind. */
  function Matching(step: Step, kind: string, version: nat): seq<Step> {
    if step.kind == kind && step.from == version then [step] else []
  }

  /** The steps registered for one version of one kind. */
  function Candidates(registry: Registry, kind: string, version: nat): seq<Step> {
    if registry == [] then [] else Matching(registry[0], kind, version) + Candidates(registry[1..], kind, version)
  }

  /** The one step from `version` to the next version, if there is exactly one and it goes there. */
  function UniqueStep(registry: Registry, kind: string, version: nat): Option<Step> {
    var candidates := Candidates(registry, kind, version);
    if |candidates| == 1 && candidates[0].to == version + 1 then Some(candidates[0]) else None
  }

  function Migrated(document: Document, step: Step): Document {
    var result := step.migrate(document.spec, document.metadata);
    Document(document.kind, step.to, match result.metadata case Some(m) => m case None => document.metadata,
             result.spec)
  }

  // ---- The chain as a function ----------------------------------------------------------

  /** The loop of migrateDocument from a document that has been validated. */
  function Chain(document: Document, target: nat, validate: Validator, registry: Registry,
                 migrations: seq<string>, issues: seq<Issue>): Result<Outcome, Error>
    decreases target - document.version
  {
    if document.version >= target then Ok(Outcome(document, migrations, issues))
    else
      match UniqueStep(registry, document.kind, document.version)
      case None => Err(NoUniqueMigration(document.version))
      case Some(step) =>
        var during := issues + step.migrate(document.spec, document.metadata).issues;
        if Blocking(during) then Ok(Outcome(document, migrations, during))
        else
          var candidate := Migrated(document, step);
          var after := during + validate(candidate);
          if Blocking(after) then Ok(Outcome(document, migrations, after))
          else Chain(candidate, target, validate, registry, migrations + [step.id], after)
  }

  /** The requested version, or the latest one of the kind. */
  function Goal(t: Table, document: Document, target: Option<int>): int {
    match target
    case Some(n) => n
    case None => match FindKind(t, document.kind) case Some(f) => f.version case None => 0
  }

  /** What migrateDocument computes. */
  function Migrate(t: Table, input: Value, validate: Validator, registry: Registry,
                   target: Option<int>): Result<Outcome, Error> {
    var document :- Normalize(t, input);
    var goal := Goal(t, document, target);
    if !(-MAX_SAFE_INTEGER <= goal <= MAX_SAFE_INTEGER) || goal < document.version then Err(Downgrade)
    else
      var issues := validate(document);
      if Blocking(issues) then Ok(Outcome(document, [], issues))
      else Chain(document, goal, validate, registry, [], issues)
  }

  lemma BlockingAppend(a: seq<Issue>, b: seq<Issue>)
    ensures Blocking(a + b) <==> Blocking(a) || Blocking(b)
  {
    if Blocking(a) {
      var i :| 0 <= i < |a| && a[i].severity != Warning;
      assert (a + b)[i] == a[i];
    }
    if Blocking(b) {
      var i :| 0 <= i < |b| && b[i].severity != Warning;
      assert (a + b)[|a| + i] == b[i];
    }
  }

  // ---- The method -----------------------------------------------------------------------

  method MigrateDocument(t: Table, input: Value, validate: Validator, registry: Registry, targetVersion: Option<int>)
    returns (r: Result<Outcome, Error>)
    ensures r == Migrate(t, input, validate, registry, targetVersion)
  {
    var normalized := Normalize(t, input);
    if normalized.Err? {
      return Err(normalized.error);
    }
    var document := normalized.value;
    var latest := match FindKind(t, document.kind) case Some(f) => f.version case None => 0;
    var target := match targetVersion case Some(n) => n case None => latest;
    if !(-MAX_SAFE_INTEGER <= target <= MAX_SAFE_INTEGER) || target < document.version {
      return Err(Downgrade);
    }
    var issues := validate(document);
    var applied: seq<string> := [];
    if Blocking(issues) {
      return Ok(Outcome(document, applied, issues));
    }
    ghost var all := Chain(document, target, validate, registry, [], issues);
    var version := document.version;
    while version < target
      invariant version == document.version <= target && !Blocking(issues)
      invariant Chain(document, target, validate, registry, applied, issues) == all
    {
      var candidates := Candidates(registry, document.kind, version);
      if |candidates| != 1 || candidates[0].to != version + 1 {
        return Err(NoUniqueMigration(version));
      }
      var step := candidates[0];
      var result := step.migrate(document.spec, document.metadata);
      issues := issues + result.issues;
      if Blocking(issues) {
        break;
      }
      var candidate := Document(document.kind, step.to,
                                match result.metadata case Some(m) => m case None => document.metadata, result.spec);
      issues := issues + validate(candidate);
      if Blocking(issues) {
        break;
      }
      document := candidate;
      applied := applied + [step.id];
      version := version + 1;
    }
    return Ok(Outcome(document, applied, issues));
  }

  // ---- What the chain guarantees --------------------------------------------------------

  predicate StepIs(registry: Registry, kind: string, version: nat, id: string) {
    var step := UniqueStep(registry, kind, version);
    step.Some? && step.value.id == id
  }

  /** `ids` are the unique registered steps of `kind` from `version` on. */
  ghost predicate StepsFrom(registry: Registry, kind: string, version: nat, ids: seq<string>) {
    forall i :: 0 <= i < |ids| ==> StepIs(registry, kind, version + i, ids[i])
  }

  lemma StepsCons(registry: Registry, kind: string, version: nat, ids: seq<string>)
    requires ids != [] && StepsFrom(registry, kind, version + 1, ids[1..])
    requires StepIs(registry, kind, version, ids[0])
    ensures StepsFrom(registry, kind, version, ids)
  {
    hide StepIs;
    forall i | 0 <= i < |ids|
      ensures StepIs(registry, kind, version + i, ids[i])
    {
      if i > 0 {
        assert ids[1..][i - 1] == ids[i];
        assert StepIs(registry, kind, version + 1 + (i - 1), ids[1..][i - 1]);
      }
    }
  }

  /** The outcome of a chain that starts with nothing applied. */
  ghost predicate Reached(start: Document, target: nat, validate: Validator, registry: Registry, done: seq<string>,
                          out: Outcome) {
    && done <= out.migrations
    && out.document.kind == start.kind
    && out.document.version == start.version + |out.migrations| - |done| <= target
    && StepsFrom(registry, start.kind, start.version, out.migrations[|done|..])
    && (out.document.version == target <==> !Blocking(out.issues))
    && (out.migrations == done ==> out.document == start)
    && (out.migrations != done ==> !Blocking(validate(out.document)))
  }

  lemma {:induction false} ChainReaches(start: Document, target: nat, validate: Validator, registry: Registry,
                                       done: seq<string>, issues: seq<Issue>)
    requires start.version <= target && !Blocking(issues)
    requires Chain(start, target, validate, registry, done, issues).Ok?
    ensures var out := Chain(start, target, validate, registry, done, issues).value;
      Reached(start, target, validate, registry, done, out)
    decreases target - start.version
  {
    hide UniqueStep, Blocking;
    var out := Chain(start, target, validate, registry, done, issues).value;
    if start.version < target {
      var step := UniqueStep(registry, start.kind, start.version).value;
      var during := issues + step.migrate(start.spec, start.metadata).issues;
      var candidate := Migrated(start, step);
      var after := during + validate(candidate);
      if !Blocking(during) && !Blocking(after) {
        StepTarget(registry, start.kind, start.version);
        ChainReaches(candidate, target, validate, registry, done + [step.id], after);
        BlockingAppend(during, validate(candidate));
        assert out.migrations[|done|] == step.id;
        assert out.migrations[|done|..][1..] == out.migrations[|done| + 1..];
        StepsCons(registry, start.kind, start.version, out.migrations[|done|..]);
      }
    }
  }

  lemma StepTarget(registry: Registry, kind: string, version: nat)
    requires UniqueStep(registry, kind, version).Some?
    ensures UniqueStep(registry, kind, version).value.to == version + 1
  {
  }

  /** What the one registered step for the version of `d` makes of it. */
  function StepResultOf(registry: Registry, d: Document): Option<StepResult> {
    match UniqueStep(registry, d.kind, d.version)
    case None => None
    case Some(step) => Some(step.migrate(d.spec, d.metadata))
  }

  /** `after` is `before` with the spec, and if there is one the metadata, that the step named `id` returned. */
  predicate StepTakes(registry: Registry, before: Document, after: Document, id: string) {
    && StepIs(registry, before.kind, before.version, id)
    && var r := StepResultOf(registry, before).value;
       && after.kind == before.kind && after.version == before.version + 1
       && after.spec == r.spec
       && after.metadata == if r.metadata.Some? then r.metadata.value else before.metadata
  }

  function FoundIn(registry: Registry, d: Document): seq<Issue> {
    match StepResultOf(registry, d)
    case None => []
    case Some(r) => r.issues
  }

  /** The issues along a trail of documents: those of each step, then those of validating its result. */
  function IssuesAlong(registry: Registry, validate: Validator, trail: seq<Document>): seq<Issue> {
    if |trail| <= 1 then []
    else FoundIn(registry, trail[0]) + validate(trail[1]) + IssuesAlong(registry, validate, trail[1..])
  }

  /** Why a migration ends at `d`: it is at the target, or the next step or the validation of its result blocks. */
  ghost predicate EndsAt(registry: Registry, validate: Validator, d: Document, target: int, last: seq<Issue>) {
    if d.version >= target then last == []
    else
      && Blocking(last)
      && exists next, id :: StepTakes(registry, d, next, id) && BlockedBy(registry, validate, d, next) == last
  }

  function BlockedBy(registry: Registry, validate: Validator, d: Document, next: Document): seq<Issue> {
    FoundIn(registry, d) + if Blocking(FoundIn(registry, d)) then [] else validate(next)
  }

  /** The documents from `start` to the outcome, each the result of the next applied step, and the issues on the way. */
  ghost predicate IsTrail(trail: seq<Document>, start: Document, target: int, validate: Validator, registry: Registry,
                          done: seq<string>, issues: seq<Issue>, out: Outcome)
  {
    && done <= out.migrations && |trail| == |out.migrations| - |done| + 1
    && trail[0] == start && trail[|trail| - 1] == out.document
    && (forall k :: 0 <= k < |trail| - 1 ==> StepTakes(registry, trail[k], trail[k + 1], out.migrations[|done| + k]))
    && (forall k :: 0 < k < |trail| ==> !Blocking(validate(trail[k])))
    && var known := issues + IssuesAlong(registry, validate, trail);
       exists last :: EndsAt(registry, validate, out.document, target, last) && out.issues == known + last
  }

  lemma TrailCons(trail: seq<Document>, start: Document, next: Document, target: int, validate: Validator,
                  registry: Registry, done: seq<string>, id: string, issues: seq<Issue>, out: Outcome)
    requires StepTakes(registry, start, next, id) && !Blocking(validate(next))
    requires var so := issues + FoundIn(registry, start) + validate(next);
      IsTrail(trail, next, target, validate, registry, done + [id], so, out)
    ensures IsTrail([start] + trail, start, target, validate, registry, done, issues, out)
  {
    hide StepTakes, Blocking, FoundIn, EndsAt;
    var whole, first := [start] + trail, FoundIn(registry, start) + validate(next);
    assert whole[1..] == trail && out.migrations[|done|] == id;
    forall k | 0 <= k < |whole| - 1
      ensures StepTakes(registry, whole[k], whole[k + 1], out.migrations[|done| + k])
    {
      if k > 0 {
        assert StepTakes(registry, trail[k - 1], trail[k], out.migrations[|done| + 1 + (k - 1)]);
      }
    }
    var rest := IssuesAlong(registry, validate, trail);
    var last :| EndsAt(registry, validate, out.document, target, last)
             && out.issues == issues + FoundIn(registry, start) + validate(next) + rest + last;
    assert out.issues == issues + IssuesAlong(registry, validate, whole) + last;
  }

  lemma {:induction false} ChainFollows(start: Document, target: nat, validate: Validator, registry: Registry,
                                       done: seq<string>, issues: seq<Issue>) returns (trail: seq<Document>)
    requires start.version <= target && !Blocking(issues)
    requires Chain(start, target, validate, registry, done, issues).Ok?
    ensures var out := Chain(start, target, validate, registry, done, issues).value;
      IsTrail(trail, start, target, validate, registry, done, issues, out)
    decreases target - start.version
  {
    hide UniqueStep, Blocking, EndsAt;
    var out := Chain(start, target, validate, registry, done, issues).value;
    trail := [start];
    if start.version == target {
      assert EndsAt(registry, validate, start, target, []) by {
        AtTarget(registry, validate, start, target);
      }
      assert out.issues == issues + IssuesAlong(registry, validate, trail) + [];
    } else {
      var step := UniqueStep(registry, start.kind, start.version).value;
      StepTarget(registry, start.kind, start.version);
      var found, next := FoundIn(registry, start), Migrated(start, step);
      BlockingAppend(issues, found);
      BlockingAppend(issues + found, validate(next));
      assert StepTakes(registry, start, next, step.id);
      if Blocking(issues + found) || Blocking(issues + found + validate(next)) {
        var last := BlockedBy(registry, validate, start, next);
        assert EndsAt(registry, validate, start, target, last) by {
          BlockedHere(registry, validate, start, next, step.id, target);
        }
        assert out.issues == issues + IssuesAlong(registry, validate, trail) + last;
      } else {
        var rest := ChainFollows(next, target, validate, registry, done + [step.id], issues + found + validate(next));
        TrailCons(rest, start, next, target, validate, registry, done, step.id, issues, out);
        trail := [start] + rest;
      }
    }
  }

  lemma AtTarget(registry: Registry, validate: Validator, d: Document, target: int)
    requires d.version >= target
    ensures EndsAt(registry, validate, d, target, [])
  {
  }

  lemma BlockedHere(registry: Registry, validate: Validator, d: Document, next: Document, id: string, target: int)
    requires d.version < target && StepTakes(registry, d, next, id)
    requires Blocking(FoundIn(registry, d)) || Blocking(validate(next))
    ensures EndsAt(registry, validate, d, target, BlockedBy(registry, validate, d, next))
  {
    BlockingAppend(FoundIn(registry, d), validate(next));
    assert FoundIn(registry, d) + [] == FoundIn(registry, d);
  }

  /**
   * migrateDocument advances one version per applied step, by the unique registered steps. It ends at
   * the target exactly when nothing blocked it (or it had nowhere to go). The returned document is what
   * the applied steps made of the normalised input, each result validated with warnings only; the issues
   * are those of every validation and step along that trail and, last, of the step that was blocked.
   */
  lemma MigrationAdvances(t: Table, input: Value, validate: Validator, registry: Registry, target: Option<int>,
                          start: Document, out: Outcome) returns (trail: seq<Document>)
    requires Normalize(t, input) == Ok(start)
    requires Migrate(t, input, validate, registry, target) == Ok(out)
    ensures out.document.kind == start.kind
    ensures out.document.version == start.version + |out.migrations| <= Goal(t, start, target)
    ensures out.document.version == Goal(t, start, target) <==>
      !Blocking(out.issues) || start.version == Goal(t, start, target)
    ensures StepsFrom(registry, start.kind, start.version, out.migrations)
    ensures Blocking(validate(start)) ==> out == Outcome(start, [], validate(start))
    ensures !Blocking(validate(start)) ==>
      IsTrail(trail, start, Goal(t, start, target), validate, registry, [], validate(start), out)
    ensures out.migrations == [] ==> out.document == start
    ensures out.migrations != [] ==> !Blocking(validate(out.document))
  {
    hide Normalize, Blocking, UniqueStep, Chain, IsTrail;
    trail := [start];
    if !Blocking(validate(start)) {
      ChainReaches(start, Goal(t, start, target), validate, registry, [], validate(start));
      assert out.migrations[0..] == out.migrations;
      trail := ChainFollows(start, Goal(t, start, target), validate, registry, [], validate(start));
    }
  }

  // ---- Migrating in two stages ----------------------------------------------------------

  /** Only the applied steps and the issues of a chain depend on what came before. */
  ghost predicate Continues(direct: Result<Outcome, Error>, first: Outcome, second: Result<Outcome, Error>,
                            repeated: nat) {
    match (direct, second)
    case (Err(e), Err(f)) => e == f
    case (Ok(d), Ok(s)) =>
      && d.document == s.document
      && d.migrations == first.migrations + s.migrations
      && repeated <= |s.issues| && d.issues == first.issues + s.issues[repeated..]
    case _ => false
  }

  /** A chain started with other records behaves the same. */
  lemma {:induction false} ChainRecords(start: Document, target: nat, validate: Validator, registry: Registry,
                                       done: seq<string>, issues: seq<Issue>, own: seq<string>, repeated: seq<Issue>,
                                       since: seq<Issue>)
    requires !Blocking(issues) && !Blocking(repeated) && !Blocking(since)
    ensures var first := Outcome(start, done, issues);
      Continues(Chain(start, target, validate, registry, done + own, issues + since), first,
                Chain(start, target, validate, registry, own, repeated + since), |repeated|)
    decreases target - start.version
  {
    if start.version >= target {
      assert (repeated + since)[|repeated|..] == since;
    } else if UniqueStep(registry, start.kind, start.version).Some? {
      hide UniqueStep, Blocking;
      var step := UniqueStep(registry, start.kind, start.version).value;
      var found := step.migrate(start.spec, start.metadata).issues;
      var candidate := Migrated(start, step);
      BlockingAppend(issues, since);
      BlockingAppend(repeated, since);
      BlockingAppend(issues + since, found);
      BlockingAppend(repeated + since, found);
      Regroup3(issues, since, found);
      Regroup3(repeated, since, found);
      if !Blocking(found) {
        var checked := validate(candidate);
        BlockingAppend(issues + since + found, checked);
        BlockingAppend(repeated + since + found, checked);
        Regroup3(issues, since + found, checked);
        Regroup3(repeated, since + found, checked);
        if !Blocking(checked) {
          BlockingAppend(since, found);
          BlockingAppend(since + found, checked);
          StepTarget(registry, start.kind, start.version);
          assert done + own + [step.id] == done + (own + [step.id]);
          ChainRecords(candidate, target, validate, registry, done, issues, own + [step.id], repeated,
                       since + found + checked);
        }
      }
    }
  }

  lemma Regroup3(a: seq<Issue>, b: seq<Issue>, c: seq<Issue>)
    ensures a + b + c == a + (b + c) && (a + (b + c))[|a|..] == b + c
  {
  }

  /** A chain to a later version goes through every version between, unless it is blocked before. */
  lemma {:induction false} ChainThrough(start: Document, middle: nat, target: nat, validate: Validator,
                                       registry: Registry, done: seq<string>, issues: seq<Issue>)
    requires start.version <= middle <= target && !Blocking(issues)
    requires Chain(start, middle, validate, registry, done, issues).Ok?
    ensures var first := Chain(start, middle, validate, registry, done, issues).value;
      Chain(start, target, validate, registry, done, issues) ==
        if Blocking(first.issues) then Ok(first)
        else Chain(first.document, target, validate, registry, first.migrations, first.issues)
    decreases middle - start.version
  {
    if start.version < middle {
      var step := UniqueStep(registry, start.kind, start.version).value;
      StepTarget(registry, start.kind, start.version);
      var after := issues + step.migrate(start.spec, start.metadata).issues + validate(Migrated(start, step));
      if !Blocking(issues + step.migrate(start.spec, start.metadata).issues) && !Blocking(after) {
        ChainThrough(Migrated(start, step), middle, target, validate, registry, done + [step.id], after);
      }
    }
  }

  /**
   * Migrating to an intermediate version and the result from there to the target is migrating
   * directly: the same document, the same steps, the same issues but for the repeated validation of
   * the intermediate document. The validator has to reject what cannot be normalised again.
   */
  lemma MigrationComposes(t: Table, input: Value, validate: Validator, registry: Registry, middle: int, target: int,
                          first: Outcome)
    requires ValidTable(t) && middle <= target <= MAX_SAFE_INTEGER
    requires forall d :: !Blocking(validate(d)) ==> Canonical(t, d)
    requires Migrate(t, input, validate, registry, Some(middle)) == Ok(first)
    ensures Blocking(first.issues) ==> Migrate(t, input, validate, registry, Some(target)) == Ok(first)
    ensures !Blocking(first.issues) ==>
      Continues(Migrate(t, input, validate, registry, Some(target)), first,
                Migrate(t, ToObject(t, first.document), validate, registry, Some(target)), |validate(first.document)|)
  {
    var start := Normalize(t, input).value;
    var _ := MigrationAdvances(t, input, validate, registry, Some(middle), start, first);
    if !Blocking(validate(start)) {
      hide Normalize, Blocking, Canonical, Chain;
      ChainThrough(start, middle, target, validate, registry, [], validate(start));
      if !Blocking(first.issues) {
        assert !Blocking(validate(first.document));
        assert Canonical(t, first.document);
        RoundTrip(t, first.document);
        var again := validate(first.document);
        NoneBlocking();
        ChainRecords(first.document, target, validate, registry, first.migrations, first.issues, [], again, []);
        assert first.migrations + [] == first.migrations && first.issues + [] == first.issues && again + [] == again;
      }
    }
  }

  lemma NoneBlocking()
    ensures !Blocking([])
  {
  }

  // ---- The registered steps -------------------------------------------------------------

  function Keep(spec: Members, metadata: Members): StepResult {
    StepResult(spec, None, [])
  }

  function ObjectAt(members: Members, key: string): Option<Members> {
    if key in members && members[key].Obj? then Some(members[key].members) else None
  }

  /** presentationConfigV1ToV2: drops registration_cert.body.provided_attestations with a warning. */
  function DropProvidedAttestations(spec: Members, metadata: Members): StepResult {
    match ObjectAt(spec, "registration_cert")
    case None => StepResult(spec, None, [])
    case Some(cert) =>
      match ObjectAt(cert, "body")
      case None => StepResult(spec, None, [])
      case Some(body) =>
        if "provided_attestations" !in body then StepResult(spec, None, [])
        else
          StepResult(spec["registration_cert" := Obj(cert["body" := Obj(body - {"provided_attestations"})])], None,
                     [Issue(Warning, "PROVIDED_ATTESTATIONS_REMOVED",
                            "/spec/registration_cert/body/provided_attestations")])
  }

  const CONFIG_MIGRATIONS: Registry := [
    Step("issuance-config-v2-offer-lifetime", "IssuanceConfig", 1, 2, Keep),
    Step("issuance-config-v3-trust-list-verifier-pem", "IssuanceConfig", 2, 3, Keep),
    Step("presentation-config-v2-provides-attestations", "PresentationConfig", 1, 2, DropProvidedAttestations),
    Step("presentation-config-v3-typed-claim-values", "PresentationConfig", 2, 3, Keep)
  ]

  lemma RegisteredSteps()
    ensures UniqueStep(CONFIG_MIGRATIONS, "IssuanceConfig", 1) == Some(CONFIG_MIGRATIONS[0])
    ensures UniqueStep(CONFIG_MIGRATIONS, "IssuanceConfig", 2) == Some(CONFIG_MIGRATIONS[1])
    ensures UniqueStep(CONFIG_MIGRATIONS, "PresentationConfig", 1) == Some(CONFIG_MIGRATIONS[2])
    ensures UniqueStep(CONFIG_MIGRATIONS, "PresentationConfig", 2) == Some(CONFIG_MIGRATIONS[3])
  {
    var r := CONFIG_MIGRATIONS;
    assert r[0].kind != r[2].kind by {
      assert r[0].kind[0] == 'I' && r[2].kind[0] == 'P';
    }
    forall kind: string, version: nat
      ensures Candidates(r, kind, version) == Matching(r[0], kind, version) + Matching(r[1], kind, version)
                                             + Matching(r[2], kind, version) + Matching(r[3], kind, version)
    {
      FourCandidates(r, kind, version);
    }
  }

  lemma FourCandidates(r: Registry, kind: string, version: nat)
    requires |r| == 4
    ensures Candidates(r, kind, version) == Matching(r[0], kind, version) + Matching(r[1], kind, version)
                                            + Matching(r[2], kind, version) + Matching(r[3], kind, version)
  {
    hide Matching;
    NextCandidates(r, 0, kind, version);
    NextCandidates(r, 1, kind, version);
    NextCandidates(r, 2, kind, version);
    NextCandidates(r, 3, kind, version);
    assert r[0..] == r && r[4..] == [];
    assert Candidates([], kind, version) == [];
    hide Candidates;
    assert Candidates(r[3..], kind, version) == Matching(r[3], kind, version);
  }

  lemma NextCandidates(r: Registry, i: nat, kind: string, version: nat)
    requires i < |r|
    ensures Candidates(r[i..], kind, version)
         == Matching(r[i], kind, version) + Candidates(r[i + 1..], kind, version)
  {
    assert r[i..][0] == r[i] && r[i..][1..] == r[i + 1..];
  }

  lemma VersionedKinds(f: Format)
    requires f in CONFIG_FORMATS && f.version > 1
    ensures f.version == 3 && (f.kind == "IssuanceConfig" || f.kind == "PresentationConfig")
  {
    var i :| 0 <= i < |CONFIG_FORMATS| && CONFIG_FORMATS[i] == f;
  }

  /** A step is registered for every version of every kind below its latest. */
  lemma EveryStepRegistered(f: Format, version: nat)
    requires f in CONFIG_FORMATS && 1 <= version < f.version
    ensures UniqueStep(CONFIG_MIGRATIONS, f.kind, version).Some?
  {
    hide UniqueStep;
    VersionedKinds(f);
    RegisteredSteps();
  }

  lemma {:induction false} ChainNeverStuck(start: Document, target: nat, validate: Validator, registry: Registry,
                                          migrations: seq<string>, issues: seq<Issue>)
    requires forall v :: start.version <= v < target ==> UniqueStep(registry, start.kind, v).Some?
    ensures Chain(start, target, validate, registry, migrations, issues).Ok?
    decreases target - start.version
  {
    if start.version < target {
      var step := UniqueStep(registry, start.kind, start.version).value;
      var during := issues + step.migrate(start.spec, start.metadata).issues;
      StepTarget(registry, start.kind, start.version);
      ChainNeverStuck(Migrated(start, step), target, validate, registry, migrations + [step.id],
                      during + validate(Migrated(start, step)));
    }
  }

  ghost predicate Registered(t: Table, registry: Registry) {
    forall f, v :: f in t && 1 <= v < f.version ==> UniqueStep(registry, f.kind, v).Some?
  }

  ghost predicate IsLatest(t: Table, d: Document) {
    exists f :: f in t && f.kind == d.kind && d.version == f.version
  }

  predicate OnlyWarnings(issues: seq<Issue>) {
    forall issue :: issue in issues ==> issue.severity == Warning
  }

  lemma LatestReachableWith(t: Table, registry: Registry, input: Value, validate: Validator)
    requires ValidTable(t) && Registered(t, registry) && Normalize(t, input).Ok?
    ensures Migrate(t, input, validate, registry, None).Ok?
    ensures var start, out := Normalize(t, input).value, Migrate(t, input, validate, registry, None).value;
      IsLatest(t, out.document) <==> OnlyWarnings(out.issues) || IsLatest(t, start)
  {
    var start := Normalize(t, input).value;
    NormalizedIsCanonical(t, input);
    SupportedVersion(t, start);
    var f := FindKind(t, start.kind).value;
    forall g | g in t && g.kind == start.kind
      ensures g == f
    {
      SameFormat(t, f, g);
    }
    assert forall issues :: Blocking(issues) <==> !OnlyWarnings(issues);
    hide Normalize, ValidTable, Canonical, UniqueStep, Blocking, OnlyWarnings;
    if !Blocking(validate(start)) {
      ChainNeverStuck(start, f.version, validate, registry, [], validate(start));
    }
    var out := Migrate(t, input, validate, registry, None).value;
    var _ := MigrationAdvances(t, input, validate, registry, None, start, out);
  }

  /**
   * With the registered steps, every document that can be normalised can be migrated, and that ends at the
   * latest version of its kind exactly when all issues are warnings, or it was there from the start.
   */
  lemma LatestIsReachable(input: Value, validate: Validator)
    requires Normalize(CONFIG_FORMATS, input).Ok?
    ensures Migrate(CONFIG_FORMATS, input, validate, CONFIG_MIGRATIONS, None).Ok?
    ensures var start := Normalize(CONFIG_FORMATS, input).value;
      var out := Migrate(CONFIG_FORMATS, input, validate, CONFIG_MIGRATIONS, None).value;
      IsLatest(CONFIG_FORMATS, out.document) <==> OnlyWarnings(out.issues) || IsLatest(CONFIG_FORMATS, start)
  {
    hide Normalize, UniqueStep, ValidTable, Migrate;
    ConfigFormatsIsValid();
    forall f, v | f in CONFIG_FORMATS && 1 <= v < f.version
      ensures UniqueStep(CONFIG_MIGRATIONS, f.kind, v).Some?
    {
      EveryStepRegistered(f, v);
    }
    LatestReachableWith(CONFIG_FORMATS, CONFIG_MIGRATIONS, input, validate);
  }

  lemma SupportedVersion(t: Table, d: Document)
    requires ValidTable(t) && Supported(t, d)
    ensures FindKind(t, d.kind).Some? && 1 <= d.version <= FindKind(t, d.kind).value.version <= MAX_SAFE_INTEGER
  {
    var f :| f in t && f.kind == d.kind && 1 <= d.version <= f.version;
    SameFormat(t, f, FindKind(t, d.kind).value);
  }

  /** The member that version 2 of presentation configurations no longer has. */
  predicate HasProvidedAttestations(spec: Members) {
    && "registration_cert" in spec && spec["registration_cert"].Obj?
    && var cert := spec["registration_cert"].members;
       && "body" in cert && cert["body"].Obj?
       && "provided_attestations" in cert["body"].members
  }

  /** The v2 step removes that one member, reports it, and changes nothing else; a second run changes nothing. */
  lemma DropsOnlyProvidedAttestations(spec: Members, metadata: Members, r: StepResult)
    requires r == DropProvidedAttestations(spec, metadata)
    ensures r.spec.Keys == spec.Keys && forall k :: k in spec && k != "registration_cert" ==> r.spec[k] == spec[k]
    ensures !Blocking(r.issues) && r.metadata.None?
    ensures !HasProvidedAttestations(r.spec) && (r.spec != spec <==> HasProvidedAttestations(spec))
    ensures r.issues
      == if !HasProvidedAttestations(spec) then []
         else [Issue(Warning, "PROVIDED_ATTESTATIONS_REMOVED", "/spec/registration_cert/body/provided_attestations")]
    ensures DropProvidedAttestations(r.spec, metadata) == StepResult(r.spec, None, [])
    ensures r.spec != spec ==>
      var was, now := spec["registration_cert"].members, r.spec["registration_cert"].members;
      && was.Keys == now.Keys && (forall k :: k in was && k != "body" ==> now[k] == was[k])
      && now["body"] == Obj(was["body"].members - {"provided_attestations"})
  {
    if HasProvidedAttestations(spec) {
      var before, after := spec["registration_cert"].members, r.spec["registration_cert"].members;
      assert "provided_attestations" in before["body"].members && "provided_attestations" !in after["body"].members;
    }
  }

  /** A version for which the registered step may change the document. */
  predicate MayChange(kind: string, version: nat) {
    kind == "PresentationConfig" && version == 1
  }

  lemma {:induction false} CandidateFits(registry: Registry, kind: string, version: nat, step: Step)
    requires step in Candidates(registry, kind, version)
    ensures step in registry && step.kind == kind && step.from == version
  {
    if step !in Matching(registry[0], kind, version) {
      CandidateFits(registry[1..], kind, version, step);
    }
  }

  /** All registered steps but that one leave the document as it is, and report nothing. */
  lemma StepKeeps(kind: string, version: nat, spec: Members, metadata: Members)
    requires UniqueStep(CONFIG_MIGRATIONS, kind, version).Some? && !MayChange(kind, version)
    ensures UniqueStep(CONFIG_MIGRATIONS, kind, version).value.migrate(spec, metadata) == StepResult(spec, None, [])
  {
    var step := UniqueStep(CONFIG_MIGRATIONS, kind, version).value;
    assert step == Candidates(CONFIG_MIGRATIONS, kind, version)[0];
    CandidateFits(CONFIG_MIGRATIONS, kind, version, step);
    hide Candidates;
  }

  lemma {:induction false} ChainKeeps(start: Document, target: nat, validate: Validator, done: seq<string>,
                                     issues: seq<Issue>)
    requires !MayChange(start.kind, start.version) && start.version >= 1
    requires Chain(start, target, validate, CONFIG_MIGRATIONS, done, issues).Ok?
    ensures var out := Chain(start, target, validate, CONFIG_MIGRATIONS, done, issues).value;
      out.document == start.(version := out.document.version)
    decreases target - start.version
  {
    hide UniqueStep, Blocking;
    if start.version < target {
      var step := UniqueStep(CONFIG_MIGRATIONS, start.kind, start.version).value;
      StepTarget(CONFIG_MIGRATIONS, start.kind, start.version);
      StepKeeps(start.kind, start.version, start.spec, start.metadata);
      var next := Migrated(start, step);
      var after := issues + step.migrate(start.spec, start.metadata).issues + validate(next);
      if !Blocking(issues + step.migrate(start.spec, start.metadata).issues) && !Blocking(after) {
        ChainKeeps(next, target, validate, done + [step.id], after);
      }
    }
  }

  /**
   * What a migration with the registered steps makes of a document: nothing is changed but the version, and
   * from version 1 of a presentation configuration on, the one member is removed.
   */
  lemma MigrationKeeps(input: Value, validate: Validator, target: Option<int>, start: Document, out: Outcome)
    requires Normalize(CONFIG_FORMATS, input) == Ok(start)
    requires Migrate(CONFIG_FORMATS, input, validate, CONFIG_MIGRATIONS, target) == Ok(out)
    ensures out.document.kind == start.kind && out.document.metadata == start.metadata
    ensures out.document.spec
      == if start.kind == "PresentationConfig" && start.version == 1 < out.document.version then
           DropProvidedAttestations(start.spec, start.metadata).spec
         else start.spec
  {
    ConfigFormatsIsValid();
    NormalizedIsCanonical(CONFIG_FORMATS, input);
    assert start.version >= 1;
    hide Normalize, UniqueStep, Blocking, Canonical, ValidTable;
    var goal, issues := Goal(CONFIG_FORMATS, start, target), validate(start);
    if !Blocking(issues) {
      if MayChange(start.kind, start.version) {
        FirstChange(start, goal, validate, issues, out);
      } else {
        ChainKeeps(start, goal, validate, [], issues);
      }
    }
  }

  lemma FirstChange(start: Document, target: nat, validate: Validator, issues: seq<Issue>, out: Outcome)
    requires MayChange(start.kind, start.version) && start.version <= target
    requires Chain(start, target, validate, CONFIG_MIGRATIONS, [], issues) == Ok(out)
    ensures out.document.kind == start.kind && out.document.metadata == start.metadata
    ensures out.document.spec
      == if out.document.version > 1 then DropProvidedAttestations(start.spec, start.metadata).spec else start.spec
  {
    RegisteredSteps();
    hide UniqueStep, Blocking, DropProvidedAttestations;
    if start.version < target {
      var step := CONFIG_MIGRATIONS[2];
      assert UniqueStep(CONFIG_MIGRATIONS, start.kind, start.version) == Some(step);
      DropsOnlyProvidedAttestations(start.spec, start.metadata, step.migrate(start.spec, start.metadata));
      var next := Migrated(start, step);
      var after := issues + step.migrate(start.spec, start.metadata).issues + validate(next);
      if !Blocking(issues + step.migrate(start.spec, start.metadata).issues) && !Blocking(after) {
        ChainKeeps(next, target, validate, [] + [step.id], after);
        ChainReachesVersion(next, target, validate, [] + [step.id], after);
      }
    }
  }

  lemma ChainReachesVersion(start: Document, target: nat, validate: Validator, done: seq<string>, issues: seq<Issue>)
    requires start.version <= target && !Blocking(issues)
    requires Chain(start, target, validate, CONFIG_MIGRATIONS, done, issues).Ok?
    ensures Chain(start, target, validate, CONFIG_MIGRATIONS, done, issues).value.document.version >= start.version
  {
    ChainReaches(start, target, validate, CONFIG_MIGRATIONS, done, issues);
  }
}
