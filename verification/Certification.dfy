/** The certification gate of shared/runtimeCertification.ts.

  A released runtime declares a level; evidence collected for it is bound to its identity, its checks are
  matched to fifteen requirements, and the release is published as verified, pending or invalid. */
module Certification {
  import opened Options
  import Text

  // ---------------------------------------------------------------- entities

  datatype Level = SpecOnly | Unverified | Experimental | Beta | Certified

  const LEVEL_ORDER: seq<Level> := [Experimental, Beta, Certified]

  function Rank(l: Level): int {
    match l
    case SpecOnly => -1
    case Unverified => 0
    case Experimental => 1
    case Beta => 2
    case Certified => 3
  }

  /** The scope of a check is read from a file. `Inherited` stands for the names every object inherits, such as
    "constructor", and `Unknown...` for all other undeclared ones. */
  datatype Scope = Contract | Runtime | EndToEnd | Inherited | UnknownScope

  /** The `in` test of the table of ranks, which inherited names pass. */
  predicate InRanks(s: Scope) {
    !s.UnknownScope?
  }

  /** None for what is no number; comparing with it is false. */
  function ScopeRank(s: Scope): Option<int> {
    match s
    case Contract => Some(0)
    case Runtime => Some(1)
    case EndToEnd => Some(2)
    case _ => None
  }

  predicate Below(a: Option<int>, b: Option<int>) {
    a.Some? && b.Some? && a.value < b.value
  }

  datatype Requirement = Requirement(id: string, level: Level, minimum: Scope)

  function Table(): seq<Requirement> {
    [ Requirement("runtime-install", Experimental, Runtime),
      Requirement("task-submit", Experimental, Runtime),
      Requirement("streaming-output", Experimental, Runtime),
      Requirement("cancellation", Experimental, Runtime),
      Requirement("session-recovery", Beta, Runtime),
      Requirement("file-artifact", Beta, Runtime),
      Requirement("usage-reporting", Beta, Runtime),
      Requirement("tool-events", Beta, Runtime),
      Requirement("restart-recovery", Beta, Runtime),
      Requirement("control-plane-deploy", Certified, EndToEnd),
      Requirement("upgrade", Certified, EndToEnd),
      Requirement("rollback", Certified, EndToEnd),
      Requirement("security", Certified, EndToEnd),
      Requirement("backup-restore", Certified, EndToEnd),
      Requirement("real-e2e", Certified, EndToEnd) ]
  }

  predicate Known(id: string) {
    exists i :: 0 <= i < |Table()| && Table()[i].id == id
  }

  /** A parsed timestamp. */
  datatype Time = Malformed | At(millis: int)

  datatype CheckStatus = CheckPassed | CheckFailed | UnknownStatus

  datatype Check = Check(
    requirementId: string, status: CheckStatus, scope: Scope, observedAt: Time, validUntil: Option<Time>,
    environmentId: string, environment: string, evidenceRefs: seq<string>)

  datatype ArtifactKind = OciDigest | DockerImageId | UnknownKind
  datatype Artifact = Artifact(kind: ArtifactKind, value: string)

  datatype Environment = Environment(id: string, platform: string, headless: bool, mybayVersion: string)

  datatype Subject =
    | Schema2(version: string)
    | Schema3(nativeVersion: string, bridgeVersion: Option<string>, artifact: Option<Artifact>)

  datatype Bundle = Bundle(
    runtimeType: string, providerKey: string, contractVersion: int, imageRef: string, subject: Subject,
    environments: seq<Environment>, artifacts: seq<string>, checks: seq<Check>)

  datatype Definition = Definition(
    runtimeType: string, providerKey: string, contractVersion: int, image: string, tag: string, version: string,
    level: Level, bridgeVersion: Option<string>, artifact: Option<Artifact>)

  datatype Target = Target(platform: string, headless: bool)
  /** An empty `expectedVersion` stands for none. */
  datatype Demand = Demand(expectedVersion: string, target: Option<Target>)

  datatype Status = Passed | Failed | Missing | Invalid
  datatype Identity = Exact | MetadataCompatible | NoEvidence | Mismatch
  datatype Publication = OnlySpec | Verified | Pending | Refused

  datatype Error =
    | SpecOnlyHasEvidence | IdentityDiffers | NoEnvironment | EnvironmentsNotUnique | NoArtifacts
    | VersionNotCovered | TargetNotCovered | UnknownRequirement(id: string) | DuplicatedCheck(id: string)

  datatype Result = Result(requirement: Requirement, status: Status)

  datatype Report = Report(
    verifiedLevel: Level, publication: Publication, identity: Identity, artifactVerification: Option<ArtifactKind>,
    environments: seq<Environment>, requirements: seq<Result>, errors: seq<Error>)

  // ---------------------------------------------------------------- the release's identity

  predicate IsHex(c: char) {
    'a' <= c <= 'f' || '0' <= c <= '9'
  }

  predicate ValidArtifact(a: Artifact) {
    && !a.kind.UnknownKind?
    && |a.value| == 71 && a.value[..7] == "sha256:"
    && forall i :: 7 <= i < 71 ==> IsHex(a.value[i])
  }

  predicate SameRelease(d: Definition, b: Bundle) {
    && b.runtimeType == d.runtimeType && b.providerKey == d.providerKey && b.contractVersion == d.contractVersion
    && b.imageRef == d.image + ":" + d.tag
    && match b.subject
       case Schema2(version) => version == d.version
       case Schema3(native, bridge, _) => native == d.version && bridge == d.bridgeVersion
  }

  function EvidenceArtifact(b: Bundle): Option<Artifact> {
    match b.subject
    case Schema2(_) => None
    case Schema3(_, _, artifact) => artifact
  }

  predicate SameArtifact(d: Definition, b: Bundle) {
    d.artifact.Some? && d.artifact == EvidenceArtifact(b) && ValidArtifact(d.artifact.value)
  }

  predicate Bound(d: Definition, b: Bundle) {
    SameRelease(d, b) && (d.artifact.Some? && EvidenceArtifact(b).Some? ==> SameArtifact(d, b))
  }

  function IdentityOf(d: Definition, b: Bundle): Identity {
    if !Bound(d, b) then Mismatch else if SameArtifact(d, b) then Exact else MetadataCompatible
  }

  /** Kept even when the release differs otherwise. */
  function ArtifactOf(d: Definition, b: Bundle): Option<ArtifactKind> {
    if SameArtifact(d, b) then Some(d.artifact.value.kind) else None
  }

  // ---------------------------------------------------------------- environments

  function WithoutV(version: string): string {
    if version != "" && version[0] in ['v', 'V'] then version[1..] else version
  }

  predicate SameVersion(e: Environment, c: Demand) {
    WithoutV(e.mybayVersion) == WithoutV(c.expectedVersion)
  }

  predicate Matches(e: Environment, c: Demand) {
    c.target.Some? ==>
      && e.platform == c.target.value.platform && e.headless == c.target.value.headless
      && (c.expectedVersion != "" ==> SameVersion(e, c))
  }

  function Matched(es: seq<Environment>, c: Demand): seq<Environment> {
    if es == [] then []
    else if Matches(es[0], c) then [es[0]] + Matched(es[1..], c)
    else Matched(es[1..], c)
  }

  lemma {:induction false} MatchedHas(es: seq<Environment>, c: Demand, e: Environment)
    ensures e in Matched(es, c) <==> e in es && Matches(e, c)
  {
    if es != [] {
      MatchedHas(es[1..], c, e);
    }
  }

  function Ids(es: seq<Environment>): set<string> {
    set e | e in es :: e.id
  }

  ghost predicate Unique(es: seq<Environment>) {
    forall i, j :: 0 <= i < j < |es| ==> es[i].id != es[j].id
  }

  lemma UniqueFirst(es: seq<Environment>)
    requires es != []
    ensures Unique(es) <==> Unique(es[1..]) && es[0].id !in Ids(es[1..])
  {
    var rest := es[1..];
    assert forall i :: 1 <= i < |es| ==> es[i] == rest[i - 1];
    if es[0].id in Ids(rest) {
      var e :| e in rest && e.id == es[0].id;
      var i :| 0 <= i < |rest| && rest[i] == e;
      assert es[0].id == es[i + 1].id;
    } else {
      assert forall i :: 0 <= i < |rest| ==> rest[i] in rest && rest[i].id in Ids(rest);
    }
    assert forall i, j :: 0 <= i < j < |rest| ==> rest[i] == es[i + 1] && rest[j] == es[j + 1];
  }

  /** Comparing the number of ids with the number of environments is a test of uniqueness. */
  lemma {:induction false} UniqueIff(es: seq<Environment>)
    ensures |Ids(es)| <= |es|
    ensures |Ids(es)| == |es| <==> Unique(es)
  {
    if es != [] {
      UniqueIff(es[1..]);
      UniqueFirst(es);
      assert Ids(es) == {es[0].id} + Ids(es[1..]);
    }
  }

  function When(condition: bool, e: Error): seq<Error> {
    if condition then [e] else []
  }

  function BundleErrors(d: Definition, b: Bundle, c: Demand): seq<Error> {
    When(!Bound(d, b), IdentityDiffers)
    + When(b.environments == [], NoEnvironment)
    + When(|Ids(b.environments)| != |b.environments|, EnvironmentsNotUnique)
    + When(b.artifacts == [], NoArtifacts)
    + When(c.expectedVersion != "" && !exists e :: e in b.environments && SameVersion(e, c), VersionNotCovered)
    + When(c.target.Some? && Matched(b.environments, c) == [], TargetNotCovered)
  }

  // ---------------------------------------------------------------- checks

  function StatusOf(r: Requirement, check: Option<Check>, now: int): Status {
    if check.None? then Missing else
    var e := check.value;
    if e.requirementId != r.id || !Known(e.requirementId) then Invalid
    else if e.observedAt.Malformed? then Invalid
    else if e.validUntil.Some? && (e.validUntil.value.Malformed? || e.validUntil.value.millis < now) then Invalid
    else if Text.Trim(e.environment) == "" then Invalid
    else if e.evidenceRefs == [] || exists ref :: ref in e.evidenceRefs && Text.Trim(ref) == "" then Invalid
    else if !InRanks(e.scope) || Below(ScopeRank(e.scope), ScopeRank(r.minimum)) then Invalid
    else if e.status.CheckFailed? then Failed
    else if !e.status.CheckPassed? then Invalid
    else Passed
  }

  /** With a target, a check counts only if it names a matching environment. */
  predicate Relevant(b: Bundle, c: Demand, k: Check) {
    c.target.Some? ==> k.environmentId != "" && k.environmentId in Ids(Matched(b.environments, c))
  }

  predicate Usable(b: Bundle, c: Demand, k: Check) {
    Known(k.requirementId) && Relevant(b, c, k)
  }

  /** The first usable check of a requirement among the first n. */
  function Evidence(b: Bundle, c: Demand, id: string, n: nat): (r: Option<Check>)
    requires n <= |b.checks|
  {
    if n == 0 then None
    else
      var before := Evidence(b, c, id, n - 1);
      if before.None? && b.checks[n - 1].requirementId == id && Usable(b, c, b.checks[n - 1])
      then Some(b.checks[n - 1]) else before
  }

  function CheckErrors(b: Bundle, c: Demand, n: nat): seq<Error>
    requires n <= |b.checks|
  {
    if n == 0 then []
    else
      var k := b.checks[n - 1];
      CheckErrors(b, c, n - 1)
      + When(!Known(k.requirementId), UnknownRequirement(k.requirementId))
      + When(Usable(b, c, k) && Evidence(b, c, k.requirementId, n - 1).Some?, DuplicatedCheck(k.requirementId))
  }

  /** The checks read at all: none of a bundle for another release. */
  function Read(d: Definition, b: Bundle): nat {
    if Bound(d, b) then |b.checks| else 0
  }

  function Results(d: Definition, bundle: Option<Bundle>, c: Demand, now: int): seq<Result> {
    seq(|Table()|, i requires 0 <= i < |Table()| =>
      var r := Table()[i];
      Result(r, StatusOf(r,
        if bundle.None? then None else Evidence(bundle.value, c, r.id, Read(d, bundle.value)), now)))
  }

  predicate AllPassed(results: seq<Result>, l: Level) {
    forall i :: 0 <= i < |results| && Rank(results[i].requirement.level) <= Rank(l) ==> results[i].status == Passed
  }

  function Reached(results: seq<Result>): Level {
    if !AllPassed(results, Experimental) then Unverified
    else if !AllPassed(results, Beta) then Experimental
    else if !AllPassed(results, Certified) then Beta
    else Certified
  }

  predicate AnyInvalid(results: seq<Result>) {
    exists i :: 0 <= i < |results| && results[i].status == Invalid
  }

  function Certify(d: Definition, bundle: Option<Bundle>, c: Demand, now: int): Report {
    if d.level.SpecOnly? then
      var errors := When(bundle.Some?, SpecOnlyHasEvidence);
      Report(SpecOnly, if errors != [] then Refused else OnlySpec,
             if bundle.Some? then Mismatch else NoEvidence, None, [], [], errors)
    else
      var errors := if bundle.None? then []
                    else BundleErrors(d, bundle.value, c) + CheckErrors(bundle.value, c, Read(d, bundle.value));
      var identity := if bundle.None? then NoEvidence else IdentityOf(d, bundle.value);
      var results := Results(d, bundle, c, now);
      var reached := Reached(results);
      Report(reached,
             if errors != [] || AnyInvalid(results) then Refused
             else if identity == Exact && Rank(reached) >= Rank(d.level) then Verified
             else Pending,
             identity,
             if bundle.None? then None else ArtifactOf(d, bundle.value),
             if bundle.None? then [] else Matched(bundle.value.environments, c), results, errors)
  }

  // ---------------------------------------------------------------- what "verified" means

  /** A declared scope that is wide enough. The code takes an inherited name for one, too. */
  predicate Suffices(scope: Scope, minimum: Scope) {
    match scope
    case Inherited => true
    case UnknownScope => false
    case EndToEnd => true
    case Runtime => minimum != EndToEnd
    case Contract => minimum != EndToEnd && minimum != Runtime
  }

  /** A check that proves its requirement at the given time. */
  predicate Satisfies(r: Requirement, k: Check, now: int) {
    && k.requirementId == r.id && k.status.CheckPassed?
    && k.observedAt.At?
    && (k.validUntil.Some? ==> k.validUntil.value.At? && now <= k.validUntil.value.millis)
    && Text.Trim(k.environment) != ""
    && k.evidenceRefs != [] && (forall ref :: ref in k.evidenceRefs ==> Text.Trim(ref) != "")
    && Suffices(k.scope, r.minimum)
  }

  /** A sound check of a requirement, passed or failed. */
  predicate Sound(r: Requirement, k: Check, now: int) {
    Satisfies(r, k.(status := CheckPassed), now) && !k.status.UnknownStatus?
  }

  lemma StatusMeans(r: Requirement, k: Check, now: int)
    requires Known(r.id)
    ensures StatusOf(r, Some(k), now) == Passed <==> Satisfies(r, k, now)
    ensures StatusOf(r, Some(k), now) == Failed <==> Sound(r, k, now) && k.status.CheckFailed?
    ensures StatusOf(r, Some(k), now) == Invalid <==> !Sound(r, k, now)
    ensures StatusOf(r, None, now) == Missing
  {
    hide Known, Text.Trim;
  }

  /** No requirement has two usable checks among the first n. */
  ghost predicate OneEach(b: Bundle, c: Demand, n: nat)
    requires n <= |b.checks|
  {
    forall i, j :: 0 <= i < j < n && Usable(b, c, b.checks[i]) && Usable(b, c, b.checks[j])
      ==> b.checks[i].requirementId != b.checks[j].requirementId
  }

  predicate First(b: Bundle, c: Demand, id: string, n: nat, k: int)
    requires n <= |b.checks|
  {
    && 0 <= k < n && b.checks[k].requirementId == id && Usable(b, c, b.checks[k])
    && forall i :: 0 <= i < k && b.checks[i].requirementId == id ==> !Usable(b, c, b.checks[i])
  }

  lemma {:induction false} EvidenceIsFirst(b: Bundle, c: Demand, id: string, n: nat)
    requires n <= |b.checks|
    ensures Evidence(b, c, id, n).None? <==>
            forall k :: 0 <= k < n && b.checks[k].requirementId == id ==> !Usable(b, c, b.checks[k])
    ensures Evidence(b, c, id, n).Some? ==>
            exists k :: First(b, c, id, n, k) && b.checks[k] == Evidence(b, c, id, n).value
  {
    hide Usable;
    if n > 0 {
      EvidenceIsFirst(b, c, id, n - 1);
      if Evidence(b, c, id, n - 1).Some? {
        var k :| First(b, c, id, n - 1, k) && b.checks[k] == Evidence(b, c, id, n - 1).value;
        assert First(b, c, id, n, k);
      } else if Evidence(b, c, id, n).Some? {
        assert First(b, c, id, n, n - 1);
      }
    }
  }

  /** Among usable checks that differ in their requirements, each is the evidence for its own. */
  lemma OnlyEvidence(b: Bundle, c: Demand, k: nat)
    requires k < |b.checks| && Usable(b, c, b.checks[k]) && OneEach(b, c, |b.checks|)
    ensures Evidence(b, c, b.checks[k].requirementId, |b.checks|) == Some(b.checks[k])
  {
    hide Usable;
    var id := b.checks[k].requirementId;
    EvidenceIsFirst(b, c, id, |b.checks|);
    var j :| First(b, c, id, |b.checks|, j) && b.checks[j] == Evidence(b, c, id, |b.checks|).value;
    assert j == k;
  }

  ghost predicate AllKnown(b: Bundle, n: nat)
    requires n <= |b.checks|
  {
    forall k :: 0 <= k < n ==> Known(b.checks[k].requirementId)
  }

  lemma NoChecks(b: Bundle, c: Demand)
    ensures CheckErrors(b, c, 0) == [] && AllKnown(b, 0) && OneEach(b, c, 0)
  {
  }

  lemma OneEachLast(b: Bundle, c: Demand, n: nat)
    requires 0 < n <= |b.checks|
    ensures OneEach(b, c, n) <==>
            OneEach(b, c, n - 1)
            && (Usable(b, c, b.checks[n - 1]) ==>
                  forall k :: 0 <= k < n - 1 && b.checks[k].requirementId == b.checks[n - 1].requirementId
                    ==> !Usable(b, c, b.checks[k]))
  {
    hide Usable;
  }

  lemma CheckErrorsLast(b: Bundle, c: Demand, n: nat)
    requires 0 < n <= |b.checks|
    ensures var k := b.checks[n - 1];
            CheckErrors(b, c, n) == [] <==>
            CheckErrors(b, c, n - 1) == [] && Known(k.requirementId)
            && (Usable(b, c, k) ==> Evidence(b, c, k.requirementId, n - 1).None?)
    ensures AllKnown(b, n) <==> AllKnown(b, n - 1) && Known(b.checks[n - 1].requirementId)
  {
    hide Usable, Known, Evidence;
  }

  lemma {:induction false} CheckErrorsIff(b: Bundle, c: Demand, n: nat)
    requires n <= |b.checks|
    ensures CheckErrors(b, c, n) == [] <==> AllKnown(b, n) && OneEach(b, c, n)
  {
    if n == 0 {
      NoChecks(b, c);
    } else {
      CheckErrorsIff(b, c, n - 1);
      CheckErrorsLast(b, c, n);
      OneEachLast(b, c, n);
      EvidenceIsFirst(b, c, b.checks[n - 1].requirementId, n - 1);
    }
    hide *;
  }

  /** Some check that counts proves the requirement. */
  ghost predicate Backed(b: Bundle, c: Demand, now: int, r: Requirement) {
    exists k :: k in b.checks && Relevant(b, c, k) && Satisfies(r, k, now)
  }

  ghost predicate AllSound(b: Bundle, c: Demand, now: int, r: Requirement) {
    forall k :: 0 <= k < |b.checks| && b.checks[k].requirementId == r.id && Relevant(b, c, b.checks[k])
      ==> Sound(r, b.checks[k], now)
  }

  /** No check of the requirement counts. */
  ghost predicate Unchecked(b: Bundle, c: Demand, r: Requirement) {
    forall k :: 0 <= k < |b.checks| && b.checks[k].requirementId == r.id ==> !Relevant(b, c, b.checks[k])
  }

  ghost predicate Covers(b: Bundle, c: Demand) {
    && b.environments != [] && Unique(b.environments) && b.artifacts != []
    && (c.expectedVersion != "" ==>
          exists e :: e in b.environments && WithoutV(e.mybayVersion) == WithoutV(c.expectedVersion))
    && (c.target.Some? ==> exists e :: e in b.environments && IsTarget(e, c.target.value, c.expectedVersion))
  }

  /** The environment asked for, and with the version asked for, if there is one. */
  predicate IsTarget(e: Environment, target: Target, version: string) {
    (e.platform, e.headless) == (target.platform, target.headless)
    && (version == "" || WithoutV(e.mybayVersion) == WithoutV(version))
  }

  /** With a target, exactly the checks that name an environment like it count. */
  lemma RelevantIff(b: Bundle, c: Demand, k: Check)
    ensures Relevant(b, c, k) <==>
              c.target.None?
              || (k.environmentId != ""
                  && exists e :: e in b.environments && e.id == k.environmentId
                       && IsTarget(e, c.target.value, c.expectedVersion))
  {
    if c.target.Some? {
      forall e ensures e in Matched(b.environments, c)
                       <==> e in b.environments && IsTarget(e, c.target.value, c.expectedVersion) {
        MatchedHas(b.environments, c, e);
      }
    }
    hide Matched, WithoutV;
  }

  /** An initial v is no part of a version. */
  lemma PrefixedVersions(version: string)
    ensures WithoutV("v" + version) == WithoutV("V" + version) == version
    ensures version == "" || (version[0] != 'v' && version[0] != 'V') ==> WithoutV(version) == version
  {
  }

  /** The evidence speaks of this release and of the very artifact it ships. */
  predicate IsExactRelease(d: Definition, b: Bundle) {
    && (b.runtimeType, b.providerKey, b.contractVersion) == (d.runtimeType, d.providerKey, d.contractVersion)
    && b.imageRef == d.image + ":" + d.tag
    && b.subject == Schema3(d.version, d.bridgeVersion, d.artifact)
    && d.artifact.Some? && IsDigest(d.artifact.value)
  }

  /** A Docker or OCI digest: sha256 and 64 lower-case hexadecimal digits. */
  predicate IsDigest(a: Artifact) {
    && (a.kind == OciDigest || a.kind == DockerImageId)
    && |a.value| == 71 && "sha256:" <= a.value
    && forall i :: 7 <= i < 71 ==> '0' <= a.value[i] <= '9' || 'a' <= a.value[i] <= 'f'
  }

  /** The evidence may be of this release: it says nothing else, nor does it name another or a malformed artifact. */
  predicate IsOwn(d: Definition, b: Bundle) {
    && (b.runtimeType, b.providerKey, b.contractVersion) == (d.runtimeType, d.providerKey, d.contractVersion)
    && b.imageRef == d.image + ":" + d.tag
    && match b.subject
       case Schema2(version) => version == d.version
       case Schema3(version, bridge, artifact) =>
         (version, bridge) == (d.version, d.bridgeVersion)
         && (artifact.None? || d.artifact.None? || (artifact == d.artifact && IsDigest(artifact.value)))
  }

  lemma BindingIff(d: Definition, b: Bundle)
    ensures Bound(d, b) <==> IsOwn(d, b)
    ensures SameRelease(d, b) && SameArtifact(d, b) <==> IsExactRelease(d, b)
  {
    assert d.artifact.Some? ==> |d.artifact.value.value| == 71 ==>
      (d.artifact.value.value[..7] == "sha256:" <==> "sha256:" <= d.artifact.value.value);
  }

  /** Every check is of a known requirement, and those that count are sound and of different requirements. */
  ghost predicate Clean(b: Bundle, c: Demand, now: int) {
    && AllKnown(b, |b.checks|) && OneEach(b, c, |b.checks|)
    && (forall i :: 0 <= i < |Table()| ==> AllSound(b, c, now, Table()[i]))
  }

  lemma BundleErrorsIff(d: Definition, b: Bundle, c: Demand)
    ensures BundleErrors(d, b, c) == [] <==> Bound(d, b) && Covers(b, c)
  {
    UniqueIff(b.environments);
    CoversIff(b, c);
    hide Bound, SameVersion, Unique, Covers;
    var m := Matched(b.environments, c);
    if m != [] {
      MatchedHas(b.environments, c, m[0]);
      assert m[0] in m;
    }
    forall e | e in b.environments && Matches(e, c) ensures m != [] {
      MatchedHas(b.environments, c, e);
    }
  }

  lemma CoversIff(b: Bundle, c: Demand)
    ensures Covers(b, c) <==>
            && b.environments != [] && Unique(b.environments) && b.artifacts != []
            && (c.expectedVersion != "" ==> exists e :: e in b.environments && SameVersion(e, c))
            && (c.target.Some? ==> exists e :: e in b.environments && Matches(e, c))
  {
    hide WithoutV, Unique;
  }

  lemma ReachedIff(results: seq<Result>, l: Level)
    requires l in LEVEL_ORDER
    ensures Rank(Reached(results)) >= Rank(l) <==> AllPassed(results, l)
  {
  }

  lemma KnownAt(i: nat)
    requires i < |Table()|
    ensures Known(Table()[i].id)
  {
  }

  /** When the usable checks differ in their requirements, a result is invalid exactly when the check that
    counts for it is unsound, and passed exactly when a check that counts proves it. */
  lemma ResultMeans(d: Definition, b: Bundle, c: Demand, now: int, i: nat)
    requires i < |Table()| && Bound(d, b) && OneEach(b, c, |b.checks|)
    ensures var r := Table()[i];
            var status := Results(d, Some(b), c, now)[i].status;
            && (status == Passed <==> Backed(b, c, now, r))
            && (status != Invalid <==> AllSound(b, c, now, r))
            && (status == Missing <==> Unchecked(b, c, r))
  {
    var r := Table()[i];
    var e := Evidence(b, c, r.id, |b.checks|);
    KnownAt(i);
    assert Results(d, Some(b), c, now)[i].status == StatusOf(r, e, now);
    assert e.None? ==> StatusOf(r, e, now) == Missing;
    assert forall k :: Satisfies(r, k, now) ==> k.requirementId == r.id;
    hide Table, Known, Relevant, Bound, Evidence, Sound, OneEach, Results, StatusOf, Satisfies;
    EvidenceIsFirst(b, c, r.id, |b.checks|);
    forall k | 0 <= k < |b.checks| && b.checks[k].requirementId == r.id && Relevant(b, c, b.checks[k])
      ensures e == Some(b.checks[k])
    {
      OnlyEvidence(b, c, k);
    }
    if e.Some? {
      StatusMeans(r, e.value, now);
    } else {
      assert Unchecked(b, c, r);
    }
  }

  /** Nothing that is not read is found: without evidence, or with that of another release, all is missing. */
  lemma UnreadIsMissing(d: Definition, bundle: Option<Bundle>, c: Demand, now: int)
    requires bundle.None? || !Bound(d, bundle.value)
    ensures forall i :: 0 <= i < |Table()| ==> Results(d, bundle, c, now)[i].status == Missing
    ensures !AnyInvalid(Results(d, bundle, c, now)) && !AllPassed(Results(d, bundle, c, now), Experimental)
  {
    hide Known, Bound;
    var results := Results(d, bundle, c, now);
    assert results[0].status == Missing && results[0].requirement == Table()[0];
    hide Table, Results;
  }

  lemma ResultsMean(d: Definition, b: Bundle, c: Demand, now: int)
    requires Bound(d, b) && OneEach(b, c, |b.checks|)
    ensures var results := Results(d, Some(b), c, now);
            && (forall l :: AllPassed(results, l) <==>
                  forall i :: 0 <= i < |Table()| && Rank(Table()[i].level) <= Rank(l) ==> Backed(b, c, now, Table()[i]))
            && (AnyInvalid(results) <==> exists i :: 0 <= i < |Table()| && !AllSound(b, c, now, Table()[i]))
  {
    var results := Results(d, Some(b), c, now);
    assert |results| == |Table()| && forall i :: 0 <= i < |results| ==> results[i].requirement == Table()[i];
    hide Table, Results, Backed, AllSound, OneEach, Bound;
    forall i | 0 <= i < |Table()|
      ensures results[i].status == Passed <==> Backed(b, c, now, Table()[i])
      ensures results[i].status != Invalid <==> AllSound(b, c, now, Table()[i])
    {
      ResultMeans(d, b, c, now, i);
    }
  }

  lemma PublishedIff(d: Definition, b: Bundle, c: Demand, now: int)
    requires d.level in LEVEL_ORDER
    ensures var results := Results(d, Some(b), c, now);
            Certify(d, Some(b), c, now).publication == Verified <==>
            && Bound(d, b) && SameArtifact(d, b) && BundleErrors(d, b, c) == [] && CheckErrors(b, c, |b.checks|) == []
            && !AnyInvalid(results) && AllPassed(results, d.level)
  {
    ReachedIff(Results(d, Some(b), c, now), d.level);
    hide Results, BundleErrors, CheckErrors, Matched, SameArtifact, SameRelease, AnyInvalid, AllPassed, Reached,
         ArtifactOf;
  }

  /** A release is verified exactly when it is bound to the evidence by one immutable artifact, the evidence
    covers what is asked, its checks are clean, and some check that counts proves each requirement up to the
    declared level. */
  lemma VerifiedIff(d: Definition, bundle: Option<Bundle>, c: Demand, now: int)
    requires d.level != Unverified
    ensures Certify(d, bundle, c, now).publication == Verified <==>
            && d.level != SpecOnly && bundle.Some?
            && var b := bundle.value;
               && IsExactRelease(d, b) && Covers(b, c) && Clean(b, c, now)
               && forall i :: 0 <= i < |Table()| && Rank(Table()[i].level) <= Rank(d.level)
                    ==> Backed(b, c, now, Table()[i])
  {
    hide Table, Known, Sound, Covers, OneEach, Backed, AllSound, AnyInvalid, AllPassed, Results, BundleErrors,
         CheckErrors, SameRelease, SameArtifact, IsExactRelease, IsOwn, Satisfies;
    if d.level != SpecOnly && bundle.Some? {
      var b := bundle.value;
      PublishedIff(d, b, c, now);
      BindingIff(d, b);
      BundleErrorsIff(d, b, c);
      CheckErrorsIff(b, c, |b.checks|);
      if Bound(d, b) && OneEach(b, c, |b.checks|) {
        ResultsMean(d, b, c, now);
      }
    }
  }

  /** A release is refused exactly when there is evidence that is another release's, does not cover what is asked, or
    has a check that is not clean; and one that is neither verified nor refused is pending. */
  lemma RefusedIff(d: Definition, bundle: Option<Bundle>, c: Demand, now: int)
    requires d.level != SpecOnly
    ensures Certify(d, bundle, c, now).publication == Refused <==>
            bundle.Some?
            && !(IsOwn(d, bundle.value) && Covers(bundle.value, c) && Clean(bundle.value, c, now))
    ensures Certify(d, bundle, c, now).publication != OnlySpec
  {
    hide Table, Known, Sound, Covers, OneEach, AllSound, AnyInvalid, AllPassed, Results, BundleErrors,
         CheckErrors, Bound, SameRelease, IdentityOf, ArtifactOf, Matched, Reached, Unique, SameArtifact, IsOwn,
         IsExactRelease;
    if bundle.None? {
      UnreadIsMissing(d, bundle, c, now);
    } else {
      var b := bundle.value;
      BundleErrorsIff(d, b, c);
      CheckErrorsIff(b, c, |b.checks|);
      ReadIs(d, b);
      BindingIff(d, b);
      if Bound(d, b) && OneEach(b, c, |b.checks|) {
        ResultsMean(d, b, c, now);
      }
    }
  }

  lemma ReadIs(d: Definition, b: Bundle)
    ensures Read(d, b) == if Bound(d, b) then |b.checks| else 0
  {
    hide Bound;
  }

  /** A release that is only specified is refused exactly when there is evidence for it. */
  lemma OnlySpecIff(d: Definition, bundle: Option<Bundle>, c: Demand, now: int)
    requires d.level == SpecOnly
    ensures Certify(d, bundle, c, now).publication == if bundle.Some? then Refused else OnlySpec
    ensures Certify(d, bundle, c, now).verifiedLevel == SpecOnly && Certify(d, bundle, c, now).requirements == []
  {
  }

  /** The level is the highest up to which some check that counts proves each requirement. */
  lemma LevelMeans(d: Definition, b: Bundle, c: Demand, now: int, l: Level)
    requires d.level != SpecOnly && l in LEVEL_ORDER && (Bound(d, b) ==> OneEach(b, c, |b.checks|))
    ensures Rank(Certify(d, Some(b), c, now).verifiedLevel) >= Rank(l) <==>
            IsOwn(d, b)
            && forall i :: 0 <= i < |Table()| && Rank(Table()[i].level) <= Rank(l) ==> Backed(b, c, now, Table()[i])
  {
    hide Table, Known, OneEach, Backed, AllPassed, Results, BundleErrors, CheckErrors, Bound, IdentityOf,
         ArtifactOf, Matched, Reached, AnyInvalid, IsOwn, IsExactRelease;
    BindingIff(d, b);
    ReachedIff(Results(d, Some(b), c, now), l);
    if Bound(d, b) {
      ResultsMean(d, b, c, now);
    } else {
      UnreadIsMissing(d, Some(b), c, now);
      ReachedIff(Results(d, Some(b), c, now), Experimental);
    }
  }

  /** As time passes a result can only change from passed, failed or invalid to invalid. */
  lemma StatusLater(r: Requirement, k: Option<Check>, now: int, later: int)
    requires now <= later
    ensures StatusOf(r, k, later) == StatusOf(r, k, now) || (k.Some? && StatusOf(r, k, later) == Invalid)
  {
    hide Known, Text.Trim;
  }

  lemma ReachedMonotone(low: seq<Result>, high: seq<Result>)
    requires |low| == |high|
    requires forall i :: 0 <= i < |low| ==> low[i].requirement == high[i].requirement
    requires forall i :: 0 <= i < |low| && low[i].status == Passed ==> high[i].status == Passed
    ensures Rank(Reached(low)) <= Rank(Reached(high))
  {
    assert forall l :: AllPassed(low, l) ==> AllPassed(high, l);
    hide AllPassed;
  }

  /** Time alone never raises the verified level and never makes a release verified. */
  lemma LaterIsNoBetter(d: Definition, bundle: Option<Bundle>, c: Demand, now: int, later: int)
    requires now <= later
    ensures var was, next := Certify(d, bundle, c, now), Certify(d, bundle, c, later);
            && Rank(next.verifiedLevel) <= Rank(was.verifiedLevel)
            && (next.publication == Verified ==> was.publication == Verified)
            && next.errors == was.errors && next.identity == was.identity
  {
    var before, after := Results(d, bundle, c, now), Results(d, bundle, c, later);
    forall i | 0 <= i < |Table()|
      ensures after[i].requirement == before[i].requirement
      ensures after[i].status == before[i].status || after[i].status == Invalid
    {
      var r := Table()[i];
      StatusLater(r, if bundle.None? then None else Evidence(bundle.value, c, r.id, Read(d, bundle.value)), now, later);
    }
    ReachedMonotone(after, before);
    assert AnyInvalid(before) ==> AnyInvalid(after);
    hide Table, Results, IdentityOf, BundleErrors, CheckErrors, Matched, ArtifactOf, Reached, Read;
  }

  function Appended(b: Bundle, more: seq<Check>): Bundle {
    b.(checks := b.checks + more)
  }

  lemma {:induction false} EvidenceStays(b: Bundle, more: seq<Check>, c: Demand, id: string, n: nat)
    requires n <= |b.checks + more|
    ensures n <= |b.checks| ==> Evidence(Appended(b, more), c, id, n) == Evidence(b, c, id, n)
    ensures n > |b.checks| && Evidence(b, c, id, |b.checks|).Some?
            ==> Evidence(Appended(b, more), c, id, n) == Evidence(b, c, id, |b.checks|)
  {
    if n > 0 {
      EvidenceStays(b, more, c, id, n - 1);
    }
    hide Known, Matched;
  }

  /** Appending checks never lowers the verified level. */
  lemma AppendedChecks(d: Definition, b: Bundle, more: seq<Check>, c: Demand, now: int)
    ensures var was, next := Certify(d, Some(b), c, now), Certify(d, Some(Appended(b, more)), c, now);
            Rank(was.verifiedLevel) <= Rank(next.verifiedLevel)
  {
    var before, after := Results(d, Some(b), c, now), Results(d, Some(Appended(b, more)), c, now);
    forall i | 0 <= i < |Table()| && before[i].status == Passed
      ensures after[i] == before[i]
    {
      EvidenceStays(b, more, c, Table()[i].id, Read(d, Appended(b, more)));
    }
    assert forall i :: 0 <= i < |Table()| ==> after[i].requirement == before[i].requirement;
    ReachedMonotone(before, after);
    hide Table, Results, IdentityOf, BundleErrors, CheckErrors, Matched, ArtifactOf, Reached, Read;
  }

  /** It may cost the publication: a second check that counts for the same requirement is refused. */
  lemma SecondCheckIsRefused(d: Definition, b: Bundle, k: Check, extra: Check, c: Demand, now: int)
    requires d.level != SpecOnly && Bound(d, b) && k in b.checks && Usable(b, c, k) && Usable(b, c, extra)
    requires extra.requirementId == k.requirementId
    ensures Certify(d, Some(Appended(b, [extra])), c, now).publication == Refused
  {
    var a := Appended(b, [extra]);
    var i :| 0 <= i < |b.checks| && b.checks[i] == k;
    assert a.checks[i] == k && a.checks[|b.checks|] == extra;
    assert Usable(a, c, k) && Usable(a, c, extra) && Bound(d, a);
    CheckErrorsIff(a, c, |a.checks|);
    hide Table, Results, Matched, Usable, BundleErrors, CheckErrors, ArtifactOf, IdentityOf, Reached, Known, Bound;
  }

  // ---------------------------------------------------------------- step by step

  /** The levels are tried in order and the first that is not reached ends the loop. */
  method VerifiedLevel(results: seq<Result>) returns (verified: Level)
    ensures verified == Unverified || verified in LEVEL_ORDER
    ensures forall l :: l in LEVEL_ORDER ==> (Rank(verified) >= Rank(l) <==> AllPassed(results, l))
  {
    verified := Unverified;
    for i := 0 to |LEVEL_ORDER|
      invariant verified == if i == 0 then Unverified else LEVEL_ORDER[i - 1]
      invariant forall k :: 0 <= k < i ==> AllPassed(results, LEVEL_ORDER[k])
    {
      if !AllPassed(results, LEVEL_ORDER[i]) {
        break;
      }
      verified := LEVEL_ORDER[i];
    }
  }

  /** The map of the checks that count, and the errors of those that do not. */
  method CollectEvidence(b: Bundle, c: Demand) returns (evidence: map<string, Check>, errors: seq<Error>)
    ensures errors == CheckErrors(b, c, |b.checks|)
    ensures forall id :: Known(id) ==>
              Evidence(b, c, id, |b.checks|) == if id in evidence then Some(evidence[id]) else None
  {
    evidence, errors := map[], [];
    for i := 0 to |b.checks|
      invariant errors == CheckErrors(b, c, i)
      invariant forall id :: Evidence(b, c, id, i) == if id in evidence then Some(evidence[id]) else None
    {
      var k := b.checks[i];
      if !Known(k.requirementId) {
        errors := errors + [UnknownRequirement(k.requirementId)];
      } else if !Relevant(b, c, k) {
      } else if k.requirementId in evidence {
        errors := errors + [DuplicatedCheck(k.requirementId)];
      } else {
        evidence := evidence[k.requirementId := k];
      }
    }
  }

  method Evaluate(d: Definition, bundle: Option<Bundle>, c: Demand, now: int) returns (report: Report)
    ensures report == Certify(d, bundle, c, now)
  {
    if d.level == SpecOnly {
      var errors := When(bundle.Some?, SpecOnlyHasEvidence);
      return Report(SpecOnly, if errors != [] then Refused else OnlySpec,
                    if bundle.Some? then Mismatch else NoEvidence, None, [], [], errors);
    }
    var errors: seq<Error> := [];
    var matches, identity, artifact, environments := true, NoEvidence, None, [];
    var evidence: map<string, Check> := map[];
    if bundle.Some? {
      var b := bundle.value;
      matches, identity, artifact := BindRelease(d, b);
      environments := Matched(b.environments, c);
      errors := BundleErrors(d, b, c);
      if matches {
        var more;
        evidence, more := CollectEvidence(b, c);
        errors := errors + more;
      }
    }
    var results := Judge(d, bundle, c, now, evidence);
    var verified := VerifiedLevel(results);
    ReachedIsExact(results, verified);
    var publication :=
      if errors != [] || AnyInvalid(results) then Refused
      else if identity == Exact && Rank(verified) >= Rank(d.level) then Verified
      else Pending;
    report := Report(verified, publication, identity, artifact, environments, results, errors);
    hide Bound, IdentityOf, ArtifactOf, Matched, BundleErrors, CheckErrors, Evidence, Table, Results, Reached,
         AnyInvalid, Known, AllPassed;
  }

  method Judge(d: Definition, bundle: Option<Bundle>, c: Demand, now: int, evidence: map<string, Check>)
    returns (results: seq<Result>)
    requires forall id :: Known(id) ==>
               (if id in evidence then Some(evidence[id]) else None)
               == if bundle.None? then None else Evidence(bundle.value, c, id, Read(d, bundle.value))
    ensures results == Results(d, bundle, c, now)
  {
    hide Evidence, StatusOf, Known, Table;
    results := [];
    for i := 0 to |Table()|
      invariant |results| == i
      invariant forall k :: 0 <= k < i ==> results[k] == Results(d, bundle, c, now)[k]
    {
      var r := Table()[i];
      KnownAt(i);
      results := results + [Result(r, StatusOf(r, if r.id in evidence then Some(evidence[r.id]) else None, now))];
    }
    assert results == Results(d, bundle, c, now);
  }

  lemma ReachedIsExact(results: seq<Result>, verified: Level)
    requires verified == Unverified || verified in LEVEL_ORDER
    requires forall l :: l in LEVEL_ORDER ==> (Rank(verified) >= Rank(l) <==> AllPassed(results, l))
    ensures verified == Reached(results)
  {
    assert Experimental in LEVEL_ORDER && Beta in LEVEL_ORDER && Certified in LEVEL_ORDER;
  }

  /** The identity as the source finds it, overwriting as it goes. */
  method BindRelease(d: Definition, b: Bundle)
    returns (matches: bool, identity: Identity, artifact: Option<ArtifactKind>)
    ensures matches == Bound(d, b) && identity == IdentityOf(d, b) && artifact == ArtifactOf(d, b)
  {
    matches, identity, artifact := SameRelease(d, b), MetadataCompatible, None;
    var expected, found := d.artifact, EvidenceArtifact(b);
    if expected.Some? && found.Some? {
      if !ValidArtifact(expected.value) || !ValidArtifact(found.value) || expected.value != found.value {
        matches := false;
      } else {
        identity, artifact := Exact, Some(found.value.kind);
      }
    }
    if !matches {
      identity := Mismatch;
    }
  }
}
