/** The archive catalog: leased export of a source scope, verification, copies and retention
    eligibility. The scope id is an injective function of its identity, so the identity is the
    key; claim tokens are fresh numbers; digests are abstract values. */
module ArchiveCatalog {
  import opened Quantities
  import opened Wrappers

  /** What the deterministic identity of a scope stands for. */
  datatype Source = Source(epoch: nat, startAt: int, endAt: int, schemaVersion: int, revision: string, snapshot: string)

  datatype State = Pending | Exporting | Exported | Verified | IndependentlyCopied | RetentionEligible | Failed

  datatype Manifest = Manifest(path: string, sha256: nat, aggregateSha256: nat, rowCount: int, parquetBytes: int)

  datatype Verification = Verification(manifestVerified: bool, sourceScopeFullyCovered: bool)

  datatype Scope = Scope(
    source: Source,
    state: State,
    claimToken: Option<nat>,
    claimExpiresAt: Option<int>,
    manifest: Option<Manifest>,
    verifiedAt: Option<int>,
    verification: Option<Verification>,
    analyticalReadsAt: Option<int>,
    failure: Option<string>)

  datatype CopyKey = CopyKey(scope: nat, role: string, location: string, aggregateSha256: nat)
  datatype Copy = Copy(manifestSha256: nat, independenceAsserted: bool)

  datatype Catalog = Catalog(scopes: map<nat, Scope>, copies: map<CopyKey, Copy>, nextToken: nat)

  datatype Claim = Claim(scope: nat, token: Option<nat>, reusablePath: Option<string>, previousState: State)

  datatype CatalogError =
    | DifferentSource
    | NoManifestPath
    | Busy
    | ClaimLost
    | ManifestMismatch
    | IndependenceMissing
    | NotVerified
    | CopyDigestDiffers
    | CopyConflict
    | NoScope
    | RetentionTooShort

  predicate Sealed(state: State) { state in {Verified, IndependentlyCopied, RetentionEligible} }

  function NewScope(source: Source): Scope {
    Scope(source, Pending, None, None, None, None, None, None, None)
  }

  // ---------------------------------------------------------------- the operations, as functions

  /** The row that the insert-or-keep statement leaves. */
  function Inserted(c: Catalog, id: nat, source: Source): Scope {
    if id in c.scopes then c.scopes[id] else NewScope(source)
  }

  function LeaseScope(s: Scope, token: nat, expiresAt: int): Scope {
    s.(state := Exporting, claimToken := Some(token), claimExpiresAt := Some(expiresAt), failure := None)
  }

  /** Claims the scope, or hands out the manifest of a sealed one. */
  function ClaimScope(c: Catalog, id: nat, source: Source, now: int, lease: int)
    : Result<(Catalog, Claim), CatalogError>
  {
    var s := Inserted(c, id, source);
    if s.source != source then Failure(DifferentSource)
    else if Sealed(s.state) then
      if s.manifest.None? || s.manifest.value.path == "" then Failure(NoManifestPath)
      else Success((c.(scopes := c.scopes[id := s]), Claim(id, None, Some(s.manifest.value.path), s.state)))
    else if s.state == Exporting && s.claimExpiresAt.Some? && s.claimExpiresAt.value > now then Failure(Busy)
    else
      var reusable := if s.state == Exported && s.manifest.Some? then Some(s.manifest.value.path) else None;
      Success((Catalog(c.scopes[id := LeaseScope(s, c.nextToken, now + lease)], c.copies, c.nextToken + 1),
               Claim(id, Some(c.nextToken), reusable, s.state)))
  }

  predicate Holds(c: Catalog, claim: Claim) {
    && claim.scope in c.scopes
    && c.scopes[claim.scope].claimToken == claim.token && c.scopes[claim.scope].state == Exporting
  }

  function MarkExported(c: Catalog, claim: Claim, manifest: Manifest): Result<Catalog, CatalogError> {
    if !Holds(c, claim) then Failure(ClaimLost)
    else Success(c.(scopes := c.scopes[claim.scope := c.scopes[claim.scope].(
           state := Exported, manifest := Some(manifest), claimToken := None, claimExpiresAt := None)]))
  }

  function MarkVerified(c: Catalog, id: nat, manifestSha256: nat, v: Verification, readsPassed: bool, now: int)
    : Result<Catalog, CatalogError>
  {
    if id !in c.scopes || c.scopes[id].manifest.None? || c.scopes[id].manifest.value.sha256 != manifestSha256
    then Failure(ManifestMismatch)
    else
      var s := c.scopes[id];
      Success(c.(scopes := c.scopes[id := s.(
        state := Verified, verifiedAt := Some(now), verification := Some(v),
        analyticalReadsAt := if readsPassed then Some(now) else s.analyticalReadsAt,
        failure := None, claimToken := None, claimExpiresAt := None)]))
  }

  /** Does nothing once ownership has moved on. */
  function MarkFailed(c: Catalog, claim: Claim, detail: string): Catalog {
    if claim.token.None? || claim.scope !in c.scopes || c.scopes[claim.scope].claimToken != claim.token then c
    else c.(scopes := c.scopes[claim.scope := c.scopes[claim.scope].(
           state := Failed, failure := Some(detail), claimToken := None, claimExpiresAt := None)])
  }

  function RecordCopy(c: Catalog, key: CopyKey, manifestSha256: nat, independenceAsserted: bool)
    : Result<Catalog, CatalogError>
  {
    if key.role == "secondary" && !independenceAsserted then Failure(IndependenceMissing)
    else if key.scope !in c.scopes || !Sealed(c.scopes[key.scope].state) then Failure(NotVerified)
    else
      var s := c.scopes[key.scope];
      if s.manifest.None? || s.manifest.value.sha256 != manifestSha256
         || s.manifest.value.aggregateSha256 != key.aggregateSha256
      then Failure(CopyDigestDiffers)
      else
        var copies := if key in c.copies then c.copies
                      else c.copies[key := Copy(manifestSha256, independenceAsserted)];
        if copies[key].manifestSha256 != manifestSha256 then Failure(CopyConflict)
        else Success(Catalog(
          if key.role == "secondary" then c.scopes[key.scope := s.(state := IndependentlyCopied)] else c.scopes,
          copies, c.nextToken))
  }

  predicate HasPrimary(c: Catalog, id: nat) {
    exists k :: k in c.copies && k.scope == id && k.role == "primary"
  }

  predicate HasIndependentSecondary(c: Catalog, id: nat) {
    exists k :: k in c.copies && k.scope == id && k.role == "secondary" && c.copies[k].independenceAsserted
  }

  /** The facts of the epoch that the evaluation reads. */
  datatype EpochFacts = EpochFacts(dataValid: bool, closed: bool)

  predicate Eligible(c: Catalog, id: nat, days: int, epoch: EpochFacts, now: int)
    requires id in c.scopes
  {
    var s := c.scopes[id];
    && s.verifiedAt.Some?
    && s.verification.Some? && s.verification.value.manifestVerified
    && HasPrimary(c, id)
    && HasIndependentSecondary(c, id)
    && s.source.schemaVersion == 2
    && s.verification.value.sourceScopeFullyCovered
    && s.state != Failed
    && epoch.dataValid && epoch.closed
    && s.source.endAt <= now - days * DAY
    && s.analyticalReadsAt.Some?
  }

  function EvaluateRetention(c: Catalog, id: nat, days: int, epoch: EpochFacts, now: int)
    : Result<Catalog, CatalogError>
  {
    if days < 1 then Failure(RetentionTooShort)
    else if id !in c.scopes then Failure(NoScope)
    else if Eligible(c, id, days, epoch, now) then
      Success(c.(scopes := c.scopes[id := c.scopes[id].(state := RetentionEligible)]))
    else Success(c)
  }

  // ---------------------------------------------------------------- the catalog object

  class ArchiveCatalogStore {
    var scopes: map<nat, Scope>
    var copies: map<CopyKey, Copy>
    var nextToken: nat

    constructor ()
      ensures Contents() == Catalog(map[], map[], 0)
    {
      scopes, copies, nextToken := map[], map[], 0;
    }

    function Contents(): Catalog
      reads this
    {
      Catalog(scopes, copies, nextToken)
    }

    method ClaimArchiveScope(id: nat, source: Source, now: int, lease: int) returns (r: Result<Claim, CatalogError>)
      modifies this
      ensures match ClaimScope(old(Contents()), id, source, now, lease)
              case Success((c, claim)) => r == Success(claim) && Contents() == c
              case Failure(e) => r == Failure(e) && Contents() == old(Contents())
    {
      var scope := if id in scopes then scopes[id] else NewScope(source);
      if scope.source != source {
        return Failure(DifferentSource);
      }
      var previous := scope.state;
      if Sealed(scope.state) {
        if scope.manifest.None? || scope.manifest.value.path == "" {
          return Failure(NoManifestPath);
        }
        scopes := scopes[id := scope];
        return Success(Claim(id, None, Some(scope.manifest.value.path), previous));
      }
      if scope.state == Exporting && scope.claimExpiresAt.Some? && scope.claimExpiresAt.value > now {
        return Failure(Busy);
      }
      var reusable := if scope.state == Exported && scope.manifest.Some? then Some(scope.manifest.value.path) else None;
      scope := scope.(state := Exporting);
      scope := scope.(claimToken := Some(nextToken), claimExpiresAt := Some(now + lease), failure := None);
      var claim := Claim(id, Some(nextToken), reusable, previous);
      scopes, nextToken := scopes[id := scope], nextToken + 1;
      return Success(claim);
    }

    method MarkArchiveExported(claim: Claim, manifest: Manifest) returns (r: Result<(), CatalogError>)
      modifies this
      ensures match MarkExported(old(Contents()), claim, manifest)
              case Success(c) => r.Success? && Contents() == c
              case Failure(e) => r == Failure(e) && Contents() == old(Contents())
    {
      if claim.scope !in scopes || scopes[claim.scope].claimToken != claim.token
          || scopes[claim.scope].state != Exporting {
        return Failure(ClaimLost);
      }
      var scope := scopes[claim.scope].(state := Exported, manifest := Some(manifest));
      scopes := scopes[claim.scope := scope.(claimToken := None, claimExpiresAt := None)];
      return Success(());
    }

    method MarkArchiveVerified(id: nat, manifestSha256: nat, v: Verification, readsPassed: bool, now: int)
      returns (r: Result<(), CatalogError>)
      modifies this
      ensures match MarkVerified(old(Contents()), id, manifestSha256, v, readsPassed, now)
              case Success(c) => r.Success? && Contents() == c
              case Failure(e) => r == Failure(e) && Contents() == old(Contents())
    {
      if id !in scopes || scopes[id].manifest.None? || scopes[id].manifest.value.sha256 != manifestSha256 {
        return Failure(ManifestMismatch);
      }
      var scope := scopes[id].(state := Verified, verifiedAt := Some(now), verification := Some(v));
      if readsPassed {
        scope := scope.(analyticalReadsAt := Some(now));
      }
      scopes := scopes[id := scope.(failure := None, claimToken := None, claimExpiresAt := None)];
      return Success(());
    }

    method MarkArchiveFailed(claim: Claim, detail: string)
      modifies this
      ensures Contents() == MarkFailed(old(Contents()), claim, detail)
    {
      if claim.token.None? || claim.scope !in scopes || scopes[claim.scope].claimToken != claim.token {
        return;
      }
      var scope := scopes[claim.scope].(state := Failed, failure := Some(detail));
      scopes := scopes[claim.scope := scope.(claimToken := None, claimExpiresAt := None)];
    }

    method RecordCopyVerification(key: CopyKey, manifestSha256: nat, independenceAsserted: bool)
      returns (r: Result<(), CatalogError>)
      modifies this
      ensures match RecordCopy(old(Contents()), key, manifestSha256, independenceAsserted)
              case Success(c) => r.Success? && Contents() == c
              case Failure(e) => r == Failure(e) && Contents() == old(Contents())
    {
      if key.role == "secondary" && !independenceAsserted {
        return Failure(IndependenceMissing);
      }
      if key.scope !in scopes || !Sealed(scopes[key.scope].state) {
        return Failure(NotVerified);
      }
      var scope := scopes[key.scope];
      if scope.manifest.None? || scope.manifest.value.sha256 != manifestSha256
         || scope.manifest.value.aggregateSha256 != key.aggregateSha256 {
        return Failure(CopyDigestDiffers);
      }
      if key in copies {
        if copies[key].manifestSha256 != manifestSha256 {
          return Failure(CopyConflict);
        }
      } else {
        copies := copies[key := Copy(manifestSha256, independenceAsserted)];
      }
      if key.role == "secondary" {
        scopes := scopes[key.scope := scope.(state := IndependentlyCopied)];
      }
      return Success(());
    }

    method EvaluateRetentionEligibility(id: nat, days: int, epoch: EpochFacts, now: int)
      returns (r: Result<bool, CatalogError>)
      modifies this
      ensures match EvaluateRetention(old(Contents()), id, days, epoch, now)
              case Success(c) => r == Success(Eligible(old(Contents()), id, days, epoch, now)) && Contents() == c
              case Failure(e) => r == Failure(e) && Contents() == old(Contents())
    {
      if days < 1 {
        return Failure(RetentionTooShort);
      }
      if id !in scopes {
        return Failure(NoScope);
      }
      var eligible := Eligible(Contents(), id, days, epoch, now);
      if eligible {
        scopes := scopes[id := scopes[id].(state := RetentionEligible)];
      }
      return Success(eligible);
    }
  }

  // ---------------------------------------------------------------- runs

  /** One transaction of some worker, with whatever claim or identifiers it holds. */
  datatype Event =
    | Claiming(id: nat, source: Source, now: int, lease: int)
    | ReportingExported(claim: Claim, manifest: Manifest)
    | Verifying(id: nat, manifestSha256: nat, v: Verification, readsPassed: bool, now: int)
    | Failing(claim: Claim, detail: string)
    | Copying(key: CopyKey, manifestSha256: nat, independenceAsserted: bool)
    | Evaluating(id: nat, days: int, epoch: EpochFacts, now: int)

  function Commit(c: Catalog, r: Result<Catalog, CatalogError>): Catalog {
    match r
    case Success(after) => after
    case Failure(_) => c
  }

  function StepOf(c: Catalog, e: Event): Catalog {
    match e
    case Claiming(id, source, now, lease) =>
      (match ClaimScope(c, id, source, now, lease)
       case Success((after, _)) => after
       case Failure(_) => c)
    case ReportingExported(claim, manifest) => Commit(c, MarkExported(c, claim, manifest))
    case Verifying(id, sha, v, readsPassed, now) => Commit(c, MarkVerified(c, id, sha, v, readsPassed, now))
    case Failing(claim, detail) => MarkFailed(c, claim, detail)
    case Copying(key, sha, asserted) => Commit(c, RecordCopy(c, key, sha, asserted))
    case Evaluating(id, days, epoch, now) => Commit(c, EvaluateRetention(c, id, days, epoch, now))
  }

  function Run(c: Catalog, events: seq<Event>): Catalog {
    if events == [] then c else StepOf(Run(c, events[..|events| - 1]), events[|events| - 1])
  }

  /** Exporting iff a claim token is held; sealed iff verified at some time, and then with a
      manifest. */
  predicate ScopeOk(s: Scope, nextToken: nat) {
    && (s.state == Exporting <==> s.claimToken.Some?)
    && (s.claimToken.Some? <==> s.claimExpiresAt.Some?)
    && (s.claimToken.Some? ==> s.claimToken.value < nextToken)
    && (Sealed(s.state) <==> s.verifiedAt.Some?)
    && (Sealed(s.state) ==> s.manifest.Some?)
    && (s.state == Exported ==> s.manifest.Some?)
  }

  /** Every copy belongs to a sealed scope and carries its digests; a secondary is independent. */
  predicate CopyOk(c: Catalog, key: CopyKey)
    requires key in c.copies
  {
    && key.scope in c.scopes && Sealed(c.scopes[key.scope].state)
    && c.scopes[key.scope].manifest.Some?
    && c.copies[key].manifestSha256 == c.scopes[key.scope].manifest.value.sha256
    && key.aggregateSha256 == c.scopes[key.scope].manifest.value.aggregateSha256
    && (key.role == "secondary" ==> c.copies[key].independenceAsserted)
  }

  predicate Ok(c: Catalog) {
    && (forall id :: id in c.scopes ==> ScopeOk(c.scopes[id], c.nextToken))
    && (forall key :: key in c.copies ==> CopyOk(c, key))
    && (forall id :: id in c.scopes && c.scopes[id].state == RetentionEligible ==>
          HasPrimary(c, id) && HasIndependentSecondary(c, id))
  }

  /** What a sealed scope keeps for ever. */
  predicate StaysSealed(a: Catalog, b: Catalog, id: nat) {
    id in a.scopes && Sealed(a.scopes[id].state) ==>
      id in b.scopes && Sealed(b.scopes[id].state) && b.scopes[id].manifest == a.scopes[id].manifest
  }

  lemma StepKeepsSeal(c: Catalog, e: Event, id: nat)
    requires Ok(c)
    ensures StaysSealed(c, StepOf(c, e), id)
  {
    assert id in c.scopes ==> ScopeOk(c.scopes[id], c.nextToken);
  }

  lemma CopiesOnlyGrow(c: Catalog, e: Event)
    ensures forall key :: key in c.copies ==> key in StepOf(c, e).copies && StepOf(c, e).copies[key] == c.copies[key]
    ensures c.nextToken <= StepOf(c, e).nextToken
    ensures c.scopes.Keys <= StepOf(c, e).scopes.Keys
  {
  }

  lemma ClaimingKeepsScope(c: Catalog, e: Event, id: nat)
    requires Ok(c) && e.Claiming? && id in StepOf(c, e).scopes
    ensures ScopeOk(StepOf(c, e).scopes[id], StepOf(c, e).nextToken)
  {
    assert id in c.scopes ==> ScopeOk(c.scopes[id], c.nextToken);
  }

  lemma ReportingKeepsScope(c: Catalog, e: Event, id: nat)
    requires Ok(c) && (e.ReportingExported? || e.Verifying? || e.Failing?) && id in StepOf(c, e).scopes
    ensures ScopeOk(StepOf(c, e).scopes[id], StepOf(c, e).nextToken)
  {
    assert ScopeOk(c.scopes[id], c.nextToken);
  }

  lemma SealingKeepsScope(c: Catalog, e: Event, id: nat)
    requires Ok(c) && (e.Copying? || e.Evaluating?) && id in StepOf(c, e).scopes
    ensures ScopeOk(StepOf(c, e).scopes[id], StepOf(c, e).nextToken)
  {
    assert ScopeOk(c.scopes[id], c.nextToken);
  }

  lemma StepKeepsScopes(c: Catalog, e: Event)
    requires Ok(c)
    ensures forall id :: id in StepOf(c, e).scopes ==> ScopeOk(StepOf(c, e).scopes[id], StepOf(c, e).nextToken)
  {
    forall id | id in StepOf(c, e).scopes
      ensures ScopeOk(StepOf(c, e).scopes[id], StepOf(c, e).nextToken)
    {
      if e.Claiming? {
        ClaimingKeepsScope(c, e, id);
      } else if e.Copying? || e.Evaluating? {
        SealingKeepsScope(c, e, id);
      } else {
        ReportingKeepsScope(c, e, id);
      }
    }
  }

  lemma StepKeepsCopies(c: Catalog, e: Event)
    requires Ok(c)
    ensures forall key :: key in StepOf(c, e).copies ==> CopyOk(StepOf(c, e), key)
  {
    forall key | key in StepOf(c, e).copies
      ensures CopyOk(StepOf(c, e), key)
    {
      StepKeepsSeal(c, e, key.scope);
      CopiesOnlyGrow(c, e);
      assert key in c.copies ==> CopyOk(c, key);
      assert key.scope in c.scopes ==> ScopeOk(c.scopes[key.scope], c.nextToken);
    }
  }

  /** A scope becomes retention eligible only through an evaluation that saw both copies. */
  lemma EligibleSawCopies(c: Catalog, e: Event, id: nat)
    requires Ok(c) && id in StepOf(c, e).scopes && StepOf(c, e).scopes[id].state == RetentionEligible
    ensures HasPrimary(c, id) && HasIndependentSecondary(c, id)
  {
    EligibleAlreadyOrNow(c, e, id);
  }

  lemma EligibleAlreadyOrNow(c: Catalog, e: Event, id: nat)
    requires id in StepOf(c, e).scopes && StepOf(c, e).scopes[id].state == RetentionEligible
    ensures id in c.scopes
    ensures || c.scopes[id].state == RetentionEligible
            || (e.Evaluating? && e.id == id && Eligible(c, id, e.days, e.epoch, e.now))
  {
  }

  lemma CopiesRemain(before: Catalog, after: Catalog, id: nat)
    requires forall key :: key in before.copies ==> key in after.copies && after.copies[key] == before.copies[key]
    requires HasPrimary(before, id) && HasIndependentSecondary(before, id)
    ensures HasPrimary(after, id) && HasIndependentSecondary(after, id)
  {
    var p :| p in before.copies && p.scope == id && p.role == "primary";
    var s :| s in before.copies && s.scope == id && s.role == "secondary" && before.copies[s].independenceAsserted;
    assert p in after.copies && s in after.copies;
  }

  lemma StepKeepsEligible(c: Catalog, e: Event)
    requires Ok(c)
    ensures forall id :: id in StepOf(c, e).scopes && StepOf(c, e).scopes[id].state == RetentionEligible ==>
      HasPrimary(StepOf(c, e), id) && HasIndependentSecondary(StepOf(c, e), id)
  {
    CopiesOnlyGrow(c, e);
    forall id | id in StepOf(c, e).scopes && StepOf(c, e).scopes[id].state == RetentionEligible
      ensures HasPrimary(StepOf(c, e), id) && HasIndependentSecondary(StepOf(c, e), id)
    {
      EligibleSawCopies(c, e, id);
      CopiesRemain(c, StepOf(c, e), id);
    }
  }

  lemma {:induction false} RunKeepsOk(c: Catalog, events: seq<Event>)
    requires Ok(c)
    ensures Ok(Run(c, events))
  {
    if events != [] {
      var before := Run(c, events[..|events| - 1]);
      RunKeepsOk(c, events[..|events| - 1]);
      StepKeepsScopes(before, events[|events| - 1]);
      StepKeepsCopies(before, events[|events| - 1]);
      StepKeepsEligible(before, events[|events| - 1]);
    }
  }

  /** Once sealed, a scope stays sealed and its manifest path and digests never change. */
  lemma {:induction false} SealIsForEver(c: Catalog, events: seq<Event>, id: nat)
    requires Ok(c)
    ensures StaysSealed(c, Run(c, events), id)
  {
    if events != [] {
      SealIsForEver(c, events[..|events| - 1], id);
      RunKeepsOk(c, events[..|events| - 1]);
      StepKeepsSeal(Run(c, events[..|events| - 1]), events[|events| - 1], id);
    }
  }

  /** Only the worker of the latest claim can mark a scope exported or failed. */
  predicate Fenced(c: Catalog, claim: Claim) {
    && claim.scope in c.scopes
    && c.scopes[claim.scope].claimToken != claim.token
    && claim.token.Some? && claim.token.value < c.nextToken
  }

  lemma StepKeepsFence(c: Catalog, e: Event, claim: Claim)
    requires Fenced(c, claim)
    ensures Fenced(StepOf(c, e), claim)
  {
  }

  lemma {:induction false} FencedClaimIsPowerless(c: Catalog, events: seq<Event>, claim: Claim, m: Manifest,
                                                  detail: string)
    requires Fenced(c, claim)
    ensures var later := Run(c, events);
      && Fenced(later, claim)
      && MarkExported(later, claim, m) == Failure(ClaimLost)
      && MarkFailed(later, claim, detail) == later
  {
    if events != [] {
      FencedClaimIsPowerless(c, events[..|events| - 1], claim, m, detail);
      StepKeepsFence(Run(c, events[..|events| - 1]), events[|events| - 1], claim);
    }
  }

  /** A new claim fences every earlier one of its scope, and so does using the claim. */
  lemma ClaimFencesEarlier(c: Catalog, id: nat, source: Source, now: int, lease: int, earlier: Claim)
    requires Ok(c) && earlier.scope == id && earlier.token.Some? && earlier.token.value < c.nextToken
    requires ClaimScope(c, id, source, now, lease).Success?
    ensures Fenced(ClaimScope(c, id, source, now, lease).value.0, earlier)
  {
    assert id in c.scopes ==> ScopeOk(c.scopes[id], c.nextToken);
  }

  lemma UseFencesClaim(c: Catalog, claim: Claim, m: Manifest, detail: string)
    requires Ok(c) && Holds(c, claim)
    ensures MarkExported(c, claim, m).Success? && Fenced(MarkExported(c, claim, m).value, claim)
    ensures Fenced(MarkFailed(c, claim, detail), claim)
  {
    assert ScopeOk(c.scopes[claim.scope], c.nextToken);
  }

  /** Verification needs no claim: recorded while another worker re-exports an already exported
      manifest, it seals the scope and that worker's claim is fenced. */
  lemma VerificationFencesClaims(c: Catalog, claim: Claim, manifestSha256: nat, v: Verification, readsPassed: bool,
                                 now: int)
    requires Ok(c) && claim.scope in c.scopes && claim.token.Some? && claim.token.value < c.nextToken
    ensures var r := MarkVerified(c, claim.scope, manifestSha256, v, readsPassed, now);
      && (r.Success? <==> c.scopes[claim.scope].manifest.Some?
                          && c.scopes[claim.scope].manifest.value.sha256 == manifestSha256)
      && (r.Success? ==> Fenced(r.value, claim) && r.value.scopes[claim.scope].state == Verified)
  {
  }

  /** Such a state is reachable: a scope is exported and claimed again before its verification. */
  lemma VerificationOvertakesClaim(id: nat, source: Source, m: Manifest, v: Verification, now: int, lease: int)
    ensures var first, second := Claim(id, Some(0), None, Pending), Claim(id, Some(1), Some(m.path), Exported);
      var claiming := Claiming(id, source, now, lease);
      var claimed := Run(Catalog(map[], map[], 0), [claiming, ReportingExported(first, m), claiming]);
      var sealed := StepOf(claimed, Verifying(id, m.sha256, v, false, now));
      && Holds(claimed, second)
      && id in sealed.scopes && sealed.scopes[id].state == Verified && Fenced(sealed, second)
  {
    var e0 := Claiming(id, source, now, lease);
    var e1 := ReportingExported(Claim(id, Some(0), None, Pending), m);
    var empty := Catalog(map[], map[], 0);
    assert [e0][..0] == [] && [e0, e1][..1] == [e0] && [e0, e1, e0][..2] == [e0, e1];
    assert Run(empty, [e0]) == StepOf(empty, e0);
    assert Run(empty, [e0, e1]) == StepOf(StepOf(empty, e0), e1);
    assert Run(empty, [e0, e1, e0]) == StepOf(StepOf(StepOf(empty, e0), e1), e0);
  }

  /** A claim handed out for a sealed scope carries no token and can change nothing. */
  lemma SealedClaimIsReadOnly(c: Catalog, claim: Claim, m: Manifest, detail: string)
    requires Ok(c) && claim.token.None?
    ensures MarkExported(c, claim, m) == Failure(ClaimLost)
    ensures MarkFailed(c, claim, detail) == c
  {
    assert claim.scope in c.scopes ==> ScopeOk(c.scopes[claim.scope], c.nextToken);
  }

  /** The "no manifest path" error is reachable exactly for a sealed scope whose recorded path is
      the empty string: a sealed scope always has a manifest. */
  lemma NoManifestPathExactly(c: Catalog, id: nat, source: Source, now: int, lease: int)
    requires Ok(c)
    ensures ClaimScope(c, id, source, now, lease) == Failure(NoManifestPath) <==>
            (&& id in c.scopes && c.scopes[id].source == source && Sealed(c.scopes[id].state)
             && c.scopes[id].manifest.Some? && c.scopes[id].manifest.value.path == "")
  {
    assert id in c.scopes ==> ScopeOk(c.scopes[id], c.nextToken);
  }

  predicate PathsRecorded(c: Catalog) {
    forall id :: id in c.scopes && c.scopes[id].manifest.Some? ==> c.scopes[id].manifest.value.path != ""
  }

  predicate ReportsPaths(events: seq<Event>) {
    forall i :: 0 <= i < |events| && events[i].ReportingExported? ==> events[i].manifest.path != ""
  }

  lemma StepKeepsPaths(c: Catalog, e: Event)
    requires PathsRecorded(c) && (e.ReportingExported? ==> e.manifest.path != "")
    ensures PathsRecorded(StepOf(c, e))
  {
  }

  /** While every export reports a path, the "no manifest path" error is unreachable. */
  lemma {:induction false} NoManifestPathIsUnreachable(c: Catalog, events: seq<Event>, id: nat, source: Source,
                                                       now: int, lease: int)
    requires Ok(c) && PathsRecorded(c) && ReportsPaths(events)
    ensures PathsRecorded(Run(c, events))
    ensures ClaimScope(Run(c, events), id, source, now, lease) != Failure(NoManifestPath)
  {
    if events != [] {
      var n := |events| - 1;
      NoManifestPathIsUnreachable(c, events[..n], id, source, now, lease);
      StepKeepsPaths(Run(c, events[..n]), events[n]);
    }
    RunKeepsOk(c, events);
    NoManifestPathExactly(Run(c, events), id, source, now, lease);
  }
}
