/** When the archive catalog hands out, seals and releases a scope, and what each operation writes, in
    the columns of the catalog and the events of a run. */
module ArchiveCatalogRule {
  import opened ArchiveCatalog
  import opened Quantities
  import opened Wrappers

  const EMPTY := Catalog(map[], map[], 0)

  // ---------------------------------------------------------------- claiming

  /** A claim on a scope that another worker is exporting, with its lease not over, fails and changes
      nothing. */
  lemma BusyScopeIsLeftAlone(c: Catalog, id: nat, source: Source, now: int, lease: int)
    requires id in c.scopes && c.scopes[id].source == source
    requires c.scopes[id].state == Exporting
    requires c.scopes[id].claimExpiresAt.Some? && now < c.scopes[id].claimExpiresAt.value
    ensures ClaimScope(c, id, source, now, lease) == Failure(Busy)
    ensures StepOf(c, Claiming(id, source, now, lease)) == c
  {
  }

  /** The event neither uses the claim nor verifies the scope, and a claim of it comes before the expiry. */
  predicate LeavesExport(e: Event, id: nat, token: nat, expiry: int) {
    match e
    case Claiming(k, _, now, _) => k == id ==> now < expiry
    case ReportingExported(claim, _) => claim.scope == id ==> claim.token != Some(token)
    case Failing(claim, _) => claim.scope == id ==> claim.token != Some(token)
    case Verifying(k, _, _, _, _) => k != id
    case _ => true
  }

  lemma ExportStepIsExclusive(c: Catalog, e: Event, id: nat, token: nat, expiry: int)
    requires id in c.scopes && ScopeOk(c.scopes[id], c.nextToken)
    requires c.scopes[id].claimToken == Some(token) && c.scopes[id].claimExpiresAt == Some(expiry)
    requires LeavesExport(e, id, token, expiry)
    ensures id in StepOf(c, e).scopes && StepOf(c, e).scopes[id] == c.scopes[id]
  {
  }

  /** The worker of an export is alone with its scope until its lease is over, unless it reports itself
      or the manifest of an earlier export is verified. */
  lemma {:induction false} LiveExportIsExclusive(c: Catalog, events: seq<Event>, id: nat, token: nat, expiry: int)
    requires Ok(c) && id in c.scopes
    requires c.scopes[id].claimToken == Some(token) && c.scopes[id].claimExpiresAt == Some(expiry)
    requires forall i :: 0 <= i < |events| ==> LeavesExport(events[i], id, token, expiry)
    ensures id in Run(c, events).scopes && Run(c, events).scopes[id] == c.scopes[id]
  {
    if events != [] {
      var n := |events| - 1;
      LiveExportIsExclusive(c, events[..n], id, token, expiry);
      RunKeepsOk(c, events[..n]);
      ScopeIsOk(Run(c, events[..n]), id);
      ExportStepIsExclusive(Run(c, events[..n]), events[n], id, token, expiry);
    }
  }

  lemma ScopeIsOk(c: Catalog, id: nat)
    requires Ok(c) && id in c.scopes
    ensures ScopeOk(c.scopes[id], c.nextToken)
  {
  }

  /** A scope that was never claimed is pending, with nothing recorded about it. */
  lemma NewScopeIsPending(source: Source)
    ensures var s := NewScope(source);
      && s.source == source && s.state == Pending && s.claimToken.None? && s.claimExpiresAt.None?
      && s.manifest.None? && s.verifiedAt.None? && s.verification.None? && s.analyticalReadsAt.None? && s.failure.None?
  {
  }

  /** A claim that is granted leases the scope from now and keeps what was recorded about it; only an
      exported manifest can be used again. */
  lemma GrantedClaim(c: Catalog, id: nat, source: Source, now: int, lease: int)
    requires var s := if id in c.scopes then c.scopes[id] else NewScope(source);
      && s.source == source && s.state !in {Verified, IndependentlyCopied, RetentionEligible}
      && !(s.state == Exporting && s.claimExpiresAt.Some? && now < s.claimExpiresAt.value)
    ensures var s := if id in c.scopes then c.scopes[id] else NewScope(source);
      var r := ClaimScope(c, id, source, now, lease);
      && r.Success?
      && var (after, claim) := r.value;
         && claim.scope == id && claim.token == Some(c.nextToken) && claim.previousState == s.state
         && claim.reusablePath
            == (if s.state == Exported && s.manifest.Some? then Some(s.manifest.value.path) else None)
         && after.nextToken == c.nextToken + 1 && after.copies == c.copies && id in after.scopes
         && (forall k :: k in c.scopes && k != id ==> k in after.scopes && after.scopes[k] == c.scopes[k])
         && var t := after.scopes[id];
            && t.state == Exporting && t.claimToken == Some(c.nextToken) && t.claimExpiresAt == Some(now + lease)
            && t.failure.None?
            && t.source == source && t.manifest == s.manifest && t.verifiedAt == s.verifiedAt
            && t.verification == s.verification && t.analyticalReadsAt == s.analyticalReadsAt
  {
  }

  /** A sealed scope is not leased: its recorded path is handed out, and a scope of another source is
      refused. */
  lemma SealedOrForeignClaim(c: Catalog, id: nat, source: Source, now: int, lease: int)
    requires id in c.scopes
    ensures c.scopes[id].source != source ==> ClaimScope(c, id, source, now, lease) == Failure(DifferentSource)
    ensures c.scopes[id].source == source && c.scopes[id].state in {Verified, IndependentlyCopied, RetentionEligible}
            && c.scopes[id].manifest.Some? && c.scopes[id].manifest.value.path != "" ==>
      ClaimScope(c, id, source, now, lease)
      == Success((c, Claim(id, None, Some(c.scopes[id].manifest.value.path), c.scopes[id].state)))
  {
    assert c.scopes[id := c.scopes[id]] == c.scopes;
  }

  // ---------------------------------------------------------------- reporting

  /** Only this scope changes, and its claim is released. */
  predicate ReleasesOnly(c: Catalog, after: Catalog, id: nat) {
    && id in c.scopes && after.copies == c.copies && after.nextToken == c.nextToken
    && after.scopes.Keys == c.scopes.Keys
    && (forall k :: k in c.scopes && k != id ==> after.scopes[k] == c.scopes[k])
    && after.scopes[id].claimToken.None? && after.scopes[id].claimExpiresAt.None?
    && after.scopes[id].source == c.scopes[id].source
  }

  /** The holder of the claim records the manifest; anybody else has lost the claim. */
  lemma ExportedScope(c: Catalog, claim: Claim, m: Manifest)
    ensures var r := MarkExported(c, claim, m);
      if claim.scope in c.scopes && c.scopes[claim.scope].state == Exporting
         && c.scopes[claim.scope].claimToken == claim.token
      then
        && r.Success? && ReleasesOnly(c, r.value, claim.scope)
        && r.value.scopes[claim.scope].state == Exported && r.value.scopes[claim.scope].manifest == Some(m)
      else r == Failure(ClaimLost)
  {
  }

  /** Verification of the recorded digest seals the scope with what was found. */
  lemma VerifiedScope(c: Catalog, id: nat, sha: nat, v: Verification, readsPassed: bool, now: int)
    ensures var r := MarkVerified(c, id, sha, v, readsPassed, now);
      if id in c.scopes && c.scopes[id].manifest.Some? && c.scopes[id].manifest.value.sha256 == sha then
        && r.Success? && ReleasesOnly(c, r.value, id)
        && var s := r.value.scopes[id];
           && s.state == Verified && s.verifiedAt == Some(now) && s.verification == Some(v) && s.failure.None?
           && s.manifest == c.scopes[id].manifest
           && s.analyticalReadsAt == (if readsPassed then Some(now) else c.scopes[id].analyticalReadsAt)
      else r == Failure(ManifestMismatch)
  {
  }

  /** The holder of the claim records a failure; without the claim nothing happens. */
  lemma FailedScope(c: Catalog, claim: Claim, detail: string)
    ensures var after := MarkFailed(c, claim, detail);
      if claim.token.Some? && claim.scope in c.scopes && c.scopes[claim.scope].claimToken == claim.token then
        && ReleasesOnly(c, after, claim.scope)
        && after.scopes[claim.scope].state == Failed && after.scopes[claim.scope].failure == Some(detail)
        && after.scopes[claim.scope].manifest == c.scopes[claim.scope].manifest
      else after == c
  {
  }

  /** A copy is recorded once, and a secondary one advances the scope; everything else is refused. */
  lemma CopiedScope(c: Catalog, key: CopyKey, sha: nat, asserted: bool)
    ensures var r := RecordCopy(c, key, sha, asserted);
      if key.role == "secondary" && !asserted then r == Failure(IndependenceMissing)
      else if key.scope !in c.scopes || c.scopes[key.scope].state !in {Verified, IndependentlyCopied, RetentionEligible}
      then r == Failure(NotVerified)
      else if !(&& c.scopes[key.scope].manifest.Some? && c.scopes[key.scope].manifest.value.sha256 == sha
                && c.scopes[key.scope].manifest.value.aggregateSha256 == key.aggregateSha256)
      then r == Failure(CopyDigestDiffers)
      else if key in c.copies && c.copies[key].manifestSha256 != sha then r == Failure(CopyConflict)
      else
        && r.Success? && r.value.nextToken == c.nextToken
        && r.value.copies == (if key in c.copies then c.copies else c.copies[key := Copy(sha, asserted)])
        && r.value.scopes.Keys == c.scopes.Keys
        && (forall k :: k in c.scopes && k != key.scope ==> r.value.scopes[k] == c.scopes[k])
        && r.value.scopes[key.scope].state
           == (if key.role == "secondary" then IndependentlyCopied else c.scopes[key.scope].state)
        && r.value.scopes[key.scope].manifest == c.scopes[key.scope].manifest
  {
  }

  // ---------------------------------------------------------------- retention

  predicate Primary(c: Catalog, id: nat, k: CopyKey) {
    k in c.copies && k.scope == id && k.role == "primary"
  }

  predicate IndependentSecondary(c: Catalog, id: nat, k: CopyKey) {
    k in c.copies && k.scope == id && k.role == "secondary" && c.copies[k].independenceAsserted
  }

  /** The hot age has passed for a scope of a valid, closed epoch in the current schema. */
  predicate HotAgePassed(s: Scope, days: int, epoch: EpochFacts, now: int) {
    && 1 <= days && s.source.endAt + days * DAY <= now
    && epoch.dataValid && epoch.closed && s.source.schemaVersion == 2
  }

  /** The manifest was verified over the whole source, and the reads passed. */
  predicate Proved(s: Scope) {
    && s.verifiedAt.Some? && s.verification.Some?
    && s.verification.value.manifestVerified && s.verification.value.sourceScopeFullyCovered
    && s.analyticalReadsAt.Some?
  }

  /** An evaluation finds a scope eligible if and only if it is proved, not failed, copied twice and past
      its hot age; it then marks it so and changes nothing else, and otherwise changes nothing. */
  lemma RetentionExactly(c: Catalog, id: nat, days: int, epoch: EpochFacts, now: int)
    requires 1 <= days && id in c.scopes
    ensures var r := EvaluateRetention(c, id, days, epoch, now);
      && r.Success?
      && (Eligible(c, id, days, epoch, now) <==>
            && Proved(c.scopes[id]) && c.scopes[id].state != Failed && HotAgePassed(c.scopes[id], days, epoch, now)
            && (exists k :: Primary(c, id, k)) && (exists k :: IndependentSecondary(c, id, k)))
      && r.value == (if Eligible(c, id, days, epoch, now)
                     then c.(scopes := c.scopes[id := c.scopes[id].(state := RetentionEligible)]) else c)
  {
    if HasPrimary(c, id) {
      var k :| k in c.copies && k.scope == id && k.role == "primary";
      assert Primary(c, id, k);
    }
    if HasIndependentSecondary(c, id) {
      var k :| k in c.copies && k.scope == id && k.role == "secondary" && c.copies[k].independenceAsserted;
      assert IndependentSecondary(c, id, k);
    }
    if k :| Primary(c, id, k) {
      assert HasPrimary(c, id);
    }
    if k :| IndependentSecondary(c, id, k) {
      assert HasIndependentSecondary(c, id);
    }
  }

  /** Too few days or an unknown scope is refused. */
  lemma RetentionRefused(c: Catalog, id: nat, days: int, epoch: EpochFacts, now: int)
    ensures days < 1 ==> EvaluateRetention(c, id, days, epoch, now) == Failure(RetentionTooShort)
    ensures 1 <= days && id !in c.scopes ==> EvaluateRetention(c, id, days, epoch, now) == Failure(NoScope)
  {
  }

  /** The half that grants: a scope with all of this is marked eligible. */
  lemma ProvedScopeIsReleased(c: Catalog, id: nat, days: int, epoch: EpochFacts, now: int, p: CopyKey, s: CopyKey)
    requires id in c.scopes && Proved(c.scopes[id]) && c.scopes[id].state != Failed
    requires HotAgePassed(c.scopes[id], days, epoch, now)
    requires Primary(c, id, p) && IndependentSecondary(c, id, s)
    ensures StepOf(c, Evaluating(id, days, epoch, now)).scopes[id].state == RetentionEligible
  {
    RetentionExactly(c, id, days, epoch, now);
  }

  /** The state before event n of a run from the empty catalog. */
  function Before(events: seq<Event>, n: nat): Catalog
    requires n <= |events|
  {
    Run(EMPTY, events[..n])
  }

  lemma NextIs(events: seq<Event>, n: nat)
    requires n < |events|
    ensures Before(events, n + 1) == StepOf(Before(events, n), events[n])
  {
    assert events[..n + 1][..n] == events[..n];
  }

  /** Event n is the evaluation that found the scope eligible. */
  predicate ReleasedBy(events: seq<Event>, n: nat, id: nat) {
    && n < |events| && events[n].Evaluating? && events[n].id == id && id in Before(events, n).scopes
    && Proved(Before(events, n).scopes[id])
    && HotAgePassed(Before(events, n).scopes[id], events[n].days, events[n].epoch, events[n].now)
  }

  /** Event n is a verification of the recorded digest of the scope. */
  predicate VerifiedBy(events: seq<Event>, n: nat, id: nat) {
    && n < |events| && events[n].Verifying? && events[n].id == id && id in Before(events, n).scopes
    && Before(events, n).scopes[id].manifest.Some?
    && Before(events, n).scopes[id].manifest.value.sha256 == events[n].manifestSha256
  }

  predicate IsEligible(c: Catalog, id: nat) { id in c.scopes && c.scopes[id].state == RetentionEligible }

  lemma {:induction false} EligibleWasReleased(events: seq<Event>, m: nat, id: nat) returns (n: nat)
    requires m <= |events| && IsEligible(Before(events, m), id)
    ensures n < m && ReleasedBy(events, n, id)
  {
    if m == 0 {
      assert false;
    } else {
      NextIs(events, m - 1);
      if IsEligible(Before(events, m - 1), id) {
        n := EligibleWasReleased(events, m - 1, id);
      } else {
        n := m - 1;
        OnlyEvaluationReleases(Before(events, n), events[n], id);
      }
    }
  }

  lemma OnlyEvaluationReleases(c: Catalog, e: Event, id: nat)
    requires IsEligible(StepOf(c, e), id) && !IsEligible(c, id)
    ensures e.Evaluating? && e.id == id && id in c.scopes && Proved(c.scopes[id])
    ensures HotAgePassed(c.scopes[id], e.days, e.epoch, e.now)
  {
  }

  /** The verification on record is that of the last successful verification event. */
  lemma {:induction false} VerificationWasRecorded(events: seq<Event>, m: nat, id: nat) returns (n: nat)
    requires m <= |events| && id in Before(events, m).scopes && Before(events, m).scopes[id].verification.Some?
    ensures n < m && VerifiedBy(events, n, id)
    ensures Before(events, m).scopes[id].verification == Some(events[n].v)
  {
    if m == 0 {
      assert false;
    } else {
      NextIs(events, m - 1);
      var before := Before(events, m - 1);
      if VerifiedBy(events, m - 1, id) {
        n := m - 1;
      } else {
        VerificationStays(before, events[m - 1], id);
        n := VerificationWasRecorded(events, m - 1, id);
      }
    }
  }

  lemma VerificationStays(c: Catalog, e: Event, id: nat)
    requires id in StepOf(c, e).scopes && StepOf(c, e).scopes[id].verification.Some?
    requires !(&& e.Verifying? && e.id == id && id in c.scopes && c.scopes[id].manifest.Some?
               && c.scopes[id].manifest.value.sha256 == e.manifestSha256)
    ensures id in c.scopes && c.scopes[id].verification == StepOf(c, e).scopes[id].verification
  {
  }

  /** Reads on record were passed in some successful verification event. */
  lemma {:induction false} ReadsWerePassed(events: seq<Event>, m: nat, id: nat) returns (n: nat)
    requires m <= |events| && id in Before(events, m).scopes && Before(events, m).scopes[id].analyticalReadsAt.Some?
    ensures n < m && VerifiedBy(events, n, id) && events[n].readsPassed
  {
    if m == 0 {
      assert false;
    } else {
      NextIs(events, m - 1);
      var before := Before(events, m - 1);
      if VerifiedBy(events, m - 1, id) && events[m - 1].readsPassed {
        n := m - 1;
      } else {
        ReadsStay(before, events[m - 1], id);
        n := ReadsWerePassed(events, m - 1, id);
      }
    }
  }

  lemma ReadsStay(c: Catalog, e: Event, id: nat)
    requires id in StepOf(c, e).scopes && StepOf(c, e).scopes[id].analyticalReadsAt.Some?
    requires !(&& e.Verifying? && e.id == id && id in c.scopes && c.scopes[id].manifest.Some?
               && c.scopes[id].manifest.value.sha256 == e.manifestSha256 && e.readsPassed)
    ensures id in c.scopes && c.scopes[id].analyticalReadsAt.Some?
  {
  }

  /** In every run from the empty catalog, a retention eligible scope was found so by an evaluation past
      its hot age, in a valid, closed epoch and the current schema; before that its whole source was
      verified, and before that a verification passed the reads. */
  lemma EligibleScopeHasItsHistory(events: seq<Event>, id: nat) returns (evaluated: nat, verified: nat, read: nat)
    requires IsEligible(Run(EMPTY, events), id)
    ensures verified < evaluated < |events| && read < evaluated
    ensures events[evaluated].Evaluating? && events[evaluated].id == id && id in Before(events, evaluated).scopes
    ensures HotAgePassed(Before(events, evaluated).scopes[id], events[evaluated].days, events[evaluated].epoch,
                         events[evaluated].now)
    ensures VerifiedBy(events, verified, id) && VerifiedBy(events, read, id) && events[read].readsPassed
    ensures events[verified].v.manifestVerified && events[verified].v.sourceScopeFullyCovered
    ensures Before(events, evaluated).scopes[id].verification == Some(events[verified].v)
  {
    assert events[..|events|] == events;
    evaluated := EligibleWasReleased(events, |events|, id);
    verified := VerificationWasRecorded(events, evaluated, id);
    read := ReadsWerePassed(events, evaluated, id);
  }
}
