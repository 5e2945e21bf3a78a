/** What leases, retention and grace periods promise over runs. A run's steps may carry any
    times within the period; nothing else is asked of clocks.
 */
module ScanLeases {
  import opened Options
  import opened ScanDb
  import opened ScanProtocol
  import opened ScanInvariant
  import opened ScanTheorems
  import opened ScanReadability

  // ---------------------------------------------------------------------
  // Generations out of reach of deletion claims
  // ---------------------------------------------------------------------

  /** No deletion claim made before the time can take the generation. */
  predicate Quiet(db: Db, id: GenId, until: int) {
    id in db.gens && !IsSelected(db, id) && db.gens[id].state != Selected ==>
      db.gens[id].cleanupAfter == None || db.gens[id].cleanupAfter.value >= until
  }

  /** Its row is there, quiet and not being deleted. */
  predicate Kept(db: Db, id: GenId, until: int) {
    id in db.gens && db.gens[id].state != Deleting && Quiet(db, id, until)
  }

  /** The steps that set or read deadlines carry times of the period. */
  predicate During(a: Action, from: int, until: int) {
    a.Ensure? || a.Mark? || a.Select? || a.ClaimDeletions? ==> from <= a.now < until
  }

  /** A mark of the generation, or a selection that supersedes it: its deadline becomes one
      hour. */
  predicate Shortens(s: State, a: Action, id: GenId) {
    || (a.Mark? && a.w in s.publishers && s.publishers[a.w].candidate.id == id)
    || (a.Select? && a.w in s.publishers && s.publishers[a.w].candidate.id.scan == id.scan && s.publishers[a.w].candidate.id != id)
  }

  /** Every claim of the generation in t was there in s. */
  ghost predicate NoNewClaim(s: State, t: State, id: GenId) {
    forall w, d :: w in t.cleaners && d in t.cleaners[w].claims && d.id == id ==> w in s.cleaners && d in s.cleaners[w].claims
  }

  /** The steps that change generation rows. */
  predicate TouchesRows(a: Action) {
    a.Ensure? || a.Mark? || a.Select? || a.ClaimDeletions? || a.DeleteMetadata?
  }

  lemma OthersKeepRows(cfg: Config, s: State, a: Action)
    requires !TouchesRows(a)
    ensures Apply(cfg, s, a).db.gens == s.db.gens
  {
    hide NewScanCandidate, Currents, Plain, MayBecomeCurrent, AllMayBecomeCurrent, Claimable, Adoptable, Store, LegacyLeased, LegacyDue, ClaimOf;
  }

  lemma OthersClaimNothing(cfg: Config, s: State, a: Action, id: GenId)
    requires !a.ClaimDeletions?
    ensures NoNewClaim(s, Apply(cfg, s, a), id)
  {
    hide NewScanCandidate, Currents, Plain, MayBecomeCurrent, AllMayBecomeCurrent, EnsureScanCandidate, MarkScanCandidate, SelectScanCandidate,
         DeleteScanCandidateMetadata, ClaimLegacyScanCleanup, CompleteLegacyScanCleanup, ScheduleLegacyScanCleanup,
         SetScanStatusRunning, ClaimScanGeneration, AdoptLegacyScanGeneration, RequeueScanGeneration, InitializeScanStatusQueued, ReportStatus, Store;
  }

  /** Only a selection changes which generation is selected. */
  lemma SelectedFrame(cfg: Config, s: State, a: Action, id: GenId)
    requires !a.Select?
    ensures IsSelected(Apply(cfg, s, a).db, id) <==> IsSelected(s.db, id)
  {
    if IsStatusStep(a) {
      StatusStepShows(cfg, s, a, id.scan);
    } else {
      WorkerStepShows(cfg, s, a, id.scan);
      NoSelect(s, a, id.scan);
    }
    hide Apply, Publishes;
  }

  predicate LongEnough(s: State, a: Action, id: GenId, from: int, until: int) {
    until <= from + CLEANUP_RETENTION || (until <= from + PUBLICATION_LEASE && !Shortens(s, a, id))
  }

  lemma EnsureQuiet(s: State, w: nat, now: int, id: GenId, from: int, until: int)
    requires from <= now && until <= from + PUBLICATION_LEASE
    ensures Quiet(s.db, id, until) ==> Quiet(DoEnsure(s, w, now).db, id, until)
    ensures Kept(s.db, id, until) ==> Kept(DoEnsure(s, w, now).db, id, until)
  {
  }

  lemma MarkQuiet(cfg: Config, s: State, w: nat, now: int, id: GenId, from: int, until: int)
    requires Inv(cfg, s) && from <= now && LongEnough(s, Mark(w, now), id, from, until)
    ensures Quiet(s.db, id, until) ==> Quiet(DoMark(s, w, now).db, id, until)
    ensures Kept(s.db, id, until) ==> Kept(DoMark(s, w, now).db, id, until)
  {
    hide Inv;
    if w in s.publishers {
      PublisherFacts(cfg, s, w);
    }
    hide CandidateOk, UploadsOk, RowOk, ObjectsOk;
  }

  lemma SelectQuiet(s: State, w: nat, now: int, sbomRowExists: bool, id: GenId, from: int, until: int)
    requires from <= now && LongEnough(s, Select(w, now, sbomRowExists), id, from, until)
    ensures Quiet(s.db, id, until) ==> Quiet(DoSelect(s, w, now, sbomRowExists).db, id, until)
    ensures Kept(s.db, id, until) ==> Kept(DoSelect(s, w, now, sbomRowExists).db, id, until)
  {
  }

  lemma ClaimQuiet(s: State, w: nat, visible: set<GenId>, now: int, id: GenId, until: int)
    requires now < until && Quiet(s.db, id, until)
    ensures Quiet(DoClaimDeletions(s, w, visible, now).db, id, until)
    ensures Kept(s.db, id, until) ==> Kept(DoClaimDeletions(s, w, visible, now).db, id, until)
    ensures NoNewClaim(s, DoClaimDeletions(s, w, visible, now), id)
  {
    assert id in s.db.gens ==> Judge(s.db, id, now) != Delete;
    assert forall d | d in ToDelete(s.db, visible, now) :: d.id != id;
  }

  lemma DeleteMetadataQuiet(s: State, w: nat, id: GenId, until: int)
    requires Quiet(s.db, id, until)
    ensures Quiet(DoDeleteMetadata(s, w).db, id, until)
    ensures Kept(s.db, id, until) ==> Kept(DoDeleteMetadata(s, w).db, id, until)
  {
  }

  /** Every step of the period keeps a quiet generation quiet and claims it for nobody. */
  lemma QuietStep(cfg: Config, s: State, a: Action, id: GenId, from: int, until: int)
    requires Inv(cfg, s) && Quiet(s.db, id, until) && During(a, from, until) && LongEnough(s, a, id, from, until)
    ensures var t := Apply(cfg, s, a);
      Quiet(t.db, id, until) && (Kept(s.db, id, until) ==> Kept(t.db, id, until)) && NoNewClaim(s, t, id)
  {
    if !a.ClaimDeletions? {
      OthersClaimNothing(cfg, s, a, id);
    }
    if !TouchesRows(a) {
      OthersKeepRows(cfg, s, a);
      SelectedFrame(cfg, s, a, id);
      hide Apply, NoNewClaim;
    } else {
      hide Inv, NoNewClaim, Quiet, Kept, DoEnsure, DoMark, DoSelect, DoClaimDeletions, DoDeleteMetadata;
      if a.Ensure? {
        EnsureQuiet(s, a.w, a.now, id, from, until);
      } else if a.Mark? {
        MarkQuiet(cfg, s, a.w, a.now, id, from, until);
      } else if a.Select? {
        SelectQuiet(s, a.w, a.now, a.sbomRowExists, id, from, until);
      } else if a.ClaimDeletions? {
        ClaimQuiet(s, a.w, a.visible, a.now, id, until);
      } else {
        DeleteMetadataQuiet(s, a.w, id, until);
      }
    }
  }

  /** No step of the run shortens the generation's deadline. */
  ghost predicate NeverShortened(cfg: Config, s: State, actions: seq<Action>, id: GenId)
    decreases |actions|
  {
    actions != [] ==> !Shortens(s, actions[0], id) && NeverShortened(cfg, Apply(cfg, s, actions[0]), actions[1..], id)
  }

  ghost predicate AllDuring(actions: seq<Action>, from: int, until: int) {
    forall a | a in actions :: During(a, from, until)
  }

  /** In a run within the retention time, or within the publication lease and without a mark
      or supersession of the generation, no deletion claim takes it. */
  lemma {:induction false} QuietRun(cfg: Config, s: State, actions: seq<Action>, id: GenId, from: int, until: int)
    requires Inv(cfg, s) && Quiet(s.db, id, until) && AllDuring(actions, from, until)
    requires until <= from + CLEANUP_RETENTION || (until <= from + PUBLICATION_LEASE && NeverShortened(cfg, s, actions, id))
    ensures var t := Run(cfg, s, actions);
      Quiet(t.db, id, until) && (Kept(s.db, id, until) ==> Kept(t.db, id, until)) && NoNewClaim(s, t, id)
    decreases |actions|
  {
    hide Inv, Apply, Quiet, Kept, Shortens;
    if actions != [] {
      var t := Apply(cfg, s, actions[0]);
      assert forall a | a in actions[1..] :: a in actions;
      QuietStep(cfg, s, actions[0], id, from, until);
      ApplyInv(cfg, s, actions[0]);
      QuietRun(cfg, t, actions[1..], id, from, until);
    }
  }

  lemma EnsuredKept(cfg: Config, s: State, w: nat, now: int)
    requires At(s, w, Ensuring)
    requires EnsureScanCandidate(s.db, s.publishers[w].candidate, now).1.Some?
    ensures Kept(Apply(cfg, s, Ensure(w, now)).db, s.publishers[w].candidate.id, now + PUBLICATION_LEASE)
  {
  }

  /** An accepted ensure step protects its generation for 24 hours, as long as it is not
      marked or superseded: no claim takes it, and so none revokes it. */
  lemma EnsureProtects(cfg: Config, s: State, w: nat, now: int, actions: seq<Action>)
    requires Inv(cfg, s) && At(s, w, Ensuring)
    requires EnsureScanCandidate(s.db, s.publishers[w].candidate, now).1.Some?
    requires var id, t := s.publishers[w].candidate.id, Apply(cfg, s, Ensure(w, now));
      AllDuring(actions, now, now + PUBLICATION_LEASE) && NeverShortened(cfg, t, actions, id)
    ensures var id, t := s.publishers[w].candidate.id, Apply(cfg, s, Ensure(w, now));
      Kept(Run(cfg, t, actions).db, id, now + PUBLICATION_LEASE) && NoNewClaim(t, Run(cfg, t, actions), id)
  {
    hide Inv, Apply, Run, Kept, AllDuring, NeverShortened, NoNewClaim, EnsureScanCandidate;
    var id, t := s.publishers[w].candidate.id, Apply(cfg, s, Ensure(w, now));
    EnsuredKept(cfg, s, w, now);
    ApplyInv(cfg, s, Ensure(w, now));
    KeptQuiet(t.db, id, now + PUBLICATION_LEASE);
    QuietRun(cfg, t, actions, id, now, now + PUBLICATION_LEASE);
  }

  lemma KeptQuiet(db: Db, id: GenId, until: int)
    requires Kept(db, id, until)
    ensures Quiet(db, id, until)
  {
  }

  lemma MarkedKept(cfg: Config, s: State, w: nat, now: int)
    requires Inv(cfg, s) && w in s.publishers && s.publishers[w].phase.Marking?
    requires MarkScanCandidate(s.db, s.publishers[w].candidate.id, s.publishers[w].phase.target, now).1
    ensures Kept(Apply(cfg, s, Mark(w, now)).db, s.publishers[w].candidate.id, now + CLEANUP_RETENTION)
  {
    hide Inv;
    PublisherFacts(cfg, s, w);
    hide CandidateOk, UploadsOk, RowOk, ObjectsOk;
  }

  /** For an hour after a mark no claim takes the candidate, whatever else happens. */
  lemma MarkProtects(cfg: Config, s: State, w: nat, now: int, actions: seq<Action>)
    requires Inv(cfg, s) && w in s.publishers && s.publishers[w].phase.Marking?
    requires MarkScanCandidate(s.db, s.publishers[w].candidate.id, s.publishers[w].phase.target, now).1
    requires AllDuring(actions, now, now + CLEANUP_RETENTION)
    ensures var id, t := s.publishers[w].candidate.id, Apply(cfg, s, Mark(w, now));
      Kept(Run(cfg, t, actions).db, id, now + CLEANUP_RETENTION) && NoNewClaim(t, Run(cfg, t, actions), id)
  {
    hide Inv, Apply, Run, Kept, AllDuring, NoNewClaim, MarkScanCandidate;
    var id, t := s.publishers[w].candidate.id, Apply(cfg, s, Mark(w, now));
    MarkedKept(cfg, s, w, now);
    ApplyInv(cfg, s, Mark(w, now));
    KeptQuiet(t.db, id, now + CLEANUP_RETENTION);
    QuietRun(cfg, t, actions, id, now, now + CLEANUP_RETENTION);
  }

  /** The cleaner has claimed the generation, and its scan has lost it. */
  ghost predicate Taken(s: State, w: nat, id: GenId) {
    && w in s.cleaners && (exists d :: d in s.cleaners[w].claims && d.id == id)
    && id in s.db.gens && s.db.gens[id].state == Deleting && !IsCurrent(s.db, id)
  }

  /** And no longer: an hour after a mark a claim takes the candidate and revokes it, however
      recently it was ensured. */
  lemma MarkShortensLease(cfg: Config, s: State, w: nat, now: int, claimer: nat, later: int)
    requires Inv(cfg, s) && w in s.publishers && s.publishers[w].phase.Marking?
    requires MarkScanCandidate(s.db, s.publishers[w].candidate.id, s.publishers[w].phase.target, now).1
    requires claimer !in s.cleaners && later >= now + CLEANUP_RETENTION
    ensures var id := s.publishers[w].candidate.id;
      Taken(DoClaimDeletions(DoMark(s, w, now), claimer, {id}, later), claimer, id)
  {
    hide Inv;
    PublisherFacts(cfg, s, w);
    MarkedUnselected(cfg, s, s.publishers[w].candidate.id);
    hide CandidateOk, UploadsOk, RowOk, ObjectsOk;
    var id, t := s.publishers[w].candidate.id, DoMark(s, w, now);
    assert Judge(t.db, id, later) == Delete;
    assert Deletion(id, t.db.gens[id].raw.key, t.db.gens[id].details.key, later + CLEANUP_LEASE) in ToDelete(t.db, {id}, later);
  }

  lemma MarkedUnselected(cfg: Config, s: State, id: GenId)
    requires Inv(cfg, s) && id in s.db.gens && s.db.gens[id].state != Selected
    ensures !IsSelected(s.db, id)
  {
    InvParts(cfg, s);
    hide Inv, RowsInv, ObjectsInv, PublishersInv, CleanersInv, LegacyInv, EverOk, ConfigOk;
    assert id.scan in s.db.scans ==> ScanOk(cfg, s.db, s.ever, id.scan);
  }

  lemma SupersededRow(db: Db, id: GenId, parsed: string, now: int, previous: GenId)
    requires previous in db.gens && IsSelected(db, previous) && id.scan == previous.scan && id != previous
    requires SelectScanCandidate(db, id, parsed, now, true).1 == NewlySelected
    ensures Kept(SelectScanCandidate(db, id, parsed, now, true).0, previous, now + CLEANUP_RETENTION)
  {
  }

  lemma SelectedHasRow(cfg: Config, s: State, id: GenId)
    requires Inv(cfg, s) && IsSelected(s.db, id)
    ensures id in s.db.gens
  {
    InvParts(cfg, s);
    hide Inv, RowsInv, ObjectsInv, PublishersInv, CleanersInv, LegacyInv, EverOk, ConfigOk;
    assert ScanOk(cfg, s.db, s.ever, id.scan);
  }

  lemma SupersededKept(cfg: Config, s: State, w: nat, now: int, previous: GenId)
    requires Inv(cfg, s) && Publishes(s, Select(w, now, true), previous.scan).Some?
    requires IsSelected(s.db, previous) && s.publishers[w].candidate.id != previous
    ensures Kept(Apply(cfg, s, Select(w, now, true)).db, previous, now + CLEANUP_RETENTION)
  {
    hide Inv, Kept, SelectScanCandidate;
    SelectedHasRow(cfg, s, previous);
    SupersededRow(s.db, s.publishers[w].candidate.id, s.publishers[w].parsed, now, previous);
  }

  /** For an hour after its supersession no claim takes the previous generation. */
  lemma SupersessionProtects(cfg: Config, s: State, w: nat, now: int, previous: GenId, actions: seq<Action>)
    requires Inv(cfg, s) && Publishes(s, Select(w, now, true), previous.scan).Some?
    requires IsSelected(s.db, previous) && s.publishers[w].candidate.id != previous
    requires AllDuring(actions, now, now + CLEANUP_RETENTION)
    ensures var t := Apply(cfg, s, Select(w, now, true));
      Kept(Run(cfg, t, actions).db, previous, now + CLEANUP_RETENTION) && NoNewClaim(t, Run(cfg, t, actions), previous)
  {
    var t := Apply(cfg, s, Select(w, now, true));
    SupersededKept(cfg, s, w, now, previous);
    ApplyInv(cfg, s, Select(w, now, true));
    hide Inv, Apply, Run, Kept, AllDuring, NoNewClaim;
    KeptQuiet(t.db, previous, now + CLEANUP_RETENTION);
    QuietRun(cfg, t, actions, previous, now, now + CLEANUP_RETENTION);
  }

  // ---------------------------------------------------------------------
  // Cleanup leases
  // ---------------------------------------------------------------------

  lemma ClaimedQuiet(cfg: Config, s: State, w: nat, visible: set<GenId>, now: int, d: Deletion)
    requires w !in s.cleaners && d in ToDelete(s.db, visible, now)
    ensures Quiet(Apply(cfg, s, ClaimDeletions(w, visible, now)).db, d.id, now + CLEANUP_LEASE)
  {
    hide Revoked;
  }

  /** For five minutes after a deletion claim no other claim takes its rows. */
  lemma ClaimLeaseHolds(cfg: Config, s: State, w: nat, visible: set<GenId>, now: int, d: Deletion, actions: seq<Action>)
    requires Inv(cfg, s) && w !in s.cleaners && d in ToDelete(s.db, visible, now)
    requires AllDuring(actions, now, now + CLEANUP_LEASE)
    ensures var t := Apply(cfg, s, ClaimDeletions(w, visible, now));
      NoNewClaim(t, Run(cfg, t, actions), d.id)
  {
    hide Inv, Apply, Run, Quiet, AllDuring, NoNewClaim, ToDelete;
    var t := Apply(cfg, s, ClaimDeletions(w, visible, now));
    ClaimedQuiet(cfg, s, w, visible, now, d);
    ApplyInv(cfg, s, ClaimDeletions(w, visible, now));
    QuietRun(cfg, t, actions, d.id, now, now + CLEANUP_LEASE);
  }

  /** The row no longer carries the claim's lease. */
  predicate Outdated(db: Db, d: Deletion) {
    d.id in db.gens && db.gens[d.id].state == Deleting ==> db.gens[d.id].cleanupAfter != Some(d.lease)
  }

  /** The run's deletion claims are made after the one that d belongs to. */
  ghost predicate ClaimsAfter(actions: seq<Action>, d: Deletion) {
    forall a | a in actions && a.ClaimDeletions? :: a.now + CLEANUP_LEASE > d.lease
  }

  lemma OutdatedEnsure(s: State, w: nat, now: int, d: Deletion)
    requires Outdated(s.db, d)
    ensures Outdated(DoEnsure(s, w, now).db, d)
  {
  }

  lemma OutdatedMark(cfg: Config, s: State, w: nat, now: int, d: Deletion)
    requires Inv(cfg, s) && Outdated(s.db, d)
    ensures Outdated(DoMark(s, w, now).db, d)
  {
    hide Inv;
    if w in s.publishers {
      PublisherFacts(cfg, s, w);
    }
    hide CandidateOk, UploadsOk, RowOk, ObjectsOk;
  }

  lemma OutdatedSelect(s: State, w: nat, now: int, sbomRowExists: bool, d: Deletion)
    requires Outdated(s.db, d)
    ensures Outdated(DoSelect(s, w, now, sbomRowExists).db, d)
  {
  }

  lemma OutdatedCleanup(s: State, w: nat, visible: set<GenId>, now: int, d: Deletion)
    requires Outdated(s.db, d)
    ensures now + CLEANUP_LEASE > d.lease ==> Outdated(DoClaimDeletions(s, w, visible, now).db, d)
    ensures Outdated(DoDeleteMetadata(s, w).db, d)
  {
    hide ToDelete, Revoked, Removable;
  }

  lemma OutdatedStep(cfg: Config, s: State, a: Action, d: Deletion)
    requires Inv(cfg, s) && Outdated(s.db, d) && (a.ClaimDeletions? ==> a.now + CLEANUP_LEASE > d.lease)
    ensures Outdated(Apply(cfg, s, a).db, d)
  {
    if !TouchesRows(a) {
      OthersKeepRows(cfg, s, a);
      hide Apply;
    } else {
      hide Inv, Outdated, DoEnsure, DoMark, DoSelect, DoClaimDeletions, DoDeleteMetadata;
      if a.Ensure? {
        OutdatedEnsure(s, a.w, a.now, d);
      } else if a.Mark? {
        OutdatedMark(cfg, s, a.w, a.now, d);
      } else if a.Select? {
        OutdatedSelect(s, a.w, a.now, a.sbomRowExists, d);
      } else if a.ClaimDeletions? {
        OutdatedCleanup(s, a.w, a.visible, a.now, d);
      } else {
        OutdatedCleanup(s, a.w, {}, 0, d);
      }
    }
  }

  /** Once a row has passed to a later claim, the earlier one removes it in no run. */
  lemma {:induction false} StaleClaimRemovesNothing(cfg: Config, s: State, actions: seq<Action>, d: Deletion)
    requires Inv(cfg, s) && Outdated(s.db, d) && ClaimsAfter(actions, d)
    ensures Outdated(Run(cfg, s, actions).db, d) && !Removable(Run(cfg, s, actions).db, d)
    decreases |actions|
  {
    if actions != [] {
      hide Inv, Apply, Outdated, Removable;
      var t := Apply(cfg, s, actions[0]);
      assert forall a | a in actions[1..] :: a in actions;
      OutdatedStep(cfg, s, actions[0], d);
      ApplyInv(cfg, s, actions[0]);
      StaleClaimRemovesNothing(cfg, t, actions[1..], d);
    }
  }

  // ---------------------------------------------------------------------
  // Claims of scans
  // ---------------------------------------------------------------------

  /** The scan is running and was touched no earlier than the time. */
  predicate Busy(db: Db, k: ScanId, since: int) {
    k in db.scans && db.scans[k].status == Running && EffectiveUpdate(db.scans[k]) >= since
  }

  /** A report, requeue or selection of the scan ends its run. */
  predicate Ends(s: State, a: Action, k: ScanId) {
    || (a.Report? && a.k == k)
    || (a.Requeue? && a.digest == k.digest && k.arch in a.archs)
    || (a.Select? && a.w in s.publishers && s.publishers[a.w].candidate.id.scan == k)
  }

  /** Claims of the scan come before it is stale, and restarts not before the time. */
  predicate Timely(a: Action, k: ScanId, since: int) {
    && (a.Claim? && a.digest == k.digest && k.arch in a.archs ==> a.now - a.staleThreshold < since)
    && (a.SetRunning? && a.k == k ==> a.now >= since)
  }

  lemma BusyStatusStep(cfg: Config, s: State, a: Action, k: ScanId, since: int)
    requires IsStatusStep(a) && Busy(s.db, k, since) && !Ends(s, a, k) && Timely(a, k, since)
    ensures Busy(Apply(cfg, s, a).db, k, since)
  {
    hide Currents, Plain, MayBecomeCurrent, AllMayBecomeCurrent;
    if a.Claim? && a.digest == k.digest && k.arch in a.archs {
      assert k == ScanId(a.digest, k.arch);
      assert !Claimable(RowOrQueued(s.db, k, a.now), a.now, a.staleThreshold);
    }
  }

  lemma BusyWorkerStep(cfg: Config, s: State, a: Action, k: ScanId, since: int)
    requires !IsStatusStep(a) && Busy(s.db, k, since) && !Ends(s, a, k)
    ensures Busy(Apply(cfg, s, a).db, k, since)
  {
    hide NewScanCandidate, Currents, ToDelete, LegacyLeased, LegacyDue, ClaimOf, Removable, ValidReplacement, Store, Judge, JudgedRow, Revoked, Supersede;
  }

  ghost predicate NeverEnds(cfg: Config, s: State, actions: seq<Action>, k: ScanId)
    decreases |actions|
  {
    actions != [] ==> !Ends(s, actions[0], k) && NeverEnds(cfg, Apply(cfg, s, actions[0]), actions[1..], k)
  }

  ghost predicate AllTimely(actions: seq<Action>, k: ScanId, since: int) {
    forall a | a in actions :: Timely(a, k, since)
  }

  lemma {:induction false} BusyRun(cfg: Config, s: State, actions: seq<Action>, k: ScanId, since: int)
    requires Busy(s.db, k, since) && NeverEnds(cfg, s, actions, k) && AllTimely(actions, k, since)
    ensures Busy(Run(cfg, s, actions).db, k, since)
    decreases |actions|
  {
    hide Apply, Busy, Ends, Timely;
    if actions != [] {
      var t := Apply(cfg, s, actions[0]);
      assert forall a | a in actions[1..] :: a in actions;
      if IsStatusStep(actions[0]) {
        BusyStatusStep(cfg, s, actions[0], k, since);
      } else {
        BusyWorkerStep(cfg, s, actions[0], k, since);
      }
      BusyRun(cfg, t, actions[1..], k, since);
    }
  }

  lemma BusyRefuses(db: Db, k: ScanId, since: int, archs: set<string>, gen: string, now: int, staleThreshold: int)
    requires Busy(db, k, since) && k.arch in archs && now - staleThreshold < since
    ensures ClaimScanGeneration(db, k.digest, archs, gen, now, staleThreshold) == (db, false)
  {
    assert k == ScanId(k.digest, k.arch);
    assert !Claimable(RowOrQueued(db, k, now), now, staleThreshold);
  }

  /** The claim step was enabled and succeeded. */
  predicate Claimed(cfg: Config, s: State, claim: Action)
    requires claim.Claim?
  {
    && claim.archs != {} && AllMayBecomeCurrent(cfg, s, claim.digest, claim.archs, claim.gen)
    && ClaimScanGeneration(s.db, claim.digest, claim.archs, claim.gen, claim.now, claim.staleThreshold).1
  }

  /** From a successful claim on, as long as nothing ends the scan's run, every claim that
      includes it is refused until it is stale. */
  lemma ClaimHolds(cfg: Config, s: State, claim: Action, k: ScanId, actions: seq<Action>,
                   others: set<string>, gen: string, now: int, staleThreshold: int)
    requires claim.Claim? && claim.digest == k.digest && k.arch in claim.archs
    requires Claimed(cfg, s, claim)
    requires var t := Apply(cfg, s, claim);
      NeverEnds(cfg, t, actions, k) && AllTimely(actions, k, claim.now)
    requires k.arch in others && now - staleThreshold < claim.now
    ensures var u := Run(cfg, Apply(cfg, s, claim), actions);
      ClaimScanGeneration(u.db, k.digest, others, gen, now, staleThreshold) == (u.db, false)
  {
    var t := Apply(cfg, s, claim);
    StartsBusy(cfg, s, claim, k);
    hide Apply, Run, Busy, Claimed, NeverEnds, AllTimely, ClaimScanGeneration;
    BusyRun(cfg, t, actions, k, claim.now);
    BusyRefuses(Run(cfg, t, actions).db, k, claim.now, others, gen, now, staleThreshold);
  }

  lemma StartsBusy(cfg: Config, s: State, claim: Action, k: ScanId)
    requires claim.Claim? && claim.digest == k.digest && k.arch in claim.archs
    requires Claimed(cfg, s, claim)
    ensures Busy(Apply(cfg, s, claim).db, k, claim.now)
  {
    hide Currents, AllMayBecomeCurrent, Claimable;
    assert k == ScanId(claim.digest, k.arch);
  }

  // ---------------------------------------------------------------------
  // Fencing
  // ---------------------------------------------------------------------

  /** Once current, and no longer. */
  predicate Lost(s: State, id: GenId) {
    id in s.ever && !IsCurrent(s.db, id)
  }

  lemma ClaimLoses(cfg: Config, s: State, digest: string, archs: set<string>, gen: string, now: int, staleThreshold: int, id: GenId)
    requires Lost(s, id)
    ensures Lost(DoClaim(cfg, s, digest, archs, gen, now, staleThreshold), id)
    ensures Lost(DoAdoptLegacy(cfg, s, digest, archs, gen), id)
  {
    hide Plain, Claimable, Currents, Adoptable;
    if AllMayBecomeCurrent(cfg, s, digest, archs, gen) && id.scan.digest == digest && id.scan.arch in archs {
      assert MayBecomeCurrent(cfg, s, GenId(ScanId(digest, id.scan.arch), gen));
    }
  }

  lemma StatusStepLoses(cfg: Config, s: State, a: Action, id: GenId)
    requires IsStatusStep(a) && Lost(s, id)
    ensures Lost(Apply(cfg, s, a), id)
  {
    hide Plain, Currents, DoClaim, DoAdoptLegacy;
    if a.Claim? {
      ClaimLoses(cfg, s, a.digest, a.archs, a.gen, a.now, a.staleThreshold, id);
    } else if a.AdoptLegacy? {
      ClaimLoses(cfg, s, a.digest, a.archs, a.gen, 0, 0, id);
    }
  }

  lemma WorkerStepLoses(cfg: Config, s: State, a: Action, id: GenId)
    requires !IsStatusStep(a) && Lost(s, id)
    ensures Lost(Apply(cfg, s, a), id)
  {
    hide NewScanCandidate, Currents, ToDelete, LegacyLeased, LegacyDue, ClaimOf, Removable, ValidReplacement, Store, Judge, JudgedRow, Supersede;
  }

  /** A generation that lost its scan, to a later claim or otherwise, never gets it back: in
      every later state it can neither be selected nor report or requeue. */
  lemma {:induction false} FencedForever(cfg: Config, s: State, actions: seq<Action>, id: GenId)
    requires Lost(s, id)
    ensures var db := Run(cfg, s, actions).db;
      && !IsCurrent(db, id)
      && (forall parsed, t, sbom :: SelectScanCandidate(db, id, parsed, t, sbom) == (db, Refused))
      && (forall status, t :: id.gen != "" ==> ReportStatus(db, id.scan, id.gen, status, t) == (db, false))
      && (forall archs, t :: id.scan in db.scans ==>
            RequeueScanGeneration(db, id.scan.digest, archs, Some(id.gen), t).scans[id.scan] == db.scans[id.scan])
    decreases |actions|
  {
    if actions == [] {
      hide Apply;
    } else {
      hide Apply, Lost, IsCurrent, SelectScanCandidate, ReportStatus, RequeueScanGeneration;
      var t := Apply(cfg, s, actions[0]);
      if IsStatusStep(actions[0]) {
        StatusStepLoses(cfg, s, actions[0], id);
      } else {
        WorkerStepLoses(cfg, s, actions[0], id);
      }
      FencedForever(cfg, t, actions[1..], id);
    }
  }

  // ---------------------------------------------------------------------
  // The grace period of legacy objects
  // ---------------------------------------------------------------------

  /** No legacy claim made before the time can take the scan. */
  predicate Graced(db: Db, k: ScanId, until: int) {
    && k in db.scans
    && (db.scans[k].legacyCleanedAt.Some? || (db.scans[k].legacyCleanupAfter.Some? && db.scans[k].legacyCleanupAfter.value >= until))
  }

  lemma GracedStatusStep(cfg: Config, s: State, a: Action, k: ScanId, until: int)
    requires IsStatusStep(a) && Graced(s.db, k, until)
    ensures Graced(Apply(cfg, s, a).db, k, until)
  {
    hide Currents, Plain, Claimable, Adoptable, MayBecomeCurrent, AllMayBecomeCurrent;
  }

  lemma StatusStepLegacy(cfg: Config, s: State, a: Action)
    requires IsStatusStep(a)
    ensures Apply(cfg, s, a).legacy == s.legacy
  {
    hide Currents, MayBecomeCurrent, AllMayBecomeCurrent, SetScanStatusRunning, ClaimScanGeneration, AdoptLegacyScanGeneration,
         RequeueScanGeneration, InitializeScanStatusQueued, ReportStatus;
  }

  lemma GracedWorkerStep(cfg: Config, s: State, a: Action, k: ScanId, until: int)
    requires !IsStatusStep(a) && Graced(s.db, k, until) && (a.ClaimLegacy? ==> a.now < until)
    ensures Graced(Apply(cfg, s, a).db, k, until)
  {
    hide NewScanCandidate, Currents, ToDelete, ClaimOf, Removable, ValidReplacement, Store, Judge, JudgedRow, Revoked, Supersede;
  }

  lemma UnclaimedWorkerStep(cfg: Config, s: State, a: Action, k: ScanId, until: int)
    requires !IsStatusStep(a) && Graced(s.db, k, until) && (a.ClaimLegacy? ==> a.now < until) && LegacyUnclaimed(s, k)
    ensures LegacyUnclaimed(Apply(cfg, s, a), k)
  {
    hide NewScanCandidate, Currents, Plain, EnsureScanCandidate, MarkScanCandidate, SelectScanCandidate, ClaimScanCandidateDeletions,
         DeleteScanCandidateMetadata, CompleteLegacyScanCleanup, ScheduleLegacyScanCleanup, Store, ValidReplacement;
    if a.ClaimLegacy? {
      assert !LegacyDue(s.db, k, a.now);
      assert forall c | c in ClaimLegacyScanCleanup(s.db, a.scans, a.now).1 :: LegacyDue(s.db, c.scan, a.now);
    }
  }

  ghost predicate LegacyClaimsBefore(actions: seq<Action>, until: int) {
    forall a | a in actions && a.ClaimLegacy? :: a.now < until
  }

  lemma {:induction false} GracedRun(cfg: Config, s: State, actions: seq<Action>, k: ScanId, x: bool, until: int)
    requires Inv(cfg, s) && k in cfg.scans && Graced(s.db, k, until) && LegacyUnclaimed(s, k) && LegacyClaimsBefore(actions, until)
    requires LegacyKey(k, x) in s.objects
    ensures SameObjectAt(s, Run(cfg, s, actions), LegacyKey(k, x)) && LegacyUnclaimed(Run(cfg, s, actions), k)
    decreases |actions|
  {
    if actions != [] {
      hide Inv, Apply, Graced, LegacyKey, LegacyUnclaimed;
      var a, t := actions[0], Apply(cfg, s, actions[0]);
      assert forall a | a in actions[1..] :: a in actions;
      if IsStatusStep(a) {
        GracedStatusStep(cfg, s, a, k, until);
        StatusStepLegacy(cfg, s, a);
        SameLegacy(s, t, k);
      } else {
        GracedWorkerStep(cfg, s, a, k, until);
        UnclaimedWorkerStep(cfg, s, a, k, until);
      }
      LegacyObjectStays(cfg, s, a, k, x);
      ApplyInv(cfg, s, a);
      GracedRun(cfg, t, actions[1..], k, x, until);
    }
  }

  lemma SameLegacy(s: State, t: State, k: ScanId)
    requires t.legacy == s.legacy && LegacyUnclaimed(s, k)
    ensures LegacyUnclaimed(t, k)
  {
  }

  lemma FirstSelectionGraces(cfg: Config, s: State, w: nat, now: int, k: ScanId)
    requires k in s.db.scans && s.db.scans[k].legacyCleanupAfter == None
    requires Publishes(s, Select(w, now, true), k).Some?
    ensures var t := Apply(cfg, s, Select(w, now, true));
      Graced(t.db, k, now + LEGACY_GRACE) && t.objects == s.objects && t.legacy == s.legacy
  {
    hide Supersede;
  }

  /** For 24 hours after a scan's first selection its legacy objects stay as they are,
      through later selections too. */
  lemma LegacyGrace(cfg: Config, s: State, w: nat, now: int, k: ScanId, x: bool, actions: seq<Action>)
    requires Inv(cfg, s) && k in cfg.scans && k in s.db.scans && !HasSelection(s.db, k)
    requires s.db.scans[k].legacyCleanupAfter == None && LegacyKey(k, x) in s.objects
    requires Publishes(s, Select(w, now, true), k).Some? && LegacyClaimsBefore(actions, now + LEGACY_GRACE)
    ensures SameObjectAt(s, Run(cfg, Apply(cfg, s, Select(w, now, true)), actions), LegacyKey(k, x))
  {
    var a := Select(w, now, true);
    var t := Apply(cfg, s, a);
    FirstSelectionGraces(cfg, s, w, now, k);
    hide Apply, Inv, Graced, LegacyKey, LegacyUnclaimed, Run, Publishes;
    UnselectedUnclaimed(cfg, s, k);
    SameLegacy(s, t, k);
    ApplyInv(cfg, s, a);
    GracedRun(cfg, t, actions, k, x, now + LEGACY_GRACE);
  }
}
