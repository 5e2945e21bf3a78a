/** Properties of every run of the scan protocol. */
module ScanTheorems {
  import opened Options
  import opened ObjectKeys
  import opened ScanDb
  import opened ScanProtocol
  import opened ScanInvariant

  lemma {:induction false} RunInv(cfg: Config, s: State, actions: seq<Action>)
    requires Inv(cfg, s)
    ensures Inv(cfg, Run(cfg, s, actions))
    decreases |actions|
  {
    hide Inv, Apply;
    if actions != [] {
      ApplyInv(cfg, s, actions[0]);
      RunInv(cfg, Apply(cfg, s, actions[0]), actions[1..]);
    }
  }

  // ---------------------------------------------------------------------
  // The selected generation
  // ---------------------------------------------------------------------

  /** In every reachable state the selected generation of a scan has a row in state
      selected without a deadline, and both its objects are stored with the recorded
      sizes and hashes, under keys of its own. */
  lemma SelectedIsComplete(cfg: Config, init: State, actions: seq<Action>, id: GenId)
    requires Init(cfg, init)
    ensures var s := Run(cfg, init, actions);
      IsSelected(s.db, id) ==>
        && id in s.db.gens && s.db.gens[id].state == Selected && s.db.gens[id].cleanupAfter == None
        && s.db.gens[id].raw.key == RawKey(id) && Present(cfg, s.objects, s.db.gens[id].raw)
        && s.db.gens[id].details.key == DetailsKey(id) && Present(cfg, s.objects, s.db.gens[id].details)
  {
    hide Run, Present, EverOk, ConfigOk, PublishersInv, CleanersInv, LegacyInv;
    InitInv(cfg, init) by { hide *; }
    RunInv(cfg, init, actions);
    var s := Run(cfg, init, actions);
    if IsSelected(s.db, id) {
      assert ScanOk(cfg, s.db, s.ever, id.scan);
      assert RowOk(s.db, s.ever, id) && ObjectsOk(cfg, s.db, s.objects, id);
    }
  }

  /** A generation row is in state selected exactly when its scan points at it, so a scan
      has at most one such row. */
  lemma SelectedIffPointedAt(cfg: Config, init: State, actions: seq<Action>, id: GenId)
    requires Init(cfg, init)
    ensures var s := Run(cfg, init, actions);
      (id in s.db.gens && s.db.gens[id].state == Selected) <==> IsSelected(s.db, id)
  {
    hide Run, Present, EverOk, ConfigOk, PublishersInv, CleanersInv, LegacyInv, ObjectsInv;
    InitInv(cfg, init) by { hide *; }
    RunInv(cfg, init, actions);
    var s := Run(cfg, init, actions);
    assert IsSelected(s.db, id) ==> ScanOk(cfg, s.db, s.ever, id.scan);
    assert id in s.db.gens ==> RowOk(s.db, s.ever, id);
  }

  // ---------------------------------------------------------------------
  // Retirement
  // ---------------------------------------------------------------------

  /** Once current, no longer current, and not selected. */
  predicate Retired(s: State, id: GenId) {
    id in s.ever && !Live(s.db, id)
  }

  predicate IsStatusStep(a: Action) {
    a.SetRunning? || a.Claim? || a.AdoptLegacy? || a.Requeue? || a.InitializeQueued? || a.Report?
  }

  lemma StatusStepsRetire(cfg: Config, s: State, a: Action, id: GenId)
    requires Retired(s, id)
    requires IsStatusStep(a)
    ensures Retired(Apply(cfg, s, a), id)
  {
    hide Plain, Claimable, Currents, EffectiveUpdate, DoClaim, DoAdoptLegacy, DoSetRunning;
    if a.Claim? {
      ClaimRetires(cfg, s, a.digest, a.archs, a.gen, a.now, a.staleThreshold, id);
    } else if a.AdoptLegacy? {
      AdoptRetires(cfg, s, a.digest, a.archs, a.gen, id);
    } else if a.SetRunning? {
      SetRunningRetires(cfg, s, a.k, a.gen, a.now, id);
    }
  }

  lemma SetRunningRetires(cfg: Config, s: State, k: ScanId, gen: string, now: int, id: GenId)
    requires Retired(s, id)
    ensures Retired(DoSetRunning(cfg, s, k, gen, now), id)
  {
    hide Plain, Currents;
  }

  lemma ClaimRetires(cfg: Config, s: State, digest: string, archs: set<string>, gen: string, now: int, staleThreshold: int, id: GenId)
    requires Retired(s, id)
    ensures Retired(DoClaim(cfg, s, digest, archs, gen, now, staleThreshold), id)
  {
    hide Plain, Claimable, Currents;
    if AllMayBecomeCurrent(cfg, s, digest, archs, gen) && id.scan.digest == digest && id.scan.arch in archs {
      assert MayBecomeCurrent(cfg, s, GenId(ScanId(digest, id.scan.arch), gen));
    }
  }

  lemma AdoptRetires(cfg: Config, s: State, digest: string, archs: set<string>, gen: string, id: GenId)
    requires Retired(s, id)
    ensures Retired(DoAdoptLegacy(cfg, s, digest, archs, gen), id)
  {
    hide Plain, Currents, Adoptable;
    if AllMayBecomeCurrent(cfg, s, digest, archs, gen) && id.scan.digest == digest && id.scan.arch in archs {
      assert MayBecomeCurrent(cfg, s, GenId(ScanId(digest, id.scan.arch), gen));
    }
  }

  lemma WorkerStepsRetire(cfg: Config, s: State, a: Action, id: GenId)
    requires Retired(s, id)
    requires !IsStatusStep(a)
    ensures Retired(Apply(cfg, s, a), id)
  {
    hide NewScanCandidate, Currents, ToDelete, LegacyLeased, LegacyDue, ClaimOf, Removable, ValidReplacement, Store;
  }

  /** No step brings a retired generation back. */
  lemma {:induction false} RetiredForever(cfg: Config, s: State, actions: seq<Action>, id: GenId)
    requires Retired(s, id)
    ensures Retired(Run(cfg, s, actions), id) && !IsSelected(Run(cfg, s, actions).db, id)
    decreases |actions|
  {
    hide Apply;
    if actions != [] {
      var a := actions[0];
      if IsStatusStep(a) {
        StatusStepsRetire(cfg, s, a, id);
      } else {
        WorkerStepsRetire(cfg, s, a, id);
      }
      RetiredForever(cfg, Apply(cfg, s, a), actions[1..], id);
    }
  }

  /** A generation found superseded or deleting in a reachable state, or claimed for
      deletion, is not selected in any later state. */
  lemma NeverSelectedAgain(cfg: Config, init: State, before: seq<Action>, later: seq<Action>, id: GenId)
    requires Init(cfg, init)
    requires var s := Run(cfg, init, before);
      || (id in s.db.gens && s.db.gens[id].state in {Superseded, Deleting})
      || (exists w, d :: w in s.cleaners && d in s.cleaners[w].claims && d.id == id)
    ensures !IsSelected(Run(cfg, Run(cfg, init, before), later).db, id)
  {
    hide Run, Present, EverOk, ConfigOk, PublishersInv, LegacyInv, ObjectsInv, ScansInv;
    InitInv(cfg, init) by { hide *; }
    RunInv(cfg, init, before);
    var s := Run(cfg, init, before);
    if id in s.db.gens && s.db.gens[id].state in {Superseded, Deleting} {
      assert RowOk(s.db, s.ever, id);
    } else {
      var w, d :| w in s.cleaners && d in s.cleaners[w].claims && d.id == id;
      assert CleanerOk(s.db, s.ever, s.cleaners[w]);
      assert DeletionOk(s.db, s.ever, d);
    }
    RetiredForever(cfg, s, later, id);
  }

  // ---------------------------------------------------------------------
  // The visible result
  // ---------------------------------------------------------------------

  /** What the scan row shows of its last success. */
  datatype Shown = Shown(selected: Option<string>, parsed: Option<string>, completedAt: Option<int>)

  function ShownOf(s: State, k: ScanId): Shown {
    if k in s.db.scans then Shown(s.db.scans[k].selected, s.db.scans[k].parsed, s.db.scans[k].completedAt)
    else Shown(None, None, None)
  }

  /** The result that this step publishes for k, if it is a successful selection. */
  function Publishes(s: State, a: Action, k: ScanId): Option<Shown> {
    if a.Select? && At(s, a.w, Selecting) then
      var p := s.publishers[a.w];
      if p.candidate.id.scan == k && SelectScanCandidate(s.db, p.candidate.id, p.parsed, a.now, a.sbomRowExists).1 == NewlySelected
      then Some(Shown(Some(p.candidate.id.gen), Some(p.parsed), Some(a.now)))
      else None
    else None
  }

  /** The last result published for k in a run. */
  function LastPublished(cfg: Config, s: State, actions: seq<Action>, k: ScanId): Option<Shown>
    decreases |actions|
  {
    if actions == [] then None
    else
      var later := LastPublished(cfg, Apply(cfg, s, actions[0]), actions[1..], k);
      if later.Some? then later else Publishes(s, actions[0], k)
  }

  lemma StatusStepShows(cfg: Config, s: State, a: Action, k: ScanId)
    requires IsStatusStep(a)
    ensures ShownOf(Apply(cfg, s, a), k) == ShownOf(s, k)
  {
    hide Currents, Plain, Claimable, Adoptable, MayBecomeCurrent, AllMayBecomeCurrent;
  }

  lemma WorkerStepShows(cfg: Config, s: State, a: Action, k: ScanId)
    requires !IsStatusStep(a)
    ensures ShownOf(Apply(cfg, s, a), k) == if Publishes(s, a, k).Some? then Publishes(s, a, k).value else ShownOf(s, k)
  {
    hide NewScanCandidate, Currents, ToDelete, LegacyLeased, LegacyDue, ClaimOf, Removable, ValidReplacement, Store, Judge, JudgedRow, Revoked, Supersede;
  }

  /** The result shown after any run is that of the last successful selection in it: no
      failure, stale update, requeue, claim or cleanup changes it. */
  lemma {:induction false} ShowsLastPublished(cfg: Config, s: State, actions: seq<Action>, k: ScanId)
    ensures ShownOf(Run(cfg, s, actions), k) ==
      if LastPublished(cfg, s, actions, k).Some? then LastPublished(cfg, s, actions, k).value else ShownOf(s, k)
    decreases |actions|
  {
    hide Apply, ShownOf, Publishes;
    if actions != [] {
      var a := actions[0];
      if IsStatusStep(a) {
        StatusStepShows(cfg, s, a, k);
        assert Publishes(s, a, k) == None by { NoSelect(s, a, k); }
      } else {
        WorkerStepShows(cfg, s, a, k);
      }
      ShowsLastPublished(cfg, Apply(cfg, s, a), actions[1..], k);
    }
  }

  lemma NoSelect(s: State, a: Action, k: ScanId)
    requires !a.Select?
    ensures Publishes(s, a, k) == None
  {
  }

  // ---------------------------------------------------------------------
  // Claims
  // ---------------------------------------------------------------------

  /** A claim takes every requested architecture or changes nothing at all, and never
      touches a row that was not asked for or a result that is shown. */
  lemma ClaimAllOrNothing(db: Db, digest: string, archs: set<string>, gen: string, now: int, staleThreshold: int)
    ensures var (after, claimed) := ClaimScanGeneration(db, digest, archs, gen, now, staleThreshold);
      && (!claimed ==> after == db)
      && (claimed ==> forall a :: a in archs ==>
            IsCurrent(after, GenId(ScanId(digest, a), gen)) && after.scans[ScanId(digest, a)].status == Running)
      && (forall k :: k in db.scans ==> k in after.scans && after.scans[k].selected == db.scans[k].selected
                                        && after.scans[k].parsed == db.scans[k].parsed && after.scans[k].completedAt == db.scans[k].completedAt)
      && (forall k :: k in after.scans && (k.digest != digest || k.arch !in archs) ==> k in db.scans && after.scans[k] == db.scans[k])
  {
    hide Claimable;
    var (after, claimed) := ClaimScanGeneration(db, digest, archs, gen, now, staleThreshold);
    if claimed {
      forall a | a in archs
        ensures IsCurrent(after, GenId(ScanId(digest, a), gen)) && after.scans[ScanId(digest, a)].status == Running
      {
        assert ScanId(digest, a) in after.scans;
      }
    }
  }

  /** Two claims that share an architecture cannot both hold: the later one is refused as
      long as the earlier one is not stale. */
  lemma ClaimExcludes(db: Db, digest: string, archs: set<string>, gen: string, now: int, staleThreshold: int,
                      others: set<string>, gen': string, now': int, staleThreshold': int)
    requires ClaimScanGeneration(db, digest, archs, gen, now, staleThreshold).1
    requires archs * others != {} && now' - staleThreshold' < now
    ensures var after := ClaimScanGeneration(db, digest, archs, gen, now, staleThreshold).0;
      ClaimScanGeneration(after, digest, others, gen', now', staleThreshold') == (after, false)
  {
    var after := ClaimScanGeneration(db, digest, archs, gen, now, staleThreshold).0;
    var a :| a in archs * others;
    assert ScanId(digest, a) in after.scans;
    assert !Claimable(RowOrQueued(after, ScanId(digest, a), now'), now', staleThreshold');
  }

  /** A claim fences every other generation off the scan: it can neither be selected nor
      report, requeue or adopt, and neither can a caller without a generation. */
  lemma ClaimFences(db: Db, digest: string, archs: set<string>, gen: string, now: int, staleThreshold: int, arch: string, other: string)
    requires ClaimScanGeneration(db, digest, archs, gen, now, staleThreshold).1 && arch in archs && other != gen
    ensures var after, k := ClaimScanGeneration(db, digest, archs, gen, now, staleThreshold).0, ScanId(digest, arch);
      && (forall parsed, t, sbom :: SelectScanCandidate(after, GenId(k, other), parsed, t, sbom) == (after, Refused))
      && (forall status, t :: ReportStatus(after, k, other, status, t) == (after, false))
      && (forall status, t :: ReportStatus(after, k, "", status, t) == (after, false))
      && (forall some, owner, t :: owner != Some(gen) ==> RequeueScanGeneration(after, digest, some, owner, t).scans[k] == after.scans[k])
      && (forall some :: arch in some ==> AdoptLegacyScanGeneration(after, digest, some, other) == (after, false))
  {
    hide Claimable;
    var after, k := ClaimScanGeneration(db, digest, archs, gen, now, staleThreshold).0, ScanId(digest, arch);
    assert k in after.scans && after.scans[k].status == Running && after.scans[k].current == Some(gen);
    hide ClaimScanGeneration;
    forall some | arch in some
      ensures AdoptLegacyScanGeneration(after, digest, some, other) == (after, false)
    {
      assert !Adoptable(after, k, other);
    }
  }

  // ---------------------------------------------------------------------
  // What the cleanup workers find
  // ---------------------------------------------------------------------

  /** Every replacement that the legacy worker claims in a reachable state is valid, so the
      worker never skips a scan. */
  lemma LegacyClaimsAreValid(cfg: Config, init: State, actions: seq<Action>, scans: set<ScanId>, now: int, c: LegacyClaim)
    requires Init(cfg, init)
    requires c in ClaimLegacyScanCleanup(Run(cfg, init, actions).db, scans, now).1
    ensures ValidReplacement(c)
  {
    hide Run, EverOk, ConfigOk, PublishersInv, CleanersInv, LegacyInv, ObjectsInv, SlashFree;
    InitInv(cfg, init) by { hide *; }
    RunInv(cfg, init, actions);
    var s := Run(cfg, init, actions);
    var id := GenId(c.scan, c.gen);
    assert ScanOk(cfg, s.db, s.ever, c.scan);
    assert RowOk(s.db, s.ever, id);
    assert Plain(cfg, id) by { EverPlain(cfg, s, id); }
  }

  lemma EverPlain(cfg: Config, s: State, id: GenId)
    requires EverOk(cfg, s.ever) && id in s.ever
    ensures Plain(cfg, id)
  {
  }

  /** The repair of selected rows in a deletion claim changes nothing: in a reachable state
      a claim touches exactly the rows that it deletes. */
  lemma RepairIsIdle(cfg: Config, init: State, actions: seq<Action>, visible: set<GenId>, now: int, id: GenId)
    requires Init(cfg, init)
    requires var db := Run(cfg, init, actions).db; id in db.gens && Judge(db, id, now) != Delete
    ensures var db := Run(cfg, init, actions).db; ClaimScanCandidateDeletions(db, visible, now).0.gens[id] == db.gens[id]
  {
    hide Run, EverOk, ConfigOk, PublishersInv, CleanersInv, LegacyInv, ObjectsInv;
    InitInv(cfg, init) by { hide *; }
    RunInv(cfg, init, actions);
    var s := Run(cfg, init, actions);
    assert RowOk(s.db, s.ever, id);
    assert id.scan in s.db.scans ==> ScanOk(cfg, s.db, s.ever, id.scan);
  }
}
