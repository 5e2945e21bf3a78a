/** The status, the time and the owner that a scan row shows after any run: those of the last
    step that set them.
 */
module ScanStatus {
  import opened Options
  import opened ScanDb
  import opened ScanProtocol
  import opened ScanTheorems

  // ---------------------------------------------------------------------
  // Which steps succeed
  // ---------------------------------------------------------------------

  /** The scan is not running, or its run has not been touched since the stale time. */
  predicate Free(db: Db, k: ScanId, now: int, staleThreshold: int) {
    k in db.scans && db.scans[k].status == Running ==>
      (match db.scans[k].statusUpdatedAt case Some(t) => t case None => db.scans[k].createdAt) <= now - staleThreshold
  }

  predicate TakesAll(cfg: Config, s: State, digest: string, archs: set<string>, gen: string, now: int, staleThreshold: int) {
    && archs != {} && AllMayBecomeCurrent(cfg, s, digest, archs, gen)
    && forall a | a in archs :: Free(s.db, ScanId(digest, a), now, staleThreshold)
  }

  /** The scan has this owner, or runs without one. */
  predicate MayAdopt(db: Db, k: ScanId, gen: string) {
    k in db.scans && (db.scans[k].current == Some(gen) || (db.scans[k].current == None && db.scans[k].status == Running))
  }

  predicate AdoptsAll(cfg: Config, s: State, digest: string, archs: set<string>, gen: string) {
    && archs != {} && AllMayBecomeCurrent(cfg, s, digest, archs, gen)
    && forall a | a in archs :: MayAdopt(s.db, ScanId(digest, a), gen)
  }

  predicate Requeues(s: State, digest: string, archs: set<string>, owner: Option<string>, k: ScanId) {
    && k.digest == digest && k.arch in archs
    && k in s.db.scans && s.db.scans[k].status == Running && s.db.scans[k].current == owner
  }

  /** A report of the owner is recorded unless its scan already succeeded with it; a report
      without generation only while nothing owns a run of the scan. */
  predicate Records(cfg: Config, s: State, k: ScanId, gen: string, status: Status) {
    && k in cfg.scans && status != Succeeded
    && if gen != "" then
         k in s.db.scans && s.db.scans[k].current == Some(gen)
         && !(s.db.scans[k].selected == Some(gen) && s.db.scans[k].status == Succeeded)
       else
         k in s.db.scans ==> s.db.scans[k].status != Running || s.db.scans[k].current == None
  }

  predicate Queues(cfg: Config, s: State, k: ScanId) {
    k in cfg.scans && (k in s.db.scans ==> s.db.scans[k].status in {Unknown, PendingSbom, GeneratingSbom})
  }

  /** The publisher is done uploading, its generation owns the scan and was validated, it is
      not selected yet, and the SBOM row is there. */
  predicate SelectsNow(s: State, w: nat, sbomRowExists: bool, k: ScanId) {
    && At(s, w, Selecting) && sbomRowExists
    && var id := s.publishers[w].candidate.id;
       && id.scan == k && k in s.db.scans && s.db.scans[k].current == Some(id.gen)
       && id in s.db.gens && s.db.gens[id].state in {Validated, Selected}
       && !(s.db.scans[k].selected == Some(id.gen) && s.db.gens[id].state == Selected)
  }

  /** A free cleaner sees the row of the scan's owner, which is not selected and whose
      deadline is over. */
  predicate Revokes(s: State, w: nat, visible: set<GenId>, now: int, k: ScanId) {
    && w !in s.cleaners && k in s.db.scans && s.db.scans[k].current.Some?
    && var id := GenId(k, s.db.scans[k].current.value);
       && id in visible && id in s.db.gens && s.db.scans[k].selected != Some(id.gen) && s.db.gens[id].state != Selected
       && s.db.gens[id].cleanupAfter.Some? && s.db.gens[id].cleanupAfter.value <= now
  }

  // ---------------------------------------------------------------------
  // Status
  // ---------------------------------------------------------------------

  /** A status and the time at which it was set. */
  datatype Stamp = Stamp(status: Status, at: Option<int>)

  function StampOf(s: State, k: ScanId): Option<Stamp> {
    if k in s.db.scans then Some(Stamp(s.db.scans[k].status, s.db.scans[k].statusUpdatedAt)) else None
  }

  /** The stamp that the step gives the scan, if any. */
  function Stamps(cfg: Config, s: State, a: Action, k: ScanId): Option<Stamp> {
    match a
    case SetRunning(l, gen, now) => if l == k && MayBecomeCurrent(cfg, s, GenId(k, gen)) then Some(Stamp(Running, Some(now))) else None
    case Claim(digest, archs, gen, now, stale) =>
      if k.digest == digest && k.arch in archs && TakesAll(cfg, s, digest, archs, gen, now, stale) then Some(Stamp(Running, Some(now))) else None
    case Requeue(digest, archs, owner, now) => if Requeues(s, digest, archs, owner, k) then Some(Stamp(Queued, Some(now))) else None
    case InitializeQueued(l, now) => if l == k && Queues(cfg, s, k) then Some(Stamp(Queued, Some(now))) else None
    case Report(l, gen, status, now) => if l == k && Records(cfg, s, k, gen, status) then Some(Stamp(status, Some(now))) else None
    case Select(w, now, sbomRowExists) => if SelectsNow(s, w, sbomRowExists, k) then Some(Stamp(Succeeded, Some(now))) else None
    case _ => None
  }

  function LastStamp(cfg: Config, s: State, actions: seq<Action>, k: ScanId): Option<Stamp>
    decreases |actions|
  {
    if actions == [] then None
    else
      var later := LastStamp(cfg, Apply(cfg, s, actions[0]), actions[1..], k);
      if later.Some? then later else Stamps(cfg, s, actions[0], k)
  }

  function OrElse<T>(a: Option<T>, b: Option<T>): Option<T> {
    if a.Some? then a else b
  }

  lemma ClaimStamps(cfg: Config, s: State, digest: string, archs: set<string>, gen: string, now: int, stale: int, k: ScanId)
    ensures var t := DoClaim(cfg, s, digest, archs, gen, now, stale);
      if k.digest == digest && k.arch in archs && TakesAll(cfg, s, digest, archs, gen, now, stale)
      then StampOf(t, k) == Some(Stamp(Running, Some(now))) && OwnerOf(t, k) == Some(gen)
      else StampOf(t, k) == StampOf(s, k) && OwnerOf(t, k) == OwnerOf(s, k)
  {
    hide AllMayBecomeCurrent, Currents;
    assert forall a | a in archs :: Claimable(RowOrQueued(s.db, ScanId(digest, a), now), now, stale) <==> Free(s.db, ScanId(digest, a), now, stale);
    hide Claimable, Free;
    if k.digest == digest && k.arch in archs {
      assert k == ScanId(digest, k.arch);
    }
  }

  lemma ReportStamps(cfg: Config, s: State, l: ScanId, gen: string, status: Status, now: int, k: ScanId)
    ensures var t := DoReport(cfg, s, l, gen, status, now);
      && StampOf(t, k) == (if l == k && Records(cfg, s, k, gen, status) then Some(Stamp(status, Some(now))) else StampOf(s, k))
      && OwnerOf(t, k) == OwnerOf(s, k)
  {
    hide Currents;
  }

  lemma RequeueStamps(s: State, digest: string, archs: set<string>, owner: Option<string>, now: int, k: ScanId)
    ensures var t := WithScans(s, RequeueScanGeneration(s.db, digest, archs, owner, now));
      && StampOf(t, k) == (if Requeues(s, digest, archs, owner, k) then Some(Stamp(Queued, Some(now))) else StampOf(s, k))
      && OwnerOf(t, k) == if Requeues(s, digest, archs, owner, k) then None else OwnerOf(s, k)
  {
    hide Currents;
  }

  lemma SetRunningStamps(cfg: Config, s: State, l: ScanId, gen: string, now: int, k: ScanId)
    ensures var t := DoSetRunning(cfg, s, l, gen, now);
      if l == k && MayBecomeCurrent(cfg, s, GenId(k, gen)) then StampOf(t, k) == Some(Stamp(Running, Some(now))) && OwnerOf(t, k) == Some(gen)
      else StampOf(t, k) == StampOf(s, k) && OwnerOf(t, k) == OwnerOf(s, k)
  {
    hide Currents, MayBecomeCurrent;
  }

  lemma QueueStamps(cfg: Config, s: State, l: ScanId, now: int, k: ScanId)
    ensures var t := DoInitializeQueued(cfg, s, l, now);
      && StampOf(t, k) == (if l == k && Queues(cfg, s, k) then Some(Stamp(Queued, Some(now))) else StampOf(s, k))
      && OwnerOf(t, k) == OwnerOf(s, k)
  {
    hide Currents;
  }

  lemma AdoptKeepsStamp(cfg: Config, s: State, digest: string, archs: set<string>, gen: string, k: ScanId)
    ensures StampOf(DoAdoptLegacy(cfg, s, digest, archs, gen), k) == StampOf(s, k)
  {
    hide Currents, AllMayBecomeCurrent, Adoptable;
  }

  lemma StatusStepStamps(cfg: Config, s: State, a: Action, k: ScanId)
    requires IsStatusStep(a)
    ensures StampOf(Apply(cfg, s, a), k) == OrElse(Stamps(cfg, s, a, k), StampOf(s, k))
  {
    hide StampOf, MayBecomeCurrent, DoSetRunning, DoClaim, TakesAll, DoReport, Records, WithScans, RequeueScanGeneration, Requeues, DoAdoptLegacy,
         DoInitializeQueued, Queues;
    match a
    case SetRunning(l, gen, now) => SetRunningStamps(cfg, s, l, gen, now, k);
    case InitializeQueued(l, now) => QueueStamps(cfg, s, l, now, k);
    case Claim(digest, archs, gen, now, stale) => ClaimStamps(cfg, s, digest, archs, gen, now, stale, k);
    case Report(l, gen, status, now) => ReportStamps(cfg, s, l, gen, status, now, k);
    case Requeue(digest, archs, owner, now) => RequeueStamps(s, digest, archs, owner, now, k);
    case AdoptLegacy(digest, archs, gen) => AdoptKeepsStamp(cfg, s, digest, archs, gen, k);
    case _ => assert false;
  }

  lemma WorkerStepStamps(cfg: Config, s: State, a: Action, k: ScanId)
    requires !IsStatusStep(a)
    ensures StampOf(Apply(cfg, s, a), k) == OrElse(Stamps(cfg, s, a, k), StampOf(s, k))
  {
    hide NewScanCandidate, Currents, ToDelete, LegacyLeased, LegacyDue, ClaimOf, Removable, ValidReplacement, Store, Judge, JudgedRow, Revoked, Supersede;
  }

  /** After any run a scan has the status, and the time, of the last step that set them: a
      restart or claim gives Running, a requeue or initialisation Queued, a recorded report
      the reported status, a selection Succeeded, and no other step changes them. */
  lemma {:induction false} StatusIsLastSet(cfg: Config, s: State, actions: seq<Action>, k: ScanId)
    ensures StampOf(Run(cfg, s, actions), k) == OrElse(LastStamp(cfg, s, actions, k), StampOf(s, k))
    decreases |actions|
  {
    hide Apply, StampOf, Stamps;
    if actions != [] {
      var a := actions[0];
      if IsStatusStep(a) {
        StatusStepStamps(cfg, s, a, k);
      } else {
        WorkerStepStamps(cfg, s, a, k);
      }
      StatusIsLastSet(cfg, Apply(cfg, s, a), actions[1..], k);
    }
  }

  // ---------------------------------------------------------------------
  // Owner
  // ---------------------------------------------------------------------

  function OwnerOf(s: State, k: ScanId): Option<string> {
    if k in s.db.scans then s.db.scans[k].current else None
  }

  /** The owner that the step gives the scan, or none, if it changes it at all. */
  function Assigns(cfg: Config, s: State, a: Action, k: ScanId): Option<Option<string>> {
    match a
    case SetRunning(l, gen, now) => if l == k && MayBecomeCurrent(cfg, s, GenId(k, gen)) then Some(Some(gen)) else None
    case Claim(digest, archs, gen, now, stale) =>
      if k.digest == digest && k.arch in archs && TakesAll(cfg, s, digest, archs, gen, now, stale) then Some(Some(gen)) else None
    case AdoptLegacy(digest, archs, gen) =>
      if k.digest == digest && k.arch in archs && AdoptsAll(cfg, s, digest, archs, gen) then Some(Some(gen)) else None
    case Requeue(digest, archs, owner, now) => if Requeues(s, digest, archs, owner, k) then Some(None) else None
    case ClaimDeletions(w, visible, now) => if Revokes(s, w, visible, now, k) then Some(None) else None
    case _ => None
  }

  function LastAssigned(cfg: Config, s: State, actions: seq<Action>, k: ScanId): Option<Option<string>>
    decreases |actions|
  {
    if actions == [] then None
    else
      var later := LastAssigned(cfg, Apply(cfg, s, actions[0]), actions[1..], k);
      if later.Some? then later else Assigns(cfg, s, actions[0], k)
  }

  lemma AdoptAssigns(cfg: Config, s: State, digest: string, archs: set<string>, gen: string, k: ScanId)
    ensures OwnerOf(DoAdoptLegacy(cfg, s, digest, archs, gen), k) ==
      if k.digest == digest && k.arch in archs && AdoptsAll(cfg, s, digest, archs, gen) then Some(gen) else OwnerOf(s, k)
  {
    hide AllMayBecomeCurrent, Currents;
    assert forall a | a in archs :: Adoptable(s.db, ScanId(digest, a), gen) <==> MayAdopt(s.db, ScanId(digest, a), gen);
    if k.digest == digest && k.arch in archs {
      assert k == ScanId(digest, k.arch);
    }
  }

  lemma StatusStepAssigns(cfg: Config, s: State, a: Action, k: ScanId)
    requires IsStatusStep(a)
    ensures OwnerOf(Apply(cfg, s, a), k) == (if Assigns(cfg, s, a, k).Some? then Assigns(cfg, s, a, k).value else OwnerOf(s, k))
  {
    hide OwnerOf, MayBecomeCurrent, DoSetRunning, DoClaim, TakesAll, DoReport, Records, WithScans, RequeueScanGeneration, Requeues, DoAdoptLegacy,
         AdoptsAll, DoInitializeQueued;
    match a
    case SetRunning(l, gen, now) => SetRunningStamps(cfg, s, l, gen, now, k);
    case InitializeQueued(l, now) => QueueStamps(cfg, s, l, now, k);
    case Claim(digest, archs, gen, now, stale) => ClaimStamps(cfg, s, digest, archs, gen, now, stale, k);
    case Report(l, gen, status, now) => ReportStamps(cfg, s, l, gen, status, now, k);
    case Requeue(digest, archs, owner, now) => RequeueStamps(s, digest, archs, owner, now, k);
    case AdoptLegacy(digest, archs, gen) => AdoptAssigns(cfg, s, digest, archs, gen, k);
    case _ => assert false;
  }

  lemma WorkerStepAssigns(cfg: Config, s: State, a: Action, k: ScanId)
    requires !IsStatusStep(a)
    ensures OwnerOf(Apply(cfg, s, a), k) == (if Assigns(cfg, s, a, k).Some? then Assigns(cfg, s, a, k).value else OwnerOf(s, k))
  {
    hide NewScanCandidate, Currents, ToDelete, LegacyLeased, LegacyDue, ClaimOf, Removable, ValidReplacement, Store, JudgedRow, Supersede;
  }

  /** After any run a scan is owned by the generation of the last restart, claim or adoption
      that took it, unless a requeue or a deletion claim took it away since. */
  lemma {:induction false} OwnerIsLastAssigned(cfg: Config, s: State, actions: seq<Action>, k: ScanId)
    ensures var last := LastAssigned(cfg, s, actions, k);
      OwnerOf(Run(cfg, s, actions), k) == if last.Some? then last.value else OwnerOf(s, k)
    decreases |actions|
  {
    hide Apply, OwnerOf, Assigns;
    if actions != [] {
      var a := actions[0];
      if IsStatusStep(a) {
        StatusStepAssigns(cfg, s, a, k);
      } else {
        WorkerStepAssigns(cfg, s, a, k);
      }
      OwnerIsLastAssigned(cfg, Apply(cfg, s, a), actions[1..], k);
    }
  }

  // ---------------------------------------------------------------------
  // Creation, and results in the object store
  // ---------------------------------------------------------------------

  /** The rest of a row: when it was inserted, and whether its results are in the object store. */
  datatype Rest = Rest(createdAt: int, inObjectStore: bool)

  function RestOf(s: State, k: ScanId): Option<Rest> {
    if k in s.db.scans then Some(Rest(s.db.scans[k].createdAt, s.db.scans[k].inObjectStore)) else None
  }

  /** A step that stamps a missing scan inserts it at that time, without results in the store;
      a selection puts them there. */
  function RestAfter(cfg: Config, s: State, a: Action, k: ScanId): Option<Rest> {
    if RestOf(s, k) == None then
      if Stamps(cfg, s, a, k).Some? && Stamps(cfg, s, a, k).value.at.Some? then Some(Rest(Stamps(cfg, s, a, k).value.at.value, false)) else None
    else if a.Select? && SelectsNow(s, a.w, a.sbomRowExists, k) then Some(RestOf(s, k).value.(inObjectStore := true))
    else RestOf(s, k)
  }

  lemma StatusStepRest(cfg: Config, s: State, a: Action, k: ScanId)
    requires IsStatusStep(a)
    ensures RestOf(Apply(cfg, s, a), k) == RestAfter(cfg, s, a, k)
  {
    StatusStepStamps(cfg, s, a, k);
    NewRows(cfg, s, a, k);
    hide Apply, Stamps;
  }

  /** A row that was there keeps the rest, and a new one was created when it was stamped. */
  predicate RestKept(s: State, t: State, k: ScanId) {
    && (k in s.db.scans ==> RestOf(t, k) == RestOf(s, k))
    && (k !in s.db.scans && k in t.db.scans ==> StampOf(t, k).value.at == Some(t.db.scans[k].createdAt) && !t.db.scans[k].inObjectStore)
  }

  lemma BulkNewRows(cfg: Config, s: State, digest: string, archs: set<string>, gen: string, now: int, stale: int, k: ScanId)
    ensures RestKept(s, DoClaim(cfg, s, digest, archs, gen, now, stale), k)
    ensures RestKept(s, DoAdoptLegacy(cfg, s, digest, archs, gen), k)
  {
    hide Currents, Claimable, Adoptable, AllMayBecomeCurrent;
  }

  lemma StartNewRow(cfg: Config, s: State, l: ScanId, gen: string, now: int, k: ScanId)
    ensures RestKept(s, DoSetRunning(cfg, s, l, gen, now), k)
    ensures RestKept(s, DoInitializeQueued(cfg, s, l, now), k)
  {
    hide Currents, MayBecomeCurrent;
  }

  lemma ReportNewRow(cfg: Config, s: State, l: ScanId, gen: string, status: Status, now: int, k: ScanId)
    ensures RestKept(s, DoReport(cfg, s, l, gen, status, now), k)
  {
    hide Currents;
  }

  lemma RequeueNewRow(s: State, digest: string, archs: set<string>, owner: Option<string>, now: int, k: ScanId)
    ensures RestKept(s, WithScans(s, RequeueScanGeneration(s.db, digest, archs, owner, now)), k)
  {
    hide Currents;
  }

  lemma NewRows(cfg: Config, s: State, a: Action, k: ScanId)
    requires IsStatusStep(a)
    ensures RestKept(s, Apply(cfg, s, a), k)
  {
    hide RestKept, MayBecomeCurrent, DoSetRunning, DoClaim, DoReport, WithScans, RequeueScanGeneration, DoAdoptLegacy, DoInitializeQueued;
    match a
    case SetRunning(l, gen, now) => StartNewRow(cfg, s, l, gen, now, k);
    case InitializeQueued(l, now) => StartNewRow(cfg, s, l, "", now, k);
    case Claim(digest, archs, gen, now, stale) => BulkNewRows(cfg, s, digest, archs, gen, now, stale, k);
    case AdoptLegacy(digest, archs, gen) => BulkNewRows(cfg, s, digest, archs, gen, 0, 0, k);
    case Report(l, gen, status, now) => ReportNewRow(cfg, s, l, gen, status, now, k);
    case Requeue(digest, archs, owner, now) => RequeueNewRow(s, digest, archs, owner, now, k);
    case _ => assert false;
  }

  lemma WorkerStepRest(cfg: Config, s: State, a: Action, k: ScanId)
    requires !IsStatusStep(a)
    ensures RestOf(Apply(cfg, s, a), k) == RestAfter(cfg, s, a, k)
  {
    hide NewScanCandidate, Currents, ToDelete, LegacyLeased, LegacyDue, ClaimOf, Removable, ValidReplacement, Store, Judge, JudgedRow, Revoked, Supersede;
  }

  /** Every step keeps the rest of every row so. */
  lemma StepRest(cfg: Config, s: State, a: Action, k: ScanId)
    ensures RestOf(Apply(cfg, s, a), k) == RestAfter(cfg, s, a, k)
  {
    hide Apply, RestOf, RestAfter;
    if IsStatusStep(a) {
      StatusStepRest(cfg, s, a, k);
    } else {
      WorkerStepRest(cfg, s, a, k);
    }
  }

  // ---------------------------------------------------------------------
  // Published results
  // ---------------------------------------------------------------------

  /** What ShowsLastPublished counts as a publication is exactly such a selection. */
  lemma PublishesIff(s: State, a: Action, k: ScanId)
    ensures Publishes(s, a, k).Some? <==> a.Select? && SelectsNow(s, a.w, a.sbomRowExists, k)
  {
  }
}
