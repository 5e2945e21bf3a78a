/** Legacy deadlines, generation rows and stored objects after any run: each is what the last
    step that set it made of it.
 */
module ScanRows {
  import opened Options
  import opened ObjectKeys
  import opened ScanDb
  import opened ScanProtocol
  import opened ScanTheorems
  import opened ScanReadability
  import opened ScanLeases
  import opened ScanStatus

  const MINUTE: int := 60 * SECOND
  const HOUR: int := 60 * MINUTE

  // ---------------------------------------------------------------------
  // Legacy deadlines
  // ---------------------------------------------------------------------

  /** When the legacy objects may go, and when they went. */
  datatype Legacy = Legacy(after: Option<int>, at: Option<int>)

  function LegacyOf(s: State, k: ScanId): Legacy {
    if k in s.db.scans then Legacy(s.db.scans[k].legacyCleanupAfter, s.db.scans[k].legacyCleanedAt) else Legacy(None, None)
  }

  /** A worker's claims are all carried out. */
  ghost predicate AllDeleted(l: LegacyWorker) {
    forall c | c in l.ready :: (c, false) in l.done && (c, true) in l.done
  }

  ghost predicate LeasesScan(l: LegacyWorker, k: ScanId, lease: int) {
    exists c :: c in l.ready && c.scan == k && c.lease == lease
  }

  /** The first selection, or scheduling, gives 24 hours; a claim 5 minutes; and completion
      under the claim's lease ends it. */
  ghost function SetsLegacy(s: State, a: Action, k: ScanId): Option<Legacy> {
    var was := LegacyOf(s, k);
    match a
    case Select(w, now, sbomRowExists) =>
      if SelectsNow(s, w, sbomRowExists, k) && was == Legacy(None, None) then Some(Legacy(Some(now + 24 * HOUR), None)) else None
    case ScheduleLegacy(pairs, now) =>
      if k in s.db.scans && s.db.scans[k].selected.Some? && GenId(k, s.db.scans[k].selected.value) in pairs && was == Legacy(None, None)
      then Some(Legacy(Some(now + 24 * HOUR), None)) else None
    case ClaimLegacy(w, scans, now) =>
      if w !in s.legacy && k in scans && k in s.db.scans && s.db.scans[k].selected.Some? && was.at == None && was.after.Some? && was.after.value <= now
      then Some(Legacy(Some(now + 5 * MINUTE), None)) else None
    case CompleteLegacy(w, now) =>
      if w in s.legacy && AllDeleted(s.legacy[w]) && k in s.db.scans && s.db.scans[k].selected.Some? && was.at == None
         && was.after.Some? && LeasesScan(s.legacy[w], k, was.after.value)
      then Some(Legacy(None, Some(now))) else None
    case _ => None
  }

  ghost function LastLegacy(cfg: Config, s: State, actions: seq<Action>, k: ScanId): Option<Legacy>
    decreases |actions|
  {
    if actions == [] then None else OrElse(LastLegacy(cfg, Apply(cfg, s, actions[0]), actions[1..], k), SetsLegacy(s, actions[0], k))
  }

  lemma StatusStepLegacyOf(cfg: Config, s: State, a: Action, k: ScanId)
    requires IsStatusStep(a)
    ensures LegacyOf(Apply(cfg, s, a), k) == LegacyOf(s, k)
  {
    hide Currents, Plain, Claimable, Adoptable, MayBecomeCurrent, AllMayBecomeCurrent;
  }

  lemma CompleteSets(s: State, w: nat, now: int, k: ScanId)
    ensures LegacySet(s, DoCompleteLegacy(s, w, now), CompleteLegacy(w, now), k)
  {
    hide Currents;
    if w in s.legacy && k in s.db.scans && s.db.scans[k].legacyCleanupAfter.Some? {
      var ready := s.legacy[w].ready;
      assert LeasesScan(s.legacy[w], k, s.db.scans[k].legacyCleanupAfter.value) <==>
          exists c :: c in ready && c.scan == k && s.db.scans[k].legacyCleanupAfter == Some(c.lease);
    }
  }

  ghost predicate LegacySet(s: State, t: State, a: Action, k: ScanId) {
    LegacyOf(t, k) == OrElse(SetsLegacy(s, a, k), Some(LegacyOf(s, k))).value
  }

  lemma SelectSetsLegacy(s: State, w: nat, now: int, sbomRowExists: bool, k: ScanId)
    ensures LegacySet(s, DoSelect(s, w, now, sbomRowExists), Select(w, now, sbomRowExists), k)
  {
    hide Supersede;
  }

  lemma ClaimSetsLegacy(s: State, w: nat, scans: set<ScanId>, now: int, k: ScanId)
    ensures LegacySet(s, DoClaimLegacy(s, w, scans, now), ClaimLegacy(w, scans, now), k)
  {
    hide Currents, ClaimOf, ValidReplacement;
  }

  lemma ScheduleSetsLegacy(s: State, pairs: set<GenId>, now: int, k: ScanId)
    ensures LegacySet(s, WithScans(s, ScheduleLegacyScanCleanup(s.db, pairs, now)), ScheduleLegacy(pairs, now), k)
  {
    hide Currents;
  }

  lemma OthersKeepLegacy(cfg: Config, s: State, a: Action, k: ScanId)
    requires !IsStatusStep(a) && !a.Select? && !a.ClaimLegacy? && !a.CompleteLegacy? && !a.ScheduleLegacy?
    ensures LegacySet(s, Apply(cfg, s, a), a, k)
  {
    hide NewScanCandidate, ToDelete, Removable, Store, JudgedRow, Revoked, MarkScanCandidate, EnsureScanCandidate;
    KeepGensOnly(s.db);
  }

  /** The ensure and mark transactions write generation rows only. */
  lemma KeepGensOnly(db: Db)
    ensures forall c, now :: EnsureScanCandidate(db, c, now).0.scans == db.scans
    ensures forall id, state, now :: MarkScanCandidate(db, id, state, now).0.scans == db.scans
  {
  }

  lemma WorkerStepLegacyOf(cfg: Config, s: State, a: Action, k: ScanId)
    requires !IsStatusStep(a)
    ensures LegacySet(s, Apply(cfg, s, a), a, k)
  {
    if !a.Select? && !a.ClaimLegacy? && !a.CompleteLegacy? && !a.ScheduleLegacy? {
      OthersKeepLegacy(cfg, s, a, k);
      hide Apply;
    } else {
      hide LegacySet, DoSelect, DoClaimLegacy, DoCompleteLegacy, WithScans, ScheduleLegacyScanCleanup;
      if a.Select? {
        SelectSetsLegacy(s, a.w, a.now, a.sbomRowExists, k);
      } else if a.ClaimLegacy? {
        ClaimSetsLegacy(s, a.w, a.scans, a.now, k);
      } else if a.CompleteLegacy? {
        CompleteSets(s, a.w, a.now, k);
      } else {
        ScheduleSetsLegacy(s, a.pairs, a.now, k);
      }
    }
  }

  lemma LegacyKeptOrSet(s: State, t: State, a: Action, k: ScanId)
    requires LegacySet(s, t, a, k)
    ensures LegacyOf(t, k) == OrElse(SetsLegacy(s, a, k), Some(LegacyOf(s, k))).value
  {
  }

  /** After any run the legacy deadline of a scan is the one set last. */
  lemma {:induction false} LegacyIsLastSet(cfg: Config, s: State, actions: seq<Action>, k: ScanId)
    ensures LegacyOf(Run(cfg, s, actions), k) == OrElse(LastLegacy(cfg, s, actions, k), Some(LegacyOf(s, k))).value
    decreases |actions|
  {
    hide Apply, LegacyOf, SetsLegacy, LegacySet;
    if actions != [] {
      var a := actions[0];
      if IsStatusStep(a) {
        StatusStepLegacyOf(cfg, s, a, k);
        NoLegacy(s, a, k);
      } else {
        WorkerStepLegacyOf(cfg, s, a, k);
        LegacyKeptOrSet(s, Apply(cfg, s, a), a, k);
      }
      LegacyIsLastSet(cfg, Apply(cfg, s, a), actions[1..], k);
    }
  }

  lemma NoLegacy(s: State, a: Action, k: ScanId)
    requires IsStatusStep(a)
    ensures SetsLegacy(s, a, k) == None
  {
  }

  // ---------------------------------------------------------------------
  // Generation rows
  // ---------------------------------------------------------------------

  function RowOf(s: State, id: GenId): Option<GenRow> {
    if id in s.db.gens then Some(s.db.gens[id]) else None
  }

  ghost predicate BatchDeleted(c: Cleaner) {
    forall d | d in c.claims :: (d, false) in c.done && (d, true) in c.done
  }

  ghost predicate ClaimedUnder(c: Cleaner, id: GenId, lease: int) {
    exists d :: d in c.claims && d.id == id && d.lease == lease
  }

  /** The row that the step leaves for the generation, or none, if it touches it at all. */
  ghost function SetsRow(s: State, a: Action, id: GenId): Option<Option<GenRow>> {
    var row := RowOf(s, id);
    match a
    case Ensure(w, now) =>
      if At(s, w, Ensuring) && s.publishers[w].candidate.id == id then
        var c := s.publishers[w].candidate;
        if row == None then Some(Some(GenRow(Uploading, c.raw.meta, c.details.meta, Some(now + 24 * HOUR))))
        else if row.value.state in {Uploading, FailedUpload, Validated} && row.value.raw == c.raw.meta && row.value.details == c.details.meta
        then Some(Some(row.value.(cleanupAfter := Some(now + 24 * HOUR))))
        else None
      else None
    case Mark(w, now) =>
      if w in s.publishers && s.publishers[w].phase.Marking? && s.publishers[w].candidate.id == id && row.Some? && row.value.state in {Uploading, FailedUpload}
      then Some(Some(row.value.(state := s.publishers[w].phase.target,
                                cleanupAfter := if s.publishers[w].phase.target == Selected then None else Some(now + HOUR))))
      else None
    case Select(w, now, sbomRowExists) =>
      if SelectsNow(s, w, sbomRowExists, id.scan) && row.Some? then
        if s.publishers[w].candidate.id == id then Some(Some(row.value.(state := Selected, cleanupAfter := None)))
        else if s.db.scans[id.scan].selected == Some(id.gen) then Some(Some(row.value.(state := Superseded, cleanupAfter := Some(now + HOUR))))
        else None
      else None
    case ClaimDeletions(w, visible, now) =>
      if w !in s.cleaners && id in visible && row.Some? then
        if id.scan in s.db.scans && s.db.scans[id.scan].selected == Some(id.gen) then Some(Some(row.value.(state := Selected, cleanupAfter := None)))
        else if row.value.state != Selected && row.value.cleanupAfter.Some? && row.value.cleanupAfter.value <= now
        then Some(Some(row.value.(state := Deleting, cleanupAfter := Some(now + 5 * MINUTE))))
        else None
      else None
    case DeleteMetadata(w) =>
      if w in s.cleaners && BatchDeleted(s.cleaners[w]) && row.Some? && row.value.state == Deleting && row.value.cleanupAfter.Some?
         && ClaimedUnder(s.cleaners[w], id, row.value.cleanupAfter.value)
         && (id.scan in s.db.scans ==> s.db.scans[id.scan].current != Some(id.gen) && s.db.scans[id.scan].selected != Some(id.gen))
      then Some(None) else None
    case _ => None
  }

  ghost function LastRow(cfg: Config, s: State, actions: seq<Action>, id: GenId): Option<Option<GenRow>>
    decreases |actions|
  {
    if actions == [] then None else OrElse(LastRow(cfg, Apply(cfg, s, actions[0]), actions[1..], id), SetsRow(s, actions[0], id))
  }

  ghost predicate RowSet(s: State, t: State, a: Action, id: GenId) {
    RowOf(t, id) == OrElse(SetsRow(s, a, id), Some(RowOf(s, id))).value
  }

  lemma EnsureSets(s: State, w: nat, now: int, id: GenId)
    ensures RowSet(s, DoEnsure(s, w, now), Ensure(w, now), id)
  {
  }

  lemma MarkSets(s: State, w: nat, now: int, id: GenId)
    ensures RowSet(s, DoMark(s, w, now), Mark(w, now), id)
  {
  }

  lemma SelectSets(s: State, w: nat, now: int, sbomRowExists: bool, id: GenId)
    ensures RowSet(s, DoSelect(s, w, now, sbomRowExists), Select(w, now, sbomRowExists), id)
  {
  }

  lemma ClaimSets(s: State, w: nat, visible: set<GenId>, now: int, id: GenId)
    ensures RowSet(s, DoClaimDeletions(s, w, visible, now), ClaimDeletions(w, visible, now), id)
  {
    hide ToDelete, Revoked;
  }

  lemma DeleteSets(s: State, w: nat, id: GenId)
    ensures RowSet(s, DoDeleteMetadata(s, w), DeleteMetadata(w), id)
  {
    if w in s.cleaners && id in s.db.gens && s.db.gens[id].cleanupAfter.Some? {
      var claims := s.cleaners[w].claims;
      var removed := set d | d in claims && Removable(s.db, d) :: d.id;
      assert id in removed <==> exists d :: d in claims && d.id == id && Removable(s.db, d);
      if ClaimedUnder(s.cleaners[w], id, s.db.gens[id].cleanupAfter.value) {
        var d :| d in claims && d.id == id && d.lease == s.db.gens[id].cleanupAfter.value;
        assert Removable(s.db, d) <==> s.db.gens[id].state == Deleting && !IsCurrent(s.db, id) && !IsSelected(s.db, id);
      }
    }
  }

  lemma StepSetsRow(cfg: Config, s: State, a: Action, id: GenId)
    ensures RowSet(s, Apply(cfg, s, a), a, id)
  {
    if !TouchesRows(a) {
      OthersKeepRows(cfg, s, a);
      hide Apply;
    } else {
      hide RowSet, DoEnsure, DoMark, DoSelect, DoClaimDeletions, DoDeleteMetadata;
      if a.Ensure? {
        EnsureSets(s, a.w, a.now, id);
      } else if a.Mark? {
        MarkSets(s, a.w, a.now, id);
      } else if a.Select? {
        SelectSets(s, a.w, a.now, a.sbomRowExists, id);
      } else if a.ClaimDeletions? {
        ClaimSets(s, a.w, a.visible, a.now, id);
      } else {
        DeleteSets(s, a.w, id);
      }
    }
  }

  lemma RowKeptOrSet(s: State, t: State, a: Action, id: GenId)
    requires RowSet(s, t, a, id)
    ensures RowOf(t, id) == OrElse(SetsRow(s, a, id), Some(RowOf(s, id))).value
  {
  }

  /** After any run the row of a generation is the one written last, or gone. */
  lemma {:induction false} RowIsLastSet(cfg: Config, s: State, actions: seq<Action>, id: GenId)
    ensures RowOf(Run(cfg, s, actions), id) == OrElse(LastRow(cfg, s, actions, id), Some(RowOf(s, id))).value
    decreases |actions|
  {
    hide Apply, RowOf, SetsRow, RowSet;
    if actions != [] {
      var t := Apply(cfg, s, actions[0]);
      StepSetsRow(cfg, s, actions[0], id);
      RowKeptOrSet(s, t, actions[0], id);
      RowIsLastSet(cfg, t, actions[1..], id);
    }
  }

  // ---------------------------------------------------------------------
  // Objects
  // ---------------------------------------------------------------------

  function ObjectAt(s: State, key: string): Option<string> {
    if key in s.objects then Some(s.objects[key]) else None
  }

  function Chosen(p: Publisher, details: bool): Artifact {
    if details then p.candidate.details else p.candidate.raw
  }

  /** What the step stores under the key, or none, if it touches it at all. */
  function SetsObject(cfg: Config, s: State, a: Action, key: string): Option<Option<string>> {
    match a
    case Put(w, outcome) =>
      if w in s.publishers && s.publishers[w].phase in {PuttingRaw, PuttingDetails} && outcome != FailedLost then
        var sent := Chosen(s.publishers[w], s.publishers[w].phase == PuttingDetails);
        if sent.meta.key == key then Some(Some(sent.compressed)) else None
      else None
    case LatePut(w, details) =>
      if w in s.publishers && s.publishers[w].phase != Ensuring && s.publishers[w].phase != Rejected && Chosen(s.publishers[w], details).meta.key == key
      then Some(Some(Chosen(s.publishers[w], details).compressed)) else None
    case PutSbom(k, content) => if k in cfg.scans && SbomKey(k.digest, k.arch) == key then Some(Some(content)) else None
    case DeleteCandidateObject(w, d, details) =>
      if w in s.cleaners && d in s.cleaners[w].claims && (if details then d.detailsKey else d.rawKey) == key then Some(None) else None
    case DeleteLegacyObject(w, c, details) =>
      if w in s.legacy && c in s.legacy[w].ready
         && (if details then ParsedResultsDetailsKey(c.scan.digest, c.scan.arch) else RawResultKey(c.scan.digest, c.scan.arch)) == key
      then Some(None) else None
    case _ => None
  }

  function LastObject(cfg: Config, s: State, actions: seq<Action>, key: string): Option<Option<string>>
    decreases |actions|
  {
    if actions == [] then None else OrElse(LastObject(cfg, Apply(cfg, s, actions[0]), actions[1..], key), SetsObject(cfg, s, actions[0], key))
  }

  ghost predicate ObjectSet(cfg: Config, s: State, t: State, a: Action, key: string) {
    ObjectAt(t, key) == OrElse(SetsObject(cfg, s, a, key), Some(ObjectAt(s, key))).value
  }

  lemma PutSets(cfg: Config, s: State, w: nat, outcome: PutOutcome, key: string)
    ensures ObjectSet(cfg, s, DoPut(s, w, outcome), Put(w, outcome), key)
  {
  }

  lemma LatePutSets(cfg: Config, s: State, w: nat, details: bool, key: string)
    ensures ObjectSet(cfg, s, DoLatePut(s, w, details), LatePut(w, details), key)
  {
  }

  lemma StepSetsObject(cfg: Config, s: State, a: Action, key: string)
    ensures ObjectSet(cfg, s, Apply(cfg, s, a), a, key)
  {
    if !TouchesObjects(a) {
      OthersKeepObjects(cfg, s, a);
      hide Apply;
    } else if a.Put? {
      hide ObjectSet, DoPut;
      PutSets(cfg, s, a.w, a.outcome, key);
    } else if a.LatePut? {
      hide ObjectSet, DoLatePut;
      LatePutSets(cfg, s, a.w, a.details, key);
    } else {
      hide SbomKey, RawResultKey, ParsedResultsDetailsKey;
    }
  }

  lemma ObjectKeptOrSet(cfg: Config, s: State, t: State, a: Action, key: string)
    requires ObjectSet(cfg, s, t, a, key)
    ensures ObjectAt(t, key) == OrElse(SetsObject(cfg, s, a, key), Some(ObjectAt(s, key))).value
  {
  }

  /** After any run an object is the one stored last under its key, unless it was deleted since. */
  lemma {:induction false} ObjectIsLastStored(cfg: Config, s: State, actions: seq<Action>, key: string)
    ensures ObjectAt(Run(cfg, s, actions), key) == OrElse(LastObject(cfg, s, actions, key), Some(ObjectAt(s, key))).value
    decreases |actions|
  {
    hide Apply, ObjectAt, SetsObject, ObjectSet;
    if actions != [] {
      StepSetsObject(cfg, s, actions[0], key);
      ObjectKeptOrSet(cfg, s, Apply(cfg, s, actions[0]), actions[0], key);
      ObjectIsLastStored(cfg, Apply(cfg, s, actions[0]), actions[1..], key);
    }
  }

  // ---------------------------------------------------------------------
  // Objects go before rows
  // ---------------------------------------------------------------------

  predicate Ticked(s: State, w: nat, d: Deletion, details: bool) {
    w in s.cleaners && (d, details) in s.cleaners[w].done
  }

  predicate LegacyTicked(s: State, w: nat, c: LegacyClaim, details: bool) {
    w in s.legacy && (c, details) in s.legacy[w].done
  }

  lemma TickStep(cfg: Config, s: State, a: Action, w: nat, d: Deletion, c: LegacyClaim, details: bool)
    ensures Ticked(Apply(cfg, s, a), w, d, details) ==> Ticked(s, w, d, details) || a == DeleteCandidateObject(w, d, details)
    ensures LegacyTicked(Apply(cfg, s, a), w, c, details) ==> LegacyTicked(s, w, c, details) || a == DeleteLegacyObject(w, c, details)
  {
    hide NewScanCandidate, Currents, Plain, MayBecomeCurrent, AllMayBecomeCurrent, EnsureScanCandidate, MarkScanCandidate, SelectScanCandidate,
         ClaimScanCandidateDeletions, DeleteScanCandidateMetadata, ClaimLegacyScanCleanup, CompleteLegacyScanCleanup, ScheduleLegacyScanCleanup,
         SetScanStatusRunning, ClaimScanGeneration, AdoptLegacyScanGeneration, RequeueScanGeneration, InitializeScanStatusQueued, ReportStatus, Store,
         ValidReplacement;
  }

  /** A worker counts an object as deleted only after its delete step in the run; so rows and
      legacy scans are done with only after every object of the batch was deleted. */
  lemma {:induction false} DeletedBeforeDone(cfg: Config, s: State, actions: seq<Action>, w: nat, d: Deletion, c: LegacyClaim, details: bool)
    ensures Ticked(Run(cfg, s, actions), w, d, details) ==> Ticked(s, w, d, details) || DeleteCandidateObject(w, d, details) in actions
    ensures LegacyTicked(Run(cfg, s, actions), w, c, details) ==> LegacyTicked(s, w, c, details) || DeleteLegacyObject(w, c, details) in actions
    decreases |actions|
  {
    hide Apply, Ticked, LegacyTicked;
    if actions != [] {
      TickStep(cfg, s, actions[0], w, d, c, details);
      DeletedBeforeDone(cfg, Apply(cfg, s, actions[0]), actions[1..], w, d, c, details);
      assert actions == [actions[0]] + actions[1..];
    }
  }
}
