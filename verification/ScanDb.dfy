/** The scan and generation rows, and each committed transaction on them as a function
    from rows to rows. Every transaction takes the time it reads as a parameter.
 */
module ScanDb {
  import opened Options
  import opened ObjectKeys

  // ---------------------------------------------------------------------
  // Rows
  // ---------------------------------------------------------------------

  /** An image digest and an architecture: the key of a scan row. */
  datatype ScanId = ScanId(digest: string, arch: string)

  /** The key of a generation row. */
  datatype GenId = GenId(scan: ScanId, gen: string)

  datatype Status = Unknown | PendingSbom | GeneratingSbom | Queued | Running | Succeeded | Failed

  datatype ScanRow = ScanRow(
    status: Status,
    current: Option<string>,        // current_scan_generation_id
    selected: Option<string>,       // selected_scan_generation_id
    parsed: Option<string>,         // parsed_results
    completedAt: Option<int>,       // scan_completed_at
    createdAt: int,
    statusUpdatedAt: Option<int>,   // scan_status_updated_at
    legacyCleanupAfter: Option<int>,
    legacyCleanedAt: Option<int>,
    inObjectStore: bool)

  datatype GenState = Uploading | FailedUpload | Validated | Selected | Superseded | Deleting

  /** Key, size and hash of one stored object, as recorded in a generation row. */
  datatype Meta = Meta(key: string, size: nat, sha256: string)

  datatype GenRow = GenRow(state: GenState, raw: Meta, details: Meta, cleanupAfter: Option<int>)

  datatype Db = Db(scans: map<ScanId, ScanRow>, gens: map<GenId, GenRow>)

  /** Times are in microseconds. */
  const SECOND: int := 1_000_000
  const PUBLICATION_LEASE: int := 24 * 3600 * SECOND
  const CLEANUP_RETENTION: int := 3600 * SECOND
  const CLEANUP_LEASE: int := 300 * SECOND
  const LEGACY_GRACE: int := 24 * 3600 * SECOND

  predicate IsCurrent(db: Db, id: GenId) {
    id.scan in db.scans && db.scans[id.scan].current == Some(id.gen)
  }

  predicate IsSelected(db: Db, id: GenId) {
    id.scan in db.scans && db.scans[id.scan].selected == Some(id.gen)
  }

  // ---------------------------------------------------------------------
  // Scan status transactions
  // ---------------------------------------------------------------------

  function NewScan(status: Status, current: Option<string>, now: int): ScanRow {
    ScanRow(status, current, None, None, None, now, Some(now), None, None, false)
  }

  function SetScanStatusRunning(db: Db, k: ScanId, gen: string, now: int): Db {
    var row := if k in db.scans
               then db.scans[k].(status := Running, statusUpdatedAt := Some(now), current := Some(gen))
               else NewScan(Running, Some(gen), now);
    db.(scans := db.scans[k := row])
  }

  function EffectiveUpdate(row: ScanRow): int {
    match row.statusUpdatedAt
    case Some(t) => t
    case None => row.createdAt
  }

  /** A row that is not running, or whose run is stale, may be claimed. */
  predicate Claimable(row: ScanRow, now: int, staleThreshold: int) {
    row.status != Running || EffectiveUpdate(row) <= now - staleThreshold
  }

  /** The row that the claim sees: missing rows were inserted just before. */
  function RowOrQueued(db: Db, k: ScanId, now: int): ScanRow {
    if k in db.scans then db.scans[k] else NewScan(Queued, None, now)
  }

  /** All requested architectures are claimed, or none and nothing is inserted. */
  function ClaimScanGeneration(db: Db, digest: string, archs: set<string>, gen: string, now: int, staleThreshold: int): (Db, bool) {
    if forall a | a in archs :: Claimable(RowOrQueued(db, ScanId(digest, a), now), now, staleThreshold) then
      var claimed := map a | a in archs :: RowOrQueued(db, ScanId(digest, a), now).(status := Running, statusUpdatedAt := Some(now), current := Some(gen));
      (db.(scans := map k | k in db.scans.Keys + (set a | a in archs :: ScanId(digest, a)) ::
             if k.digest == digest && k.arch in archs then claimed[k.arch] else db.scans[k]), true)
    else (db, false)
  }

  predicate Adoptable(db: Db, k: ScanId, gen: string) {
    && k in db.scans
    && ((db.scans[k].current == None && db.scans[k].status == Running) || db.scans[k].current == Some(gen))
  }

  function AdoptLegacyScanGeneration(db: Db, digest: string, archs: set<string>, gen: string): (Db, bool) {
    if forall a | a in archs :: Adoptable(db, ScanId(digest, a), gen) then
      (db.(scans := map k | k in db.scans ::
             if k.digest == digest && k.arch in archs then db.scans[k].(current := Some(gen)) else db.scans[k]), true)
    else (db, false)
  }

  /** Rows still running and still owned by the given generation, or by none. */
  function RequeueScanGeneration(db: Db, digest: string, archs: set<string>, gen: Option<string>, now: int): Db {
    db.(scans := map k | k in db.scans ::
          if k.digest == digest && k.arch in archs && db.scans[k].status == Running && db.scans[k].current == gen
          then db.scans[k].(status := Queued, statusUpdatedAt := Some(now), current := None)
          else db.scans[k])
  }

  function InitializeScanStatusQueued(db: Db, k: ScanId, now: int): Db {
    if k !in db.scans then db.(scans := db.scans[k := NewScan(Queued, None, now)])
    else if db.scans[k].status in {Unknown, PendingSbom, GeneratingSbom} then
      db.(scans := db.scans[k := db.scans[k].(status := Queued, statusUpdatedAt := Some(now))])
    else db
  }

  /** A result other than success. Returns whether the update was accepted. */
  function ReportStatus(db: Db, k: ScanId, gen: string, status: Status, now: int): (Db, bool) {
    if gen != "" then
      if k !in db.scans || db.scans[k].current != Some(gen) then (db, false)
      else if db.scans[k].selected == Some(gen) && db.scans[k].status == Succeeded then (db, true)
      else (db.(scans := db.scans[k := db.scans[k].(status := status, statusUpdatedAt := Some(now))]), true)
    else if k !in db.scans then (db.(scans := db.scans[k := NewScan(status, None, now)]), true)
    else if db.scans[k].status != Running || db.scans[k].current == None then
      (db.(scans := db.scans[k := db.scans[k].(status := status, statusUpdatedAt := Some(now))]), true)
    else (db, false)
  }

  // ---------------------------------------------------------------------
  // Publication transactions
  // ---------------------------------------------------------------------

  datatype Artifact = Artifact(meta: Meta, compressed: string)

  datatype Candidate = Candidate(id: GenId, raw: Artifact, details: Artifact)

  /** Insert the candidate's row, or check that the stored one is the same publication,
      and renew its lease. None stands for an error, after which nothing is committed. */
  function EnsureScanCandidate(db: Db, c: Candidate, now: int): (Db, Option<GenState>) {
    var row := if c.id in db.gens then db.gens[c.id]
               else GenRow(Uploading, c.raw.meta, c.details.meta, Some(now + PUBLICATION_LEASE));
    if row.state == Deleting || row.state == Superseded then (db, None)
    else if row.raw != c.raw.meta || row.details != c.details.meta then (db, None)
    else
      var kept := if row.state in {Uploading, FailedUpload, Validated}
                  then row.(cleanupAfter := Some(now + PUBLICATION_LEASE)) else row;
      (db.(gens := db.gens[c.id := kept]), Some(row.state))
  }

  /** The guarded update of markScanCandidateState; false when no row qualifies. */
  function MarkScanCandidate(db: Db, id: GenId, state: GenState, now: int): (Db, bool) {
    if id in db.gens && db.gens[id].state in {Uploading, FailedUpload} then
      var cleanup := if state == Selected then None else Some(now + CLEANUP_RETENTION);
      (db.(gens := db.gens[id := db.gens[id].(state := state, cleanupAfter := cleanup)]), true)
    else (db, false)
  }

  function Supersede(gens: map<GenId, GenRow>, previous: GenId, now: int): map<GenId, GenRow> {
    if previous in gens then gens[previous := gens[previous].(state := Superseded, cleanupAfter := Some(now + CLEANUP_RETENTION))]
    else gens
  }

  function SelectedRow(row: ScanRow, gen: string, parsed: string, now: int): ScanRow {
    row.(selected := Some(gen),
         legacyCleanupAfter :=
           if row.legacyCleanedAt == None && row.legacyCleanupAfter == None then Some(now + LEGACY_GRACE)
           else row.legacyCleanupAfter,
         parsed := Some(parsed), status := Succeeded, completedAt := Some(now),
         statusUpdatedAt := Some(now), inObjectStore := true)
  }

  /** The selection is refused, found already made, or made. */
  datatype Selection = Refused | AlreadySelected | NewlySelected

  function SelectScanCandidate(db: Db, id: GenId, parsed: string, now: int, sbomRowExists: bool): (Db, Selection) {
    if id.scan !in db.scans || db.scans[id.scan].current != Some(id.gen) then (db, Refused)
    else if id !in db.gens || db.gens[id].state !in {Validated, Selected} then (db, Refused)
    else if db.scans[id.scan].selected == Some(id.gen) && db.gens[id].state == Selected then (db, AlreadySelected)
    else if !sbomRowExists then (db, Refused)
    else
      var previous := db.scans[id.scan].selected;
      var gens := if previous.Some? && previous.value != id.gen then Supersede(db.gens, GenId(id.scan, previous.value), now) else db.gens;
      (Db(db.scans[id.scan := SelectedRow(db.scans[id.scan], id.gen, parsed, now)],
          gens[id := gens[id].(state := Selected, cleanupAfter := None)]), NewlySelected)
  }

  // ---------------------------------------------------------------------
  // Candidate cleanup transactions
  // ---------------------------------------------------------------------

  datatype Deletion = Deletion(id: GenId, rawKey: string, detailsKey: string, lease: int)

  /** What a deletion claim does to one locked generation row. */
  datatype Verdict = Reselect | Protect | Delete

  function Judge(db: Db, id: GenId, now: int): Verdict
    requires id in db.gens
  {
    var row := db.gens[id];
    if IsSelected(db, id) then Reselect
    else if row.state == Selected || row.cleanupAfter == None || row.cleanupAfter.value > now then Protect
    else Delete
  }

  function JudgedRow(db: Db, id: GenId, now: int): GenRow
    requires id in db.gens
  {
    match Judge(db, id, now)
    case Reselect => db.gens[id].(state := Selected, cleanupAfter := None)
    case Protect => db.gens[id]
    case Delete => db.gens[id].(state := Deleting, cleanupAfter := Some(now + CLEANUP_LEASE))
  }

  /** The scan loses its current generation when that one is claimed for deletion. */
  predicate Revoked(db: Db, k: ScanId, visible: set<GenId>, now: int) {
    && k in db.scans && db.scans[k].current.Some?
    && var id := GenId(k, db.scans[k].current.value);
       id in visible && id in db.gens && Judge(db, id, now) == Delete
  }

  function ToDelete(db: Db, visible: set<GenId>, now: int): set<Deletion> {
    set id | id in visible && id in db.gens && Judge(db, id, now) == Delete ::
      Deletion(id, db.gens[id].raw.key, db.gens[id].details.key, now + CLEANUP_LEASE)
  }

  /** One batch: visible are the listed rows whose locks were obtained. */
  function ClaimScanCandidateDeletions(db: Db, visible: set<GenId>, now: int): (Db, set<Deletion>) {
    (Db(map k | k in db.scans :: if Revoked(db, k, visible, now) then db.scans[k].(current := None) else db.scans[k],
        map id | id in db.gens :: if id in visible then JudgedRow(db, id, now) else db.gens[id]),
     ToDelete(db, visible, now))
  }

  /** The row still carries the claim's lease and no scan refers to it. */
  predicate Removable(db: Db, d: Deletion) {
    && d.id in db.gens && db.gens[d.id].state == Deleting && db.gens[d.id].cleanupAfter == Some(d.lease)
    && !IsCurrent(db, d.id) && !IsSelected(db, d.id)
  }

  function DeleteScanCandidateMetadata(db: Db, deletions: set<Deletion>): Db {
    db.(gens := db.gens - set d | d in deletions && Removable(db, d) :: d.id)
  }

  // ---------------------------------------------------------------------
  // Legacy cleanup transactions
  // ---------------------------------------------------------------------

  datatype LegacyClaim = LegacyClaim(scan: ScanId, gen: string, rawKey: string, detailsKey: string, state: Option<GenState>, lease: int)

  predicate LegacyDue(db: Db, k: ScanId, now: int) {
    && k in db.scans && db.scans[k].selected.Some? && db.scans[k].legacyCleanedAt == None
    && db.scans[k].legacyCleanupAfter.Some? && db.scans[k].legacyCleanupAfter.value <= now
  }

  function ClaimOf(db: Db, k: ScanId, lease: int): LegacyClaim
    requires k in db.scans && db.scans[k].selected.Some?
  {
    var gen := db.scans[k].selected.value;
    var id := GenId(k, gen);
    if id in db.gens then LegacyClaim(k, gen, db.gens[id].raw.key, db.gens[id].details.key, Some(db.gens[id].state), lease)
    else LegacyClaim(k, gen, "", "", None, lease)
  }

  function ClaimLegacyScanCleanup(db: Db, visible: set<ScanId>, now: int): (Db, set<LegacyClaim>) {
    var lease := now + CLEANUP_LEASE;
    (db.(scans := map k | k in db.scans ::
           if k in visible && LegacyDue(db, k, now) then db.scans[k].(legacyCleanupAfter := Some(lease)) else db.scans[k]),
     set k | k in visible && LegacyDue(db, k, now) :: ClaimOf(db, k, lease))
  }

  /** Is the claimed replacement a selected generation with its own keys? */
  predicate ValidReplacement(c: LegacyClaim) {
    && c.gen != "" && c.state == Some(Selected)
    && c.rawKey == GenerationRawResultKey(c.scan.digest, c.scan.arch, c.gen)
    && c.detailsKey == GenerationDetailsKey(c.scan.digest, c.scan.arch, c.gen)
  }

  predicate LegacyLeased(db: Db, k: ScanId, claims: set<LegacyClaim>) {
    && k in db.scans && db.scans[k].legacyCleanedAt == None && db.scans[k].selected.Some?
    && exists c :: c in claims && c.scan == k && db.scans[k].legacyCleanupAfter == Some(c.lease)
  }

  function CompleteLegacyScanCleanup(db: Db, claims: set<LegacyClaim>, now: int): Db {
    db.(scans := map k | k in db.scans ::
          if LegacyLeased(db, k, claims) then db.scans[k].(legacyCleanedAt := Some(now), legacyCleanupAfter := None)
          else db.scans[k])
  }

  function ScheduleLegacyScanCleanup(db: Db, pairs: set<GenId>, now: int): Db {
    db.(scans := map k | k in db.scans ::
          if db.scans[k].selected.Some? && GenId(k, db.scans[k].selected.value) in pairs
             && db.scans[k].legacyCleanupAfter == None && db.scans[k].legacyCleanedAt == None
          then db.scans[k].(legacyCleanupAfter := Some(now + LEGACY_GRACE)) else db.scans[k])
  }
}
