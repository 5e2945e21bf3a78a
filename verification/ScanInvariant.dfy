/** What every step of the scan protocol keeps. */
module ScanInvariant {
  import opened Options
  import opened ObjectKeys
  import opened ScanDb
  import opened ScanProtocol

  /** The generation is one its scan refers to. */
  predicate Live(db: Db, id: GenId) {
    IsCurrent(db, id) || IsSelected(db, id)
  }

  /** The object is stored, with the recorded size and hash. */
  predicate Present(cfg: Config, objects: map<string, string>, m: Meta) {
    m.key in objects && |objects[m.key]| == m.size && cfg.sha256(objects[m.key]) == m.sha256
  }

  predicate OwnKeys(id: GenId, raw: string, details: string) {
    raw == RawKey(id) && details == DetailsKey(id)
  }

  predicate CandidateOk(cfg: Config, c: Candidate) {
    && OwnKeys(c.id, c.raw.meta.key, c.details.meta.key)
    && |c.raw.compressed| == c.raw.meta.size && cfg.sha256(c.raw.compressed) == c.raw.meta.sha256
    && |c.details.compressed| == c.details.meta.size && cfg.sha256(c.details.compressed) == c.details.meta.sha256
  }

  // ---------------------------------------------------------------------
  // The invariant, part by part
  // ---------------------------------------------------------------------

  ghost predicate EverOk(cfg: Config, ever: set<GenId>) {
    forall id :: id in ever ==> Plain(cfg, id)
  }

  /** The selected generation has a row in state selected. */
  predicate ScanOk(cfg: Config, db: Db, ever: set<GenId>, k: ScanId)
    requires k in db.scans
  {
    && k in cfg.scans
    && (db.scans[k].current.Some? ==> GenId(k, db.scans[k].current.value) in ever)
    && (db.scans[k].selected.Some? ==>
          var id := GenId(k, db.scans[k].selected.value);
          id in ever && id in db.gens && db.gens[id].state == Selected)
  }

  /** A row in state selected is its scan's selected generation and has no deadline;
      a live row is neither superseded nor deleting. */
  predicate RowOk(db: Db, ever: set<GenId>, id: GenId)
    requires id in db.gens
  {
    var row := db.gens[id];
    && id in ever
    && OwnKeys(id, row.raw.key, row.details.key)
    && (row.state == Selected ==> IsSelected(db, id) && row.cleanupAfter == None)
    && (Live(db, id) ==> row.state != Superseded && row.state != Deleting)
  }

  /** A live row whose objects were validated has both of them. */
  predicate ObjectsOk(cfg: Config, db: Db, objects: map<string, string>, id: GenId)
    requires id in db.gens
  {
    var row := db.gens[id];
    Live(db, id) && row.state in {Validated, Selected} ==> Present(cfg, objects, row.raw) && Present(cfg, objects, row.details)
  }

  predicate Matches(row: GenRow, c: Candidate) {
    row.raw == c.raw.meta && row.details == c.details.meta
  }

  /** A publisher past the ensure step of a live generation works on the stored row, and
      what it has uploaded is there. */
  predicate UploadsOk(cfg: Config, db: Db, objects: map<string, string>, p: Publisher) {
    var id := p.candidate.id;
    Live(db, id) && Ensured(p.phase) ==>
      && id in db.gens && Matches(db.gens[id], p.candidate)
      && (p.phase in {PuttingDetails, Marking(Validated)} ==> Present(cfg, objects, db.gens[id].raw))
      && (p.phase == Marking(Validated) ==> Present(cfg, objects, db.gens[id].details))
  }

  predicate PublisherOk(cfg: Config, db: Db, objects: map<string, string>, ever: set<GenId>, p: Publisher) {
    && p.candidate.id in ever && CandidateOk(cfg, p.candidate)
    && (p.phase.Marking? || p.phase.Rereading? ==> p.phase.target in {Validated, FailedUpload})
    && UploadsOk(cfg, db, objects, p)
  }

  /** A claimed generation is retired. */
  predicate DeletionOk(db: Db, ever: set<GenId>, d: Deletion) {
    d.id in ever && !Live(db, d.id) && OwnKeys(d.id, d.rawKey, d.detailsKey)
  }

  ghost predicate CleanerOk(db: Db, ever: set<GenId>, c: Cleaner) {
    forall d :: d in c.claims ==> DeletionOk(db, ever, d)
  }

  predicate HasSelection(db: Db, k: ScanId) {
    k in db.scans && db.scans[k].selected.Some?
  }

  ghost predicate LegacyOk(cfg: Config, db: Db, l: LegacyWorker) {
    forall c :: c in l.ready ==> c.scan in cfg.scans && HasSelection(db, c.scan)
  }

  ghost predicate ScansInv(cfg: Config, s: State) {
    forall k :: k in s.db.scans ==> ScanOk(cfg, s.db, s.ever, k)
  }

  ghost predicate RowsInv(s: State) {
    forall id :: id in s.db.gens ==> RowOk(s.db, s.ever, id)
  }

  ghost predicate ObjectsInv(cfg: Config, s: State) {
    forall id :: id in s.db.gens ==> ObjectsOk(cfg, s.db, s.objects, id)
  }

  ghost predicate PublishersInv(cfg: Config, s: State) {
    forall w :: w in s.publishers ==> PublisherOk(cfg, s.db, s.objects, s.ever, s.publishers[w])
  }

  ghost predicate CleanersInv(s: State) {
    forall w :: w in s.cleaners ==> CleanerOk(s.db, s.ever, s.cleaners[w])
  }

  ghost predicate LegacyInv(cfg: Config, s: State) {
    forall w :: w in s.legacy ==> LegacyOk(cfg, s.db, s.legacy[w])
  }

  ghost predicate Inv(cfg: Config, s: State) {
    && ConfigOk(cfg) && EverOk(cfg, s.ever)
    && ScansInv(cfg, s) && RowsInv(s) && ObjectsInv(cfg, s)
    && PublishersInv(cfg, s) && CleanersInv(s) && LegacyInv(cfg, s)
  }

  /** No generation was published yet; legacy objects and claims may be there. */
  ghost predicate Init(cfg: Config, s: State) {
    && ConfigOk(cfg) && EverOk(cfg, s.ever)
    && s.db.gens == map[] && s.publishers == map[] && s.cleaners == map[] && s.legacy == map[]
    && (forall k :: k in s.db.scans ==> ScanOk(cfg, s.db, s.ever, k) && s.db.scans[k].selected == None)
  }

  lemma InitInv(cfg: Config, s: State)
    requires Init(cfg, s)
    ensures Inv(cfg, s)
  {
  }

  // ---------------------------------------------------------------------
  // Frames
  // ---------------------------------------------------------------------

  /** What the other workers rely on: retired generations stay retired, selections stay,
      and the rows of live generations keep their metadata. */
  ghost predicate Keeps(db: Db, after: Db, ever: set<GenId>) {
    && (forall id :: id in ever && Live(after, id) ==> Live(db, id))
    && (forall id :: id in ever && Live(after, id) && id in db.gens ==>
          id in after.gens && after.gens[id].raw == db.gens[id].raw && after.gens[id].details == db.gens[id].details)
    && (forall k :: HasSelection(db, k) ==> HasSelection(after, k))
  }

  lemma UploadsKept(cfg: Config, db: Db, after: Db, objects: map<string, string>, ever: set<GenId>, p: Publisher)
    requires Keeps(db, after, ever) && p.candidate.id in ever && UploadsOk(cfg, db, objects, p)
    ensures UploadsOk(cfg, after, objects, p)
  {
  }

  lemma PublishersKept(cfg: Config, s: State, t: State)
    requires PublishersInv(cfg, s) && Keeps(s.db, t.db, s.ever)
    requires t.objects == s.objects && s.ever <= t.ever && t.publishers == s.publishers
    ensures PublishersInv(cfg, t)
  {
    hide Keeps, UploadsOk;
    forall w | w in t.publishers
      ensures PublisherOk(cfg, t.db, t.objects, t.ever, t.publishers[w])
    {
      UploadsKept(cfg, s.db, t.db, s.objects, s.ever, s.publishers[w]);
    }
  }

  lemma CleanersKept(s: State, t: State)
    requires CleanersInv(s) && Keeps(s.db, t.db, s.ever) && s.ever <= t.ever
    requires forall w :: w in t.cleaners ==> w in s.cleaners && t.cleaners[w].claims == s.cleaners[w].claims
    ensures CleanersInv(t)
  {
    hide Live;
    forall w | w in t.cleaners
      ensures CleanerOk(t.db, t.ever, t.cleaners[w])
    {
      assert CleanerOk(s.db, s.ever, s.cleaners[w]);
    }
  }

  lemma LegacyKept(cfg: Config, s: State, t: State)
    requires LegacyInv(cfg, s) && Keeps(s.db, t.db, s.ever)
    requires forall w :: w in t.legacy ==> w in s.legacy && t.legacy[w].ready == s.legacy[w].ready
    ensures LegacyInv(cfg, t)
  {
    hide Live;
    forall w | w in t.legacy
      ensures LegacyOk(cfg, t.db, t.legacy[w])
    {
      assert LegacyOk(cfg, s.db, s.legacy[w]);
    }
  }

  lemma WorkersKept(cfg: Config, s: State, t: State)
    requires PublishersInv(cfg, s) && CleanersInv(s) && LegacyInv(cfg, s)
    requires Keeps(s.db, t.db, s.ever) && s.ever <= t.ever && t.objects == s.objects
    requires t.publishers == s.publishers && t.cleaners == s.cleaners && t.legacy == s.legacy
    ensures PublishersInv(cfg, t) && CleanersInv(t) && LegacyInv(cfg, t)
  {
    hide *;
    PublishersKept(cfg, s, t);
    CleanersKept(s, t);
    LegacyKept(cfg, s, t);
  }

  // ---------------------------------------------------------------------
  // Steps on scan rows alone
  // ---------------------------------------------------------------------

  /** Selections stay; a current generation stays, goes, or is new to the system. */
  predicate RowStep(cfg: Config, s: State, t: State, k: ScanId)
    requires k in t.db.scans
  {
    var row := t.db.scans[k];
    && k in cfg.scans
    && row.selected == (if k in s.db.scans then s.db.scans[k].selected else None)
    && (row.current == None || (k in s.db.scans && row.current == s.db.scans[k].current)
        || GenId(k, row.current.value) !in s.ever)
  }

  ghost predicate ScanStep(cfg: Config, s: State, t: State) {
    && t.db.gens == s.db.gens && t.objects == s.objects
    && t.publishers == s.publishers && t.cleaners == s.cleaners
    && t.ever == s.ever + Currents(t.db) && EverOk(cfg, t.ever)
    && (forall k :: k in s.db.scans ==> k in t.db.scans)
    && (forall k :: k in t.db.scans ==> RowStep(cfg, s, t, k))
  }

  lemma ScanStepKeeps(cfg: Config, s: State, t: State)
    requires ScanStep(cfg, s, t)
    ensures Keeps(s.db, t.db, s.ever)
  {
    forall id | id in s.ever && Live(t.db, id)
      ensures Live(s.db, id)
    {
      assert RowStep(cfg, s, t, id.scan);
    }
    forall k | HasSelection(s.db, k)
      ensures HasSelection(t.db, k)
    {
      assert RowStep(cfg, s, t, k);
    }
  }

  lemma ScanStepRows(cfg: Config, s: State, t: State)
    requires Inv(cfg, s) && ScanStep(cfg, s, t) && Keeps(s.db, t.db, s.ever)
    ensures ScansInv(cfg, t) && RowsInv(t) && ObjectsInv(cfg, t)
  {
    hide Present, EverOk, PublishersInv, CleanersInv, LegacyInv, OwnKeys;
    forall k | k in t.db.scans
      ensures ScanOk(cfg, t.db, t.ever, k)
    {
      assert RowStep(cfg, s, t, k);
      assert k in s.db.scans ==> ScanOk(cfg, s.db, s.ever, k);
    }
    forall id | id in t.db.gens
      ensures RowOk(t.db, t.ever, id) && ObjectsOk(cfg, t.db, t.objects, id)
    {
      assert RowOk(s.db, s.ever, id) && ObjectsOk(cfg, s.db, s.objects, id);
      assert IsSelected(s.db, id) ==> RowStep(cfg, s, t, id.scan);
    }
  }

  lemma ScanStepInv(cfg: Config, s: State, t: State)
    requires Inv(cfg, s) && ScanStep(cfg, s, t) && t.legacy == s.legacy
    ensures Inv(cfg, t)
  {
    hide Keeps, ScansInv, RowsInv, ObjectsInv, PublishersInv, CleanersInv, LegacyInv;
    ScanStepKeeps(cfg, s, t);
    ScanStepRows(cfg, s, t);
    WorkersKept(cfg, s, t);
  }

  /** Every scan-status transaction is such a step. */
  lemma EverGrows(cfg: Config, s: State, db: Db)
    requires EverOk(cfg, s.ever)
    requires forall k :: k in db.scans && db.scans[k].current.Some? ==>
      GenId(k, db.scans[k].current.value) in s.ever || Plain(cfg, GenId(k, db.scans[k].current.value))
    ensures EverOk(cfg, WithScans(s, db).ever)
  {
  }

  lemma SetRunningInv(cfg: Config, s: State, k: ScanId, gen: string, now: int)
    requires Inv(cfg, s)
    ensures Inv(cfg, DoSetRunning(cfg, s, k, gen, now))
  {
    hide RowsInv, ObjectsInv, PublishersInv, CleanersInv, LegacyInv, SlashFree;
    if MayBecomeCurrent(cfg, s, GenId(k, gen)) {
      ghost var db := SetScanStatusRunning(s.db, k, gen, now);
      EverGrows(cfg, s, db);
      ScanStepInv(cfg, s, WithScans(s, db));
    }
  }

  lemma ClaimInv(cfg: Config, s: State, digest: string, archs: set<string>, gen: string, now: int, stale: int)
    requires Inv(cfg, s)
    ensures Inv(cfg, DoClaim(cfg, s, digest, archs, gen, now, stale))
  {
    hide RowsInv, ObjectsInv, PublishersInv, CleanersInv, LegacyInv, Plain, Claimable, ConfigOk, EverOk;
    if archs != {} && AllMayBecomeCurrent(cfg, s, digest, archs, gen) {
      ghost var db := ClaimScanGeneration(s.db, digest, archs, gen, now, stale).0;
      ghost var t := WithScans(s, db);
      forall k | k in db.scans
        ensures RowStep(cfg, s, t, k)
        ensures db.scans[k].current.Some? ==>
          GenId(k, db.scans[k].current.value) in s.ever || Plain(cfg, GenId(k, db.scans[k].current.value))
      {
        assert k in s.db.scans ==> ScanOk(cfg, s.db, s.ever, k);
        if k.digest == digest && k.arch in archs {
          assert k == ScanId(digest, k.arch);
          assert MayBecomeCurrent(cfg, s, GenId(k, gen));
          PlainScan(cfg, GenId(k, gen));
        }
      }
      EverGrows(cfg, s, db);
      ScanStepInv(cfg, s, t);
    }
  }

  lemma PlainScan(cfg: Config, id: GenId)
    requires Plain(cfg, id)
    ensures id.scan in cfg.scans
  {
  }

  lemma AdoptLegacyInv(cfg: Config, s: State, digest: string, archs: set<string>, gen: string)
    requires Inv(cfg, s)
    ensures Inv(cfg, DoAdoptLegacy(cfg, s, digest, archs, gen))
  {
    hide RowsInv, ObjectsInv, PublishersInv, CleanersInv, LegacyInv, SlashFree, Adoptable;
    if archs != {} && AllMayBecomeCurrent(cfg, s, digest, archs, gen) {
      ghost var db := AdoptLegacyScanGeneration(s.db, digest, archs, gen).0;
      forall k | k in db.scans && k.digest == digest && k.arch in archs
        ensures MayBecomeCurrent(cfg, s, GenId(k, gen))
      {
        assert k == ScanId(digest, k.arch);
      }
      EverGrows(cfg, s, db);
      ScanStepInv(cfg, s, WithScans(s, db));
    }
  }

  /** A transaction that gives no scan a new current generation. */
  ghost predicate NoNewCurrent(cfg: Config, db: Db, after: Db) {
    && after.gens == db.gens
    && (forall k :: k in db.scans ==> k in after.scans)
    && (forall k :: k in after.scans ==> RowKept(cfg, db, after, k))
  }

  predicate RowKept(cfg: Config, db: Db, after: Db, k: ScanId)
    requires k in after.scans
  {
    var row := after.scans[k];
    if k in db.scans then row.selected == db.scans[k].selected && (row.current == None || row.current == db.scans[k].current)
    else k in cfg.scans && row.selected == None && row.current == None
  }

  lemma NoNewCurrentInv(cfg: Config, s: State, after: Db)
    requires Inv(cfg, s) && NoNewCurrent(cfg, s.db, after)
    ensures Inv(cfg, WithScans(s, after))
  {
    hide RowsInv, ObjectsInv, PublishersInv, CleanersInv, LegacyInv, Plain;
    forall k | k in after.scans
      ensures RowStep(cfg, s, WithScans(s, after), k)
      ensures after.scans[k].current.Some? ==> GenId(k, after.scans[k].current.value) in s.ever
    {
      assert RowKept(cfg, s.db, after, k);
      assert k in s.db.scans ==> ScanOk(cfg, s.db, s.ever, k);
    }
    EverGrows(cfg, s, after);
    ScanStepInv(cfg, s, WithScans(s, after));
  }

  lemma RequeueInv(cfg: Config, s: State, digest: string, archs: set<string>, owner: Option<string>, now: int)
    requires Inv(cfg, s)
    ensures Inv(cfg, WithScans(s, RequeueScanGeneration(s.db, digest, archs, owner, now)))
  {
    hide Inv;
    NoNewCurrentInv(cfg, s, RequeueScanGeneration(s.db, digest, archs, owner, now));
  }

  lemma InitializeQueuedInv(cfg: Config, s: State, k: ScanId, now: int)
    requires Inv(cfg, s)
    ensures Inv(cfg, DoInitializeQueued(cfg, s, k, now))
  {
    hide Inv, WithScans;
    if k in cfg.scans {
      NoNewCurrentInv(cfg, s, InitializeScanStatusQueued(s.db, k, now));
    }
  }

  lemma ReportInv(cfg: Config, s: State, k: ScanId, gen: string, status: Status, now: int)
    requires Inv(cfg, s)
    ensures Inv(cfg, DoReport(cfg, s, k, gen, status, now))
  {
    hide Inv, WithScans;
    if k in cfg.scans {
      NoNewCurrentInv(cfg, s, ReportStatus(s.db, k, gen, status, now).0);
    }
  }

  lemma CompleteLegacyInv(cfg: Config, s: State, w: nat, now: int)
    requires Inv(cfg, s)
    ensures Inv(cfg, DoCompleteLegacy(s, w, now))
  {
    hide Inv, LegacyLeased, WithScans;
    if w in s.legacy {
      NoNewCurrentInv(cfg, s, CompleteLegacyScanCleanup(s.db, s.legacy[w].ready, now));
    }
  }

  lemma ScheduleLegacyInv(cfg: Config, s: State, pairs: set<GenId>, now: int)
    requires Inv(cfg, s)
    ensures Inv(cfg, WithScans(s, ScheduleLegacyScanCleanup(s.db, pairs, now)))
  {
    hide Inv, WithScans;
    NoNewCurrentInv(cfg, s, ScheduleLegacyScanCleanup(s.db, pairs, now));
  }

  lemma ClaimLegacyInv(cfg: Config, s: State, w: nat, scans: set<ScanId>, now: int)
    requires Inv(cfg, s)
    ensures Inv(cfg, DoClaimLegacy(s, w, scans, now))
  {
    hide RowsInv, ObjectsInv, PublishersInv, CleanersInv, EverOk, ValidReplacement;
    if w !in s.legacy {
      ghost var after := ClaimLegacyScanCleanup(s.db, scans, now).0;
      NoNewCurrentInv(cfg, s, after) by { hide Inv; }
      ghost var t := WithScans(s, after);
      ghost var u := DoClaimLegacy(s, w, scans, now);
      assert u.db == t.db && u.ever == t.ever && u.objects == t.objects && u.publishers == t.publishers && u.cleaners == t.cleaners;
      assert RowsInv(u) && ObjectsInv(cfg, u) && PublishersInv(cfg, u) && CleanersInv(u) by {
        RestAgrees(cfg, t, u);
      }
      forall c | c in u.legacy[w].ready
        ensures c.scan in cfg.scans && HasSelection(u.db, c.scan)
      {
        assert LegacyDue(s.db, c.scan, now);
        assert ScanOk(cfg, s.db, s.ever, c.scan);
      }
    }
  }

  /** The legacy workers are seen by their own part of the invariant only. */
  lemma RestAgrees(cfg: Config, t: State, u: State)
    requires u.db == t.db && u.ever == t.ever && u.objects == t.objects && u.publishers == t.publishers && u.cleaners == t.cleaners
    requires RowsInv(t) && ObjectsInv(cfg, t) && PublishersInv(cfg, t) && CleanersInv(t)
    ensures RowsInv(u) && ObjectsInv(cfg, u) && PublishersInv(cfg, u) && CleanersInv(u)
  {
    hide RowOk, ObjectsOk, PublisherOk, CleanerOk;
  }

  // ---------------------------------------------------------------------
  // Steps on generation rows
  // ---------------------------------------------------------------------

  /** One publisher moves from a phase to the next; the others and the objects stay. */
  ghost predicate PublisherStep(s: State, t: State, w: nat) {
    && w in s.publishers && w in t.publishers && t.publishers.Keys == s.publishers.Keys
    && (forall v :: v in s.publishers && v != w ==> t.publishers[v] == s.publishers[v])
    && t.publishers[w].candidate == s.publishers[w].candidate
    && t.objects == s.objects && t.ever == s.ever && t.cleaners == s.cleaners && t.legacy == s.legacy
  }

  lemma PublisherStepInv(cfg: Config, s: State, t: State, w: nat)
    requires Inv(cfg, s) && PublisherStep(s, t, w) && Keeps(s.db, t.db, s.ever)
    requires ScansInv(cfg, t) && RowsInv(t) && ObjectsInv(cfg, t)
    requires PublisherOk(cfg, t.db, t.objects, t.ever, t.publishers[w])
    ensures Inv(cfg, t)
  {
    hide Keeps, ScansInv, RowsInv, ObjectsInv, UploadsOk, CandidateOk, CleanersInv, LegacyInv;
    forall v | v in t.publishers
      ensures PublisherOk(cfg, t.db, t.objects, t.ever, t.publishers[v])
    {
      if v != w {
        assert PublisherOk(cfg, s.db, s.objects, s.ever, s.publishers[v]);
        UploadsKept(cfg, s.db, t.db, s.objects, s.ever, s.publishers[v]);
      }
    }
    CleanersKept(s, t);
    LegacyKept(cfg, s, t);
  }

  /** One generation row is written, keeping its objects' metadata, and no scan row. */
  ghost predicate WritesRow(db: Db, after: Db, id: GenId) {
    && after.scans == db.scans && id in after.gens && after.gens == db.gens[id := after.gens[id]]
    && (id in db.gens ==> after.gens[id].raw == db.gens[id].raw && after.gens[id].details == db.gens[id].details)
  }

  lemma WritesRowKeeps(db: Db, after: Db, ever: set<GenId>, id: GenId)
    requires WritesRow(db, after, id)
    ensures Keeps(db, after, ever)
  {
  }

  lemma WritesRowRows(cfg: Config, s: State, t: State, id: GenId)
    requires ScansInv(cfg, s) && RowsInv(s) && ObjectsInv(cfg, s)
    requires WritesRow(s.db, t.db, id) && t.objects == s.objects && t.ever == s.ever
    requires RowOk(t.db, t.ever, id) && ObjectsOk(cfg, t.db, t.objects, id)
    requires id in s.db.gens && s.db.gens[id].state == Selected ==> t.db.gens[id].state == Selected
    ensures ScansInv(cfg, t) && RowsInv(t) && ObjectsInv(cfg, t)
  {
    hide Present, OwnKeys;
    forall k | k in t.db.scans
      ensures ScanOk(cfg, t.db, t.ever, k)
    {
      assert ScanOk(cfg, s.db, s.ever, k);
    }
    forall other | other in t.db.gens
      ensures RowOk(t.db, t.ever, other) && ObjectsOk(cfg, t.db, t.objects, other)
    {
      if other != id {
        assert RowOk(s.db, s.ever, other) && ObjectsOk(cfg, s.db, s.objects, other);
      }
    }
  }

  /** The row that the ensure step leaves, seen by its generation and its publisher. */
  lemma EnsuredRow(cfg: Config, s: State, c: Candidate, parsed: string, now: int)
    requires c.id in s.ever && CandidateOk(cfg, c)
    requires c.id in s.db.gens ==> RowOk(s.db, s.ever, c.id) && ObjectsOk(cfg, s.db, s.objects, c.id)
    requires EnsureScanCandidate(s.db, c, now).1.Some?
    ensures var (after, state) := EnsureScanCandidate(s.db, c, now);
      && WritesRow(s.db, after, c.id) && after.gens[c.id].state == state.value
      && (c.id in s.db.gens ==> state.value == s.db.gens[c.id].state)
      && (c.id !in s.db.gens ==> state.value == Uploading)
      && RowOk(after, s.ever, c.id) && ObjectsOk(cfg, after, s.objects, c.id)
      && UploadsOk(cfg, after, s.objects, Publisher(c, parsed, AfterEnsure(state)))
  {
    hide Present, OwnKeys;
  }

  lemma PublisherFacts(cfg: Config, s: State, w: nat)
    requires Inv(cfg, s) && w in s.publishers
    ensures var p := s.publishers[w];
      && PublisherOk(cfg, s.db, s.objects, s.ever, p) && p.candidate.id in s.ever && CandidateOk(cfg, p.candidate)
      && (p.candidate.id in s.db.gens ==> RowOk(s.db, s.ever, p.candidate.id) && ObjectsOk(cfg, s.db, s.objects, p.candidate.id))
  {
    hide RowOk, ObjectsOk, UploadsOk, CandidateOk, ConfigOk, EverOk, ScansInv, CleanersInv, LegacyInv;
  }

  /** A publisher that writes the row of its generation. */
  lemma RowWriteInv(cfg: Config, s: State, t: State, w: nat, id: GenId)
    requires Inv(cfg, s) && PublisherStep(s, t, w) && WritesRow(s.db, t.db, id)
    requires RowOk(t.db, t.ever, id) && ObjectsOk(cfg, t.db, t.objects, id)
    requires id in s.db.gens && s.db.gens[id].state == Selected ==> t.db.gens[id].state == Selected
    requires PublisherOk(cfg, t.db, t.objects, t.ever, t.publishers[w])
    ensures Inv(cfg, t)
  {
    hide *;
    assert t.objects == s.objects && t.ever == s.ever by { hide *; Unmoved(s, t, w); }
    assert ScansInv(cfg, s) && RowsInv(s) && ObjectsInv(cfg, s) by { InvParts(cfg, s); }
    WritesRowKeeps(s.db, t.db, s.ever, id);
    WritesRowRows(cfg, s, t, id);
    PublisherStepInv(cfg, s, t, w);
  }

  lemma Unmoved(s: State, t: State, w: nat)
    requires PublisherStep(s, t, w)
    ensures t.objects == s.objects && t.ever == s.ever
  {
  }

  lemma InvParts(cfg: Config, s: State)
    requires Inv(cfg, s)
    ensures ConfigOk(cfg) && EverOk(cfg, s.ever)
    ensures ScansInv(cfg, s) && RowsInv(s) && ObjectsInv(cfg, s)
    ensures PublishersInv(cfg, s) && CleanersInv(s) && LegacyInv(cfg, s)
  {
    hide ConfigOk, EverOk, ScansInv, RowsInv, ObjectsInv, PublishersInv, CleanersInv, LegacyInv;
  }

  /** A publisher that only moves on. */
  lemma MoveInv(cfg: Config, s: State, t: State, w: nat)
    requires Inv(cfg, s) && PublisherStep(s, t, w) && t.db == s.db
    requires PublisherOk(cfg, t.db, t.objects, t.ever, t.publishers[w])
    ensures Inv(cfg, t)
  {
    hide *;
    Unmoved(s, t, w);
    InvParts(cfg, s);
    SameKeeps(s.db, s.ever);
    SameRows(cfg, s, t);
    PublisherStepInv(cfg, s, t, w);
  }

  lemma EnsureInv(cfg: Config, s: State, w: nat, now: int)
    requires Inv(cfg, s)
    ensures Inv(cfg, DoEnsure(s, w, now))
  {
    hide Inv, RowOk, ObjectsOk, UploadsOk, CandidateOk, WritesRow, EnsureScanCandidate;
    if At(s, w, Ensuring) {
      PublisherFacts(cfg, s, w);
      ghost var p := s.publishers[w];
      ghost var t := DoEnsure(s, w, now);
      if EnsureScanCandidate(s.db, p.candidate, now).1 == None {
        EnsureRefused(s.db, p.candidate, now);
        Uninvolved(cfg, t.db, t.objects, t.publishers[w]);
        MoveInv(cfg, s, t, w);
      } else {
        EnsuredRow(cfg, s, p.candidate, p.parsed, now);
        RowWriteInv(cfg, s, t, w, p.candidate.id);
      }
    }
  }

  lemma EnsureRefused(db: Db, c: Candidate, now: int)
    requires EnsureScanCandidate(db, c, now).1 == None
    ensures EnsureScanCandidate(db, c, now).0 == db
  {
  }

  lemma Uninvolved(cfg: Config, db: Db, objects: map<string, string>, p: Publisher)
    requires !Ensured(p.phase)
    ensures UploadsOk(cfg, db, objects, p)
  {
  }

  lemma SameKeeps(db: Db, ever: set<GenId>)
    ensures Keeps(db, db, ever)
  {
  }

  lemma SameRows(cfg: Config, s: State, t: State)
    requires ScansInv(cfg, s) && RowsInv(s) && ObjectsInv(cfg, s)
    requires t.db == s.db && t.ever == s.ever && t.objects == s.objects
    ensures ScansInv(cfg, t) && RowsInv(t) && ObjectsInv(cfg, t)
  {
    hide ScanOk, RowOk, ObjectsOk;
  }

  lemma MarkedRow(cfg: Config, s: State, p: Publisher, now: int)
    requires p.phase.Marking? && PublisherOk(cfg, s.db, s.objects, s.ever, p)
    requires p.candidate.id in s.db.gens ==> RowOk(s.db, s.ever, p.candidate.id) && ObjectsOk(cfg, s.db, s.objects, p.candidate.id)
    ensures var (after, marked) := MarkScanCandidate(s.db, p.candidate.id, p.phase.target, now);
      var next := p.(phase := if !marked then Rereading(p.phase.target) else if p.phase.target == Validated then Selecting else Finished);
      && PublisherOk(cfg, after, s.objects, s.ever, next)
      && (!marked ==> after == s.db)
      && (marked ==> WritesRow(s.db, after, p.candidate.id) && RowOk(after, s.ever, p.candidate.id)
                     && ObjectsOk(cfg, after, s.objects, p.candidate.id) && s.db.gens[p.candidate.id].state != Selected)
  {
    hide Present, OwnKeys, CandidateOk;
  }

  lemma MarkInv(cfg: Config, s: State, w: nat, now: int)
    requires Inv(cfg, s)
    ensures Inv(cfg, DoMark(s, w, now))
  {
    hide Inv, RowOk, ObjectsOk, PublisherOk, WritesRow, MarkScanCandidate;
    if w in s.publishers && s.publishers[w].phase.Marking? {
      PublisherFacts(cfg, s, w);
      ghost var p := s.publishers[w];
      ghost var t := DoMark(s, w, now);
      MarkedRow(cfg, s, p, now);
      if MarkScanCandidate(s.db, p.candidate.id, p.phase.target, now).1 {
        RowWriteInv(cfg, s, t, w, p.candidate.id);
      } else {
        MoveInv(cfg, s, t, w);
      }
    }
  }

  lemma RereadInv(cfg: Config, s: State, w: nat)
    requires Inv(cfg, s)
    ensures Inv(cfg, DoReread(s, w))
  {
    hide Inv, RowOk, ObjectsOk, CandidateOk, Present;
    if w in s.publishers && s.publishers[w].phase.Rereading? {
      PublisherFacts(cfg, s, w);
      MoveInv(cfg, s, DoReread(s, w), w);
    }
  }

  lemma BeginPublishInv(cfg: Config, s: State, w: nat, params: Params)
    requires Inv(cfg, s)
    ensures Inv(cfg, DoBeginPublish(cfg, s, w, params))
  {
    hide ScansInv, RowsInv, ObjectsInv, CleanersInv, LegacyInv, ConfigOk, EverOk, NewScanCandidate, CandidateOk, UploadsOk;
    ghost var t := DoBeginPublish(cfg, s, w, params);
    if t.publishers != s.publishers {
      NewCandidateOk(cfg, params);
      Uninvolved(cfg, t.db, t.objects, t.publishers[w]);
      forall v | v in t.publishers
        ensures PublisherOk(cfg, t.db, t.objects, t.ever, t.publishers[v])
      {
        assert v != w ==> PublisherOk(cfg, s.db, s.objects, s.ever, s.publishers[v]);
      }
      SameRows(cfg, s, t);
      SameKeeps(s.db, s.ever);
      CleanersKept(s, t);
      LegacyKept(cfg, s, t);
    }
  }

  /** A new candidate carries its own keys and the hashes of its own bytes. */
  lemma NewCandidateOk(cfg: Config, params: Params)
    requires NewScanCandidate(cfg, params).Some?
    ensures CandidateOk(cfg, NewScanCandidate(cfg, params).value) && NewScanCandidate(cfg, params).value.id == params.id
  {
  }

  // ---------------------------------------------------------------------
  // Selection
  // ---------------------------------------------------------------------

  /** What a new selection does to the rows. */
  ghost predicate SelectsRow(db: Db, after: Db, id: GenId) {
    && IsCurrent(db, id) && id in db.gens && db.gens[id].state in {Validated, Selected}
    && after.scans.Keys == db.scans.Keys && after.gens.Keys == db.gens.Keys
    && after.scans[id.scan].selected == Some(id.gen)
    && (forall k :: k in db.scans ==> after.scans[k].current == db.scans[k].current)
    && (forall k :: k in db.scans && k != id.scan ==> after.scans[k] == db.scans[k])
    && (forall g :: g in db.gens ==> after.gens[g].raw == db.gens[g].raw && after.gens[g].details == db.gens[g].details)
    && (forall g :: g in db.gens && g != id ==> after.gens[g] == db.gens[g] || (IsSelected(db, g) && g.scan == id.scan && after.gens[g].state == Superseded))
    && (forall g :: g in db.gens && g != id && g.scan == id.scan && IsSelected(db, g) ==> after.gens[g].state == Superseded)
    && after.gens[id].state == Selected && after.gens[id].cleanupAfter == None
  }

  lemma SelectionSelects(db: Db, id: GenId, parsed: string, now: int, sbomRowExists: bool)
    requires SelectScanCandidate(db, id, parsed, now, sbomRowExists).1 == NewlySelected
    ensures SelectsRow(db, SelectScanCandidate(db, id, parsed, now, sbomRowExists).0, id)
  {
  }

  lemma SelectsRowKeeps(db: Db, after: Db, ever: set<GenId>, id: GenId)
    requires SelectsRow(db, after, id)
    ensures Keeps(db, after, ever)
  {
  }

  lemma SelectsRowScans(cfg: Config, s: State, t: State, id: GenId)
    requires ScansInv(cfg, s) && RowsInv(s) && SelectsRow(s.db, t.db, id) && t.ever == s.ever
    ensures ScansInv(cfg, t)
  {
    assert id in s.ever by { assert RowOk(s.db, s.ever, id); }
    hide RowOk, RowsInv;
    forall k | k in t.db.scans
      ensures ScanOk(cfg, t.db, t.ever, k)
    {
      assert ScanOk(cfg, s.db, s.ever, k);
    }
  }

  lemma SelectsRowRows(cfg: Config, s: State, t: State, id: GenId)
    requires ScansInv(cfg, s) && RowsInv(s) && ObjectsInv(cfg, s)
    requires SelectsRow(s.db, t.db, id) && t.ever == s.ever && t.objects == s.objects
    ensures RowsInv(t) && ObjectsInv(cfg, t)
  {
    hide Present, OwnKeys, ScansInv;
    forall g | g in t.db.gens
      ensures RowOk(t.db, t.ever, g) && ObjectsOk(cfg, t.db, t.objects, g)
    {
      assert RowOk(s.db, s.ever, g) && ObjectsOk(cfg, s.db, s.objects, g);
    }
  }

  lemma NewSelectionInv(cfg: Config, s: State, t: State, w: nat, id: GenId)
    requires Inv(cfg, s) && PublisherStep(s, t, w) && SelectsRow(s.db, t.db, id)
    requires PublisherOk(cfg, t.db, s.objects, s.ever, t.publishers[w])
    ensures Inv(cfg, t)
  {
    hide *;
    Unmoved(s, t, w);
    InvParts(cfg, s);
    SelectsRowKeeps(s.db, t.db, s.ever, id);
    SelectsRowScans(cfg, s, t, id);
    SelectsRowRows(cfg, s, t, id);
    PublisherStepInv(cfg, s, t, w);
  }

  lemma SelectInv(cfg: Config, s: State, w: nat, now: int, sbomRowExists: bool)
    requires Inv(cfg, s)
    ensures Inv(cfg, DoSelect(s, w, now, sbomRowExists))
  {
    hide Inv, CandidateOk, SelectScanCandidate, SelectsRow, RowOk, ObjectsOk, UploadsOk, Keeps;
    if At(s, w, Selecting) {
      PublisherFacts(cfg, s, w);
      ghost var t := DoSelect(s, w, now, sbomRowExists);
      ghost var p := s.publishers[w];
      ghost var id := p.candidate.id;
      if SelectScanCandidate(s.db, id, p.parsed, now, sbomRowExists).1 == NewlySelected {
        SelectionSelects(s.db, id, p.parsed, now, sbomRowExists);
        SelectsRowKeeps(s.db, t.db, s.ever, id);
        UploadsKept(cfg, s.db, t.db, s.objects, s.ever, p);
        FinishedUploads(cfg, t.db, t.objects, p);
        NewSelectionInv(cfg, s, t, w, id);
      } else {
        SelectionRefused(s.db, id, p.parsed, now, sbomRowExists);
        FinishedUploads(cfg, t.db, t.objects, p);
        MoveInv(cfg, s, t, w);
      }
    }
  }

  lemma SelectionRefused(db: Db, id: GenId, parsed: string, now: int, sbomRowExists: bool)
    requires SelectScanCandidate(db, id, parsed, now, sbomRowExists).1 != NewlySelected
    ensures SelectScanCandidate(db, id, parsed, now, sbomRowExists).0 == db
  {
  }

  lemma FinishedUploads(cfg: Config, db: Db, objects: map<string, string>, p: Publisher)
    requires p.phase == Selecting && UploadsOk(cfg, db, objects, p)
    ensures UploadsOk(cfg, db, objects, p.(phase := Finished))
  {
  }

  // ---------------------------------------------------------------------
  // Object writes and deletes
  // ---------------------------------------------------------------------

  /** Only keys of these objects are written or removed. */
  predicate OnlyKeys(objects: map<string, string>, after: map<string, string>, keys: set<string>) {
    (forall key | key in objects :: key in keys || (key in after && after[key] == objects[key]))
  }

  lemma GenerationKeysApart(cfg: Config, a: GenId, b: GenId)
    requires ConfigOk(cfg) && Plain(cfg, a) && Plain(cfg, b) && a != b
    ensures RawKey(a) != RawKey(b) && RawKey(a) != DetailsKey(b) && DetailsKey(a) != RawKey(b) && DetailsKey(a) != DetailsKey(b)
  {
    hide Key, StripDigestAlgo, SlashFree;
    var ra, da := GenerationRaw(a.scan.digest, a.scan.arch, a.gen), GenerationDetails(a.scan.digest, a.scan.arch, a.gen);
    var rb, dbb := GenerationRaw(b.scan.digest, b.scan.arch, b.gen), GenerationDetails(b.scan.digest, b.scan.arch, b.gen);
    KeysInjective(ra, rb);
    KeysInjective(ra, dbb);
    KeysInjective(da, rb);
    KeysInjective(da, dbb);
    assert Key(ra) == RawKey(a) && Key(da) == DetailsKey(a) && Key(rb) == RawKey(b) && Key(dbb) == DetailsKey(b) by { KeyOf(a); KeyOf(b); }
  }

  lemma KeyOf(a: GenId)
    ensures Key(GenerationRaw(a.scan.digest, a.scan.arch, a.gen)) == RawKey(a)
    ensures Key(GenerationDetails(a.scan.digest, a.scan.arch, a.gen)) == DetailsKey(a)
  {
  }

  lemma RawIsNotDetails(cfg: Config, a: GenId)
    requires ConfigOk(cfg) && Plain(cfg, a)
    ensures RawKey(a) != DetailsKey(a)
  {
    hide Key, StripDigestAlgo, SlashFree;
    KeysInjective(GenerationRaw(a.scan.digest, a.scan.arch, a.gen), GenerationDetails(a.scan.digest, a.scan.arch, a.gen));
    KeyOf(a);
  }

  lemma OtherKeysApart(cfg: Config, a: GenId, k: ScanId)
    requires ConfigOk(cfg) && Plain(cfg, a) && k in cfg.scans
    ensures RawKey(a) !in {LegacyKey(k, false), LegacyKey(k, true), SbomKey(k.digest, k.arch)}
    ensures DetailsKey(a) !in {LegacyKey(k, false), LegacyKey(k, true), SbomKey(k.digest, k.arch)}
  {
    hide StripDigestAlgo, SlashFree, RawResultKey, ParsedResultsDetailsKey, GenerationRawResultKey, GenerationDetailsKey, SbomKey;
    var ra, da := GenerationRaw(a.scan.digest, a.scan.arch, a.gen), GenerationDetails(a.scan.digest, a.scan.arch, a.gen);
    KeysInjective(ra, LegacyRaw(k.digest, k.arch));
    KeysInjective(ra, LegacyDetails(k.digest, k.arch));
    KeysInjective(ra, Sbom(k.digest, k.arch));
    KeysInjective(da, LegacyRaw(k.digest, k.arch));
    KeysInjective(da, LegacyDetails(k.digest, k.arch));
    KeysInjective(da, Sbom(k.digest, k.arch));
  }

  /** A step on the object store alone leaves every stored object of a live generation whole. */
  ghost predicate ObjectStep(cfg: Config, s: State, t: State) {
    && t.db == s.db && t.ever == s.ever && t.publishers == s.publishers
    && (forall w :: w in t.cleaners ==> w in s.cleaners && t.cleaners[w].claims == s.cleaners[w].claims)
    && (forall w :: w in t.legacy ==> w in s.legacy && t.legacy[w].ready == s.legacy[w].ready)
    && (forall id :: id in s.db.gens && Live(s.db, id) ==> StoredKept(cfg, s, t, id))
  }

  predicate StoredKept(cfg: Config, s: State, t: State, id: GenId)
    requires id in s.db.gens
  {
    && (Present(cfg, s.objects, s.db.gens[id].raw) ==> Present(cfg, t.objects, s.db.gens[id].raw))
    && (Present(cfg, s.objects, s.db.gens[id].details) ==> Present(cfg, t.objects, s.db.gens[id].details))
  }

  lemma ObjectStepInv(cfg: Config, s: State, t: State)
    requires Inv(cfg, s) && ObjectStep(cfg, s, t)
    ensures Inv(cfg, t)
  {
    hide Present, OwnKeys, ScanOk, RowOk, CandidateOk, Live, IsCurrent, IsSelected, Keeps, Matches;
    SameKeeps(s.db, s.ever);
    CleanersKept(s, t);
    LegacyKept(cfg, s, t);
    forall id | id in t.db.gens
      ensures ObjectsOk(cfg, t.db, t.objects, id)
    {
      assert ObjectsOk(cfg, s.db, s.objects, id);
    }
    forall w | w in t.publishers
      ensures PublisherOk(cfg, t.db, t.objects, t.ever, t.publishers[w])
    {
      assert PublisherOk(cfg, s.db, s.objects, s.ever, s.publishers[w]);
    }
  }

  /** Objects of one retired generation may go. */
  lemma DeleteCandidateObjectInv(cfg: Config, s: State, w: nat, d: Deletion, details: bool)
    requires Inv(cfg, s)
    ensures Inv(cfg, DoDeleteCandidateObject(s, w, d, details))
  {
    hide Inv, Present, RawKey, DetailsKey, ConfigOk, Plain, Live;
    if w in s.cleaners && d in s.cleaners[w].claims {
      InvParts(cfg, s);
      ghost var t := DoDeleteCandidateObject(s, w, d, details);
      ghost var key := if details then d.detailsKey else d.rawKey;
      assert OnlyKeys(s.objects, t.objects, {key});
      assert CleanerOk(s.db, s.ever, s.cleaners[w]);
      assert DeletionOk(s.db, s.ever, d);
      forall id | id in s.db.gens && Live(s.db, id)
        ensures StoredKept(cfg, s, t, id)
      {
        assert RowOk(s.db, s.ever, id);
        GenerationKeysApart(cfg, d.id, id);
        KeptOutside(cfg, s, t, id, {key});
      }
      ObjectStepInv(cfg, s, t);
    }
  }

  lemma KeptOutside(cfg: Config, s: State, t: State, id: GenId, keys: set<string>)
    requires id in s.db.gens && OnlyKeys(s.objects, t.objects, keys)
    requires s.db.gens[id].raw.key !in keys && s.db.gens[id].details.key !in keys
    ensures StoredKept(cfg, s, t, id)
  {
  }

  lemma DeleteLegacyObjectInv(cfg: Config, s: State, w: nat, c: LegacyClaim, details: bool)
    requires Inv(cfg, s)
    ensures Inv(cfg, DoDeleteLegacyObject(s, w, c, details))
  {
    hide Inv, Present, RawKey, DetailsKey, LegacyKey, SbomKey, ConfigOk, Plain, Live;
    if w in s.legacy && c in s.legacy[w].ready {
      InvParts(cfg, s);
      ghost var t := DoDeleteLegacyObject(s, w, c, details);
      ghost var key := LegacyKey(c.scan, details);
      assert OnlyKeys(s.objects, t.objects, {key});
      assert LegacyOk(cfg, s.db, s.legacy[w]);
      forall id | id in s.db.gens && Live(s.db, id)
        ensures StoredKept(cfg, s, t, id)
      {
        assert RowOk(s.db, s.ever, id);
        OtherKeysApart(cfg, id, c.scan);
        KeptOutside(cfg, s, t, id, {key});
      }
      ObjectStepInv(cfg, s, t);
    }
  }

  lemma PutSbomInv(cfg: Config, s: State, k: ScanId, content: string)
    requires Inv(cfg, s)
    ensures Inv(cfg, DoPutSbom(cfg, s, k, content))
  {
    hide Inv, Present, RawKey, DetailsKey, LegacyKey, SbomKey, ConfigOk, Plain, Live;
    if k in cfg.scans {
      InvParts(cfg, s);
      ghost var t := DoPutSbom(cfg, s, k, content);
      assert OnlyKeys(s.objects, t.objects, {SbomKey(k.digest, k.arch)});
      forall id | id in s.db.gens && Live(s.db, id)
        ensures StoredKept(cfg, s, t, id)
      {
        assert RowOk(s.db, s.ever, id);
        OtherKeysApart(cfg, id, k);
        KeptOutside(cfg, s, t, id, {SbomKey(k.digest, k.arch)});
      }
      ObjectStepInv(cfg, s, t);
    }
  }

  /** An upload of a publisher past its ensure step: other generations keep their objects,
      its own gains this one. */
  lemma StoreKeeps(cfg: Config, s: State, t: State, p: Publisher, details: bool)
    requires Inv(cfg, s) && PublisherOk(cfg, s.db, s.objects, s.ever, p) && Ensured(p.phase)
    requires t.objects == Store(s.objects, if details then p.candidate.details else p.candidate.raw)
    ensures forall id :: id in s.db.gens && Live(s.db, id) ==> StoredKept(cfg, s, t, id)
    ensures Live(s.db, p.candidate.id) ==>
      && p.candidate.id in s.db.gens
      && Present(cfg, t.objects, if details then s.db.gens[p.candidate.id].details else s.db.gens[p.candidate.id].raw)
  {
    hide Inv, RawKey, DetailsKey, ConfigOk, Plain, Live, Present;
    InvParts(cfg, s);
    ghost var mine := p.candidate.id;
    ghost var a := if details then p.candidate.details else p.candidate.raw;
    assert OnlyKeys(s.objects, t.objects, {a.meta.key});
    forall id | id in s.db.gens && Live(s.db, id)
      ensures StoredKept(cfg, s, t, id)
    {
      assert RowOk(s.db, s.ever, id);
      if id != mine {
        GenerationKeysApart(cfg, mine, id);
        KeptOutside(cfg, s, t, id, {a.meta.key});
      } else {
        RawIsNotDetails(cfg, id);
        StoredIsPresent(cfg, s.objects, a);
        assert OnlyKeys(s.objects, t.objects, {a.meta.key});
        OwnKept(cfg, s, t, id, a.meta);
      }
    }
    StoredIsPresent(cfg, s.objects, a);
  }

  lemma StoredIsPresent(cfg: Config, objects: map<string, string>, a: Artifact)
    requires |a.compressed| == a.meta.size && cfg.sha256(a.compressed) == a.meta.sha256
    ensures Present(cfg, Store(objects, a), a.meta)
  {
  }

  lemma OwnKept(cfg: Config, s: State, t: State, id: GenId, m: Meta)
    requires id in s.db.gens && OnlyKeys(s.objects, t.objects, {m.key}) && Present(cfg, t.objects, m)
    requires (s.db.gens[id].raw == m && s.db.gens[id].details.key != m.key) || (s.db.gens[id].details == m && s.db.gens[id].raw.key != m.key)
    ensures StoredKept(cfg, s, t, id)
  {
  }

  lemma LatePutInv(cfg: Config, s: State, w: nat, details: bool)
    requires Inv(cfg, s)
    ensures Inv(cfg, DoLatePut(s, w, details))
  {
    hide Inv, Store, StoredKept, PublisherOk, Live;
    if w in s.publishers && Ensured(s.publishers[w].phase) {
      PublisherFacts(cfg, s, w);
      ghost var t := DoLatePut(s, w, details);
      StoreKeeps(cfg, s, t, s.publishers[w], details);
      ObjectStepInv(cfg, s, t);
    }
  }

  lemma PutInv(cfg: Config, s: State, w: nat, outcome: PutOutcome)
    requires Inv(cfg, s)
    ensures Inv(cfg, DoPut(s, w, outcome))
  {
    hide Inv, Store, StoredKept, Live, Present, CandidateOk, RowOk, ObjectsOk;
    if At(s, w, PuttingRaw) || At(s, w, PuttingDetails) {
      ghost var p := s.publishers[w];
      ghost var t := DoPut(s, w, outcome);
      ghost var u := s.(objects := t.objects);
      PublisherFacts(cfg, s, w);
      if outcome != FailedLost {
        StoreKeeps(cfg, s, t, p, p.phase == PuttingDetails);
        StoreKeeps(cfg, s, u, p, p.phase == PuttingDetails);
        ObjectStepInv(cfg, s, u);
        PublisherFacts(cfg, u, w);
      }
      assert t.publishers[w] == p.(phase := t.publishers[w].phase);
      MoveInv(cfg, u, t, w);
    }
  }

  // ---------------------------------------------------------------------
  // Cleanup of candidate rows
  // ---------------------------------------------------------------------

  lemma ClaimDeletionsKeeps(db: Db, visible: set<GenId>, now: int, ever: set<GenId>)
    ensures Keeps(db, ClaimScanCandidateDeletions(db, visible, now).0, ever)
  {
  }

  lemma ClaimedRetired(cfg: Config, s: State, visible: set<GenId>, now: int, d: Deletion)
    requires RowsInv(s)
    requires d in ClaimScanCandidateDeletions(s.db, visible, now).1
    ensures DeletionOk(ClaimScanCandidateDeletions(s.db, visible, now).0, s.ever, d)
  {
    assert RowOk(s.db, s.ever, d.id);
  }

  lemma ClaimDeletionsRows(cfg: Config, s: State, t: State, visible: set<GenId>, now: int)
    requires ScansInv(cfg, s) && RowsInv(s) && ObjectsInv(cfg, s)
    requires t.db == ClaimScanCandidateDeletions(s.db, visible, now).0 && t.ever == s.ever && t.objects == s.objects
    ensures ScansInv(cfg, t) && RowsInv(t) && ObjectsInv(cfg, t)
  {
    hide Present, OwnKeys;
    forall k | k in t.db.scans
      ensures ScanOk(cfg, t.db, t.ever, k)
    {
      assert ScanOk(cfg, s.db, s.ever, k);
    }
    forall id | id in t.db.gens
      ensures RowOk(t.db, t.ever, id) && ObjectsOk(cfg, t.db, t.objects, id)
    {
      assert RowOk(s.db, s.ever, id) && ObjectsOk(cfg, s.db, s.objects, id);
    }
  }

  lemma ClaimDeletionsInv(cfg: Config, s: State, w: nat, visible: set<GenId>, now: int)
    requires Inv(cfg, s)
    ensures Inv(cfg, DoClaimDeletions(s, w, visible, now))
  {
    hide Inv, Keeps, ScansInv, RowsInv, ObjectsInv, PublishersInv, LegacyInv, EverOk, ConfigOk, ClaimScanCandidateDeletions, DeletionOk;
    if w !in s.cleaners {
      InvParts(cfg, s);
      ghost var t := DoClaimDeletions(s, w, visible, now);
      ghost var u := s.(db := t.db);
      ClaimDeletionsKeeps(s.db, visible, now, s.ever);
      ClaimDeletionsRows(cfg, s, u, visible, now);
      WorkersKept(cfg, s, u);
      forall d | d in t.cleaners[w].claims
        ensures DeletionOk(t.db, t.ever, d)
      {
        ClaimedRetired(cfg, s, visible, now, d);
      }
      NewCleanerInv(cfg, u, t, w);
    }
  }

  lemma NewCleanerInv(cfg: Config, u: State, t: State, w: nat)
    requires ConfigOk(cfg) && EverOk(cfg, u.ever) && ScansInv(cfg, u) && RowsInv(u) && ObjectsInv(cfg, u)
    requires PublishersInv(cfg, u) && CleanersInv(u) && LegacyInv(cfg, u)
    requires w in t.cleaners && t == u.(cleaners := u.cleaners[w := t.cleaners[w]])
    requires CleanerOk(t.db, t.ever, t.cleaners[w])
    ensures Inv(cfg, t)
  {
    hide ScanOk, RowOk, ObjectsOk, PublisherOk, CleanerOk, LegacyOk, ConfigOk, EverOk;
  }

  lemma DeleteMetadataKeeps(db: Db, claims: set<Deletion>, ever: set<GenId>)
    ensures Keeps(db, DeleteScanCandidateMetadata(db, claims), ever)
  {
  }

  lemma DeleteMetadataInv(cfg: Config, s: State, w: nat)
    requires Inv(cfg, s)
    ensures Inv(cfg, DoDeleteMetadata(s, w))
  {
    hide EverOk, ConfigOk, PublishersInv, CleanersInv, LegacyInv, Keeps, OwnKeys, Present;
    ghost var t := DoDeleteMetadata(s, w);
    if t.db != s.db {
      DeleteMetadataKeeps(s.db, s.cleaners[w].claims, s.ever);
      WorkersKept(cfg, s, t);
      forall k | k in t.db.scans
        ensures ScanOk(cfg, t.db, t.ever, k)
      {
        assert ScanOk(cfg, s.db, s.ever, k);
      }
      forall id | id in t.db.gens
        ensures RowOk(t.db, t.ever, id) && ObjectsOk(cfg, t.db, t.objects, id)
      {
        assert RowOk(s.db, s.ever, id) && ObjectsOk(cfg, s.db, s.objects, id);
      }
    }
  }

  // ---------------------------------------------------------------------
  // Every step
  // ---------------------------------------------------------------------

  /** Whatever step is taken, in whatever order, the invariant is kept. */
  lemma ApplyInv(cfg: Config, s: State, a: Action)
    requires Inv(cfg, s)
    ensures Inv(cfg, Apply(cfg, s, a))
  {
    hide Inv, DoSetRunning, DoClaim, DoAdoptLegacy, DoInitializeQueued, DoReport, DoBeginPublish, DoEnsure, DoPut, DoLatePut, DoMark,
         DoReread, DoSelect, DoClaimDeletions, DoDeleteCandidateObject, DoDeleteMetadata, DoClaimLegacy, DoDeleteLegacyObject,
         DoCompleteLegacy, DoPutSbom, WithScans, RequeueScanGeneration, ScheduleLegacyScanCleanup;
    match a
    case SetRunning(k, gen, now) => SetRunningInv(cfg, s, k, gen, now);
    case Claim(digest, archs, gen, now, stale) => ClaimInv(cfg, s, digest, archs, gen, now, stale);
    case AdoptLegacy(digest, archs, gen) => AdoptLegacyInv(cfg, s, digest, archs, gen);
    case Requeue(digest, archs, owner, now) => RequeueInv(cfg, s, digest, archs, owner, now);
    case InitializeQueued(k, now) => InitializeQueuedInv(cfg, s, k, now);
    case Report(k, gen, status, now) => ReportInv(cfg, s, k, gen, status, now);
    case BeginPublish(w, params) => BeginPublishInv(cfg, s, w, params);
    case Ensure(w, now) => EnsureInv(cfg, s, w, now);
    case Put(w, outcome) => PutInv(cfg, s, w, outcome);
    case LatePut(w, details) => LatePutInv(cfg, s, w, details);
    case Mark(w, now) => MarkInv(cfg, s, w, now);
    case Reread(w) => RereadInv(cfg, s, w);
    case Select(w, now, sbomRowExists) => SelectInv(cfg, s, w, now, sbomRowExists);
    case ClaimDeletions(w, visible, now) => ClaimDeletionsInv(cfg, s, w, visible, now);
    case DeleteCandidateObject(w, d, details) => DeleteCandidateObjectInv(cfg, s, w, d, details);
    case DeleteMetadata(w) => DeleteMetadataInv(cfg, s, w);
    case ClaimLegacy(w, scans, now) => ClaimLegacyInv(cfg, s, w, scans, now);
    case DeleteLegacyObject(w, c, details) => DeleteLegacyObjectInv(cfg, s, w, c, details);
    case CompleteLegacy(w, now) => CompleteLegacyInv(cfg, s, w, now);
    case ScheduleLegacy(pairs, now) => ScheduleLegacyInv(cfg, s, pairs, now);
    case PutSbom(k, content) => PutSbomInv(cfg, s, k, content);
  }
}
