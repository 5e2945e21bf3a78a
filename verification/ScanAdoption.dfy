/** The poller adopts a scan directory without a generation under an id derived from the
    directory, at every poll, so the same id may be adopted again. Here is the machine with
    that step as it is, when it agrees with the machine of fresh ids, and what happens when
    it does not.
 */
module ScanAdoption {
  import opened Options
  import opened ObjectKeys
  import opened ScanDb
  import opened ScanProtocol
  import opened ScanInvariant
  import opened ScanTheorems

  function DoReadopt(cfg: Config, s: State, digest: string, archs: set<string>, gen: string): State {
    if archs != {} && (forall a | a in archs :: Plain(cfg, GenId(ScanId(digest, a), gen)))
    then WithScans(s, AdoptLegacyScanGeneration(s.db, digest, archs, gen).0) else s
  }

  /** The machine in which adoption does not ask for a fresh id. */
  function ApplyReadopting(cfg: Config, s: State, a: Action): State {
    if a.AdoptLegacy? then DoReadopt(cfg, s, a.digest, a.archs, a.gen) else Apply(cfg, s, a)
  }

  function RunReadopting(cfg: Config, s: State, actions: seq<Action>): State
    decreases |actions|
  {
    if actions == [] then s else RunReadopting(cfg, ApplyReadopting(cfg, s, actions[0]), actions[1..])
  }

  // ---------------------------------------------------------------------
  // When adoption keeps ids fresh
  // ---------------------------------------------------------------------

  predicate Unowned(db: Db, k: ScanId) {
    k in db.scans && db.scans[k].status == Running && db.scans[k].current == None
  }

  ghost predicate UsedBefore(s: State, k: ScanId) {
    exists id :: id in s.ever && id.scan == k
  }

  /** The scan is running without an owner, and had one before. */
  ghost predicate Exposed(s: State, k: ScanId) {
    Unowned(s.db, k) && UsedBefore(s, k)
  }

  /** Every id that adoption accepts for a scan is fresh or current iff the scan is not
      exposed. */
  lemma FreshIff(cfg: Config, s: State, k: ScanId)
    requires EverOk(cfg, s.ever)
    ensures (forall gen :: Plain(cfg, GenId(k, gen)) && Adoptable(s.db, k, gen) ==> MayBecomeCurrent(cfg, s, GenId(k, gen))) <==> !Exposed(s, k)
  {
    if Exposed(s, k) {
      var id :| id in s.ever && id.scan == k;
      assert id == GenId(k, id.gen);
      assert Plain(cfg, GenId(k, id.gen)) && Adoptable(s.db, k, id.gen) && !MayBecomeCurrent(cfg, s, GenId(k, id.gen));
    }
  }

  /** A deletion claim that revokes the generation of a running scan, or a report of a
      running scan that names no generation, exposes a scan. */
  ghost predicate Exposes(cfg: Config, s: State, a: Action, k: ScanId) {
    || (a.ClaimDeletions? && a.w !in s.cleaners && Revoked(s.db, k, a.visible, a.now) && s.db.scans[k].status == Running)
    || (a.Report? && a.k == k && k in cfg.scans && a.gen == "" && a.status == Running
        && (k in s.db.scans ==> s.db.scans[k].current == None) && UsedBefore(s, k))
  }

  lemma ReadoptAgrees(cfg: Config, s: State, digest: string, archs: set<string>, gen: string)
    requires ScansInv(cfg, s) && forall k :: !Exposed(s, k)
    ensures DoReadopt(cfg, s, digest, archs, gen) == DoAdoptLegacy(cfg, s, digest, archs, gen)
  {
    hide Plain;
    if archs != {} && (forall a | a in archs :: Plain(cfg, GenId(ScanId(digest, a), gen))) && !AllMayBecomeCurrent(cfg, s, digest, archs, gen) {
      var a :| a in archs && !MayBecomeCurrent(cfg, s, GenId(ScanId(digest, a), gen));
      assert !Exposed(s, ScanId(digest, a));
      assert !Adoptable(s.db, ScanId(digest, a), gen);
      NothingNew(cfg, s);
    }
  }

  lemma NothingNew(cfg: Config, s: State)
    requires ScansInv(cfg, s)
    ensures WithScans(s, s.db) == s
  {
    forall id | id in Currents(s.db)
      ensures id in s.ever
    {
      assert ScanOk(cfg, s.db, s.ever, id.scan);
    }
    assert s.ever + Currents(s.db) == s.ever;
  }

  lemma EverStatusStep(cfg: Config, s: State, a: Action)
    requires IsStatusStep(a)
    ensures var t := Apply(cfg, s, a); s.ever <= t.ever <= s.ever + Currents(t.db)
  {
    hide Currents, MayBecomeCurrent, AllMayBecomeCurrent, SetScanStatusRunning, ClaimScanGeneration, AdoptLegacyScanGeneration,
         RequeueScanGeneration, InitializeScanStatusQueued, ReportStatus;
  }

  lemma EverWorkerStep(cfg: Config, s: State, a: Action)
    requires !IsStatusStep(a)
    ensures var t := Apply(cfg, s, a); s.ever <= t.ever <= s.ever + Currents(t.db)
  {
    hide Currents, NewScanCandidate, EnsureScanCandidate, MarkScanCandidate, SelectScanCandidate, ClaimScanCandidateDeletions,
         DeleteScanCandidateMetadata, ClaimLegacyScanCleanup, CompleteLegacyScanCleanup, ScheduleLegacyScanCleanup, Store, ValidReplacement;
  }

  lemma UsedFrame(s: State, t: State, k: ScanId)
    requires s.ever <= t.ever <= s.ever + Currents(t.db) && Unowned(t.db, k)
    ensures UsedBefore(t, k) <==> UsedBefore(s, k)
  {
  }

  lemma ClaimsOwn(cfg: Config, s: State, digest: string, archs: set<string>, gen: string, now: int, staleThreshold: int, k: ScanId)
    requires !Unowned(s.db, k)
    ensures !Unowned(DoClaim(cfg, s, digest, archs, gen, now, staleThreshold).db, k)
    ensures !Unowned(DoAdoptLegacy(cfg, s, digest, archs, gen).db, k)
  {
    hide Currents, Plain, Claimable, Adoptable, MayBecomeCurrent, AllMayBecomeCurrent;
  }

  lemma StatusStepUnowns(cfg: Config, s: State, a: Action, k: ScanId)
    requires IsStatusStep(a) && !Unowned(s.db, k)
    ensures Unowned(Apply(cfg, s, a).db, k) <==>
      a.Report? && a.k == k && k in cfg.scans && a.gen == "" && a.status == Running && (k in s.db.scans ==> s.db.scans[k].current == None)
  {
    hide Currents, MayBecomeCurrent, DoClaim, DoAdoptLegacy;
    if a.Claim? {
      ClaimsOwn(cfg, s, a.digest, a.archs, a.gen, a.now, a.staleThreshold, k);
    } else if a.AdoptLegacy? {
      ClaimsOwn(cfg, s, a.digest, a.archs, a.gen, 0, 0, k);
    }
  }

  lemma WorkerStepUnowns(cfg: Config, s: State, a: Action, k: ScanId)
    requires !IsStatusStep(a) && !Unowned(s.db, k)
    ensures Unowned(Apply(cfg, s, a).db, k) <==>
      a.ClaimDeletions? && a.w !in s.cleaners && Revoked(s.db, k, a.visible, a.now) && s.db.scans[k].status == Running
  {
    hide NewScanCandidate, Currents, ToDelete, LegacyLeased, LegacyDue, ClaimOf, Removable, ValidReplacement, Store, Judge, JudgedRow, Supersede;
  }

  /** A step exposes a scan iff it is one of those two. */
  lemma ExposedIff(cfg: Config, s: State, a: Action, k: ScanId)
    requires ScansInv(cfg, s) && !Exposed(s, k)
    ensures Exposed(Apply(cfg, s, a), k) <==> Exposes(cfg, s, a, k)
  {
    hide Apply;
    var t := Apply(cfg, s, a);
    if IsStatusStep(a) {
      EverStatusStep(cfg, s, a);
    } else {
      EverWorkerStep(cfg, s, a);
    }
    if Unowned(t.db, k) {
      UsedFrame(s, t, k);
    }
    if !Unowned(s.db, k) {
      if IsStatusStep(a) {
        StatusStepUnowns(cfg, s, a, k);
      } else {
        WorkerStepUnowns(cfg, s, a, k);
        assert k in s.db.scans && s.db.scans[k].current.Some? ==> UsedBefore(s, k) by { CurrentUsed(cfg, s, k); }
      }
    }
  }

  lemma CurrentUsed(cfg: Config, s: State, k: ScanId)
    requires ScansInv(cfg, s)
    ensures k in s.db.scans && s.db.scans[k].current.Some? ==> UsedBefore(s, k)
  {
    if k in s.db.scans && s.db.scans[k].current.Some? {
      assert ScanOk(cfg, s.db, s.ever, k);
      assert GenId(k, s.db.scans[k].current.value) in s.ever;
    }
  }

  ghost predicate NeverExposes(cfg: Config, s: State, actions: seq<Action>)
    decreases |actions|
  {
    actions != [] ==> (forall k :: !Exposes(cfg, s, actions[0], k)) && NeverExposes(cfg, Apply(cfg, s, actions[0]), actions[1..])
  }

  /** In every run that exposes no scan, adoption as it is behaves as adoption under fresh ids,
      so all that is proved of such runs holds of this one. */
  lemma {:induction false} ReadoptingIsFresh(cfg: Config, s: State, actions: seq<Action>)
    requires Inv(cfg, s) && (forall k :: !Exposed(s, k)) && NeverExposes(cfg, s, actions)
    ensures RunReadopting(cfg, s, actions) == Run(cfg, s, actions)
    decreases |actions|
  {
    if actions != [] {
      hide Apply, Exposed, Exposes, DoReadopt, ScansInv, DoAdoptLegacy;
      var a, t := actions[0], Apply(cfg, s, actions[0]);
      assert ScansInv(cfg, s);
      hide Inv;
      if a.AdoptLegacy? {
        ReadoptAgrees(cfg, s, a.digest, a.archs, a.gen);
        AdoptsLegacy(cfg, s, a);
      }
      forall k
        ensures !Exposed(t, k)
      {
        ExposedIff(cfg, s, a, k);
      }
      ApplyInv(cfg, s, a);
      ReadoptingIsFresh(cfg, t, actions[1..]);
    }
  }

  lemma AdoptsLegacy(cfg: Config, s: State, a: Action)
    requires a.AdoptLegacy?
    ensures Apply(cfg, s, a) == DoAdoptLegacy(cfg, s, a.digest, a.archs, a.gen)
  {
  }

  /** The scan owned by the generation. */
  function Adopted(s: State, id: GenId): State
    requires id.scan in s.db.scans
  {
    WithScans(s, s.db.(scans := s.db.scans[id.scan := s.db.scans[id.scan].(current := Some(id.gen))]))
  }

  function Adopt(id: GenId): Action {
    AdoptLegacy(id.scan.digest, {id.scan.arch}, id.gen)
  }

  lemma AdoptUnowned(cfg: Config, s: State, id: GenId)
    requires Plain(cfg, id) && Unowned(s.db, id.scan)
    ensures ApplyReadopting(cfg, s, Adopt(id)) == Adopted(s, id)
  {
    hide Plain, Currents;
    assert id == GenId(ScanId(id.scan.digest, id.scan.arch), id.gen);
    assert Adoptable(s.db, id.scan, id.gen);
    var after := AdoptLegacyScanGeneration(s.db, id.scan.digest, {id.scan.arch}, id.gen).0;
    assert after.scans == s.db.scans[id.scan := s.db.scans[id.scan].(current := Some(id.gen))];
  }

  /** And only in such runs: in an exposed state some adoption makes a generation current
      again that is no longer so, which under fresh ids changes nothing. */
  lemma ExposedReadopts(cfg: Config, s: State, k: ScanId)
    requires EverOk(cfg, s.ever) && Exposed(s, k)
    ensures exists id ::
      && id in s.ever && id.scan == k && !IsCurrent(s.db, id)
      && Apply(cfg, s, Adopt(id)) == s
      && IsCurrent(ApplyReadopting(cfg, s, Adopt(id)).db, id)
  {
    var id :| id in s.ever && id.scan == k;
    AdoptUnowned(cfg, s, id);
    AdoptsLegacy(cfg, s, Adopt(id));
    assert !MayBecomeCurrent(cfg, s, GenId(ScanId(k.digest, k.arch), id.gen));
    assert k.arch in {k.arch};
    hide Apply, ApplyReadopting;
  }

  // ---------------------------------------------------------------------
  // A reused generation loses an object
  // ---------------------------------------------------------------------

  /** One running scan, owned or not, that has had the generation. */
  function Lone(id: GenId, started: int, current: Option<string>, gens: map<GenId, GenRow>, publishers: map<nat, Publisher>, cleaners: map<nat, Cleaner>): State {
    State(Db(map[id.scan := NewScan(Running, current, started)], gens), map[], {id}, publishers, cleaners, map[])
  }

  function Start(id: GenId, started: int): State {
    State(Db(map[id.scan := NewScan(Running, None, started)], map[]), map[], {}, map[], map[], map[])
  }

  lemma StartInit(cfg: Config, id: GenId, started: int)
    requires ConfigOk(cfg) && Plain(cfg, id)
    ensures Init(cfg, Start(id, started)) && forall k :: !Exposed(Start(id, started), k)
  {
  }

  function ClaimedRow(c: Candidate, now: int): GenRow {
    GenRow(Deleting, c.raw.meta, c.details.meta, Some(now + CLEANUP_LEASE))
  }

  function DeletionOf(c: Candidate, now: int): Deletion {
    Deletion(c.id, c.raw.meta.key, c.details.meta.key, now + CLEANUP_LEASE)
  }

  lemma LoneCurrent(id: GenId, row: ScanRow)
    requires row.current == Some(id.gen)
    ensures Currents(Db(map[id.scan := row], map[])) == {id}
  {
    var db := Db(map[id.scan := row], map[]);
    assert id.scan in db.scans && db.scans[id.scan].current.Some?;
    assert GenId(id.scan, db.scans[id.scan].current.value) in Currents(db);
    assert forall x | x in Currents(db) :: x == id;
  }

  lemma FirstAdoption(cfg: Config, id: GenId, started: int)
    requires Plain(cfg, id)
    ensures ApplyReadopting(cfg, Start(id, started), Adopt(id)) == Lone(id, started, Some(id.gen), map[], map[], map[])
  {
    AdoptUnowned(cfg, Start(id, started), id);
    var scans := map[id.scan := NewScan(Running, Some(id.gen), started)];
    assert Start(id, started).db.scans[id.scan := NewScan(Running, Some(id.gen), started)] == scans;
    LoneCurrent(id, scans[id.scan]);
  }

  lemma SecondAdoption(cfg: Config, id: GenId, started: int, publishers: map<nat, Publisher>, cleaners: map<nat, Cleaner>)
    requires Plain(cfg, id)
    ensures ApplyReadopting(cfg, Lone(id, started, None, map[], publishers, cleaners), Adopt(id))
      == Lone(id, started, Some(id.gen), map[], publishers, cleaners)
  {
    AdoptUnowned(cfg, Lone(id, started, None, map[], publishers, cleaners), id);
    var scans := map[id.scan := NewScan(Running, Some(id.gen), started)];
    assert Lone(id, started, None, map[], publishers, cleaners).db.scans[id.scan := NewScan(Running, Some(id.gen), started)] == scans;
    LoneCurrent(id, scans[id.scan]);
  }

  lemma BeginsAndEnsures(cfg: Config, p: Params, started: int, now: int)
    requires NewScanCandidate(cfg, p).Some?
    ensures var c := NewScanCandidate(cfg, p).value;
      Apply(cfg, Apply(cfg, Lone(p.id, started, Some(p.id.gen), map[], map[], map[]), BeginPublish(0, p)), Ensure(0, now))
      == Lone(p.id, started, Some(p.id.gen), map[p.id := GenRow(Uploading, c.raw.meta, c.details.meta, Some(now + PUBLICATION_LEASE))],
              map[0 := Publisher(c, p.parsed, PuttingRaw)], map[])
  {
  }

  lemma Claims(cfg: Config, c: Candidate, started: int, current: Option<string>, state: GenState, deadline: int,
               publishers: map<nat, Publisher>, cleaners: map<nat, Cleaner>, w: nat, now: int)
    requires w !in cleaners && state != Selected && deadline <= now && (current == None || current == Some(c.id.gen))
    ensures Apply(cfg, Lone(c.id, started, current, map[c.id := GenRow(state, c.raw.meta, c.details.meta, Some(deadline))], publishers, cleaners),
                  ClaimDeletions(w, {c.id}, now))
      == Lone(c.id, started, None, map[c.id := ClaimedRow(c, now)], publishers, cleaners[w := Cleaner({DeletionOf(c, now)}, {})])
  {
    var s := Lone(c.id, started, current, map[c.id := GenRow(state, c.raw.meta, c.details.meta, Some(deadline))], publishers, cleaners);
    assert Judge(s.db, c.id, now) == Delete;
    assert ToDelete(s.db, {c.id}, now) == {DeletionOf(c, now)};
  }

  lemma DeletesObject(cfg: Config, c: Candidate, started: int, gens: map<GenId, GenRow>, publishers: map<nat, Publisher>, cleaners: map<nat, Cleaner>,
                      w: nat, d: Deletion, done: set<(Deletion, bool)>, details: bool)
    requires w in cleaners && cleaners[w] == Cleaner({d}, done)
    ensures Apply(cfg, Lone(c.id, started, None, gens, publishers, cleaners), DeleteCandidateObject(w, d, details))
      == Lone(c.id, started, None, gens, publishers, cleaners[w := Cleaner({d}, done + {(d, details)})])
  {
    var none: map<string, string> := map[];
    assert none - {d.rawKey} == none && none - {d.detailsKey} == none;
  }

  lemma RemovesRow(cfg: Config, c: Candidate, started: int, publishers: map<nat, Publisher>, cleaners: map<nat, Cleaner>, w: nat, now: int)
    requires var d := DeletionOf(c, now); w in cleaners && cleaners[w] == Cleaner({d}, {(d, false), (d, true)})
    ensures Apply(cfg, Lone(c.id, started, None, map[c.id := ClaimedRow(c, now)], publishers, cleaners), DeleteMetadata(w))
      == Lone(c.id, started, None, map[], publishers, cleaners)
  {
    var d := DeletionOf(c, now);
    var s := Lone(c.id, started, None, map[c.id := ClaimedRow(c, now)], publishers, cleaners);
    assert Removable(s.db, d);
    assert (set e | e in {d} && Removable(s.db, e) :: e.id) == {c.id};
    assert s.db.gens - {c.id} == map[];
  }

  /** The publisher has come to the phase, and the row to the state. */
  predicate Publishing(s: State, w: nat, p: Params, c: Candidate, phase: Phase, state: GenState, cleaners: map<nat, Cleaner>) {
    && w in s.publishers && s.publishers[w] == Publisher(c, p.parsed, phase) && IsCurrent(s.db, c.id) && s.cleaners == cleaners
    && c.id in s.db.gens && s.db.gens[c.id].state == state && s.db.gens[c.id].raw == c.raw.meta
  }

  lemma BeginsAgain(cfg: Config, s: State, w: nat, p: Params, now: int)
    requires NewScanCandidate(cfg, p).Some? && w !in s.publishers && p.id in s.ever && IsCurrent(s.db, p.id) && p.id !in s.db.gens
    ensures Publishing(Apply(cfg, Apply(cfg, s, BeginPublish(w, p)), Ensure(w, now)), w, p, NewScanCandidate(cfg, p).value, PuttingRaw, Uploading, s.cleaners)
  {
    hide PUBLICATION_LEASE, RawKey, DetailsKey;
    var t := Apply(cfg, s, BeginPublish(w, p));
    assert t == s.(publishers := s.publishers[w := Publisher(NewScanCandidate(cfg, p).value, p.parsed, Ensuring)]);
    hide NewScanCandidate, DoBeginPublish;
  }

  lemma UploadsAgain(cfg: Config, s: State, w: nat, p: Params, c: Candidate, now: int)
    requires Publishing(s, w, p, c, PuttingRaw, Uploading, s.cleaners)
    ensures Publishing(Apply(cfg, Apply(cfg, Apply(cfg, s, Put(w, Stored)), Put(w, Stored)), Mark(w, now)), w, p, c, Selecting, Validated, s.cleaners)
  {
    hide Store;
  }

  lemma SelectsAgain(cfg: Config, s: State, w: nat, p: Params, c: Candidate, now: int)
    requires Publishing(s, w, p, c, Selecting, Validated, s.cleaners)
    ensures var t := Apply(cfg, s, Select(w, now, true));
      Publishing(t, w, p, c, Finished, Selected, s.cleaners) && IsSelected(t.db, c.id)
  {
  }

  lemma DeletesLate(cfg: Config, s: State, w: nat, d: Deletion)
    requires w in s.cleaners && d in s.cleaners[w].claims
    ensures var t := Apply(cfg, s, DeleteCandidateObject(w, d, false)); t.db == s.db && d.rawKey !in t.objects
  {
  }

  lemma CandidateKey(cfg: Config, p: Params)
    requires NewScanCandidate(cfg, p).Some?
    ensures NewScanCandidate(cfg, p).value.id == p.id && NewScanCandidate(cfg, p).value.raw.meta.key == RawKey(p.id)
  {
  }

  /** Adopted, ensured, and claimed for deletion by two cleaners in turn, once the leases are
      over; the second one finishes. */
  function FirstUse(p: Params, c: Candidate, ensured: int, claimed: int, reclaimed: int): seq<Action> {
    var d := DeletionOf(c, reclaimed);
    [Adopt(p.id), BeginPublish(0, p), Ensure(0, ensured), ClaimDeletions(0, {c.id}, claimed), ClaimDeletions(1, {c.id}, reclaimed),
     DeleteCandidateObject(1, d, false), DeleteCandidateObject(1, d, true), DeleteMetadata(1)]
  }

  /** Adopted again and published; then the first cleaner deletes the raw results it claimed. */
  function SecondUse(p: Params, c: Candidate, claimed: int, ensured: int, marked: int, selected: int): seq<Action> {
    [Adopt(p.id), BeginPublish(1, p), Ensure(1, ensured), Put(1, Stored), Put(1, Stored), Mark(1, marked), Select(1, selected, true),
     DeleteCandidateObject(0, DeletionOf(c, claimed), false)]
  }

  lemma FromStep(cfg: Config, s: State, a: seq<Action>, i: nat)
    requires i < |a| && !a[i].AdoptLegacy?
    ensures RunReadopting(cfg, s, a[i..]) == RunReadopting(cfg, Apply(cfg, s, a[i]), a[i + 1..])
  {
    hide Apply;
    assert a[i..][0] == a[i] && a[i..][1..] == a[i + 1..];
  }

  /** Eight steps of which only the first is an adoption. */
  lemma EightSteps(cfg: Config, s: State, a: seq<Action>)
    requires |a| == 8 && forall i :: 0 < i < 8 ==> !a[i].AdoptLegacy?
    ensures RunReadopting(cfg, s, a) ==
      Apply(cfg, Apply(cfg, Apply(cfg, Apply(cfg, Apply(cfg, Apply(cfg, Apply(cfg, ApplyReadopting(cfg, s, a[0]), a[1]), a[2]), a[3]), a[4]), a[5]), a[6]), a[7])
  {
    hide Apply, ApplyReadopting;
    var s1 := ApplyReadopting(cfg, s, a[0]);
    assert RunReadopting(cfg, s, a) == RunReadopting(cfg, s1, a[1..]);
    FromStep(cfg, s1, a, 1);
    var s2 := Apply(cfg, s1, a[1]);
    FromStep(cfg, s2, a, 2);
    var s3 := Apply(cfg, s2, a[2]);
    FromStep(cfg, s3, a, 3);
    var s4 := Apply(cfg, s3, a[3]);
    FromStep(cfg, s4, a, 4);
    var s5 := Apply(cfg, s4, a[4]);
    FromStep(cfg, s5, a, 5);
    var s6 := Apply(cfg, s5, a[5]);
    FromStep(cfg, s6, a, 6);
    var s7 := Apply(cfg, s6, a[6]);
    FromStep(cfg, s7, a, 7);
    assert a[8..] == [];
  }

  lemma {:induction false} RunsJoin(cfg: Config, s: State, first: seq<Action>, rest: seq<Action>)
    ensures RunReadopting(cfg, s, first + rest) == RunReadopting(cfg, RunReadopting(cfg, s, first), rest)
    decreases |first|
  {
    hide ApplyReadopting;
    if first == [] {
      assert first + rest == rest;
    } else {
      assert (first + rest)[1..] == first[1..] + rest;
      RunsJoin(cfg, ApplyReadopting(cfg, s, first[0]), first[1..], rest);
    }
  }

  lemma FirstUseSteps(cfg: Config, s: State, p: Params, c: Candidate, ensured: int, claimed: int, reclaimed: int)
    ensures var e := DeletionOf(c, reclaimed);
      var s3 := Apply(cfg, Apply(cfg, ApplyReadopting(cfg, s, Adopt(p.id)), BeginPublish(0, p)), Ensure(0, ensured));
      var s5 := Apply(cfg, Apply(cfg, s3, ClaimDeletions(0, {c.id}, claimed)), ClaimDeletions(1, {c.id}, reclaimed));
      RunReadopting(cfg, s, FirstUse(p, c, ensured, claimed, reclaimed))
      == Apply(cfg, Apply(cfg, Apply(cfg, s5, DeleteCandidateObject(1, e, false)), DeleteCandidateObject(1, e, true)), DeleteMetadata(1))
  {
    hide Apply, ApplyReadopting, RunReadopting, DeletionOf;
    EightSteps(cfg, s, FirstUse(p, c, ensured, claimed, reclaimed));
  }

  /** The state in which the second cleaner has claimed. */
  function ClaimedTwice(p: Params, c: Candidate, started: int, claimed: int, reclaimed: int): State {
    Lone(c.id, started, None, map[c.id := ClaimedRow(c, reclaimed)], map[0 := Publisher(c, p.parsed, PuttingRaw)],
         map[0 := Cleaner({DeletionOf(c, claimed)}, {}), 1 := Cleaner({DeletionOf(c, reclaimed)}, {})])
  }

  lemma ReachesClaimedTwice(cfg: Config, p: Params, started: int, ensured: int, claimed: int, reclaimed: int)
    requires Plain(cfg, p.id) && NewScanCandidate(cfg, p).Some?
    requires ensured + PUBLICATION_LEASE <= claimed && claimed + CLEANUP_LEASE <= reclaimed
    ensures var c := NewScanCandidate(cfg, p).value;
      var s3 := Apply(cfg, Apply(cfg, ApplyReadopting(cfg, Start(p.id, started), Adopt(p.id)), BeginPublish(0, p)), Ensure(0, ensured));
      Apply(cfg, Apply(cfg, s3, ClaimDeletions(0, {c.id}, claimed)), ClaimDeletions(1, {c.id}, reclaimed))
      == ClaimedTwice(p, c, started, claimed, reclaimed)
  {
    hide Apply, ApplyReadopting, NewScanCandidate, Plain, DeletionOf, Lone, Adopt, Start;
    var c := NewScanCandidate(cfg, p).value;
    assert c.id == p.id by { CandidateKey(cfg, p); }
    var publishers: map<nat, Publisher> := map[0 := Publisher(c, p.parsed, PuttingRaw)];
    var none: map<nat, Cleaner> := map[];
    var one := none[0 := Cleaner({DeletionOf(c, claimed)}, {})];
    FirstAdoption(cfg, p.id, started);
    BeginsAndEnsures(cfg, p, started, ensured);
    Claims(cfg, c, started, Some(p.id.gen), Uploading, ensured + PUBLICATION_LEASE, publishers, none, 0, claimed);
    Claims(cfg, c, started, None, Deleting, claimed + CLEANUP_LEASE, publishers, one, 1, reclaimed);
    assert one[1 := Cleaner({DeletionOf(c, reclaimed)}, {})]
        == map[0 := Cleaner({DeletionOf(c, claimed)}, {}), 1 := Cleaner({DeletionOf(c, reclaimed)}, {})];
  }

  lemma CleansUp(cfg: Config, p: Params, c: Candidate, started: int, claimed: int, reclaimed: int)
    ensures var e := DeletionOf(c, reclaimed);
      var t := Apply(cfg, Apply(cfg, Apply(cfg, ClaimedTwice(p, c, started, claimed, reclaimed),
                                            DeleteCandidateObject(1, e, false)), DeleteCandidateObject(1, e, true)), DeleteMetadata(1));
      && t == Lone(c.id, started, None, map[], t.publishers, t.cleaners)
      && 1 !in t.publishers && 0 in t.cleaners && DeletionOf(c, claimed) in t.cleaners[0].claims
  {
    hide Apply, DeletionOf, Lone;
    var e := DeletionOf(c, reclaimed);
    var publishers: map<nat, Publisher> := map[0 := Publisher(c, p.parsed, PuttingRaw)];
    var two: map<nat, Cleaner> := map[0 := Cleaner({DeletionOf(c, claimed)}, {}), 1 := Cleaner({e}, {})];
    var three := two[1 := Cleaner({e}, {} + {(e, false)})];
    var four := three[1 := Cleaner({e}, {} + {(e, false)} + {(e, true)})];
    DeletesObject(cfg, c, started, map[c.id := ClaimedRow(c, reclaimed)], publishers, two, 1, e, {}, false);
    DeletesObject(cfg, c, started, map[c.id := ClaimedRow(c, reclaimed)], publishers, three, 1, e, {} + {(e, false)}, true);
    RemovesRow(cfg, c, started, publishers, four, 1, reclaimed);
    LoneHolds(c.id, started, publishers, four);
  }

  lemma FirstUseRuns(cfg: Config, p: Params, started: int, ensured: int, claimed: int, reclaimed: int)
    requires Plain(cfg, p.id) && NewScanCandidate(cfg, p).Some?
    requires ensured + PUBLICATION_LEASE <= claimed && claimed + CLEANUP_LEASE <= reclaimed
    ensures var c := NewScanCandidate(cfg, p).value;
      var t := RunReadopting(cfg, Start(p.id, started), FirstUse(p, c, ensured, claimed, reclaimed));
      && t == Lone(p.id, started, None, map[], t.publishers, t.cleaners)
      && 1 !in t.publishers && 0 in t.cleaners && DeletionOf(c, claimed) in t.cleaners[0].claims
  {
    hide Apply, ApplyReadopting, RunReadopting, NewScanCandidate, Plain, DeletionOf, Lone, FirstUse, Start, ClaimedTwice, Adopt;
    var c := NewScanCandidate(cfg, p).value;
    CandidateKey(cfg, p);
    FirstUseSteps(cfg, Start(p.id, started), p, c, ensured, claimed, reclaimed);
    ReachesClaimedTwice(cfg, p, started, ensured, claimed, reclaimed);
    CleansUp(cfg, p, c, started, claimed, reclaimed);
  }

  lemma LoneHolds(id: GenId, started: int, publishers: map<nat, Publisher>, cleaners: map<nat, Cleaner>)
    ensures var t := Lone(id, started, None, map[], publishers, cleaners);
      t.publishers == publishers && t.cleaners == cleaners
  {
  }

  lemma SecondUseRuns(cfg: Config, s: State, p: Params, started: int, claimed: int, ensured: int, marked: int, selected: int)
    requires Plain(cfg, p.id) && NewScanCandidate(cfg, p).Some?
    requires s == Lone(p.id, started, None, map[], s.publishers, s.cleaners) && 1 !in s.publishers
    requires 0 in s.cleaners && DeletionOf(NewScanCandidate(cfg, p).value, claimed) in s.cleaners[0].claims
    ensures var c := NewScanCandidate(cfg, p).value;
      var t := RunReadopting(cfg, s, SecondUse(p, c, claimed, ensured, marked, selected));
      && IsSelected(t.db, p.id) && p.id in t.db.gens && t.db.gens[p.id].state == Selected
      && t.db.gens[p.id].raw.key == RawKey(p.id) && RawKey(p.id) !in t.objects
  {
    var c := NewScanCandidate(cfg, p).value;
    CandidateKey(cfg, p);
    SecondAdoption(cfg, p.id, started, s.publishers, s.cleaners);
    EightSteps(cfg, s, SecondUse(p, c, claimed, ensured, marked, selected));
    var s1 := ApplyReadopting(cfg, s, Adopt(p.id));
    hide Apply, ApplyReadopting, RunReadopting, NewScanCandidate, Plain, RawKey;
    BeginsAgain(cfg, s1, 1, p, ensured);
    var s2 := Apply(cfg, Apply(cfg, s1, BeginPublish(1, p)), Ensure(1, ensured));
    UploadsAgain(cfg, s2, 1, p, c, marked);
    var s3 := Apply(cfg, Apply(cfg, Apply(cfg, s2, Put(1, Stored)), Put(1, Stored)), Mark(1, marked));
    SelectsAgain(cfg, s3, 1, p, c, selected);
    DeletesLate(cfg, Apply(cfg, s3, Select(1, selected, true)), 0, DeletionOf(c, claimed));
  }

  /** A generation adopted, claimed by two cleaners and removed by the second comes back by
      adoption, and is published; the first cleaner then deletes an object of the selected
      generation. So RetiredForever, NeverSelectedAgain and SelectedIsComplete all need
      adoption to keep ids fresh. */
  lemma ReusedGenerationLosesObject(cfg: Config, p: Params, started: int, ensured: int, claimed: int, reclaimed: int, again: int, marked: int, selected: int)
    requires ConfigOk(cfg) && Plain(cfg, p.id) && NewScanCandidate(cfg, p).Some?
    requires ensured + PUBLICATION_LEASE <= claimed && claimed + CLEANUP_LEASE <= reclaimed
    ensures Init(cfg, Start(p.id, started))
    ensures var c := NewScanCandidate(cfg, p).value;
      var s := RunReadopting(cfg, Start(p.id, started), FirstUse(p, c, ensured, claimed, reclaimed));
      var t := RunReadopting(cfg, Start(p.id, started), FirstUse(p, c, ensured, claimed, reclaimed) + SecondUse(p, c, claimed, again, marked, selected));
      && Retired(s, p.id)
      && IsSelected(t.db, p.id) && p.id in t.db.gens && t.db.gens[p.id].state == Selected
      && t.db.gens[p.id].raw.key == RawKey(p.id) && RawKey(p.id) !in t.objects
  {
    var c := NewScanCandidate(cfg, p).value;
    StartInit(cfg, p.id, started);
    FirstUseRuns(cfg, p, started, ensured, claimed, reclaimed);
    hide RunReadopting, NewScanCandidate, Plain, RawKey, Init, FirstUse, SecondUse;
    var s := RunReadopting(cfg, Start(p.id, started), FirstUse(p, c, ensured, claimed, reclaimed));
    SecondUseRuns(cfg, s, p, started, claimed, again, marked, selected);
    RunsJoin(cfg, Start(p.id, started), FirstUse(p, c, ensured, claimed, reclaimed), SecondUse(p, c, claimed, again, marked, selected));
  }
}
