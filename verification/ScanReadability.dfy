/** What a reader of scan results gets, over every run. */
module ScanReadability {
  import opened Options
  import opened ObjectKeys
  import opened ScanDb
  import opened ScanProtocol
  import opened ScanInvariant
  import opened ScanTheorems

  /** What a reader gets: the selected generation's object, and the legacy object only
      while nothing was ever selected. */
  function Read(s: State, k: ScanId, details: bool): Option<string> {
    var key :=
      if HasSelection(s.db, k) then
        var id := GenId(k, s.db.scans[k].selected.value);
        if id in s.db.gens then Some(if details then s.db.gens[id].details.key else s.db.gens[id].raw.key) else None
      else Some(LegacyKey(k, details));
    if key.Some? && key.value in s.objects then Some(s.objects[key.value]) else None
  }

  /** What is read has the size and the hash that the selected row records. */
  predicate AsRecorded(cfg: Config, s: State, k: ScanId, details: bool)
    requires HasSelection(s.db, k)
  {
    var id := GenId(k, s.db.scans[k].selected.value);
    && id in s.db.gens && Read(s, k, details).Some?
    && var m := if details then s.db.gens[id].details else s.db.gens[id].raw;
       |Read(s, k, details).value| == m.size && cfg.sha256(Read(s, k, details).value) == m.sha256
  }

  lemma SelectionIsReadable(cfg: Config, s: State, k: ScanId, details: bool)
    requires Inv(cfg, s) && HasSelection(s.db, k)
    ensures AsRecorded(cfg, s, k, details)
  {
    hide EverOk, ConfigOk, PublishersInv, CleanersInv, LegacyInv;
    var id := GenId(k, s.db.scans[k].selected.value);
    assert ScanOk(cfg, s.db, s.ever, k);
    assert ObjectsOk(cfg, s.db, s.objects, id);
  }

  /** A selection is replaced but never dropped. */
  lemma SelectionStays(cfg: Config, s: State, a: Action, k: ScanId)
    requires HasSelection(s.db, k)
    ensures HasSelection(Apply(cfg, s, a).db, k)
  {
    hide Apply;
    if IsStatusStep(a) {
      StatusStepShows(cfg, s, a, k);
    } else {
      WorkerStepShows(cfg, s, a, k);
    }
  }

  // ---------------------------------------------------------------------
  // Legacy objects
  // ---------------------------------------------------------------------

  /** No legacy worker holds a claim on the scan. */
  ghost predicate LegacyUnclaimed(s: State, k: ScanId) {
    forall w, c :: w in s.legacy && c in s.legacy[w].ready ==> c.scan != k
  }

  lemma UnselectedUnclaimed(cfg: Config, s: State, k: ScanId)
    requires Inv(cfg, s) && !HasSelection(s.db, k)
    ensures LegacyUnclaimed(s, k)
  {
    hide ScansInv, RowsInv, ObjectsInv, PublishersInv, CleanersInv, ConfigOk, EverOk;
    forall w, c | w in s.legacy && c in s.legacy[w].ready
      ensures c.scan != k
    {
      assert LegacyOk(cfg, s.db, s.legacy[w]);
    }
  }

  /** The steps that write or delete objects. */
  predicate TouchesObjects(a: Action) {
    a.Put? || a.LatePut? || a.PutSbom? || a.DeleteCandidateObject? || a.DeleteLegacyObject?
  }

  lemma OthersKeepObjects(cfg: Config, s: State, a: Action)
    requires !TouchesObjects(a)
    ensures Apply(cfg, s, a).objects == s.objects
  {
    hide NewScanCandidate, Currents, Plain, MayBecomeCurrent, AllMayBecomeCurrent, EnsureScanCandidate, MarkScanCandidate, SelectScanCandidate,
         ClaimScanCandidateDeletions, DeleteScanCandidateMetadata, ClaimLegacyScanCleanup, CompleteLegacyScanCleanup, ScheduleLegacyScanCleanup,
         SetScanStatusRunning, ClaimScanGeneration, AdoptLegacyScanGeneration, RequeueScanGeneration, InitializeScanStatusQueued, ReportStatus;
  }

  predicate SameObjectAt(s: State, t: State, key: string) {
    key in s.objects && key in t.objects && t.objects[key] == s.objects[key]
  }

  lemma UploadSpares(cfg: Config, s: State, t: State, p: Publisher, details: bool, key: string, k: ScanId, x: bool)
    requires Inv(cfg, s) && PublisherOk(cfg, s.db, s.objects, s.ever, p) && k in cfg.scans && key == LegacyKey(k, x) && key in s.objects
    requires t.objects == Store(s.objects, if details then p.candidate.details else p.candidate.raw)
    ensures SameObjectAt(s, t, key)
  {
    hide Inv, LegacyKey, ConfigOk, RawKey, DetailsKey, Plain, Live, SbomKey;
    InvParts(cfg, s);
    OtherKeysApart(cfg, p.candidate.id, k);
  }

  lemma PutSpares(cfg: Config, s: State, w: nat, outcome: PutOutcome, k: ScanId, x: bool)
    requires Inv(cfg, s) && k in cfg.scans && LegacyKey(k, x) in s.objects
    ensures SameObjectAt(s, DoPut(s, w, outcome), LegacyKey(k, x))
  {
    hide Inv, LegacyKey, Store, PublisherOk;
    var t := DoPut(s, w, outcome);
    if t.objects != s.objects {
      PublisherFacts(cfg, s, w);
      UploadSpares(cfg, s, t, s.publishers[w], s.publishers[w].phase == PuttingDetails, LegacyKey(k, x), k, x);
    }
  }

  lemma LatePutSpares(cfg: Config, s: State, w: nat, details: bool, k: ScanId, x: bool)
    requires Inv(cfg, s) && k in cfg.scans && LegacyKey(k, x) in s.objects
    ensures SameObjectAt(s, DoLatePut(s, w, details), LegacyKey(k, x))
  {
    hide Inv, LegacyKey, Store, PublisherOk;
    var t := DoLatePut(s, w, details);
    if t.objects != s.objects {
      PublisherFacts(cfg, s, w);
      UploadSpares(cfg, s, t, s.publishers[w], details, LegacyKey(k, x), k, x);
    }
  }

  lemma SbomSpares(cfg: Config, s: State, l: ScanId, content: string, k: ScanId, x: bool)
    requires Inv(cfg, s) && k in cfg.scans && LegacyKey(k, x) in s.objects
    ensures SameObjectAt(s, DoPutSbom(cfg, s, l, content), LegacyKey(k, x))
  {
    hide Inv, StripDigestAlgo, SlashFree;
    InvParts(cfg, s);
    if l in cfg.scans {
      KeysInjective(Sbom(l.digest, l.arch), LegacyRaw(k.digest, k.arch));
      KeysInjective(Sbom(l.digest, l.arch), LegacyDetails(k.digest, k.arch));
    }
  }

  lemma CandidateDeletionSpares(cfg: Config, s: State, w: nat, d: Deletion, y: bool, k: ScanId, x: bool)
    requires Inv(cfg, s) && k in cfg.scans && LegacyKey(k, x) in s.objects
    ensures SameObjectAt(s, DoDeleteCandidateObject(s, w, d, y), LegacyKey(k, x))
  {
    hide Inv, LegacyKey, ConfigOk, RawKey, DetailsKey, Plain, Live, SbomKey;
    InvParts(cfg, s);
    if w in s.cleaners && d in s.cleaners[w].claims {
      assert CleanerOk(s.db, s.ever, s.cleaners[w]);
      assert DeletionOk(s.db, s.ever, d);
      OtherKeysApart(cfg, d.id, k);
    }
  }

  lemma LegacyDeletionSpares(cfg: Config, s: State, w: nat, c: LegacyClaim, y: bool, k: ScanId, x: bool)
    requires Inv(cfg, s) && k in cfg.scans && LegacyUnclaimed(s, k) && LegacyKey(k, x) in s.objects
    ensures SameObjectAt(s, DoDeleteLegacyObject(s, w, c, y), LegacyKey(k, x))
  {
    hide Inv, LegacyKey, ConfigOk, HasSelection;
    InvParts(cfg, s);
    if w in s.legacy && c in s.legacy[w].ready {
      assert LegacyOk(cfg, s.db, s.legacy[w]);
      LegacyKeysApart(cfg, k, c.scan);
    }
  }

  lemma LegacyKeysApart(cfg: Config, k: ScanId, l: ScanId)
    requires ConfigOk(cfg) && k in cfg.scans && l in cfg.scans && k != l
    ensures forall x: bool, y: bool :: LegacyKey(k, x) != LegacyKey(l, y)
  {
    hide StripDigestAlgo, SlashFree;
    KeysInjective(LegacyRaw(k.digest, k.arch), LegacyRaw(l.digest, l.arch));
    KeysInjective(LegacyRaw(k.digest, k.arch), LegacyDetails(l.digest, l.arch));
    KeysInjective(LegacyDetails(k.digest, k.arch), LegacyRaw(l.digest, l.arch));
    KeysInjective(LegacyDetails(k.digest, k.arch), LegacyDetails(l.digest, l.arch));
  }

  /** No step rewrites a legacy object, and none deletes it while no legacy worker has
      claimed its scan. */
  lemma LegacyObjectStays(cfg: Config, s: State, a: Action, k: ScanId, x: bool)
    requires Inv(cfg, s) && k in cfg.scans && LegacyUnclaimed(s, k) && LegacyKey(k, x) in s.objects
    ensures SameObjectAt(s, Apply(cfg, s, a), LegacyKey(k, x))
  {
    hide Inv, LegacyKey, LegacyUnclaimed, SameObjectAt, DoDeleteCandidateObject, DoDeleteLegacyObject, DoPut, DoLatePut, DoPutSbom;
    if !TouchesObjects(a) {
      OthersSpare(cfg, s, a, LegacyKey(k, x));
    } else if a.DeleteCandidateObject? {
      CandidateDeletionSpares(cfg, s, a.w, a.deletion, a.details, k, x);
    } else if a.DeleteLegacyObject? {
      LegacyDeletionSpares(cfg, s, a.w, a.claim, a.details, k, x);
    } else if a.Put? {
      PutSpares(cfg, s, a.w, a.outcome, k, x);
    } else if a.LatePut? {
      LatePutSpares(cfg, s, a.w, a.details, k, x);
    } else {
      SbomSpares(cfg, s, a.k, a.content, k, x);
    }
  }

  lemma OthersSpare(cfg: Config, s: State, a: Action, key: string)
    requires !TouchesObjects(a) && key in s.objects
    ensures SameObjectAt(s, Apply(cfg, s, a), key)
  {
    hide Apply;
    OthersKeepObjects(cfg, s, a);
  }

  // ---------------------------------------------------------------------
  // Every run
  // ---------------------------------------------------------------------

  /** Results once readable stay readable, whatever publishers and both cleanup workers do:
      the same legacy bytes while nothing is selected, and afterwards bytes of the size and
      hash that the selected row records. */
  lemma {:induction false} ReadableForever(cfg: Config, s: State, actions: seq<Action>, k: ScanId, details: bool)
    requires Inv(cfg, s) && k in cfg.scans && Read(s, k, details).Some?
    ensures var t := Run(cfg, s, actions);
      && Read(t, k, details).Some?
      && (if HasSelection(t.db, k) then AsRecorded(cfg, t, k, details) else Read(t, k, details) == Read(s, k, details))
    decreases |actions|
  {
    if actions == [] {
      if HasSelection(s.db, k) {
        SelectionIsReadable(cfg, s, k, details);
      }
    } else {
      var t := Apply(cfg, s, actions[0]);
      ApplyInv(cfg, s, actions[0]);
      hide Inv, Apply, LegacyKey, HasSelection, AsRecorded, LegacyUnclaimed;
      if HasSelection(t.db, k) {
        SelectionIsReadable(cfg, t, k, details);
        AsRecordedReads(cfg, t, k, details);
        SelectionOutlasts(cfg, t, actions[1..], k);
      } else {
        if HasSelection(s.db, k) {
          SelectionStays(cfg, s, actions[0], k);
        }
        UnselectedUnclaimed(cfg, s, k);
        LegacyObjectStays(cfg, s, actions[0], k, details);
      }
      ReadableForever(cfg, t, actions[1..], k, details);
    }
  }

  lemma AsRecordedReads(cfg: Config, s: State, k: ScanId, details: bool)
    requires HasSelection(s.db, k) && AsRecorded(cfg, s, k, details)
    ensures Read(s, k, details).Some?
  {
  }

  lemma {:induction false} SelectionOutlasts(cfg: Config, s: State, actions: seq<Action>, k: ScanId)
    requires HasSelection(s.db, k)
    ensures HasSelection(Run(cfg, s, actions).db, k)
    decreases |actions|
  {
    hide Apply, HasSelection;
    if actions != [] {
      SelectionStays(cfg, s, actions[0], k);
      SelectionOutlasts(cfg, Apply(cfg, s, actions[0]), actions[1..], k);
    }
  }
}
