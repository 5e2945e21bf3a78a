/** What transactions answer, where publishers go next, and what cleanup workers claim. */
module ScanOutcomes {
  import opened Options
  import opened ObjectKeys
  import opened ScanDb
  import opened ScanProtocol
  import opened ScanStatus
  import opened ScanRows

  // ---------------------------------------------------------------------
  // Answers
  // ---------------------------------------------------------------------

  /** Claims and adoptions succeed iff every scan is free, or may be adopted. */
  lemma TakeAnswers(db: Db, digest: string, archs: set<string>, gen: string, now: int, staleThreshold: int)
    ensures ClaimScanGeneration(db, digest, archs, gen, now, staleThreshold).1 <==> forall a | a in archs :: Free(db, ScanId(digest, a), now, staleThreshold)
    ensures AdoptLegacyScanGeneration(db, digest, archs, gen).1 <==> forall a | a in archs :: MayAdopt(db, ScanId(digest, a), gen)
  {
    assert forall a | a in archs :: Claimable(RowOrQueued(db, ScanId(digest, a), now), now, staleThreshold) <==> Free(db, ScanId(digest, a), now, staleThreshold);
    assert forall a | a in archs :: Adoptable(db, ScanId(digest, a), gen) <==> MayAdopt(db, ScanId(digest, a), gen);
    hide Claimable, Adoptable, Free, MayAdopt;
  }

  /** A report is accepted iff it comes from the owner, or names no generation while nothing
      owns a run of the scan. */
  lemma ReportAnswers(db: Db, k: ScanId, gen: string, status: Status, now: int)
    ensures ReportStatus(db, k, gen, status, now).1 <==>
      if gen != "" then k in db.scans && db.scans[k].current == Some(gen)
      else k in db.scans ==> db.scans[k].status != Running || db.scans[k].current == None
  {
  }

  /** The generation owns its scan, and its row is validated or selected. */
  predicate Selectable(db: Db, id: GenId) {
    && id.scan in db.scans && db.scans[id.scan].current == Some(id.gen)
    && id in db.gens && db.gens[id].state in {Validated, Selected}
  }

  predicate SelectedAlready(db: Db, id: GenId)
    requires Selectable(db, id)
  {
    db.gens[id].state == Selected && db.scans[id.scan].selected == Some(id.gen)
  }

  lemma SelectAnswers(db: Db, id: GenId, parsed: string, now: int, sbomRowExists: bool)
    ensures var outcome := SelectScanCandidate(db, id, parsed, now, sbomRowExists).1;
      && (outcome == AlreadySelected <==> Selectable(db, id) && SelectedAlready(db, id))
      && (outcome == NewlySelected <==> Selectable(db, id) && !SelectedAlready(db, id) && sbomRowExists)
  {
  }

  /** The state that an ensure step reports, or none: a generation without a row is uploading;
      a superseded or deleting one, and one published with other results, is refused. */
  lemma EnsureAnswers(db: Db, c: Candidate, now: int)
    ensures EnsureScanCandidate(db, c, now).1 ==
      if c.id !in db.gens then Some(Uploading)
      else if db.gens[c.id].state in {Uploading, FailedUpload, Validated, Selected} && db.gens[c.id].raw == c.raw.meta && db.gens[c.id].details == c.details.meta
      then Some(db.gens[c.id].state)
      else None
  {
  }

  lemma MarkAnswers(db: Db, id: GenId, state: GenState, now: int)
    ensures MarkScanCandidate(db, id, state, now).1 <==> id in db.gens && db.gens[id].state in {Uploading, FailedUpload}
  {
  }

  /** A candidate exists iff the generation has a name and all three results are JSON. */
  lemma CandidateAnswers(cfg: Config, p: Params)
    ensures NewScanCandidate(cfg, p).Some? <==>
      p.id.gen != "" && (forall text | text in [p.raw, p.parsed, p.details] :: text != "" && cfg.validJson(text))
    ensures NewScanCandidate(cfg, p).Some? ==>
      NewScanCandidate(cfg, p).value.raw.compressed == cfg.gzip(p.raw) && NewScanCandidate(cfg, p).value.details.compressed == cfg.gzip(p.details)
  {
    var texts := [p.raw, p.parsed, p.details];
    assert texts[0] in texts && texts[1] in texts && texts[2] in texts;
  }

  // ---------------------------------------------------------------------
  // Publishers
  // ---------------------------------------------------------------------

  /** Where the step leads the publisher, if it moves it. */
  function Moves(cfg: Config, s: State, a: Action, w: nat): Option<Phase> {
    if a.BeginPublish? && a.w == w then
      if w !in s.publishers && a.params.id in s.ever && NewScanCandidate(cfg, a.params).Some? then Some(Ensuring) else None
    else if w !in s.publishers then None
    else
      var c, phase := s.publishers[w].candidate, s.publishers[w].phase;
      match a
      case Ensure(v, now) =>
        if v != w || phase != Ensuring then None
        else if c.id !in s.db.gens then Some(PuttingRaw)
        else if s.db.gens[c.id].raw != c.raw.meta || s.db.gens[c.id].details != c.details.meta then Some(Rejected)
        else if s.db.gens[c.id].state in {Uploading, FailedUpload} then Some(PuttingRaw)
        else if s.db.gens[c.id].state in {Validated, Selected} then Some(Selecting)
        else Some(Rejected)
      case Put(v, outcome) =>
        if v != w || phase !in {PuttingRaw, PuttingDetails} then None
        else if outcome != Stored then Some(Marking(FailedUpload))
        else if phase == PuttingRaw then Some(PuttingDetails)
        else Some(Marking(Validated))
      case Mark(v, now) =>
        if v != w || !phase.Marking? then None
        else if c.id !in s.db.gens || s.db.gens[c.id].state !in {Uploading, FailedUpload} then Some(Rereading(phase.target))
        else if phase.target == Validated then Some(Selecting)
        else Some(Finished)
      case Reread(v) =>
        if v != w || !phase.Rereading? then None
        else if c.id in s.db.gens && s.db.gens[c.id].state in {Validated, Selected} then Some(Selecting)
        else Some(Finished)
      case Select(v, now, sbomRowExists) => if v == w && phase == Selecting then Some(Finished) else None
      case _ => None
  }

  function PhaseOf(s: State, w: nat): Option<Phase> {
    if w in s.publishers then Some(s.publishers[w].phase) else None
  }

  predicate MovesPublishers(a: Action) {
    a.BeginPublish? || a.Ensure? || a.Put? || a.Mark? || a.Reread? || a.Select?
  }

  lemma OthersKeepPublishers(cfg: Config, s: State, a: Action)
    requires !MovesPublishers(a)
    ensures Apply(cfg, s, a).publishers == s.publishers
  {
    hide NewScanCandidate, Currents, Plain, MayBecomeCurrent, AllMayBecomeCurrent, ClaimScanCandidateDeletions, DeleteScanCandidateMetadata,
         ClaimLegacyScanCleanup, CompleteLegacyScanCleanup, ScheduleLegacyScanCleanup, SetScanStatusRunning, ClaimScanGeneration,
         AdoptLegacyScanGeneration, RequeueScanGeneration, InitializeScanStatusQueued, ReportStatus, Store, ValidReplacement;
  }

  predicate Moved(cfg: Config, s: State, t: State, a: Action, w: nat) {
    PhaseOf(t, w) == OrElse(Moves(cfg, s, a, w), PhaseOf(s, w))
  }

  lemma EnsureMoves(cfg: Config, s: State, v: nat, now: int, w: nat)
    ensures Moved(cfg, s, DoEnsure(s, v, now), Ensure(v, now), w)
  {
    if v in s.publishers {
      EnsureAnswers(s.db, s.publishers[v].candidate, now);
    }
    hide EnsureScanCandidate;
  }

  lemma PutMoves(cfg: Config, s: State, v: nat, outcome: PutOutcome, w: nat)
    ensures Moved(cfg, s, DoPut(s, v, outcome), Put(v, outcome), w)
  {
    hide Store;
  }

  lemma MarkMoves(cfg: Config, s: State, v: nat, now: int, w: nat)
    ensures Moved(cfg, s, DoMark(s, v, now), Mark(v, now), w)
  {
    if v in s.publishers && s.publishers[v].phase.Marking? {
      MarkAnswers(s.db, s.publishers[v].candidate.id, s.publishers[v].phase.target, now);
    }
    hide MarkScanCandidate;
  }

  lemma PublisherMoves(cfg: Config, s: State, a: Action, w: nat)
    requires MovesPublishers(a)
    ensures Moved(cfg, s, Apply(cfg, s, a), a, w)
  {
    if a.Ensure? {
      hide Moved, DoEnsure;
      EnsureMoves(cfg, s, a.w, a.now, w);
    } else if a.Put? {
      hide Moved, DoPut;
      PutMoves(cfg, s, a.w, a.outcome, w);
    } else if a.Mark? {
      hide Moved, DoMark;
      MarkMoves(cfg, s, a.w, a.now, w);
    } else {
      hide SelectScanCandidate, NewScanCandidate;
    }
  }

  /** A publisher uploads and marks unless the row is validated already, adopts what another
      one validated, and selects only then; no other step moves it. */
  lemma StepMoves(cfg: Config, s: State, a: Action, w: nat)
    ensures PhaseOf(Apply(cfg, s, a), w) == OrElse(Moves(cfg, s, a, w), PhaseOf(s, w))
  {
    hide Apply, PhaseOf;
    if MovesPublishers(a) {
      PublisherMoves(cfg, s, a, w);
    } else {
      OthersKeepPublishers(cfg, s, a);
      SamePublishers(cfg, s, Apply(cfg, s, a), a, w);
    }
  }

  lemma SamePublishers(cfg: Config, s: State, t: State, a: Action, w: nat)
    requires t.publishers == s.publishers && !MovesPublishers(a)
    ensures PhaseOf(t, w) == OrElse(Moves(cfg, s, a, w), PhaseOf(s, w))
  {
  }

  // ---------------------------------------------------------------------
  // Claimed batches
  // ---------------------------------------------------------------------

  /** A deletion claim takes exactly the visible rows that no scan selects, whose state is not
      selected and whose deadline is over, with their keys and a lease of five minutes. */
  lemma BatchClaimed(s: State, w: nat, visible: set<GenId>, now: int, d: Deletion)
    requires w !in s.cleaners
    ensures var t := DoClaimDeletions(s, w, visible, now);
      w in t.cleaners && t.cleaners[w].done == {} &&
      (d in t.cleaners[w].claims <==>
         && d.id in visible && d.id in s.db.gens && s.db.gens[d.id].state != Selected
         && (d.id.scan in s.db.scans ==> s.db.scans[d.id.scan].selected != Some(d.id.gen))
         && s.db.gens[d.id].cleanupAfter.Some? && s.db.gens[d.id].cleanupAfter.value <= now
         && d.rawKey == s.db.gens[d.id].raw.key && d.detailsKey == s.db.gens[d.id].details.key && d.lease == now + 5 * MINUTE)
  {
    hide Revoked;
    assert d == Deletion(d.id, d.rawKey, d.detailsKey, d.lease);
  }

  /** A legacy claim takes exactly the visible scans with a selection whose grace is over and
      whose selected row is in state selected under its own keys. */
  lemma LegacyClaimed(s: State, w: nat, scans: set<ScanId>, now: int, c: LegacyClaim)
    requires w !in s.legacy
    ensures var t := DoClaimLegacy(s, w, scans, now);
      w in t.legacy && t.legacy[w].done == {} &&
      (c in t.legacy[w].ready <==>
         && c.scan in scans && c.scan in s.db.scans && s.db.scans[c.scan].selected == Some(c.gen) && c.gen != ""
         && s.db.scans[c.scan].legacyCleanedAt == None
         && s.db.scans[c.scan].legacyCleanupAfter.Some? && s.db.scans[c.scan].legacyCleanupAfter.value <= now
         && c.state == Some(Selected) && c.lease == now + 5 * MINUTE
         && GenId(c.scan, c.gen) in s.db.gens && s.db.gens[GenId(c.scan, c.gen)].state == Selected
         && c.rawKey == s.db.gens[GenId(c.scan, c.gen)].raw.key == RawKey(GenId(c.scan, c.gen))
         && c.detailsKey == s.db.gens[GenId(c.scan, c.gen)].details.key == DetailsKey(GenId(c.scan, c.gen)))
  {
    hide GenerationRawResultKey, GenerationDetailsKey, Currents;
    var claims := ClaimLegacyScanCleanup(s.db, scans, now).1;
    assert c in claims <==> c.scan in scans && LegacyDue(s.db, c.scan, now) && c == ClaimOf(s.db, c.scan, now + CLEANUP_LEASE);
  }
}
