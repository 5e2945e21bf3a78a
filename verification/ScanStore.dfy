/** The scan and generation tables and the object store as one mutable object. Each method
    performs one transaction statement by statement; its contract is the transaction's
    function on the rows.
 */
module ScanStore {
  import opened Options
  import opened Strings
  import opened ScanDb
  import opened ScanProtocol

  // ---------------------------------------------------------------------
  // Requested architectures
  // ---------------------------------------------------------------------

  /** The non-empty names in order of first occurrence. */
  function FirstOccurrences(archs: seq<string>): seq<string> {
    if archs == [] then []
    else
      var before, arch := FirstOccurrences(archs[..|archs| - 1]), archs[|archs| - 1];
      if arch == "" || arch in before then before else before + [arch]
  }

  lemma {:induction false} FirstOccurrencesMeaning(archs: seq<string>)
    ensures Distinct(FirstOccurrences(archs))
    ensures forall a :: a in FirstOccurrences(archs) <==> a in archs && a != ""
  {
    if archs != [] {
      var init, arch := archs[..|archs| - 1], archs[|archs| - 1];
      FirstOccurrencesMeaning(init);
      assert archs == init + [arch];
    }
  }

  method UniqueArchitectures(archs: seq<string>) returns (result: seq<string>)
    ensures result == FirstOccurrences(archs)
  {
    var seen: set<string> := {};
    result := [];
    for i := 0 to |archs|
      invariant result == FirstOccurrences(archs[..i])
      invariant seen == Elems(result)
    {
      assert archs[..i + 1][..i] == archs[..i];
      var arch := archs[i];
      if arch != "" && arch !in seen {
        seen := seen + {arch};
        result := result + [arch];
      }
    }
    assert archs[..|archs|] == archs;
  }

  // ---------------------------------------------------------------------
  // The store
  // ---------------------------------------------------------------------

  datatype PublishError = InvalidCandidate | StaleGeneration | Failure

  datatype Result<+T> = Ok(value: T) | Err(error: PublishError)

  function ScansOf(digest: string, archs: seq<string>): set<ScanId> {
    set a | a in archs :: ScanId(digest, a)
  }

  class ScanTables {
    var scans: map<ScanId, ScanRow>
    var gens: map<GenId, GenRow>
    var objects: map<string, string>

    constructor ()
      ensures Rows() == Db(map[], map[]) && objects == map[]
    {
      scans, gens, objects := map[], map[], map[];
    }

    function Rows(): Db
      reads this
    {
      Db(scans, gens)
    }

    /** INSERT ... ON CONFLICT DO NOTHING, for every requested architecture. */
    method InsertQueued(digest: string, archs: seq<string>, now: int)
      modifies this`scans
      ensures scans.Keys == old(scans).Keys + ScansOf(digest, archs)
      ensures forall k :: k in scans ==> scans[k] == RowOrQueued(old(Rows()), k, now)
    {
      for i := 0 to |archs|
        invariant scans.Keys == old(scans).Keys + ScansOf(digest, archs[..i])
        invariant forall k :: k in scans ==> scans[k] == RowOrQueued(old(Rows()), k, now)
      {
        var k := ScanId(digest, archs[i]);
        assert ScansOf(digest, archs[..i + 1]) == ScansOf(digest, archs[..i]) + {k};
        if k !in scans {
          scans := scans[k := NewScan(Queued, None, now)];
        }
      }
      assert archs[..|archs|] == archs;
    }

    /** UPDATE ... WHERE digest = ... AND arch = ANY (...) AND guard, row by row; affected
        counts the rows that qualified. */
    method UpdateWhere(digest: string, archs: seq<string>, guard: ScanRow -> bool, change: ScanRow -> ScanRow) returns (affected: nat)
      requires Distinct(archs)
      modifies this`scans
      ensures scans == Updated(old(scans), digest, Elems(archs), guard, change)
      ensures affected <= |archs|
      ensures affected == |archs| <==> AllMatch(old(scans), digest, archs, guard)
      ensures affected == Count(old(scans), digest, archs, guard)
    {
      affected := 0;
      ghost var before := scans;
      UpdateNone(before, digest, guard, change);
      hide *;
      assert archs[..0] == [];
      for i := 0 to |archs|
        invariant scans == Updated(before, digest, Elems(archs[..i]), guard, change)
        invariant affected == Count(before, digest, archs[..i], guard)
      {
        var k := ScanId(digest, archs[i]);
        UpdateStep(before, digest, archs, i, guard, change);
        if k in scans {
          if guard(scans[k]) {
            scans := scans[k := change(scans[k])];
            affected := affected + 1;
          }
        }
      }
      assert archs[..|archs|] == archs;
      CountAll(before, digest, archs, guard);
    }

    /** Claims every requested architecture for the generation, or rolls back. */
    method ClaimGeneration(digest: string, requested: seq<string>, gen: string, now: int, staleThreshold: int) returns (r: Result<bool>)
      modifies this`scans
      ensures digest == "" || gen == "" || FirstOccurrences(requested) == [] ==> r.Err? && Rows() == old(Rows())
      ensures digest != "" && gen != "" && FirstOccurrences(requested) != [] ==>
        r.Ok? && (Rows(), r.value) == ClaimScanGeneration(old(Rows()), digest, Elems(FirstOccurrences(requested)), gen, now, staleThreshold)
    {
      var archs := UniqueArchitectures(requested);
      if digest == "" || gen == "" || |archs| == 0 {
        return Err(Failure);
      }
      FirstOccurrencesMeaning(requested);
      var saved := scans;
      InsertQueued(digest, archs, now);
      ghost var inserted := scans;
      var affected := UpdateWhere(digest, archs, ClaimGuard(now, staleThreshold), ClaimChange(gen, now));
      ClaimedAll(old(Rows()), inserted, digest, archs, gen, now, staleThreshold);
      if affected != |archs| {
        scans := saved;
        return Ok(false);
      }
      return Ok(true);
    }

    /** Gives every requested row that is running unowned, or owned already, to the
        generation; rolls back when one is neither. */
    method AdoptGeneration(digest: string, requested: seq<string>, gen: string) returns (r: Result<()>)
      modifies this`scans
      ensures digest == "" || gen == "" || FirstOccurrences(requested) == [] ==> r == Err(Failure) && Rows() == old(Rows())
      ensures digest != "" && gen != "" && FirstOccurrences(requested) != [] ==>
        (Rows(), r.Ok?) == AdoptLegacyScanGeneration(old(Rows()), digest, Elems(FirstOccurrences(requested)), gen)
    {
      var archs := UniqueArchitectures(requested);
      if digest == "" || gen == "" || |archs| == 0 {
        return Err(Failure);
      }
      FirstOccurrencesMeaning(requested);
      var saved := scans;
      var affected := UpdateWhere(digest, archs, AdoptGuard(gen), AdoptChange(gen));
      AdoptedAll(old(Rows()), digest, archs, gen);
      if affected != |archs| {
        scans := saved;
        return Err(StaleGeneration);
      }
      return Ok(());
    }

    /** Requeues the requested rows still running for the generation, or for none when it
        is empty. */
    method RequeueGeneration(digest: string, requested: seq<string>, gen: string, now: int) returns (r: Result<nat>)
      modifies this`scans
      ensures digest == "" || FirstOccurrences(requested) == [] ==> r.Err? && Rows() == old(Rows())
      ensures digest != "" && FirstOccurrences(requested) != [] ==>
        var owner, archs := if gen == "" then None else Some(gen), FirstOccurrences(requested);
        r == Ok(Count(old(scans), digest, archs, RequeueGuard(owner))) && Rows() == RequeueScanGeneration(old(Rows()), digest, Elems(archs), owner, now)
    {
      var archs := UniqueArchitectures(requested);
      if digest == "" || |archs| == 0 {
        return Err(Failure);
      }
      FirstOccurrencesMeaning(requested);
      var owner := if gen == "" then None else Some(gen);
      var affected := UpdateWhere(digest, archs, RequeueGuard(owner), RequeueChange(now));
      RequeuedAll(old(Rows()), digest, archs, owner, now);
      return Ok(affected);
    }

    /** INSERT ... ON CONFLICT DO UPDATE. */
    method SetRunning(k: ScanId, gen: string, now: int) returns (r: Result<()>)
      modifies this`scans
      ensures gen == "" ==> r.Err? && Rows() == old(Rows())
      ensures gen != "" ==> r.Ok? && Rows() == SetScanStatusRunning(old(Rows()), k, gen, now)
    {
      if gen == "" {
        return Err(Failure);
      }
      if k !in scans {
        scans := scans[k := NewScan(Running, Some(gen), now)];
      } else {
        scans := scans[k := scans[k].(status := Running, statusUpdatedAt := Some(now), current := Some(gen))];
      }
      return Ok(());
    }

    /** Records a result other than success, for the generation that still owns the scan, or
        without a generation when no claimed run is active. */
    method SetStatus(k: ScanId, gen: string, status: Status, now: int) returns (r: Result<()>)
      modifies this`scans
      ensures (Rows(), r.Ok?) == ReportStatus(old(Rows()), k, gen, status, now)
    {
      if gen != "" {
        if k !in scans {
          return Err(StaleGeneration);
        }
        var row := scans[k];
        if row.current == None || row.current.value != gen {
          return Err(StaleGeneration);
        }
        if row.selected.Some? && row.selected.value == gen && row.status == Succeeded {
          return Ok(());
        }
        scans := scans[k := row.(status := status, statusUpdatedAt := Some(now))];
        return Ok(());
      }
      if k !in scans {
        scans := scans[k := NewScan(status, None, now)];
        return Ok(());
      }
      if scans[k].status != Running || scans[k].current == None {
        scans := scans[k := scans[k].(status := status, statusUpdatedAt := Some(now))];
        return Ok(());
      }
      return Err(StaleGeneration);
    }

    // -------------------------------------------------------------------
    // Publication
    // -------------------------------------------------------------------

    /** INSERT ... ON CONFLICT DO NOTHING, then check the stored row and renew its lease. */
    method EnsureCandidate(c: Candidate, now: int) returns (r: Result<GenState>)
      modifies this`gens
      ensures var (after, state) := EnsureScanCandidate(old(Rows()), c, now);
        Rows() == after && (if state.Some? then r == Ok(state.value) else r.Err?)
    {
      var saved := gens;
      if c.id !in gens {
        gens := gens[c.id := GenRow(Uploading, c.raw.meta, c.details.meta, Some(now + PUBLICATION_LEASE))];
      }
      var stored := gens[c.id];
      if stored.state == Deleting {
        gens := saved;
        return Err(InvalidCandidate);
      }
      if stored.state == Superseded {
        gens := saved;
        return Err(StaleGeneration);
      }
      if stored.raw != c.raw.meta || stored.details != c.details.meta {
        gens := saved;
        return Err(InvalidCandidate);
      }
      if stored.state == Uploading || stored.state == FailedUpload || stored.state == Validated {
        gens := gens[c.id := stored.(cleanupAfter := Some(now + PUBLICATION_LEASE))];
      }
      return Ok(stored.state);
    }

    /** The guarded update, and the state found instead when it does not apply. */
    method MarkState(id: GenId, state: GenState, now: int) returns (r: Result<GenState>)
      modifies this`gens
      ensures Rows() == MarkScanCandidate(old(Rows()), id, state, now).0
      ensures MarkScanCandidate(old(Rows()), id, state, now).1 ==> r == Ok(state)
      ensures !MarkScanCandidate(old(Rows()), id, state, now).1 ==>
        if id in gens && gens[id].state in {Validated, Selected} then r == Ok(gens[id].state) else r.Err?
    {
      if id in gens && gens[id].state in {Uploading, FailedUpload} {
        var cleanupAfter := if state == Selected then None else Some(now + CLEANUP_RETENTION);
        gens := gens[id := gens[id].(state := state, cleanupAfter := cleanupAfter)];
        return Ok(state);
      }
      if id !in gens {
        return Err(Failure);
      }
      match gens[id].state
      case Validated => return Ok(Validated);
      case Selected => return Ok(Selected);
      case Superseded => return Err(StaleGeneration);
      case _ => return Err(InvalidCandidate);
    }

    /** Checks ownership and state, then points the scan at the generation, retires the
        previous one and marks the new one, or rolls back. */
    method SelectCandidate(id: GenId, parsed: string, now: int, sbomRowExists: bool) returns (r: Result<()>)
      modifies this`scans, this`gens
      ensures Rows() == SelectScanCandidate(old(Rows()), id, parsed, now, sbomRowExists).0
      ensures r.Ok? <==> SelectScanCandidate(old(Rows()), id, parsed, now, sbomRowExists).1 != Refused
    {
      if id.scan !in scans {
        return Err(StaleGeneration);
      }
      var current := if scans[id.scan].current.Some? then scans[id.scan].current.value else "";
      var selected := scans[id.scan].selected;
      if scans[id.scan].current == None || current != id.gen {
        return Err(StaleGeneration);
      }
      if id !in gens {
        return Err(Failure);
      }
      var state := gens[id].state;
      if state != Validated && state != Selected {
        return Err(InvalidCandidate);
      }
      if selected == Some(id.gen) && state == Selected {
        return Ok(());
      }
      var saved := scans;
      scans := scans[id.scan := SelectedRow(scans[id.scan], id.gen, parsed, now)];
      if !sbomRowExists {
        scans := saved;
        return Err(Failure);
      }
      if selected.Some? && selected.value != id.gen {
        gens := Supersede(gens, GenId(id.scan, selected.value), now);
      }
      gens := gens[id := gens[id].(state := Selected, cleanupAfter := None)];
      return Ok(());
    }

    method PutObject(a: Artifact, outcome: PutOutcome) returns (ok: bool)
      modifies this`objects
      ensures objects == if outcome == FailedLost then old(objects) else Store(old(objects), a)
      ensures ok <==> outcome == Stored
    {
      if outcome != FailedLost {
        objects := objects[a.meta.key := a.compressed];
      }
      ok := outcome == Stored;
    }

    /** Uploads both objects and marks the candidate validated; a failed upload marks it
        failed, unless another publisher has validated it meanwhile. */
    method UploadAndValidate(c: Candidate, state: GenState, rawPut: PutOutcome, detailsPut: PutOutcome, now: int) returns (ok: bool)
      requires state in {Validated, Selected, Uploading, FailedUpload}
      modifies this`gens, this`objects
      ensures var (after, stored, ready) := Uploaded(old(Rows()), old(objects), c, state, rawPut, detailsPut, now);
        Rows() == after && objects == stored && ok == ready
    {
      if state == Validated || state == Selected {
        return true;
      }
      var target := Validated;
      var stored := PutObject(c.raw, rawPut);
      if stored {
        stored := PutObject(c.details, detailsPut);
      }
      if !stored {
        target := FailedUpload;
      }
      var marked := MarkState(c.id, target, now);
      ok := marked.Ok? && marked.value != FailedUpload;
    }

    /** A publication that no other worker interleaves with is the run of one publisher. */
    method PublishSuccessfulScan(cfg: Config, p: Params, rawPut: PutOutcome, detailsPut: PutOutcome,
                                 ensuredAt: int, markedAt: int, selectedAt: int, sbomRowExists: bool) returns (r: Result<()>)
      modifies this
      ensures var t := Run(cfg, Alone(old(Rows()), old(objects), p.id), Publication(p, rawPut, detailsPut, ensuredAt, markedAt, selectedAt, sbomRowExists));
        Rows() == t.db && objects == t.objects
      ensures r.Ok? ==> IsCurrent(Rows(), p.id) && IsSelected(Rows(), p.id) && p.id in gens && gens[p.id].state == Selected
    {
      PublicationRun(cfg, Rows(), objects, p, rawPut, detailsPut, ensuredAt, markedAt, selectedAt, sbomRowExists);
      hide Run, Publication, Alone, NewScanCandidate, Uploaded, EnsureScanCandidate, SelectScanCandidate, IsCurrent, IsSelected;
      var c := NewScanCandidate(cfg, p);
      if c == None {
        return Err(InvalidCandidate);
      }
      EnsuredState(Rows(), c.value, ensuredAt);
      var ensured := EnsureCandidate(c.value, ensuredAt);
      if ensured.Err? {
        return Err(ensured.error);
      }
      var ready := UploadAndValidate(c.value, ensured.value, rawPut, detailsPut, markedAt);
      if !ready {
        return Err(Failure);
      }
      SelectionHolds(Rows(), p.id, p.parsed, selectedAt, sbomRowExists);
      r := SelectCandidate(p.id, p.parsed, selectedAt, sbomRowExists);
    }

    // -------------------------------------------------------------------
    // Candidate cleanup
    // -------------------------------------------------------------------

    /** UPDATE ... FROM unnest, over the listed generations. */
    method UpdateGenerations(ids: seq<GenId>, state: GenState, cleanupAfter: Option<int>)
      modifies this`gens
      ensures gens == WithState(old(gens), Elems(ids), state, cleanupAfter)
    {
      ghost var before := gens;
      assert Elems(ids[..0]) == {};
      NoState(before, state, cleanupAfter);
      hide WithState;
      for i := 0 to |ids|
        invariant gens == WithState(before, Elems(ids[..i]), state, cleanupAfter)
      {
        assert Elems(ids[..i + 1]) == Elems(ids[..i]) + {ids[i]};
        hide Elems;
        StateStep(before, Elems(ids[..i]), ids[i], state, cleanupAfter);
        if ids[i] in gens {
          gens := gens[ids[i] := gens[ids[i]].(state := state, cleanupAfter := cleanupAfter)];
        }
      }
      assert ids[..|ids|] == ids;
    }

    method Revoke(ids: seq<GenId>)
      modifies this`scans
      ensures scans == WithoutCurrent(old(scans), Elems(ids))
    {
      ghost var before := scans;
      assert Elems(ids[..0]) == {};
      for i := 0 to |ids|
        invariant scans == WithoutCurrent(before, Elems(ids[..i]))
      {
        assert Elems(ids[..i + 1]) == Elems(ids[..i]) + {ids[i]};
        hide Elems;
        var k := ids[i].scan;
        if k in scans && scans[k].current == Some(ids[i].gen) {
          scans := scans[k := scans[k].(current := None)];
        }
      }
      assert ids[..|ids|] == ids;
    }

    /** Sorts the locked rows into selected, protected and deletable ones, then repairs the
        first, revokes the scans of the last and marks those deleting under one lease. */
    method ClaimDeletions(visible: seq<GenId>, now: int) returns (deletions: seq<Deletion>, protected: nat)
      requires Elems(visible) <= gens.Keys
      modifies this`scans, this`gens
      ensures (Rows(), Elems(deletions)) == ClaimScanCandidateDeletions(old(Rows()), Elems(visible), now)
      ensures |deletions| + protected == |visible|
    {
      var lease := now + CLEANUP_LEASE;
      var selected, revoke, doomed: seq<GenId> := [], [], [];
      deletions, protected := [], 0;
      ghost var before := Rows();
      for i := 0 to |visible|
        invariant Rows() == before
        invariant Classified(before, visible[..i], now, selected, revoke, doomed, deletions)
        invariant |deletions| + protected == i
      {
        var id := visible[i];
        assert id in Elems(visible);
        assert visible[..i + 1] == visible[..i] + [id];
        ClassifyStep(before, visible[..i], now, selected, revoke, doomed, deletions, id);
        hide Classified;
        if IsSelected(Rows(), id) {
          selected := selected + [id];
          protected := protected + 1;
        } else if gens[id].state == Selected || gens[id].cleanupAfter == None || gens[id].cleanupAfter.value > now {
          protected := protected + 1;
        } else {
          deletions := deletions + [Deletion(id, gens[id].raw.key, gens[id].details.key, lease)];
          doomed := doomed + [id];
          if IsCurrent(Rows(), id) {
            revoke := revoke + [id];
          }
        }
      }
      assert visible[..|visible|] == visible;
      ClaimComposed(before, visible, now, selected, revoke, doomed, deletions);
      hide Classified, ClaimScanCandidateDeletions, WithState, WithoutCurrent;
      UpdateGenerations(selected, Selected, None);
      Revoke(revoke);
      UpdateGenerations(doomed, Deleting, Some(lease));
    }

    // -------------------------------------------------------------------
    // Legacy cleanup
    // -------------------------------------------------------------------

    /** Deletes the legacy objects of the valid claims and completes those; a bulk deletion
        that fails part way removes some of them and completes nothing. */
    method DeleteLegacyBatch(candidates: seq<LegacyClaim>, deleted: bool, part: set<string>, now: int) returns (ok: bool)
      modifies this`scans, this`objects
      ensures var ready := Valid(Elems(candidates));
        && Rows() == (if ready != {} && deleted then CompleteLegacyScanCleanup(old(Rows()), ready, now) else old(Rows()))
        && objects == old(objects) - (if deleted then LegacyKeys(ready) else LegacyKeys(ready) * part)
      ensures ok ==> (deleted || candidates == []) && forall c | c in candidates :: ValidReplacement(c)
    {
      var ready, keys, failed := CollectReady(candidates);
      NoneReady(candidates);
      CompletionKeepsGenerations(Rows(), ready, now);
      hide Valid, LegacyKeys, CompleteLegacyScanCleanup, ValidReplacement;
      if ready == {} {
        assert objects - {} == objects;
        return !failed;
      }
      if !deleted {
        objects := objects - (keys * part);
        return false;
      }
      objects := objects - keys;
      scans := CompleteLegacyScanCleanup(Rows(), ready, now).scans;
      return !failed;
    }

    /** Removes the rows that still carry their claim's lease; returns how many went. */
    method DeleteMetadata(deletions: seq<Deletion>) returns (removed: nat)
      modifies this`gens
      ensures Rows() == DeleteScanCandidateMetadata(old(Rows()), Elems(deletions))
      ensures removed == |old(gens)| - |gens|
    {
      ghost var before := Rows();
      removed := 0;
      NothingRemoved(before);
      hide *;
      assert deletions[..0] == [];
      for i := 0 to |deletions|
        invariant Db(scans, gens) == DeleteScanCandidateMetadata(before, Elems(deletions[..i]))
        invariant removed + |gens| == |before.gens|
      {
        var d := deletions[i];
        RemovalStep(before, deletions, i);
        var goes := Removable(Db(scans, gens), d);
        if goes {
          gens := gens - {d.id};
          removed := removed + 1;
        }
      }
      assert deletions[..|deletions|] == deletions;
    }
  }

  /** The legacy objects of the scans of these claims. */
  function LegacyKeys(claims: set<LegacyClaim>): set<string> {
    (set c | c in claims :: LegacyKey(c.scan, false)) + (set c | c in claims :: LegacyKey(c.scan, true))
  }

  function Valid(claims: set<LegacyClaim>): set<LegacyClaim> {
    set c | c in claims && ValidReplacement(c)
  }

  lemma NoneReady(candidates: seq<LegacyClaim>)
    ensures Valid(Elems(candidates)) == {} && (forall c | c in candidates :: ValidReplacement(c)) ==> candidates == []
    ensures LegacyKeys({}) == {}
  {
    hide ValidReplacement;
    if candidates != [] {
      assert candidates[0] in candidates && candidates[0] in Elems(candidates);
      assert ValidReplacement(candidates[0]) ==> candidates[0] in Valid(Elems(candidates));
    }
  }

  lemma CompletionKeepsGenerations(db: Db, claims: set<LegacyClaim>, now: int)
    ensures CompleteLegacyScanCleanup(db, claims, now).gens == db.gens
  {
  }

  lemma OneMoreClaim(claims: set<LegacyClaim>, c: LegacyClaim)
    ensures Valid(claims + {c}) == Valid(claims) + if ValidReplacement(c) then {c} else {}
    ensures LegacyKeys(claims + {c}) == LegacyKeys(claims) + {LegacyKey(c.scan, false), LegacyKey(c.scan, true)}
  {
    hide ValidReplacement, LegacyKey;
  }

  lemma NoClaims()
    ensures Valid(Elems([])) == {} && LegacyKeys({}) == {}
  {
  }

  /** The claims that pass validation and the keys of their legacy objects. */
  method CollectReady(candidates: seq<LegacyClaim>) returns (ready: set<LegacyClaim>, keys: set<string>, failed: bool)
    ensures ready == Valid(Elems(candidates)) && keys == LegacyKeys(ready)
    ensures !failed ==> forall c | c in candidates :: ValidReplacement(c)
  {
    ready, keys, failed := {}, {}, false;
    NoClaims();
    hide ValidReplacement, LegacyKey, Valid, LegacyKeys;
    assert candidates[..0] == [];
    for i := 0 to |candidates|
      invariant ready == Valid(Elems(candidates[..i])) && keys == LegacyKeys(ready)
      invariant !failed ==> forall j | 0 <= j < i :: ValidReplacement(candidates[j])
    {
      var c := candidates[i];
      assert Elems(candidates[..i + 1]) == Elems(candidates[..i]) + {c};
      OneMoreClaim(Elems(candidates[..i]), c);
      OneMoreClaim(ready, c);
      if !ValidReplacement(c) {
        failed := true;
        continue;
      }
      ready := ready + {c};
      keys := keys + {LegacyKey(c.scan, false), LegacyKey(c.scan, true)};
    }
    assert candidates[..|candidates|] == candidates;
  }

  // ---------------------------------------------------------------------
  // A publication on its own
  // ---------------------------------------------------------------------

  function Alone(db: Db, objects: map<string, string>, id: GenId): State {
    State(db, objects, {id}, map[], map[], map[])
  }

  /** The steps of one publisher; those it skips are not enabled and change nothing. */
  function Publication(p: Params, rawPut: PutOutcome, detailsPut: PutOutcome,
                       ensuredAt: int, markedAt: int, selectedAt: int, sbomRowExists: bool): seq<Action> {
    [BeginPublish(0, p), Ensure(0, ensuredAt), Put(0, rawPut), Put(0, detailsPut), Mark(0, markedAt), Reread(0), Select(0, selectedAt, sbomRowExists)]
  }

  /** Rows and objects after the upload, and whether the candidate is ready to be selected. */
  function Uploaded(db: Db, objects: map<string, string>, c: Candidate, state: GenState, rawPut: PutOutcome, detailsPut: PutOutcome, now: int)
    : (Db, map<string, string>, bool)
  {
    if state in {Validated, Selected} then (db, objects, true)
    else
      var withRaw := if rawPut == FailedLost then objects else Store(objects, c.raw);
      var withBoth := if rawPut != Stored || detailsPut == FailedLost then withRaw else Store(withRaw, c.details);
      var target := if rawPut == Stored && detailsPut == Stored then Validated else FailedUpload;
      var (after, marked) := MarkScanCandidate(db, c.id, target, now);
      (after, withBoth, if marked then target == Validated else c.id in db.gens && db.gens[c.id].state in {Validated, Selected})
  }

  /** A selection not refused leaves the generation current and selected. */
  lemma SelectionHolds(db: Db, id: GenId, parsed: string, now: int, sbomRowExists: bool)
    ensures var (after, outcome) := SelectScanCandidate(db, id, parsed, now, sbomRowExists);
      outcome != Refused ==> IsCurrent(after, id) && IsSelected(after, id) && id in after.gens && after.gens[id].state == Selected
  {
  }

  lemma EnsuredState(db: Db, c: Candidate, now: int)
    ensures EnsureScanCandidate(db, c, now).1.Some? ==> EnsureScanCandidate(db, c, now).1.value in {Validated, Selected, Uploading, FailedUpload}
  {
  }

  /** The machine with this publisher only. */
  function One(db: Db, objects: map<string, string>, id: GenId, p: Publisher): State {
    State(db, objects, {id}, map[0 := p], map[], map[])
  }

  lemma Moved(db: Db, objects: map<string, string>, id: GenId, p: Publisher, after: Db, stored: map<string, string>, phase: Phase)
    ensures To(One(db, objects, id, p).(db := after, objects := stored), 0, phase) == One(after, stored, id, p.(phase := phase))
  {
  }

  lemma BeginAlone(cfg: Config, db: Db, objects: map<string, string>, p: Params)
    ensures Apply(cfg, Alone(db, objects, p.id), BeginPublish(0, p)) ==
      if NewScanCandidate(cfg, p) == None then Alone(db, objects, p.id)
      else One(db, objects, p.id, Publisher(NewScanCandidate(cfg, p).value, p.parsed, Ensuring))
    ensures NewScanCandidate(cfg, p).Some? ==> NewScanCandidate(cfg, p).value.id == p.id
  {
    var c := NewScanCandidate(cfg, p);
    if c.Some? {
      var q := Publisher(c.value, p.parsed, Ensuring);
      assert map[][0 := q] == map[0 := q];
    }
  }

  lemma EnsureAlone(cfg: Config, db: Db, objects: map<string, string>, id: GenId, p: Publisher, now: int)
    requires p.phase == Ensuring
    ensures var (after, state) := EnsureScanCandidate(db, p.candidate, now);
      Apply(cfg, One(db, objects, id, p), Ensure(0, now)) == One(after, objects, id, p.(phase := AfterEnsure(state)))
  {
    hide EnsureScanCandidate, AfterEnsure;
    var (after, state) := EnsureScanCandidate(db, p.candidate, now);
    Moved(db, objects, id, p, after, objects, AfterEnsure(state));
  }

  lemma PutAlone(cfg: Config, db: Db, objects: map<string, string>, id: GenId, p: Publisher, outcome: PutOutcome)
    ensures Apply(cfg, One(db, objects, id, p), Put(0, outcome)) ==
      if p.phase == PuttingRaw then
        One(db, if outcome == FailedLost then objects else Store(objects, p.candidate.raw), id,
            p.(phase := if outcome == Stored then PuttingDetails else Marking(FailedUpload)))
      else if p.phase == PuttingDetails then
        One(db, if outcome == FailedLost then objects else Store(objects, p.candidate.details), id,
            p.(phase := if outcome == Stored then Marking(Validated) else Marking(FailedUpload)))
      else One(db, objects, id, p)
  {
    var t := Apply(cfg, One(db, objects, id, p), Put(0, outcome));
    Moved(db, objects, id, p, db, t.objects, t.publishers[0].phase);
  }

  lemma MarkAlone(cfg: Config, db: Db, objects: map<string, string>, id: GenId, p: Publisher, now: int)
    ensures Apply(cfg, One(db, objects, id, p), Mark(0, now)) ==
      if p.phase.Marking? then
        var (after, marked) := MarkScanCandidate(db, p.candidate.id, p.phase.target, now);
        One(after, objects, id, p.(phase := if !marked then Rereading(p.phase.target) else if p.phase.target == Validated then Selecting else Finished))
      else One(db, objects, id, p)
  {
    hide MarkScanCandidate;
    var t := Apply(cfg, One(db, objects, id, p), Mark(0, now));
    Moved(db, objects, id, p, t.db, objects, t.publishers[0].phase);
  }

  lemma RereadAlone(cfg: Config, db: Db, objects: map<string, string>, id: GenId, p: Publisher)
    ensures Apply(cfg, One(db, objects, id, p), Reread(0)) ==
      if p.phase.Rereading? then
        One(db, objects, id,
            p.(phase := if p.candidate.id in db.gens && db.gens[p.candidate.id].state in {Validated, Selected} then Selecting else Finished))
      else One(db, objects, id, p)
  {
    var t := Apply(cfg, One(db, objects, id, p), Reread(0));
    Moved(db, objects, id, p, db, objects, t.publishers[0].phase);
  }

  lemma SelectAlone(cfg: Config, db: Db, objects: map<string, string>, id: GenId, p: Publisher, now: int, sbomRowExists: bool)
    ensures var t := Apply(cfg, One(db, objects, id, p), Select(0, now, sbomRowExists));
      t.objects == objects
      && t.db == if p.phase == Selecting then SelectScanCandidate(db, p.candidate.id, p.parsed, now, sbomRowExists).0 else db
  {
    hide SelectScanCandidate;
  }

  /** The four upload steps of a publisher past its ensure step. */
  lemma UploadAlone(cfg: Config, db: Db, objects: map<string, string>, p: Publisher, state: GenState, rawPut: PutOutcome, detailsPut: PutOutcome, now: int)
    requires p.phase == AfterEnsure(Some(state))
    ensures var (after, stored, ready) := Uploaded(db, objects, p.candidate, state, rawPut, detailsPut, now);
      FourSteps(cfg, One(db, objects, p.candidate.id, p), rawPut, detailsPut, now)
      == One(after, stored, p.candidate.id, p.(phase := if ready then Selecting else Finished))
  {
    hide Apply, MarkScanCandidate, One, Store;
    var id := p.candidate.id;
    PutAlone(cfg, db, objects, id, p, rawPut);
    var raw := if rawPut == FailedLost then objects else Store(objects, p.candidate.raw);
    if p.phase == PuttingRaw {
      var q := p.(phase := if rawPut == Stored then PuttingDetails else Marking(FailedUpload));
      PutAlone(cfg, db, raw, id, q, detailsPut);
      var both := if rawPut != Stored || detailsPut == FailedLost then raw else Store(raw, p.candidate.details);
      var target := if rawPut == Stored && detailsPut == Stored then Validated else FailedUpload;
      MarkAlone(cfg, db, both, id, p.(phase := Marking(target)), now);
      var (after, marked) := MarkScanCandidate(db, id, target, now);
      NotMarked(db, id, target, now);
      RereadAlone(cfg, after, both, id, p.(phase := if !marked then Rereading(target) else if target == Validated then Selecting else Finished));
    } else {
      PutAlone(cfg, db, objects, id, p, detailsPut);
      MarkAlone(cfg, db, objects, id, p, now);
      RereadAlone(cfg, db, objects, id, p);
    }
  }

  function FourSteps(cfg: Config, s: State, rawPut: PutOutcome, detailsPut: PutOutcome, now: int): State {
    Apply(cfg, Apply(cfg, Apply(cfg, Apply(cfg, s, Put(0, rawPut)), Put(0, detailsPut)), Mark(0, now)), Reread(0))
  }

  lemma NotMarked(db: Db, id: GenId, target: GenState, now: int)
    ensures !MarkScanCandidate(db, id, target, now).1 ==> MarkScanCandidate(db, id, target, now).0 == db
  {
  }

  /** A publisher that is rejected or was never begun takes no further step. */
  lemma IdleAlone(cfg: Config, s: State, ensuredAt: int, rawPut: PutOutcome, detailsPut: PutOutcome, now: int, selectedAt: int, sbomRowExists: bool)
    requires 0 !in s.publishers || s.publishers[0].phase == Rejected
    ensures Apply(cfg, s, Ensure(0, ensuredAt)) == s && FourSteps(cfg, s, rawPut, detailsPut, now) == s
    ensures Apply(cfg, s, Select(0, selectedAt, sbomRowExists)) == s
  {
    hide Apply;
    IdleStep(cfg, s, Put(0, rawPut));
    IdleStep(cfg, s, Put(0, detailsPut));
    IdleStep(cfg, s, Mark(0, now));
    IdleStep(cfg, s, Reread(0));
    IdleStep(cfg, s, Ensure(0, ensuredAt));
    IdleStep(cfg, s, Select(0, selectedAt, sbomRowExists));
  }

  lemma IdleStep(cfg: Config, s: State, a: Action)
    requires 0 !in s.publishers || s.publishers[0].phase == Rejected
    requires (a.Ensure? || a.Put? || a.Mark? || a.Reread? || a.Select?) && a.w == 0
    ensures Apply(cfg, s, a) == s
  {
  }

  /** What the steps of a lone publisher amount to. */
  lemma PublicationRun(cfg: Config, db: Db, objects: map<string, string>, p: Params, rawPut: PutOutcome, detailsPut: PutOutcome,
                       ensuredAt: int, markedAt: int, selectedAt: int, sbomRowExists: bool)
    ensures var t := Run(cfg, Alone(db, objects, p.id), Publication(p, rawPut, detailsPut, ensuredAt, markedAt, selectedAt, sbomRowExists));
      var c := NewScanCandidate(cfg, p);
      if c == None then t.db == db && t.objects == objects
      else
        && c.value.id == p.id
        && var (ensured, state) := EnsureScanCandidate(db, c.value, ensuredAt);
        if state == None then t.db == ensured && t.objects == objects
        else
          var (after, stored, ready) := Uploaded(ensured, objects, c.value, state.value, rawPut, detailsPut, markedAt);
          t.objects == stored
          && t.db == if ready then SelectScanCandidate(after, p.id, p.parsed, selectedAt, sbomRowExists).0 else after
  {
    var s0 := Alone(db, objects, p.id);
    SevenSteps(cfg, s0, p, rawPut, detailsPut, ensuredAt, markedAt, selectedAt, sbomRowExists);
    BeginAlone(cfg, db, objects, p);
    hide Apply, FourSteps, Run, Publication, NewScanCandidate, EnsureScanCandidate, Uploaded, SelectScanCandidate, Store;
    var c := NewScanCandidate(cfg, p);
    if c == None {
      IdleAlone(cfg, s0, ensuredAt, rawPut, detailsPut, markedAt, selectedAt, sbomRowExists);
    } else {
      var pub := Publisher(c.value, p.parsed, Ensuring);
      EnsureAlone(cfg, db, objects, p.id, pub, ensuredAt);
      var (ensured, state) := EnsureScanCandidate(db, c.value, ensuredAt);
      var next := pub.(phase := AfterEnsure(state));
      if state == None {
        IdleAlone(cfg, One(ensured, objects, p.id, next), ensuredAt, rawPut, detailsPut, markedAt, selectedAt, sbomRowExists);
      } else {
        UploadAlone(cfg, ensured, objects, next, state.value, rawPut, detailsPut, markedAt);
        var (after, stored, ready) := Uploaded(ensured, objects, c.value, state.value, rawPut, detailsPut, markedAt);
        SelectAlone(cfg, after, stored, p.id, next.(phase := if ready then Selecting else Finished), selectedAt, sbomRowExists);
      }
    }
  }

  /** A current generation whose row is absent, or left over from a failed attempt with the
      same results, is published when both uploads succeed. */
  lemma PublicationSucceeds(cfg: Config, db: Db, objects: map<string, string>, p: Params, ensuredAt: int, markedAt: int, selectedAt: int)
    requires IsCurrent(db, p.id) && NewScanCandidate(cfg, p).Some?
    requires var c := NewScanCandidate(cfg, p).value;
      p.id in db.gens ==> db.gens[p.id].state in {Uploading, FailedUpload} && db.gens[p.id].raw == c.raw.meta && db.gens[p.id].details == c.details.meta
    ensures var t := Run(cfg, Alone(db, objects, p.id), Publication(p, Stored, Stored, ensuredAt, markedAt, selectedAt, true));
      var c := NewScanCandidate(cfg, p).value;
      && t.db.scans == db.scans[p.id.scan := SelectedRow(db.scans[p.id.scan], p.id.gen, p.parsed, selectedAt)]
      && p.id in t.db.gens && t.db.gens[p.id] == GenRow(Selected, c.raw.meta, c.details.meta, None)
      && t.objects == Store(Store(objects, c.raw), c.details)
  {
    PublicationRun(cfg, db, objects, p, Stored, Stored, ensuredAt, markedAt, selectedAt, true);
    hide Run, Publication, Alone, NewScanCandidate, Store;
    var c := NewScanCandidate(cfg, p).value;
    BeginAlone(cfg, db, objects, p);
    if p.id in db.gens && db.scans[p.id.scan].selected == Some(p.id.gen) {
      assert db.gens[p.id].state != Selected;
    }
  }

  lemma SevenSteps(cfg: Config, s: State, p: Params, rawPut: PutOutcome, detailsPut: PutOutcome,
                   ensuredAt: int, markedAt: int, selectedAt: int, sbomRowExists: bool)
    ensures Run(cfg, s, Publication(p, rawPut, detailsPut, ensuredAt, markedAt, selectedAt, sbomRowExists)) ==
      Apply(cfg, FourSteps(cfg, Apply(cfg, Apply(cfg, s, BeginPublish(0, p)), Ensure(0, ensuredAt)), rawPut, detailsPut, markedAt),
            Select(0, selectedAt, sbomRowExists))
  {
    hide Apply;
    var steps := Publication(p, rawPut, detailsPut, ensuredAt, markedAt, selectedAt, sbomRowExists);
    var s1 := Apply(cfg, s, steps[0]);
    assert steps[1..] == [steps[1], steps[2], steps[3], steps[4], steps[5], steps[6]];
    var s2 := Apply(cfg, s1, steps[1]);
    assert steps[1..][1..] == [steps[2], steps[3], steps[4], steps[5], steps[6]];
    assert Run(cfg, s, steps) == Run(cfg, s2, [steps[2], steps[3], steps[4], steps[5], steps[6]]);
    FiveSteps(cfg, s2, steps[2], steps[3], steps[4], steps[5], steps[6]);
  }

  lemma FiveSteps(cfg: Config, s: State, a: Action, b: Action, c: Action, d: Action, e: Action)
    ensures Run(cfg, s, [a, b, c, d, e]) == Apply(cfg, Apply(cfg, Apply(cfg, Apply(cfg, Apply(cfg, s, a), b), c), d), e)
  {
    hide Apply;
    var t := Apply(cfg, Apply(cfg, s, a), b);
    assert [a, b, c, d, e][1..] == [b, c, d, e] && [b, c, d, e][1..] == [c, d, e];
    assert Run(cfg, s, [a, b, c, d, e]) == Run(cfg, t, [c, d, e]);
    assert [c, d, e][1..] == [d, e] && [d, e][1..] == [e] && [e][1..] == [];
    assert Run(cfg, t, [c, d, e]) == Run(cfg, Apply(cfg, Apply(cfg, t, c), d), [e]);
  }

  function WithState(gens: map<GenId, GenRow>, ids: set<GenId>, state: GenState, cleanupAfter: Option<int>): map<GenId, GenRow> {
    map id | id in gens :: if id in ids then gens[id].(state := state, cleanupAfter := cleanupAfter) else gens[id]
  }

  lemma NoState(gens: map<GenId, GenRow>, state: GenState, cleanupAfter: Option<int>)
    ensures WithState(gens, {}, state, cleanupAfter) == gens
  {
  }

  lemma StateStep(gens: map<GenId, GenRow>, ids: set<GenId>, id: GenId, state: GenState, cleanupAfter: Option<int>)
    ensures var before := WithState(gens, ids, state, cleanupAfter);
      WithState(gens, ids + {id}, state, cleanupAfter)
      == if id in before then before[id := before[id].(state := state, cleanupAfter := cleanupAfter)] else before
  {
  }

  function WithoutCurrent(scans: map<ScanId, ScanRow>, ids: set<GenId>): map<ScanId, ScanRow> {
    map k | k in scans ::
      if scans[k].current.Some? && GenId(k, scans[k].current.value) in ids then scans[k].(current := None) else scans[k]
  }

  /** The lists after the rows done: each holds exactly the rows of its verdict. */
  ghost predicate Classified(db: Db, done: seq<GenId>, now: int, selected: seq<GenId>, revoke: seq<GenId>, doomed: seq<GenId>, deletions: seq<Deletion>) {
    && Elems(done) <= db.gens.Keys
    && (forall id :: id in selected <==> id in done && Judge(db, id, now) == Reselect)
    && (forall id :: id in doomed <==> id in done && Judge(db, id, now) == Delete)
    && (forall id :: id in revoke <==> id in doomed && IsCurrent(db, id))
    && Elems(deletions) == ToDelete(db, Elems(done), now)
  }

  lemma ClassifyStep(db: Db, done: seq<GenId>, now: int, selected: seq<GenId>, revoke: seq<GenId>, doomed: seq<GenId>, deletions: seq<Deletion>, id: GenId)
    requires Classified(db, done, now, selected, revoke, doomed, deletions) && id in db.gens
    ensures Judge(db, id, now) == Reselect ==> Classified(db, done + [id], now, selected + [id], revoke, doomed, deletions)
    ensures Judge(db, id, now) == Protect ==> Classified(db, done + [id], now, selected, revoke, doomed, deletions)
    ensures Judge(db, id, now) == Delete ==>
      Classified(db, done + [id], now, selected, if IsCurrent(db, id) then revoke + [id] else revoke, doomed + [id],
                 deletions + [Deletion(id, db.gens[id].raw.key, db.gens[id].details.key, now + CLEANUP_LEASE)])
  {
    hide Judge, IsCurrent;
    assert Elems(done + [id]) == Elems(done) + {id};
    var d := Deletion(id, db.gens[id].raw.key, db.gens[id].details.key, now + CLEANUP_LEASE);
    assert Elems(deletions + [d]) == Elems(deletions) + {d};
    assert ToDelete(db, Elems(done) + {id}, now) == ToDelete(db, Elems(done), now) + if Judge(db, id, now) == Delete then {d} else {};
  }

  /** The three bulk updates together do what the claim does to each row. */
  lemma ClaimComposed(db: Db, visible: seq<GenId>, now: int, selected: seq<GenId>, revoke: seq<GenId>, doomed: seq<GenId>, deletions: seq<Deletion>)
    requires Classified(db, visible, now, selected, revoke, doomed, deletions)
    ensures (Db(WithoutCurrent(db.scans, Elems(revoke)),
                WithState(WithState(db.gens, Elems(selected), Selected, None), Elems(doomed), Deleting, Some(now + CLEANUP_LEASE))),
             Elems(deletions)) == ClaimScanCandidateDeletions(db, Elems(visible), now)
  {
    var (after, claims) := ClaimScanCandidateDeletions(db, Elems(visible), now);
    forall k | k in db.scans
      ensures WithoutCurrent(db.scans, Elems(revoke))[k] == after.scans[k]
    {
      hide Judge;
      if db.scans[k].current.Some? {
        var id := GenId(k, db.scans[k].current.value);
        assert id in Elems(revoke) <==> id in visible && id in db.gens && Judge(db, id, now) == Delete;
      }
    }
    assert WithoutCurrent(db.scans, Elems(revoke)) == after.scans;
    assert WithState(WithState(db.gens, Elems(selected), Selected, None), Elems(doomed), Deleting, Some(now + CLEANUP_LEASE)) == after.gens;
  }

  lemma NothingRemoved(db: Db)
    ensures DeleteScanCandidateMetadata(db, Elems([])) == db
  {
  }

  lemma RemovalStep(db: Db, deletions: seq<Deletion>, i: nat)
    requires i < |deletions|
    ensures var d, after := deletions[i], DeleteScanCandidateMetadata(db, Elems(deletions[..i]));
      && DeleteScanCandidateMetadata(db, Elems(deletions[..i + 1])) == after.(gens := if Removable(after, d) then after.gens - {d.id} else after.gens)
      && (Removable(after, d) ==> |after.gens - {d.id}| == |after.gens| - 1)
  {
    var d, after := deletions[i], DeleteScanCandidateMetadata(db, Elems(deletions[..i]));
    assert Elems(deletions[..i + 1]) == Elems(deletions[..i]) + {d};
    RemoveOne(db, Elems(deletions[..i]), d);
    if Removable(after, d) {
      SmallerWithout(after.gens, d.id);
    }
  }

  lemma SmallerWithout(gens: map<GenId, GenRow>, id: GenId)
    requires id in gens
    ensures |gens - {id}| == |gens| - 1
  {
    assert (gens - {id}).Keys == gens.Keys - {id};
  }

  lemma RemoveOne(db: Db, claims: set<Deletion>, d: Deletion)
    ensures var after := DeleteScanCandidateMetadata(db, claims);
      && DeleteScanCandidateMetadata(db, claims + {d}) == after.(gens := if Removable(after, d) then after.gens - {d.id} else after.gens)
      && (Removable(after, d) ==> d.id in after.gens)
  {
    var after := DeleteScanCandidateMetadata(db, claims);
    var gone := set e | e in claims && Removable(db, e) :: e.id;
    var more := set e | e in claims + {d} && Removable(db, e) :: e.id;
    assert more == if Removable(db, d) then gone + {d.id} else gone;
    assert after.gens == db.gens - gone;
    assert Removable(after, d) <==> Removable(db, d) && d.id !in gone;
  }

  // ---------------------------------------------------------------------
  // Guarded updates
  // ---------------------------------------------------------------------

  /** The rows after the guarded update for these architectures. */
  function Updated(scans: map<ScanId, ScanRow>, digest: string, archs: set<string>, guard: ScanRow -> bool, change: ScanRow -> ScanRow): map<ScanId, ScanRow> {
    map k | k in scans :: if k.digest == digest && k.arch in archs && guard(scans[k]) then change(scans[k]) else scans[k]
  }

  predicate AllMatch(scans: map<ScanId, ScanRow>, digest: string, archs: seq<string>, guard: ScanRow -> bool) {
    forall a | a in archs :: ScanId(digest, a) in scans && guard(scans[ScanId(digest, a)])
  }

  predicate Matches(scans: map<ScanId, ScanRow>, k: ScanId, guard: ScanRow -> bool) {
    k in scans && guard(scans[k])
  }

  /** How many of the rows the guarded update touches. */
  function Count(scans: map<ScanId, ScanRow>, digest: string, archs: seq<string>, guard: ScanRow -> bool): nat {
    if archs == [] then 0
    else Count(scans, digest, archs[..|archs| - 1], guard) + if Matches(scans, ScanId(digest, archs[|archs| - 1]), guard) then 1 else 0
  }

  lemma {:induction false} CountAll(scans: map<ScanId, ScanRow>, digest: string, archs: seq<string>, guard: ScanRow -> bool)
    ensures Count(scans, digest, archs, guard) <= |archs|
    ensures Count(scans, digest, archs, guard) == |archs| <==> AllMatch(scans, digest, archs, guard)
  {
    if archs != [] {
      CountAll(scans, digest, archs[..|archs| - 1], guard);
      assert archs == archs[..|archs| - 1] + [archs[|archs| - 1]];
    }
  }

  lemma UpdateNone(scans: map<ScanId, ScanRow>, digest: string, guard: ScanRow -> bool, change: ScanRow -> ScanRow)
    ensures Updated(scans, digest, Elems([]), guard, change) == scans
    ensures Count(scans, digest, [], guard) == 0
  {
  }

  lemma UpdateStep(scans: map<ScanId, ScanRow>, digest: string, archs: seq<string>, i: nat, guard: ScanRow -> bool, change: ScanRow -> ScanRow)
    requires i < |archs| && Distinct(archs)
    ensures var k := ScanId(digest, archs[i]);
      var before := Updated(scans, digest, Elems(archs[..i]), guard, change);
      && (k in before <==> k in scans) && (k in before ==> before[k] == scans[k])
      && Updated(scans, digest, Elems(archs[..i + 1]), guard, change)
         == (if k in scans && guard(scans[k]) then before[k := change(scans[k])] else before)
      && Count(scans, digest, archs[..i + 1], guard)
         == Count(scans, digest, archs[..i], guard) + if k in scans && guard(scans[k]) then 1 else 0
  {
    var arch := archs[i];
    assert archs[..i + 1] == archs[..i] + [arch];
    assert Elems(archs[..i + 1]) == Elems(archs[..i]) + {arch};
    assert arch !in archs[..i];
    assert archs[..i + 1][..i] == archs[..i];
  }

  function ClaimGuard(now: int, staleThreshold: int): ScanRow -> bool {
    row => Claimable(row, now, staleThreshold)
  }

  function ClaimChange(gen: string, now: int): ScanRow -> ScanRow {
    (row: ScanRow) => row.(status := Running, statusUpdatedAt := Some(now), current := Some(gen))
  }

  function AdoptGuard(gen: string): ScanRow -> bool {
    (row: ScanRow) => (row.current == None && row.status == Running) || row.current == Some(gen)
  }

  function AdoptChange(gen: string): ScanRow -> ScanRow {
    (row: ScanRow) => row.(current := Some(gen))
  }

  function RequeueGuard(owner: Option<string>): ScanRow -> bool {
    (row: ScanRow) => row.status == Running && row.current == owner
  }

  function RequeueChange(now: int): ScanRow -> ScanRow {
    (row: ScanRow) => row.(status := Queued, statusUpdatedAt := Some(now), current := None)
  }

  lemma ClaimedAll(db: Db, inserted: map<ScanId, ScanRow>, digest: string, archs: seq<string>, gen: string, now: int, staleThreshold: int)
    requires inserted.Keys == db.scans.Keys + ScansOf(digest, archs)
    requires forall k :: k in inserted ==> inserted[k] == RowOrQueued(db, k, now)
    ensures ClaimScanGeneration(db, digest, Elems(archs), gen, now, staleThreshold)
      == if AllMatch(inserted, digest, archs, ClaimGuard(now, staleThreshold))
         then (db.(scans := Updated(inserted, digest, Elems(archs), ClaimGuard(now, staleThreshold), ClaimChange(gen, now))), true) else (db, false)
  {
    StoredRow(db, now);
    hide Claimable, RowOrQueued;
    SameCondition(db, inserted, digest, archs, now, staleThreshold);
    if AllMatch(inserted, digest, archs, ClaimGuard(now, staleThreshold)) {
      var x := ClaimScanGeneration(db, digest, Elems(archs), gen, now, staleThreshold).0.scans;
      var y := Updated(inserted, digest, Elems(archs), ClaimGuard(now, staleThreshold), ClaimChange(gen, now));
      assert x.Keys == y.Keys;
      forall k | k in x
        ensures x[k] == y[k]
      {
        if k.digest == digest && k.arch in archs {
          assert k == ScanId(digest, k.arch);
        }
      }
      assert x == y;
    }
  }

  lemma SameCondition(db: Db, inserted: map<ScanId, ScanRow>, digest: string, archs: seq<string>, now: int, staleThreshold: int)
    requires inserted.Keys == db.scans.Keys + ScansOf(digest, archs)
    requires forall k :: k in inserted ==> inserted[k] == RowOrQueued(db, k, now)
    ensures AllMatch(inserted, digest, archs, ClaimGuard(now, staleThreshold)) <==>
      forall a :: a in Elems(archs) ==> Claimable(RowOrQueued(db, ScanId(digest, a), now), now, staleThreshold)
  {
    hide Claimable, RowOrQueued;
    forall a | a in archs
      ensures ScanId(digest, a) in inserted && inserted[ScanId(digest, a)] == RowOrQueued(db, ScanId(digest, a), now)
    {
      assert ScanId(digest, a) in ScansOf(digest, archs);
    }
  }

  lemma AdoptedAll(db: Db, digest: string, archs: seq<string>, gen: string)
    ensures AdoptLegacyScanGeneration(db, digest, Elems(archs), gen)
      == if AllMatch(db.scans, digest, archs, AdoptGuard(gen))
         then (db.(scans := Updated(db.scans, digest, Elems(archs), AdoptGuard(gen), AdoptChange(gen))), true) else (db, false)
  {
    assert AllMatch(db.scans, digest, archs, AdoptGuard(gen)) <==> forall a | a in Elems(archs) :: Adoptable(db, ScanId(digest, a), gen);
    if AllMatch(db.scans, digest, archs, AdoptGuard(gen)) {
      var x := AdoptLegacyScanGeneration(db, digest, Elems(archs), gen).0.scans;
      var y := Updated(db.scans, digest, Elems(archs), AdoptGuard(gen), AdoptChange(gen));
      forall k | k in x
        ensures x[k] == y[k]
      {
        if k.digest == digest && k.arch in archs {
          assert k == ScanId(digest, k.arch);
        }
      }
      assert x == y;
    }
  }

  lemma RequeuedAll(db: Db, digest: string, archs: seq<string>, owner: Option<string>, now: int)
    ensures RequeueScanGeneration(db, digest, Elems(archs), owner, now)
      == db.(scans := Updated(db.scans, digest, Elems(archs), RequeueGuard(owner), RequeueChange(now)))
  {
    var x := RequeueScanGeneration(db, digest, Elems(archs), owner, now).scans;
    assert x == Updated(db.scans, digest, Elems(archs), RequeueGuard(owner), RequeueChange(now));
  }

  lemma StoredRow(db: Db, now: int)
    ensures forall k :: k in db.scans ==> RowOrQueued(db, k, now) == db.scans[k]
  {
  }
}
