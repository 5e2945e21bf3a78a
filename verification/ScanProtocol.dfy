/** Claimers, publishers, failure reporters and the two cleanup workers as one state
    machine: every committed transaction and every object write or delete is a step,
    and a run is any sequence of steps. A step that is not enabled changes nothing.
 */
module ScanProtocol {
  import opened Options
  import opened ObjectKeys
  import opened ScanDb

  /** The tracked images, and the functions the protocol takes as given. */
  datatype Config = Config(scans: set<ScanId>, gzip: string -> string, sha256: string -> string, validJson: string -> bool)

  /** Digests and architectures make plain path segments, and no two tracked digests
      differ in the algorithm alone. */
  ghost predicate ConfigOk(cfg: Config) {
    && (forall k :: k in cfg.scans ==> SlashFree(StripDigestAlgo(k.digest)) && SlashFree(k.arch))
    && (forall k, l :: k in cfg.scans && l in cfg.scans && StripDigestAlgo(k.digest) == StripDigestAlgo(l.digest) && k.arch == l.arch ==> k == l)
  }

  predicate Plain(cfg: Config, id: GenId) {
    id.scan in cfg.scans && id.gen != "" && SlashFree(id.gen)
  }

  function RawKey(id: GenId): string {
    GenerationRawResultKey(id.scan.digest, id.scan.arch, id.gen)
  }

  function DetailsKey(id: GenId): string {
    GenerationDetailsKey(id.scan.digest, id.scan.arch, id.gen)
  }

  // ---------------------------------------------------------------------
  // Candidates
  // ---------------------------------------------------------------------

  datatype Params = Params(id: GenId, raw: string, parsed: string, details: string)

  function NewScanArtifact(cfg: Config, key: string, payload: string): Option<Artifact> {
    if !cfg.validJson(payload) then None
    else
      var compressed := cfg.gzip(payload);
      Some(Artifact(Meta(key, |compressed|, cfg.sha256(compressed)), compressed))
  }

  function NewScanCandidate(cfg: Config, p: Params): Option<Candidate> {
    if p.id.gen == "" then None
    else if p.raw == "" || p.details == "" || p.parsed == "" then None
    else if !cfg.validJson(p.parsed) then None
    else
      var raw := NewScanArtifact(cfg, RawKey(p.id), p.raw);
      var details := NewScanArtifact(cfg, DetailsKey(p.id), p.details);
      if raw == None || details == None then None else Some(Candidate(p.id, raw.value, details.value))
  }

  // ---------------------------------------------------------------------
  // Workers and state
  // ---------------------------------------------------------------------

  /** Where a publisher stands; Rejected means that nothing was uploaded. */
  datatype Phase =
    | Ensuring | Rejected | PuttingRaw | PuttingDetails
    | Marking(target: GenState) | Rereading(target: GenState) | Selecting | Finished

  datatype Publisher = Publisher(candidate: Candidate, parsed: string, phase: Phase)

  /** A claimed batch and the objects of it already deleted (true: the details object). */
  datatype Cleaner = Cleaner(claims: set<Deletion>, done: set<(Deletion, bool)>)

  datatype LegacyWorker = LegacyWorker(ready: set<LegacyClaim>, done: set<(LegacyClaim, bool)>)

  /** ever holds every generation that has been current for its scan. */
  datatype State = State(
    db: Db,
    objects: map<string, string>,
    ever: set<GenId>,
    publishers: map<nat, Publisher>,
    cleaners: map<nat, Cleaner>,
    legacy: map<nat, LegacyWorker>)

  /** An upload succeeds, or fails after storing the object, or fails and stores nothing. */
  datatype PutOutcome = Stored | FailedStored | FailedLost

  datatype Action =
    | SetRunning(k: ScanId, gen: string, now: int)
    | Claim(digest: string, archs: set<string>, gen: string, now: int, staleThreshold: int)
    | AdoptLegacy(digest: string, archs: set<string>, gen: string)
    | Requeue(digest: string, archs: set<string>, owner: Option<string>, now: int)
    | InitializeQueued(k: ScanId, now: int)
    | Report(k: ScanId, gen: string, status: Status, now: int)
    | BeginPublish(w: nat, params: Params)
    | Ensure(w: nat, now: int)
    | Put(w: nat, outcome: PutOutcome)
    | LatePut(w: nat, details: bool)
    | Mark(w: nat, now: int)
    | Reread(w: nat)
    | Select(w: nat, now: int, sbomRowExists: bool)
    | ClaimDeletions(w: nat, visible: set<GenId>, now: int)
    | DeleteCandidateObject(w: nat, deletion: Deletion, details: bool)
    | DeleteMetadata(w: nat)
    | ClaimLegacy(w: nat, scans: set<ScanId>, now: int)
    | DeleteLegacyObject(w: nat, claim: LegacyClaim, details: bool)
    | CompleteLegacy(w: nat, now: int)
    | ScheduleLegacy(pairs: set<GenId>, now: int)
    | PutSbom(k: ScanId, content: string)

  // ---------------------------------------------------------------------
  // Scan status steps
  // ---------------------------------------------------------------------

  function Currents(db: Db): set<GenId> {
    set k | k in db.scans && db.scans[k].current.Some? :: GenId(k, db.scans[k].current.value)
  }

  function WithScans(s: State, db: Db): State {
    s.(db := db, ever := s.ever + Currents(db))
  }

  /** Generation ids are fresh: one becomes current for a scan at most once. ScanAdoption
      drops this for adoption. */
  predicate MayBecomeCurrent(cfg: Config, s: State, id: GenId) {
    Plain(cfg, id) && (id !in s.ever || IsCurrent(s.db, id))
  }

  predicate AllMayBecomeCurrent(cfg: Config, s: State, digest: string, archs: set<string>, gen: string) {
    forall a | a in archs :: MayBecomeCurrent(cfg, s, GenId(ScanId(digest, a), gen))
  }

  function DoSetRunning(cfg: Config, s: State, k: ScanId, gen: string, now: int): State {
    if MayBecomeCurrent(cfg, s, GenId(k, gen)) then WithScans(s, SetScanStatusRunning(s.db, k, gen, now)) else s
  }

  function DoClaim(cfg: Config, s: State, digest: string, archs: set<string>, gen: string, now: int, staleThreshold: int): State {
    if archs != {} && AllMayBecomeCurrent(cfg, s, digest, archs, gen)
    then WithScans(s, ClaimScanGeneration(s.db, digest, archs, gen, now, staleThreshold).0) else s
  }

  function DoAdoptLegacy(cfg: Config, s: State, digest: string, archs: set<string>, gen: string): State {
    if archs != {} && AllMayBecomeCurrent(cfg, s, digest, archs, gen)
    then WithScans(s, AdoptLegacyScanGeneration(s.db, digest, archs, gen).0) else s
  }

  function DoInitializeQueued(cfg: Config, s: State, k: ScanId, now: int): State {
    if k in cfg.scans then WithScans(s, InitializeScanStatusQueued(s.db, k, now)) else s
  }

  function DoReport(cfg: Config, s: State, k: ScanId, gen: string, status: Status, now: int): State {
    if k in cfg.scans && status != Succeeded then WithScans(s, ReportStatus(s.db, k, gen, status, now).0) else s
  }

  // ---------------------------------------------------------------------
  // Publisher steps
  // ---------------------------------------------------------------------

  function To(s: State, w: nat, phase: Phase): State
    requires w in s.publishers
  {
    s.(publishers := s.publishers[w := s.publishers[w].(phase := phase)])
  }

  predicate At(s: State, w: nat, phase: Phase) {
    w in s.publishers && s.publishers[w].phase == phase
  }

  /** Publication starts only after its generation was claimed. */
  function DoBeginPublish(cfg: Config, s: State, w: nat, params: Params): State {
    var candidate := NewScanCandidate(cfg, params);
    if w !in s.publishers && params.id in s.ever && candidate.Some?
    then s.(publishers := s.publishers[w := Publisher(candidate.value, params.parsed, Ensuring)]) else s
  }

  function AfterEnsure(state: Option<GenState>): Phase {
    if state == None then Rejected
    else if state.value in {Validated, Selected} then Selecting
    else PuttingRaw
  }

  function DoEnsure(s: State, w: nat, now: int): State {
    if At(s, w, Ensuring) then
      var (db, state) := EnsureScanCandidate(s.db, s.publishers[w].candidate, now);
      To(s.(db := db), w, AfterEnsure(state))
    else s
  }

  function Store(objects: map<string, string>, a: Artifact): map<string, string> {
    objects[a.meta.key := a.compressed]
  }

  function DoPut(s: State, w: nat, outcome: PutOutcome): State {
    if At(s, w, PuttingRaw) || At(s, w, PuttingDetails) then
      var p := s.publishers[w];
      var artifact := if p.phase == PuttingRaw then p.candidate.raw else p.candidate.details;
      var objects := if outcome == FailedLost then s.objects else Store(s.objects, artifact);
      To(s.(objects := objects), w,
         if outcome != Stored then Marking(FailedUpload) else if p.phase == PuttingRaw then PuttingDetails else Marking(Validated))
    else s
  }

  /** An upload given up on may still land, at any later time. */
  function DoLatePut(s: State, w: nat, details: bool): State {
    if w in s.publishers && Ensured(s.publishers[w].phase) then
      s.(objects := Store(s.objects, if details then s.publishers[w].candidate.details else s.publishers[w].candidate.raw))
    else s
  }

  predicate Ensured(phase: Phase) {
    phase != Ensuring && phase != Rejected
  }

  function DoMark(s: State, w: nat, now: int): State {
    if w in s.publishers && s.publishers[w].phase.Marking? then
      var target := s.publishers[w].phase.target;
      var (db, marked) := MarkScanCandidate(s.db, s.publishers[w].candidate.id, target, now);
      To(s.(db := db), w, if !marked then Rereading(target) else if target == Validated then Selecting else Finished)
    else s
  }

  /** A losing publisher adopts the state validated or selected that it finds. */
  function DoReread(s: State, w: nat): State {
    if w in s.publishers && s.publishers[w].phase.Rereading? then
      var id := s.publishers[w].candidate.id;
      To(s, w, if id in s.db.gens && s.db.gens[id].state in {Validated, Selected} then Selecting else Finished)
    else s
  }

  function DoSelect(s: State, w: nat, now: int, sbomRowExists: bool): State {
    if At(s, w, Selecting) then
      var p := s.publishers[w];
      To(s.(db := SelectScanCandidate(s.db, p.candidate.id, p.parsed, now, sbomRowExists).0), w, Finished)
    else s
  }

  // ---------------------------------------------------------------------
  // Cleanup steps
  // ---------------------------------------------------------------------

  function DoClaimDeletions(s: State, w: nat, visible: set<GenId>, now: int): State {
    if w !in s.cleaners then
      var (db, claims) := ClaimScanCandidateDeletions(s.db, visible, now);
      s.(db := db, cleaners := s.cleaners[w := Cleaner(claims, {})])
    else s
  }

  function DoDeleteCandidateObject(s: State, w: nat, d: Deletion, details: bool): State {
    if w in s.cleaners && d in s.cleaners[w].claims then
      s.(objects := s.objects - {if details then d.detailsKey else d.rawKey},
         cleaners := s.cleaners[w := s.cleaners[w].(done := s.cleaners[w].done + {(d, details)})])
    else s
  }

  /** The rows go only after every object of the batch is gone. */
  function DoDeleteMetadata(s: State, w: nat): State {
    if w in s.cleaners && (forall d | d in s.cleaners[w].claims :: (d, false) in s.cleaners[w].done && (d, true) in s.cleaners[w].done)
    then s.(db := DeleteScanCandidateMetadata(s.db, s.cleaners[w].claims)) else s
  }

  function DoClaimLegacy(s: State, w: nat, scans: set<ScanId>, now: int): State {
    if w !in s.legacy then
      var (db, claims) := ClaimLegacyScanCleanup(s.db, scans, now);
      WithScans(s.(legacy := s.legacy[w := LegacyWorker(set c | c in claims && ValidReplacement(c), {})]), db)
    else s
  }

  function LegacyKey(k: ScanId, details: bool): string {
    if details then ParsedResultsDetailsKey(k.digest, k.arch) else RawResultKey(k.digest, k.arch)
  }

  function DoDeleteLegacyObject(s: State, w: nat, c: LegacyClaim, details: bool): State {
    if w in s.legacy && c in s.legacy[w].ready then
      s.(objects := s.objects - {LegacyKey(c.scan, details)},
         legacy := s.legacy[w := s.legacy[w].(done := s.legacy[w].done + {(c, details)})])
    else s
  }

  function DoCompleteLegacy(s: State, w: nat, now: int): State {
    if w in s.legacy && (forall c | c in s.legacy[w].ready :: (c, false) in s.legacy[w].done && (c, true) in s.legacy[w].done)
    then WithScans(s, CompleteLegacyScanCleanup(s.db, s.legacy[w].ready, now)) else s
  }

  function DoPutSbom(cfg: Config, s: State, k: ScanId, content: string): State {
    if k in cfg.scans then s.(objects := s.objects[SbomKey(k.digest, k.arch) := content]) else s
  }

  // ---------------------------------------------------------------------
  // Runs
  // ---------------------------------------------------------------------

  function Apply(cfg: Config, s: State, a: Action): State {
    match a
    case SetRunning(k, gen, now) => DoSetRunning(cfg, s, k, gen, now)
    case Claim(digest, archs, gen, now, stale) => DoClaim(cfg, s, digest, archs, gen, now, stale)
    case AdoptLegacy(digest, archs, gen) => DoAdoptLegacy(cfg, s, digest, archs, gen)
    case Requeue(digest, archs, owner, now) => WithScans(s, RequeueScanGeneration(s.db, digest, archs, owner, now))
    case InitializeQueued(k, now) => DoInitializeQueued(cfg, s, k, now)
    case Report(k, gen, status, now) => DoReport(cfg, s, k, gen, status, now)
    case BeginPublish(w, params) => DoBeginPublish(cfg, s, w, params)
    case Ensure(w, now) => DoEnsure(s, w, now)
    case Put(w, outcome) => DoPut(s, w, outcome)
    case LatePut(w, details) => DoLatePut(s, w, details)
    case Mark(w, now) => DoMark(s, w, now)
    case Reread(w) => DoReread(s, w)
    case Select(w, now, sbomRowExists) => DoSelect(s, w, now, sbomRowExists)
    case ClaimDeletions(w, visible, now) => DoClaimDeletions(s, w, visible, now)
    case DeleteCandidateObject(w, d, details) => DoDeleteCandidateObject(s, w, d, details)
    case DeleteMetadata(w) => DoDeleteMetadata(s, w)
    case ClaimLegacy(w, scans, now) => DoClaimLegacy(s, w, scans, now)
    case DeleteLegacyObject(w, c, details) => DoDeleteLegacyObject(s, w, c, details)
    case CompleteLegacy(w, now) => DoCompleteLegacy(s, w, now)
    case ScheduleLegacy(pairs, now) => WithScans(s, ScheduleLegacyScanCleanup(s.db, pairs, now))
    case PutSbom(k, content) => DoPutSbom(cfg, s, k, content)
  }

  function Run(cfg: Config, s: State, actions: seq<Action>): State
    decreases |actions|
  {
    if actions == [] then s else Run(cfg, Apply(cfg, s, actions[0]), actions[1..])
  }
}
