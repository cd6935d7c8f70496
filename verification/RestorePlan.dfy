/** What a staged restore does to the data directory, phase by phase, and the invariant that ties
    whatever an interrupted boot leaves behind to the directory as it was staged. */
module RestorePlan {
  import opened Wrappers

  type Content = string
  type Dir = map<Name, Content>

  datatype Name =
    | VotportDb | ReceiptKey | PushIssuerKey | PushCrt | PushKey
    | Secret | Wal | Shm
    | BackupSecrets | BackupStatus
    | Other(name: string)

  const VERSION: nat := 2
  const STAGE_PREFIX: string := ".votport-restore-stage-"
  const ROLLBACK_PREFIX: string := ".votport-restore-rollback-"

  const LIVE_FILES: seq<Name> := [VotportDb, ReceiptKey, PushIssuerKey, PushCrt, PushKey, Secret, Wal, Shm]
  const ARCHIVED := {VotportDb, ReceiptKey, PushIssuerKey, PushCrt, PushKey}
  const SAVED := {VotportDb, ReceiptKey, PushIssuerKey, PushCrt, PushKey, Secret, Wal, Shm}
  // What the last phase writes.
  predicate Reset(n: Name) { n in {VotportDb, Secret, Wal, Shm, BackupSecrets, BackupStatus} }

  const DEFAULT_SECRETS: Content := "{\"access_key_id\":null,\"secret_access_key\":null,\"passphrase\":null}"
  const DEFAULT_STATUS: Content :=
    "{\"running\":false,\"last_attempt_at\":null,\"last_success_at\":null,\"last_error\":null}"

  datatype Mode = Historical | Replica

  datatype Phase = Prepared | OldMoved | NewInstalled

  /** `digest` stands for the size and the SHA-256 of the file. */
  datatype Entry = Entry(name: Name, digest: string)

  datatype Manifest = Manifest(version: nat, createdAt: nat, schemaVersion: nat, entries: seq<Entry>)

  datatype Marker = Marker(stage: string, version: nat, manifest: Manifest, mode: Mode, phase: Phase,
                           rollback: Option<string>, archive: Option<string>)

  datatype Disk = Disk(live: Dir, dirs: map<string, Dir>, marker: Option<Marker>)

  /** What files mean is left to the host: fingerprints, whether a certificate and a key pair, the
      database checks and the rewriting of a restored database. */
  datatype Host = Host(fingerprint: Content -> string, pairs: (Content, Content) -> bool,
                       databaseFits: (Content, nat) -> bool, prepare: (Content, nat, Mode) -> Content)

  /** Preparing a sound database leaves a sound one, and preparing it again changes nothing. */
  ghost predicate Sound(h: Host) {
    forall c, s, m :: h.databaseFits(c, s) ==>
      h.databaseFits(h.prepare(c, s, m), s) && h.prepare(h.prepare(c, s, m), s, m) == h.prepare(c, s, m)
  }

  datatype Error =
    | InvalidMarker | InvalidStage | Unsupported | InvalidEntries | InvalidContents | ManifestMismatch
    | ChecksumMismatch | InvalidIdentity | InvalidDatabase | InvalidRollbackPath | MissingStage
    | AlreadySaved(saved: Name) | StagedInvalid(staged: Name) | InstalledInvalid(installed: Name)
    | Missing(missing: Name) | Twice(twice: Name) | BeingApplied | NotSynced

  /** How a phase ends: done; the process died, `Cut` if between creating and filling the file of
      the secret; or refused. */
  datatype Step = Done | Interrupted | Cut | Refused(error: Error)
  {
    predicate Dead() { Interrupted? || Cut? }
  }

  datatype Outcome =
    | NothingPending
    | Applied(archive: Option<string>, createdAt: nat, mode: Mode, schemaVersion: nat)
    | Stopped(why: Step)

  // ------------------------------------------------------------------------- directories

  function Only(d: Dir, names: set<Name>): Dir { map n | n in d && n in names :: d[n] }

  function DirOf(dirs: map<string, Dir>, name: string): Dir { if name in dirs then dirs[name] else map[] }

  /** Some of the `allowed` files went from one directory to another; none was overwritten,
      none was lost and none changed. */
  ghost predicate Moved(from0: Dir, to0: Dir, from1: Dir, to1: Dir, allowed: set<Name>) {
    var gone := from0.Keys - from1.Keys;
    && gone <= allowed
    && gone !! to0.Keys
    && from1 == from0 - gone
    && to1 == to0 + Only(from0, gone)
  }

  lemma MoveNone(from: Dir, to: Dir, allowed: set<Name>)
    ensures Moved(from, to, from, to, allowed)
  {
    var gone := from.Keys - from.Keys;
    assert gone == {};
    assert from == from - gone;
    assert Only(from, gone) == map[];
    assert to == to + Only(from, gone);
  }

  lemma MoveOne(from0: Dir, to0: Dir, from1: Dir, to1: Dir, allowed: set<Name>, n: Name)
    requires Moved(from0, to0, from1, to1, allowed) && n in allowed && n in from1 && n !in to1
    ensures Moved(from0, to0, from1 - {n}, to1[n := from1[n]], allowed)
  {
    var gone := from0.Keys - from1.Keys;
    assert from0.Keys - (from1 - {n}).Keys == gone + {n};
    assert to1[n := from1[n]] == to0 + Only(from0, gone + {n});
  }

  /** Moves compose: files moved from where an earlier run stopped are files moved. */
  lemma MoveOn(a0: Dir, b0: Dir, a1: Dir, b1: Dir, a2: Dir, b2: Dir, allowed: set<Name>)
    requires Moved(a0, b0, a1, b1, allowed) && Moved(a1, b1, a2, b2, allowed)
    ensures Moved(a0, b0, a2, b2, allowed)
  {
    assert a0.Keys - a2.Keys == (a0.Keys - a1.Keys) + (a1.Keys - a2.Keys);
    assert b2 == b0 + Only(a0, a0.Keys - a2.Keys);
  }

  /** Once nothing allowed is left behind, what moved is the whole of it. */
  lemma MoveAll(from0: Dir, to0: Dir, from1: Dir, to1: Dir, allowed: set<Name>)
    requires Moved(from0, to0, from1, to1, allowed) && from1.Keys !! allowed
    ensures from1 == from0 - allowed && to1 == to0 + Only(from0, allowed)
  {
  }

  // --------------------------------------------------------------------------- the checks

  predicate StageNamed(stage: string) {
    STAGE_PREFIX <= stage && '/' !in stage && '\\' !in stage
  }

  function Rollback(m: Marker, token: string): string {
    if m.rollback.Some? then m.rollback.value else ROLLBACK_PREFIX + token
  }

  function EntryNames(entries: seq<Entry>): set<Name> { set e | e in entries :: e.name }

  predicate DigestsMatch(h: Host, d: Dir, entries: seq<Entry>) {
    forall e :: e in entries ==> e.name in d && h.fingerprint(d[e.name]) == e.digest
  }

  const KEY_LENGTH: nat := 32

  /** `validate_identity_material`: keys of the right length, and a certificate with its key. */
  predicate IdentityFits(h: Host, stage: Dir) {
    && (ReceiptKey in stage ==> |stage[ReceiptKey]| == KEY_LENGTH)
    && (PushIssuerKey in stage ==> |stage[PushIssuerKey]| == KEY_LENGTH)
    && (PushCrt in stage <==> PushKey in stage)
    && (PushCrt in stage ==> h.pairs(stage[PushCrt], stage[PushKey]))
  }

  /** `validate_staged_restore`, check by check. */
  function StageProblem(h: Host, stage: Dir, manifest: Manifest, schema: nat): Option<Error> {
    var expected := EntryNames(manifest.entries);
    if manifest.version != VERSION || manifest.schemaVersion != schema then Some(Unsupported)
    else if |expected| != |manifest.entries| || !({VotportDb, ReceiptKey} <= expected <= ARCHIVED) then
      Some(InvalidEntries)
    else if !(stage.Keys <= ARCHIVED) then Some(InvalidContents)
    else if stage.Keys != expected then Some(ManifestMismatch)
    else if !DigestsMatch(h, stage, manifest.entries) then Some(ChecksumMismatch)
    else if !IdentityFits(h, stage) then Some(InvalidIdentity)
    else if !h.databaseFits(stage[VotportDb], schema) then Some(InvalidDatabase)
    else None
  }

  const SECRET_LENGTH: nat := 32

  /** A session secret drawn at random, and how much of it is in the file when a process dies
      between creating that file and filling it. */
  datatype Draw = Draw(whole: Content, part: Content)
  {
    predicate Proper() { |whole| == SECRET_LENGTH && part < whole }

    function Contents(): set<Content> { {whole, part} }
  }

  function WithSecret(live: Dir, secret: Content): Dir {
    if Secret in live then live else live[Secret := secret]
  }

  function FinishedLive(h: Host, schema: nat, mode: Mode, live: Dir, secret: Content): Dir
    requires VotportDb in live
  {
    WithSecret(live, secret)
      [VotportDb := h.prepare(live[VotportDb], schema, mode)]
      [BackupSecrets := DEFAULT_SECRETS][BackupStatus := DEFAULT_STATUS] - {Wal, Shm}
  }

  lemma EightNames(live: Dir)
    requires forall j :: 0 <= j < |LIVE_FILES| ==> LIVE_FILES[j] !in live
    ensures live.Keys !! SAVED
  {
    assert LIVE_FILES[0] == VotportDb && LIVE_FILES[1] == ReceiptKey && LIVE_FILES[2] == PushIssuerKey;
    assert LIVE_FILES[3] == PushCrt && LIVE_FILES[4] == PushKey;
    assert LIVE_FILES[5] == Secret && LIVE_FILES[6] == Wal && LIVE_FILES[7] == Shm;
  }

  predicate DatabaseFits(h: Host, live: Dir, manifest: Manifest, schema: nat) {
    VotportDb in live && manifest.schemaVersion == schema && h.databaseFits(live[VotportDb], schema)
  }

  /** Some of the last phase was done to `from`: only its own files changed, the database is as
      it was or prepared, and a secret that was not there is one of those made. */
  ghost predicate Finishing(h: Host, schema: nat, mode: Mode, from: Dir, to: Dir, secrets: set<Content>) {
    && (forall n :: !Reset(n) ==> (n in to <==> n in from))
    && (forall n :: !Reset(n) && n in to ==> to[n] == from[n])
    && (VotportDb in from <==> VotportDb in to)
    && (VotportDb in from ==> to[VotportDb] in {from[VotportDb], h.prepare(from[VotportDb], schema, mode)})
    && (Secret in from ==> Secret in to && to[Secret] == from[Secret])
    && (Secret in to && Secret !in from ==> to[Secret] in secrets)
  }

  function PreparedLive(h: Host, schema: nat, mode: Mode, live: Dir, leftover: Dir): Dir
    requires VotportDb in live
  {
    (live - {Wal, Shm} + leftover)[VotportDb := h.prepare(live[VotportDb], schema, mode)]
  }

  lemma StartFinishing(h: Host, schema: nat, mode: Mode, from: Dir, secrets: set<Content>)
    ensures Finishing(h, schema, mode, from, from, secrets)
  {
  }

  lemma PreparedFinishing(h: Host, schema: nat, mode: Mode, from: Dir, leftover: Dir, secret: Content,
                          secrets: set<Content>)
    requires VotportDb in from && leftover.Keys <= {Wal, Shm}
    ensures var to := PreparedLive(h, schema, mode, from, leftover);
      && Finishing(h, schema, mode, from, to, secrets)
      && (Secret in to <==> Secret in from)
      && WithSecret(to, secret)[BackupSecrets := DEFAULT_SECRETS][BackupStatus := DEFAULT_STATUS] - {Wal, Shm}
           == FinishedLive(h, schema, mode, from, secret)
  {
  }

  lemma SettingsFinishing(h: Host, schema: nat, mode: Mode, from: Dir, to: Dir, reset: Dir, secrets: set<Content>)
    requires Finishing(h, schema, mode, from, to, secrets) && (Secret in to <==> Secret in from)
    requires reset - {BackupSecrets, BackupStatus, Secret} == to - {BackupSecrets, BackupStatus, Secret}
    requires Secret in to ==> Secret in reset && reset[Secret] == to[Secret]
    requires Secret in reset && Secret !in to ==> reset[Secret] in secrets
    ensures Finishing(h, schema, mode, from, reset, secrets)
  {
    var settings := {BackupSecrets, BackupStatus, Secret};
    assert forall n :: n !in settings ==> (n in reset <==> n in reset - settings) && (n in to <==> n in to - settings);
    assert forall n :: n !in settings && n in to ==> reset[n] == (reset - settings)[n] == (to - settings)[n];
  }

  lemma ClearedFinishing(h: Host, schema: nat, mode: Mode, from: Dir, to: Dir, cleared: Dir, secrets: set<Content>)
    requires Finishing(h, schema, mode, from, to, secrets)
    requires cleared - {Wal, Shm} == to - {Wal, Shm}
    ensures Finishing(h, schema, mode, from, cleared, secrets)
    ensures SecretOf(cleared) == SecretOf(to)
  {
    assert forall n :: n != Wal && n != Shm ==> (n in cleared <==> n in cleared - {Wal, Shm});
    assert forall n :: n != Wal && n != Shm ==> (n in to <==> n in to - {Wal, Shm});
    assert VotportDb in to ==> cleared[VotportDb] == (cleared - {Wal, Shm})[VotportDb];
    assert Secret in to ==> cleared[Secret] == (cleared - {Wal, Shm})[Secret];
  }

  /** Why a file of the manifest cannot be installed. */
  predicate Obstacle(h: Host, stage: Dir, live: Dir, e: Entry, error: Error) {
    match error
    case Twice(n) => n == e.name && n in stage && n in live
    case Missing(n) => n == e.name && n !in stage && n !in live
    case StagedInvalid(n) => n == e.name && n in stage && h.fingerprint(stage[n]) != e.digest
    case InstalledInvalid(n) => n == e.name && n in live && h.fingerprint(live[n]) != e.digest
    case _ => false
  }

  // ------------------------------------------------------- what each phase does to the disk

  ghost predicate SaveStep(m: Marker, token: string, d: Disk, d': Disk, step: Step) {
    var r := Rollback(m, token);
    && Moved(d.live, DirOf(d.dirs, r), d'.live, DirOf(d'.dirs, r), SAVED)
    && d'.dirs - {r} == d.dirs - {r}
    && (d'.marker == Some(m) && m.rollback.None? ==> d'.live == d.live && d'.dirs == d.dirs)
    && (match step
        case Done =>
          && d'.marker == Some(m.(rollback := Some(r), phase := OldMoved))
          && d'.live.Keys !! SAVED && r in d'.dirs
        case Interrupted => d'.marker in {Some(m), Some(m.(rollback := Some(r)))}
        case Cut => false
        case Refused(error) =>
          && d'.marker in {Some(m), Some(m.(rollback := Some(r)))}
          && if error.AlreadySaved? then error.saved in d'.live && error.saved in DirOf(d'.dirs, r)
             else error.InvalidRollbackPath? && ('/' in r || !(ROLLBACK_PREFIX <= r)))
  }

  ghost predicate InstallStep(h: Host, schema: nat, m: Marker, d: Disk, d': Disk, step: Step) {
    var entries, staged := m.manifest.entries, DirOf(d'.dirs, m.stage);
    && Moved(DirOf(d.dirs, m.stage), d.live, staged, d'.live, EntryNames(entries))
    && d'.dirs - {m.stage} == d.dirs - {m.stage} && (m.stage in d'.dirs <==> m.stage in d.dirs)
    && d'.marker == Some(if step.Done? then m.(phase := NewInstalled) else m)
    && (match step
        case Done =>
          && DigestsMatch(h, d'.live, entries) && DatabaseFits(h, d'.live, m.manifest, schema)
          && (forall e :: e in entries ==> e.name !in staged) && m.stage in d'.dirs
        case Interrupted => true
        case Cut => false
        case Refused(error) =>
          || (exists e :: e in entries && Obstacle(h, staged, d'.live, e, error))
          || (error.InvalidDatabase? && DigestsMatch(h, d'.live, entries)
              && !DatabaseFits(h, d'.live, m.manifest, schema))
          || (error.MissingStage? && m.stage !in d'.dirs))
  }

  ghost predicate FinishStep(h: Host, schema: nat, m: Marker, draw: Draw, d: Disk, d': Disk, step: Step) {
    && Finishing(h, schema, m.mode, d.live, d'.live, draw.Contents())
    && (d'.dirs == d.dirs || d'.dirs == d.dirs - {m.stage})
    && d'.marker == (if step.Done? then None else Some(m))
    && (step.Refused? <==> VotportDb !in d.live || !h.databaseFits(d.live[VotportDb], schema))
    && (step.Refused? ==> d' == d && step.error.InvalidDatabase?)
    && (step.Done? ==> d'.live == FinishedLive(h, schema, m.mode, d.live, draw.whole) && m.stage !in d'.dirs)
    && (Secret !in d.live && Secret in d'.live ==> d'.live[Secret] == if step.Cut? then draw.part else draw.whole)
    && (step.Cut? ==> Secret !in d.live && Secret in d'.live)
  }

  function SecretOf(live: Dir): Option<Content> { if Secret in live then Some(live[Secret]) else None }

  // ------------------------------------------------------- what an interrupted boot may leave

  /** The data directory as `write_pending_restore` leaves it over a sound stage. */
  ghost predicate Staged(h: Host, schema: nat, d0: Disk) {
    && d0.marker.Some?
    && var m := d0.marker.value;
    && StageNamed(m.stage) && m.version == VERSION && m.phase.Prepared? && m.rollback.None?
    && m.stage in d0.dirs && StageProblem(h, d0.dirs[m.stage], m.manifest, schema) == None
  }

  function SampleHost(): Host {
    Host(c => c, (crt, key) => true, (c, s) => true, (c, s, m) => "prepared")
  }

  function SampleKey(): Content { seq(KEY_LENGTH, _ => 'k') }

  function SampleStage(): Dir { map[VotportDb := "rows", ReceiptKey := SampleKey()] }

  function SampleManifest(schema: nat): Manifest {
    Manifest(VERSION, 0, schema, [Entry(VotportDb, "rows"), Entry(ReceiptKey, SampleKey())])
  }

  function SampleDisk(schema: nat): Disk {
    Disk(map[], map[STAGE_PREFIX := SampleStage()],
         Some(Marker(STAGE_PREFIX, VERSION, SampleManifest(schema), Historical, Prepared, None, None)))
  }

  lemma SampleFits(schema: nat)
    ensures StageProblem(SampleHost(), SampleStage(), SampleManifest(schema), schema) == None
  {
    var entries := SampleManifest(schema).entries;
    assert entries[0] in entries && entries[1] in entries;
    assert EntryNames(entries) == {VotportDb, ReceiptKey};
  }

  lemma PrefixIsStageName()
    ensures StageNamed(STAGE_PREFIX)
  {
  }

  /** There are such directories, so what follows is about something. */
  lemma SomeRestore(schema: nat)
    ensures Sound(SampleHost()) && Staged(SampleHost(), schema, SampleDisk(schema))
  {
    SampleFits(schema);
    PrefixIsStageName();
  }

  /** Rollback names made at boot: well formed, and new to this data directory. */
  ghost predicate FreshNames(d0: Disk, names: set<string>) {
    forall r :: r in names ==> ROLLBACK_PREFIX <= r && '/' !in r && r !in d0.dirs
  }

  function StagedFiles(d0: Disk): Dir
    requires d0.marker.Some?
  {
    DirOf(d0.dirs, d0.marker.value.stage)
  }

  /** The live files once everything staged has taken the place of what was saved. */
  function Installed(d0: Disk): Dir
    requires d0.marker.Some?
  {
    (d0.live - SAVED) + StagedFiles(d0)
  }

  /** What one uninterrupted boot makes of `d0`, up to the two things it draws at random. */
  function FinalDisk(h: Host, schema: nat, d0: Disk, r: string, secret: Content): Disk
    requires Staged(h, schema, d0)
  {
    var m := d0.marker.value;
    Disk(FinishedLive(h, schema, m.mode, Installed(d0), secret),
         (d0.dirs - {m.stage})[r := Only(d0.live, SAVED)],
         None)
  }

  /** In the first phase: `r` takes the old files, everything else is as it was. */
  ghost predicate Saving(d0: Disk, d: Disk, r: string)
    requires d0.marker.Some?
  {
    && d.dirs - {r} == d0.dirs
    && Moved(d0.live, map[], d.live, DirOf(d.dirs, r), SAVED)
  }

  /** In the second: `r` has them all, and the staged files are on their way. */
  ghost predicate Installing(d0: Disk, d: Disk, r: string)
    requires d0.marker.Some?
  {
    var stage := d0.marker.value.stage;
    && stage in d.dirs && r in d.dirs && d.dirs[r] == Only(d0.live, SAVED)
    && d.dirs - {r, stage} == d0.dirs - {stage}
    && Moved(StagedFiles(d0), d0.live - SAVED, d.dirs[stage], d.live, StagedFiles(d0).Keys)
  }

  /** In the last: everything is installed, and some of the finishing is done. */
  ghost predicate Settling(h: Host, schema: nat, d0: Disk, d: Disk, r: string, secrets: set<Content>)
    requires d0.marker.Some?
  {
    var stage := d0.marker.value.stage;
    && r in d.dirs && d.dirs[r] == Only(d0.live, SAVED)
    && d.dirs - {r, stage} == d0.dirs - {stage}
    && Finishing(h, schema, d0.marker.value.mode, Installed(d0), d.live, secrets)
  }

  /** Every disk that boots leave behind, interrupted after any durable step. */
  ghost predicate Inv(h: Host, schema: nat, d0: Disk, d: Disk, names: set<string>, secrets: set<Content>)
    requires Staged(h, schema, d0)
  {
    && d.marker.Some?
    && var m := d.marker.value;
    && m == d0.marker.value.(phase := m.phase, rollback := m.rollback)
    && if m.rollback.None? then d == d0
       else m.rollback.value in names && match m.phase
         case Prepared => Saving(d0, d, m.rollback.value)
         case OldMoved => Installing(d0, d, m.rollback.value)
         case NewInstalled => Settling(h, schema, d0, d, m.rollback.value, secrets)
  }

  /** No reachable disk has lost a file: each of the eight that was there before is intact either
      where it was, or in the rollback directory, never in both; and it is in the rollback
      directory from the second phase on. */
  lemma NothingIsLost(h: Host, schema: nat, d0: Disk, d: Disk, names: set<string>, secrets: set<Content>, n: Name)
    requires Staged(h, schema, d0) && FreshNames(d0, names) && Inv(h, schema, d0, d, names, secrets)
    requires n in SAVED && n in d0.live
    ensures var m := d.marker.value;
      var saved := if m.rollback.Some? then DirOf(d.dirs, m.rollback.value) else map[];
      if m.phase.Prepared? then
        || (n in d.live && d.live[n] == d0.live[n] && n !in saved)
        || (n !in d.live && n in saved && saved[n] == d0.live[n])
      else n in saved && saved[n] == d0.live[n]
  {
  }

  /** Everything else in the data directory is untouched, but for the two settings files. */
  lemma OthersStay(h: Host, schema: nat, d0: Disk, d: Disk, names: set<string>, secrets: set<Content>, n: Name)
    requires Staged(h, schema, d0) && FreshNames(d0, names) && Inv(h, schema, d0, d, names, secrets)
    requires n !in SAVED && n != BackupSecrets && n != BackupStatus && n in d0.live
    ensures n in d.live && d.live[n] == d0.live[n]
  {
    assert !Reset(n);
  }

  /** Sessions signed with the old secret stay dead: once the files are saved, a live secret is
      one of those made since. */
  lemma OldSecretNeverReturns(h: Host, schema: nat, d0: Disk, d: Disk, names: set<string>, secrets: set<Content>)
    requires Staged(h, schema, d0) && FreshNames(d0, names) && Inv(h, schema, d0, d, names, secrets)
    requires !d.marker.value.phase.Prepared? && Secret in d.live
    ensures d.live[Secret] in secrets && d.marker.value.phase.NewInstalled?
  {
    StageIsArchived(h, schema, d0);
  }

  /** A sound stage holds exactly the files of its manifest, and only files that archives hold. */
  lemma StageIsArchived(h: Host, schema: nat, d0: Disk)
    requires Staged(h, schema, d0)
    ensures StagedFiles(d0).Keys == EntryNames(d0.marker.value.manifest.entries)
    ensures StagedFiles(d0).Keys <= ARCHIVED
    ensures VotportDb in StagedFiles(d0) && ReceiptKey in StagedFiles(d0)
    ensures |StagedFiles(d0)[ReceiptKey]| == KEY_LENGTH
    ensures PushIssuerKey in StagedFiles(d0) ==> |StagedFiles(d0)[PushIssuerKey]| == KEY_LENGTH
    ensures PushCrt in StagedFiles(d0) <==> PushKey in StagedFiles(d0)
    ensures PushCrt in StagedFiles(d0) ==> h.pairs(StagedFiles(d0)[PushCrt], StagedFiles(d0)[PushKey])
    ensures VotportDb in Installed(d0) && Installed(d0)[VotportDb] == StagedFiles(d0)[VotportDb]
    ensures Secret !in Installed(d0)
  {
  }

  lemma SaveKeepsInv(h: Host, schema: nat, d0: Disk, d: Disk, d': Disk, names: set<string>, secrets: set<Content>,
                     token: string, step: Step)
    requires Staged(h, schema, d0) && FreshNames(d0, names) && Inv(h, schema, d0, d, names, secrets)
    requires d.marker.value.phase.Prepared? && ROLLBACK_PREFIX + token in names
    requires SaveStep(d.marker.value, token, d, d', step)
    ensures Inv(h, schema, d0, d', names, secrets) && !step.Refused?
  {
    var m := d.marker.value;
    var r := Rollback(m, token);
    assert Saving(d0, d, r) by {
      if m.rollback.None? {
        assert d.dirs - {r} == d0.dirs;
        MoveNone(d0.live, map[], SAVED);
      }
    }
    SavingGoesOn(d0, d, d', m, token, step);
    if step.Done? { SavingEnds(d0, d', r); }
  }

  lemma SavingGoesOn(d0: Disk, d: Disk, d': Disk, m: Marker, token: string, step: Step)
    requires d0.marker.Some? && SaveStep(m, token, d, d', step) && Saving(d0, d, Rollback(m, token))
    requires ROLLBACK_PREFIX <= Rollback(m, token) && '/' !in Rollback(m, token)
    ensures Saving(d0, d', Rollback(m, token)) && !step.Refused?
  {
    var r := Rollback(m, token);
    MoveOn(d0.live, map[], d.live, DirOf(d.dirs, r), d'.live, DirOf(d'.dirs, r), SAVED);
  }

  lemma SavingEnds(d0: Disk, d: Disk, r: string)
    requires d0.marker.Some? && Saving(d0, d, r) && d.live.Keys !! SAVED && r in d.dirs
    requires d0.marker.value.stage in d0.dirs && r !in d0.dirs
    ensures Installing(d0, d, r)
  {
    var stage := d0.marker.value.stage;
    MoveAll(d0.live, map[], d.live, d.dirs[r], SAVED);
    MoveNone(StagedFiles(d0), d0.live - SAVED, StagedFiles(d0).Keys);
    assert stage in d.dirs - {r};
    assert d.dirs - {r, stage} == (d.dirs - {r}) - {stage};
  }

  /** What a sound stage is worth to the installing phase, over the files that stay. */
  ghost predicate Installable(h: Host, schema: nat, manifest: Manifest, staged: Dir, base: Dir) {
    && staged.Keys == EntryNames(manifest.entries) && base.Keys !! staged.Keys
    && DigestsMatch(h, staged, manifest.entries) && DatabaseFits(h, staged, manifest, schema)
  }

  lemma StageIsInstallable(h: Host, schema: nat, d0: Disk)
    requires Staged(h, schema, d0)
    ensures Installable(h, schema, d0.marker.value.manifest, StagedFiles(d0), d0.live - SAVED)
  {
    StageIsArchived(h, schema, d0);
  }

  /** Wherever the installing phase stopped, each file of the manifest is in exactly one of its
      two places and matches its digest there. */
  lemma PlacedOnce(h: Host, schema: nat, manifest: Manifest, staged: Dir, base: Dir, stage: Dir, live: Dir)
    requires Installable(h, schema, manifest, staged, base) && Moved(staged, base, stage, live, staged.Keys)
    ensures forall n :: n in staged ==> (n in stage) != (n in live)
    ensures forall n :: n in stage ==> n in staged && stage[n] == staged[n]
    ensures forall n :: n in staged && n in live ==> live[n] == staged[n]
  {
  }

  /** So, absent tampering, none of the refusals of the installing phase can happen. */
  lemma NoObstacle(h: Host, schema: nat, manifest: Manifest, staged: Dir, base: Dir, stage: Dir, live: Dir)
    requires Installable(h, schema, manifest, staged, base) && Moved(staged, base, stage, live, staged.Keys)
    ensures forall e, error :: e in manifest.entries ==> !Obstacle(h, stage, live, e, error)
    ensures DigestsMatch(h, live, manifest.entries) ==> DatabaseFits(h, live, manifest, schema)
  {
    PlacedOnce(h, schema, manifest, staged, base, stage, live);
    assert forall e :: e in manifest.entries ==> e.name in staged && h.fingerprint(staged[e.name]) == e.digest;
    assert exists e :: e in manifest.entries && e.name == VotportDb;
  }

  lemma AllInstalled(h: Host, schema: nat, manifest: Manifest, staged: Dir, base: Dir, stage: Dir, live: Dir)
    requires Installable(h, schema, manifest, staged, base) && Moved(staged, base, stage, live, staged.Keys)
    requires forall e :: e in manifest.entries ==> e.name !in stage
    ensures stage == map[] && live == base + staged
  {
    PlacedOnce(h, schema, manifest, staged, base, stage, live);
    assert forall n :: n in EntryNames(manifest.entries) ==> n !in stage;
    assert Only(staged, staged.Keys - stage.Keys) == staged;
  }

  lemma InstallKeepsInv(h: Host, schema: nat, d0: Disk, d: Disk, d': Disk, names: set<string>, secrets: set<Content>,
                        step: Step)
    requires Staged(h, schema, d0) && FreshNames(d0, names) && Inv(h, schema, d0, d, names, secrets)
    requires d.marker.value.phase.OldMoved? && InstallStep(h, schema, d.marker.value, d, d', step)
    ensures Inv(h, schema, d0, d', names, secrets) && !step.Refused? && Secret !in d'.live
  {
    var m := d.marker.value;
    assert m.rollback.value != m.stage;
    StageIsInstallable(h, schema, d0);
    StageIsArchived(h, schema, d0);
    InstallGoesOn(h, schema, d0, d, d', m, m.rollback.value, step);
    assert Secret !in d'.live;
    if step.Done? { InstallEnds(h, schema, d0, d', m.rollback.value, secrets); }
  }

  lemma InstallGoesOn(h: Host, schema: nat, d0: Disk, d: Disk, d': Disk, m: Marker, r: string, step: Step)
    requires d0.marker.Some? && m.stage == d0.marker.value.stage && m.manifest == d0.marker.value.manifest
    requires Installable(h, schema, m.manifest, StagedFiles(d0), d0.live - SAVED)
    requires InstallStep(h, schema, m, d, d', step) && r != m.stage && Installing(d0, d, r)
    ensures Installing(d0, d', r) && !step.Refused?
  {
    var staged, base, stage := StagedFiles(d0), d0.live - SAVED, m.stage;
    MoveOn(staged, base, d.dirs[stage], d.live, d'.dirs[stage], d'.live, staged.Keys);
    NoObstacle(h, schema, m.manifest, staged, base, d'.dirs[stage], d'.live);
    SameElsewhere(d.dirs, d'.dirs, stage, r);
  }

  lemma SameElsewhere(dirs: map<string, Dir>, dirs': map<string, Dir>, stage: string, r: string)
    requires dirs' - {stage} == dirs - {stage} && r != stage && r in dirs
    ensures r in dirs' && dirs'[r] == dirs[r] && dirs' - {r, stage} == dirs - {r, stage}
  {
    assert dirs - {r, stage} == dirs - {stage} - {r};
    assert dirs' - {r, stage} == dirs' - {stage} - {r};
    assert r in dirs - {stage} && r in dirs' - {stage};
    assert (dirs' - {stage})[r] == dirs'[r];
  }

  lemma InstallEnds(h: Host, schema: nat, d0: Disk, d: Disk, r: string, secrets: set<Content>)
    requires d0.marker.Some? && Installing(d0, d, r)
    requires Installable(h, schema, d0.marker.value.manifest, StagedFiles(d0), d0.live - SAVED)
    requires forall e :: e in d0.marker.value.manifest.entries ==> e.name !in d.dirs[d0.marker.value.stage]
    ensures Settling(h, schema, d0, d, r, secrets)
  {
    var m := d0.marker.value;
    AllInstalled(h, schema, m.manifest, StagedFiles(d0), d0.live - SAVED, d.dirs[m.stage], d.live);
  }

  lemma FinishKeepsInv(h: Host, schema: nat, d0: Disk, d: Disk, d': Disk, names: set<string>, secrets: set<Content>,
                       draw: Draw, step: Step)
    requires Sound(h) && Staged(h, schema, d0) && FreshNames(d0, names) && Inv(h, schema, d0, d, names, secrets)
    requires d.marker.value.phase.NewInstalled? && draw.Contents() <= secrets
    requires FinishStep(h, schema, d.marker.value, draw, d, d', step)
    ensures !step.Refused? && (step.Dead() ==> Inv(h, schema, d0, d', names, secrets))
    ensures step.Done? ==> d' == FinalDisk(h, schema, d0, d.marker.value.rollback.value,
                                           if Secret in d.live then d.live[Secret] else draw.whole)
    ensures step.Done? ==> Restored(h, schema, d0, d', names, secrets)
  {
    var m, from := d.marker.value, Installed(d0);
    var r := m.rollback.value;
    assert r != m.stage;
    StageIsInstallable(h, schema, d0);
    StageIsArchived(h, schema, d0);
    FinishingGoesOn(h, schema, m.mode, from, d.live, d'.live, secrets, draw.Contents());
    StageDropped(d0.dirs, d.dirs, d'.dirs, m.stage, r);
    if step.Done? {
      FinishedAgain(h, schema, m.mode, from, d.live, secrets, draw.whole);
      assert d' == FinalDisk(h, schema, d0, r, if Secret in d.live then d.live[Secret] else draw.whole);
    }
  }

  lemma FinishMakes(h: Host, schema: nat, m: Marker, draw: Draw, d: Disk, d': Disk, step: Step)
    requires d.marker == Some(m) && m.phase.NewInstalled? && FinishStep(h, schema, m, draw, d, d', step)
    ensures Makes(d, d', step, draw)
  {
  }

  lemma StageDropped(dirs0: map<string, Dir>, dirs: map<string, Dir>, dirs': map<string, Dir>, stage: string, r: string)
    requires r in dirs && r != stage && dirs - {r, stage} == dirs0 - {stage}
    requires dirs' == dirs || dirs' == dirs - {stage}
    ensures r in dirs' && dirs'[r] == dirs[r] && dirs' - {r, stage} == dirs0 - {stage}
    ensures stage !in dirs' ==> dirs' == (dirs0 - {stage})[r := dirs[r]]
  {
    assert (dirs - {stage}) - {r, stage} == dirs - {r, stage};
    if stage !in dirs' {
      var final := (dirs0 - {stage})[r := dirs[r]];
      forall n ensures (n in dirs' <==> n in final) && (n in dirs' ==> dirs'[n] == final[n]) {
        if n != r && n != stage {
          assert n in dirs <==> n in dirs - {r, stage};
        }
      }
    }
  }

  /** The end of the restore, for one of the rollback names and one of the secrets offered. */
  ghost predicate Restored(h: Host, schema: nat, d0: Disk, d: Disk, names: set<string>, secrets: set<Content>)
    requires Staged(h, schema, d0)
  {
    exists r, secret :: r in names && secret in secrets && d == FinalDisk(h, schema, d0, r, secret)
  }

  lemma FinishingGoesOn(h: Host, schema: nat, mode: Mode, from: Dir, mid: Dir, to: Dir, secrets: set<Content>,
                        drawn: set<Content>)
    requires Sound(h) && drawn <= secrets && VotportDb in from && h.databaseFits(from[VotportDb], schema)
    requires Finishing(h, schema, mode, from, mid, secrets) && Finishing(h, schema, mode, mid, to, drawn)
    ensures Finishing(h, schema, mode, from, to, secrets) && h.databaseFits(mid[VotportDb], schema)
  {
  }

  /** Finishing what was half finished gives what finishing at once would have given. */
  lemma FinishedAgain(h: Host, schema: nat, mode: Mode, from: Dir, mid: Dir, secrets: set<Content>, secret: Content)
    requires Sound(h) && VotportDb in from && h.databaseFits(from[VotportDb], schema) && Secret !in from
    requires Finishing(h, schema, mode, from, mid, secrets)
    ensures FinishedLive(h, schema, mode, mid, secret)
         == FinishedLive(h, schema, mode, from, if Secret in mid then mid[Secret] else secret)
  {
    var kept := if Secret in mid then mid[Secret] else secret;
    var a, b := FinishedLive(h, schema, mode, mid, secret), FinishedLive(h, schema, mode, from, kept);
    forall n ensures (n in a <==> n in b) && (n in a ==> a[n] == b[n]) {
      if !Reset(n) {
        assert n in a <==> n in mid;
      }
    }
  }

  // ------------------------------------------------------------------- the checks of a boot

  /** `read_pending_restore` and the checks before the first phase that applies. */
  function BootProblem(h: Host, schema: nat, d: Disk): Option<Error>
    requires d.marker.Some?
  {
    var m := d.marker.value;
    if !StageNamed(m.stage) then Some(InvalidStage)
    else if m.version != VERSION || m.manifest.version != VERSION || m.manifest.schemaVersion != schema then
      Some(InvalidMarker)
    else if m.phase.Prepared? then
      if m.stage !in d.dirs then Some(InvalidStage) else StageProblem(h, d.dirs[m.stage], m.manifest, schema)
    else if m.phase.OldMoved? then
      var holder := if VotportDb in DirOf(d.dirs, m.stage) then d.dirs[m.stage] else d.live;
      if DatabaseFits(h, holder, m.manifest, schema) then None else Some(InvalidDatabase)
    else None
  }

  /** A boot goes on from a marker that no boot has touched exactly if the stage is sound. */
  lemma FirstBootNeedsSoundStage(h: Host, schema: nat, d: Disk)
    requires d.marker.Some? && d.marker.value.phase.Prepared? && d.marker.value.rollback.None?
    ensures BootProblem(h, schema, d) == None <==> Staged(h, schema, d)
  {
  }

  /** From there on the checks pass on every disk an interrupted boot leaves. */
  lemma NoBootProblem(h: Host, schema: nat, d0: Disk, d: Disk, names: set<string>, secrets: set<Content>)
    requires Staged(h, schema, d0) && FreshNames(d0, names) && Inv(h, schema, d0, d, names, secrets)
    ensures BootProblem(h, schema, d) == None
  {
    var m := d.marker.value;
    if m.rollback.Some? && m.phase.Prepared? {
      assert m.stage in d.dirs - {m.rollback.value};
    } else if m.phase.OldMoved? {
      StageIsInstallable(h, schema, d0);
      PlacedOnce(h, schema, m.manifest, StagedFiles(d0), d0.live - SAVED, d.dirs[m.stage], d.live);
    }
  }

  /** A begun restore: its marker and rollback directory are what the next boot finishes from. */
  predicate Begun(m: Marker) { !m.phase.Prepared? || m.rollback.Some? }

  /** The marker, if there is one, names a stage that exists. */
  predicate NamesStage(d: Disk) { d.marker.Some? ==> d.marker.value.stage in d.dirs }

  // ----------------------------------------------------------------------- the new secret

  /** The session secret a restore has made so far. */
  function Made(d: Disk): Option<Content> {
    if d.marker.Some? && !d.marker.value.phase.NewInstalled? then None else SecretOf(d.live)
  }

  /** What a boot makes of the secret: one already made stays, and one that dies having created
      the file and not filled it leaves part of one. */
  predicate Makes(d: Disk, d': Disk, step: Step, draw: Draw) {
    if Made(d).Some? then Made(d') == Made(d) && !step.Cut?
    else if step.Cut? then Made(d') == Some(draw.part)
    else if step.Done? then Made(d') == Some(draw.whole)
    else Made(d') in {None, Some(draw.whole)}
  }

  // -------------------------------------------------------------------- the steps left to do

  /** What a restore has ahead of it: files to save and to install, in durable steps, and then the
      last phase, of which it matters whether the secret is made and the stage still there. */
  datatype Work = FilesLeft(saving: nat, installing: nat) | LastPhase(made: bool, staged: bool)
  {
    function Moves(): nat { if FilesLeft? then saving + installing else 0 }

    function Saved(): Work { if FilesLeft? then FilesLeft(0, installing) else this }

    function Moved(): Work { if FilesLeft? then LastPhase(false, true) else this }

    /** The steps of the last phase before the stage goes: the database, the two settings files, the
        secret if it is missing, and what the database leaves behind. */
    function BeforeStage(leftover: nat): nat { 3 + (if LastPhase? && made then 0 else 2) + leftover }

    /** Then the stage, and the marker. */
    function Total(leftover: nat): nat {
      Moves() + BeforeStage(leftover) + (if LastPhase? && !staged then 0 else 1) + 1
    }

    /** How a boot that lives for `budget` steps ends. */
    function Ending(budget: nat, leftover: nat): Step {
      if budget >= Total(leftover) then Done
      else if !(LastPhase? && made) && budget == Moves() + 4 then Cut
      else Interrupted
    }

    /** What a boot that dies while files move leaves to do. Naming the rollback directory in the
        marker is done anew by each boot. */
    function Moving(budget: nat): Work
      requires budget < Moves()
    {
      if budget == 0 then this
      else if budget < saving then FilesLeft(saving - (budget - 1), installing)
      else FilesLeft(0, Moves() - budget)
    }

    /** And one that dies in the last phase, whose other steps are done anew. */
    function Finishing(budget: nat, leftover: nat): Work {
      LastPhase((LastPhase? && made) || budget >= 4, (FilesLeft? || staged) && budget <= BeforeStage(leftover))
    }

    function After(budget: nat, leftover: nat): Work {
      if budget < Moves() then Moving(budget) else Finishing(budget - Moves(), leftover)
    }
  }

  /** How many of the files named are there. */
  function Among(names: seq<Name>, d: Dir): (n: nat)
    ensures n <= |names|
  {
    if names == [] then 0
    else Among(names[..|names| - 1], d) + if names[|names| - 1] in d then 1 else 0
  }

  predicate Distinct(names: seq<Name>) { forall i, j :: 0 <= i < j < |names| ==> names[i] != names[j] }

  lemma {:induction false} AllAmong(names: seq<Name>, d: Dir)
    ensures (forall i :: 0 <= i < |names| ==> names[i] in d) ==> Among(names, d) == |names|
    ensures (forall i :: 0 <= i < |names| ==> names[i] !in d) ==> Among(names, d) == 0
  {
    if names != [] { AllAmong(names[..|names| - 1], d); }
  }

  lemma {:induction false} OneLess(names: seq<Name>, d: Dir, name: Name)
    requires Distinct(names)
    ensures Among(names, d - {name}) == Among(names, d) - if name in names && name in d then 1 else 0
  {
    if names != [] { OneLess(names[..|names| - 1], d, name); }
  }

  lemma LiveFilesDiffer()
    ensures Distinct(LIVE_FILES)
  {
  }

  function NamesOf(entries: seq<Entry>): (names: seq<Name>)
    ensures |names| == |entries|
  {
    seq(|entries|, i requires 0 <= i < |entries| => entries[i].name)
  }

  lemma LastEntry(rest: seq<Entry>, last: Entry)
    ensures EntryNames(rest + [last]) == EntryNames(rest) + {last.name}
    ensures NamesOf(rest + [last]) == NamesOf(rest) + [last.name]
  {
    assert forall e :: e in rest + [last] <==> e in rest || e == last;
  }

  lemma OneMoreName(names: seq<Name>, name: Name)
    requires Distinct(names) && name !in names
    ensures Distinct(names + [name])
  {
  }

  lemma {:induction false} NamedOnce(entries: seq<Entry>)
    ensures |EntryNames(entries)| <= |entries|
    ensures |EntryNames(entries)| == |entries| ==> Distinct(NamesOf(entries))
  {
    if entries != [] {
      var rest, last := entries[..|entries| - 1], entries[|entries| - 1];
      assert entries == rest + [last];
      NamedOnce(rest);
      LastEntry(rest, last);
      assert forall i :: 0 <= i < |rest| ==> rest[i] in rest && NamesOf(rest)[i] in EntryNames(rest);
      if |EntryNames(entries)| == |entries| { OneMoreName(NamesOf(rest), last.name); }
    }
  }

  function SavingWork(d: Disk, r: Option<string>): nat {
    (if r.Some? && r.value in d.dirs then 2 else 3) + Among(LIVE_FILES, d.live)
  }

  function InstallingWork(d: Disk, m: Marker): nat {
    1 + Among(NamesOf(m.manifest.entries), DirOf(d.dirs, m.stage))
  }

  lemma MoveLive(name: Name, live0: Dir, saved0: Dir, live: Dir, saved: Dir)
    requires Moved(live0, saved0, live, saved, SAVED) && name in live && name !in saved && name in SAVED
    ensures Moved(live0, saved0, live - {name}, saved[name := live[name]], SAVED)
    ensures Among(LIVE_FILES, live - {name}) + 1 == Among(LIVE_FILES, live)
  {
    MoveOne(live0, saved0, live, saved, SAVED, name);
    LiveFilesDiffer();
    OneLess(LIVE_FILES, live, name);
  }

  /** Files of the manifest that are installed, match their digests and are staged no more. */
  predicate Placed(h: Host, stage: Dir, live: Dir, entries: seq<Entry>) {
    DigestsMatch(h, live, entries) && forall e :: e in entries ==> e.name !in stage
  }

  lemma PlaceOne(h: Host, stage: Dir, live: Dir, stage': Dir, live': Dir, entries: seq<Entry>, e: Entry)
    requires Placed(h, stage, live, entries) && Placed(h, stage', live', [e])
    requires (stage' == stage && live' == live) || (e.name in stage && e.name !in live
               && live' == live[e.name := stage[e.name]] && stage' == stage - {e.name})
    ensures Placed(h, stage', live', entries + [e])
  {
    assert e in [e];
  }

  lemma MoveEntry(entries: seq<Entry>, e: Entry, stage0: Dir, live0: Dir, stage: Dir, live: Dir)
    requires Moved(stage0, live0, stage, live, EntryNames(entries))
    requires e in entries && e.name in stage && e.name !in live
    ensures Moved(stage0, live0, stage - {e.name}, live[e.name := stage[e.name]], EntryNames(entries))
    ensures Distinct(NamesOf(entries)) ==>
      Among(NamesOf(entries), stage - {e.name}) + 1 == Among(NamesOf(entries), stage)
  {
    MoveOne(stage0, live0, stage, live, EntryNames(entries), e.name);
    if Distinct(NamesOf(entries)) {
      var i :| 0 <= i < |entries| && entries[i] == e;
      assert NamesOf(entries)[i] == e.name;
      OneLess(NamesOf(entries), stage, e.name);
    }
  }

  /** A phase that is done took its steps; one that died had fewer. */
  predicate Pays(cost: nat, before: nat, after: nat, step: Step) {
    match step
    case Done => before == after + cost
    case Refused(_) => true
    case _ => before < cost && after == 0
  }

  /** So does the saving phase, and naming the rollback directory is the one step it does anew. */
  predicate SavePaid(m: Marker, r: string, d: Disk, d': Disk, step: Step, before: nat, after: nat) {
    && Pays(SavingWork(d, Some(r)), before, after, step)
    && (step.Interrupted? && before == 0 ==> d' == d)
    && (step.Interrupted? && before > 0 ==>
          d'.marker == Some(m.(rollback := Some(r))) && SavingWork(d', Some(r)) + before - 1 == SavingWork(d, Some(r)))
  }

  /** The installing phase does nothing anew. */
  predicate InstallPaid(m: Marker, d: Disk, d': Disk, step: Step, before: nat, after: nat) {
    && Pays(InstallingWork(d, m), before, after, step)
    && (step.Interrupted? ==> InstallingWork(d', m) + before == InstallingWork(d, m))
  }

  function WorkOf(d: Disk): Work {
    match d.marker
    case None => LastPhase(true, false)
    case Some(m) =>
      match m.phase
      case Prepared => FilesLeft(SavingWork(d, m.rollback), InstallingWork(d, m))
      case OldMoved => FilesLeft(0, InstallingWork(d, m))
      case NewInstalled => LastPhase(Secret in d.live, m.stage in d.dirs)
  }

  /** What the database library left beside the database. */
  function Leftovers(live: Dir): nat { (if Wal in live then 1 else 0) + (if Shm in live then 1 else 0) }

  /** Phases that move files, from the work `w` down to `done`. */
  predicate MovesOn(w: Work, w': Work, done: Work, before: nat, after: nat, step: Step) {
    match step
    case Done => before + done.Moves() == after + w.Moves() && w' == done
    case Interrupted => before + done.Moves() < w.Moves() && after == 0 && w' == w.Moving(before)
    case Cut => false
    case Refused(_) => true
  }

  lemma MovesOnTwice(w: Work, mid: Work, w': Work, before: nat, between: nat, after: nat, first: Step, step: Step)
    requires MovesOn(w, mid, w.Saved(), before, between, first) && first.Done?
    requires MovesOn(mid, w', mid.Moved(), between, after, step)
    ensures MovesOn(w, w', w.Moved(), before, after, step)
  {
  }

  lemma SavingMovesOn(m: Marker, token: string, d: Disk, d': Disk, step: Step, before: nat, after: nat)
    requires d.marker == Some(m) && m.phase.Prepared? && SaveStep(m, token, d, d', step)
    requires SavePaid(m, Rollback(m, token), d, d', step, before, after)
    requires Rollback(m, token) != m.stage && (m.rollback.None? ==> Rollback(m, token) !in d.dirs)
    ensures MovesOn(WorkOf(d), WorkOf(d'), WorkOf(d).Saved(), before, after, step)
  {
    var r := Rollback(m, token);
    assert m.stage in d'.dirs <==> m.stage in d'.dirs - {r};
    assert m.stage in d.dirs <==> m.stage in d.dirs - {r};
    assert m.stage in d.dirs ==> d'.dirs[m.stage] == (d'.dirs - {r})[m.stage] == (d.dirs - {r})[m.stage];
  }

  lemma InstallingMovesOn(h: Host, schema: nat, m: Marker, d: Disk, d': Disk, step: Step, before: nat, after: nat)
    requires d.marker == Some(m) && m.phase.OldMoved? && InstallStep(h, schema, m, d, d', step) && Secret !in d'.live
    requires InstallPaid(m, d, d', step, before, after)
    ensures MovesOn(WorkOf(d), WorkOf(d'), WorkOf(d).Moved(), before, after, step)
  {
  }

  lemma FinishAfterMoves(w: Work, budget: nat, leftover: nat)
    requires budget >= w.Moves()
    ensures w.Moved().Ending(budget - w.Moves(), leftover) == w.Ending(budget, leftover)
    ensures w.Moved().After(budget - w.Moves(), leftover) == w.After(budget, leftover)
  {
  }

  /** The name of a rollback directory to be is not that of the stage, nor taken. */
  lemma RollbackIsNew(h: Host, schema: nat, d0: Disk, d: Disk, names: set<string>, secrets: set<Content>, token: string)
    requires Staged(h, schema, d0) && FreshNames(d0, names) && Inv(h, schema, d0, d, names, secrets)
    requires ROLLBACK_PREFIX + token in names
    ensures var m := d.marker.value;
      Rollback(m, token) != m.stage && (m.rollback.None? ==> Rollback(m, token) !in d.dirs)
  {
  }

  /** The last phase, over a sound database. */
  predicate FinishPaid(m: Marker, d: Disk, d': Disk, step: Step, budget: nat, leftover: nat) {
    var clear := 3 + (if Secret in d.live then 0 else 2) + leftover;
    && (step.Done? <==> budget >= clear + (if m.stage in d.dirs then 1 else 0) + 1)
    && (step.Cut? <==> Secret !in d.live && budget == 4)
    && (step.Dead() ==> (Secret in d'.live <==> Secret in d.live || budget >= 4))
    && (step.Dead() ==> (m.stage in d'.dirs <==> m.stage in d.dirs && budget <= clear))
  }

  lemma FinishingPays(m: Marker, d: Disk, d': Disk, step: Step, budget: nat, leftover: nat)
    requires d.marker == Some(m) && m.phase.NewInstalled? && (step.Dead() ==> d'.marker == Some(m))
    requires FinishPaid(m, d, d', step, budget, leftover) && !step.Refused?
    ensures step == WorkOf(d).Ending(budget, leftover)
    ensures step.Dead() ==> WorkOf(d') == WorkOf(d).After(budget, leftover)
  {
  }

  lemma AllStaged(h: Host, schema: nat, d0: Disk)
    requires Staged(h, schema, d0)
    ensures var entries := d0.marker.value.manifest.entries; Among(NamesOf(entries), StagedFiles(d0)) == |entries|
  {
    var entries := d0.marker.value.manifest.entries;
    StageIsArchived(h, schema, d0);
    assert forall i :: 0 <= i < |entries| ==> entries[i] in entries && NamesOf(entries)[i] in EntryNames(entries);
    AllAmong(NamesOf(entries), StagedFiles(d0));
  }

  /** The work of a restore about to begin, counted off its disk. */
  lemma WorkAtFirst(h: Host, schema: nat, d0: Disk)
    requires Staged(h, schema, d0)
    ensures WorkOf(d0) == FilesLeft(3 + Among(LIVE_FILES, d0.live), 1 + |d0.marker.value.manifest.entries|)
  {
    AllStaged(h, schema, d0);
  }

  lemma EntriesDiffer(h: Host, schema: nat, d0: Disk)
    requires Staged(h, schema, d0)
    ensures Distinct(NamesOf(d0.marker.value.manifest.entries))
  {
    NamedOnce(d0.marker.value.manifest.entries);
  }

  // ------------------------------------------------------------------------ the end of a run

  /** What the last phase makes of the installed files. */
  lemma FinishedHolds(h: Host, schema: nat, mode: Mode, from: Dir, secret: Content)
    requires VotportDb in from && Secret !in from
    ensures var live := FinishedLive(h, schema, mode, from, secret);
      && VotportDb in live && live[VotportDb] == h.prepare(from[VotportDb], schema, mode)
      && Secret in live && live[Secret] == secret && Wal !in live && Shm !in live
      && (forall n :: !Reset(n) ==> (n in live <==> n in from))
      && (forall n :: !Reset(n) && n in from ==> live[n] == from[n])
    ensures FinishedLive(h, schema, mode, from, secret) - {Secret} == FinishedLive(h, schema, mode, from, "") - {Secret}
  {
  }

  lemma FinalLive(h: Host, schema: nat, manifest: Manifest, mode: Mode, staged: Dir, base: Dir, secret: Content)
    requires Installable(h, schema, manifest, staged, base) && Secret !in staged && Secret !in base
    ensures var live := FinishedLive(h, schema, mode, base + staged, secret);
      && live[VotportDb] == h.prepare(staged[VotportDb], schema, mode)
      && (forall e :: e in manifest.entries && !Reset(e.name) ==>
            e.name in live && h.fingerprint(live[e.name]) == e.digest)
      && (forall n :: n in live && !Reset(n) && n !in base ==> n in EntryNames(manifest.entries))
  {
    FinishedHolds(h, schema, mode, base + staged, secret);
    assert forall e :: e in manifest.entries ==> e.name in staged && h.fingerprint(staged[e.name]) == e.digest;
  }

  lemma FinalDirs(dirs0: map<string, Dir>, stage: string, r: string, saved: Dir)
    requires r != stage
    ensures var dirs := (dirs0 - {stage})[r := saved];
      && stage !in dirs && r in dirs && dirs[r] == saved
      && (r !in dirs0 ==> dirs - {r} == dirs0 - {stage})
  {
  }

  /** What a finished restore holds, name by name: the files of the manifest, the prepared
      database, the new secret, nothing left over of what was live before, and that in the
      rollback directory. */
  lemma FinalDiskHolds(h: Host, schema: nat, d0: Disk, r: string, secret: Content)
    requires Staged(h, schema, d0) && r != d0.marker.value.stage
    ensures var m, d := d0.marker.value, FinalDisk(h, schema, d0, r, secret);
      && d.marker == None && m.stage !in d.dirs
      && r in d.dirs && d.dirs[r] == Only(d0.live, SAVED)
      && (forall e :: e in m.manifest.entries && !Reset(e.name) ==>
            e.name in d.live && h.fingerprint(d.live[e.name]) == e.digest)
      && (forall n :: n in d.live && !Reset(n) && n !in d0.live - SAVED ==> n in EntryNames(m.manifest.entries))
      && VotportDb in d.live && d.live[VotportDb] == h.prepare(StagedFiles(d0)[VotportDb], schema, m.mode)
      && Secret in d.live && d.live[Secret] == secret && Wal !in d.live && Shm !in d.live
  {
    var m := d0.marker.value;
    FinalDirs(d0.dirs, m.stage, r, Only(d0.live, SAVED));
    StageIsArchived(h, schema, d0);
    StageIsInstallable(h, schema, d0);
    FinishedHolds(h, schema, m.mode, Installed(d0), secret);
    FinalLive(h, schema, m.manifest, m.mode, StagedFiles(d0), d0.live - SAVED, secret);
  }

  /** Two ways to the end differ in nothing but the secret and the name of the rollback. */
  lemma EndsAlike(h: Host, schema: nat, d0: Disk, r: string, x: Content, s: string, y: Content)
    requires Staged(h, schema, d0) && FreshNames(d0, {r, s})
    ensures var a, b := FinalDisk(h, schema, d0, r, x), FinalDisk(h, schema, d0, s, y);
      && a.live - {Secret} == b.live - {Secret} && a.marker == b.marker
      && a.dirs - {r} == b.dirs - {s} && a.dirs[r] == b.dirs[s]
  {
    FinalDirs(d0.dirs, d0.marker.value.stage, r, Only(d0.live, SAVED));
    FinalDirs(d0.dirs, d0.marker.value.stage, s, Only(d0.live, SAVED));
    StageIsArchived(h, schema, d0);
    FinishedHolds(h, schema, d0.marker.value.mode, Installed(d0), x);
    FinishedHolds(h, schema, d0.marker.value.mode, Installed(d0), y);
  }
}
