/** The daily sweep over one link: which received files may go, and in what order records
    and bytes go. Paths are the records' stored names. */
module RetentionSweep {
  import opened Wrappers
  import RetentionClock

  const DAY: u64 := 86_400

  datatype FileRecord = FileRecord(storedAs: string, deleted: bool)

  datatype Upload = Upload(id: string, completedAt: u64, files: seq<FileRecord>)

  /** A file of the link as an outbound grant names it. */
  type GrantKey = (string, nat)

  /** What is asked before any file is considered; `None` is a failed read. */
  datatype Gates = Gates(
    storageReady: bool,
    candidateHeld: bool,
    workflowPending: Option<bool>,
    pinned: bool,
    activeSessions: nat,
    linkOpen: bool,
    grants: Option<set<GrantKey>>)

  /** `Killed` is the death of the process between two durable steps. */
  datatype Outcome = Skipped | StorageUnavailable | Failed | Killed | Swept(removed: nat)

  datatype Effect = Tombstoned(paths: set<string>) | Removed(path: string)

  // ------------------------------------------------------------------------------ the window

  function Positive(days: Option<u64>): seq<u64> {
    if days.Some? && days.value > 0 then [days.value] else []
  }

  function Least(s: seq<u64>): u64
    requires s != []
  {
    if |s| == 1 then s[0] else Min(s[0], Least(s[1..]))
  }

  lemma {:induction false} LeastIsLeast(s: seq<u64>)
    requires s != []
    ensures Least(s) in s && forall x :: x in s ==> Least(s) <= x
  {
    if |s| > 1 {
      LeastIsLeast(s[1..]);
      assert s == [s[0]] + s[1..];
    }
  }

  /** `narrowest_retention_days` */
  function NarrowestRetentionDays(globalDays: u64, tenantDays: Option<u64>, linkDays: Option<u64>): Option<u64> {
    var positive := Positive(Some(globalDays)) + Positive(tenantDays) + Positive(linkDays);
    if positive == [] then None else Some(Least(positive))
  }

  predicate SetTo(days: Option<u64>, d: u64) { days == Some(d) && d > 0 }

  /** It is set at some level and no wider than any level that sets one. */
  lemma NarrowestIsNarrowest(globalDays: u64, tenantDays: Option<u64>, linkDays: Option<u64>)
    ensures var r := NarrowestRetentionDays(globalDays, tenantDays, linkDays);
      && (r.Some? ==> SetTo(Some(globalDays), r.value) || SetTo(tenantDays, r.value) || SetTo(linkDays, r.value))
      && forall d :: SetTo(Some(globalDays), d) || SetTo(tenantDays, d) || SetTo(linkDays, d) ==>
           r.Some? && r.value <= d
  {
    var positive := Positive(Some(globalDays)) + Positive(tenantDays) + Positive(linkDays);
    if positive != [] {
      LeastIsLeast(positive);
    }
    forall d | SetTo(Some(globalDays), d) || SetTo(tenantDays, d) || SetTo(linkDays, d) ensures d in positive {
      assert SetTo(Some(globalDays), d) ==> positive[0] == d;
    }
  }

  function Cutoff(now: u64, days: u64): u64 {
    SaturatingSub(now, SaturatingMul(days, DAY))
  }

  /** Saturation only ever keeps more: before the cutoff means the whole window has passed. */
  lemma BeforeCutoffIsOlder(now: u64, days: u64, completedAt: u64)
    ensures completedAt < Cutoff(now, days) ==> completedAt + days * DAY < now
    ensures completedAt + days * DAY < now ==> completedAt < Cutoff(now, days)
  {
  }

  // ------------------------------------------------------------------------------ the records

  predicate Expired(u: Upload, cutoff: u64) { 0 < u.completedAt < cutoff }

  /** A record of `path` that still counts. */
  predicate LiveRecord(u: Upload, path: string) {
    exists i :: 0 <= i < |u.files| && u.files[i].storedAs == path && !u.files[i].deleted
  }

  function LivePaths(u: Upload): (s: set<string>)
    ensures forall p :: p in s <==> LiveRecord(u, p)
  {
    set i | 0 <= i < |u.files| && !u.files[i].deleted :: u.files[i].storedAs
  }

  /** Live paths of the uploads that satisfy `p`. */
  function PathsWhere(uploads: seq<Upload>, p: Upload -> bool): (s: set<string>)
    ensures forall x :: x in s <==> exists u :: u in uploads && p(u) && LiveRecord(u, x)
  {
    if uploads == [] then {}
    else PathsWhere(uploads[1..], p) + (if p(uploads[0]) then LivePaths(uploads[0]) else {})
  }

  function Protected(uploads: seq<Upload>, cutoff: u64): set<string> {
    PathsWhere(uploads, (u: Upload) => u.completedAt == 0 || u.completedAt >= cutoff)
  }

  function Candidates(uploads: seq<Upload>, cutoff: u64, keep: set<string>): set<string> {
    PathsWhere(uploads, (u: Upload) => Expired(u, cutoff)) - keep
  }

  /** A grant refers to `path` through some upload with its id. */
  predicate Grants(key: GrantKey, u: Upload, path: string) {
    u.id == key.0 && key.1 < |u.files| && u.files[key.1].storedAs == path
  }

  ghost predicate DistinctIds(uploads: seq<Upload>) {
    forall i, j :: 0 <= i < j < |uploads| ==> uploads[i].id != uploads[j].id
  }

  function TombstoneUpload(u: Upload, paths: set<string>): Upload {
    u.(files := seq(|u.files|, i requires 0 <= i < |u.files| =>
      if u.files[i].storedAs in paths then u.files[i].(deleted := true) else u.files[i]))
  }

  function TombstoneAll(uploads: seq<Upload>, paths: set<string>): seq<Upload> {
    seq(|uploads|, i requires 0 <= i < |uploads| => TombstoneUpload(uploads[i], paths))
  }

  /** Nothing still on record as `path`. */
  ghost predicate Gone(uploads: seq<Upload>, path: string) {
    forall u :: u in uploads ==> !LiveRecord(u, path)
  }

  /** Some active grant reaches `path`. */
  ghost predicate Reached(uploads: seq<Upload>, grants: set<GrantKey>, path: string) {
    exists u :: u in uploads && ReachedIn(u, grants, path)
  }

  ghost predicate ReachedIn(u: Upload, grants: set<GrantKey>, path: string) {
    exists key :: key in grants && Grants(key, u, path)
  }

  ghost predicate Resolves(uploads: seq<Upload>, key: GrantKey) {
    exists u :: u in uploads && u.id == key.0 && key.1 < |u.files|
  }

  /** What may be removed: it has a live record, every live record is in an upload that
      completed before the cutoff, and no active grant reaches it. */
  ghost predicate Removable(uploads: seq<Upload>, cutoff: u64, grants: set<GrantKey>, path: string) {
    && !Gone(uploads, path)
    && (forall u :: u in uploads && LiveRecord(u, path) ==> Expired(u, cutoff))
    && !Reached(uploads, grants, path)
  }

  lemma CandidatesAreRemovable(uploads: seq<Upload>, cutoff: u64, grants: set<GrantKey>, granted: set<string>,
                               path: string)
    requires path in granted <==> Reached(uploads, grants, path)
    ensures path in Candidates(uploads, cutoff, Protected(uploads, cutoff) + granted)
      <==> Removable(uploads, cutoff, grants, path)
  {
    if Removable(uploads, cutoff, grants, path) {
      var u :| u in uploads && LiveRecord(u, path);
      assert Expired(u, cutoff);
    }
  }

  predicate Open(g: Gates) {
    g.storageReady && !g.candidateHeld && g.workflowPending == Some(false) && g.pinned
    && g.activeSessions == 0 && g.linkOpen && g.grants.Some?
  }

  /** Every gate open, every grant resolved, and the tombstone transaction goes through. */
  ghost predicate Proceeds(uploads: seq<Upload>, g: Gates, stored: bool) {
    Open(g) && stored && forall key: GrantKey :: key in g.grants.value ==> Resolves(uploads, key)
  }

  /** Bytes go only after their record: every removal in the log follows its tombstone. */
  ghost predicate RecordsFirst(log: seq<Effect>) {
    forall i :: 0 <= i < |log| && log[i].Removed? ==>
      exists j :: 0 <= j < i && log[j].Tombstoned? && log[i].path in log[j].paths
  }

  function RemovedIn(log: seq<Effect>): set<string> {
    set i | 0 <= i < |log| && log[i].Removed? :: log[i].path
  }

  function TombstonedIn(log: seq<Effect>): set<string> {
    set i, p | 0 <= i < |log| && log[i].Tombstoned? && p in log[i].paths :: p
  }

  /** The log accounts for all that happened to the records and to the disk. */
  ghost predicate Accounts(log: seq<Effect>, uploads: seq<Upload>, disk: set<string>,
                           uploads': seq<Upload>, disk': set<string>)
  {
    uploads' == TombstoneAll(uploads, TombstonedIn(log)) && disk' == disk - RemovedIn(log)
  }

  /** The removals of these paths, in this order. */
  function Removals(paths: seq<string>): seq<Effect> { seq(|paths|, i requires 0 <= i < |paths| => Removed(paths[i])) }

  class Link {
    var uploads: seq<Upload>
    var disk: set<string>
    // How many more durable steps this process lives for.
    var budget: nat
    ghost var trace: seq<Effect>

    constructor (uploads: seq<Upload>, disk: set<string>, budget: nat)
      ensures this.uploads == uploads && this.disk == disk && this.budget == budget && trace == []
    {
      this.uploads, this.disk, this.budget, trace := uploads, disk, budget, [];
    }

    /** The tombstone transaction. */
    method Tombstone(paths: set<string>) returns (alive: bool)
      modifies this`uploads, this`trace, this`budget
      ensures alive <==> old(budget) > 0
      ensures budget == if alive then old(budget) - 1 else 0
      ensures trace == if alive then old(trace) + [Tombstoned(paths)] else old(trace)
      ensures uploads == if alive then TombstoneAll(old(uploads), paths) else old(uploads)
    {
      alive := budget > 0;
      if alive {
        uploads, trace, budget := TombstoneAll(uploads, paths), trace + [Tombstoned(paths)], budget - 1;
      }
    }

    /** The bytes of one path, which may go only once nothing is on record under it. */
    method RemoveOne(path: string) returns (alive: bool)
      requires Gone(uploads, path)
      modifies this`disk, this`trace, this`budget
      ensures alive <==> old(budget) > 0
      ensures budget == if alive then old(budget) - 1 else 0
      ensures trace == if alive then old(trace) + [Removed(path)] else old(trace)
      ensures disk == if alive then old(disk) - {path} else old(disk)
    {
      alive := budget > 0;
      if alive {
        disk, trace, budget := disk - {path}, trace + [Removed(path)], budget - 1;
      }
    }

    /** The two nested loops that spend each active grant on the file it names and protect it. */
    method ProtectGranted(grants: set<GrantKey>) returns (keep: set<string>, unresolved: set<GrantKey>)
      requires DistinctIds(uploads)
      ensures forall key: GrantKey :: key in unresolved <==> key in grants && !Resolves(uploads, key)
      ensures forall p :: p in keep <==> Reached(uploads, grants, p)
    {
      keep, unresolved := {}, grants;
      for n := 0 to |uploads|
        invariant forall key: GrantKey :: key in unresolved <==> key in grants && !Resolves(uploads[..n], key)
        invariant forall p :: p in keep <==> Reached(uploads[..n], grants, p)
      {
        SplitLast(uploads, n, grants);
        keep, unresolved := ProtectUpload(uploads[n], grants, keep, unresolved);
      }
      assert uploads[..|uploads|] == uploads;
    }

    /** The reads and refusals before any record changes. */
    method SelectExpired(gates: Gates, cutoff: u64, verified: string -> bool)
      returns (outcome: Outcome, eligible: set<string>)
      requires DistinctIds(uploads)
      ensures !outcome.Killed?
      ensures Open(gates) && (forall key :: key in gates.grants.value ==> Resolves(uploads, key)) ==>
        forall p :: p in eligible <==> Removable(uploads, cutoff, gates.grants.value, p) && verified(p)
      ensures !(Open(gates) && forall key :: key in gates.grants.value ==> Resolves(uploads, key)) ==> eligible == {}
    {
      if !gates.storageReady { return StorageUnavailable, {}; }
      if gates.candidateHeld || gates.workflowPending != Some(false) || !gates.pinned
         || gates.activeSessions > 0 || !gates.linkOpen || gates.grants.None? {
        return Skipped, {};
      }
      var granted, unresolved := ProtectGranted(gates.grants.value);
      if unresolved != {} { return Skipped, {}; }
      var candidates := Candidates(uploads, cutoff, Protected(uploads, cutoff) + granted);
      forall p ensures p in candidates <==> Removable(uploads, cutoff, gates.grants.value, p) {
        CandidatesAreRemovable(uploads, cutoff, gates.grants.value, granted, p);
      }
      eligible := set p | p in candidates && verified(p);
      outcome := Swept(0);
    }

    /** `expire_link_uploads_sync`. `verified` is the check before the tombstones, `stored` the
        tombstone transaction, `removable` the check and removal after it. Wherever the process
        dies, the log accounts for every change, each removal after its tombstone. */
    method ExpireUploads(gates: Gates, cutoff: u64, verified: string -> bool, stored: bool, removable: string -> bool)
        returns (outcome: Outcome, ghost tombstoned: set<string>, ghost removals: seq<string>)
      requires DistinctIds(uploads)
      modifies this
      ensures Expiry(old(uploads), old(disk), old(trace), old(budget), uploads, disk, trace, budget,
                     outcome, tombstoned, removals, removable)
      ensures Proceeds(old(uploads), gates, stored) && old(budget) > 0 ==>
        forall p :: p in tombstoned <==> Removable(old(uploads), cutoff, gates.grants.value, p) && verified(p)
      ensures !(Proceeds(old(uploads), gates, stored) && old(budget) > 0) ==> tombstoned == {}
    {
      var eligible;
      outcome, eligible := SelectExpired(gates, cutoff, verified);
      tombstoned, removals := {}, [];
      NothingLogged(uploads, disk);
      if eligible != {} {
        if !stored { return Failed, {}, []; }
        outcome, tombstoned, removals := RemoveEligible(eligible, removable);
      }
    }

    /** The tombstones of all that may go, then the removals. */
    method RemoveEligible(eligible: set<string>, removable: string -> bool)
        returns (outcome: Outcome, ghost tombstoned: set<string>, ghost removals: seq<string>)
      requires eligible != {}
      modifies this
      ensures Expiry(old(uploads), old(disk), old(trace), old(budget), uploads, disk, trace, budget,
                     outcome, tombstoned, removals, removable)
      ensures tombstoned == if old(budget) > 0 then eligible else {}
    {
      tombstoned, removals := {}, [];
      NothingLogged(uploads, disk);
      var alive := Tombstone(eligible);
      if !alive { return Killed, {}, []; }
      tombstoned := eligible;
      forall p | p in eligible ensures Gone(uploads, p) {
        TombstonesEndAll(old(uploads), eligible, p);
      }
      outcome, removals := RemoveEach(eligible, removable);
      EffectsAccount(eligible, removals);
    }

    /** The removals, one path at a time; a refusal leaves that path and goes on. */
    method RemoveEach(eligible: set<string>, removable: string -> bool)
        returns (outcome: Outcome, ghost removals: seq<string>)
      requires forall p :: p in eligible ==> Gone(uploads, p)
      modifies this`disk, this`trace, this`budget
      ensures trace == old(trace) + Removals(removals) && disk == old(disk) - Names(removals)
      ensures budget == old(budget) - |removals|
      ensures Names(removals) <= Taken(eligible, removable)
      ensures outcome.Killed? ==> budget == 0
      ensures !outcome.Killed? ==> Names(removals) == Taken(eligible, removable)
      ensures |Names(removals)| == |removals| && (!outcome.Killed? ==> outcome == Swept(|removals|))
    {
      var todo, removed := eligible, 0;
      removals := [];
      while todo != {}
        invariant todo <= eligible
        invariant trace == old(trace) + Removals(removals) && disk == old(disk) - Names(removals)
        invariant Names(removals) == Taken(eligible - todo, removable) && |Names(removals)| == |removals|
        invariant budget == old(budget) - |removals| && removed == |removals|
        decreases todo
      {
        var path :| path in todo;
        OneMoreTaken(eligible, todo, path, removable, removals);
        if removable(path) {
          var alive := RemoveOne(path);
          if !alive { return Killed, removals; }
          removals := removals + [path];
          removed := removed + 1;
        }
        todo := todo - {path};
      }
      assert eligible - todo == eligible;
      outcome := Swept(removed);
    }
  }

  function Names(paths: seq<string>): set<string> { set p | p in paths }

  /** What a sweep of one link logs: nothing, or the tombstones and then the removals. */
  function Effects(tombstoned: set<string>, removals: seq<string>): seq<Effect> {
    (if tombstoned == {} then [] else [Tombstoned(tombstoned)]) + Removals(removals)
  }

  /** What an expiry does, wherever the process dies: it logs the tombstones and then the removals,
      the log accounts for every change, what was removed is off the record, and unless the
      process died all that could be removed was. */
  ghost predicate Expiry(uploads: seq<Upload>, disk: set<string>, trace: seq<Effect>, budget: nat,
                         uploads': seq<Upload>, disk': set<string>, trace': seq<Effect>, budget': nat,
                         outcome: Outcome, tombstoned: set<string>, removals: seq<string>, removable: string -> bool)
  {
    var log := Effects(tombstoned, removals);
    && trace' == trace + log && budget' == budget - |log|
    && RecordsFirst(log) && Accounts(log, uploads, disk, uploads', disk')
    && RemovedIn(log) == Names(removals) && (forall p :: p in Names(removals) ==> Gone(uploads', p))
    && Names(removals) <= Taken(tombstoned, removable)
    && (if outcome.Killed? then budget' == 0 else Names(removals) == Taken(tombstoned, removable))
  }

  lemma NothingLogged(uploads: seq<Upload>, disk: set<string>)
    ensures Effects({}, []) == [] && RecordsFirst([]) && Accounts([], uploads, disk, uploads, disk)
  {
    TombstoneNothing(uploads);
    assert TombstonedIn([]) == {} && RemovedIn([]) == {};
  }

  lemma EffectsAccount(tombstoned: set<string>, removals: seq<string>)
    requires tombstoned != {} && Names(removals) <= tombstoned
    ensures var log := Effects(tombstoned, removals);
      RecordsFirst(log) && TombstonedIn(log) == tombstoned && RemovedIn(log) == Names(removals)
  {
    var log := Effects(tombstoned, removals);
    assert log[0] == Tombstoned(tombstoned);
    assert forall i :: 0 < i < |log| ==> log[i] == Removed(removals[i - 1]) && removals[i - 1] in Names(removals);
    forall p | p in Names(removals) ensures p in RemovedIn(log) {
      var i :| 0 <= i < |removals| && removals[i] == p;
      assert log[i + 1] == Removed(p);
    }
  }

  function Taken(paths: set<string>, removable: string -> bool): set<string> {
    set p | p in paths && removable(p)
  }

  /** One more path dealt with: taken if it can be, left if not. */
  lemma OneMoreTaken(paths: set<string>, todo: set<string>, path: string, removable: string -> bool,
                     removals: seq<string>)
    requires path in todo && todo <= paths
    requires Names(removals) == Taken(paths - todo, removable) && |Names(removals)| == |removals|
    ensures Removals(removals + [path]) == Removals(removals) + [Removed(path)]
    ensures Names(removals + [path]) == Names(removals) + {path}
    ensures removable(path) ==> Names(removals + [path]) == Taken(paths - (todo - {path}), removable)
    ensures removable(path) ==> |Names(removals + [path])| == |removals + [path]|
    ensures !removable(path) ==> Names(removals) == Taken(paths - (todo - {path}), removable)
  {
    assert paths - (todo - {path}) == (paths - todo) + {path};
    assert Names(removals + [path]) == Names(removals) + {path};
  }

  /** The inner loop over one upload's files. */
  method ProtectUpload(upload: Upload, grants: set<GrantKey>, keep0: set<string>, unresolved0: set<GrantKey>)
      returns (keep: set<string>, unresolved: set<GrantKey>)
    requires unresolved0 <= grants
    requires forall key: GrantKey :: key in grants && key.0 == upload.id ==> key in unresolved0
    ensures forall key: GrantKey :: key in unresolved <==>
      key in unresolved0 && !(key.0 == upload.id && key.1 < |upload.files|)
    ensures forall p :: p in keep <==> p in keep0 || ReachedIn(upload, grants, p)
  {
    keep, unresolved := keep0, unresolved0;
    for i := 0 to |upload.files|
      invariant forall key: GrantKey :: key in unresolved <==> key in unresolved0 && !(key.0 == upload.id && key.1 < i)
      invariant forall p :: p in keep <==>
        p in keep0 || exists key :: key in grants && key.1 < i && Grants(key, upload, p)
    {
      var key := (upload.id, i);
      if key in unresolved {
        unresolved := unresolved - {key};
        keep := keep + {upload.files[i].storedAs};
        assert Grants(key, upload, upload.files[i].storedAs);
      }
      assert key in unresolved0 <==> key in grants;
    }
  }

  /** What one more upload adds, given that ids do not repeat. */
  lemma SplitLast(uploads: seq<Upload>, n: nat, grants: set<GrantKey>)
    requires n < |uploads| && DistinctIds(uploads)
    ensures forall key: GrantKey :: key.0 == uploads[n].id ==> !Resolves(uploads[..n], key)
    ensures forall key: GrantKey :: Resolves(uploads[..n + 1], key) <==>
      Resolves(uploads[..n], key) || (key.0 == uploads[n].id && key.1 < |uploads[n].files|)
    ensures forall p :: Reached(uploads[..n + 1], grants, p) <==>
      Reached(uploads[..n], grants, p) || ReachedIn(uploads[n], grants, p)
  {
    assert uploads[..n + 1] == uploads[..n] + [uploads[n]];
  }

  lemma TombstoneNothing(uploads: seq<Upload>)
    ensures TombstoneAll(uploads, {}) == uploads
  {
    forall i | 0 <= i < |uploads| ensures TombstoneUpload(uploads[i], {}) == uploads[i] {
      assert TombstoneUpload(uploads[i], {}).files == uploads[i].files;
    }
  }

  /** Tombstoning ends exactly the live records of the paths named. */
  lemma TombstonesEndRecords(uploads: seq<Upload>, paths: set<string>, i: nat, path: string)
    requires i < |uploads|
    ensures LiveRecord(TombstoneAll(uploads, paths)[i], path) <==> LiveRecord(uploads[i], path) && path !in paths
  {
    var u := TombstoneAll(uploads, paths)[i];
    if LiveRecord(uploads[i], path) && path !in paths {
      var k :| 0 <= k < |uploads[i].files| && uploads[i].files[k].storedAs == path && !uploads[i].files[k].deleted;
      assert u.files[k] == uploads[i].files[k];
    }
  }

  lemma TombstonesEndAll(uploads: seq<Upload>, paths: set<string>, path: string)
    requires path in paths
    ensures Gone(TombstoneAll(uploads, paths), path)
  {
    forall i | 0 <= i < |uploads| ensures !LiveRecord(TombstoneAll(uploads, paths)[i], path) {
      TombstonesEndRecords(uploads, paths, i, path);
    }
  }

  /** Why a path that a sweep removed could go: it was on record and now is not, no active grant
      reaches it, and every live record it had is older than every window that is set. */
  ghost predicate Justified(uploads: seq<Upload>, uploads': seq<Upload>, gates: Gates, now: u64, globalDays: u64,
                            tenantDays: Option<u64>, linkDays: Option<u64>, path: string)
  {
    && !Gone(uploads, path) && Gone(uploads', path) && gates.grants.Some? && !Reached(uploads, gates.grants.value, path)
    && forall u :: u in uploads && LiveRecord(u, path) ==>
         OlderThanEveryWindow(u.completedAt, now, globalDays, tenantDays, linkDays)
  }

  /** A sweep that removed anything logged it, after its tombstone, and had its reasons. */
  ghost predicate SafelySwept(uploads: seq<Upload>, disk: set<string>, uploads': seq<Upload>, disk': set<string>,
                              log: seq<Effect>, gates: Gates, now: u64, globalDays: u64,
                              tenantDays: Option<u64>, linkDays: Option<u64>)
  {
    && RecordsFirst(log) && Accounts(log, uploads, disk, uploads', disk')
    && forall p :: p in RemovedIn(log) ==> Justified(uploads, uploads', gates, now, globalDays, tenantDays, linkDays, p)
  }

  /** One link's turn in `sweep_daily_at`, wherever the process dies: nothing set, nothing swept;
      otherwise every removal is logged after its tombstone and justified. */
  method SweepLink(link: Link, gates: Gates, now: u64, globalDays: u64, tenantDays: Option<u64>, linkDays: Option<u64>,
                   verified: string -> bool, stored: bool, removable: string -> bool)
    returns (ghost log: seq<Effect>)
    requires DistinctIds(link.uploads)
    modifies link
    ensures link.trace == old(link.trace) + log && |log| <= old(link.budget)
    ensures SafelySwept(old(link.uploads), old(link.disk), link.uploads, link.disk, log,
                        gates, now, globalDays, tenantDays, linkDays)
    ensures NarrowestRetentionDays(globalDays, tenantDays, linkDays).None? ==> log == []
  {
    var days := NarrowestRetentionDays(globalDays, tenantDays, linkDays);
    NothingLogged(link.uploads, link.disk);
    log := [];
    if days.None? { return; }
    var cutoff := Cutoff(now, days.value);
    var outcome, tombstoned, removals := link.ExpireUploads(gates, cutoff, verified, stored, removable);
    log := Effects(tombstoned, removals);
    forall p | p in RemovedIn(log)
      ensures Justified(old(link.uploads), link.uploads, gates, now, globalDays, tenantDays, linkDays, p)
    {
      assert p in Names(removals) && p in tombstoned;
      forall u | u in old(link.uploads) && LiveRecord(u, p)
        ensures OlderThanEveryWindow(u.completedAt, now, globalDays, tenantDays, linkDays)
      {
        assert Expired(u, cutoff);
        NarrowestDecides(u.completedAt, now, globalDays, tenantDays, linkDays);
      }
    }
  }

  /** The clock's say: without its permission nothing goes, and with it a file goes only if it is
      old by the clock's effective time, whatever the wall clock shows. */
  method SweepUnderClock(link: Link, gates: Gates, retention: RetentionClock.Observation,
                         globalDays: u64, tenantDays: Option<u64>, linkDays: Option<u64>,
                         verified: string -> bool, stored: bool, removable: string -> bool)
    returns (ghost log: seq<Effect>)
    requires DistinctIds(link.uploads)
    modifies link
    ensures link.trace == old(link.trace) + log && |log| <= old(link.budget)
    ensures SafelySwept(old(link.uploads), old(link.disk), link.uploads, link.disk, log,
                        gates, retention.effectiveAt, globalDays, tenantDays, linkDays)
    ensures !retention.allowAge || NarrowestRetentionDays(globalDays, tenantDays, linkDays).None? ==> log == []
  {
    NothingLogged(link.uploads, link.disk);
    log := [];
    if !retention.allowAge { return; }
    log := SweepLink(link, gates, retention.effectiveAt, globalDays, tenantDays, linkDays, verified, stored, removable);
  }

  /** Completed, and strictly before `now` less the narrowest window that any level sets. */
  predicate OlderThanEveryWindow(completedAt: u64, now: u64, globalDays: u64, tenantDays: Option<u64>,
                                 linkDays: Option<u64>)
  {
    var d := NarrowestRetentionDays(globalDays, tenantDays, linkDays);
    completedAt > 0 && d.Some? && completedAt + d.value * DAY < now
  }

  lemma NarrowestDecides(completedAt: u64, now: u64, globalDays: u64, tenantDays: Option<u64>, linkDays: Option<u64>)
    requires NarrowestRetentionDays(globalDays, tenantDays, linkDays).Some?
    ensures 0 < completedAt < Cutoff(now, NarrowestRetentionDays(globalDays, tenantDays, linkDays).value)
      <==> OlderThanEveryWindow(completedAt, now, globalDays, tenantDays, linkDays)
  {
    BeforeCutoffIsOlder(now, NarrowestRetentionDays(globalDays, tenantDays, linkDays).value, completedAt);
  }
}
