/** Ownership of the receive root: a kernel lock on an inode, checked against the names that
    lead to it, in a file system where anything may be renamed or replaced by others. */
module ReceiveRoot {
  import opened Wrappers

  type Inode = nat
  type GuardId = nat

  datatype Lease = Lease(holder: string, acquiredAt: nat, renewedAt: nat)

  /** What a lease file holds. Files are written once and then renamed into place. */
  datatype Record = Readable(lease: Lease) | Unreadable

  datatype Guard = Guard(directory: Inode, lockFile: Inode, record: Lease)

  /** Where a process is: acquiring, owning, renewing or letting go. */
  datatype Phase =
    // the directory handle, the lock handle, the lock, the checks made under it
    | InDirectory(directory: Inode)
    | AtLock(directory: Inode, lockFile: Inode)
    | Locked(guard: Guard)
    | Checked(guard: Guard)
    // a live guard; one between the checks of a renewal and its write
    | Owner(guard: Guard)
    | Renewing(guard: Guard, next: Lease)
    // a drop: before reading the record, after it, and after removing it
    | Dropping(guard: Guard)
    | Reading(guard: Guard, file: Option<Inode>)
    | Unlocking(guard: Guard)
  {
    predicate HoldsLock() { !InDirectory? && !AtLock? }

    predicate Live() { Owner? || Renewing? }
  }

  /** What names lead to: the control directory of the root, the lock file and the lease record
      inside each directory; what record files hold; whose open description holds the lock on
      each inode; and where every process is. */
  datatype View = View(control: Option<Inode>, lockNames: map<Inode, Inode>, recordNames: map<Inode, Inode>,
                       files: map<Inode, Record>, flocks: map<Inode, GuardId>, actors: map<GuardId, Phase>)
  {
    /** `check_namespace`: the names still lead to the handles that are held. */
    predicate InNamespace(g: Guard) {
      control == Some(g.directory) && g.directory in lockNames && lockNames[g.directory] == g.lockFile
    }

    /** A live guard that would pass the check. */
    predicate Passes(id: GuardId) { id in actors && actors[id].Live() && InNamespace(actors[id].guard) }

    /** The directory's record is readable and names `holder`. */
    predicate Holds(directory: Inode, holder: string) {
      directory in recordNames && recordNames[directory] in files
      && files[recordNames[directory]].Readable? && files[recordNames[directory]].lease.holder == holder
    }

    /** Every process that locked owns its lock inode, every lock has an owner that will free it,
        and what a drop has read is a record of its own. */
    ghost predicate Sound() {
      && (forall id :: id in actors && actors[id].HoldsLock() ==> Owns(id, actors[id].guard.lockFile))
      && (forall l :: l in flocks ==>
            flocks[l] in actors && actors[flocks[l]].HoldsLock() && actors[flocks[l]].guard.lockFile == l)
      && (forall id :: id in actors ==> ReadItsOwn(actors[id]))
    }

    predicate Owns(id: GuardId, lockFile: Inode) { lockFile in flocks && flocks[lockFile] == id }

    predicate ReadItsOwn(p: Phase) {
      p.Reading? && p.file.Some? ==>
        p.file.value in files && files[p.file.value].Readable?
        && files[p.file.value].lease.holder == p.guard.record.holder
    }
  }

  // -------------------------------------------------------------------------------- the steps

  datatype Event =
    // anyone else's doing: rename or replace the directory, the lock file, the record
    | Outsider(control: Option<Inode>, lockNames: map<Inode, Inode>, recordNames: map<Inode, Inode>,
               files: map<Inode, Record>)
    // `created` is the inode made if there was none
    | Opens(id: GuardId, created: Inode)
    | Reaches(id: GuardId, created: Inode)
    | Locks(id: GuardId, holder: string, now: nat)
    // `io` is the write through the lock handle
    | Inspects(id: GuardId, io: bool)
    // `file` is new; `replaced`: its rename took effect; `synced`: so did all that follows
    | Publishes(id: GuardId, file: Inode, replaced: bool, synced: bool)
    | Checks(id: GuardId, now: nat, io: bool)
    | Writes(id: GuardId, file: Inode, replaced: bool, synced: bool)
    | Drops(id: GuardId)
    | Reads(id: GuardId)
    | Removes(id: GuardId)
    | Unlocks(id: GuardId)
    // the process is gone, wherever it was, and the kernel closes its handles
    | Dies(id: GuardId)

  /** Whether the process is in a position to take the step. */
  predicate Enabled(v: View, e: Event) {
    match e
    case Outsider(_, _, _, _) => true
    case Opens(id, _) => id !in v.actors
    case Reaches(id, _) => id in v.actors && v.actors[id].InDirectory?
    case Locks(id, _, _) => id in v.actors && v.actors[id].AtLock?
    case Inspects(id, _) => id in v.actors && v.actors[id].Locked?
    case Publishes(id, file, _, _) => id in v.actors && v.actors[id].Checked? && file !in v.files
    case Checks(id, _, _) => id in v.actors && v.actors[id].Owner?
    case Writes(id, file, _, _) => id in v.actors && v.actors[id].Renewing? && file !in v.files
    case Drops(id) => id in v.actors && v.actors[id].Owner?
    case Reads(id) => id in v.actors && v.actors[id].Dropping?
    case Removes(id) => id in v.actors && v.actors[id].Reading?
    case Unlocks(id) => id in v.actors && v.actors[id].Unlocking?
    case Dies(id) => id in v.actors
  }

  function Move(v: View, id: GuardId, p: Phase): View { v.(actors := v.actors[id := p]) }

  /** A new record file renamed into place. */
  function Put(v: View, directory: Inode, file: Inode, lease: Lease): View {
    v.(recordNames := v.recordNames[directory := file], files := v.files[file := Readable(lease)])
  }

  function Next(v: View, e: Event): View
    requires Enabled(v, e)
  {
    match e
    case Outsider(control, lockNames, recordNames, files) =>
      View(control, lockNames, recordNames, files + v.files, v.flocks, v.actors)
    case Opens(id, created) =>
      var d := if v.control.Some? then v.control.value else created;
      Move(v, id, InDirectory(d)).(control := Some(d))
    case Reaches(id, created) =>
      var d := v.actors[id].directory;
      var l := if d in v.lockNames then v.lockNames[d] else created;
      Move(v, id, AtLock(d, l)).(lockNames := v.lockNames[d := l])
    case Locks(id, holder, now) =>
      var l := v.actors[id].lockFile;
      if l in v.flocks then v.(actors := v.actors - {id})
      else Move(v, id, Locked(Guard(v.actors[id].directory, l, Lease(holder, now, now)))).(flocks := v.flocks[l := id])
    case Inspects(id, io) =>
      var g := v.actors[id].guard;
      Move(v, id, if v.InNamespace(g) && io then Checked(g) else Dropping(g))
    case Publishes(id, file, replaced, synced) =>
      var g := v.actors[id].guard;
      Move(if replaced then Put(v, g.directory, file, g.record) else v, id,
           if replaced && synced then Owner(g) else Dropping(g))
    case Checks(id, now, io) =>
      var g := v.actors[id].guard;
      if v.InNamespace(g) && io && v.Holds(g.directory, g.record.holder)
      then Move(v, id, Renewing(g, g.record.(renewedAt := now))) else v
    case Writes(id, file, replaced, synced) =>
      var g, next := v.actors[id].guard, v.actors[id].next;
      Move(if replaced then Put(v, g.directory, file, next) else v, id,
           Owner(if replaced && synced then g.(record := next) else g))
    case Drops(id) =>
      Move(v, id, Dropping(v.actors[id].guard))
    case Reads(id) =>
      var g := v.actors[id].guard;
      Move(v, id, Reading(g, if v.Holds(g.directory, g.record.holder) then Some(v.recordNames[g.directory]) else None))
    case Removes(id) =>
      var g, file := v.actors[id].guard, v.actors[id].file;
      var same := file.Some? && g.directory in v.recordNames && v.recordNames[g.directory] == file.value;
      Move(v, id, Unlocking(g)).(recordNames := if same then v.recordNames - {g.directory} else v.recordNames)
    case Unlocks(id) =>
      v.(flocks := v.flocks - {v.actors[id].guard.lockFile}, actors := v.actors - {id})
    case Dies(id) =>
      v.(flocks := if v.actors[id].HoldsLock() then v.flocks - {v.actors[id].guard.lockFile} else v.flocks,
         actors := v.actors - {id})
  }

  // --------------------------------------------------------------------------- what steps keep

  ghost predicate Extends(files: map<Inode, Record>, files': map<Inode, Record>) {
    forall f :: f in files ==> f in files' && files'[f] == files[f]
  }

  /** A process that moves on keeps the lock it has, or keeps having none. */
  lemma MovingOn(v: View, w: View, id: GuardId, p: Phase)
    requires v.Sound() && Extends(v.files, w.files) && w.flocks == v.flocks && w.actors == v.actors[id := p]
    requires p.HoldsLock() ==>
      id in v.actors && v.actors[id].HoldsLock() && v.actors[id].guard.lockFile == p.guard.lockFile
    requires !p.HoldsLock() && id in v.actors ==> !v.actors[id].HoldsLock()
    requires w.ReadItsOwn(p)
    ensures w.Sound()
  {
    forall other | other in w.actors ensures w.ReadItsOwn(w.actors[other]) {
      if other != id { assert v.ReadItsOwn(v.actors[other]); }
    }
    forall other | other in w.actors && w.actors[other].HoldsLock()
      ensures w.Owns(other, w.actors[other].guard.lockFile)
    {
      assert v.Owns(other, v.actors[other].guard.lockFile);
    }
  }

  lemma LockIsSound(v: View, e: Event)
    requires v.Sound() && Enabled(v, e) && e.Locks?
    ensures Next(v, e).Sound()
  {
    var w := Next(v, e);
    forall other | other in w.actors ensures w.ReadItsOwn(w.actors[other]) {
      assert v.ReadItsOwn(v.actors[other]);
    }
    forall other | other in w.actors && w.actors[other].HoldsLock()
      ensures w.Owns(other, w.actors[other].guard.lockFile)
    {
      if other != e.id { assert v.Owns(other, v.actors[other].guard.lockFile); }
    }
  }

  lemma UnlockIsSound(v: View, e: Event)
    requires v.Sound() && Enabled(v, e) && e.Unlocks?
    ensures Next(v, e).Sound()
  {
    var w := Next(v, e);
    assert v.Owns(e.id, v.actors[e.id].guard.lockFile);
    forall other | other in w.actors ensures w.ReadItsOwn(w.actors[other]) {
      assert v.ReadItsOwn(v.actors[other]);
    }
    forall other | other in w.actors && w.actors[other].HoldsLock()
      ensures w.Owns(other, w.actors[other].guard.lockFile)
    {
      assert v.Owns(other, v.actors[other].guard.lockFile);
    }
  }

  lemma DeathIsSound(v: View, e: Event)
    requires v.Sound() && Enabled(v, e) && e.Dies?
    ensures Next(v, e).Sound()
  {
    var w := Next(v, e);
    if v.actors[e.id].HoldsLock() { assert v.Owns(e.id, v.actors[e.id].guard.lockFile); }
    forall other | other in w.actors ensures w.ReadItsOwn(w.actors[other]) {
      assert v.ReadItsOwn(v.actors[other]);
    }
    forall other | other in w.actors && w.actors[other].HoldsLock()
      ensures w.Owns(other, w.actors[other].guard.lockFile)
    {
      assert v.Owns(other, v.actors[other].guard.lockFile);
    }
  }

  lemma OutsideIsSound(v: View, e: Event)
    requires v.Sound() && e.Outsider?
    ensures Next(v, e).Sound()
  {
    var w := Next(v, e);
    forall id | id in w.actors ensures w.ReadItsOwn(w.actors[id]) {
      assert v.ReadItsOwn(v.actors[id]);
    }
    forall id | id in w.actors && w.actors[id].HoldsLock() ensures w.Owns(id, w.actors[id].guard.lockFile) {
      assert v.Owns(id, v.actors[id].guard.lockFile);
    }
  }

  lemma NextIsSound(v: View, e: Event)
    requires v.Sound() && Enabled(v, e)
    ensures Next(v, e).Sound()
  {
    if e.Outsider? {
      OutsideIsSound(v, e);
    } else if e.Locks? {
      LockIsSound(v, e);
    } else if e.Unlocks? {
      UnlockIsSound(v, e);
    } else if e.Dies? {
      DeathIsSound(v, e);
    } else if e.Checks? && Next(v, e) == v {
    } else {
      MovingOn(v, Next(v, e), e.id, Next(v, e).actors[e.id]);
    }
  }

  /** Whatever happened outside, at most one live guard passes the check. */
  lemma Exclusive(v: View, a: GuardId, b: GuardId)
    requires v.Sound() && v.Passes(a) && v.Passes(b)
    ensures a == b
  {
    assert v.Owns(a, v.actors[a].guard.lockFile) && v.Owns(b, v.actors[b].guard.lockFile);
  }

  /** Whoever passes the checks under the lock is alone: no live guard still passes its own. */
  lemma InspectedIsAlone(v: View, id: GuardId, g: GuardId)
    requires v.Sound() && Enabled(v, Inspects(id, true)) && v.InNamespace(v.actors[id].guard)
    ensures !v.Passes(g) && !Next(v, Inspects(id, true)).Passes(g)
  {
    assert v.Owns(id, v.actors[id].guard.lockFile);
    if g in v.actors && v.actors[g].HoldsLock() { assert v.Owns(g, v.actors[g].guard.lockFile); }
  }

  /** Through the names that a current owner still passes, nobody else gets the lock. */
  lemma LockedOutWhileOwned(v: View, id: GuardId, holder: string, now: nat, g: GuardId)
    requires v.Sound() && Enabled(v, Locks(id, holder, now)) && v.Passes(g)
    requires v.InNamespace(Guard(v.actors[id].directory, v.actors[id].lockFile, Lease(holder, now, now)))
    ensures id !in Next(v, Locks(id, holder, now)).actors && Next(v, Locks(id, holder, now)).flocks == v.flocks
  {
    assert v.Owns(g, v.actors[g].guard.lockFile);
  }

  /** Whatever others did since a drop read its record, its removal takes away nobody else's. */
  lemma RemovalSparesOthers(v: View, id: GuardId, directory: Inode, other: string)
    requires v.Sound() && Enabled(v, Removes(id)) && v.Holds(directory, other)
    requires other != v.actors[id].guard.record.holder
    ensures Next(v, Removes(id)).Holds(directory, other)
  {
    assert v.ReadItsOwn(v.actors[id]);
  }

  /** Nothing but a write or that removal touches a record. */
  lemma OtherStepsSpareRecords(v: View, e: Event, directory: Inode, holder: string)
    requires Enabled(v, e) && v.Holds(directory, holder)
    requires
      || e.Opens? || e.Reaches? || e.Locks? || e.Inspects? || e.Checks? || e.Drops? || e.Reads? || e.Unlocks? || e.Dies?
    ensures Next(v, e).Holds(directory, holder)
  {
  }

  /** A process that dies with the lock leaves its record and frees the lock: the next to try gets it. */
  lemma DeathFreesLock(v: View, id: GuardId, next: GuardId, holder: string, now: nat)
    requires v.Sound() && id in v.actors && v.actors[id].HoldsLock() && next != id
    requires next in v.actors && v.actors[next] == AtLock(v.actors[id].guard.directory, v.actors[id].guard.lockFile)
    ensures next !in Next(v, Locks(next, holder, now)).actors
    ensures var w := Next(v, Dies(id));
      && w.recordNames == v.recordNames && w.files == v.files
      && Enabled(w, Locks(next, holder, now)) && Next(w, Locks(next, holder, now)).actors[next].Locked?
  {
    assert v.Owns(id, v.actors[id].guard.lockFile);
  }

  // --------------------------------------------------------------------------------- the code

  class Root {
    var control: Option<Inode>
    var lockNames: map<Inode, Inode>
    var recordNames: map<Inode, Inode>
    var files: map<Inode, Record>
    var flocks: map<Inode, GuardId>
    var actors: map<GuardId, Phase>

    function Seen(): View
      reads this
    {
      View(control, lockNames, recordNames, files, flocks, actors)
    }

    constructor ()
      ensures Seen() == View(None, map[], map[], map[], map[], map[])
    {
      control, lockNames, recordNames, files, flocks, actors := None, map[], map[], map[], map[], map[];
    }

    method Outside(control: Option<Inode>, lockNames: map<Inode, Inode>, recordNames: map<Inode, Inode>,
                   files: map<Inode, Record>)
      modifies this
      ensures Seen() == Next(old(Seen()), Outsider(control, lockNames, recordNames, files))
    {
      this.control, this.lockNames, this.recordNames, this.files := control, lockNames, recordNames, files + this.files;
    }

    /** `private_child`: the directory is created when missing. */
    method OpenDirectory(id: GuardId, created: Inode)
      requires id !in actors
      modifies this`control, this`actors
      ensures Seen() == Next(old(Seen()), Opens(id, created))
    {
      if control.None? { control := Some(created); }
      actors := actors[id := InDirectory(control.value)];
    }

    /** Opens the lock file inside the held directory, creating it when missing. */
    method OpenLock(id: GuardId, created: Inode)
      requires id in actors && actors[id].InDirectory?
      modifies this`lockNames, this`actors
      ensures Seen() == Next(old(Seen()), Reaches(id, created))
    {
      var d := actors[id].directory;
      if d !in lockNames { lockNames := lockNames[d := created]; }
      actors := actors[id := AtLock(d, lockNames[d])];
      assert lockNames == lockNames[d := lockNames[d]];
    }

    /** The non-blocking exclusive lock. A refusal ends the acquisition. */
    method TryLock(id: GuardId, holder: string, now: nat) returns (ok: bool)
      requires id in actors && actors[id].AtLock?
      modifies this`flocks, this`actors
      ensures ok <==> old(actors)[id].lockFile !in old(flocks)
      ensures Seen() == Next(old(Seen()), Locks(id, holder, now))
    {
      var d, l := actors[id].directory, actors[id].lockFile;
      if l in flocks {
        actors := actors - {id};
        return false;
      }
      flocks := flocks[l := id];
      actors := actors[id := Locked(Guard(d, l, Lease(holder, now, now)))];
      ok := true;
    }

    /** The checks under the lock. A failure drops the half-made guard. */
    method CheckOpening(id: GuardId, io: bool) returns (ok: bool)
      requires id in actors && actors[id].Locked?
      modifies this`actors
      ensures ok <==> io && Seen().InNamespace(old(actors)[id].guard)
      ensures Seen() == Next(old(Seen()), Inspects(id, io))
    {
      var g := actors[id].guard;
      ok := Seen().InNamespace(g) && io;
      actors := actors[id := if ok then Checked(g) else Dropping(g)];
    }

    /** The first record. A failure drops the half-made guard. */
    method Publish(id: GuardId, file: Inode, replaced: bool, synced: bool) returns (ok: bool)
      requires id in actors && actors[id].Checked? && file !in files
      modifies this`recordNames, this`files, this`actors
      ensures ok <==> replaced && synced
      ensures Seen() == Next(old(Seen()), Publishes(id, file, replaced, synced))
    {
      var g := actors[id].guard;
      if replaced { recordNames, files := recordNames[g.directory := file], files[file := Readable(g.record)]; }
      ok := replaced && synced;
      actors := actors[id := if ok then Owner(g) else Dropping(g)];
    }

    /** The first half of `renew`: names, lock and record are all still ours. */
    method CheckRenewal(id: GuardId, now: nat, io: bool) returns (ok: bool)
      requires id in actors && actors[id].Owner?
      modifies this`actors
      ensures ok <==>
        && io && old(Seen()).Passes(id)
        && old(Seen()).Holds(old(actors)[id].guard.directory, old(actors)[id].guard.record.holder)
      ensures Seen() == Next(old(Seen()), Checks(id, now, io))
    {
      var g := actors[id].guard;
      ok := Seen().InNamespace(g) && io && Seen().Holds(g.directory, g.record.holder);
      if ok { actors := actors[id := Renewing(g, g.record.(renewedAt := now))]; }
    }

    /** The second half: the record is replaced on disk, then in memory. Others may have acted in
        between. */
    method WriteRenewal(id: GuardId, file: Inode, replaced: bool, synced: bool) returns (ok: bool)
      requires id in actors && actors[id].Renewing? && file !in files
      modifies this`recordNames, this`files, this`actors
      ensures ok <==> replaced && synced
      ensures id in actors && actors[id].Owner?
      ensures actors[id].guard.record == if ok then old(actors)[id].next else old(actors)[id].guard.record
      ensures Seen() == Next(old(Seen()), Writes(id, file, replaced, synced))
    {
      var g, next := actors[id].guard, actors[id].next;
      if replaced { recordNames, files := recordNames[g.directory := file], files[file := Readable(next)]; }
      ok := replaced && synced;
      actors := actors[id := Owner(if ok then g.(record := next) else g)];
    }

    method BeginDrop(id: GuardId)
      requires id in actors && actors[id].Owner?
      modifies this`actors
      ensures Seen() == Next(old(Seen()), Drops(id))
    {
      actors := actors[id := Dropping(actors[id].guard)];
    }

    /** `Drop for Guard` opens the record and looks whose it is. */
    method ReadRecord(id: GuardId)
      requires id in actors && actors[id].Dropping?
      modifies this`actors
      ensures Seen() == Next(old(Seen()), Reads(id))
    {
      var g := actors[id].guard;
      var own := Seen().Holds(g.directory, g.record.holder);
      actors := actors[id := Reading(g, if own then Some(recordNames[g.directory]) else None)];
    }

    /** Then removes the name, if it still leads to the file it read. */
    method RemoveRecord(id: GuardId)
      requires id in actors && actors[id].Reading?
      modifies this`recordNames, this`actors
      ensures Seen() == Next(old(Seen()), Removes(id))
    {
      var g, file := actors[id].guard, actors[id].file;
      if file.Some? && g.directory in recordNames && recordNames[g.directory] == file.value {
        recordNames := recordNames - {g.directory};
      }
      actors := actors[id := Unlocking(g)];
    }

    /** And frees the lock. */
    method Unlock(id: GuardId)
      requires id in actors && actors[id].Unlocking?
      modifies this`flocks, this`actors
      ensures Seen() == Next(old(Seen()), Unlocks(id))
    {
      flocks, actors := flocks - {actors[id].guard.lockFile}, actors - {id};
    }

    /** The kernel's part when a process dies: its lock is freed and nothing else changes. */
    method Die(id: GuardId)
      requires id in actors
      modifies this`flocks, this`actors
      ensures Seen() == Next(old(Seen()), Dies(id))
    {
      if actors[id].HoldsLock() { flocks := flocks - {actors[id].guard.lockFile}; }
      actors := actors - {id};
    }
  }

  // ------------------------------------------------------------------------------ whole runs

  /** An interleaving of acquisitions, renewals, drops, deaths and outside interference; a step
      that its process is in no position to take is skipped. */
  ghost predicate Run(states: seq<View>, events: seq<Event>) {
    && |states| == |events| + 1
    && states[0] == View(None, map[], map[], map[], map[], map[])
    && forall i :: 0 <= i < |events| ==> states[i + 1] == Step(states[i], events[i])
  }

  function Step(v: View, e: Event): View { if Enabled(v, e) then Next(v, e) else v }

  lemma {:induction false} RunsAreSound(states: seq<View>, events: seq<Event>, n: nat)
    requires Run(states, events) && n < |states|
    ensures states[n].Sound()
  {
    if n > 0 {
      RunsAreSound(states, events, n - 1);
      if Enabled(states[n - 1], events[n - 1]) { NextIsSound(states[n - 1], events[n - 1]); }
    }
  }

  /** In every state of every run at most one live guard passes the check. */
  lemma RunsAreExclusive(states: seq<View>, events: seq<Event>, n: nat, a: GuardId, b: GuardId)
    requires Run(states, events) && n < |states| && states[n].Passes(a) && states[n].Passes(b)
    ensures a == b
  {
    RunsAreSound(states, events, n);
    Exclusive(states[n], a, b);
  }

  /** In every run, whatever comes between a drop's reading and its removal, the removal never
      takes away a record that names another holder. */
  lemma DropsSpareOthers(states: seq<View>, events: seq<Event>, n: nat, directory: Inode, other: string)
    requires Run(states, events) && n < |events| && events[n].Removes? && Enabled(states[n], events[n])
    requires states[n].Holds(directory, other) && other != states[n].actors[events[n].id].guard.record.holder
    ensures states[n + 1].Holds(directory, other)
  {
    RunsAreSound(states, events, n);
    RemovalSparesOthers(states[n], events[n].id, directory, other);
  }

  /** The run itself, from a root without control state, one step at a time. */
  method Interleave(events: seq<Event>) returns (r: Root, ghost states: seq<View>)
    ensures fresh(r) && Run(states, events) && states[|events|] == r.Seen()
    ensures forall a, b :: r.Seen().Passes(a) && r.Seen().Passes(b) ==> a == b
  {
    r := new Root();
    states := [r.Seen()];
    for i := 0 to |events|
      invariant fresh(r) && |states| == i + 1 && states[i] == r.Seen()
      invariant states[0] == View(None, map[], map[], map[], map[], map[])
      invariant forall j :: 0 <= j < i ==> states[j + 1] == Step(states[j], events[j])
    {
      if Enabled(r.Seen(), events[i]) { Perform(r, events[i]); }
      states := states + [r.Seen()];
    }
    forall a, b | r.Seen().Passes(a) && r.Seen().Passes(b) ensures a == b {
      RunsAreExclusive(states, events, |events|, a, b);
    }
  }

  method Perform(r: Root, e: Event)
    requires Enabled(r.Seen(), e)
    modifies r
    ensures r.Seen() == Next(old(r.Seen()), e)
  {
    match e {
      case Outsider(control, lockNames, recordNames, files) => r.Outside(control, lockNames, recordNames, files);
      case Opens(id, created) => r.OpenDirectory(id, created);
      case Reaches(id, created) => r.OpenLock(id, created);
      case Locks(id, holder, now) => var ok := r.TryLock(id, holder, now);
      case Inspects(id, io) => var ok := r.CheckOpening(id, io);
      case Publishes(id, file, replaced, synced) => var ok := r.Publish(id, file, replaced, synced);
      case Checks(id, now, io) => var ok := r.CheckRenewal(id, now, io);
      case Writes(id, file, replaced, synced) => var ok := r.WriteRenewal(id, file, replaced, synced);
      case Drops(id) => r.BeginDrop(id);
      case Reads(id) => r.ReadRecord(id);
      case Removes(id) => r.RemoveRecord(id);
      case Unlocks(id) => r.Unlock(id);
      case Dies(id) => r.Die(id);
    }
  }
}
