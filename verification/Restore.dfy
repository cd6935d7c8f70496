/** A staged restore applied at boot: a marker drives the pre-restore files into a rollback
    directory and the staged files into place, and every boot resumes what the last one left.
    A boot dies when its budget of durable steps runs out, whatever step that is. */
module Restore {
  import opened Wrappers
  import opened RestorePlan

  class DataDir {
    const host: Host
    var live: Dir
    var dirs: map<string, Dir>
    var marker: Option<Marker>
    // How many more durable steps this process lives for.
    var budget: nat

    constructor (host: Host, disk: Disk)
      ensures this.host == host && State() == disk && budget == 0
    {
      this.host := host;
      live, dirs, marker, budget := disk.live, disk.dirs, disk.marker, 0;
    }

    function State(): Disk
      reads this
    {
      Disk(live, dirs, marker)
    }

    /** One durable step, or the end of the process. */
    method Live() returns (alive: bool)
      modifies this`budget
      ensures alive <==> old(budget) > 0
      ensures budget == if alive then old(budget) - 1 else 0
    {
      alive := budget > 0;
      if alive { budget := budget - 1; }
    }

    /** One of the eight files moves into the rollback directory, unless it is there already. */
    method SaveFile(r: string, name: Name) returns (step: Step)
      requires r in dirs
      modifies this`live, this`dirs, this`budget
      ensures
        || (live == old(live) && dirs == old(dirs) && budget == old(budget))
        || (step.Done? && budget + 1 == old(budget) && name in old(live) && name !in old(dirs)[r]
            && live == old(live) - {name} && dirs == old(dirs)[r := old(dirs)[r][name := old(live)[name]]])
      ensures step.Done? ==> name !in live
      ensures step.Refused? ==> step.error == AlreadySaved(name) && name in live && name in dirs[r]
      ensures !step.Cut? && (step.Interrupted? ==> budget == 0)
    {
      if name in live {
        if name in dirs[r] { return Refused(AlreadySaved(name)); }
        var alive := Live();
        if !alive { return Interrupted; }
        dirs, live := dirs[r := dirs[r][name := live[name]]], live - {name};
      }
      step := Done;
    }

    method SaveFiles(r: string) returns (step: Step)
      requires r in dirs
      modifies this`live, this`dirs, this`budget
      ensures r in dirs && dirs - {r} == old(dirs) - {r}
      ensures Moved(old(live), old(dirs)[r], live, dirs[r], SAVED)
      ensures step.Done? ==> live.Keys !! SAVED
      ensures step.Refused? ==> step.error.AlreadySaved? && step.error.saved in live && step.error.saved in dirs[r]
      ensures !step.Cut?
      ensures Among(LIVE_FILES, live) + old(budget) == Among(LIVE_FILES, old(live)) + budget
      ensures step.Done? ==> Among(LIVE_FILES, live) == 0
      ensures step.Interrupted? ==> budget == 0
    {
      MoveNone(live, dirs[r], SAVED);
      for i := 0 to |LIVE_FILES|
        invariant r in dirs && dirs - {r} == old(dirs) - {r}
        invariant Moved(old(live), old(dirs)[r], live, dirs[r], SAVED)
        invariant forall j :: 0 <= j < i ==> LIVE_FILES[j] !in live
        invariant Among(LIVE_FILES, live) + old(budget) == Among(LIVE_FILES, old(live)) + budget
      {
        ghost var was, saved := live, dirs[r];
        step := SaveFile(r, LIVE_FILES[i]);
        if live != was { MoveLive(LIVE_FILES[i], old(live), old(dirs)[r], was, saved); }
        if !step.Done? { return; }
      }
      EightNames(live);
      AllAmong(LIVE_FILES, live);
      step := Done;
    }

    /** The rollback directory is named in the marker and made, unless it is there already. */
    method NameRollback(m: Marker, r: string) returns (alive: bool)
      requires marker == Some(m)
      modifies this`dirs, this`marker, this`budget
      ensures dirs == if alive && r !in old(dirs) then old(dirs)[r := map[]] else old(dirs)
      ensures dirs - {r} == old(dirs) - {r} && DirOf(dirs, r) == DirOf(old(dirs), r)
      ensures marker == Some(if old(budget) == 0 then m else m.(rollback := Some(r)))
      ensures alive ==> old(budget) == budget + if r in old(dirs) then 1 else 2
      ensures !alive ==> budget == 0 && old(budget) < if r in old(dirs) then 1 else 2
    {
      alive := Live();
      if !alive { return; }
      marker := Some(m.(rollback := Some(r)));
      if r !in dirs {
        alive := Live();
        if alive { dirs := dirs[r := map[]]; }
      }
    }

    /** The files move, and the marker advances once none of the eight is left. */
    method SaveInto(m: Marker, r: string) returns (step: Step)
      requires marker == Some(m) && r in dirs
      modifies this`live, this`dirs, this`marker, this`budget
      ensures r in dirs && dirs - {r} == old(dirs) - {r}
      ensures Moved(old(live), old(dirs)[r], live, dirs[r], SAVED)
      ensures marker == Some(if step.Done? then m.(phase := OldMoved) else m)
      ensures step.Done? ==> live.Keys !! SAVED
      ensures step.Refused? ==> step.error.AlreadySaved? && step.error.saved in live && step.error.saved in dirs[r]
      ensures !step.Cut? && Pays(1 + Among(LIVE_FILES, old(live)), old(budget), budget, step)
      ensures step.Interrupted? ==> Among(LIVE_FILES, live) + old(budget) == Among(LIVE_FILES, old(live))
    {
      step := SaveFiles(r);
      if !step.Done? { return; }
      var alive := Live();
      if !alive { return Interrupted; }
      marker := Some(m.(phase := OldMoved));
    }

    /** The first phase: the rollback directory is named in the marker before anything moves
        into it. */
    method SaveOld(m: Marker, token: string) returns (step: Step)
      requires marker == Some(m) && m.phase.Prepared?
      modifies this`live, this`dirs, this`marker, this`budget
      ensures SaveStep(m, token, old(State()), State(), step)
      ensures SavePaid(m, Rollback(m, token), old(State()), State(), step, old(budget), budget)
    {
      var r := Rollback(m, token);
      if '/' in r || !(ROLLBACK_PREFIX <= r) { return Refused(InvalidRollbackPath); }
      MoveNone(live, DirOf(dirs, r), SAVED);
      var alive := NameRollback(m, r);
      if !alive { return Interrupted; }
      step := SaveInto(m.(rollback := Some(r)), r);
    }

    /** A file of the manifest is either still staged or already installed, never both and
        never neither, and matches its fingerprint where it is. */
    method InstallFile(stage: string, e: Entry) returns (step: Step)
      modifies this`live, this`dirs, this`budget
      ensures
        || (live == old(live) && dirs == old(dirs) && budget == old(budget))
        || (step.Done? && budget + 1 == old(budget) && stage in old(dirs) && e.name in old(dirs)[stage]
            && e.name !in old(live) && live == old(live)[e.name := old(dirs)[stage][e.name]]
            && dirs == old(dirs)[stage := old(dirs)[stage] - {e.name}])
      ensures step.Done? ==> e.name in live && host.fingerprint(live[e.name]) == e.digest
      ensures step.Done? ==> e.name !in DirOf(dirs, stage)
      ensures step.Refused? ==> Obstacle(host, DirOf(dirs, stage), live, e, step.error)
      ensures !step.Cut? && (step.Interrupted? ==> budget == 0)
    {
      var staged := DirOf(dirs, stage);
      if e.name in staged && e.name in live { return Refused(Twice(e.name)); }
      if e.name !in staged && e.name !in live { return Refused(Missing(e.name)); }
      if e.name in staged {
        if host.fingerprint(staged[e.name]) != e.digest { return Refused(StagedInvalid(e.name)); }
        var alive := Live();
        if !alive { return Interrupted; }
        live, dirs := live[e.name := staged[e.name]], dirs[stage := staged - {e.name}];
      } else if host.fingerprint(live[e.name]) != e.digest {
        return Refused(InstalledInvalid(e.name));
      }
      step := Done;
    }

    /** One more file, after those that are installed already. */
    method PlaceFile(stage: string, e: Entry, ghost entries: seq<Entry>, ghost done: seq<Entry>,
                     ghost stage0: Dir, ghost live0: Dir)
      returns (step: Step)
      requires Moved(stage0, live0, DirOf(dirs, stage), live, EntryNames(entries)) && e in entries
      requires Placed(host, DirOf(dirs, stage), live, done)
      modifies this`live, this`dirs, this`budget
      ensures Moved(stage0, live0, DirOf(dirs, stage), live, EntryNames(entries))
      ensures dirs - {stage} == old(dirs) - {stage} && (stage in dirs <==> stage in old(dirs))
      ensures step.Done? ==> Placed(host, DirOf(dirs, stage), live, done + [e])
      ensures step.Refused? ==> Obstacle(host, DirOf(dirs, stage), live, e, step.error)
      ensures !step.Cut? && (step.Interrupted? ==> budget == 0)
      ensures Distinct(NamesOf(entries)) ==>
        Among(NamesOf(entries), DirOf(dirs, stage)) + old(budget)
          == Among(NamesOf(entries), DirOf(old(dirs), stage)) + budget
    {
      ghost var staged, was := DirOf(dirs, stage), live;
      step := InstallFile(stage, e);
      if live != was { MoveEntry(entries, e, stage0, live0, staged, was); }
      if step.Done? { PlaceOne(host, staged, was, DirOf(dirs, stage), live, done, e); }
    }

    method InstallFiles(stage: string, entries: seq<Entry>) returns (step: Step)
      modifies this`live, this`dirs, this`budget
      ensures Moved(DirOf(old(dirs), stage), old(live), DirOf(dirs, stage), live, EntryNames(entries))
      ensures dirs - {stage} == old(dirs) - {stage} && (stage in dirs <==> stage in old(dirs))
      ensures step.Done? ==> DigestsMatch(host, live, entries)
      ensures step.Done? ==> forall e :: e in entries ==> e.name !in DirOf(dirs, stage)
      ensures step.Done? ==> Among(NamesOf(entries), DirOf(dirs, stage)) == 0
      ensures step.Refused? ==> exists e :: e in entries && Obstacle(host, DirOf(dirs, stage), live, e, step.error)
      ensures !step.Cut?
      ensures Distinct(NamesOf(entries)) ==>
        Among(NamesOf(entries), DirOf(dirs, stage)) + old(budget)
          == Among(NamesOf(entries), DirOf(old(dirs), stage)) + budget
      ensures step.Interrupted? ==> budget == 0
    {
      ghost var stage0 := DirOf(dirs, stage);
      MoveNone(stage0, live, EntryNames(entries));
      for i := 0 to |entries|
        invariant dirs - {stage} == old(dirs) - {stage} && (stage in dirs <==> stage in old(dirs))
        invariant Moved(stage0, old(live), DirOf(dirs, stage), live, EntryNames(entries))
        invariant Placed(host, DirOf(dirs, stage), live, entries[..i])
        invariant Distinct(NamesOf(entries)) ==>
          Among(NamesOf(entries), DirOf(dirs, stage)) + old(budget) == Among(NamesOf(entries), stage0) + budget
      {
        assert entries[..i + 1] == entries[..i] + [entries[i]];
        step := PlaceFile(stage, entries[i], entries, entries[..i], stage0, old(live));
        if !step.Done? { return; }
      }
      assert entries[..|entries|] == entries;
      AllAmong(NamesOf(entries), DirOf(dirs, stage));
      step := Done;
    }

    /** The second phase: the files of the manifest are installed, and the marker advances once
        the installed database is sound. */
    method InstallNew(m: Marker, schema: nat) returns (step: Step)
      requires marker == Some(m) && m.phase.OldMoved?
      modifies this`live, this`dirs, this`marker, this`budget
      ensures InstallStep(host, schema, m, old(State()), State(), step)
      ensures Distinct(NamesOf(m.manifest.entries)) ==>
        InstallPaid(m, old(State()), State(), step, old(budget), budget)
    {
      step := InstallFiles(m.stage, m.manifest.entries);
      if !step.Done? { return; }
      if !DatabaseFits(host, live, m.manifest, schema) { return Refused(InvalidDatabase); }
      if m.stage !in dirs { return Refused(MissingStage); }
      var alive := Live();
      if !alive { return Interrupted; }
      marker := Some(m.(phase := NewInstalled));
    }

    /** One file written or replaced. */
    method Write(name: Name, content: Content) returns (alive: bool)
      modifies this`live, this`budget
      ensures alive <==> old(budget) > 0
      ensures budget == if alive then old(budget) - 1 else 0
      ensures live == if alive then old(live)[name := content] else old(live)
    {
      alive := Live();
      if alive { live := live[name := content]; }
    }

    /** One file removed, if it is there. */
    method Remove(name: Name) returns (alive: bool)
      modifies this`live, this`budget
      ensures alive <==> name !in old(live) || old(budget) > 0
      ensures live == if alive then old(live) - {name} else old(live)
      ensures budget == if alive && name in old(live) then old(budget) - 1 else old(budget)
    {
      alive := true;
      if name in live {
        alive := Live();
        if alive { live := live - {name}; }
      }
    }

    /** `write_private`: the file is created, and then filled. A process that dies in between
        leaves part of the secret. */
    method CreateSecret(draw: Draw) returns (step: Step)
      modifies this`live, this`budget
      ensures step.Done? ==> live == old(live)[Secret := draw.whole]
      ensures step.Cut? ==> live == old(live)[Secret := draw.part]
      ensures step.Interrupted? ==> live == old(live)
      ensures !step.Refused? && (step.Cut? <==> old(budget) == 1) && (step.Interrupted? <==> old(budget) == 0)
      ensures budget == if step.Done? then old(budget) - 2 else 0
    {
      var alive := Write(Secret, draw.part);
      if !alive { return Interrupted; }
      alive := Write(Secret, draw.whole);
      step := if alive then Done else Cut;
    }

    /** The backup settings are reset and a missing session secret is made anew. */
    method ResetSettings(draw: Draw) returns (step: Step)
      modifies this`live, this`budget
      ensures live - {BackupSecrets, BackupStatus, Secret} == old(live) - {BackupSecrets, BackupStatus, Secret}
      ensures Secret in old(live) ==> Secret in live && live[Secret] == old(live)[Secret]
      ensures Secret !in old(live) && Secret in live ==> live[Secret] == if step.Cut? then draw.part else draw.whole
      ensures step.Cut? <==> Secret !in old(live) && old(budget) == 3
      ensures step.Cut? ==> Secret in live
      ensures step.Done? ==>
        live == WithSecret(old(live), draw.whole)[BackupSecrets := DEFAULT_SECRETS][BackupStatus := DEFAULT_STATUS]
      ensures Secret in live <==> Secret in old(live) || old(budget) >= 3
      ensures !step.Refused? && Pays(if Secret in old(live) then 2 else 4, old(budget), budget, step)
    {
      var alive := Write(BackupSecrets, DEFAULT_SECRETS);
      if !alive { return Interrupted; }
      alive := Write(BackupStatus, DEFAULT_STATUS);
      if !alive { return Interrupted; }
      step := Done;
      if Secret !in live { step := CreateSecret(draw); }
    }

    /** The database is prepared and the settings around it renewed. `leftover` is what the
        database library leaves beside the database. */
    method Renew(m: Marker, schema: nat, draw: Draw, leftover: Dir) returns (step: Step)
      requires leftover.Keys <= {Wal, Shm}
      modifies this`live, this`budget
      ensures Finishing(host, schema, m.mode, old(live), live, draw.Contents())
      ensures step.Refused? <==> VotportDb !in old(live) || !host.databaseFits(old(live)[VotportDb], schema)
      ensures step.Refused? ==> live == old(live) && step.error.InvalidDatabase?
      ensures step.Done? ==> live - {Wal, Shm} == FinishedLive(host, schema, m.mode, old(live), draw.whole)
      ensures Secret !in old(live) && Secret in live ==> live[Secret] == if step.Cut? then draw.part else draw.whole
      ensures step.Cut? ==> Secret in live
      ensures step.Cut? <==> !step.Refused? && Secret !in old(live) && old(budget) == 4
      ensures step.Refused? || (Secret in live <==> Secret in old(live) || old(budget) >= 4)
      ensures Pays(if Secret in old(live) then 3 else 5, old(budget), budget, step)
      ensures step.Done? ==> Leftovers(live) == Leftovers(leftover)
    {
      if VotportDb !in live || !host.databaseFits(live[VotportDb], schema) { return Refused(InvalidDatabase); }
      PreparedFinishing(host, schema, m.mode, live, leftover, draw.whole, draw.Contents());
      StartFinishing(host, schema, m.mode, live, draw.Contents());
      var alive := Live();
      if !alive { return Interrupted; }
      live := PreparedLive(host, schema, m.mode, live, leftover);
      ghost var prepared := live;
      step := ResetSettings(draw);
      SettingsFinishing(host, schema, m.mode, old(live), prepared, live, draw.Contents());
    }

    /** What the database left behind goes. */
    method ClearLeftovers() returns (alive: bool)
      modifies this`live, this`budget
      ensures live - {Wal, Shm} == old(live) - {Wal, Shm}
      ensures alive <==> old(budget) >= Leftovers(old(live))
      ensures alive ==> live == old(live) - {Wal, Shm}
      ensures budget == if alive then old(budget) - Leftovers(old(live)) else 0
    {
      alive := Remove(Wal);
      if alive { alive := Remove(Shm); }
    }

    /** Then the stage, and the marker last. */
    method Clear(m: Marker) returns (step: Step)
      requires marker == Some(m)
      modifies this`live, this`dirs, this`marker, this`budget
      ensures live - {Wal, Shm} == old(live) - {Wal, Shm}
      ensures dirs == old(dirs) || dirs == old(dirs) - {m.stage}
      ensures step.Done? ==> live == old(live) - {Wal, Shm} && m.stage !in dirs
      ensures marker == if step.Done? then None else Some(m)
      ensures !step.Refused? && !step.Cut?
      ensures Pays(Leftovers(old(live)) + (if m.stage in old(dirs) then 1 else 0) + 1, old(budget), budget, step)
      ensures m.stage in dirs <==> m.stage in old(dirs) && old(budget) <= Leftovers(old(live))
    {
      var alive := ClearLeftovers();
      if !alive { return Interrupted; }
      if m.stage in dirs {
        alive := Live();
        if !alive { return Interrupted; }
        dirs := dirs - {m.stage};
      }
      alive := Live();
      if !alive { return Interrupted; }
      marker := None;
      step := Done;
    }

    /** The last phase, whose every step may be done again. */
    method Finish(m: Marker, schema: nat, draw: Draw, leftover: Dir) returns (step: Step)
      requires marker == Some(m) && m.phase.NewInstalled? && leftover.Keys <= {Wal, Shm}
      modifies this`live, this`dirs, this`marker, this`budget
      ensures FinishStep(host, schema, m, draw, old(State()), State(), step)
      ensures !step.Refused? ==> FinishPaid(m, old(State()), State(), step, old(budget), Leftovers(leftover))
    {
      step := Renew(m, schema, draw, leftover);
      if !step.Done? { return; }
      ghost var renewed := live;
      step := Clear(m);
      ClearedFinishing(host, schema, m.mode, old(live), renewed, live, draw.Contents());
    }

    /** The first phase, for a disk that follows from a sound stage. */
    method SaveSafely(m: Marker, schema: nat, token: string, draw: Draw,
                      ghost d0: Disk, ghost names: set<string>, ghost secrets: set<Content>)
      returns (step: Step)
      requires marker == Some(m) && m.phase.Prepared?
      modifies this`live, this`dirs, this`marker, this`budget
      ensures !step.Cut? && marker.Some?
      ensures marker.value == m.(phase := marker.value.phase, rollback := marker.value.rollback)
      ensures marker.value.phase == if step.Done? then OldMoved else Prepared
      ensures Offered(host, schema, d0, old(State()), names, secrets, token, draw) ==>
        && !step.Refused? && Offered(host, schema, d0, State(), names, secrets, token, draw) && Made(State()) == None
        && MovesOn(WorkOf(old(State())), WorkOf(State()), WorkOf(old(State())).Saved(), old(budget), budget, step)
    {
      ghost var was, good := State(), Offered(host, schema, d0, State(), names, secrets, token, draw);
      step := SaveOld(m, token);
      if good {
        RollbackIsNew(host, schema, d0, was, names, secrets, token);
        SavingMovesOn(m, token, was, State(), step, old(budget), budget);
        SaveKeepsInv(host, schema, d0, was, State(), names, secrets, token, step);
      }
    }

    /** The second phase, for a disk that follows from a sound stage. */
    method InstallSafely(m: Marker, schema: nat, token: string, draw: Draw,
                         ghost d0: Disk, ghost names: set<string>, ghost secrets: set<Content>)
      returns (step: Step)
      requires marker == Some(m) && m.phase.OldMoved?
      modifies this`live, this`dirs, this`marker, this`budget
      ensures !step.Cut? && marker == Some(if step.Done? then m.(phase := NewInstalled) else m)
      ensures step.Done? ==> DigestsMatch(host, live, m.manifest.entries)
      ensures Offered(host, schema, d0, old(State()), names, secrets, token, draw) ==>
        && !step.Refused? && Inv(host, schema, d0, State(), names, secrets) && Made(State()) == None
        && MovesOn(WorkOf(old(State())), WorkOf(State()), WorkOf(old(State())).Moved(), old(budget), budget, step)
    {
      ghost var was, good := State(), Offered(host, schema, d0, State(), names, secrets, token, draw);
      step := InstallNew(m, schema);
      if good {
        InstallKeepsInv(host, schema, d0, was, State(), names, secrets, step);
        EntriesDiffer(host, schema, d0);
        InstallingMovesOn(host, schema, m, was, State(), step, old(budget), budget);
      }
    }

    /** Both phases that move files. */
    method SaveAndInstall(marked: Marker, schema: nat, token: string, draw: Draw,
                          ghost d0: Disk, ghost names: set<string>, ghost secrets: set<Content>)
      returns (step: Step)
      requires marker == Some(marked) && marked.phase.Prepared?
      modifies this`live, this`dirs, this`marker, this`budget
      ensures !step.Cut? && marker.Some? && marker.value.mode == marked.mode
      ensures step.Done? ==> marker.value.phase.NewInstalled? && DigestsMatch(host, live, marked.manifest.entries)
      ensures Offered(host, schema, d0, old(State()), names, secrets, token, draw) ==>
        && !step.Refused? && Inv(host, schema, d0, State(), names, secrets) && Made(State()) == None
        && MovesOn(WorkOf(old(State())), WorkOf(State()), WorkOf(old(State())).Moved(), old(budget), budget, step)
    {
      ghost var w, good := WorkOf(State()), Offered(host, schema, d0, State(), names, secrets, token, draw);
      step := SaveSafely(marked, schema, token, draw, d0, names, secrets);
      if !step.Done? { return; }
      ghost var mid, between, first := WorkOf(State()), budget, step;
      step := InstallSafely(marker.value, schema, token, draw, d0, names, secrets);
      if good { MovesOnTwice(w, mid, WorkOf(State()), old(budget), between, budget, first, step); }
    }

    /** The first two phases, as far as they are left. */
    method RunMoves(marked: Marker, schema: nat, token: string, draw: Draw,
                    ghost d0: Disk, ghost names: set<string>, ghost secrets: set<Content>)
      returns (step: Step)
      requires marker == Some(marked)
      modifies this`live, this`dirs, this`marker, this`budget
      ensures !step.Cut? && marker.Some? && marker.value.mode == marked.mode
      ensures step.Done? ==> marker.value.phase.NewInstalled?
      ensures step.Done? && !marked.phase.NewInstalled? ==> DigestsMatch(host, live, marked.manifest.entries)
      ensures Offered(host, schema, d0, old(State()), names, secrets, token, draw) ==>
        && !step.Refused? && Inv(host, schema, d0, State(), names, secrets) && Made(State()) == Made(old(State()))
        && MovesOn(WorkOf(old(State())), WorkOf(State()), WorkOf(old(State())).Moved(), old(budget), budget, step)
    {
      match marked.phase {
        case Prepared => step := SaveAndInstall(marked, schema, token, draw, d0, names, secrets);
        case OldMoved => step := InstallSafely(marked, schema, token, draw, d0, names, secrets);
        case NewInstalled => step := Done;
      }
    }

    /** The last phase, for a disk that follows from a sound stage. */
    method FinishSafely(m: Marker, schema: nat, token: string, draw: Draw, leftover: Dir,
                        ghost d0: Disk, ghost names: set<string>, ghost secrets: set<Content>)
      returns (step: Step)
      requires marker == Some(m) && m.phase.NewInstalled? && leftover.Keys <= {Wal, Shm}
      modifies this`live, this`dirs, this`marker, this`budget
      ensures marker == None <==> step.Done?
      ensures step.Done? ==> forall entries :: DigestsMatch(host, old(live), entries) ==> Promised(host, live, entries)
      ensures Offered(host, schema, d0, old(State()), names, secrets, token, draw) ==>
        Goes(host, schema, d0, old(State()), Boot(old(budget), token, draw, leftover), step, State(), names, secrets)
    {
      ghost var was, b := State(), Boot(budget, token, draw, leftover);
      step := Finish(m, schema, draw, leftover);
      if Offered(host, schema, d0, was, names, secrets, token, draw) {
        FinishGoes(host, schema, d0, m, was, b, step, State(), names, secrets);
      }
    }

    /** The moves of a boot, which may be all it lives for. */
    method MoveFiles(marked: Marker, schema: nat, token: string, draw: Draw, ghost leftover: Dir,
                     ghost d0: Disk, ghost names: set<string>, ghost secrets: set<Content>)
      returns (step: Step)
      requires marker == Some(marked)
      modifies this`live, this`dirs, this`marker, this`budget
      ensures !step.Cut? && marker.Some? && marker.value.mode == marked.mode
      ensures step.Done? ==> marker.value.phase.NewInstalled?
      ensures step.Done? && !marked.phase.NewInstalled? ==> DigestsMatch(host, live, marked.manifest.entries)
      ensures step.Done? && Offered(host, schema, d0, old(State()), names, secrets, token, draw) ==>
        && Offered(host, schema, d0, State(), names, secrets, token, draw) && Made(State()) == Made(old(State()))
        && MovesOn(WorkOf(old(State())), WorkOf(State()), WorkOf(old(State())).Moved(), old(budget), budget, Done)
      ensures !step.Done? && Offered(host, schema, d0, old(State()), names, secrets, token, draw) ==>
        Goes(host, schema, d0, old(State()), Boot(old(budget), token, draw, leftover), step, State(), names, secrets)
    {
      ghost var d, b := State(), Boot(budget, token, draw, leftover);
      step := RunMoves(marked, schema, token, draw, d0, names, secrets);
      if step.Interrupted? && Offered(host, schema, d0, d, names, secrets, token, draw) {
        GoesNotOn(host, schema, d0, d, b, budget, step, State(), names, secrets);
      }
    }

    /** Whichever phases are left. */
    method RunPhases(marked: Marker, schema: nat, token: string, draw: Draw, leftover: Dir,
                     ghost d0: Disk, ghost names: set<string>, ghost secrets: set<Content>)
      returns (step: Step)
      requires marker == Some(marked) && leftover.Keys <= {Wal, Shm}
      modifies this`live, this`dirs, this`marker, this`budget
      ensures marker == None <==> step.Done?
      ensures step.Done? && !marked.phase.NewInstalled? ==> Promised(host, live, marked.manifest.entries)
      ensures Offered(host, schema, d0, old(State()), names, secrets, token, draw) ==>
        Goes(host, schema, d0, old(State()), Boot(old(budget), token, draw, leftover), step, State(), names, secrets)
    {
      ghost var d, b := State(), Boot(budget, token, draw, leftover);
      step := MoveFiles(marked, schema, token, draw, leftover, d0, names, secrets);
      if !step.Done? { return; }
      ghost var mid, between := State(), budget;
      step := FinishSafely(marker.value, schema, token, draw, leftover, d0, names, secrets);
      if Offered(host, schema, d0, d, names, secrets, token, draw) {
        GoesOn(host, schema, d0, d, mid, b, between, step, State(), names, secrets);
      }
    }

    /** A boot: checks, then whichever phases are left. Whatever the disk held, what it leaves
        applied has the files its manifest promised. On a disk that follows from a sound stage
        `d0`, it never refuses, and it ends as an uninterrupted boot would or leaves a disk that
        a later boot can go on from. */
    method ApplyPendingRestore(schema: nat, token: string, draw: Draw, leftover: Dir,
                               ghost d0: Disk, ghost names: set<string>, ghost secrets: set<Content>)
      returns (outcome: Outcome)
      requires leftover.Keys <= {Wal, Shm}
      modifies this`live, this`dirs, this`marker, this`budget
      ensures outcome.NothingPending? <==> old(marker).None?
      ensures outcome.NothingPending? ==> State() == old(State())
      ensures old(marker).Some? && BootProblem(host, schema, old(State())).Some? ==>
        State() == old(State()) && outcome == Stopped(Refused(BootProblem(host, schema, old(State())).value))
      ensures outcome.Stopped? ==> marker.Some? && !outcome.why.Done?
      ensures outcome.Applied? ==> old(marker).Some? && marker == None && outcome == AppliedBy(old(marker).value)
      ensures outcome.Applied? && !old(marker).value.phase.NewInstalled? ==>
        Promised(host, live, old(marker).value.manifest.entries)
      ensures Offered(host, schema, d0, old(State()), names, secrets, token, draw) ==>
        && !outcome.NothingPending?
        && Goes(host, schema, d0, old(State()), Boot(old(budget), token, draw, leftover), Ending(outcome), State(),
                names, secrets)
    {
      if marker.None? { return NothingPending; }
      var m := marker.value;
      if Offered(host, schema, d0, State(), names, secrets, token, draw) {
        NoBootProblem(host, schema, d0, State(), names, secrets);
      }
      var problem := BootProblem(host, schema, State());
      if problem.Some? { return Stopped(Refused(problem.value)); }
      var step := RunPhases(m, schema, token, draw, leftover, d0, names, secrets);
      outcome := if step.Done? then AppliedBy(m) else Stopped(step);
    }

    // ------------------------------------------------------------------------------ staging

    /** The cleanup of a directory nobody keeps. A process that dies first leaves it. */
    method Discard(name: string)
      modifies this`dirs, this`budget
      ensures dirs == if old(budget) > 0 then old(dirs) - {name} else old(dirs)
    {
      var alive := Live();
      if alive { dirs := dirs - {name}; }
    }

    /** `write_pending_restore`. `synced` says whether the marker's directory entry was flushed
        once the marker was in place; both stages are kept until it was. */
    method WritePendingRestore(extracted: Extracted, manifest: Manifest, mode: Mode, archive: Option<string>,
                               synced: bool)
      returns (step: Step)
      modifies this`dirs, this`marker, this`budget
      ensures var next := Some(NewMarker(extracted.name, manifest, mode, archive));
        && marker in {old(marker), next}
        && (step.Done? ==> marker == next)
        && (step.Interrupted? ==> State() == old(State()))
        && (step.Refused? && !step.error.NotSynced? ==> marker == old(marker))
      ensures old(marker).Some? && Begun(old(marker).value) ==> marker == old(marker) && step.Refused?
      ensures
        || dirs == old(dirs)
        || (step.Refused? && marker == old(marker) && extracted.beside && dirs == old(dirs) - {extracted.name})
        || (step.Done? && old(marker).Some? && old(marker).value.stage != extracted.name
            && dirs == old(dirs) - {old(marker).value.stage})
      ensures old(NamesStage(State())) && NewTo(extracted.name, old(State())) ==> NamesStage(State())
      ensures step.Done? && extracted.name in old(dirs) ==>
        forall schema: nat :: StageProblem(host, old(dirs)[extracted.name], manifest, schema) == None ==>
          Staged(host, schema, State())
    {
      var previous := marker;
      var error := InvalidStage;
      if previous.Some? && StageNamed(previous.value.stage) && Begun(previous.value) { error := BeingApplied; }
      if (previous.Some? && (!StageNamed(previous.value.stage) || Begun(previous.value)))
        || !extracted.beside || !StageNamed(extracted.name)
      {
        if extracted.beside { Discard(extracted.name); }
        return Refused(error);
      }
      var alive := Live();
      if !alive { return Interrupted; }
      marker := Some(NewMarker(extracted.name, manifest, mode, archive));
      if !synced { return Refused(NotSynced); }
      if previous.Some? && previous.value.stage != extracted.name {
        Discard(previous.value.stage);
      }
      step := Done;
    }
  }

  /** A freshly extracted directory: its name, and whether it lies in the data directory. */
  datatype Extracted = Extracted(name: string, beside: bool)

  /** A stage that exists and that no marker names yet. */
  predicate NewTo(stage: string, d: Disk) {
    stage in d.dirs && (d.marker.Some? ==> d.marker.value.stage != stage)
  }

  function NewMarker(stage: string, manifest: Manifest, mode: Mode, archive: Option<string>): Marker {
    Marker(stage, VERSION, manifest, mode, Prepared, None, if archive == Some("") then None else archive)
  }

  function AppliedBy(m: Marker): Outcome {
    Applied(m.archive, m.manifest.createdAt, m.mode, m.manifest.schemaVersion)
  }

  /** The installed files are the ones the manifest names, but for those rewritten at the end. */
  predicate Promised(h: Host, live: Dir, entries: seq<Entry>) {
    forall e :: e in entries && !Reset(e.name) ==> e.name in live && h.fingerprint(live[e.name]) == e.digest
  }

  ghost predicate Underway(h: Host, schema: nat, d0: Disk, d: Disk, names: set<string>, secrets: set<Content>) {
    Sound(h) && Staged(h, schema, d0) && FreshNames(d0, names) && Inv(h, schema, d0, d, names, secrets)
  }

  /** A boot of a run: the disk follows from a sound stage, and its draws are among the run's. */
  ghost predicate Offered(h: Host, schema: nat, d0: Disk, d: Disk, names: set<string>, secrets: set<Content>,
                          token: string, draw: Draw)
  {
    && Underway(h, schema, d0, d, names, secrets)
    && ROLLBACK_PREFIX + token in names && draw.Contents() <= secrets
  }

  function Ending(outcome: Outcome): Step { if outcome.Stopped? then outcome.why else Done }

  /** One boot: how many durable steps it lives for, what it draws at random, and what the database
      library leaves behind. */
  datatype Boot = Boot(budget: nat, token: string, draw: Draw, leftover: Dir)
  {
    /** How the boot ends, told from the work it meets. */
    function Ending(w: Work): Step { w.Ending(budget, Leftovers(leftover)) }

    function After(w: Work): Work { w.After(budget, Leftovers(leftover)) }
  }

  /** How a boot ends, and what work it leaves, is told by the work it meets and the steps it lives
      for; it ends the restore, or leaves a disk that the next one goes on from. */
  ghost predicate Goes(h: Host, schema: nat, d0: Disk, d: Disk, b: Boot, ending: Step, d': Disk, names: set<string>,
                       secrets: set<Content>)
    requires Staged(h, schema, d0)
  {
    match ending
    case Done => Tells(d, b, ending, d') && Makes(d, d', ending, b.draw) && Restored(h, schema, d0, d', names, secrets)
    case _ => Tells(d, b, ending, d') && Makes(d, d', ending, b.draw) && Inv(h, schema, d0, d', names, secrets)
  }

  predicate Tells(d: Disk, b: Boot, ending: Step, d': Disk) {
    !ending.Refused? && ending == b.Ending(WorkOf(d)) && (ending.Dead() ==> WorkOf(d') == b.After(WorkOf(d)))
  }

  lemma MovingTold(w: Work, w': Work, b: Boot)
    requires MovesOn(w, w', w.Moved(), b.budget, 0, Interrupted)
    ensures Interrupted == b.Ending(w) && w' == b.After(w)
  {
  }

  lemma FinishingTold(w: Work, mid: Work, b: Boot, between: nat)
    requires MovesOn(w, mid, w.Moved(), b.budget, between, Done)
    ensures b.(budget := between).Ending(mid) == b.Ending(w) && b.(budget := between).After(mid) == b.After(w)
  {
    FinishAfterMoves(w, b.budget, Leftovers(b.leftover));
  }

  lemma Gather(h: Host, schema: nat, d0: Disk, d: Disk, b: Boot, ending: Step, d': Disk, names: set<string>,
               secrets: set<Content>)
    requires Staged(h, schema, d0) && Tells(d, b, ending, d') && Makes(d, d', ending, b.draw)
    requires if ending.Done? then Restored(h, schema, d0, d', names, secrets)
             else Inv(h, schema, d0, d', names, secrets)
    ensures Goes(h, schema, d0, d, b, ending, d', names, secrets)
  {
  }

  lemma FinishTells(h: Host, schema: nat, m: Marker, d: Disk, b: Boot, step: Step, d': Disk)
    requires d.marker == Some(m) && m.phase.NewInstalled? && FinishStep(h, schema, m, b.draw, d, d', step)
    requires FinishPaid(m, d, d', step, b.budget, Leftovers(b.leftover)) && !step.Refused?
    ensures Tells(d, b, step, d')
  {
    FinishingPays(m, d, d', step, b.budget, Leftovers(b.leftover));
  }

  /** A boot in the last phase, */
  lemma FinishGoes(h: Host, schema: nat, d0: Disk, m: Marker, d: Disk, b: Boot, step: Step, d': Disk,
                   names: set<string>, secrets: set<Content>)
    requires Offered(h, schema, d0, d, names, secrets, b.token, b.draw)
    requires d.marker == Some(m) && m.phase.NewInstalled? && FinishStep(h, schema, m, b.draw, d, d', step)
    requires !step.Refused? ==> FinishPaid(m, d, d', step, b.budget, Leftovers(b.leftover))
    ensures Goes(h, schema, d0, d, b, step, d', names, secrets)
  {
    FinishKeepsInv(h, schema, d0, d, d', names, secrets, b.draw, step);
    FinishMakes(h, schema, m, b.draw, d, d', step);
    FinishTells(h, schema, m, d, b, step, d');
    Gather(h, schema, d0, d, b, step, d', names, secrets);
  }

  /** one that dies while files move, */
  lemma GoesNotOn(h: Host, schema: nat, d0: Disk, d: Disk, b: Boot, after: nat, step: Step, d': Disk,
                  names: set<string>, secrets: set<Content>)
    requires Staged(h, schema, d0) && Inv(h, schema, d0, d', names, secrets) && Made(d') == Made(d)
    requires MovesOn(WorkOf(d), WorkOf(d'), WorkOf(d).Moved(), b.budget, after, step) && step.Interrupted?
    ensures Goes(h, schema, d0, d, b, step, d', names, secrets)
  {
    MovingTold(WorkOf(d), WorkOf(d'), b);
    Gather(h, schema, d0, d, b, step, d', names, secrets);
  }

  /** and one that has moved them all and goes on to the last phase. */
  lemma GoesOn(h: Host, schema: nat, d0: Disk, d: Disk, mid: Disk, b: Boot, between: nat, ending: Step, d': Disk,
               names: set<string>, secrets: set<Content>)
    requires Staged(h, schema, d0) && Made(mid) == Made(d)
    requires MovesOn(WorkOf(d), WorkOf(mid), WorkOf(d).Moved(), b.budget, between, Done)
    requires Goes(h, schema, d0, mid, b.(budget := between), ending, d', names, secrets)
    ensures Goes(h, schema, d0, d, b, ending, d', names, secrets)
  {
    FinishingTold(WorkOf(d), WorkOf(mid), b, between);
    Gather(h, schema, d0, d, b, ending, d', names, secrets);
  }

  // ------------------------------------------------------------------------------ whole runs

  function Names(boots: seq<Boot>): set<string> { set b | b in boots :: ROLLBACK_PREFIX + b.token }

  function Secrets(boots: seq<Boot>): set<Content> { set b, c | b in boots && c in b.draw.Contents() :: c }

  predicate Whole(secret: Option<Content>) { secret.Some? && |secret.value| == SECRET_LENGTH }

  function Wholes(boots: seq<Boot>): set<Content> { set b | b in boots :: b.draw.whole }

  function Parts(boots: seq<Boot>): set<Content> { set b | b in boots :: b.draw.part }

  /** How each boot of a run ends, told before the first of them from the work ahead and the steps
      that each will live for. The run goes on until a boot ends the restore. */
  function Endings(w: Work, boots: seq<Boot>): seq<Step>
    decreases boots
  {
    if boots == [] then []
    else
      var ending := boots[0].Ending(w);
      [ending] + if ending.Done? then [] else Endings(boots[0].After(w), boots[1..])
  }

  /** Some boot of the run is to die between creating the file of the secret and filling it. */
  predicate CutShort(d0: Disk, boots: seq<Boot>) { Cut in Endings(WorkOf(d0), boots) }

  /** Some boot of the run lives long enough to end the restore. */
  predicate Lasts(d0: Disk, boots: seq<Boot>) { exists b :: b in boots && b.budget >= WorkOf(d0).Total(2) }

  predicate Applies(endings: seq<Step>) { endings != [] && endings[|endings| - 1].Done? }

  lemma LessToDo(w: Work, b: Boot)
    ensures b.After(w).Total(2) <= w.Total(2)
  {
  }

  /** The first boot that lives for all the work there was at first ends the restore. */
  lemma {:induction false} LongBootEnds(w: Work, boots: seq<Boot>, b: Boot)
    requires b in boots && b.budget >= w.Total(2)
    ensures Applies(Endings(w, boots))
    decreases boots
  {
    if !boots[0].Ending(w).Done? {
      LessToDo(w, boots[0]);
      assert b in boots[1..];
      LongBootEnds(boots[0].After(w), boots[1..], b);
    }
  }

  lemma LongBoots(w: Work, boots: seq<Boot>)
    ensures forall b :: b in boots && b.budget >= w.Total(2) ==> Applies(Endings(w, boots))
  {
    forall b | b in boots && b.budget >= w.Total(2) ensures Applies(Endings(w, boots)) {
      LongBootEnds(w, boots, b);
    }
  }

  /** What a run makes of the secret: one already made stays; otherwise it is part of a draw if a
      boot was cut between creating and filling the file, and a whole one if not. */
  ghost predicate MakesOver(d: Disk, d': Disk, boots: seq<Boot>, endings: seq<Step>) {
    if Made(d).Some? then Made(d') == Made(d) && Cut !in endings
    else if Cut in endings then Made(d').Some? && Made(d').value in Parts(boots)
    else Made(d').Some? ==> Made(d').value in Wholes(boots)
  }

  lemma MakesOneMore(d: Disk, mid: Disk, d': Disk, boot: Boot, boots: seq<Boot>, ending: Step, endings: seq<Step>)
    requires Makes(d, mid, ending, boot.draw) && MakesOver(mid, d', boots, endings)
    ensures MakesOver(d, d', [boot] + boots, [ending] + endings)
  {
    assert forall b :: b in boots ==> b in [boot] + boots;
    assert boot in [boot] + boots;
    assert Cut in [ending] + endings <==> ending == Cut || Cut in endings;
  }

  /** How boots go, as a relation between the disk met, the boot, how it ended and the disk left. */
  ghost function Going(h: Host, schema: nat, d0: Disk, names: set<string>, secrets: set<Content>):
    (Disk, Boot, Step, Disk) -> bool
    requires Staged(h, schema, d0)
  {
    (d: Disk, b: Boot, ending: Step, d': Disk) => Goes(h, schema, d0, d, b, ending, d', names, secrets)
  }

  /** The disks that the boots of a run met and left, and how each boot ended. The run goes on until
      a boot ends the restore. */
  ghost predicate Course(goes: (Disk, Boot, Step, Disk) -> bool, disks: seq<Disk>, boots: seq<Boot>, endings: seq<Step>)
    decreases boots
  {
    && |disks| == |endings| + 1
    && if boots == [] then endings == []
       else
         && endings != [] && goes(disks[0], boots[0], endings[0], disks[1])
         && if endings[0].Done? then |endings| == 1 else Course(goes, disks[1..], boots[1..], endings[1..])
  }

  lemma CourseFrom(goes: (Disk, Boot, Step, Disk) -> bool, d: Disk, disks: seq<Disk>, boots: seq<Boot>, ending: Step,
                   endings: seq<Step>)
    requires boots != [] && disks != [] && goes(d, boots[0], ending, disks[0])
    requires if ending.Done? then endings == [] && |disks| == 1 else Course(goes, disks, boots[1..], endings)
    ensures Course(goes, [d] + disks, boots, [ending] + endings)
  {
    assert ([d] + disks)[1..] == disks && ([ending] + endings)[1..] == endings;
  }

  lemma LastOf(d: Disk, disks: seq<Disk>, ending: Step, endings: seq<Step>)
    requires |disks| == |endings| + 1 && (ending.Done? ==> endings == [])
    ensures ([d] + disks)[|endings| + 1] == disks[|endings|]
    ensures Applies([ending] + endings) <==> ending.Done? || Applies(endings)
  {
  }

  lemma {:induction false} CourseMakes(goes: (Disk, Boot, Step, Disk) -> bool, disks: seq<Disk>, boots: seq<Boot>,
                                       endings: seq<Step>)
    requires Course(goes, disks, boots, endings)
    requires forall d, b, ending, d' :: goes(d, b, ending, d') ==> Makes(d, d', ending, b.draw)
    ensures MakesOver(disks[0], disks[|endings|], boots, endings)
    decreases boots
  {
    if boots != [] {
      assert boots == [boots[0]] + boots[1..] && endings == [endings[0]] + endings[1..];
      if endings[0].Done? {
        MakesOneMore(disks[0], disks[1], disks[1], boots[0], boots[1..], endings[0], []);
      } else {
        CourseMakes(goes, disks[1..], boots[1..], endings[1..]);
        MakesOneMore(disks[0], disks[1], disks[|endings|], boots[0], boots[1..], endings[0], endings[1..]);
      }
    }
  }

  lemma EndingsFrom(w: Work, w': Work, b: Boot, boots: seq<Boot>, ending: Step, endings: seq<Step>)
    requires ending == b.Ending(w) && (ending.Dead() ==> w' == b.After(w))
    requires if ending.Done? then endings == [] else endings == Endings(w', boots)
    ensures [ending] + endings == Endings(w, [b] + boots)
  {
    assert ([b] + boots)[1..] == boots;
  }

  lemma {:induction false} CourseIsTold(goes: (Disk, Boot, Step, Disk) -> bool, work: Disk -> Work, disks: seq<Disk>,
                                        boots: seq<Boot>, endings: seq<Step>)
    requires Course(goes, disks, boots, endings)
    requires forall d, b, ending, d' :: goes(d, b, ending, d') ==>
      ending == b.Ending(work(d)) && (ending.Dead() ==> work(d') == b.After(work(d)))
    ensures endings == Endings(work(disks[0]), boots)
    decreases boots
  {
    if boots != [] {
      var rest := endings[1..];
      if !endings[0].Done? { CourseIsTold(goes, work, disks[1..], boots[1..], rest); }
      assert endings == [endings[0]] + rest && boots == [boots[0]] + boots[1..];
      EndingsFrom(work(disks[0]), work(disks[1]), boots[0], boots[1..], endings[0], rest);
    }
  }

  lemma RunIsTold(goes: (Disk, Boot, Step, Disk) -> bool, disks: seq<Disk>, boots: seq<Boot>, endings: seq<Step>)
    requires Course(goes, disks, boots, endings)
    requires forall d, b, ending, d' :: goes(d, b, ending, d') ==> Tells(d, b, ending, d')
    ensures endings == Endings(WorkOf(disks[0]), boots)
  {
    CourseIsTold(goes, WorkOf, disks, boots, endings);
  }

  lemma {:induction false} CourseGoes(goes: (Disk, Boot, Step, Disk) -> bool, disks: seq<Disk>, boots: seq<Boot>,
                                      endings: seq<Step>, i: nat)
    requires Course(goes, disks, boots, endings) && i < |endings|
    ensures |endings| <= |boots| && goes(disks[i], boots[i], endings[i], disks[i + 1])
    ensures endings[i].Done? ==> i == |endings| - 1
    decreases boots
  {
    if i > 0 {
      CourseGoes(goes, disks[1..], boots[1..], endings[1..], i - 1);
    } else if |endings| > 1 {
      CourseGoes(goes, disks[1..], boots[1..], endings[1..], 0);
    }
  }

  lemma CourseKeeps(goes: (Disk, Boot, Step, Disk) -> bool, kept: Disk -> bool, ended: Disk -> bool, disks: seq<Disk>,
                    boots: seq<Boot>, endings: seq<Step>)
    requires Course(goes, disks, boots, endings)
    requires forall d, b, ending, d' :: goes(d, b, ending, d') ==> if ending.Done? then ended(d') else kept(d')
    ensures Applies(endings) ==> ended(disks[|endings|])
    ensures forall i :: 0 < i <= |endings| && (i == |endings| ==> !Applies(endings)) ==> kept(disks[i])
  {
    if Applies(endings) { CourseGoes(goes, disks, boots, endings, |endings| - 1); }
    forall i | 0 < i <= |endings| && (i == |endings| ==> !Applies(endings)) ensures kept(disks[i]) {
      CourseGoes(goes, disks, boots, endings, i - 1);
    }
  }

  /** One boot of a run. */
  method TakeBoot(d: DataDir, schema: nat, b: Boot, ghost d0: Disk, ghost names: set<string>,
                  ghost secrets: set<Content>)
    returns (ending: Step)
    requires Offered(d.host, schema, d0, d.State(), names, secrets, b.token, b.draw) && b.leftover.Keys <= {Wal, Shm}
    modifies d
    ensures Going(d.host, schema, d0, names, secrets)(old(d.State()), b, ending, d.State())
    ensures !ending.Done? ==> Underway(d.host, schema, d0, d.State(), names, secrets)
  {
    d.budget := b.budget;
    var outcome := d.ApplyPendingRestore(schema, b.token, b.draw, b.leftover, d0, names, secrets);
    ending := Ending(outcome);
  }

  method Resume(d: DataDir, schema: nat, boots: seq<Boot>, ghost goes: (Disk, Boot, Step, Disk) -> bool,
                ghost d0: Disk, ghost names: set<string>, ghost secrets: set<Content>)
    returns (applied: bool, ghost endings: seq<Step>, ghost disks: seq<Disk>)
    requires Underway(d.host, schema, d0, d.State(), names, secrets)
    requires goes == Going(d.host, schema, d0, names, secrets)
    requires forall b :: b in boots ==>
      b.leftover.Keys <= {Wal, Shm} && ROLLBACK_PREFIX + b.token in names && b.draw.Contents() <= secrets
    modifies d
    ensures Course(goes, disks, boots, endings)
    ensures disks[0] == old(d.State()) && disks[|endings|] == d.State()
    ensures applied <==> Applies(endings)
  {
    applied, endings, disks := false, [], [d.State()];
    if boots == [] { return; }
    ghost var was := d.State();
    var ending := TakeBoot(d, schema, boots[0], d0, names, secrets);
    if ending.Done? {
      applied, disks := true, [d.State()];
    } else {
      applied, endings, disks := Resume(d, schema, boots[1..], goes, d0, names, secrets);
    }
    CourseFrom(goes, was, disks, boots, ending, endings);
    LastOf(was, disks, ending, endings);
    endings, disks := [ending] + endings, [was] + disks;
  }

  /** The end of a run of boots: what a single uninterrupted boot would have left, for one of the
      rollback names and one of the secrets drawn on the way, if and only if no boot is cut
      between creating the file of the secret and filling it, which the steps that the boots live
      for tell. If one is, the secret is too short ever to be loaded, and still not the old one. */
  ghost predicate Ends(h: Host, schema: nat, d0: Disk, d: Disk, boots: seq<Boot>)
    requires Staged(h, schema, d0)
  {
    && Restored(h, schema, d0, d, Names(boots), Secrets(boots))
    && (Restored(h, schema, d0, d, Names(boots), Wholes(boots)) <==> !CutShort(d0, boots))
    && (Whole(SecretOf(d.live)) <==> !CutShort(d0, boots))
  }

  lemma WholeOrPart(h: Host, schema: nat, d0: Disk, d: Disk, boots: seq<Boot>)
    requires Staged(h, schema, d0) && FreshNames(d0, Names(boots))
    requires MakesOver(d0, d, boots, Endings(WorkOf(d0), boots))
    requires Restored(h, schema, d0, d, Names(boots), Secrets(boots)) && forall b :: b in boots ==> b.draw.Proper()
    ensures Ends(h, schema, d0, d, boots)
  {
    var r, secret :| r in Names(boots) && secret in Secrets(boots) && d == FinalDisk(h, schema, d0, r, secret);
    FinalDiskHolds(h, schema, d0, r, secret);
    assert Made(d0) == None && Made(d) == Some(secret);
    if Restored(h, schema, d0, d, Names(boots), Wholes(boots)) {
      var r', secret' :| r' in Names(boots) && secret' in Wholes(boots) && d == FinalDisk(h, schema, d0, r', secret');
      FinalDiskHolds(h, schema, d0, r', secret');
    }
  }

  lemma StartOfRun(h: Host, schema: nat, d0: Disk, boots: seq<Boot>)
    requires Sound(h) && Staged(h, schema, d0) && FreshNames(d0, Names(boots))
    ensures Underway(h, schema, d0, d0, Names(boots), Secrets(boots))
    ensures forall b :: b in boots ==> ROLLBACK_PREFIX + b.token in Names(boots) && b.draw.Contents() <= Secrets(boots)
  {
  }

  /** What is true of boots in general, and enough to tell how runs of them end. */
  ghost predicate Reliable(goes: (Disk, Boot, Step, Disk) -> bool, h: Host, schema: nat, d0: Disk, names: set<string>,
                           secrets: set<Content>)
    requires Staged(h, schema, d0)
  {
    forall d, b, ending, d' :: goes(d, b, ending, d') ==>
      && Tells(d, b, ending, d') && Makes(d, d', ending, b.draw)
      && (if ending.Done? then Restored(h, schema, d0, d', names, secrets) else Inv(h, schema, d0, d', names, secrets))
  }

  lemma RunKeepsInv(goes: (Disk, Boot, Step, Disk) -> bool, h: Host, schema: nat, d0: Disk, disks: seq<Disk>,
                    boots: seq<Boot>, endings: seq<Step>, names: set<string>, secrets: set<Content>)
    requires Staged(h, schema, d0) && Reliable(goes, h, schema, d0, names, secrets)
    requires Course(goes, disks, boots, endings)
    ensures Applies(endings) ==> Restored(h, schema, d0, disks[|endings|], names, secrets)
    ensures forall i :: 0 < i <= |endings| && (i == |endings| ==> !Applies(endings)) ==>
      Inv(h, schema, d0, disks[i], names, secrets)
  {
    CourseKeeps(goes, d => Inv(h, schema, d0, d, names, secrets), d => Restored(h, schema, d0, d, names, secrets),
                disks, boots, endings);
  }

  lemma BootsAreReliable(h: Host, schema: nat, d0: Disk, names: set<string>, secrets: set<Content>)
    requires Staged(h, schema, d0)
    ensures Reliable(Going(h, schema, d0, names, secrets), h, schema, d0, names, secrets)
  {
  }

  /** The restore is crash-transparent. In every run of boots, each killed after any durable step,
      the disks keep the invariant; the first boot that lives long enough ends the restore; and how
      each boot ends, and so what the run makes of the secret, is told by the steps they live for. */
  lemma RunEnds(goes: (Disk, Boot, Step, Disk) -> bool, h: Host, schema: nat, d0: Disk, disks: seq<Disk>,
                boots: seq<Boot>, endings: seq<Step>)
    requires Staged(h, schema, d0) && FreshNames(d0, Names(boots)) && forall b :: b in boots ==> b.draw.Proper()
    requires Reliable(goes, h, schema, d0, Names(boots), Secrets(boots))
    requires Course(goes, disks, boots, endings) && disks[0] == d0
    ensures endings == Endings(WorkOf(d0), boots)
    ensures Applies(endings) ==> Ends(h, schema, d0, disks[|endings|], boots)
    ensures forall i :: 0 < i <= |endings| && (i == |endings| ==> !Applies(endings)) ==>
      Inv(h, schema, d0, disks[i], Names(boots), Secrets(boots))
    ensures Lasts(d0, boots) ==> Applies(endings)
  {
    CourseMakes(goes, disks, boots, endings);
    RunIsTold(goes, disks, boots, endings);
    LongBoots(WorkOf(d0), boots);
    RunKeepsInv(goes, h, schema, d0, disks, boots, endings, Names(boots), Secrets(boots));
    if Applies(endings) { WholeOrPart(h, schema, d0, disks[|endings|], boots); }
  }

  /** The run itself, and its end. */
  method RunBoots(d: DataDir, schema: nat, boots: seq<Boot>, ghost d0: Disk)
    returns (applied: bool, ghost disks: seq<Disk>)
    requires d.State() == d0
    requires Sound(d.host) && Staged(d.host, schema, d0) && FreshNames(d0, Names(boots))
    requires forall b :: b in boots ==> b.leftover.Keys <= {Wal, Shm} && b.draw.Proper()
    modifies d
    ensures applied <==> Applies(Endings(WorkOf(d0), boots))
    ensures applied ==> Ends(d.host, schema, d0, d.State(), boots)
    ensures Lasts(d0, boots) ==> applied
    ensures Course(Going(d.host, schema, d0, Names(boots), Secrets(boots)), disks, boots, Endings(WorkOf(d0), boots))
    ensures disks[0] == d0 && disks[|disks| - 1] == d.State()
    ensures forall i :: 0 < i < |disks| && (i == |disks| - 1 ==> !applied) ==>
      Inv(d.host, schema, d0, disks[i], Names(boots), Secrets(boots))
  {
    StartOfRun(d.host, schema, d0, boots);
    ghost var goes := Going(d.host, schema, d0, Names(boots), Secrets(boots));
    ghost var endings;
    applied, endings, disks := Resume(d, schema, boots, goes, d0, Names(boots), Secrets(boots));
    BootsAreReliable(d.host, schema, d0, Names(boots), Secrets(boots));
    RunEnds(goes, d.host, schema, d0, disks, boots, endings);
  }

  /** The first boot is cut exactly if it lives for the eight steps that every restore takes before
      its secret is filled, and one for each file that is saved or installed. */
  lemma CutAtFirst(h: Host, schema: nat, d0: Disk, boots: seq<Boot>)
    requires Staged(h, schema, d0) && boots != []
    ensures Endings(WorkOf(d0), boots)[0] == Cut <==>
      boots[0].budget == 8 + Among(LIVE_FILES, d0.live) + |d0.marker.value.manifest.entries|
  {
    WorkAtFirst(h, schema, d0);
  }

  /** A run that is cut short leaves part of a secret. */
  lemma CutLeavesPart(h: Host, schema: nat, d0: Disk, d: Disk, boots: seq<Boot>)
    requires Staged(h, schema, d0) && FreshNames(d0, Names(boots)) && Ends(h, schema, d0, d, boots)
    requires CutShort(d0, boots) && forall b :: b in boots ==> b.draw.Proper()
    ensures d.marker == None && Secret in d.live && d.live[Secret] in Parts(boots)
  {
    var r, secret :| r in Names(boots) && secret in Secrets(boots) && d == FinalDisk(h, schema, d0, r, secret);
    FinalDiskHolds(h, schema, d0, r, secret);
    var b :| b in boots && secret in b.draw.Contents();
  }

  method RunCutShort(d: DataDir, schema: nat, boots: seq<Boot>, ghost d0: Disk)
    requires d.State() == d0
    requires Sound(d.host) && Staged(d.host, schema, d0) && FreshNames(d0, Names(boots))
    requires forall b :: b in boots ==> b.leftover.Keys <= {Wal, Shm} && b.draw.Proper()
    requires CutShort(d0, boots) && Lasts(d0, boots)
    modifies d
    ensures d.marker == None && Secret in d.live && d.live[Secret] in Parts(boots)
  {
    var applied, disks := RunBoots(d, schema, boots, d0);
    CutLeavesPart(d.host, schema, d0, d.State(), boots);
  }

  lemma SampleNames()
    ensures FreshNames(SampleDisk(0), {ROLLBACK_PREFIX + "a", ROLLBACK_PREFIX + "b"})
  {
    assert ROLLBACK_PREFIX[18] != STAGE_PREFIX[18];
  }

  function SampleBoot(budget: nat, token: string): Boot {
    Boot(budget, token, Draw(seq(SECRET_LENGTH, _ => 's'), ""), map[])
  }

  function SampleBoots(): seq<Boot> { [SampleBoot(10, "a"), SampleBoot(15, "b")] }

  lemma SampleDraws()
    ensures Parts(SampleBoots()) == {""} && Names(SampleBoots()) <= {ROLLBACK_PREFIX + "a", ROLLBACK_PREFIX + "b"}
    ensures forall b :: b in SampleBoots() ==> b.leftover.Keys <= {Wal, Shm} && b.draw.Proper()
  {
    assert SampleBoots()[0] in SampleBoots();
  }

  lemma SampleWork()
    requires Staged(SampleHost(), 0, SampleDisk(0))
    ensures CutShort(SampleDisk(0), SampleBoots()) && Lasts(SampleDisk(0), SampleBoots())
  {
    var boots := SampleBoots();
    AllAmong(LIVE_FILES, map[]);
    WorkAtFirst(SampleHost(), 0, SampleDisk(0));
    CutAtFirst(SampleHost(), 0, SampleDisk(0), boots);
    assert Endings(WorkOf(SampleDisk(0)), boots)[0] == Cut;
    assert boots[1] in boots;
  }

  /** It does happen: two boots, the first of them cut, end a restore with an empty secret. */
  method CutRun() returns (d: DataDir)
    ensures fresh(d) && d.marker == None && SecretOf(d.live) == Some("")
  {
    d := new DataDir(SampleHost(), SampleDisk(0));
    SomeRestore(0);
    SampleNames();
    SampleDraws();
    SampleWork();
    RunCutShort(d, 0, SampleBoots(), SampleDisk(0));
  }
}
