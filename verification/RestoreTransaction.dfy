/** `apply_restore` and `recover_incomplete_restore`: the code, step by step. Every
    step may raise or be the last one the process takes; whatever happens, the disk
    is left in a state from which recovery ends with one whole library. */
module RestoreTransaction {
  import opened Common
  import opened DirectoryLog
  import opened RestoreDisk
  import opened RestoreSteps
  import opened RestorePass

  datatype Recovery = NotPerformed | KeepRestored | RestoredPrevious

  /** A choice of the outside world that is no fault. */
  method Coin() returns (b: bool) {
    b := *;
  }

  /** Where I/O errors, refused syncs and the ends of processes come from. */
  class World {
    /** How many there were so far. */
    ghost var faults: nat

    constructor ()
      ensures faults == 0
    {
      faults := 0;
    }

    method Fault() returns (b: bool)
      modifies this
      ensures faults == old(faults) + if b then 1 else 0
    {
      b := *;
      if b { faults := faults + 1; }
    }
  }

  /** A sidecar of the restored database appears or disappears. */
  datatype SidecarWrite = SidecarWrite(kind: SidecarKind, created: bool)

  class Storage {
    /** The library being replaced and the components the restore covers. */
    const lib: Library
    /** The sidecars the restored database may create before the commit. */
    const extra: set<File>
    /** The components the staged tree holds. */
    const staged: set<Component>
    /** Whether the sync that confirms a returned database file may be refused. */
    const returnRefusable: bool
    const world: World

    var disk: Disk
    /** The journal dictionary `apply_restore` works on. */
    var memory: Journal

    /** The conditions under which a restore is all-or-nothing; `RestoreLimits`
        shows what happens without each. */
    ghost predicate Tame() {
      && lib.NoOrphans()
      && extra <= lib.had
      && (returnRefusable ==> !lib.HasSidecars())
      && Database in lib.components
      && (forall i, j :: 0 <= i < j < |lib.components| ==> lib.components[i] != lib.components[j])
    }

    ghost predicate Settled(c: Component)
      reads this
      requires disk.Total()
    {
      forall f :: Owner(f) == c ==> disk.files[f] == Log(disk.Now(f), [])
    }

    ghost predicate FlagsSafe(components: map<Component, Flags>)
      reads this
      requires disk.Total()
    {
      forall c :: c in lib.components ==>
        c in components && ComponentSafe(ComponentFlags(components[c]), c, disk, lib)
    }

    /** Whatever did not go through cost a fault. */
    twostate predicate Paid(through: bool)
      reads world
    {
      old(world.faults) <= world.faults && (!through ==> old(world.faults) < world.faults)
    }

    /** Nothing outside component `c` changed. */
    twostate predicate OnlyFilesOf(c: Component)
      reads this
    {
      && old(disk).Total() && disk.Total()
      && memory == old(memory)
      && disk.journal == old(disk).journal
      && disk.rootDir == old(disk).rootDir && disk.databaseDir == old(disk).databaseDir
      && (forall f :: Owner(f) != c ==> disk.files[f] == old(disk).files[f])
    }

    constructor (lib: Library, extra: set<File>, staged: set<Component>, returnRefusable: bool, world: World)
      ensures this.lib == lib && this.extra == extra && this.staged == staged
      ensures this.returnRefusable == returnRefusable && this.world == world
      ensures Undecided(disk, lib, extra) && AllHome(disk, lib) && disk.journal == Log(None, [])
      ensures Confirmed(disk, lib)
    {
      this.lib := lib;
      this.extra := extra;
      this.staged := staged;
      this.returnRefusable := returnRefusable;
      this.world := world;
      var files := map f | f in ALL_FILES :: Log(Cell(lib.Old(f), None), []);
      this.disk := Disk(files, Log(None, []), false, false);
      this.memory := Journal(Prepared, map[]);
      new;
      forall f ensures f in files && disk.files[f] == Log(Cell(lib.Old(f), None), []) {
        AllFilesComplete(f);
      }
      forall f | lib.Covers(f) ensures FileSound(f, disk, lib, extra) {
        assert forall s :: disk.files[f].Has(s) ==> s == Cell(lib.Old(f), None);
      }
    }

    // ---- Directory syncs ---------------------------------------------------

    /** `confirming` marks the sync that follows the return of the database file. */
    method FsyncDirectory(c: Component, place: Place, confirming: bool) returns (r: Attempt<bool>)
      requires disk.Total()
      modifies this`disk, world
      ensures Paid(r == Ok(true))
      ensures OnlyFilesOf(c) && Narrows(old(disk), disk)
      ensures r == Ok(true) ==> disk == old(disk).Synced(c, place)
      ensures r != Ok(true) ==> disk == old(disk)
      ensures !r.Raised? && (confirming && !returnRefusable ==> r != Ok(false))
    {
      SyncNarrows(disk, c, place);
      var stop := world.Fault();
      if stop { return Stopped; }
      if !confirming || returnRefusable {
        var refused := world.Fault();
        if refused { return Ok(false); }
      }
      disk := disk.Synced(c, place);
      return Ok(true);
    }

    /** Every directory is attempted, also behind a refusal; the answer is whether all
        were synced. `answers` are those of the single syncs, in order. */
    method FsyncDirectories(c: Component, places: seq<Place>, confirming: bool)
        returns (r: Attempt<bool>, ghost answers: seq<bool>)
      requires disk.Total() && places != [] && places[0] == LivePlace
      requires forall f :: Owner(f) == c ==> disk.files[f].AllTouch(LivePlace)
      modifies this`disk, world
      ensures Paid(r == Ok(true))
      ensures OnlyFilesOf(c) && Narrows(old(disk), disk)
      ensures |answers| <= |places| && disk == AfterSyncs(old(disk), c, places[..|answers|], answers)
      ensures r.Ok? ==> |answers| == |places| && (r.value <==> false !in answers)
      ensures r == Ok(true) ==> Settled(c)
      ensures !r.Raised? && (confirming && !returnRefusable ==> r != Ok(false))
    {
      var durable := true;
      ghost var start := disk;
      answers := [];
      for i := 0 to |places|
        invariant |answers| == i && disk == AfterSyncs(start, c, places[..i], answers) && disk.Total()
        invariant durable <==> false !in answers
        invariant Paid(durable)
        invariant confirming && !returnRefusable ==> durable
      {
        ghost var before := disk;
        var synced := FsyncDirectory(c, places[i], confirming);
        if !synced.Ok? {
          SyncsNarrow(start, c, places[..i], answers);
          return synced, answers;
        }
        NextSync(start, before, c, places, answers, synced.value, disk);
        answers := answers + [synced.value];
        if !synced.value { durable := false; }
      }
      assert places[..|places|] == places;
      SyncsNarrow(start, c, places, answers);
      return Ok(durable), answers;
    }

    // ---- Renames -----------------------------------------------------------

    method Rename(m: Move) returns (r: Attempt<()>)
      requires disk.Total()
      modifies this`disk, world
      ensures m.Source(old(disk)).Some? ==> Paid(r.Ok?)
      ensures r.Ok? ==> disk == Renamed(old(disk), m) && m.Source(old(disk)).Some?
      ensures !r.Ok? ==> disk == old(disk)
    {
      var stop := world.Fault();
      if stop { return Stopped; }
      var fails := world.Fault();
      if fails || m.Source(disk).None? { return Raised; }
      disk := Renamed(disk, m);
      return Ok(());
    }

    /** The renames of a batch, in order, up to the first that raises. */
    method RenameAll(c: Component, moves: seq<Move>) returns (r: Attempt<()>, made: nat)
      requires disk.Total() && forall m :: m in moves ==> Owner(m.f) == c
      requires forall i, j :: 0 <= i < j < |moves| ==> moves[i].f != moves[j].f
      modifies this`disk, world
      ensures (forall m :: m in moves ==> m.Source(old(disk)).Some?) ==> Paid(r.Ok?)
      ensures made <= |moves| && disk == AfterMoves(old(disk), moves[..made])
      ensures forall i :: 0 <= i < made ==> moves[i].Source(old(disk)).Some?
      ensures r.Ok? ==> made == |moves|
      ensures !r.Ok? ==> made < |moves|
    {
      made := 0;
      while made < |moves|
        invariant made <= |moves|
        invariant disk == AfterMoves(old(disk), moves[..made])
        invariant (forall m :: m in moves ==> m.Source(old(disk)).Some?) ==> Paid(true)
        invariant forall k :: 0 <= k < made ==> moves[k].Source(old(disk)).Some?
      {
        AfterMovesStep(old(disk), moves, made, c);
        r := Rename(moves[made]);
        if !r.Ok? { return; }
        made := made + 1;
      }
      return Ok(()), made;
    }

    /** The moves first, then one sync of both directories -- also when a move
        raised, behind those that were made. */
    method ReplaceDurably(c: Component, moves: seq<Move>, confirming: bool)
        returns (r: Attempt<bool>, made: nat)
      requires disk.Total() && forall m :: m in moves ==> Owner(m.f) == c
      requires forall f :: Owner(f) == c ==> disk.files[f].AllTouch(LivePlace)
      requires forall i, j :: 0 <= i < j < |moves| ==> moves[i].f != moves[j].f
      modifies this`disk, world
      ensures (forall m :: m in moves ==> m.Source(old(disk)).Some?) ==> Paid(r == Ok(true))
      ensures OnlyFilesOf(c)
      ensures made <= |moves| && Narrows(AfterMoves(old(disk), moves[..made]), disk)
      ensures forall i :: 0 <= i < made ==> moves[i].Source(old(disk)).Some?
      ensures r.Ok? ==> made == |moves|
      ensures r == Ok(true) && moves != [] ==> Settled(c)
      ensures r.Raised? && |moves| == 1 ==> disk == old(disk)
      ensures r.Ok? && confirming && !returnRefusable ==> r.value
    {
      var renamed;
      renamed, made := RenameAll(c, moves);
      AfterMovesFrame(old(disk), moves[..made], c);
      assert moves[..|moves|] == moves;
      if renamed.Stopped? { return Stopped, made; }
      if made == 0 {
        return if renamed.Ok? then Ok(true) else Raised, 0;
      }
      MovesTouchLive(old(disk), moves[..made], c);
      var durable, _ := FsyncDirectories(c, [LivePlace, RollbackPlace], confirming);
      if durable.Ok? && renamed.Raised? { return Raised, made; }
      return durable, made;
    }

    // ---- Rollback ----------------------------------------------------------

    /** The moves back of the sidecars that still have a copy in the rollback tree. */
    method PendingSidecars() returns (pending: seq<Move>)
      requires disk.Total()
      ensures forall m :: m in pending ==> m.Back? && m.f.Sidecar? && disk.Now(m.f).saved.Some?
      ensures forall i, j :: 0 <= i < j < |pending| ==> pending[i].f != pending[j].f
      ensures forall k :: disk.Now(Sidecar(k)).saved.Some? ==> Back(Sidecar(k)) in pending
      ensures pending == Pending(Nows(disk), SIDECARS)
    {
      pending := [];
      for i := 0 to |SIDECARS|
        invariant pending == Pending(Nows(disk), SIDECARS[..i])
      {
        assert SIDECARS[..i + 1][..i] == SIDECARS[..i];
        if disk.Now(SIDECARS[i]).saved.Some? {
          pending := pending + [Back(SIDECARS[i])];
        }
      }
      assert SIDECARS[..|SIDECARS|] == SIDECARS;
      PendingSidecarsAre(disk);
    }

    /** Moves back the sidecars still in the rollback tree, so a pass that stopped
        between the database file and its sidecars can be completed by a later one. */
    method RestoreRollbackSidecars(c: Component, ghost g: Flags) returns (r: Attempt<bool>)
      requires Tame() && Guarded(g, c, disk, lib, extra)
      requires c == Database && lib.HasSidecars() ==>
                 forall m :: disk.files[Main(c)].Has(m) ==> m.saved.None?
      modifies this`disk, world
      ensures Paid(r == Ok(true))
      ensures OnlyFilesOf(c) && Guarded(g, c, disk, lib, extra)
      ensures disk.Now(Main(c)) == old(disk).Now(Main(c))
      ensures forall m :: disk.files[Main(c)].Has(m) ==> old(disk).files[Main(c)].Has(m)
      ensures r.Ok? ==> forall f: File :: f.Sidecar? && Owner(f) == c ==> disk.Now(f).saved.None?
      ensures r == Ok(true) && old(Settled(c)) ==> Settled(c)
      ensures Did(Nows(old(disk)), Backs(SidecarsOf(c)), Nows(disk), r.Ok?)
    {
      if c != Database {
        NoneDid(disk, c);
        return Ok(true);
      }
      var pending := PendingSidecars();
      if pending == [] {
        assert forall k :: Back(Sidecar(k)) !in pending;
        NoneDid(disk, c);
        return Ok(true);
      }
      r := MoveSidecarsBack(pending, g);
    }

    method MoveSidecarsBack(pending: seq<Move>, ghost g: Flags) returns (r: Attempt<bool>)
      requires Tame() && Guarded(g, Database, disk, lib, extra) && pending != []
      requires forall m :: m in pending ==> m.Back? && m.f.Sidecar? && disk.Now(m.f).saved.Some?
      requires forall i, j :: 0 <= i < j < |pending| ==> pending[i].f != pending[j].f
      requires forall k :: disk.Now(Sidecar(k)).saved.Some? ==> Back(Sidecar(k)) in pending
      requires pending == Pending(Nows(disk), SIDECARS)
      requires lib.HasSidecars() ==> forall m :: disk.files[Main(Database)].Has(m) ==> m.saved.None?
      modifies this`disk, world
      ensures Paid(r == Ok(true))
      ensures OnlyFilesOf(Database) && Guarded(g, Database, disk, lib, extra)
      ensures disk.Now(Main(Database)) == old(disk).Now(Main(Database))
      ensures forall m :: disk.files[Main(Database)].Has(m) ==> old(disk).files[Main(Database)].Has(m)
      ensures r.Ok? ==> forall k :: disk.Now(Sidecar(k)).saved.None?
      ensures r == Ok(true) && old(Settled(Database)) ==> Settled(Database)
      ensures Did(Nows(old(disk)), Backs(SIDECARS), Nows(disk), r.Ok?)
    {
      SoundComponent(Database, disk, lib, extra);
      assert pending[0] in pending && disk.Now(pending[0].f).saved.Some? && lib.HasSidecars();
      ghost var start := disk;
      var made;
      r, made := ReplaceDurably(Database, pending, false);
      SidecarsMoved(start, pending, made, disk, g, lib, extra);
      SidecarsDid(start, pending, made, disk, r.Ok?);
      if r.Ok? {
        assert pending[..made] == pending;
        SidecarsAllBack(start, pending, disk);
      }
    }

    /** Moves a component back from the rollback tree, then its sidecars. */
    method RestoreRollbackComponent(c: Component, ghost g: Flags) returns (r: Attempt<bool>)
      requires Tame() && Guarded(g, c, disk, lib, extra)
      requires disk.Now(Main(c)).saved.Some?
      modifies this`disk, world
      ensures Paid(r == Ok(true))
      ensures OnlyFilesOf(c) && Guarded(g, c, disk, lib, extra)
      ensures !r.Stopped? ==> ReturnConfirmed(disk, lib) || !old(ReturnConfirmed(disk, lib))
      ensures r.Ok? ==> forall f :: Owner(f) == c ==> disk.Now(f).saved.None?
      ensures r == Ok(true) ==> Settled(c)
      ensures Did(Nows(old(disk)), Backs(Files(c)), Nows(disk), r.Ok?)
    {
      ghost var from := Nows(disk);
      var moved := MoveMainBack(c, g);
      ghost var mid := Nows(disk);
      if !moved.Ok? {
        MainThenSidecars(from, c, true, mid, mid, false, false);
        return moved;
      }
      var sidecars := RestoreRollbackSidecars(c, g);
      MainThenSidecars(from, c, true, mid, Nows(disk), true, sidecars.Ok?);
      if !sidecars.Ok? { return sidecars; }
      return Ok(moved.value && sidecars.value);
    }

    method MoveMainBack(c: Component, ghost g: Flags) returns (r: Attempt<bool>)
      requires Tame() && Guarded(g, c, disk, lib, extra)
      requires disk.Now(Main(c)).saved.Some?
      modifies this`disk, world
      ensures Paid(r == Ok(true))
      ensures OnlyFilesOf(c) && Guarded(g, c, disk, lib, extra)
      ensures !r.Stopped? ==> ReturnConfirmed(disk, lib) || !old(ReturnConfirmed(disk, lib))
      ensures r.Ok? ==> disk.Now(Main(c)).saved.None?
      ensures r.Ok? && c == Database && lib.HasSidecars() ==> forall m :: disk.files[Main(c)].Has(m) ==> m.saved.None?
      ensures r == Ok(true) ==> Settled(c)
      ensures Did(Nows(old(disk)), Backs([Main(c)]), Nows(disk), r.Ok?)
    {
      var main := Main(c);
      SoundComponent(c, disk, lib, extra);
      ghost var start := disk;
      var made;
      r, made := ReplaceDurably(c, [Back(main)], true);
      MainBackOutcome(start, c, made, disk, g, lib, extra);
      MainDid(start, main, made, disk, r.Ok?);
    }

    /** Removes one live file; a directory may be left half removed. */
    method RemoveLive(f: File, c: Component, ghost g: Flags) returns (r: Attempt<()>)
      requires Tame() && Guarded(g, c, disk, lib, extra) && Owner(f) == c
      requires g.newInstallStarted && (g.oldExisted ==> disk.Now(Main(c)).saved.Some?)
      modifies this`disk, world
      ensures Paid(r.Ok?)
      ensures OnlyFilesOf(c) && Guarded(g, c, disk, lib, extra)
      ensures forall h :: disk.Now(h).saved == old(disk).Now(h).saved
      ensures r.Ok? ==> disk.Now(f).live.None?
      ensures r.Ok? ==> Nows(disk) == Take(Nows(old(disk)), RemoveStep(f))
      ensures !r.Ok? && Nows(disk) != Nows(old(disk)) ==>
                Halvable(Nows(old(disk)), f) && Nows(disk) == Take(Nows(old(disk)), HalfStep(f))
    {
      if disk.Now(f).live.None? {
        NothingToRemove(disk, f);
        return Ok(());
      }
      var stop := world.Fault();
      var fails := world.Fault();
      if stop || fails {
        var halfway := Coin();
        if halfway && f.Main? && c != Database {
          RemovalStep(g, c, disk, f, Some(Damaged), lib, extra);
          disk := disk.Put(f, Cell(Some(Damaged), disk.Now(f).saved), {LivePlace});
        }
        return if stop then Stopped else Raised;
      }
      RemovalStep(g, c, disk, f, None, lib, extra);
      disk := disk.Put(f, Cell(None, disk.Now(f).saved), {LivePlace});
      return Ok(());
    }

    method RemoveLiveComponent(c: Component, ghost g: Flags) returns (r: Attempt<()>)
      requires Tame() && Guarded(g, c, disk, lib, extra)
      requires g.newInstallStarted && (g.oldExisted ==> disk.Now(Main(c)).saved.Some?)
      modifies this`disk, world
      ensures Paid(r.Ok?)
      ensures OnlyFilesOf(c) && Guarded(g, c, disk, lib, extra)
      ensures forall f :: disk.Now(f).saved == old(disk).Now(f).saved
      ensures r.Ok? ==> forall f :: Owner(f) == c ==> disk.Now(f).live.None?
      ensures Did(Nows(old(disk)), Removals(Files(c)), Nows(disk), r.Ok?)
    {
      ghost var from := Nows(disk);
      r := RemoveLive(Main(c), c, g);
      ghost var mid := Nows(disk);
      OneRemoval(from, Main(c), mid, r.Ok?);
      if !r.Ok? {
        MainThenSidecars(from, c, false, mid, mid, false, false);
        return;
      }
      r := RemoveLiveSidecars(c, g);
      MainThenSidecars(from, c, false, mid, Nows(disk), true, r.Ok?);
    }

    method RemoveLiveSidecars(c: Component, ghost g: Flags) returns (r: Attempt<()>)
      requires Tame() && Guarded(g, c, disk, lib, extra) && disk.Now(Main(c)).live.None?
      requires g.newInstallStarted && (g.oldExisted ==> disk.Now(Main(c)).saved.Some?)
      modifies this`disk, world
      ensures Paid(r.Ok?)
      ensures OnlyFilesOf(c) && Guarded(g, c, disk, lib, extra)
      ensures forall f :: disk.Now(f).saved == old(disk).Now(f).saved
      ensures r.Ok? ==> forall f :: Owner(f) == c ==> disk.Now(f).live.None?
      ensures Did(Nows(old(disk)), Removals(SidecarsOf(c)), Nows(disk), r.Ok?)
    {
      if c != Database { return Ok(()); }
      ghost var from, steps := Nows(disk), Removals(SIDECARS);
      assert steps[..0] == [];
      for i := 0 to |SIDECARS|
        invariant OnlyFilesOf(c) && Guarded(g, c, disk, lib, extra)
        invariant forall f :: disk.Now(f).saved == old(disk).Now(f).saved
        invariant Nows(disk) == TakeAll(from, steps[..i]) && Paid(true)
      {
        TakeNext(from, steps, i);
        r := RemoveLive(SIDECARS[i], c, g);
        if !r.Ok? {
          RemovalStopped(from, steps, i, Nows(disk));
          return;
        }
      }
      assert steps[..|steps|] == steps;
      SidecarsRemoved(from, disk);
      return Ok(());
    }

    /** A sync of component `c` that keeps what a rollback pass relies on. */
    method SyncGuarded(c: Component, g: Flags, places: seq<Place>) returns (r: Attempt<bool>)
      requires Guarded(g, c, disk, lib, extra) && places != [] && places[0] == LivePlace
      modifies this`disk, world
      ensures Paid(r == Ok(true))
      ensures OnlyFilesOf(c) && Guarded(g, c, disk, lib, extra)
      ensures forall f :: disk.Now(f) == old(disk).Now(f)
      ensures old(ReturnConfirmed(disk, lib)) ==> ReturnConfirmed(disk, lib)
      ensures r == Ok(true) ==> Settled(c)
      ensures !r.Raised?
    {
      SoundComponent(c, disk, lib, extra);
      ghost var before := disk;
      ghost var answers;
      r, answers := FsyncDirectories(c, places, false);
      NarrowsKeepsGuarded(g, c, before, disk, lib, extra);
    }

    /** The rollback of a component that an earlier pass already put back. */
    method FinishReturned(c: Component, g: Flags) returns (r: Attempt<bool>)
      requires Tame() && Guarded(g, c, disk, lib, extra) && ReturnConfirmed(disk, lib)
      requires g.oldExisted && disk.Now(Main(c)).saved.None?
      modifies this`disk, world
      ensures Paid(r == Ok(true))
      ensures OnlyFilesOf(c) && Guarded(g, c, disk, lib, extra)
      ensures !r.Stopped? ==> ReturnConfirmed(disk, lib)
      ensures r == Ok(true) ==> ComponentHome(c, disk, lib)
      ensures Did(Nows(old(disk)), Backs(Files(c)), Nows(disk), r.Ok?)
    {
      ghost var from := Nows(disk);
      NothingToReturn(from, Main(c));
      BacksOf(c);
      var sidecars := RestoreRollbackSidecars(c, g);
      ThenDid(from, Backs([Main(c)]), Backs(SidecarsOf(c)), Nows(disk), sidecars.Ok?);
      if !sidecars.Ok? { return sidecars; }
      var resynced := ConfirmReturned(c, g);
      AllIsStopped(from, Backs(Files(c)));
      if !resynced.Ok? { return resynced; }
      return Ok(sidecars.value && resynced.value);
    }

    /** Both directories again, or the live one if the tree was already reclaimed. */
    method ConfirmReturned(c: Component, g: Flags) returns (r: Attempt<bool>)
      requires Tame() && Guarded(g, c, disk, lib, extra) && ReturnConfirmed(disk, lib)
      requires g.oldExisted && forall f: File :: Owner(f) == c ==> disk.Now(f).saved.None?
      modifies this`disk, world
      ensures OnlyFilesOf(c) && Guarded(g, c, disk, lib, extra) && ReturnConfirmed(disk, lib)
      ensures r == Ok(true) ==> ComponentHome(c, disk, lib)
      ensures Nows(disk) == Nows(old(disk)) && !r.Raised? && Paid(r == Ok(true))
    {
      var reclaimed := Coin();
      ghost var before := disk;
      r := SyncGuarded(c, g, if reclaimed then [LivePlace] else [LivePlace, RollbackPlace]);
      NowsSame(before, disk);
      if r == Ok(true) { SettledHome(g, c, disk, lib, extra); }
    }

    /** Removes what the restore installed; for a component that did not exist
        before, that is the whole rollback. */
    method UndoInstall(c: Component, g: Flags) returns (r: Attempt<bool>)
      requires Tame() && Guarded(g, c, disk, lib, extra) && ReturnConfirmed(disk, lib)
      requires g.newInstallStarted && (g.oldExisted ==> disk.Now(Main(c)).saved.Some?)
      modifies this`disk, world
      ensures Paid(r == Ok(true))
      ensures OnlyFilesOf(c) && Guarded(g, c, disk, lib, extra)
      ensures !r.Stopped? ==> ReturnConfirmed(disk, lib)
      ensures r.Ok? && g.oldExisted ==> disk.Now(Main(c)).saved.Some? && r.value
      ensures r == Ok(true) && !g.oldExisted ==> ComponentHome(c, disk, lib)
      ensures Did(Nows(old(disk)), Removals(Files(c)), Nows(disk), r.Ok?)
    {
      if !g.oldExisted { NoneSaved(g, c, disk, lib, extra); }
      ghost var start := disk;
      var removed := RemoveLiveComponent(c, g);
      RemovalConfirms(start, disk, g, c, lib);
      if !removed.Ok? { return removed.PropagateFailure(); }
      if g.oldExisted { return Ok(true); }
      AllIsStopped(Nows(start), Removals(Files(c)));
      ghost var before := disk;
      r := SyncGuarded(c, g, [LivePlace]);
      NowsSame(before, disk);
      if r == Ok(true) { SettledHome(g, c, disk, lib, extra); }
    }

    /** One component of the rollback loop. A component that existed and has no copy
        in the rollback tree was already put back: only what remains is finished,
        and its directories are synced again. */
    method RollbackComponent(c: Component, g: Flags) returns (r: Attempt<bool>)
      requires Tame() && Guarded(g, c, disk, lib, extra) && ReturnConfirmed(disk, lib)
      modifies this`disk, world
      ensures Paid(r == Ok(true))
      ensures OnlyFilesOf(c) && Undecided(disk, lib, extra)
      ensures !r.Stopped? ==> ReturnConfirmed(disk, lib)
      ensures r == Ok(true) ==> ComponentHome(c, disk, lib)
      ensures Did(Nows(old(disk)), PassSteps(g, c, old(disk).Now(Main(c)).saved.Some?), Nows(disk), r.Ok?)
    {
      ghost var from, mainSaved := Nows(disk), disk.Now(Main(c)).saved.Some?;
      PassStepsParts(g, c, mainSaved);
      if g.oldExisted && disk.Now(Main(c)).saved.None? {
        r := FinishReturned(c, g);
        return;
      }
      r := Ok(true);
      ghost var undo: seq<Step> := [];
      if g.newInstallStarted {
        undo := Removals(Files(c));
        r := UndoInstall(c, g);
        if !r.Ok? {
          StoppedEarly(from, undo, if g.oldExisted then Backs(Files(c)) else [], Nows(disk));
          return;
        }
      } else if !g.oldExisted {
        UntouchedHome(g, c, disk, lib, extra);
      }
      if g.oldExisted {
        r := RestoreRollbackComponent(c, g);
        ThenDid(from, undo, Backs(Files(c)), Nows(disk), r.Ok?);
        if r == Ok(true) { SettledHome(g, c, disk, lib, extra); }
      }
    }

    /** Puts the previous library back. The answer says whether a crash could still
        lose one of the renames that did it. */
    method RollbackFromJournal(components: map<Component, Flags>) returns (r: Attempt<bool>)
      requires Tame() && Undecided(disk, lib, extra) && FlagsSafe(components) && ReturnConfirmed(disk, lib)
      modifies this`disk, world
      ensures Paid(r == Ok(true))
      ensures Undecided(disk, lib, extra) && disk.journal == old(disk).journal && memory == old(memory)
      ensures !r.Stopped? ==> ReturnConfirmed(disk, lib)
      ensures r == Ok(true) ==> AllHome(disk, lib)
      ensures DidAll(components, lib.components, Nows(old(disk)), Nows(disk), r.Ok?)
    {
      var durable := true;
      ghost var from := Nows(disk);
      for i := 0 to |lib.components|
        invariant Undecided(disk, lib, extra) && disk.journal == old(disk).journal && memory == old(memory)
        invariant Nows(disk) == PassAll(components, lib.components[..i], from) && Paid(durable)
        invariant ReturnConfirmed(disk, lib)
        invariant durable ==> HomeUpTo(i, disk, lib)
        invariant SafeFrom(components, i, disk, lib)
      {
        var c := lib.components[i];
        ghost var before := disk;
        var one := RollbackComponent(c, ComponentFlags(components[c]));
        PassAllNext(components, lib.components, from, i, before, disk, one.Ok?);
        if !one.Ok? { return one; }
        if !one.value { durable := false; }
        NextReturned(components, i, before, disk, lib);
      }
      assert lib.components[..|lib.components|] == lib.components;
      return Ok(durable);
    }

    // ---- The journal -------------------------------------------------------

    /** What a rollback with the journal in memory may rely on. */
    ghost predicate Ready()
      reads this
    {
      && Tame() && Undecided(disk, lib, extra) && ReturnConfirmed(disk, lib)
      && FlagsSafe(memory.components)
    }

    /** `Ready`, and a crash finds the journal that is in memory. */
    ghost predicate Recorded()
      reads this
    {
      Ready() && Sole(disk, memory)
    }

    /** Writes the journal; the answer is whether the replace is durable. */
    method JournalWrittenDurably() returns (r: Attempt<bool>)
      requires Undecided(disk, lib, extra) && VersionSafe(Some(memory), disk, lib)
      modifies this`disk, world
      ensures Paid(r == Ok(true))
      ensures Open(disk, lib, extra) && (memory.phase != Committed ==> Undecided(disk, lib, extra))
      ensures disk == old(disk).(journal := disk.journal)
      ensures forall v :: disk.journal.Has(v) ==> old(disk).journal.Has(v) || v == Some(memory)
      ensures r == Ok(true) ==> Sole(disk, memory)
      ensures r == Ok(false) ==> disk.journal == old(disk).journal.Then(Some(memory), {MaintenancePlace})
      ensures r.Raised? ==> disk == old(disk)
    {
      JournalKeepsOpen(disk, memory, lib, extra);
      ThenHas(disk.journal, Some(memory), {MaintenancePlace});
      var stop := world.Fault();
      if stop { return Stopped; }
      var fails := world.Fault();
      if fails { return Raised; }
      disk := disk.(journal := disk.journal.Then(Some(memory), {MaintenancePlace}));
      stop := world.Fault();
      if stop { return Stopped; }
      var refused := world.Fault();
      if refused { return Ok(false); }
      disk := disk.(journal := Log(Some(memory), []));
      return Ok(true);
    }

    /** `_mark`: records a phase, or raises. */
    method Mark(phase: Phase) returns (r: Attempt<()>)
      requires Ready() && phase != Committed
      modifies this, world
      ensures Paid(r.Ok?)
      ensures memory == old(memory).(phase := phase)
      ensures disk == old(disk).(journal := disk.journal) && Undecided(disk, lib, extra)
      ensures forall v :: disk.journal.Has(v) ==> old(disk).journal.Has(v) || v == Some(memory)
      ensures !r.Stopped? ==> Ready()
      ensures r.Ok? ==> Recorded()
    {
      memory := memory.(phase := phase);
      assert VersionSafe(Some(memory), disk, lib);
      JournalOnly(disk, disk, lib, extra);
      var written := JournalWrittenDurably();
      assert forall g, c :: ComponentSafe(g, c, disk, lib) <==> ComponentSafe(g, c, old(disk), lib);
      if !written.Ok? { return written.PropagateFailure(); }
      return if written.value then Ok(()) else Raised;
    }

    /** Changes the flags of one component in memory, then records them. */
    method Persist(phase: Phase, c: Component, g: Flags) returns (r: Attempt<()>)
      requires Ready() && phase != Committed && c in lib.components
      requires ComponentSafe(ComponentFlags(g), c, disk, lib)
      modifies this, world
      ensures Paid(r.Ok?)
      ensures memory == Journal(phase, old(memory).components[c := g])
      ensures disk == old(disk).(journal := disk.journal) && Undecided(disk, lib, extra)
      ensures forall v :: disk.journal.Has(v) ==> old(disk).journal.Has(v) || v == Some(memory)
      ensures !r.Stopped? ==> Ready()
      ensures r.Ok? ==> Recorded()
    {
      memory := memory.(components := memory.components[c := g]);
      r := Mark(phase);
    }

    // ---- Moving the previous library out -----------------------------------

    method MkdirRollback(database: bool) returns (r: Attempt<bool>)
      requires Undecided(disk, lib, extra)
      modifies this`disk, world
      ensures Paid(r == Ok(true))
      ensures disk == old(disk).(rootDir := disk.rootDir, databaseDir := disk.databaseDir)
      ensures Undecided(disk, lib, extra)
      ensures old(disk).rootDir ==> disk.rootDir
      ensures forall c :: ComponentHome(c, old(disk), lib) ==> ComponentHome(c, disk, lib)
      ensures forall g, c :: ComponentSafe(g, c, old(disk), lib) ==> ComponentSafe(g, c, disk, lib)
      ensures r == Ok(true) ==> if database then disk.databaseDir else disk.rootDir
      ensures r != Ok(true) ==> disk == old(disk)
    {
      ghost var before := disk;
      var stop := world.Fault();
      if stop { return Stopped; }
      var fails := world.Fault();
      if fails { return Raised; }
      var refused := world.Fault();
      if refused { return Ok(false); }
      disk := if database then disk.(databaseDir := true) else disk.(rootDir := true);
      MkdirKeepsUndecided(before, disk, lib, extra);
      return Ok(true);
    }

    /** The component and, for the database, the sidecars that exist. */
    method OldMoves(c: Component) returns (moves: seq<Move>)
      requires disk.Total() && ComponentHome(c, disk, lib) && Main(c) in lib.had
      ensures forall m :: m in moves ==> m.Out? && Owner(m.f) == c && m.f in lib.had
      ensures forall i, j :: 0 <= i < j < |moves| ==> moves[i].f != moves[j].f
      ensures forall f :: Owner(f) == c && f in lib.had ==> Out(f) in moves
      ensures moves != [] && moves[0] == Out(Main(c))
    {
      moves := [Out(Main(c))];
      if c == Database {
        for i := 0 to |SIDECARS|
          invariant |moves| > 0 && moves[0] == Out(Main(c))
          invariant forall m :: m in moves ==> m.Out? && Owner(m.f) == c && m.f in lib.had && (m.f.Main? || m.f in SIDECARS[..i])
          invariant forall a, b :: 0 <= a < b < |moves| ==> moves[a].f != moves[b].f
          invariant forall k :: 0 <= k < i && SIDECARS[k] in lib.had ==> Out(SIDECARS[k]) in moves
        {
          NowHas(disk.files[SIDECARS[i]]);
          if disk.Now(SIDECARS[i]).live.Some? {
            moves := moves + [Out(SIDECARS[i])];
          }
        }
      }
      forall f | Owner(f) == c && f in lib.had ensures Out(f) in moves {
        match f {
          case Main(_) => assert moves[0] == Out(f);
          case Sidecar(k) => assert SIDECARS[match k case Wal => 0 case Shm => 1 case RollbackJournal => 2] == f;
        }
      }
    }

    /** The renames of one component into the rollback tree. */
    method MoveOut(c: Component) returns (r: Attempt<bool>)
      requires Recorded() && c in lib.components && ComponentHome(c, disk, lib)
      requires Main(c) in lib.had && disk.TreeDurable(c)
      requires var g := ComponentFlags(memory.components[c]); g.oldExisted && !g.newInstallStarted
      modifies this`disk, world
      ensures Paid(r == Ok(true))
      ensures OnlyFilesOf(c) && Undecided(disk, lib, extra)
      ensures !r.Stopped? ==> Recorded()
      ensures r == Ok(true) ==> ComponentAway(c, disk, lib)
    {
      SoundComponent(c, disk, lib, extra);
      var moves := OldMoves(c);
      ghost var start := disk;
      forall m | m in moves ensures m.Source(disk).Some? { NowHas(disk.files[m.f]); }
      var made;
      r, made := ReplaceDurably(c, moves, false);
      MovedOutOutcome(start, moves, made, disk, memory, c, lib, extra);
      MovedOutConfirms(start, moves, made, disk, c, lib);
      assert VersionSafe(Some(memory), disk, lib);
      if r == Ok(true) {
        assert moves[..made] == moves;
        AllMovedOut(start, moves, disk, c, lib);
      }
    }

    /** The journal never outruns the disk: if a crash can leave a journal that says
        the component was moved, every crash leaves it moved. */
    ghost predicate MovedMeansMoved(c: Component)
      reads this
      requires disk.Total()
    {
      forall v :: disk.journal.Has(v) && v.Some? && c in v.value.components && v.value.components[c].oldMoved ==>
        ComponentAway(c, disk, lib)
    }

    method MoveOldComponent(c: Component) returns (r: Attempt<()>)
      requires Recorded() && c in lib.components && memory.components[c] == NO_FLAGS
      requires ComponentHome(c, disk, lib) && disk.rootDir
      modifies this, world
      ensures Undecided(disk, lib, extra) && disk.rootDir
      ensures forall f :: Owner(f) != c ==> disk.files[f] == old(disk).files[f]
      ensures forall x :: x in lib.components && x != c ==> x in memory.components && memory.components[x] == old(memory).components[x]
      ensures memory.phase in {old(memory).phase, MovingOld}
      ensures MovedMeansMoved(c)
      ensures !r.Stopped? ==> Ready()
      ensures r.Ok? ==> Recorded() && SetAside(c) && !ComponentFlags(memory.components[c]).newInstallStarted
      ensures Paid(r.Ok?)
    {
      NowHas(disk.files[Main(c)]);
      if c == Database {
        var made :- MkdirRollback(true);
        if !made { return Raised; }
      }
      NowHas(disk.files[Main(c)]);
      var existed := disk.Now(Main(c)).live.Some?;
      var g := NO_FLAGS.(oldExisted := existed);
      HomeSafe(ComponentFlags(g), c, disk, lib);
      var _ :- Persist(MovingOld, c, g);
      HomeUnchanged(old(disk), disk, c, lib);
      if !existed {
        assert lib.NoOrphans();
        return Ok(());
      }
      r := MoveExisting(c);
    }

    /** The component is there: its move is journalled, made, and journalled again. */
    method MoveExisting(c: Component) returns (r: Attempt<()>)
      requires Recorded() && c in lib.components && memory.components[c] == NO_FLAGS.(oldExisted := true)
      requires ComponentHome(c, disk, lib) && disk.rootDir && disk.TreeDurable(c) && Main(c) in lib.had
      modifies this, world
      ensures Undecided(disk, lib, extra) && disk.rootDir
      ensures forall f :: Owner(f) != c ==> disk.files[f] == old(disk).files[f]
      ensures forall x :: x in lib.components && x != c ==> x in memory.components && memory.components[x] == old(memory).components[x]
      ensures memory.phase in {old(memory).phase, MovingOld}
      ensures MovedMeansMoved(c)
      ensures !r.Stopped? ==> Ready()
      ensures r.Ok? ==> Recorded() && SetAside(c) && !ComponentFlags(memory.components[c]).newInstallStarted
      ensures Paid(r.Ok?)
    {
      var g := NO_FLAGS.(oldExisted := true, oldMoveStarted := true);
      HomeSafe(ComponentFlags(g), c, disk, lib);
      var _ :- Persist(MovingOld, c, g);
      HomeUnchanged(old(disk), disk, c, lib);
      var durable :- MoveOut(c);
      if !durable { return Raised; }
      g := g.(oldMoved := true);
      AwaySafe(ComponentFlags(g), c, disk, lib);
      ghost var moved := disk;
      var _ :- Persist(MovingOld, c, g);
      SafeFrame(g, c, moved, disk, lib);
      assert ComponentAway(c, disk, lib);
      return Ok(());
    }

    // ---- Installing the restored library -----------------------------------

    /** The journal says component `c` is being installed over a saved one. */
    ghost predicate Installing(c: Component)
      reads this
    {
      && c in memory.components
      && var g := ComponentFlags(memory.components[c]);
         g.newInstallStarted && (g.oldExisted <==> Main(c) in lib.had)
    }

    /** One change to a live name of a component that is being installed. */
    method PutLive(f: File, live: Option<Content>) returns (r: Attempt<()>)
      requires Recorded() && lib.Covers(f) && Installing(Owner(f)) && ComponentMoved(Owner(f), disk, lib)
      requires live == Some(Restored) || live == None
      requires f.Sidecar? && live.Some? ==> f in lib.had + extra
      modifies this`disk, world
      ensures Paid(r.Ok?)
      ensures OnlyFilesOf(Owner(f)) && Undecided(disk, lib, extra) && ComponentMoved(Owner(f), disk, lib)
      ensures !r.Stopped? ==> Recorded()
      ensures r.Ok? ==> disk == old(disk).Put(f, Cell(live, old(disk).Now(f).saved), {LivePlace})
      ensures !r.Ok? ==> disk == old(disk)
    {
      var stop := world.Fault();
      if stop { return Stopped; }
      var fails := world.Fault();
      if fails { return Raised; }
      InstallKeepsSole(disk, memory, f, live, lib, extra);
      MovedConfirms(disk, f, live, lib, extra);
      disk := disk.Put(f, Cell(live, disk.Now(f).saved), {LivePlace});
      assert VersionSafe(Some(memory), disk, lib);
      return Ok(());
    }

    /** The rename of the staged component, or the creation of an empty directory,
        and the sync behind it. */
    method InstallEntry(c: Component) returns (r: Attempt<bool>)
      requires Recorded() && c in lib.components && Installing(c) && ComponentAway(c, disk, lib)
      requires ComponentMoved(c, disk, lib)
      modifies this`disk, world
      ensures Paid(r == Ok(true))
      ensures OnlyFilesOf(c) && Undecided(disk, lib, extra)
      ensures !r.Stopped? ==> Recorded()
      ensures r == Ok(true) ==> ComponentMoved(c, disk, lib) && ComponentInstalled(c, disk)
    {
      ghost var before := disk;
      var _ :- PutLive(Main(c), Some(Restored));
      ghost var put := disk;
      SoundComponent(c, disk, lib, extra);
      ghost var answers;
      r, answers := FsyncDirectories(c, [LivePlace], false);
      NarrowsKeepsOpen(put, disk, lib, extra);
      assert VersionSafe(Some(memory), disk, lib);
      if r == Ok(true) {
        InstalledNow(before, put, disk, c, lib);
        if c in staged {
          var otherEnd := world.Fault();
          r := Ok(!otherEnd);
        }
      }
    }

    method InstallNewComponent(c: Component) returns (r: Attempt<()>)
      requires Recorded() && c in lib.components && SetAside(c)
      modifies this, world
      ensures Undecided(disk, lib, extra)
      ensures forall f :: Owner(f) != c ==> disk.files[f] == old(disk).files[f]
      ensures forall x :: x in lib.components && x != c ==> x in memory.components && memory.components[x] == old(memory).components[x]
      ensures memory.phase in {old(memory).phase, InstallingNew}
      ensures !r.Stopped? ==> Ready()
      ensures r.Ok? ==> Recorded() && InPlace(c) && (c == Database ==> c in staged)
      ensures Paid(r.Ok? || (r.Raised? && c == Database && c !in staged))
    {
      var g := memory.components[c].(newInstallStarted := true);
      AwaySafe(ComponentFlags(g), c, disk, lib);
      var _ :- Persist(InstallingNew, c, g);
      assert ComponentAway(c, disk, lib) && ComponentMoved(c, disk, lib);
      if c == Database && c !in staged { return Raised; }
      r := InstallAndRecord(c);
    }

    method InstallAndRecord(c: Component) returns (r: Attempt<()>)
      requires Recorded() && c in lib.components && Installing(c)
      requires ComponentAway(c, disk, lib) && ComponentMoved(c, disk, lib)
      modifies this, world
      ensures Undecided(disk, lib, extra)
      ensures forall f :: Owner(f) != c ==> disk.files[f] == old(disk).files[f]
      ensures forall x :: x in lib.components && x != c ==> x in memory.components && memory.components[x] == old(memory).components[x]
      ensures memory.phase in {old(memory).phase, InstallingNew}
      ensures !r.Stopped? ==> Ready()
      ensures r.Ok? ==> Recorded() && InPlace(c)
      ensures Paid(r.Ok?)
    {
      var durable :- InstallEntry(c);
      if !durable { return Raised; }
      var g := memory.components[c].(newInstalled := true);
      MovedSafe(ComponentFlags(g), c, disk, lib);
      ghost var installed := disk;
      var _ :- Persist(InstallingNew, c, g);
      SafeFrame(g, c, installed, disk, lib);
      return Ok(());
    }

    /** The transaction is over: no journal, and no rollback copy. */
    ghost predicate NothingLeft()
      reads this
    {
      disk.journal.Now() == None && NothingSaved(disk, lib)
    }

    /** Everything is installed, and the journal says so. */
    ghost predicate Replaced()
      reads this
    {
      && Recorded()
      && (forall c :: c in lib.components ==> InPlace(c))
    }

    /** What SQLite does to the sidecars of the restored database while it is
        checked and bound: creates some, removes some, syncs none of their names. */
    method UseRestoredDatabase(writes: seq<SidecarWrite>) returns (r: Attempt<()>)
      requires Replaced() && forall w :: w in writes && w.created ==> Sidecar(w.kind) in lib.had + extra
      modifies this`disk, world
      ensures Paid(r.Ok?)
      ensures Undecided(disk, lib, extra)
      ensures !r.Stopped? ==> Replaced()
    {
      for i := 0 to |writes|
        invariant Replaced() && Paid(true)
      {
        assert writes[i] in writes;
        r := WriteSidecar(writes[i]);
        if !r.Ok? { return; }
      }
      return Ok(());
    }

    method WriteSidecar(w: SidecarWrite) returns (r: Attempt<()>)
      requires Replaced() && (w.created ==> Sidecar(w.kind) in lib.had + extra)
      modifies this`disk, world
      ensures Paid(r.Ok?)
      ensures Undecided(disk, lib, extra)
      ensures !r.Stopped? ==> Replaced()
    {
      var f, live := Sidecar(w.kind), if w.created then Some(Restored) else None;
      ghost var before := disk;
      r := PutLive(f, live);
      if r.Ok? { PutHas(before, f, Cell(live, before.Now(f).saved), {LivePlace}); }
      OthersFrame(Database, before, disk, lib);
    }

    // ---- Cleanup -----------------------------------------------------------

    /** The unlink of the journal. No directory sync follows it. */
    method RemoveJournal() returns (r: Attempt<()>)
      requires (Undecided(disk, lib, extra) && AllHome(disk, lib)) || Closed(disk, lib)
      modifies this`disk, world
      ensures Paid(r.Ok?)
      ensures disk == old(disk).(journal := disk.journal)
      ensures old(Undecided(disk, lib, extra) && AllHome(disk, lib)) ==> Undecided(disk, lib, extra) && AllHome(disk, lib)
      ensures old(Closed(disk, lib)) ==> Closed(disk, lib)
      ensures r.Ok? ==> disk.journal.Now() == None
      ensures !r.Ok? ==> disk == old(disk)
    {
      var stop := world.Fault();
      if stop { return Stopped; }
      var fails := world.Fault();
      if fails { return Raised; }
      if Closed(disk, lib) { JournalGoneClosed(disk, lib); }
      if Undecided(disk, lib, extra) && AllHome(disk, lib) { JournalGoneHome(disk, lib, extra); }
      disk := disk.(journal := disk.journal.Then(None, {MaintenancePlace}));
      return Ok(());
    }

    /** The removal of one file of the rollback tree, best-effort. */
    method DiscardFile(f: File) returns (r: Attempt<()>)
      requires (Undecided(disk, lib, extra) && AllHome(disk, lib)) || Closed(disk, lib)
      modifies this`disk, world
      ensures disk.Total() && disk.journal == old(disk).journal
      ensures old(AllHome(disk, lib)) ==> disk == old(disk)
      ensures old(Closed(disk, lib)) ==> Closed(disk, lib)
      ensures Discarded(f, old(disk), disk)
      ensures !r.Raised? && Paid(r.Ok? && (lib.Covers(f) ==> disk.Now(f).saved.None?))
    {
      var stop := world.Fault();
      if stop { return Stopped; }
      var kept := world.Fault();
      if kept || !lib.Covers(f) || disk.Now(f).saved.None? { return Ok(()); }
      var s := Cell(disk.Now(f).live, None);
      PutHas(disk, f, s, {RollbackPlace});
      NowHas(disk.files[f]);
      NotAllHome(Owner(f), f, disk, lib);
      ghost var before := disk;
      disk := disk.Put(f, s, {RollbackPlace});
      if Closed(before, lib) {
        forall c | c in lib.components ensures ComponentInstalled(c, disk) {
          assert ComponentInstalled(c, before);
        }
      }
      return Ok(());
    }

    /** The removal of the rollback tree: all of its files, fewer at each fault. */
    method DiscardRollbackTree() returns (r: Attempt<()>)
      requires (Undecided(disk, lib, extra) && AllHome(disk, lib)) || Closed(disk, lib)
      modifies this`disk, world
      ensures disk.Total() && disk.journal == old(disk).journal
      ensures old(AllHome(disk, lib)) ==> disk == old(disk)
      ensures old(Closed(disk, lib)) ==> Closed(disk, lib)
      ensures old(NothingSaved(disk, lib)) ==> NothingSaved(disk, lib)
      ensures !r.Raised? && Paid(r.Ok? && NothingSaved(disk, lib))
    {
      for i := 0 to |ALL_FILES|
        invariant disk.Total() && disk.journal == old(disk).journal
        invariant old(AllHome(disk, lib)) ==> disk == old(disk)
        invariant old(Closed(disk, lib)) ==> Closed(disk, lib)
        invariant old(NothingSaved(disk, lib)) ==> NothingSaved(disk, lib)
        invariant Paid(GoneUpTo(i, disk, lib))
      {
        ghost var before := disk;
        r := DiscardFile(ALL_FILES[i]);
        OneMoreGone(i, before, disk, lib);
        if !r.Ok? { return; }
      }
      AllGone(disk, lib);
      return Ok(());
    }

    // ---- apply_restore -----------------------------------------------------

    /** The rebind of the previous library, durable or not: it may raise, which is
        logged, or be the last step, and writes none of the files in question. */
    method RebindPrevious() returns (r: Attempt<()>)
      modifies world
      ensures !r.Raised? && Paid(r.Ok?)
    {
      var stop := world.Fault();
      return if stop then Stopped else Ok(());
    }

    /** The in-process rollback. An exception in it is logged and swallowed; the
        journal then stays for the next start. */
    method RollbackOnce() returns (r: Attempt<()>)
      requires Ready()
      modifies this`disk, world
      ensures Undecided(disk, lib, extra)
      ensures !r.Stopped? ==> Confirmed(disk, lib)
      ensures !r.Raised?
      ensures Paid(r.Ok? && AllHome(disk, lib) && NothingLeft())
    {
      var durable := RollbackFromJournal(memory.components);
      if durable.Stopped? { return Stopped; }
      if durable.Raised? { return Ok(()); }
      var rebound := RebindPrevious();
      if rebound.Stopped? { return Stopped; }
      if !durable.value { return Ok(()); }
      var gone := RemoveJournal();
      if gone.Stopped? { return Stopped; }
      r := DiscardRollbackTree();
    }

    /** Component `c` is in the rollback tree, and the journal knows. */
    ghost predicate SetAside(c: Component)
      reads this
      requires disk.Total()
    {
      && c in memory.components && ComponentAway(c, disk, lib)
      && (ComponentFlags(memory.components[c]).oldExisted <==> Main(c) in lib.had)
    }

    ghost predicate Untouched(c: Component)
      reads this
      requires disk.Total()
    {
      c in memory.components && ComponentHome(c, disk, lib) && memory.components[c] == NO_FLAGS
    }

    ghost predicate InPlace(c: Component)
      reads this
      requires disk.Total()
    {
      Installing(c) && ComponentMoved(c, disk, lib) && ComponentInstalled(c, disk)
    }

    /** Every component, in the journal's order, into the rollback tree. */
    method MoveOldComponents() returns (r: Attempt<()>)
      requires Recorded() && disk.rootDir
      requires forall c :: c in lib.components ==> Untouched(c)
      modifies this, world
      ensures Paid(r.Ok?)
      ensures Undecided(disk, lib, extra) && memory.phase == MovingOld
      ensures !r.Stopped? ==> Ready()
      ensures r.Ok? ==> Recorded() && forall c :: c in lib.components ==> SetAside(c)
    {
      ghost var start := disk;
      r := Mark(MovingOld);
      if !r.Ok? { return; }
      FilesFrame(start, disk, lib);
      for i := 0 to |lib.components|
        invariant Recorded() && disk.rootDir && memory.phase == MovingOld && Paid(true)
        invariant forall k :: 0 <= k < i ==> SetAside(lib.components[k])
        invariant forall k :: i <= k < |lib.components| ==> Untouched(lib.components[k])
      {
        ghost var before := disk;
        r := MoveOldComponent(lib.components[i]);
        if !r.Ok? { return; }
        OthersFrame(lib.components[i], before, disk, lib);
      }
      return Ok(());
    }

    /** Every component of the staged tree, in the same order, into live storage. */
    method InstallNewComponents() returns (r: Attempt<()>)
      requires Recorded() && memory.phase != Committed
      requires forall c :: c in lib.components ==> SetAside(c)
      modifies this, world
      ensures Paid(r.Ok? || (r.Raised? && Database !in staged))
      ensures Undecided(disk, lib, extra) && memory.phase == InstallingNew
      ensures !r.Stopped? ==> Ready()
      ensures r.Ok? ==> Replaced() && Database in staged
    {
      ghost var start, was := disk, memory;
      forall k | 0 <= k < |lib.components|
        ensures lib.components[k] in was.components && ComponentAway(lib.components[k], start, lib)
        ensures ComponentFlags(was.components[lib.components[k]]).oldExisted <==> Main(lib.components[k]) in lib.had
      {
        assert SetAside(lib.components[k]);
      }
      r := Mark(InstallingNew);
      if !r.Ok? { return; }
      FilesFrame(start, disk, lib);
      forall k | 0 <= k < |lib.components| ensures SetAside(lib.components[k]) {
        assert ComponentAway(lib.components[k], start, lib) && ComponentAway(lib.components[k], disk, lib);
        assert memory.components == was.components && lib.components[k] in was.components;
      }
      for i := 0 to |lib.components|
        invariant Recorded() && memory.phase == InstallingNew && Paid(true)
        invariant forall k :: 0 <= k < i ==> InPlace(lib.components[k])
        invariant Database in lib.components[..i] ==> Database in staged
        invariant forall k :: i <= k < |lib.components| ==> SetAside(lib.components[k])
      {
        ghost var before := disk;
        r := InstallNewComponent(lib.components[i]);
        if !r.Ok? { return; }
        OthersFrame(lib.components[i], before, disk, lib);
      }
      return Ok(());
    }

    /** Whether the staged tree holds a database, which passes the integrity check, and
        which the server can bind. */
    predicate Installable(sound: bool, binds: bool) { Database in staged && sound && binds }

    /** The `try` block up to the commit: the integrity check and the rebind use the
        restored database and may fail; `sound` and `binds` are their verdicts. */
    method ReplaceLibrary(checkWrites: seq<SidecarWrite>, rebindWrites: seq<SidecarWrite>, sound: bool, binds: bool)
        returns (r: Attempt<()>)
      requires Recorded() && disk.rootDir
      requires forall c :: c in lib.components ==> Untouched(c)
      requires forall w :: w in checkWrites + rebindWrites && w.created ==> Sidecar(w.kind) in lib.had + extra
      modifies this, world
      ensures Undecided(disk, lib, extra) && memory.phase != Committed
      ensures !r.Stopped? ==> Ready()
      ensures r.Ok? ==> Replaced() && memory.phase == CanonicalInstalled && Installable(sound, binds)
      ensures Paid(r.Ok? || (r.Raised? && !Installable(sound, binds)))
    {
      r := MoveOldComponents();
      if !r.Ok? { return; }
      r := InstallNewComponents();
      if !r.Ok? { return; }
      r := UseRestoredDatabase(checkWrites);
      if !r.Ok? { return; }
      if !sound { return Raised; }
      ghost var before := disk;
      r := Mark(CanonicalInstalled);
      if !r.Ok? { return; }
      FilesFrame(before, disk, lib);
      r := UseRestoredDatabase(rebindWrites);
      if !r.Ok? { return; }
      if !binds { return Raised; }
    }

    /** The rollback tree and the first journal, before anything is moved. */
    method Prepare() returns (r: Attempt<()>)
      requires Tame() && Undecided(disk, lib, extra) && AllHome(disk, lib) && ReturnConfirmed(disk, lib)
      modifies this, world
      ensures Paid(r.Ok?)
      ensures Undecided(disk, lib, extra)
      ensures !r.Stopped? ==> Confirmed(disk, lib)
      ensures AllHome(disk, lib)
      ensures r.Ok? ==> Recorded() && memory.phase == Prepared && disk.rootDir && forall c :: c in lib.components ==> Untouched(c)
    {
      ghost var start := disk;
      var made := MkdirRollback(false);
      if made.Stopped? { return Stopped; }
      if made != Ok(true) { return Raised; }
      memory := Journal(Prepared, map c | c in lib.components :: NO_FLAGS);
      forall c | c in lib.components ensures ComponentHome(c, disk, lib) {
        assert ComponentHome(c, start, lib);
      }
      forall c | c in lib.components ensures ComponentSafe(ComponentFlags(NO_FLAGS), c, disk, lib) {
        HomeSafe(ComponentFlags(NO_FLAGS), c, disk, lib);
      }
      ghost var before := disk;
      r := Mark(Prepared);
      FilesFrame(before, disk, lib);
    }

    /** The commit: the one journal write that does not raise when only its
        directory sync is refused. */
    method Commit() returns (r: Attempt<bool>)
      requires Replaced()
      modifies this, world
      ensures Paid(r == Ok(true))
      ensures memory == old(memory).(phase := Committed)
      ensures Open(disk, lib, extra) || Closed(disk, lib)
      ensures r.Ok? ==> AllInstalled(disk, lib)
      ensures r == Ok(true) ==> Closed(disk, lib)
      ensures r.Raised? ==> disk == old(disk)
      ensures Paid(r == Ok(true) && NothingLeft())
    {
      ghost var before := disk;
      memory := memory.(phase := Committed);
      r := JournalWrittenDurably();
      FilesFrame(before, disk, lib);
      if r == Ok(true) {
        var cleaned := CleanUpCommitted();
        if cleaned.Stopped? { return Stopped; }
      }
    }

    /** The answer is whether the commit record is durable. Without a fault the restore
        is decided by the staged database alone: it is installed, or the previous library
        is back, with nothing left of the transaction. One fault that makes a good
        restore raise leaves the previous library in place, too. */
    method ApplyRestore(checkWrites: seq<SidecarWrite>, rebindWrites: seq<SidecarWrite>, sound: bool, binds: bool)
        returns (r: Attempt<bool>)
      requires Tame() && Undecided(disk, lib, extra) && AllHome(disk, lib) && ReturnConfirmed(disk, lib)
      requires forall w :: w in checkWrites + rebindWrites && w.created ==> Sidecar(w.kind) in lib.had + extra
      modifies this, world
      ensures Open(disk, lib, extra) || Closed(disk, lib)
      ensures r.Ok? ==> AllInstalled(disk, lib) && Installable(sound, binds)
      ensures r == Ok(true) ==> Closed(disk, lib)
      ensures r.Raised? ==> Undecided(disk, lib, extra) && Confirmed(disk, lib)
      ensures Paid(if Installable(sound, binds) then r == Ok(true) && NothingLeft() else r.Raised? && AllHome(disk, lib) && NothingLeft())
      ensures r.Raised? && Installable(sound, binds) && world.faults == old(world.faults) + 1 ==> AllHome(disk, lib)
    {
      var prepared := Prepare();
      if !prepared.Ok? { return prepared.PropagateFailure(); }
      var replaced := ReplaceLibrary(checkWrites, rebindWrites, sound, binds);
      if replaced.Stopped? { return Stopped; }
      if replaced.Ok? {
        r := Commit();
        if !r.Raised? { return; }
      }
      var rolledBack := RollbackOnce();
      return if rolledBack.Stopped? then Stopped else Raised;
    }

    /** After a durable commit: the journal first, then the rollback tree, both
        best-effort. */
    method CleanUpCommitted() returns (r: Attempt<()>)
      requires Closed(disk, lib)
      modifies this`disk, world
      ensures Paid(r.Ok? && NothingLeft())
      ensures Closed(disk, lib) && !r.Raised?
    {
      var gone := RemoveJournal();
      if gone.Stopped? { return Stopped; }
      r := DiscardRollbackTree();
    }

    // ---- recover_incomplete_restore ----------------------------------------

    /** The sweep of rollback trees no journal can name; only trees old enough go. */
    method SweepMaintenanceGarbage() returns (r: Attempt<()>)
      requires (Undecided(disk, lib, extra) && AllHome(disk, lib)) || Closed(disk, lib)
      modifies this`disk, world
      ensures disk.Total() && disk.journal == old(disk).journal
      ensures old(AllHome(disk, lib)) ==> disk == old(disk)
      ensures old(Closed(disk, lib)) ==> Closed(disk, lib)
      ensures old(NothingSaved(disk, lib)) ==> NothingSaved(disk, lib)
      ensures !r.Raised? && Paid(r.Ok?)
    {
      var young := Coin();
      if young { return Ok(()); }
      r := DiscardRollbackTree();
    }

    /** The journal first, confirmed gone, then what only it could name. */
    method FinishRecovery(outcome: Recovery) returns (r: Attempt<Recovery>)
      requires (Undecided(disk, lib, extra) && AllHome(disk, lib)) || Closed(disk, lib)
      modifies this`disk, world
      ensures Paid(r.Ok? && NothingLeft())
      ensures old(Undecided(disk, lib, extra) && AllHome(disk, lib)) ==> Undecided(disk, lib, extra) && AllHome(disk, lib)
      ensures old(Closed(disk, lib)) ==> Closed(disk, lib)
      ensures disk.Total() && (r.Ok? ==> r.value == outcome && disk.journal.Now() == None)
      ensures r.Raised? ==> disk == old(disk)
    {
      var _ :- RemoveJournal();
      var tree := DiscardRollbackTree();
      if tree.Stopped? { return Stopped; }
      var swept := SweepMaintenanceGarbage();
      if swept.Stopped? { return Stopped; }
      return Ok(outcome);
    }

    method Recover() returns (r: Attempt<Recovery>)
      requires Tame() && (Open(disk, lib, extra) || Closed(disk, lib)) && Confirmed(disk, lib)
      modifies this`disk, world
      ensures Paid(r.Ok?)
      ensures Open(disk, lib, extra) || Closed(disk, lib)
      ensures !r.Stopped? ==> Confirmed(disk, lib)
      // A completed recovery leaves one whole library, and no crash changes which.
      ensures r.Ok? ==> disk.journal.Now() == None && (AllHome(disk, lib) || AllInstalled(disk, lib))
      ensures r == Ok(KeepRestored) ==>
                AllInstalled(disk, lib) && var j := old(disk).journal.Now(); j.Some? && j.value.phase == Committed
      ensures r == Ok(RestoredPrevious) ==>
                AllHome(disk, lib) && var j := old(disk).journal.Now(); j.Some? && j.value.phase != Committed
      ensures r == Ok(NotPerformed) ==> old(disk).journal.Now() == None
      ensures Paid(r.Ok? && (r.value != NotPerformed ==> NothingLeft()))
    {
      ghost var start := disk;
      NowHas(disk.journal);
      if disk.journal.Now().None? {
        assert Open(disk, lib, extra) ==> VersionSafe(None, disk, lib);
        var swept := SweepMaintenanceGarbage();
        if swept.Stopped? { return Stopped; }
        HomeConfirms(disk, lib);
        return Ok(NotPerformed);
      }
      var unreadable := world.Fault();
      if unreadable { return Raised; }
      var journal := disk.journal.Now().value;
      if journal.phase == Committed {
        assert Open(disk, lib, extra) ==> VersionSafe(Some(journal), disk, lib);
        r := FinishRecovery(KeepRestored);
        return;
      }
      assert VersionSafe(Some(journal), disk, lib);
      var durable :- RollbackFromJournal(journal.components);
      if !durable { return Raised; }
      r := FinishRecovery(RestoredPrevious);
      HomeConfirms(disk, lib);
    }

    // ---- Machine crashes and whole lives -----------------------------------

    /** A crash: one prefix of the unsynced changes for each file and the journal. */
    method MachineCrash()
      requires Open(disk, lib, extra) || Closed(disk, lib)
      requires Database in lib.components
      modifies this`disk
      ensures CrashOutcome(old(disk), disk)
      ensures old(Open(disk, lib, extra)) ==> Open(disk, lib, extra)
      ensures old(Closed(disk, lib)) ==> Closed(disk, lib)
      ensures Confirmed(disk, lib)
    {
      ghost var before := disk;
      var files := disk.files;
      for i := 0 to |ALL_FILES|
        invariant disk == before && files.Keys == disk.files.Keys
        invariant forall k :: 0 <= k < i ==>
                    files[ALL_FILES[k]].pending == [] && Survives(disk, ALL_FILES[k], files[ALL_FILES[k]].durable)
      {
        var f := ALL_FILES[i];
        var log := disk.files[f];
        var k :| 0 <= k <= |log.pending|;
        var s := if k == 0 then log.durable else log.pending[k - 1].state;
        assert log.Has(s);
        var lost := Coin();
        if lost && !disk.TreeDurable(Owner(f)) { s := Cell(s.live, None); }
        assert Survives(disk, f, s);
        files := files[f := Log(s, [])];
      }
      var k :| 0 <= k <= |disk.journal.pending|;
      var v := if k == 0 then disk.journal.durable else disk.journal.pending[k - 1].state;
      assert disk.journal.Has(v);
      disk := disk.(files := files, journal := Log(v, []));
      forall f: File ensures f in files && files[f].pending == [] && Survives(before, f, files[f].durable) {
        AllFilesComplete(f);
        var k :| 0 <= k < |ALL_FILES| && ALL_FILES[k] == f;
      }
      CrashKeepsOpen(before, disk, lib, extra);
    }

    /** Whether a recovery may start without a machine crash before it: no journal a
        crash could leave is other than "committed", or the journal is not committed and
        the return of the database file, if sidecars depend on it, is certain. */
    method MayRestart() returns (b: bool)
      requires Open(disk, lib, extra) || Closed(disk, lib)
      requires Database in lib.components
      ensures b <==> Confirmed(disk, lib)
    {
      var log := disk.journal;
      var main := disk.files[Main(Database)];
      var decided := Final(log.durable) && forall i :: 0 <= i < |log.pending| ==> Final(log.pending[i].state);
      var sidecars := Sidecar(Wal) in lib.had || Sidecar(Shm) in lib.had || Sidecar(RollbackJournal) in lib.had;
      var certain := main.durable.saved.None? && forall i :: 0 <= i < |main.pending| ==> main.pending[i].state.saved.None?;
      SidecarKinds(lib);
      ConfirmedIs(disk, lib, extra);
      assert decided <==> forall v :: log.Has(v) ==> Final(v);
      assert certain <==> forall m :: main.Has(m) ==> m.saved.None?;
      var committed := log.Now().Some? && log.Now().value.phase == Committed;
      return decided || (!committed && !(sidecars && main.Now().saved.None? && !certain));
    }

    /** One restore and any number of restarts after it. A machine crash may come before
        each; where it does not, the process ended anywhere with its changes unsynced,
        as long as what a recovery starts from is confirmed. Whenever a recovery
        completes, storage holds one whole library, and each that does not cost a fault. */
    method Life(checkWrites: seq<SidecarWrite>, rebindWrites: seq<SidecarWrite>, sound: bool, binds: bool, restarts: nat)
        returns (last: Attempt<Recovery>, completed: nat)
      requires Tame() && Undecided(disk, lib, extra) && AllHome(disk, lib) && ReturnConfirmed(disk, lib)
      requires forall w :: w in checkWrites + rebindWrites && w.created ==> Sidecar(w.kind) in lib.had + extra
      modifies this, world
      ensures Open(disk, lib, extra) || Closed(disk, lib)
      ensures last.Ok? ==> AllHome(disk, lib) || AllInstalled(disk, lib)
      ensures completed + world.faults >= restarts + old(world.faults)
    {
      var applied := ApplyRestore(checkWrites, rebindWrites, sound, binds);
      last, completed := Stopped, 0;
      for i := 0 to restarts
        invariant Open(disk, lib, extra) || Closed(disk, lib)
        invariant last.Ok? ==> AllHome(disk, lib) || AllInstalled(disk, lib)
        invariant completed + world.faults >= i + old(world.faults)
      {
        var crash := Coin();
        var confirmed := MayRestart();
        if crash || !confirmed { MachineCrash(); }
        last := Recover();
        if last.Ok? { completed := completed + 1; }
      }
    }
  }
}
