/** Batches of renames, and what a machine crash makes of a disk. */
module RestoreSteps {
  import opened Common
  import opened DirectoryLog
  import opened RestoreDisk

  const ALL_FILES: seq<File> := [Main(Database), Main(Pdfs), Main(People), Main(Processing)] + SIDECARS

  lemma AllFilesComplete(f: File)
    ensures f in ALL_FILES
  {
    match f {
      case Main(c) =>
        match c {
          case Database => assert ALL_FILES[0] == f;
          case Pdfs => assert ALL_FILES[1] == f;
          case People => assert ALL_FILES[2] == f;
          case Processing => assert ALL_FILES[3] == f;
        }
      case Sidecar(k) =>
        match k {
          case Wal => assert ALL_FILES[4] == f;
          case Shm => assert ALL_FILES[5] == f;
          case RollbackJournal => assert ALL_FILES[6] == f;
        }
    }
  }

  // ---- Batches of renames --------------------------------------------------

  /** A rename of one file between live storage and the rollback tree. */
  datatype Move = Out(f: File) | Back(f: File) {
    function Source(d: Disk): Option<Content>
      requires f in d.files
    {
      if Out? then d.Now(f).live else d.Now(f).saved
    }
  }

  function Renamed(d: Disk, m: Move): Disk
    requires m.f in d.files
  {
    var s := if m.Out? then Cell(None, d.Now(m.f).live) else Cell(d.Now(m.f).saved, None);
    d.Put(m.f, s, {LivePlace, RollbackPlace})
  }

  ghost function AfterMoves(d: Disk, moves: seq<Move>): (d': Disk)
    requires d.Total()
    ensures d'.Total()
  {
    if moves == [] then d
    else Renamed(AfterMoves(d, moves[..|moves| - 1]), moves[|moves| - 1])
  }

  /** What a batch of moves within one component leaves alone, and what it does
      to each file it names once. */
  lemma {:induction false} AfterMovesFrame(d: Disk, moves: seq<Move>, c: Component)
    requires d.Total() && forall m :: m in moves ==> Owner(m.f) == c
    requires forall i, j :: 0 <= i < j < |moves| ==> moves[i].f != moves[j].f
    ensures var d' := AfterMoves(d, moves);
            && d'.journal == d.journal && d'.rootDir == d.rootDir && d'.databaseDir == d.databaseDir
            && (forall f :: (forall m :: m in moves ==> m.f != f) ==> d'.files[f] == d.files[f])
            && (forall m :: m in moves ==>
                  d'.Now(m.f) == if m.Out? then Cell(None, d.Now(m.f).live) else Cell(d.Now(m.f).saved, None))
  {
    if moves != [] {
      var n := |moves| - 1;
      var before := AfterMoves(d, moves[..n]);
      AfterMovesFrame(d, moves[..n], c);
      var m := moves[n];
      assert forall x :: x in moves[..n] ==> x.f != m.f;
      assert forall x :: x in moves ==> x in moves[..n] || x == m;
      assert m in moves;
      PutHas(before, m.f, if m.Out? then Cell(None, before.Now(m.f).live) else Cell(before.Now(m.f).saved, None),
             {LivePlace, RollbackPlace});
      forall f | forall x :: x in moves ==> x.f != f ensures AfterMoves(d, moves).files[f] == d.files[f] {
        assert forall x :: x in moves[..n] ==> x in moves;
      }
      forall x | x in moves
        ensures AfterMoves(d, moves).Now(x.f) == if x.Out? then Cell(None, d.Now(x.f).live) else Cell(d.Now(x.f).saved, None)
      {
        if x != m { assert x in moves[..n]; }
      }
    }
  }

  lemma AfterMovesStep(d: Disk, moves: seq<Move>, k: nat, c: Component)
    requires d.Total() && forall m :: m in moves ==> Owner(m.f) == c
    requires forall i, j :: 0 <= i < j < |moves| ==> moves[i].f != moves[j].f
    requires k < |moves|
    ensures AfterMoves(d, moves[..k + 1]) == Renamed(AfterMoves(d, moves[..k]), moves[k])
    ensures moves[k].Source(AfterMoves(d, moves[..k])) == moves[k].Source(d)
  {
    AfterMovesFrame(d, moves[..k], c);
    assert moves[..k + 1][..k] == moves[..k];
    assert AfterMoves(d, moves[..k]).files[moves[k].f] == d.files[moves[k].f];
  }

  lemma {:induction false} MovesTouchLive(d: Disk, moves: seq<Move>, c: Component)
    requires d.Total() && forall m :: m in moves ==> Owner(m.f) == c
    requires forall f :: Owner(f) == c ==> d.files[f].AllTouch(LivePlace)
    ensures forall f :: Owner(f) == c ==> AfterMoves(d, moves).files[f].AllTouch(LivePlace)
  {
    if moves != [] {
      MovesTouchLive(d, moves[..|moves| - 1], c);
    }
  }

  /** Any number of moves out of live storage keeps the transaction recoverable. */
  lemma {:induction false} MovesOutKeepSole(d: Disk, moves: seq<Move>, j: Journal, c: Component, lib: Library, extra: set<File>)
    requires Undecided(d, lib, extra) && Sole(d, j) && c in lib.components && c in j.components
    requires var g := ComponentFlags(j.components[c]); g.oldExisted && !g.newInstallStarted
    requires d.TreeDurable(c) && ComponentHome(c, d, lib)
    requires forall m :: m in moves ==> m.Out? && Owner(m.f) == c && m.f in lib.had
    requires forall i, j :: 0 <= i < j < |moves| ==> moves[i].f != moves[j].f
    ensures var d' := AfterMoves(d, moves);
            && Undecided(d', lib, extra) && Sole(d', j)
            && (forall f, s :: Owner(f) == c && f !in lib.had && d'.files[f].Has(s) ==> s.live.None?)
  {
    if moves != [] {
      var n := |moves| - 1;
      var m := moves[n];
      var before := AfterMoves(d, moves[..n]);
      assert m in moves;
      MovesOutKeepSole(d, moves[..n], j, c, lib, extra);
      AfterMovesFrame(d, moves[..n], c);
      NowHas(d.files[m.f]);
      assert before.files[m.f] == d.files[m.f];
      MoveOutKeepsSole(before, j, m.f, lib, extra);
      PutHas(before, m.f, Cell(None, Some(Previous)), {LivePlace, RollbackPlace});
    }
  }

  /** Any number of sidecars moved back keeps the transaction recoverable, once the
      database file itself is certain to be back. */
  lemma {:induction false} SidecarsBackKeepGuard(d: Disk, moves: seq<Move>, g: Flags, lib: Library, extra: set<File>)
    requires Guarded(g, Database, d, lib, extra)
    requires forall m :: d.files[Main(Database)].Has(m) ==> m.saved.None?
    requires forall m :: m in moves ==> m.Back? && m.f.Sidecar? && d.Now(m.f).saved.Some?
    requires forall i, j :: 0 <= i < j < |moves| ==> moves[i].f != moves[j].f
    ensures Guarded(g, Database, AfterMoves(d, moves), lib, extra)
  {
    if moves != [] {
      var n := |moves| - 1;
      var m := moves[n];
      assert m in moves;
      SidecarsBackKeepGuard(d, moves[..n], g, lib, extra);
      AfterMovesFrame(d, moves[..n], Database);
      ReturnSidecarKeepsGuard(g, AfterMoves(d, moves[..n]), m.f.kind, lib, extra);
    }
  }

  lemma NarrowsKeepsGuarded(g: Flags, c: Component, d: Disk, d': Disk, lib: Library, extra: set<File>)
    requires Narrows(d, d') && Guarded(g, c, d, lib, extra)
    ensures Guarded(g, c, d', lib, extra)
  {
    NarrowsKeepsOpen(d, d', lib, extra);
    NarrowsKeepsSafe(g, c, d, d', lib);
  }

  /** In a sound component every unsynced change touched the live directory, and
      only a file that existed has a saved copy. */
  lemma SoundComponent(c: Component, d: Disk, lib: Library, extra: set<File>)
    requires Open(d, lib, extra) && c in lib.components
    ensures forall f :: Owner(f) == c ==> d.files[f].AllTouch(LivePlace)
    ensures forall f, s :: Owner(f) == c && d.files[f].Has(s) && s.saved.Some? ==> f in lib.had
    ensures forall f :: Owner(f) == c && d.Now(f).saved.Some? ==> f in lib.had
  {
    forall f | Owner(f) == c
      ensures d.files[f].AllTouch(LivePlace) && d.files[f].Has(d.Now(f))
      ensures forall s :: d.files[f].Has(s) && s.saved.Some? ==> f in lib.had
    {
      NowHas(d.files[f]);
      assert FileSound(f, d, lib, extra);
    }
  }

  lemma SidecarBackNow(d: Disk, moves: seq<Move>, k: SidecarKind)
    requires d.Total() && forall m :: m in moves ==> m.Back? && m.f.Sidecar?
    requires forall i, j :: 0 <= i < j < |moves| ==> moves[i].f != moves[j].f
    requires d.Now(Sidecar(k)).saved.Some? ==> Back(Sidecar(k)) in moves
    ensures AfterMoves(d, moves).Now(Sidecar(k)).saved.None?
  {
    AfterMovesFrame(d, moves, Database);
    var m := Back(Sidecar(k));
    if m in moves {
      assert AfterMoves(d, moves).Now(m.f).saved.None?;
    } else {
      assert forall x :: x in moves ==> x.f != Sidecar(k);
    }
  }

  /** A batch of sidecars, and the sync behind it, leave the database file alone. */
  lemma SidecarsLeaveMain(start: Disk, moves: seq<Move>, end: Disk)
    requires start.Total()
    requires forall m :: m in moves ==> m.f.Sidecar?
    requires forall i, j :: 0 <= i < j < |moves| ==> moves[i].f != moves[j].f
    requires Narrows(AfterMoves(start, moves), end)
    ensures end.Now(Main(Database)) == start.Now(Main(Database))
    ensures forall m :: end.files[Main(Database)].Has(m) ==> start.files[Main(Database)].Has(m)
  {
    AfterMovesFrame(start, moves, Database);
    assert forall m :: m in moves ==> m.f != Main(Database);
    assert AfterMoves(start, moves).files[Main(Database)] == start.files[Main(Database)];
  }

  lemma SidecarsAllBack(start: Disk, moves: seq<Move>, end: Disk)
    requires start.Total()
    requires forall m :: m in moves ==> m.Back? && m.f.Sidecar?
    requires forall i, j :: 0 <= i < j < |moves| ==> moves[i].f != moves[j].f
    requires forall k :: start.Now(Sidecar(k)).saved.Some? ==> Back(Sidecar(k)) in moves
    requires Narrows(AfterMoves(start, moves), end)
    ensures forall k :: end.Now(Sidecar(k)).saved.None?
  {
    forall k ensures end.Now(Sidecar(k)).saved.None? {
      SidecarBackNow(start, moves, k);
    }
  }

  /** Any number of the pending sidecars moved back, and whatever was synced since. */
  lemma SidecarsMoved(start: Disk, pending: seq<Move>, made: nat, end: Disk, g: Flags, lib: Library, extra: set<File>)
    requires Guarded(g, Database, start, lib, extra) && made <= |pending|
    requires forall m :: start.files[Main(Database)].Has(m) ==> m.saved.None?
    requires forall m :: m in pending ==> m.Back? && m.f.Sidecar? && start.Now(m.f).saved.Some?
    requires forall i, j :: 0 <= i < j < |pending| ==> pending[i].f != pending[j].f
    requires Narrows(AfterMoves(start, pending[..made]), end)
    ensures Guarded(g, Database, end, lib, extra)
    ensures end.Now(Main(Database)) == start.Now(Main(Database))
    ensures forall m :: end.files[Main(Database)].Has(m) ==> start.files[Main(Database)].Has(m)
  {
    SidecarsBackKeepGuard(start, pending[..made], g, lib, extra);
    NarrowsKeepsGuarded(g, Database, AfterMoves(start, pending[..made]), end, lib, extra);
    SidecarsLeaveMain(start, pending[..made], end);
  }

  /** What the return of a component and the sync behind it leave. */
  lemma MainBackOutcome(start: Disk, c: Component, made: nat, end: Disk, g: Flags, lib: Library, extra: set<File>)
    requires Guarded(g, c, start, lib, extra) && start.Now(Main(c)).saved.Some? && extra <= lib.had
    requires made <= 1 && Narrows(AfterMoves(start, [Back(Main(c))][..made]), end)
    ensures Guarded(g, c, end, lib, extra)
    ensures made == 1 ==> end.Now(Main(c)).saved.None?
    ensures forall f :: f != Main(c) ==> end.Now(f) == start.Now(f)
  {
    var moves := [Back(Main(c))];
    assert moves[..1] == moves && moves[..0] == [];
    var after := AfterMoves(start, moves[..made]);
    if made == 1 {
      assert after == Renamed(AfterMoves(start, moves[..0]), moves[0]);
      ReturnMainKeepsGuard(g, c, start, lib, extra);
      PutHas(start, Main(c), Cell(start.Now(Main(c)).saved, None), {LivePlace, RollbackPlace});
    }
    NarrowsKeepsGuarded(g, c, after, end, lib, extra);
  }

  // ---- Crashes -------------------------------------------------------------

  /** A crash may leave file `f` in state `s`. */
  ghost predicate Survives(d: Disk, f: File, s: Cell)
    requires d.Total()
  {
    d.files[f].Has(s) ||
    (!d.TreeDurable(Owner(f)) && s.saved.None? && exists t :: d.files[f].Has(t) && t.live == s.live)
  }

  /** What a machine crash may make of a disk: each file and the journal keep a
      prefix of their unsynced changes, and a rollback directory whose own entry
      was never synced may be gone with all it holds. */
  ghost predicate CrashOutcome(d: Disk, d': Disk) {
    && d.Total() && d'.Total()
    && d'.rootDir == d.rootDir && d'.databaseDir == d.databaseDir
    && d'.journal.pending == [] && d.journal.Has(d'.journal.durable)
    && (forall f :: d'.files[f].pending == [] && Survives(d, f, d'.files[f].durable))
  }

  /** A journal that reads "committed" is the only one a crash can leave. */
  ghost predicate CommitConfirmed(d: Disk) {
    d.journal.Now().Some? && d.journal.Now().value.phase == Committed ==>
      forall v :: d.journal.Has(v) ==> v.None? || v.value.phase == Committed
  }

  /** A database file that is back in live storage cannot be put back into the
      rollback tree by a crash, as long as a sidecar still depends on it. */
  ghost predicate ReturnConfirmed(d: Disk, lib: Library)
    requires d.Total()
  {
    lib.HasSidecars() && d.Now(Main(Database)).saved.None? ==>
      forall m :: d.files[Main(Database)].Has(m) ==> m.saved.None?
  }

  ghost predicate Confirmed(d: Disk, lib: Library)
    requires d.Total()
  {
    CommitConfirmed(d) && (Closed(d, lib) || ReturnConfirmed(d, lib))
  }

  /** A journal state after which nothing is rolled back any more. */
  predicate Final(v: Option<Journal>) { v.Some? ==> v.value.phase == Committed }

  /** No crash can leave a journal that would be rolled back: then the transaction is
      closed, or everything is home, and a recovery may start. */
  lemma DecidedConfirms(d: Disk, lib: Library, extra: set<File>)
    requires Open(d, lib, extra) || Closed(d, lib)
    requires (forall v :: d.journal.Has(v) ==> Final(v)) && Database in lib.components
    ensures Confirmed(d, lib)
  {
    NowHas(d.journal);
    if Open(d, lib, extra) {
      if v :| d.journal.Has(v) && v.Some? {
        assert VersionSafe(v, d, lib);
      } else {
        assert VersionSafe(None, d, lib);
        HomeConfirms(d, lib);
      }
    }
  }

  lemma SidecarKinds(lib: Library)
    ensures lib.HasSidecars() <==>
              Sidecar(Wal) in lib.had || Sidecar(Shm) in lib.had || Sidecar(RollbackJournal) in lib.had
  {
    if k :| Sidecar(k) in lib.had {
      match k case Wal => case Shm => case RollbackJournal =>
    }
  }

  /** What a recovery that starts without a crash relies on, in terms of what can be
      looked up. */
  lemma ConfirmedIs(d: Disk, lib: Library, extra: set<File>)
    requires Open(d, lib, extra) || Closed(d, lib)
    requires Database in lib.components
    ensures Confirmed(d, lib) <==>
              || (forall v :: d.journal.Has(v) ==> Final(v))
              || (!(d.journal.Now().Some? && d.journal.Now().value.phase == Committed) && ReturnConfirmed(d, lib))
  {
    NowHas(d.journal);
    if forall v :: d.journal.Has(v) ==> Final(v) { DecidedConfirms(d, lib, extra); }
  }

  /** A crash leaves an open transaction open, a closed one closed, and nothing
      unconfirmed. */
  lemma CrashKeepsOpen(d: Disk, d': Disk, lib: Library, extra: set<File>)
    requires CrashOutcome(d, d')
    requires Open(d, lib, extra) || Closed(d, lib)
    ensures Open(d, lib, extra) ==> Open(d', lib, extra)
    ensures Closed(d, lib) ==> Closed(d', lib)
    ensures Database in lib.components ==> Confirmed(d', lib)
  {
    forall c | c in lib.components && ComponentInstalled(c, d) ensures ComponentInstalled(c, d') {}
    if Open(d, lib, extra) {
      forall f, s | lib.Covers(f) && d'.files[f].Has(s) ensures d.files[f].Has(s) {
        assert FileSound(f, d, lib, extra);
      }
      forall f | lib.Covers(f) ensures FileSound(f, d', lib, extra) {
        assert FileSound(f, d, lib, extra);
      }
      forall v | d'.journal.Has(v) ensures VersionSafe(v, d', lib) {
        assert VersionSafe(v, d, lib);
        match v {
          case None =>
            forall c | c in lib.components ensures ComponentHome(c, d', lib) {
              assert ComponentHome(c, d, lib);
              assert forall f: File :: Owner(f) == c ==> lib.Covers(f);
            }
          case Some(j) =>
            if j.phase == Committed {
              forall c | c in lib.components ensures ComponentInstalled(c, d') {
                assert ComponentInstalled(c, d);
              }
            } else {
              forall c | c in lib.components
                ensures c in j.components && ComponentSafe(ComponentFlags(j.components[c]), c, d', lib)
              {
                assert ComponentSafe(ComponentFlags(j.components[c]), c, d, lib);
                assert forall f: File :: Owner(f) == c ==> lib.Covers(f);
                assert lib.Covers(Main(c));
              }
            }
        }
      }
    }
  }

  /** A component whose crash outcomes are all alike, with nothing left in the
      rollback tree and nothing left for its journal flags to undo, is home. */
  lemma SettledHome(g: Flags, c: Component, d: Disk, lib: Library, extra: set<File>)
    requires Guarded(g, c, d, lib, extra)
    requires forall f :: Owner(f) == c ==> d.Now(f).saved.None? && d.files[f] == Log(d.Now(f), [])
    requires g.newInstallStarted && !g.oldExisted ==> forall f :: Owner(f) == c ==> d.Now(f).live.None?
    ensures ComponentHome(c, d, lib)
  {
    forall f, s | Owner(f) == c && d.files[f].Has(s) ensures lib.Home(f, s) {
      NowHas(d.files[Main(c)]);
      assert Returned(g, d.Now(Main(c)).saved.Some?, s) == lib.Old(f);
    }
  }

  /** A component its journal says nothing about has not been touched. */
  lemma UntouchedHome(g: Flags, c: Component, d: Disk, lib: Library, extra: set<File>)
    requires Guarded(g, c, d, lib, extra)
    requires !g.oldExisted && !g.newInstallStarted
    ensures ComponentHome(c, d, lib)
  {
    forall f, s | Owner(f) == c && d.files[f].Has(s) ensures lib.Home(f, s) {
      NowHas(d.files[Main(c)]);
      assert exists m :: d.files[Main(c)].Has(m) && (f == Main(c) ==> s == m) by {
        var m := if f == Main(c) then s else d.Now(Main(c));
        assert d.files[Main(c)].Has(m);
      }
      assert FileSound(f, d, lib, extra);
    }
  }

  /** A batch of directory syncs, of which those answered true went through. */
  function AfterSyncs(d: Disk, c: Component, places: seq<Place>, answers: seq<bool>): Disk
    requires |answers| == |places|
  {
    if places == [] then d
    else
      var n := |places| - 1;
      var before := AfterSyncs(d, c, places[..n], answers[..n]);
      if answers[n] then before.Synced(c, places[n]) else before
  }

  lemma {:induction false} NextSync(start: Disk, d: Disk, c: Component, places: seq<Place>, answers: seq<bool>, synced: bool, d': Disk)
    requires |answers| < |places| && d == AfterSyncs(start, c, places[..|answers|], answers)
    requires d' == if synced then d.Synced(c, places[|answers|]) else d
    ensures d' == AfterSyncs(start, c, places[..|answers| + 1], answers + [synced])
    ensures false !in answers + [synced] <==> synced && false !in answers
  {
    var i := |answers|;
    assert places[..i + 1][..i] == places[..i] && (answers + [synced])[..i] == answers;
  }

  /** Syncs only rule crash outcomes out; all of them, the live directory first, leave
      the component as the process sees it. */
  lemma {:induction false} SyncsNarrow(start: Disk, c: Component, places: seq<Place>, answers: seq<bool>)
    requires |answers| == |places| && (places != [] ==> places[0] == LivePlace)
    requires start.Total() && forall f :: Owner(f) == c ==> start.files[f].AllTouch(LivePlace)
    ensures var d := AfterSyncs(start, c, places, answers);
      && Narrows(start, d)
      && (forall f :: Owner(f) != c ==> d.files[f] == start.files[f])
      && (places != [] && false !in answers ==> forall f :: Owner(f) == c ==> d.files[f] == Log(d.Now(f), []))
  {
    if places != [] {
      var n := |places| - 1;
      SyncsNarrow(start, c, places[..n], answers[..n]);
      assert forall i :: 0 <= i < n ==> answers[..n][i] == answers[i];
      SyncNarrows(AfterSyncs(start, c, places[..n], answers[..n]), c, places[n]);
    }
  }

  lemma SafeFrame(g: Flags, c: Component, d: Disk, d': Disk, lib: Library)
    requires d.Total() && d'.Total()
    requires forall f :: Owner(f) == c ==> d'.files[f] == d.files[f]
    ensures ComponentSafe(g, c, d, lib) <==> ComponentSafe(g, c, d', lib)
    ensures ComponentHome(c, d, lib) <==> ComponentHome(c, d', lib)
    ensures ComponentMoved(c, d, lib) <==> ComponentMoved(c, d', lib)
    ensures ComponentInstalled(c, d) <==> ComponentInstalled(c, d')
  {
  }

  /** The rollback tree holds nothing of the covered components. */
  ghost predicate NothingSaved(d: Disk, lib: Library) {
    d.Total() && forall f :: lib.Covers(f) ==> d.Now(f).saved.None?
  }

  ghost predicate GoneUpTo(i: nat, d: Disk, lib: Library) {
    && d.Total() && i <= |ALL_FILES|
    && forall k :: 0 <= k < i && lib.Covers(ALL_FILES[k]) ==> d.Now(ALL_FILES[k]).saved.None?
  }

  /** At most the saved copy of `f` is gone. */
  ghost predicate Discarded(f: File, d: Disk, d': Disk) {
    && d.Total() && d'.Total()
    && (forall h :: d'.Now(h).live == d.Now(h).live)
    && (forall h :: d'.Now(h).saved != d.Now(h).saved ==> h == f && d'.Now(h).saved.None?)
  }

  lemma {:induction false} OneMoreGone(i: nat, d: Disk, d': Disk, lib: Library)
    requires i < |ALL_FILES| && Discarded(ALL_FILES[i], d, d')
    ensures NothingSaved(d, lib) ==> NothingSaved(d', lib)
    ensures GoneUpTo(i, d, lib) && (lib.Covers(ALL_FILES[i]) ==> d'.Now(ALL_FILES[i]).saved.None?) ==> GoneUpTo(i + 1, d', lib)
  {
  }

  lemma {:induction false} AllGone(d: Disk, lib: Library)
    ensures GoneUpTo(|ALL_FILES|, d, lib) ==> NothingSaved(d, lib)
  {
    forall f | GoneUpTo(|ALL_FILES|, d, lib) && lib.Covers(f) ensures d.Now(f).saved.None? {
      AllFilesComplete(f);
      var k :| 0 <= k < |ALL_FILES| && ALL_FILES[k] == f;
    }
  }

  /** The components before `i` are home. */
  ghost predicate HomeUpTo(i: nat, d: Disk, lib: Library) {
    d.Total() && forall k :: 0 <= k < i <= |lib.components| ==> ComponentHome(lib.components[k], d, lib)
  }

  /** The components from `i` on are safe under the journal's flags. */
  ghost predicate SafeFrom(flags: map<Component, Flags>, i: nat, d: Disk, lib: Library) {
    && d.Total()
    && forall k :: i <= k < |lib.components| ==>
         lib.components[k] in flags && ComponentSafe(ComponentFlags(flags[lib.components[k]]), lib.components[k], d, lib)
  }

  /** A change to component `i` alone. */
  lemma {:induction false} NextReturned(flags: map<Component, Flags>, i: nat, d: Disk, d': Disk, lib: Library)
    requires i < |lib.components| && SafeFrom(flags, i, d, lib) && d'.Total()
    requires forall i, j :: 0 <= i < j < |lib.components| ==> lib.components[i] != lib.components[j]
    requires forall f :: Owner(f) != lib.components[i] ==> d'.files[f] == d.files[f]
    ensures SafeFrom(flags, i + 1, d', lib)
    ensures HomeUpTo(i, d, lib) && ComponentHome(lib.components[i], d', lib) ==> HomeUpTo(i + 1, d', lib)
  {
    forall k | 0 <= k < |lib.components| && k != i
      ensures k > i ==> ComponentSafe(ComponentFlags(flags[lib.components[k]]), lib.components[k], d', lib)
      ensures ComponentHome(lib.components[k], d, lib) ==> ComponentHome(lib.components[k], d', lib)
    {
      SafeFrame(if k > i then ComponentFlags(flags[lib.components[k]]) else NO_FLAGS, lib.components[k], d, d', lib);
    }
  }

  /** Nothing is saved for a component the journal says did not exist. */
  lemma NoneSaved(g: Flags, c: Component, d: Disk, lib: Library, extra: set<File>)
    requires Guarded(g, c, d, lib, extra) && g.newInstallStarted && !g.oldExisted
    ensures forall f :: Owner(f) == c ==> d.Now(f).saved.None?
    ensures Main(c) !in lib.had
  {
    forall f | Owner(f) == c ensures d.Now(f).saved.None? {
      assert FileSound(f, d, lib, extra);
      if d.Now(f).saved.Some? { SavedExisted(g, c, f, d, lib, extra); }
    }
    NowHas(d.files[Main(c)]);
    assert Returned(g, d.Now(Main(c)).saved.Some?, d.Now(Main(c))) == lib.Old(Main(c));
  }

  /** Removing live files does not unconfirm a returned database file. */
  lemma RemovalConfirms(start: Disk, end: Disk, g: Flags, c: Component, lib: Library)
    requires start.Total() && end.Total() && ReturnConfirmed(start, lib) && lib.NoOrphans()
    requires forall f :: Owner(f) != c ==> end.files[f] == start.files[f]
    requires forall f :: end.Now(f).saved == start.Now(f).saved
    requires start.Now(Main(c)).saved.Some? || Main(c) !in lib.had
    ensures ReturnConfirmed(end, lib)
  {
  }

  // ---- The restore: moving out and installing ------------------------------

  /** In every crash outcome the previous files of the component are in the
      rollback tree and nothing is live. */
  ghost predicate ComponentAway(c: Component, d: Disk, lib: Library)
    requires d.Total()
  {
    forall f, s :: Owner(f) == c && d.files[f].Has(s) ==> s == Cell(None, lib.Old(f))
  }

  /** What a batch of moves into the rollback tree and the sync behind it leave. */
  lemma MovedOutOutcome(start: Disk, moves: seq<Move>, made: nat, end: Disk, j: Journal, c: Component, lib: Library, extra: set<File>)
    requires Undecided(start, lib, extra) && Sole(start, j) && c in lib.components && c in j.components
    requires var g := ComponentFlags(j.components[c]); g.oldExisted && !g.newInstallStarted
    requires start.TreeDurable(c) && ComponentHome(c, start, lib)
    requires forall m :: m in moves ==> m.Out? && Owner(m.f) == c && m.f in lib.had
    requires forall i, j :: 0 <= i < j < |moves| ==> moves[i].f != moves[j].f
    requires made <= |moves| && Narrows(AfterMoves(start, moves[..made]), end)
    ensures Undecided(end, lib, extra) && Sole(end, j)
  {
    assert forall m :: m in moves[..made] ==> m in moves;
    MovesOutKeepSole(start, moves[..made], j, c, lib, extra);
    NarrowsKeepsOpen(AfterMoves(start, moves[..made]), end, lib, extra);
  }

  lemma {:induction false} MovedOutConfirms(start: Disk, moves: seq<Move>, made: nat, end: Disk, c: Component, lib: Library)
    requires start.Total() && ComponentHome(c, start, lib) && ReturnConfirmed(start, lib)
    requires forall m :: m in moves ==> m.Out? && Owner(m.f) == c && m.f in lib.had
    requires forall i, j :: 0 <= i < j < |moves| ==> moves[i].f != moves[j].f
    requires moves != [] && moves[0] == Out(Main(c))
    requires made <= |moves| && Narrows(AfterMoves(start, moves[..made]), end)
    requires forall f :: Owner(f) != c ==> end.files[f] == start.files[f]
    ensures ReturnConfirmed(end, lib)
  {
    if c == Database && made > 0 {
      FirstMovedOut(start, moves, made, c);
      NowHas(start.files[Main(c)]);
      assert moves[0] in moves && start.Now(Main(c)) == Cell(Some(Previous), None);
      assert end.Now(Main(Database)).saved.Some?;
    } else if c == Database {
      assert moves[..made] == [];
    }
  }

  lemma {:induction false} FirstMovedOut(start: Disk, moves: seq<Move>, made: nat, c: Component)
    requires start.Total() && 0 < made <= |moves| && moves[0] == Out(Main(c))
    requires forall m :: m in moves ==> Owner(m.f) == c
    requires forall i, j :: 0 <= i < j < |moves| ==> moves[i].f != moves[j].f
    ensures AfterMoves(start, moves[..made]).Total()
    ensures AfterMoves(start, moves[..made]).Now(Main(c)) == Cell(None, start.Now(Main(c)).live)
  {
    assert moves[..made][0] == Out(Main(c));
    AfterMovesFrame(start, moves[..made], c);
  }

  lemma AllMovedOut(start: Disk, moves: seq<Move>, end: Disk, c: Component, lib: Library)
    requires start.Total() && ComponentHome(c, start, lib)
    requires forall m :: m in moves ==> m.Out? && Owner(m.f) == c
    requires forall i, j :: 0 <= i < j < |moves| ==> moves[i].f != moves[j].f
    requires forall f :: Owner(f) == c && f in lib.had ==> Out(f) in moves
    requires Narrows(AfterMoves(start, moves), end)
    requires forall f :: Owner(f) == c ==> end.files[f] == Log(end.Now(f), [])
    ensures ComponentAway(c, end, lib)
  {
    forall f, s | Owner(f) == c && end.files[f].Has(s) ensures s == Cell(None, lib.Old(f)) {
      AfterMovesFrame(start, moves, c);
      NowHas(start.files[f]);
      if Out(f) in moves {
        assert AfterMoves(start, moves).Now(Out(f).f) == Cell(None, start.Now(f).live);
      } else {
        assert forall m :: m in moves ==> m.f != f;
      }
    }
  }

  lemma AwaySafe(g: Flags, c: Component, d: Disk, lib: Library)
    requires d.Total() && ComponentAway(c, d, lib) && lib.NoOrphans()
    requires g.oldExisted <==> Main(c) in lib.had
    ensures ComponentSafe(g, c, d, lib) && ComponentMoved(c, d, lib)
  {
  }

  /** A rollback directory that becomes durable only adds guarantees. */
  lemma MkdirKeepsUndecided(d: Disk, d': Disk, lib: Library, extra: set<File>)
    requires Undecided(d, lib, extra)
    requires d' == d.(rootDir := d'.rootDir, databaseDir := d'.databaseDir)
    requires (d.rootDir ==> d'.rootDir) && (d.databaseDir ==> d'.databaseDir)
    ensures Undecided(d', lib, extra)
    ensures forall c :: ComponentHome(c, d, lib) ==> ComponentHome(c, d', lib)
    ensures forall g, c :: ComponentSafe(g, c, d, lib) ==> ComponentSafe(g, c, d', lib)
  {
    forall f | lib.Covers(f) ensures FileSound(f, d', lib, extra) {
      assert FileSound(f, d, lib, extra);
    }
    forall v | d'.journal.Has(v) ensures VersionSafe(v, d', lib) {
      assert VersionSafe(v, d, lib);
      if v.None? {
        forall c | c in lib.components ensures ComponentHome(c, d', lib) {
          assert ComponentHome(c, d, lib);
        }
      }
    }
  }

  lemma HomeUnchanged(d: Disk, d': Disk, c: Component, lib: Library)
    requires d.Total() && d'.Total() && d'.files == d.files
    ensures ComponentHome(c, d, lib) <==> ComponentHome(c, d', lib)
  {
  }

  /** Installing over a saved component does not unconfirm a returned one. */
  lemma MovedConfirms(d: Disk, f: File, live: Option<Content>, lib: Library, extra: set<File>)
    requires d.Total() && ReturnConfirmed(d, lib)
    requires ComponentMoved(Owner(f), d, lib)
    ensures ReturnConfirmed(d.Put(f, Cell(live, d.Now(f).saved), {LivePlace}), lib)
  {
    PutHas(d, f, Cell(live, d.Now(f).saved), {LivePlace});
    NowHas(d.files[f]);
  }

  lemma InstalledNow(before: Disk, put: Disk, end: Disk, c: Component, lib: Library)
    requires before.Total() && ComponentAway(c, before, lib)
    requires put == before.Put(Main(c), Cell(Some(Restored), before.Now(Main(c)).saved), {LivePlace})
    requires Narrows(put, end)
    requires forall f :: Owner(f) == c ==> end.files[f] == Log(end.Now(f), [])
    ensures ComponentMoved(c, end, lib) && ComponentInstalled(c, end)
  {
    PutHas(before, Main(c), Cell(Some(Restored), before.Now(Main(c)).saved), {LivePlace});
    forall f | Owner(f) == c ensures before.files[f].Has(before.Now(f)) { NowHas(before.files[f]); }
  }

  function WithoutJournal(d: Disk): Disk {
    d.(journal := d.journal.Then(None, {MaintenancePlace}))
  }

  lemma JournalGoneClosed(d: Disk, lib: Library)
    requires Closed(d, lib)
    ensures Closed(WithoutJournal(d), lib)
  {
    ThenHas(d.journal, None, {MaintenancePlace});
    forall c | c in lib.components ensures ComponentInstalled(c, WithoutJournal(d)) {
      assert ComponentInstalled(c, d);
    }
  }

  lemma JournalGoneHome(d: Disk, lib: Library, extra: set<File>)
    requires Undecided(d, lib, extra) && AllHome(d, lib)
    ensures Undecided(WithoutJournal(d), lib, extra) && AllHome(WithoutJournal(d), lib)
  {
    ThenHas(d.journal, None, {MaintenancePlace});
    JournalOnly(d, WithoutJournal(d), lib, extra);
    assert VersionSafe(None, d, lib);
    assert VersionSafe(None, WithoutJournal(d), lib);
  }

  lemma AwayFrame(c: Component, d: Disk, d': Disk, lib: Library)
    requires d.Total() && d'.Total()
    requires forall f :: Owner(f) == c ==> d'.files[f] == d.files[f]
    ensures ComponentAway(c, d, lib) <==> ComponentAway(c, d', lib)
  {
  }

  /** A change to component `c` leaves what is known of the others. */
  lemma OthersFrame(c: Component, d: Disk, d': Disk, lib: Library)
    requires d.Total() && d'.Total()
    requires forall f :: Owner(f) != c ==> d'.files[f] == d.files[f]
    ensures forall x :: x != c && ComponentHome(x, d, lib) ==> ComponentHome(x, d', lib)
    ensures forall x :: x != c && ComponentAway(x, d, lib) ==> ComponentAway(x, d', lib)
    ensures forall x :: x != c && ComponentMoved(x, d, lib) ==> ComponentMoved(x, d', lib)
    ensures forall x :: x != c && ComponentInstalled(x, d) ==> ComponentInstalled(x, d')
    ensures forall g, x :: x != c && ComponentSafe(g, x, d, lib) ==> ComponentSafe(g, x, d', lib)
  {
    forall g, x | x != c && ComponentSafe(g, x, d, lib) ensures ComponentSafe(g, x, d', lib) {
      SafeFrame(g, x, d, d', lib);
    }
    forall x | x != c
      ensures ComponentHome(x, d, lib) ==> ComponentHome(x, d', lib)
      ensures ComponentMoved(x, d, lib) ==> ComponentMoved(x, d', lib)
      ensures ComponentInstalled(x, d) ==> ComponentInstalled(x, d')
    {
      SafeFrame(NO_FLAGS, x, d, d', lib);
    }
    forall x | x != c && ComponentAway(x, d, lib) ensures ComponentAway(x, d', lib) {
      AwayFrame(x, d, d', lib);
    }
  }

  /** What is known of the components does not depend on the journal. */
  lemma FilesFrame(d: Disk, d': Disk, lib: Library)
    requires d.Total() && d'.Total() && d'.files == d.files
    ensures forall x :: ComponentHome(x, d, lib) ==> ComponentHome(x, d', lib)
    ensures forall x :: ComponentAway(x, d, lib) ==> ComponentAway(x, d', lib)
    ensures forall x :: ComponentMoved(x, d, lib) ==> ComponentMoved(x, d', lib)
    ensures forall x :: ComponentInstalled(x, d) ==> ComponentInstalled(x, d')
  {
  }

  lemma HomeConfirms(d: Disk, lib: Library)
    requires d.Total()
    ensures AllHome(d, lib) && Database in lib.components ==> ReturnConfirmed(d, lib)
  {
    if AllHome(d, lib) && Database in lib.components {
      assert ComponentHome(Database, d, lib);
    }
  }
}
