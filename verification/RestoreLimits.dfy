/** What a recovery makes of a crash, how a stopped pass and the next one add up,
    and what goes wrong without each condition of the all-or-nothing result. */
module RestoreLimits {
  import opened Common
  import opened DirectoryLog
  import opened RestoreDisk
  import opened RestoreSteps

  // ---- Every crash outcome of an open transaction is one whole library ------

  /** The live library after a crash and one complete recovery. */
  function Recovered(d: Disk, f: File): Option<Content>
    requires f in d.files && Main(Owner(f)) in d.files
    requires d.journal.Now().Some? && d.journal.Now().value.phase != Committed ==>
               Owner(f) in d.journal.Now().value.components
  {
    match d.journal.Now()
    case None => d.Now(f).live
    case Some(j) =>
      if j.phase == Committed then d.Now(f).live
      else Returned(ComponentFlags(j.components[Owner(f)]), d.Now(Main(Owner(f))).saved.Some?, d.Now(f))
  }

  /** All-or-nothing: whatever a crash leaves of an open transaction, recovery ends
      with exactly the previous library, or -- only if the journal that survived
      says "committed" -- with the restored one. */
  lemma CrashIsAllOrNothing(d: Disk, d': Disk, lib: Library, extra: set<File>)
    requires Open(d, lib, extra) && CrashOutcome(d, d')
    ensures var v := d'.journal.Now();
      if v.Some? && v.value.phase == Committed then AllInstalled(d', lib)
      else
        && (v.Some? ==> forall c :: c in lib.components ==> c in v.value.components)
        && forall f :: lib.Covers(f) ==> Recovered(d', f) == lib.Old(f)
  {
    CrashKeepsOpen(d, d', lib, extra);
    var v := d'.journal.Now();
    NowHas(d'.journal);
    assert VersionSafe(v, d', lib);
    forall f | lib.Covers(f) && !(v.Some? && v.value.phase == Committed)
      ensures v.Some? ==> Owner(f) in v.value.components
      ensures Recovered(d', f) == lib.Old(f)
    {
      NowHas(d'.files[f]);
      NowHas(d'.files[Main(Owner(f))]);
      if v.None? {
        assert ComponentHome(Owner(f), d', lib);
      } else {
        assert ComponentSafe(ComponentFlags(v.value.components[Owner(f)]), Owner(f), d', lib);
      }
    }
  }

  /** Conservation: no crash of an open transaction loses a previous file from both
      live storage and the rollback tree. */
  lemma CrashConserves(d: Disk, d': Disk, f: File, lib: Library, extra: set<File>)
    requires Open(d, lib, extra) && CrashOutcome(d, d')
    requires lib.Covers(f) && f in lib.had
    ensures var s := d'.Now(f); s.live == Some(Previous) || s.saved == Some(Previous)
  {
    CrashKeepsOpen(d, d', lib, extra);
    NowHas(d'.files[f]);
    assert FileSound(f, d', lib, extra);
  }

  // ---- What each condition is for -------------------------------------------

  const RESTORING := Flags(true, true, true, true, true)

  /** The disk after a restore of `lib` was installed and synced, when the restored
      database has created the sidecars `created`. */
  function InstalledDisk(lib: Library, created: set<File>, journal: Log<Option<Journal>>): Disk {
    Disk(map f | f in {Main(Database), Main(Pdfs), Main(People), Main(Processing),
                       Sidecar(Wal), Sidecar(Shm), Sidecar(RollbackJournal)} ::
           Log(Cell(if f.Main? || f in created then Some(Restored) else None, lib.Old(f)), []),
         journal, true, true)
  }

  lemma InstalledDiskTotal(lib: Library, created: set<File>, journal: Log<Option<Journal>>)
    ensures InstalledDisk(lib, created, journal).Total()
  {
    forall f: File ensures f in InstalledDisk(lib, created, journal).files {
      match f {
        case Main(c) => match c { case Database => case Pdfs => case People => case Processing => }
        case Sidecar(k) => match k { case Wal => case Shm => case RollbackJournal => }
      }
    }
  }

  function LiveRemoved(l: Log<Cell>): Log<Cell> {
    if l.Now().live.Some? then l.Then(Cell(None, l.Now().saved), {LivePlace}) else l
  }

  /** The removals a rollback pass makes before it moves the database back. */
  function DatabaseRemoved(d: Disk): Disk {
    d.(files := map f | f in d.files :: if Owner(f) == Database then LiveRemoved(d.files[f]) else d.files[f])
  }

  /** The disk just after a rollback pass moved the database file back. */
  ghost function DatabaseReturned(lib: Library, created: set<File>): (d: Disk)
    ensures d.Total()
  {
    InstalledDiskTotal(lib, created, Log(None, []));
    Renamed(DatabaseRemoved(InstalledDisk(lib, created, Log(None, []))), Back(Main(Database)))
  }

  /** What the files of the database may look like at that point. */
  lemma DatabaseReturnedHas(lib: Library, created: set<File>)
    requires Main(Database) in lib.had
    ensures var d := DatabaseReturned(lib, created);
      && (forall s :: d.files[Main(Database)].Has(s) <==>
            s == Cell(Some(Restored), Some(Previous)) || s == Cell(None, Some(Previous)) || s == Cell(Some(Previous), None))
      && (forall k, s :: d.files[Sidecar(k)].Has(s) <==>
            || s == Cell(None, lib.Old(Sidecar(k)))
            || (Sidecar(k) in created && s == Cell(Some(Restored), lib.Old(Sidecar(k)))))
      && d.Now(Main(Database)) == Cell(Some(Previous), None)
      && (forall k :: d.Now(Sidecar(k)) == Cell(None, lib.Old(Sidecar(k))))
      && (forall f :: Owner(f) == Database ==> d.files[f].AllTouch(LivePlace))
  {
    InstalledDiskTotal(lib, created, Log(None, []));
    var d0 := InstalledDisk(lib, created, Log(None, []));
    var d1 := DatabaseRemoved(d0);
    var main := Main(Database);
    ThenHas(d0.files[main], Cell(None, Some(Previous)), {LivePlace});
    PutHas(d1, main, Cell(Some(Previous), None), {LivePlace, RollbackPlace});
    forall k
      ensures forall s :: d1.files[Sidecar(k)].Has(s) <==>
            || s == Cell(None, lib.Old(Sidecar(k)))
            || (Sidecar(k) in created && s == Cell(Some(Restored), lib.Old(Sidecar(k))))
      ensures d1.Now(Sidecar(k)) == Cell(None, lib.Old(Sidecar(k)))
      ensures d1.files[Sidecar(k)].AllTouch(LivePlace)
    {
      RemovedSidecarHas(lib, created, k);
    }
  }

  lemma RemovedSidecarHas(lib: Library, created: set<File>, k: SidecarKind)
    ensures Sidecar(k) in DatabaseRemoved(InstalledDisk(lib, created, Log(None, []))).files
    ensures var l := DatabaseRemoved(InstalledDisk(lib, created, Log(None, []))).files[Sidecar(k)];
      && (forall s :: l.Has(s) <==>
            || s == Cell(None, lib.Old(Sidecar(k)))
            || (Sidecar(k) in created && s == Cell(Some(Restored), lib.Old(Sidecar(k)))))
      && l.Now() == Cell(None, lib.Old(Sidecar(k))) && l.AllTouch(LivePlace)
  {
    InstalledDiskTotal(lib, created, Log(None, []));
    var d0 := InstalledDisk(lib, created, Log(None, []));
    ThenHas(d0.files[Sidecar(k)], Cell(None, lib.Old(Sidecar(k))), {LivePlace});
  }

  /** A crash between the return of the database file and its sync is recoverable
      if and only if every sidecar the restored database created is one the
      previous database had: the removal of any other may be lost while the return
      survives, and the replay branch removes nothing. */
  lemma ReturnNeedsKnownSidecars(lib: Library, created: set<File>)
    requires Main(Database) in lib.had && forall f :: f in created ==> f.Sidecar?
    ensures ComponentSafe(RESTORING, Database, DatabaseReturned(lib, created), lib) <==> created <= lib.had
  {
    var d := DatabaseReturned(lib, created);
    DatabaseReturnedHas(lib, created);
    if f :| f in created && f !in lib.had {
      var m, s := Cell(Some(Previous), None), Cell(Some(Restored), None);
      assert d.files[Main(Database)].Has(m) && d.files[Sidecar(f.kind)].Has(s);
      assert Returned(RESTORING, m.saved.Some?, s) != lib.Old(f);
    }
  }

  /** The same disk once the sync behind that rename succeeded. */
  ghost function ReturnSynced(lib: Library, created: set<File>): (d: Disk)
    ensures d.Total()
  {
    DatabaseReturned(lib, created).Synced(Database, LivePlace)
  }

  lemma ReturnSyncedHas(lib: Library, created: set<File>)
    requires Main(Database) in lib.had
    ensures var d := ReturnSynced(lib, created);
      && d.files[Main(Database)] == Log(Cell(Some(Previous), None), [])
      && forall k :: d.files[Sidecar(k)] == Log(Cell(None, lib.Old(Sidecar(k))), [])
  {
    DatabaseReturnedHas(lib, created);
    SyncNarrows(DatabaseReturned(lib, created), Database, LivePlace);
  }

  /** Moving a sidecar back is recoverable if and only if the return of the database
      file was synced first: otherwise a crash may undo that return and keep the
      sidecar's, and the next pass removes the sidecar as if it were a new one. */
  lemma SidecarNeedsConfirmedReturn(lib: Library, created: set<File>, k: SidecarKind, synced: bool)
    requires Main(Database) in lib.had && Sidecar(k) in lib.had && created <= lib.had
    ensures var d := if synced then ReturnSynced(lib, created) else DatabaseReturned(lib, created);
            ComponentSafe(RESTORING, Database, Renamed(d, Back(Sidecar(k))), lib) <==> synced
  {
    if synced {
      SyncedReturnSafe(lib, created, k);
    } else {
      UnsyncedReturnUnsafe(lib, created, k);
    }
  }

  lemma SyncedReturnSafe(lib: Library, created: set<File>, k: SidecarKind)
    requires Main(Database) in lib.had && Sidecar(k) in lib.had
    ensures ComponentSafe(RESTORING, Database, Renamed(ReturnSynced(lib, created), Back(Sidecar(k))), lib)
  {
    var d := ReturnSynced(lib, created);
    ReturnSyncedHas(lib, created);
    PutHas(d, Sidecar(k), Cell(Some(Previous), None), {LivePlace, RollbackPlace});
  }

  lemma UnsyncedReturnUnsafe(lib: Library, created: set<File>, k: SidecarKind)
    requires Main(Database) in lib.had && Sidecar(k) in lib.had
    ensures !ComponentSafe(RESTORING, Database, Renamed(DatabaseReturned(lib, created), Back(Sidecar(k))), lib)
  {
    var d := DatabaseReturned(lib, created);
    DatabaseReturnedHas(lib, created);
    var d2 := Renamed(d, Back(Sidecar(k)));
    PutHas(d, Sidecar(k), Cell(Some(Previous), None), {LivePlace, RollbackPlace});
    var m, s := Cell(None, Some(Previous)), Cell(Some(Previous), None);
    assert d2.files[Main(Database)].Has(m) && d2.files[Sidecar(k)].Has(s);
    assert Returned(RESTORING, m.saved.Some?, s) != lib.Old(Sidecar(k));
  }

  /** A database whose main file is missing is not moved, so its sidecars stay live
      while the journal goes on to say that an installation has started: recoverable
      if and only if there are none. */
  lemma MissingDatabaseNeedsNoSidecars(lib: Library, d: Disk)
    requires d.Total() && ComponentHome(Database, d, lib) && Main(Database) !in lib.had
    ensures ComponentSafe(NO_FLAGS.(newInstallStarted := true), Database, d, lib) <==> lib.NoOrphans()
  {
    forall f | Owner(f) == Database ensures d.files[f].Has(d.Now(f)) { NowHas(d.files[f]); }
    if !lib.NoOrphans() {
      var f :| f in lib.had && !f.Main?;
      assert d.files[Main(Database)].Has(d.Now(Main(Database))) && d.files[f].Has(d.Now(f));
    }
  }

  /** The journal of a restore whose components are all installed. */
  function InstalledJournal(lib: Library, phase: Phase): Journal {
    Journal(phase, map c | c in lib.components ::
              var had := Main(c) in lib.had; Flags(had, had, had, true, true))
  }

  /** The journal entry after the commit was written, and its sync done or not. */
  function CommitLog(lib: Library, confirmed: bool): Log<Option<Journal>> {
    if confirmed then Log(Some(InstalledJournal(lib, Committed)), [])
    else Log(Some(InstalledJournal(lib, CanonicalInstalled)), []).Then(Some(InstalledJournal(lib, Committed)), {MaintenancePlace})
  }

  function PurgedCell(lib: Library, purged: set<File>, f: File): Log<Cell> {
    var l := InstalledDisk(lib, {}, Log(None, [])).files;
    if f !in l then Log(Cell(None, None), [])
    else if f in purged then l[f].Then(Cell(l[f].Now().live, None), {RollbackPlace})
    else l[f]
  }

  /** The disk a recovery that read "committed" leaves: the journal is unlinked, and
      so are the files `purged` of the rollback tree. */
  ghost function CleanedUp(lib: Library, confirmed: bool, purged: set<File>): (d: Disk)
    ensures d.Total()
  {
    var d0 := InstalledDisk(lib, {}, CommitLog(lib, confirmed));
    InstalledDiskTotal(lib, {}, CommitLog(lib, confirmed));
    WithoutJournal(d0.(files := map f | f in d0.files :: PurgedCell(lib, purged, f)))
  }

  /** The next recovery ends with one whole library. */
  ghost predicate EndsWhole(d: Disk, lib: Library) {
    && d.Total()
    && (d.journal.Now().Some? ==> forall c :: c in lib.components ==> c in d.journal.Now().value.components)
    && ((forall f :: lib.Covers(f) ==> Recovered(d, f) == lib.Old(f)) ||
        (forall f :: lib.Covers(f) ==> Recovered(d, f) == (if f.Main? then Some(Restored) else None)))
  }

  /** Cleaning up after a commit is safe if and only if the commit record is durable,
      or there was nothing to save: otherwise a crash may bring back the journal that
      says "not committed" together with what is left of the rollback tree. */
  lemma CleanupNeedsConfirmedCommit(lib: Library, confirmed: bool)
    requires Database in lib.components && Pdfs in lib.components && lib.NoOrphans()
    ensures (forall purged, d' :: CrashOutcome(CleanedUp(lib, confirmed, purged), d') ==> EndsWhole(d', lib)) <==>
            (confirmed || forall f :: lib.Covers(f) ==> f !in lib.had)
  {
    if confirmed || forall f :: lib.Covers(f) ==> f !in lib.had {
      forall purged, d' | CrashOutcome(CleanedUp(lib, confirmed, purged), d') ensures EndsWhole(d', lib) {
        CleanupWhole(lib, confirmed, purged, d');
      }
    } else {
      var f0 :| lib.Covers(f0) && f0 in lib.had;
      var c0 := Owner(f0);
      var c1 := if c0 == Database then Pdfs else Database;
      var gone := if Main(c1) in lib.had then c1 else c0;
      var d' := CleanupMixed(lib, gone, if gone == c1 then c0 else c1);
      assert CrashOutcome(CleanedUp(lib, confirmed, {Main(gone)}), d') && !EndsWhole(d', lib);
    }
  }

  lemma CommitLogHas(lib: Library, confirmed: bool, v: Option<Journal>)
    ensures CommitLog(lib, confirmed).Then(None, {MaintenancePlace}).Has(v) <==>
              || v == None
              || v == Some(InstalledJournal(lib, Committed))
              || (!confirmed && v == Some(InstalledJournal(lib, CanonicalInstalled)))
  {
    ThenHas(CommitLog(lib, confirmed), None, {MaintenancePlace});
    ThenHas(Log(Some(InstalledJournal(lib, CanonicalInstalled)), []), Some(InstalledJournal(lib, Committed)), {MaintenancePlace});
  }

  lemma PurgedCellHas(lib: Library, confirmed: bool, purged: set<File>, f: File, s: Cell)
    ensures var live := if f.Main? then Some(Restored) else None;
      CleanedUp(lib, confirmed, purged).files[f].Has(s) <==>
        s == Cell(live, lib.Old(f)) || (f in purged && s == Cell(live, None))
  {
    InstalledDiskTotal(lib, {}, Log(None, []));
    InstalledDiskTotal(lib, {}, CommitLog(lib, confirmed));
    var live := if f.Main? then Some(Restored) else None;
    ThenHas(Log(Cell(live, lib.Old(f)), []), Cell(live, None), {RollbackPlace});
  }

  lemma CleanupWhole(lib: Library, confirmed: bool, purged: set<File>, d': Disk)
    requires CrashOutcome(CleanedUp(lib, confirmed, purged), d')
    requires confirmed || forall f :: lib.Covers(f) ==> f !in lib.had
    ensures EndsWhole(d', lib)
  {
    CommitLogHas(lib, confirmed, d'.journal.durable);
    forall f ensures d'.Now(f).live == (if f.Main? then Some(Restored) else None)
      ensures d'.Now(f).saved.Some? ==> f in lib.had
    {
      PurgedCellHas(lib, confirmed, purged, f, d'.files[f].durable);
    }
  }

  lemma CleanupMixed(lib: Library, gone: Component, left: Component) returns (d': Disk)
    requires gone != left && gone in lib.components && left in lib.components
    requires Main(gone) in lib.had
    ensures CrashOutcome(CleanedUp(lib, false, {Main(gone)}), d') && !EndsWhole(d', lib)
  {
    var d := CleanedUp(lib, false, {Main(gone)});
    var journal := Some(InstalledJournal(lib, CanonicalInstalled));
    d' := Disk(map f | f in d.files ::
                 Log(Cell(if f.Main? then Some(Restored) else None, if f == Main(gone) then None else lib.Old(f)), []),
               Log(journal, []), true, true);
    CommitLogHas(lib, false, journal);
    forall f ensures Survives(d, f, d'.files[f].durable) {
      PurgedCellHas(lib, false, {Main(gone)}, f, d'.files[f].durable);
    }
    assert lib.Covers(Main(gone)) && lib.Covers(Main(left));
    assert Recovered(d', Main(gone)) == Some(Restored) != lib.Old(Main(gone));
    assert Recovered(d', Main(left)) == lib.Old(Main(left)) != Some(Restored);
  }

  // ---- The journal may come back -------------------------------------------

  /** After a crash and one more recovery every covered file is live as it was. */
  ghost predicate LiveKept(d: Disk, d': Disk, lib: Library)
    requires d.Total()
  {
    && d'.Total()
    && (d'.journal.Now().Some? ==> forall c :: c in lib.components ==> c in d'.journal.Now().value.components)
    && (forall f :: lib.Covers(f) ==> Recovered(d', f) == d.Now(f).live)
  }

  /** The unlink of the journal is never synced, so a crash long after a completed
      recovery may bring the journal back. What was written since survives that, if and
      only if no covered component that is live now is one the journal takes for a new
      installation: one whose installation started and that did not exist before. */
  lemma LaterWritesSurvive(d: Disk, lib: Library, j: Journal)
    requires d.Total() && d.journal == Log(Some(j), []).Then(None, {MaintenancePlace})
    requires j.phase != Committed && forall c :: c in lib.components ==> c in j.components
    requires forall f :: lib.Covers(f) ==> d.files[f].pending == [] && d.Now(f).saved.None?
    ensures (forall d' :: CrashOutcome(d, d') ==> LiveKept(d, d', lib)) <==>
              forall f :: lib.Covers(f) && d.Now(f).live.Some? ==>
                var g := ComponentFlags(j.components[Owner(f)]); g.newInstallStarted ==> g.oldExisted
  {
    ThenHas(Log(Some(j), []), None, {MaintenancePlace});
    if f :| lib.Covers(f) && d.Now(f).live.Some? && !TakenBack(j, f) {
      var d' := JournalBack(d, j);
      assert CrashOutcome(d, d') by { JournalBackSurvives(d, lib, j); }
      assert Recovered(d', f) == None;
    } else {
      forall d' | CrashOutcome(d, d') ensures LiveKept(d, d', lib) {
        forall f | lib.Covers(f) ensures d'.Now(f) == d.Now(f) && lib.Covers(Main(Owner(f))) && d'.Now(Main(Owner(f))) == d.Now(Main(Owner(f))) {
          assert Survives(d, f, d'.files[f].durable) && Survives(d, Main(Owner(f)), d'.files[Main(Owner(f))].durable);
        }
        assert forall f :: lib.Covers(f) && d.Now(f).live.Some? ==> TakenBack(j, f);
      }
    }
  }

  predicate TakenBack(j: Journal, f: File)
    requires Owner(f) in j.components
  {
    var g := ComponentFlags(j.components[Owner(f)]); g.newInstallStarted ==> g.oldExisted
  }

  function JournalBack(d: Disk, j: Journal): Disk {
    d.(journal := Log(Some(j), []), files := map f | f in d.files :: Log(d.files[f].Now(), []))
  }

  lemma JournalBackSurvives(d: Disk, lib: Library, j: Journal)
    requires d.Total() && d.journal.Has(Some(j))
    ensures CrashOutcome(d, JournalBack(d, j))
  {
    forall f: File ensures f in JournalBack(d, j).files && Survives(d, f, d.files[f].Now()) { NowHas(d.files[f]); }
  }

  // ---- One library that each condition is needed for -----------------------

  /** A database that had no write-ahead log; the restored one makes one before the
      commit. */
  lemma NewSidecarMixes()
    ensures !ComponentSafe(RESTORING, Database, DatabaseReturned(Library({Main(Database)}, [Database]), {Sidecar(Wal)}),
                           Library({Main(Database)}, [Database]))
  {
    ReturnNeedsKnownSidecars(Library({Main(Database)}, [Database]), {Sidecar(Wal)});
  }

  /** A database with a write-ahead log, moved back while the return of the database
      itself may still be lost. */
  lemma UnsyncedReturnLosesLog()
    ensures var lib := Library({Main(Database), Sidecar(Wal)}, [Database]);
      !ComponentSafe(RESTORING, Database, Renamed(DatabaseReturned(lib, {}), Back(Sidecar(Wal))), lib)
  {
    SidecarNeedsConfirmedReturn(Library({Main(Database), Sidecar(Wal)}, [Database]), {}, Wal, false);
  }

  /** A library that has lost its database but kept a write-ahead log, once the journal
      of a restore says that an installation has started. */
  ghost function OrphanLog(): (d: Disk)
    ensures d.Total()
  {
    var lib := Library({Sidecar(Wal)}, [Database]);
    var journal := Journal(InstallingNew, map[Database := NO_FLAGS.(newInstallStarted := true)]);
    HomeDiskTotal(lib, Log(Some(journal), []));
    HomeDisk(lib, Log(Some(journal), []))
  }

  function HomeDisk(lib: Library, journal: Log<Option<Journal>>): Disk {
    Disk(map f | f in ALL_FILES :: Log(Cell(lib.Old(f), None), []), journal, true, true)
  }

  lemma HomeDiskTotal(lib: Library, journal: Log<Option<Journal>>)
    ensures HomeDisk(lib, journal).Total()
  {
    forall f: File ensures f in HomeDisk(lib, journal).files { AllFilesComplete(f); }
  }

  /** With nothing unsynced a crash leaves that disk as it is, and recovery removes the
      log, which was the only copy. */
  lemma OrphanLogIsLost()
    ensures var lib := Library({Sidecar(Wal)}, [Database]);
      && CrashOutcome(OrphanLog(), OrphanLog())
      && OrphanLog().Now(Sidecar(Wal)) == Cell(Some(Previous), None)
      && Recovered(OrphanLog(), Sidecar(Wal)) == None != lib.Old(Sidecar(Wal))
      && !EndsWhole(OrphanLog(), lib)
  {
    var d := OrphanLog();
    forall f: File ensures f in d.files && d.files[f] == Log(Cell(Library({Sidecar(Wal)}, [Database]).Old(f), None), []) {
      AllFilesComplete(f);
    }
    assert Library({Sidecar(Wal)}, [Database]).Covers(Sidecar(Wal));
    assert Library({Sidecar(Wal)}, [Database]).Covers(Main(Database));
  }

  /** A database and managed PDFs, cleaned up after a commit that may still be lost. */
  lemma UnconfirmedCleanupMixes()
    ensures var lib := Library({Main(Database), Main(Pdfs)}, [Database, Pdfs]);
      exists purged, d' :: CrashOutcome(CleanedUp(lib, false, purged), d') && !EndsWhole(d', lib)
  {
    var lib := Library({Main(Database), Main(Pdfs)}, [Database, Pdfs]);
    CleanupNeedsConfirmedCommit(lib, false);
    assert lib.Covers(Main(Database)) && Main(Database) in lib.had;
  }
}
