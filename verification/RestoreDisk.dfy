/** The disk a restore transaction works on, what its journal promises, and why
    each single step keeps every crash outcome recoverable. */
module RestoreDisk {
  import opened Common
  import opened DirectoryLog

  datatype Component = Database | Pdfs | People | Processing

  datatype SidecarKind = Wal | Shm | RollbackJournal

  /** A name under live storage: a component itself, or a SQLite sidecar. */
  datatype File = Main(of: Component) | Sidecar(kind: SidecarKind)

  function Owner(f: File): Component {
    if f.Main? then f.of else Database
  }

  const SIDECARS: seq<File> := [Sidecar(Wal), Sidecar(Shm), Sidecar(RollbackJournal)]

  /** What a name holds: the library being replaced, the restored one, or the
      remains of a directory whose removal stopped halfway. */
  datatype Content = Previous | Restored | Damaged

  /** One file under both of its names: in live storage and in the rollback tree. */
  datatype Cell = Cell(live: Option<Content>, saved: Option<Content>)

  datatype Phase = Prepared | MovingOld | InstallingNew | CanonicalInstalled | Committed

  datatype Flags = Flags(
    oldExisted: bool, oldMoveStarted: bool, oldMoved: bool,
    newInstallStarted: bool, newInstalled: bool)

  const NO_FLAGS := Flags(false, false, false, false, false)

  /** The flags recovery acts on: a later flag implies the ones before it. */
  function ComponentFlags(g: Flags): Flags {
    Flags(g.oldExisted || g.oldMoved, g.oldMoveStarted || g.oldMoved, g.oldMoved,
          g.newInstallStarted || g.newInstalled, g.newInstalled)
  }

  /** A component that was moved existed and its move began; one that is installed was
      begun. */
  predicate Coherent(g: Flags) {
    (g.oldMoved ==> g.oldExisted && g.oldMoveStarted) && (g.newInstalled ==> g.newInstallStarted)
  }

  predicate AtLeast(a: Flags, b: Flags) {
    && (b.oldExisted ==> a.oldExisted) && (b.oldMoveStarted ==> a.oldMoveStarted) && (b.oldMoved ==> a.oldMoved)
    && (b.newInstallStarted ==> a.newInstallStarted) && (b.newInstalled ==> a.newInstalled)
  }

  /** Recovery acts on the least coherent flags that hold what the journal holds. */
  lemma LeastCoherent(g: Flags)
    ensures Coherent(ComponentFlags(g)) && AtLeast(ComponentFlags(g), g)
    ensures forall h :: Coherent(h) && AtLeast(h, g) ==> AtLeast(h, ComponentFlags(g))
  {
  }

  datatype Journal = Journal(phase: Phase, components: map<Component, Flags>)

  /** The library being replaced: its files, and the components the restore covers. */
  datatype Library = Library(had: set<File>, components: seq<Component>) {
    predicate Covers(f: File) { Owner(f) in components }

    /** Every database that has sidecars has a main file. */
    predicate NoOrphans() {
      Main(Database) !in had ==> forall f :: f in had ==> f.Main?
    }

    predicate HasSidecars() { exists k :: Sidecar(k) in had }

    function Old(f: File): Option<Content> {
      if f in had then Some(Previous) else None
    }

    /** The file is where it was before the restore, and nowhere else. */
    predicate Home(f: File, s: Cell) { s == Cell(Old(f), None) }

    /** The previous file is safe at one of its two names; a file that did not
        exist has nothing saved. `extra` are the sidecars the restored database
        may create before the commit. */
    predicate Fits(f: File, s: Cell, extra: set<File>) {
      if f in had then
        (s.live == Some(Previous) && s.saved.None?) || (s.saved == Some(Previous) && s.live != Some(Previous))
      else
        && s.saved.None?
        && s.live != Some(Previous)
        && (f.Sidecar? && f !in extra ==> s.live.None?)
    }
  }

  /** What one complete rollback pass leaves at the live name of a file in state
      `s`, when the journal holds `g` for its component and `mainSaved` says
      whether the component itself is in the rollback tree. */
  function Returned(g: Flags, mainSaved: bool, s: Cell): Option<Content> {
    if g.oldExisted && !mainSaved then
      if s.saved.Some? then s.saved else s.live
    else
      var kept := if g.newInstallStarted then None else s.live;
      if g.oldExisted && s.saved.Some? then s.saved else kept
  }

  datatype Disk = Disk(
    files: map<File, Log<Cell>>, journal: Log<Option<Journal>>, rootDir: bool, databaseDir: bool) {

    ghost predicate Total() { forall f: File :: f in files }

    function Now(f: File): Cell
      requires f in files
    {
      files[f].Now()
    }

    /** The rollback directory a component is moved into survives a crash. */
    predicate TreeDurable(c: Component) { rootDir && (c == Database ==> databaseDir) }

    function Put(f: File, s: Cell, touched: set<Place>): Disk
      requires f in files
    {
      this.(files := files[f := files[f].Then(s, touched)])
    }

    /** The sync of one directory of component `c`. */
    function Synced(c: Component, place: Place): Disk {
      this.(files := map f | f in files :: if Owner(f) == c then files[f].Synced(place) else files[f])
    }
  }

  /** Every crash outcome of the component's files, under flags `g`, is one a
      rollback pass turns back into the previous library. */
  ghost predicate ComponentSafe(g: Flags, c: Component, d: Disk, lib: Library)
    requires d.Total()
  {
    forall m, f, s ::
      d.files[Main(c)].Has(m) && Owner(f) == c && d.files[f].Has(s) && (f == Main(c) ==> s == m) ==>
        Returned(g, m.saved.Some?, s) == lib.Old(f)
  }

  /** In every crash outcome the component is where it was before the restore. */
  ghost predicate ComponentHome(c: Component, d: Disk, lib: Library)
    requires d.Total()
  {
    forall f, s :: Owner(f) == c && d.files[f].Has(s) ==> lib.Home(f, s)
  }

  ghost predicate AllHome(d: Disk, lib: Library)
    requires d.Total()
  {
    forall c :: c in lib.components ==> ComponentHome(c, d, lib)
  }

  /** In every crash outcome the component is the restored one. */
  ghost predicate ComponentInstalled(c: Component, d: Disk)
    requires d.Total()
  {
    && (forall s :: d.files[Main(c)].Has(s) ==> s.live == Some(Restored))
    && (forall f: File, s :: f.Sidecar? && Owner(f) == c && d.files[f].Has(s) ==> s.live in {None, Some(Restored)})
  }

  ghost predicate AllInstalled(d: Disk, lib: Library)
    requires d.Total()
  {
    forall c :: c in lib.components ==> ComponentInstalled(c, d)
  }

  /** What it takes for a crash to leave journal `v`. */
  ghost predicate VersionSafe(v: Option<Journal>, d: Disk, lib: Library)
    requires d.Total()
  {
    match v
    case None => AllHome(d, lib)
    case Some(j) =>
      if j.phase == Committed then AllInstalled(d, lib)
      else forall c :: c in lib.components ==>
        c in j.components && ComponentSafe(ComponentFlags(j.components[c]), c, d, lib)
  }

  ghost predicate FileSound(f: File, d: Disk, lib: Library, extra: set<File>)
    requires d.Total()
  {
    && (forall s :: d.files[f].Has(s) ==> lib.Fits(f, s, extra) && (s.saved.Some? ==> d.TreeDurable(Owner(f))))
    && d.files[f].AllTouch(LivePlace)
  }

  /** The transaction is open: whatever a crash leaves, some journal and some files
      together lead to one whole library, and nothing of the old one is lost. */
  ghost predicate Open(d: Disk, lib: Library, extra: set<File>) {
    && d.Total()
    && (forall f :: lib.Covers(f) ==> FileSound(f, d, lib, extra))
    && (forall v :: d.journal.Has(v) ==> VersionSafe(v, d, lib))
    && (forall v :: d.journal.Has(v) && v.Some? && v.value.phase == Committed ==>
          d.journal.Now().Some? && d.journal.Now().value.phase == Committed)
  }

  /** The transaction is decided for the restored library. */
  ghost predicate Closed(d: Disk, lib: Library) {
    && d.Total()
    && (forall v :: d.journal.Has(v) ==> v.None? || v.value.phase == Committed)
    && AllInstalled(d, lib)
  }

  /** Open, and no crash outcome is committed. */
  ghost predicate Undecided(d: Disk, lib: Library, extra: set<File>) {
    && Open(d, lib, extra)
    && (forall v :: d.journal.Has(v) ==> !(v.Some? && v.value.phase == Committed))
  }

  /** A rollback pass with flags `g` for component `c` may run. */
  ghost predicate Guarded(g: Flags, c: Component, d: Disk, lib: Library, extra: set<File>) {
    && Undecided(d, lib, extra)
    && c in lib.components
    && ComponentSafe(g, c, d, lib)
  }

  // ---- Syncs only rule crash outcomes out ----------------------------------

  /** Two disks a process sees alike, the second with fewer crash outcomes. */
  ghost predicate Narrows(d: Disk, d': Disk) {
    && d.Total() && d'.Total()
    && d'.journal == d.journal && d'.rootDir == d.rootDir && d'.databaseDir == d.databaseDir
    && (forall f :: d'.files[f].Now() == d.files[f].Now())
    && (forall f, s :: d'.files[f].Has(s) ==> d.files[f].Has(s))
    && (forall f :: d.files[f].AllTouch(LivePlace) ==> d'.files[f].AllTouch(LivePlace))
  }

  lemma SyncNarrows(d: Disk, c: Component, place: Place)
    requires d.Total()
    ensures Narrows(d, d.Synced(c, place))
    ensures forall f :: Owner(f) != c ==> d.Synced(c, place).files[f] == d.files[f]
    ensures place == LivePlace && (forall f :: Owner(f) == c ==> d.files[f].AllTouch(LivePlace)) ==>
              forall f :: Owner(f) == c ==> d.Synced(c, place).files[f] == Log(d.Now(f), [])
  {
    forall f: File
      ensures d.Synced(c, place).files[f] == (if Owner(f) == c then d.files[f].Synced(place) else d.files[f])
      ensures d.files[f].Synced(place).Now() == d.files[f].Now()
      ensures forall s :: d.files[f].Synced(place).Has(s) ==> d.files[f].Has(s)
      ensures forall p :: d.files[f].AllTouch(p) ==> d.files[f].Synced(place).AllTouch(p)
      ensures d.files[f].AllTouch(place) ==> d.files[f].Synced(place) == Log(d.files[f].Now(), [])
    {
      SyncedNarrows(d.files[f], place);
    }
  }

  lemma NarrowsKeepsSafe(g: Flags, c: Component, d: Disk, d': Disk, lib: Library)
    requires Narrows(d, d') && ComponentSafe(g, c, d, lib)
    ensures ComponentSafe(g, c, d', lib)
  {
  }

  lemma NarrowsKeepsOpen(d: Disk, d': Disk, lib: Library, extra: set<File>)
    requires Narrows(d, d') && Open(d, lib, extra)
    ensures Open(d', lib, extra)
  {
    forall v | d'.journal.Has(v) ensures VersionSafe(v, d', lib) {
      assert VersionSafe(v, d, lib);
      match v {
        case None =>
          forall c | c in lib.components ensures ComponentHome(c, d', lib) {
            assert ComponentHome(c, d, lib);
          }
        case Some(j) =>
          if j.phase == Committed {
            forall c | c in lib.components ensures ComponentInstalled(c, d') {
              assert ComponentInstalled(c, d);
            }
          } else {
            forall c | c in lib.components
              ensures ComponentSafe(ComponentFlags(j.components[c]), c, d', lib)
            {
              NarrowsKeepsSafe(ComponentFlags(j.components[c]), c, d, d', lib);
            }
          }
      }
    }
    forall f | lib.Covers(f) ensures FileSound(f, d', lib, extra) {
      assert FileSound(f, d, lib, extra);
    }
  }

  // ---- One change to one file ----------------------------------------------

  /** A change to a file of component `c` is harmless for the journal versions
      that survive when it is harmless for the flags of that component. */
  lemma PutKeepsUndecided(d: Disk, f: File, s: Cell, touched: set<Place>, lib: Library, extra: set<File>)
    requires Undecided(d, lib, extra) && lib.Covers(f) && LivePlace in touched
    requires lib.Fits(f, s, extra) && (s.saved.Some? ==> d.TreeDurable(Owner(f)))
    requires forall g :: ComponentSafe(g, Owner(f), d, lib) ==> ComponentSafe(g, Owner(f), d.Put(f, s, touched), lib)
    requires !AllHome(d, lib)
    ensures Undecided(d.Put(f, s, touched), lib, extra)
  {
    var d' := d.Put(f, s, touched);
    ThenHas(d.files[f], s, touched);
    forall f' | lib.Covers(f') ensures FileSound(f', d', lib, extra) {
      assert FileSound(f', d, lib, extra);
    }
    forall v | d'.journal.Has(v) ensures VersionSafe(v, d', lib) {
      assert VersionSafe(v, d, lib);
      if v.Some? {
        forall c | c in lib.components
          ensures c in v.value.components && ComponentSafe(ComponentFlags(v.value.components[c]), c, d', lib)
        {
          assert ComponentSafe(ComponentFlags(v.value.components[c]), c, d, lib);
        }
      }
    }
  }

  lemma PutHas(d: Disk, f: File, s: Cell, touched: set<Place>)
    requires d.Total()
    ensures d.Put(f, s, touched).Total()
    ensures d.Put(f, s, touched).Now(f) == s
    ensures forall t :: d.Put(f, s, touched).files[f].Has(t) <==> d.files[f].Has(t) || t == s
    ensures forall f' :: f' != f ==> d.Put(f, s, touched).files[f'] == d.files[f']
  {
    ThenHas(d.files[f], s, touched);
  }

  // ---- The steps of a rollback pass ----------------------------------------

  /** Whatever else a surviving journal says, it says that a component with a
      saved copy existed. */
  lemma SavedExisted(g: Flags, c: Component, f: File, d: Disk, lib: Library, extra: set<File>)
    requires d.Total() && ComponentSafe(g, c, d, lib) && Owner(f) == c
    requires FileSound(f, d, lib, extra)
    requires d.Now(f).saved.Some?
    ensures g.oldExisted
  {
    NowHas(d.files[f]);
    NowHas(d.files[Main(c)]);
  }

  lemma NotAllHome(c: Component, f: File, d: Disk, lib: Library)
    requires d.Total() && c in lib.components && Owner(f) == c
    requires !lib.Home(f, d.Now(f))
    ensures !AllHome(d, lib)
  {
    NowHas(d.files[f]);
    assert !ComponentHome(c, d, lib);
  }

  /** Removing a live file that the rollback tree, or the lack of any previous
      file, makes redundant. `left` is what a removal that fails halfway leaves. */
  lemma RemoveKeepsGuard(g: Flags, c: Component, d: Disk, f: File, left: Option<Content>, lib: Library, extra: set<File>)
    requires Guarded(g, c, d, lib, extra) && Owner(f) == c
    requires d.Now(f).live.Some? && g.newInstallStarted
    requires g.oldExisted ==> d.Now(Main(c)).saved.Some?
    requires left == None || (left == Some(Damaged) && f.Main?)
    ensures Guarded(g, c, d.Put(f, Cell(left, d.Now(f).saved), {LivePlace}), lib, extra)
  {
    var now := d.Now(f);
    var s' := Cell(left, now.saved);
    var d' := d.Put(f, s', {LivePlace});
    PutHas(d, f, s', {LivePlace});
    NowHas(d.files[f]);
    NowHas(d.files[Main(c)]);
    assert lib.Fits(f, now, extra) by { assert FileSound(f, d, lib, extra); }
    assert lib.Fits(Main(c), d.Now(Main(c)), extra) by { assert FileSound(Main(c), d, lib, extra); }
    assert now.saved == lib.Old(f);
    NotAllHome(c, f, d, lib);
    forall g' | ComponentSafe(g', c, d, lib) ensures ComponentSafe(g', c, d', lib) {
      assert Returned(g', d.Now(Main(c)).saved.Some?, now) == lib.Old(f);
    }
    PutKeepsUndecided(d, f, s', {LivePlace}, lib, extra);
  }

  /** Moving a component back from the rollback tree. Its sidecars may still be in
      either place: that is what the replay branch is for. */
  lemma ReturnMainKeepsGuard(g: Flags, c: Component, d: Disk, lib: Library, extra: set<File>)
    requires Guarded(g, c, d, lib, extra)
    requires d.Now(Main(c)).saved.Some?
    requires extra <= lib.had
    ensures Guarded(g, c, d.Put(Main(c), Cell(d.Now(Main(c)).saved, None), {LivePlace, RollbackPlace}), lib, extra)
  {
    var f := Main(c);
    var now := d.Now(f);
    var s' := Cell(now.saved, None);
    var touched := {LivePlace, RollbackPlace};
    var d' := d.Put(f, s', touched);
    PutHas(d, f, s', touched);
    NowHas(d.files[f]);
    assert FileSound(f, d, lib, extra);
    NotAllHome(c, f, d, lib);
    forall g' | ComponentSafe(g', c, d, lib) ensures ComponentSafe(g', c, d', lib) {
      SavedExisted(g', c, f, d, lib, extra);
      forall m, f', s | d'.files[f].Has(m) && Owner(f') == c && d'.files[f'].Has(s) && (f' == f ==> s == m)
        ensures Returned(g', m.saved.Some?, s) == lib.Old(f')
      {
        if m == s' && f' != f {
          assert FileSound(f', d, lib, extra);
          assert lib.Fits(f', s, extra);
        }
      }
    }
    PutKeepsUndecided(d, f, s', touched, lib, extra);
  }

  /** Moving a sidecar back is safe once no crash can put the main file back into
      the rollback tree. */
  lemma ReturnSidecarKeepsGuard(g: Flags, d: Disk, k: SidecarKind, lib: Library, extra: set<File>)
    requires Guarded(g, Database, d, lib, extra)
    requires forall m :: d.files[Main(Database)].Has(m) ==> m.saved.None?
    requires d.Now(Sidecar(k)).saved.Some?
    ensures Guarded(g, Database,
                    d.Put(Sidecar(k), Cell(d.Now(Sidecar(k)).saved, None), {LivePlace, RollbackPlace}), lib, extra)
  {
    var f := Sidecar(k);
    var s' := Cell(d.Now(f).saved, None);
    var touched := {LivePlace, RollbackPlace};
    var d' := d.Put(f, s', touched);
    PutHas(d, f, s', touched);
    NowHas(d.files[f]);
    assert FileSound(f, d, lib, extra);
    NotAllHome(Database, f, d, lib);
    forall g' | ComponentSafe(g', Database, d, lib) ensures ComponentSafe(g', Database, d', lib) {
      SavedExisted(g', Database, f, d, lib, extra);
    }
    PutKeepsUndecided(d, f, s', touched, lib, extra);
  }

  // ---- The steps of the restore itself -------------------------------------

  /** The journal on disk is `j`, and no crash changes that. */
  predicate Sole(d: Disk, j: Journal) { d.journal == Log(Some(j), []) }

  /** In every crash outcome the previous files are in the rollback tree. */
  ghost predicate ComponentMoved(c: Component, d: Disk, lib: Library)
    requires d.Total()
  {
    forall f, s :: Owner(f) == c && d.files[f].Has(s) ==> s.saved == lib.Old(f) && s.live != Some(Previous)
  }

  /** While one journal version is certain, a change needs to suit that one only. */
  lemma PutKeepsSole(d: Disk, j: Journal, f: File, s: Cell, touched: set<Place>, lib: Library, extra: set<File>)
    requires Undecided(d, lib, extra) && Sole(d, j) && lib.Covers(f) && LivePlace in touched
    requires lib.Fits(f, s, extra) && (s.saved.Some? ==> d.TreeDurable(Owner(f)))
    requires Owner(f) in j.components
    requires ComponentSafe(ComponentFlags(j.components[Owner(f)]), Owner(f), d.Put(f, s, touched), lib)
    ensures Undecided(d.Put(f, s, touched), lib, extra) && Sole(d.Put(f, s, touched), j)
  {
    var d' := d.Put(f, s, touched);
    PutHas(d, f, s, touched);
    forall f' | lib.Covers(f') ensures FileSound(f', d', lib, extra) {
      assert FileSound(f', d, lib, extra);
    }
    forall v | d'.journal.Has(v) ensures VersionSafe(v, d', lib) {
      assert v == Some(j);
      assert VersionSafe(v, d, lib);
      forall c | c in lib.components
        ensures c in j.components && ComponentSafe(ComponentFlags(j.components[c]), c, d', lib)
      {
        assert ComponentSafe(ComponentFlags(j.components[c]), c, d, lib);
      }
    }
  }

  /** Moving a previous file into the rollback tree, once the journal is certain
      to say that its component existed and nothing was installed over it. */
  lemma MoveOutKeepsSole(d: Disk, j: Journal, f: File, lib: Library, extra: set<File>)
    requires Undecided(d, lib, extra) && Sole(d, j) && lib.Covers(f) && f in lib.had
    requires Owner(f) in j.components
    requires var g := ComponentFlags(j.components[Owner(f)]); g.oldExisted && !g.newInstallStarted
    requires d.TreeDurable(Owner(f))
    requires forall f', s :: Owner(f') == Owner(f) && f' !in lib.had && d.files[f'].Has(s) ==> s.live.None?
    ensures var d' := d.Put(f, Cell(None, Some(Previous)), {LivePlace, RollbackPlace});
            Undecided(d', lib, extra) && Sole(d', j)
  {
    var s' := Cell(None, Some(Previous));
    var touched := {LivePlace, RollbackPlace};
    var c := Owner(f);
    var g := ComponentFlags(j.components[c]);
    var d' := d.Put(f, s', touched);
    PutHas(d, f, s', touched);
    forall m, f', s | d'.files[Main(c)].Has(m) && Owner(f') == c && d'.files[f'].Has(s) && (f' == Main(c) ==> s == m)
      ensures Returned(g, m.saved.Some?, s) == lib.Old(f')
    {
      if !(f' == f && s == s') {
        assert FileSound(f', d, lib, extra);
        assert lib.Fits(f', s, extra);
      }
    }
    PutKeepsSole(d, j, f, s', touched, lib, extra);
  }

  /** Putting restored content at a live name, once the journal is certain to say
      so and the previous files are certain to be in the rollback tree. */
  lemma InstallKeepsSole(d: Disk, j: Journal, f: File, live: Option<Content>, lib: Library, extra: set<File>)
    requires Undecided(d, lib, extra) && Sole(d, j) && lib.Covers(f)
    requires Owner(f) in j.components
    requires var g := ComponentFlags(j.components[Owner(f)]);
             g.newInstallStarted && (g.oldExisted <==> Main(Owner(f)) in lib.had)
    requires ComponentMoved(Owner(f), d, lib) && lib.NoOrphans()
    requires live == Some(Restored) || live == None
    requires f.Sidecar? && f !in lib.had && live.Some? ==> f in extra
    ensures var d' := d.Put(f, Cell(live, d.Now(f).saved), {LivePlace});
            Undecided(d', lib, extra) && Sole(d', j) && ComponentMoved(Owner(f), d', lib)
  {
    var s' := Cell(live, d.Now(f).saved);
    var c := Owner(f);
    var d' := d.Put(f, s', {LivePlace});
    PutHas(d, f, s', {LivePlace});
    NowHas(d.files[f]);
    assert FileSound(f, d, lib, extra);
    MovedSafe(ComponentFlags(j.components[c]), c, d', lib);
    PutKeepsSole(d, j, f, s', {LivePlace}, lib, extra);
  }

  /** Flags that say "installed" suit a component whose previous files are saved. */
  lemma MovedSafe(g: Flags, c: Component, d: Disk, lib: Library)
    requires d.Total() && ComponentMoved(c, d, lib) && lib.NoOrphans()
    requires g.newInstallStarted && (g.oldExisted <==> Main(c) in lib.had)
    ensures ComponentSafe(g, c, d, lib)
  {
  }

  /** Flags that do not say "installed" suit a component that is still at home. */
  lemma HomeSafe(g: Flags, c: Component, d: Disk, lib: Library)
    requires d.Total() && ComponentHome(c, d, lib) && !g.newInstallStarted
    ensures ComponentSafe(g, c, d, lib)
  {
  }

  /** Writing a journal version that suits every crash outcome of the files. */
  lemma JournalKeepsOpen(d: Disk, j: Journal, lib: Library, extra: set<File>)
    requires Undecided(d, lib, extra) && VersionSafe(Some(j), d, lib)
    ensures Open(d.(journal := d.journal.Then(Some(j), {MaintenancePlace})), lib, extra)
    ensures Open(d.(journal := Log(Some(j), [])), lib, extra)
    ensures j.phase != Committed ==>
              && Undecided(d.(journal := d.journal.Then(Some(j), {MaintenancePlace})), lib, extra)
              && Undecided(d.(journal := Log(Some(j), [])), lib, extra)
  {
    ThenHas(d.journal, Some(j), {MaintenancePlace});
    var d1 := d.(journal := d.journal.Then(Some(j), {MaintenancePlace}));
    var d2 := d.(journal := Log(Some(j), []));
    JournalOnly(d, d1, lib, extra);
    JournalOnly(d, d2, lib, extra);
  }

  /** Soundness of files and fitness of a version do not depend on the journal. */
  lemma JournalOnly(d: Disk, d': Disk, lib: Library, extra: set<File>)
    requires d.Total() && d' == d.(journal := d'.journal)
    ensures d'.Total()
    ensures forall f :: FileSound(f, d, lib, extra) <==> FileSound(f, d', lib, extra)
    ensures forall v :: VersionSafe(v, d, lib) <==> VersionSafe(v, d', lib)
  {
    forall v ensures VersionSafe(v, d, lib) <==> VersionSafe(v, d', lib) {
      assert AllHome(d, lib) <==> AllHome(d', lib) by {
        assert forall c :: ComponentHome(c, d, lib) <==> ComponentHome(c, d', lib);
      }
      assert AllInstalled(d, lib) <==> AllInstalled(d', lib) by {
        assert forall c :: ComponentInstalled(c, d) <==> ComponentInstalled(c, d');
      }
      assert forall g, c :: ComponentSafe(g, c, d, lib) <==> ComponentSafe(g, c, d', lib);
    }
  }
}
