/** What one rollback pass does to the names of a component, as steps, and why a pass
    that stopped and the next one add up to one. */
module RestorePass {
  import opened Common
  import opened DirectoryLog
  import opened RestoreDisk
  import opened RestoreSteps

  /** What the running process sees of every file. */
  type Cells = map<File, Cell>

  function Nows(d: Disk): Cells { map f | f in d.files :: d.Now(f) }

  ghost predicate Full(cells: Cells) { forall f: File :: f in cells }

  /** One change a pass makes. `HalfStep` is a removal that stopped inside a directory. */
  datatype Step = RemoveStep(f: File) | HalfStep(f: File) | BackStep(f: File)

  function Changed(s: Cell, step: Step): Cell {
    match step
    case RemoveStep(_) => Cell(None, s.saved)
    case HalfStep(_) => Cell(Some(Damaged), s.saved)
    case BackStep(_) => if s.saved.Some? then Cell(s.saved, None) else s
  }

  function Take(cells: Cells, step: Step): Cells
    requires step.f in cells
  {
    cells[step.f := Changed(cells[step.f], step)]
  }

  ghost function TakeAll(cells: Cells, steps: seq<Step>): (r: Cells)
    requires Full(cells)
    ensures Full(r)
  {
    if steps == [] then cells else Take(TakeAll(cells, steps[..|steps| - 1]), steps[|steps| - 1])
  }

  function SidecarsOf(c: Component): seq<File> { if c == Database then SIDECARS else [] }
  function Files(c: Component): seq<File> { [Main(c)] + SidecarsOf(c) }

  function Removals(fs: seq<File>): seq<Step> { seq(|fs|, i requires 0 <= i < |fs| => RemoveStep(fs[i])) }
  function Backs(fs: seq<File>): seq<Step> { seq(|fs|, i requires 0 <= i < |fs| => BackStep(fs[i])) }

  predicate PassRemoves(g: Flags, mainSaved: bool) { g.newInstallStarted && !(g.oldExisted && !mainSaved) }

  /** The changes of one complete pass over component `c`, in the order of the code. */
  function PassSteps(g: Flags, c: Component, mainSaved: bool): seq<Step> {
    (if PassRemoves(g, mainSaved) then Removals(Files(c)) else []) + (if g.oldExisted then Backs(Files(c)) else [])
  }

  /** One complete pass, starting from what it finds. */
  ghost function Pass(g: Flags, c: Component, cells: Cells): (r: Cells)
    requires Full(cells)
    ensures Full(r)
  {
    TakeAll(cells, PassSteps(g, c, cells[Main(c)].saved.Some?))
  }

  /** A removal that may stop halfway: of a directory that is there. */
  predicate Halvable(cells: Cells, f: File) { f.Main? && f.of != Database && f in cells && cells[f].live.Some? }

  /** `to` is what `k` of the steps make of `from`, and perhaps half of the next. */
  ghost predicate StoppedAt(from: Cells, steps: seq<Step>, k: nat, to: Cells)
    requires Full(from) && k <= |steps|
  {
    var done := TakeAll(from, steps[..k]);
    || to == done
    || (k < |steps| && steps[k].RemoveStep? && Halvable(done, steps[k].f) && to == Take(done, HalfStep(steps[k].f)))
  }

  ghost predicate StoppedIn(from: Cells, steps: seq<Step>, to: Cells)
    requires Full(from)
  {
    exists k: nat :: k <= |steps| && StoppedAt(from, steps, k, to)
  }

  /** What a part of the code that stands for `steps` did: all of them if it went
      through, some of them if it stopped. */
  ghost predicate Did(from: Cells, steps: seq<Step>, to: Cells, through: bool)
    requires Full(from)
  {
    if through then to == TakeAll(from, steps) else StoppedIn(from, steps, to)
  }

  // ---- Parts of a pass, one after the other --------------------------------

  lemma {:induction false} TakeAppend(cells: Cells, a: seq<Step>, b: seq<Step>)
    requires Full(cells)
    ensures TakeAll(cells, a + b) == TakeAll(TakeAll(cells, a), b)
  {
    if b == [] {
      assert a + b == a;
    } else {
      var n := |b| - 1;
      assert (a + b)[..|a| + n] == a + b[..n];
      TakeAppend(cells, a, b[..n]);
    }
  }

  lemma {:induction false} AllIsStopped(cells: Cells, steps: seq<Step>)
    requires Full(cells)
    ensures StoppedIn(cells, steps, TakeAll(cells, steps)) && StoppedIn(cells, steps, cells)
  {
    assert steps[..|steps|] == steps && steps[..0] == [];
    assert StoppedAt(cells, steps, |steps|, TakeAll(cells, steps)) && StoppedAt(cells, steps, 0, cells);
  }

  /** The first part stopped, so the whole did. */
  lemma {:induction false} StoppedEarly(from: Cells, a: seq<Step>, b: seq<Step>, to: Cells)
    requires Full(from) && StoppedIn(from, a, to)
    ensures StoppedIn(from, a + b, to)
  {
    var k: nat :| k <= |a| && StoppedAt(from, a, k, to);
    assert (a + b)[..k] == a[..k];
    assert StoppedAt(from, a + b, k, to);
  }

  /** The first part went through, and then the second did what it did. */
  lemma {:induction false} ThenDid(from: Cells, a: seq<Step>, b: seq<Step>, to: Cells, through: bool)
    requires Full(from) && Did(TakeAll(from, a), b, to, through)
    ensures Did(from, a + b, to, through)
  {
    TakeAppend(from, a, b);
    if !through {
      var k: nat :| k <= |b| && StoppedAt(TakeAll(from, a), b, k, to);
      TakeAppend(from, a, b[..k]);
      assert (a + b)[..|a| + k] == a + b[..k];
      assert StoppedAt(from, a + b, |a| + k, to);
    }
  }

  /** A return of a file with no saved copy is no change. */
  lemma {:induction false} NothingToReturn(cells: Cells, f: File)
    requires Full(cells) && cells[f].saved.None?
    ensures TakeAll(cells, [BackStep(f)]) == cells
  {
    assert [BackStep(f)][..0] == [] && cells[f := cells[f]] == cells;
  }

  // ---- One file through a pass ---------------------------------------------

  /** The cell of file `f` after some steps depends on the steps that name it. */
  function After(s: Cell, f: File, steps: seq<Step>): Cell {
    if steps == [] then s
    else
      var before := After(s, f, steps[..|steps| - 1]);
      var last := steps[|steps| - 1];
      if last.f != f then before else Changed(before, last)
  }

  lemma {:induction false} TakeAllAfter(cells: Cells, steps: seq<Step>, f: File)
    requires Full(cells)
    ensures TakeAll(cells, steps)[f] == After(cells[f], f, steps)
  {
    if steps != [] { TakeAllAfter(cells, steps[..|steps| - 1], f); }
  }

  /** The outcome for one file of removing it or not, then returning it or not. */
  function Outcome(s: Cell, removed: bool, returned: bool): Cell {
    var kept := if removed then None else s.live;
    if returned && s.saved.Some? then Cell(s.saved, None) else Cell(kept, s.saved)
  }

  /** Steps that remove before they return have that outcome. */
  lemma {:induction false} AfterOutcome(s: Cell, f: File, steps: seq<Step>)
    requires forall i :: 0 <= i < |steps| ==> !steps[i].HalfStep?
    requires forall i, j :: 0 <= i < j < |steps| && steps[j].RemoveStep? ==> steps[i].RemoveStep?
    ensures After(s, f, steps) == Outcome(s, RemoveStep(f) in steps, BackStep(f) in steps)
  {
    if steps != [] {
      var n := |steps| - 1;
      AfterOutcome(s, f, steps[..n]);
      assert steps == steps[..n] + [steps[n]];
      if steps[n].RemoveStep? {
        assert forall i :: 0 <= i < n ==> steps[i].RemoveStep?;
      }
    }
  }

  lemma {:induction false} FilesAre(c: Component, f: File)
    ensures f in Files(c) <==> Owner(f) == c
  {
    if f.Sidecar? && c == Database {
      assert Files(c)[match f.kind case Wal => 1 case Shm => 2 case RollbackJournal => 3] == f;
    }
    if f == Main(c) { assert Files(c)[0] == f; }
  }

  lemma {:induction false} PassStepsAre(g: Flags, c: Component, mainSaved: bool, f: File)
    ensures var steps := PassSteps(g, c, mainSaved);
      && (RemoveStep(f) in steps <==> Owner(f) == c && PassRemoves(g, mainSaved))
      && (BackStep(f) in steps <==> Owner(f) == c && g.oldExisted)
  {
    FilesAre(c, f);
    var removals, backs := Removals(Files(c)), Backs(Files(c));
    if f in Files(c) {
      var i :| 0 <= i < |Files(c)| && Files(c)[i] == f;
      assert removals[i] == RemoveStep(f) && backs[i] == BackStep(f);
    }
    assert RemoveStep(f) in removals <==> f in Files(c);
    assert BackStep(f) in backs <==> f in Files(c);
    assert RemoveStep(f) !in backs && BackStep(f) !in removals;
  }

  /** A prefix of a pass as removals and returns of single files. */
  lemma {:induction false} PrefixOutcome(g: Flags, c: Component, cells: Cells, k: nat, f: File)
    requires Full(cells) && k <= |PassSteps(g, c, cells[Main(c)].saved.Some?)|
    ensures var done := PassSteps(g, c, cells[Main(c)].saved.Some?)[..k];
            TakeAll(cells, done)[f] == Outcome(cells[f], RemoveStep(f) in done, BackStep(f) in done)
  {
    var steps := PassSteps(g, c, cells[Main(c)].saved.Some?);
    TakeAllAfter(cells, steps[..k], f);
    AfterOutcome(cells[f], f, steps[..k]);
  }

  lemma {:induction false} PassOutcome(g: Flags, c: Component, cells: Cells, f: File)
    requires Full(cells)
    ensures Pass(g, c, cells)[f] ==
              Outcome(cells[f], Owner(f) == c && PassRemoves(g, cells[Main(c)].saved.Some?), Owner(f) == c && g.oldExisted)
  {
    var steps := PassSteps(g, c, cells[Main(c)].saved.Some?);
    PassStepsAre(g, c, cells[Main(c)].saved.Some?, f);
    PrefixOutcome(g, c, cells, |steps|, f);
    assert steps[..|steps|] == steps;
  }

  /** One complete pass leaves every file of the component as `Returned` says. */
  lemma {:induction false} PassReturns(g: Flags, c: Component, cells: Cells, f: File)
    requires Full(cells) && Owner(f) == c
    ensures Pass(g, c, cells)[f].live == Returned(g, cells[Main(c)].saved.Some?, cells[f])
    ensures Pass(g, c, cells)[f].saved == if g.oldExisted then None else cells[f].saved
  {
    PassOutcome(g, c, cells, f);
  }

  // ---- Replay --------------------------------------------------------------

  /** A prefix of a pass that has returned anything has returned the component itself
      and made every removal. */
  lemma {:induction false} PrefixOrder(g: Flags, c: Component, mainSaved: bool, k: nat, f: File)
    requires k <= |PassSteps(g, c, mainSaved)| && BackStep(f) in PassSteps(g, c, mainSaved)[..k]
    ensures var steps := PassSteps(g, c, mainSaved);
      BackStep(Main(c)) in steps[..k] && forall h :: RemoveStep(h) in steps ==> RemoveStep(h) in steps[..k]
  {
    var steps := PassSteps(g, c, mainSaved);
    var removed := if PassRemoves(g, mainSaved) then |Files(c)| else 0;
    var i :| 0 <= i < k && steps[i] == BackStep(f);
    assert forall x :: 0 <= x < removed ==> steps[x].RemoveStep?;
    assert removed <= i;
    assert steps[removed] == BackStep(Main(c)) && steps[..k][removed] == BackStep(Main(c));
    forall h | RemoveStep(h) in steps ensures RemoveStep(h) in steps[..k] {
      var x :| 0 <= x < |steps| && steps[x] == RemoveStep(h);
      assert x < removed;
      assert steps[..k][x] == RemoveStep(h);
    }
  }

  /** A pass stopped after any of its steps, and then run again to the end. */
  lemma {:induction false} PrefixAddsUp(g: Flags, c: Component, cells: Cells, k: nat, f: File)
    requires Full(cells) && k <= |PassSteps(g, c, cells[Main(c)].saved.Some?)|
    ensures var stopped := TakeAll(cells, PassSteps(g, c, cells[Main(c)].saved.Some?)[..k]);
            Pass(g, c, stopped)[f] == Pass(g, c, cells)[f]
  {
    var mainSaved := cells[Main(c)].saved.Some?;
    var steps := PassSteps(g, c, mainSaved);
    var stopped := TakeAll(cells, steps[..k]);
    PrefixOutcome(g, c, cells, k, f);
    PrefixOutcome(g, c, cells, k, Main(c));
    PassOutcome(g, c, stopped, f);
    PassOutcome(g, c, cells, f);
    PassStepsAre(g, c, mainSaved, f);
    PassStepsAre(g, c, mainSaved, Main(c));
    InPrefix(steps, k, f);
    InPrefix(steps, k, Main(c));
    if BackStep(f) in steps[..k] { PrefixOrder(g, c, mainSaved, k, f); }
    if BackStep(Main(c)) in steps[..k] { PrefixOrder(g, c, mainSaved, k, Main(c)); }
  }

  lemma {:induction false} InPrefix(steps: seq<Step>, k: nat, f: File)
    requires k <= |steps|
    ensures RemoveStep(f) in steps[..k] ==> RemoveStep(f) in steps
    ensures BackStep(f) in steps[..k] ==> BackStep(f) in steps
  {
  }

  /** A pass that stopped anywhere, halfway through a directory included, followed by a
      complete one, ends where one complete pass ends. */
  lemma {:induction false} ReplayAddsUp(g: Flags, c: Component, cells: Cells, stopped: Cells)
    requires Full(cells) && StoppedIn(cells, PassSteps(g, c, cells[Main(c)].saved.Some?), stopped)
    ensures Full(stopped) && Pass(g, c, stopped) == Pass(g, c, cells)
  {
    var steps := PassSteps(g, c, cells[Main(c)].saved.Some?);
    var k: nat :| k <= |steps| && StoppedAt(cells, steps, k, stopped);
    StoppedIsFull(cells, steps, k, stopped);
    forall f: File ensures Pass(g, c, stopped)[f] == Pass(g, c, cells)[f] {
      StoppedAddsUp(g, c, cells, k, stopped, f);
    }
    SameCells(Pass(g, c, stopped), Pass(g, c, cells));
  }

  lemma {:induction false} StoppedIsFull(cells: Cells, steps: seq<Step>, k: nat, stopped: Cells)
    requires Full(cells) && k <= |steps| && StoppedAt(cells, steps, k, stopped)
    ensures Full(stopped)
  {
  }

  lemma {:induction false} SameCells(a: Cells, b: Cells)
    requires Full(a) && Full(b) && forall f: File :: a[f] == b[f]
    ensures a == b
  {
  }

  lemma {:induction false} StoppedAddsUp(g: Flags, c: Component, cells: Cells, k: nat, stopped: Cells, f: File)
    requires Full(cells) && Full(stopped) && k <= |PassSteps(g, c, cells[Main(c)].saved.Some?)|
    requires StoppedAt(cells, PassSteps(g, c, cells[Main(c)].saved.Some?), k, stopped)
    ensures Pass(g, c, stopped)[f] == Pass(g, c, cells)[f]
  {
    PrefixAddsUp(g, c, cells, k, f);
    if stopped != TakeAll(cells, PassSteps(g, c, cells[Main(c)].saved.Some?)[..k]) {
      HalfwayForgotten(g, c, cells, k, stopped, f);
    }
  }

  /** The next pass removes what was half removed. */
  lemma {:induction false} HalfwayForgotten(g: Flags, c: Component, cells: Cells, k: nat, stopped: Cells, f: File)
    requires Full(cells) && k < |PassSteps(g, c, cells[Main(c)].saved.Some?)|
    requires var steps := PassSteps(g, c, cells[Main(c)].saved.Some?);
      steps[k].RemoveStep? && stopped == Take(TakeAll(cells, steps[..k]), HalfStep(steps[k].f))
    ensures Full(stopped) && Pass(g, c, stopped)[f] == Pass(g, c, TakeAll(cells, PassSteps(g, c, cells[Main(c)].saved.Some?)[..k]))[f]
  {
    var mainSaved := cells[Main(c)].saved.Some?;
    var steps := PassSteps(g, c, mainSaved);
    var done := TakeAll(cells, steps[..k]);
    PassOutcome(g, c, stopped, f);
    PassOutcome(g, c, done, f);
    PassStepsAre(g, c, mainSaved, steps[k].f);
    assert RemoveStep(steps[k].f) in steps;
    if BackStep(Main(c)) in steps[..k] { PrefixOrder(g, c, mainSaved, k, Main(c)); RemovalsFirst(g, c, mainSaved, k, Main(c)); }
    PrefixOutcome(g, c, cells, k, Main(c));
  }

  /** No removal comes after a return. */
  lemma {:induction false} RemovalsFirst(g: Flags, c: Component, mainSaved: bool, k: nat, f: File)
    requires k < |PassSteps(g, c, mainSaved)| && BackStep(f) in PassSteps(g, c, mainSaved)[..k]
    ensures !PassSteps(g, c, mainSaved)[k].RemoveStep?
  {
  }

  /** Replaying one journal entry any number of times ends in the state of one pass. */
  lemma {:induction false} PassIdempotent(g: Flags, c: Component, cells: Cells)
    requires Full(cells)
    ensures Pass(g, c, Pass(g, c, cells)) == Pass(g, c, cells)
  {
    AllIsStopped(cells, PassSteps(g, c, cells[Main(c)].saved.Some?));
    ReplayAddsUp(g, c, cells, Pass(g, c, cells));
  }

  // ---- The steps and the disk ----------------------------------------------

  lemma {:induction false} NowsPut(d: Disk, f: File, s: Cell, touched: set<Place>)
    requires f in d.files
    ensures Nows(d.Put(f, s, touched)) == Nows(d)[f := s]
  {
    ThenHas(d.files[f], s, touched);
  }

  lemma {:induction false} NothingToRemove(d: Disk, f: File)
    requires d.Total() && d.Now(f).live.None?
    ensures f in Nows(d) && Take(Nows(d), RemoveStep(f)) == Nows(d)
  {
    assert d.Now(f) == Cell(None, d.Now(f).saved);
  }

  /** One removal, complete or stopped halfway. */
  lemma {:induction false} RemovalStep(
      g: Flags, c: Component, d: Disk, f: File, left: Option<Content>, lib: Library, extra: set<File>)
    requires Guarded(g, c, d, lib, extra) && Owner(f) == c
    requires d.Now(f).live.Some? && g.newInstallStarted
    requires g.oldExisted ==> d.Now(Main(c)).saved.Some?
    requires left == None || (left == Some(Damaged) && f.Main?)
    ensures var d' := d.Put(f, Cell(left, d.Now(f).saved), {LivePlace});
      && Guarded(g, c, d', lib, extra)
      && d'.Now(f) == Cell(left, d.Now(f).saved)
      && f in Nows(d) && Nows(d') == Take(Nows(d), if left.None? then RemoveStep(f) else HalfStep(f))
      && (forall h :: d'.Now(h).saved == d.Now(h).saved)
      && (forall h :: h != f ==> d'.files[h] == d.files[h])
  {
    RemoveKeepsGuard(g, c, d, f, left, lib, extra);
    NowsPut(d, f, Cell(left, d.Now(f).saved), {LivePlace});
    PutHas(d, f, Cell(left, d.Now(f).saved), {LivePlace});
  }

  lemma {:induction false} NowsSame(d: Disk, d': Disk)
    requires d.Total() && d'.Total() && forall f :: d'.Now(f) == d.Now(f)
    ensures Nows(d') == Nows(d)
  {
  }

  lemma {:induction false} NowsFull(d: Disk)
    requires d.Total()
    ensures Full(Nows(d))
  {
  }

  lemma {:induction false} TakeNext(cells: Cells, steps: seq<Step>, k: nat)
    requires Full(cells) && k < |steps|
    ensures TakeAll(cells, steps[..k + 1]) == Take(TakeAll(cells, steps[..k]), steps[k])
  {
    assert steps[..k + 1][..k] == steps[..k];
  }

  /** The removals of one component made one by one, `k` so far and the next stopped. */
  lemma {:induction false} RemovalStopped(from: Cells, steps: seq<Step>, k: nat, to: Cells)
    requires Full(from) && k < |steps| && steps[k].RemoveStep?
    requires var done := TakeAll(from, steps[..k]);
      to == done || (Halvable(done, steps[k].f) && to == Take(done, HalfStep(steps[k].f)))
    ensures StoppedIn(from, steps, to)
  {
    assert StoppedAt(from, steps, k, to);
  }

  /** The moves back of the files that have a saved copy, in order. */
  function Pending(cells: Cells, fs: seq<File>): seq<Move> {
    if fs == [] then []
    else
      var n := |fs| - 1;
      Pending(cells, fs[..n]) + if fs[n] in cells && cells[fs[n]].saved.Some? then [Back(fs[n])] else []
  }

  predicate Distinct(fs: seq<File>) { forall i, j :: 0 <= i < j < |fs| ==> fs[i] != fs[j] }

  lemma {:induction false} PendingAre(cells: Cells, fs: seq<File>)
    requires Full(cells) && Distinct(fs)
    ensures forall m :: m in Pending(cells, fs) <==> m.Back? && m.f in fs && cells[m.f].saved.Some?
    ensures forall i, j :: 0 <= i < j < |Pending(cells, fs)| ==> Pending(cells, fs)[i].f != Pending(cells, fs)[j].f
  {
    if fs != [] {
      var n := |fs| - 1;
      PendingAre(cells, fs[..n]);
      assert fs == fs[..n] + [fs[n]] && fs[n] !in fs[..n];
    }
  }

  lemma {:induction false} PendingSidecarsAre(d: Disk)
    requires d.Total()
    ensures var moves := Pending(Nows(d), SIDECARS);
      && (forall m :: m in moves ==> m.Back? && m.f.Sidecar? && d.Now(m.f).saved.Some?)
      && (forall i, j :: 0 <= i < j < |moves| ==> moves[i].f != moves[j].f)
      && (forall k :: d.Now(Sidecar(k)).saved.Some? ==> Back(Sidecar(k)) in moves)
  {
    NowsFull(d);
    PendingAre(Nows(d), SIDECARS);
    forall k ensures Sidecar(k) in SIDECARS {
      assert SIDECARS[match k case Wal => 0 case Shm => 1 case RollbackJournal => 2] == Sidecar(k);
    }
  }

  /** Nothing to do for the sidecars. */
  lemma {:induction false} NoneDid(d: Disk, c: Component)
    requires d.Total() && (c == Database ==> Pending(Nows(d), SIDECARS) == [])
    ensures Full(Nows(d)) && Did(Nows(d), Backs(SidecarsOf(c)), Nows(d), true)
  {
    if c == Database { PendingIsBacks(d, SIDECARS); } else { assert Backs([]) == []; }
  }

  lemma {:induction false} OthersUntaken(cells: Cells, fs: seq<File>, f: File)
    requires Full(cells) && f !in fs
    ensures TakeAll(cells, Backs(fs))[f] == cells[f]
  {
    TakeAllAfter(cells, Backs(fs), f);
    NotNamed(cells[f], f, Backs(fs));
  }

  lemma {:induction false} NotNamed(s: Cell, f: File, steps: seq<Step>)
    requires forall i :: 0 <= i < |steps| ==> steps[i].f != f
    ensures After(s, f, steps) == s
  {
    if steps != [] { NotNamed(s, f, steps[..|steps| - 1]); }
  }

  /** The moves do what the steps say; files without a saved copy need no move. */
  lemma {:induction false} PendingIsBacks(d: Disk, fs: seq<File>)
    requires d.Total() && Distinct(fs)
    ensures Full(Nows(d)) && Nows(AfterMoves(d, Pending(Nows(d), fs))) == TakeAll(Nows(d), Backs(fs))
  {
    NowsFull(d);
    if fs != [] {
      var n := |fs| - 1;
      PendingIsBacks(d, fs[..n]);
      OthersUntaken(Nows(d), fs[..n], fs[n]);
      assert Backs(fs)[..n] == Backs(fs[..n]);
      OneMoreBack(d, Pending(Nows(d), fs[..n]), fs[n], TakeAll(Nows(d), Backs(fs[..n])));
    }
  }

  lemma {:induction false} OneMoreBack(d: Disk, moves: seq<Move>, f: File, cells: Cells)
    requires d.Total() && Full(cells) && Nows(AfterMoves(d, moves)) == cells && cells[f] == d.Now(f)
    ensures Nows(AfterMoves(d, moves + if d.Now(f).saved.Some? then [Back(f)] else [])) == Take(cells, BackStep(f))
  {
    if d.Now(f).saved.Some? {
      assert (moves + [Back(f)])[..|moves|] == moves;
      var before := AfterMoves(d, moves);
      assert before.Now(f) == cells[f];
      NowsPut(before, f, Cell(before.Now(f).saved, None), {LivePlace, RollbackPlace});
    } else {
      assert moves + [] == moves && cells[f := cells[f]] == cells;
    }
  }

  lemma {:induction false} PendingPrefix(cells: Cells, fs: seq<File>, made: nat) returns (k: nat)
    requires made <= |Pending(cells, fs)|
    ensures k <= |fs| && Pending(cells, fs[..k]) == Pending(cells, fs)[..made]
  {
    if made == |Pending(cells, fs)| {
      k := |fs|;
      assert fs[..k] == fs;
    } else {
      var n := |fs| - 1;
      k := PendingPrefix(cells, fs[..n], made);
      assert fs[..n][..k] == fs[..k];
    }
  }

  /** A batch of moves back, stopped after any of them, and whatever was synced since. */
  lemma {:induction false} BatchBack(d: Disk, fs: seq<File>, made: nat, end: Disk)
    requires d.Total() && Distinct(fs) && made <= |Pending(Nows(d), fs)|
    requires Narrows(AfterMoves(d, Pending(Nows(d), fs)[..made]), end)
    ensures Full(Nows(d)) && StoppedIn(Nows(d), Backs(fs), Nows(end))
    ensures made == |Pending(Nows(d), fs)| ==> Nows(end) == TakeAll(Nows(d), Backs(fs))
  {
    var k := PendingPrefix(Nows(d), fs, made);
    PendingIsBacks(d, fs[..k]);
    NowsSame(AfterMoves(d, Pending(Nows(d), fs)[..made]), end);
    assert Backs(fs)[..k] == Backs(fs[..k]);
    assert StoppedAt(Nows(d), Backs(fs), k, Nows(end));
    if made == |Pending(Nows(d), fs)| {
      PendingIsBacks(d, fs);
      assert Pending(Nows(d), fs)[..made] == Pending(Nows(d), fs);
    }
  }

  lemma {:induction false} BacksOf(c: Component)
    ensures Backs(Files(c)) == Backs([Main(c)]) + Backs(SidecarsOf(c)) && Backs([Main(c)]) == [BackStep(Main(c))]
  {
  }

  /** A component's own file first, then its sidecars, removed or returned. */
  lemma {:induction false} MainThenSidecars(from: Cells, c: Component, back: bool, mid: Cells, end: Cells, first: bool, second: bool)
    requires Full(from) && Did(from, Those([Main(c)], back), mid, first)
    requires if first then Full(mid) && Did(mid, Those(SidecarsOf(c), back), end, second) else end == mid
    ensures Did(from, Those(Files(c), back), end, first && second)
  {
    BacksOf(c);
    var a, b := Those([Main(c)], back), Those(SidecarsOf(c), back);
    assert Those(Files(c), back) == a + b;
    if first { ThenDid(from, a, b, end, second); } else { StoppedEarly(from, a, b, end); }
  }

  function Those(fs: seq<File>, back: bool): seq<Step> { if back then Backs(fs) else Removals(fs) }

  /** The batch of pending sidecars. */
  lemma {:induction false} SidecarsDid(d: Disk, moves: seq<Move>, made: nat, end: Disk, through: bool)
    requires d.Total() && moves == Pending(Nows(d), SIDECARS) && made <= |moves|
    requires Narrows(AfterMoves(d, moves[..made]), end) && (through ==> made == |moves|)
    ensures Full(Nows(d)) && Did(Nows(d), Backs(SIDECARS), Nows(end), through)
  {
    BatchBack(d, SIDECARS, made, end);
  }

  lemma {:induction false} MainDid(d: Disk, f: File, made: nat, end: Disk, through: bool)
    requires d.Total() && d.Now(f).saved.Some? && made <= 1
    requires Narrows(AfterMoves(d, [Back(f)][..made]), end) && (through ==> made == 1)
    ensures Full(Nows(d)) && Did(Nows(d), Backs([f]), Nows(end), through)
  {
    OnePending(d, f);
    BatchBack(d, [f], made, end);
  }

  lemma {:induction false} SidecarsRemoved(from: Cells, d: Disk)
    requires Full(from) && from[Main(Database)].live.None? && d.Total() && Nows(d) == TakeAll(from, Removals(SIDECARS))
    ensures forall f :: Owner(f) == Database ==> d.Now(f).live.None?
  {
    forall f | Owner(f) == Database ensures d.Now(f).live.None? {
      TakeAllAfter(from, Removals(SIDECARS), f);
      AfterOutcome(from[f], f, Removals(SIDECARS));
      if f.Sidecar? {
        assert Removals(SIDECARS)[match f.kind case Wal => 0 case Shm => 1 case RollbackJournal => 2] == RemoveStep(f);
      }
      assert Nows(d)[f] == d.Now(f);
    }
  }

  lemma {:induction false} OneRemoval(from: Cells, f: File, to: Cells, through: bool)
    requires Full(from)
    requires if through then to == Take(from, RemoveStep(f))
             else to == from || (Halvable(from, f) && to == Take(from, HalfStep(f)))
    ensures Did(from, Removals([f]), to, through)
  {
    var steps := Removals([f]);
    assert steps[..0] == [] && steps[..1] == steps;
    TakeNext(from, steps, 0);
    if !through { RemovalStopped(from, steps, 0, to); }
  }

  lemma {:induction false} OnePending(d: Disk, f: File)
    requires d.Total() && d.Now(f).saved.Some?
    ensures Pending(Nows(d), [f]) == [Back(f)]
  {
    assert Pending(Nows(d), [f][..0]) == [];
  }

  lemma {:induction false} PassStepsParts(g: Flags, c: Component, mainSaved: bool)
    ensures g.oldExisted && !mainSaved ==> PassSteps(g, c, mainSaved) == Backs(Files(c))
    ensures !(g.oldExisted && !mainSaved) ==>
              PassSteps(g, c, mainSaved) ==
                (if g.newInstallStarted then Removals(Files(c)) else []) + (if g.oldExisted then Backs(Files(c)) else [])
    ensures Removals(Files(c)) + [] == Removals(Files(c))
  {
  }

  // ---- A whole journal -----------------------------------------------------

  /** A pass over the components of a journal, in order. */
  ghost function PassAll(flags: map<Component, Flags>, cs: seq<Component>, cells: Cells): (r: Cells)
    requires Full(cells) && forall c :: c in cs ==> c in flags
    ensures Full(r)
  {
    if cs == [] then cells
    else
      var n := |cs| - 1;
      Pass(ComponentFlags(flags[cs[n]]), cs[n], PassAll(flags, cs[..n], cells))
  }

  /** Such a pass stopped inside the component `i`, or after the last. */
  ghost predicate StoppedAllAt(flags: map<Component, Flags>, cs: seq<Component>, cells: Cells, i: nat, to: Cells)
    requires Full(cells) && (forall c :: c in cs ==> c in flags) && i <= |cs|
  {
    var before := PassAll(flags, cs[..i], cells);
    if i == |cs| then to == before
    else StoppedIn(before, PassSteps(ComponentFlags(flags[cs[i]]), cs[i], before[Main(cs[i])].saved.Some?), to)
  }

  ghost predicate StoppedAll(flags: map<Component, Flags>, cs: seq<Component>, cells: Cells, to: Cells)
    requires Full(cells) && forall c :: c in cs ==> c in flags
  {
    exists i: nat :: i <= |cs| && StoppedAllAt(flags, cs, cells, i, to)
  }

  /** What a pass over a whole journal did. */
  ghost predicate DidAll(flags: map<Component, Flags>, cs: seq<Component>, from: Cells, to: Cells, through: bool)
  {
    && Full(from) && (forall c :: c in cs ==> c in flags)
    && if through then to == PassAll(flags, cs, from) else StoppedAll(flags, cs, from, to)
  }

  /** One more component of the journal. */
  lemma {:induction false} PassAllNext(
      flags: map<Component, Flags>, cs: seq<Component>, from: Cells, i: nat, d: Disk, d': Disk, through: bool)
    requires Full(from) && (forall c :: c in cs ==> c in flags) && i < |cs| && d.Total()
    requires Nows(d) == PassAll(flags, cs[..i], from)
    requires var c := cs[i];
      Did(Nows(d), PassSteps(ComponentFlags(flags[c]), c, d.Now(Main(c)).saved.Some?), Nows(d'), through)
    ensures if through then Nows(d') == PassAll(flags, cs[..i + 1], from) else StoppedAll(flags, cs, from, Nows(d'))
  {
    assert Nows(d)[Main(cs[i])] == d.Now(Main(cs[i]));
    assert cs[..i + 1][..i] == cs[..i];
    if !through { assert StoppedAllAt(flags, cs, from, i, Nows(d')); }
  }

  lemma {:induction false} PassAllOf(flags: map<Component, Flags>, cs: seq<Component>, cells: Cells, f: File)
    requires Full(cells) && (forall c :: c in cs ==> c in flags)
    requires forall i, j :: 0 <= i < j < |cs| ==> cs[i] != cs[j]
    ensures PassAll(flags, cs, cells)[f] ==
              if Owner(f) in cs then Pass(ComponentFlags(flags[Owner(f)]), Owner(f), cells)[f] else cells[f]
  {
    if cs != [] {
      var n := |cs| - 1;
      var before := PassAll(flags, cs[..n], cells);
      PassAllOf(flags, cs[..n], cells, f);
      PassAllOf(flags, cs[..n], cells, Main(cs[n]));
      assert cs == cs[..n] + [cs[n]];
      PassOutcome(ComponentFlags(flags[cs[n]]), cs[n], before, f);
      PassOutcome(ComponentFlags(flags[cs[n]]), cs[n], cells, f);
    }
  }

  /** A stopped pass over one component leaves the others alone. */
  lemma {:induction false} StoppedOthers(g: Flags, c: Component, from: Cells, to: Cells, f: File)
    requires Full(from) && StoppedIn(from, PassSteps(g, c, from[Main(c)].saved.Some?), to) && Owner(f) != c
    ensures Full(to) && to[f] == from[f]
  {
    var steps := PassSteps(g, c, from[Main(c)].saved.Some?);
    var k: nat :| k <= |steps| && StoppedAt(from, steps, k, to);
    StoppedIsFull(from, steps, k, to);
    PrefixOutcome(g, c, from, k, f);
    PassStepsAre(g, c, from[Main(c)].saved.Some?, f);
    InPrefix(steps, k, f);
    if k < |steps| && steps[k].RemoveStep? { assert RemoveStep(steps[k].f) in steps; PassStepsAre(g, c, from[Main(c)].saved.Some?, steps[k].f); }
  }

  /** What a pass makes of a file depends on it and on the component's main file. */
  lemma {:induction false} PassAlike(g: Flags, c: Component, a: Cells, b: Cells, f: File)
    requires Full(a) && Full(b) && Owner(f) == c && a[f] == b[f] && a[Main(c)] == b[Main(c)]
    ensures Pass(g, c, a)[f] == Pass(g, c, b)[f]
  {
    PassOutcome(g, c, a, f);
    PassOutcome(g, c, b, f);
  }

  /** Replay: a pass over a whole journal that stopped anywhere, followed by a complete
      one, ends where one complete pass ends. */
  lemma {:induction false} JournalReplayAddsUp(flags: map<Component, Flags>, cs: seq<Component>, cells: Cells, stopped: Cells)
    requires Full(cells) && (forall c :: c in cs ==> c in flags)
    requires forall i, j :: 0 <= i < j < |cs| ==> cs[i] != cs[j]
    requires StoppedAll(flags, cs, cells, stopped)
    ensures Full(stopped) && PassAll(flags, cs, stopped) == PassAll(flags, cs, cells)
  {
    var i: nat :| i <= |cs| && StoppedAllAt(flags, cs, cells, i, stopped);
    StoppedAllIsFull(flags, cs, cells, i, stopped);
    forall f: File ensures PassAll(flags, cs, stopped)[f] == PassAll(flags, cs, cells)[f] {
      PassAllOf(flags, cs, stopped, f);
      PassAllOf(flags, cs, cells, f);
      if Owner(f) in cs {
        FileAddsUp(flags, cs, cells, i, stopped, f);
      } else {
        OutsideStays(flags, cs, cells, i, stopped, f);
      }
    }
    SameCells(PassAll(flags, cs, stopped), PassAll(flags, cs, cells));
  }

  lemma {:induction false} StoppedAllIsFull(flags: map<Component, Flags>, cs: seq<Component>, cells: Cells, i: nat, stopped: Cells)
    requires Full(cells) && (forall c :: c in cs ==> c in flags) && i <= |cs|
    requires StoppedAllAt(flags, cs, cells, i, stopped)
    ensures Full(stopped)
  {
    if i < |cs| {
      var before := PassAll(flags, cs[..i], cells);
      var steps := PassSteps(ComponentFlags(flags[cs[i]]), cs[i], before[Main(cs[i])].saved.Some?);
      var k: nat :| k <= |steps| && StoppedAt(before, steps, k, stopped);
      StoppedIsFull(before, steps, k, stopped);
    }
  }

  /** Only the component the pass stopped in differs from the passes before it. */
  lemma {:induction false} StoppedElsewhere(flags: map<Component, Flags>, cs: seq<Component>, cells: Cells, i: nat, stopped: Cells, f: File)
    requires Full(cells) && (forall c :: c in cs ==> c in flags) && i <= |cs|
    requires StoppedAllAt(flags, cs, cells, i, stopped) && (i < |cs| ==> Owner(f) != cs[i])
    ensures Full(stopped) && stopped[f] == PassAll(flags, cs[..i], cells)[f]
  {
    if i < |cs| {
      StoppedOthers(ComponentFlags(flags[cs[i]]), cs[i], PassAll(flags, cs[..i], cells), stopped, f);
    }
  }

  lemma {:induction false} OutsideStays(flags: map<Component, Flags>, cs: seq<Component>, cells: Cells, i: nat, stopped: Cells, f: File)
    requires Full(cells) && (forall c :: c in cs ==> c in flags) && i <= |cs|
    requires forall i, j :: 0 <= i < j < |cs| ==> cs[i] != cs[j]
    requires StoppedAllAt(flags, cs, cells, i, stopped) && Owner(f) !in cs
    ensures Full(stopped) && stopped[f] == cells[f]
  {
    StoppedElsewhere(flags, cs, cells, i, stopped, f);
    PassAllOf(flags, cs[..i], cells, f);
  }

  lemma {:induction false} FileAddsUp(flags: map<Component, Flags>, cs: seq<Component>, cells: Cells, i: nat, stopped: Cells, f: File)
    requires Full(cells) && Full(stopped) && (forall c :: c in cs ==> c in flags) && i <= |cs|
    requires forall i, j :: 0 <= i < j < |cs| ==> cs[i] != cs[j]
    requires StoppedAllAt(flags, cs, cells, i, stopped) && Owner(f) in cs
    ensures var g := ComponentFlags(flags[Owner(f)]); Pass(g, Owner(f), stopped)[f] == Pass(g, Owner(f), cells)[f]
  {
    var c := Owner(f);
    var g := ComponentFlags(flags[c]);
    var before := PassAll(flags, cs[..i], cells);
    PassAllOf(flags, cs[..i], cells, f);
    PassAllOf(flags, cs[..i], cells, Main(c));
    if i < |cs| && c == cs[i] {
      assert c !in cs[..i];
      ReplayAddsUp(g, c, before, stopped);
      PassAlike(g, c, before, cells, f);
    } else {
      StoppedElsewhere(flags, cs, cells, i, stopped, f);
      StoppedElsewhere(flags, cs, cells, i, stopped, Main(c));
      if c in cs[..i] {
        PassAlike(g, c, stopped, Pass(g, c, cells), f);
        PassIdempotent(g, c, cells);
      } else {
        PassAlike(g, c, stopped, cells, f);
      }
    }
  }

  /** What two calls did, the first stopped and the second through, one call does. */
  lemma {:induction false} StoppedThenThrough(flags: map<Component, Flags>, cs: seq<Component>, from: Cells, mid: Cells, to: Cells)
    requires forall i, j :: 0 <= i < j < |cs| ==> cs[i] != cs[j]
    requires DidAll(flags, cs, from, mid, false) && DidAll(flags, cs, mid, to, true)
    ensures DidAll(flags, cs, from, to, true)
  {
    JournalReplayAddsUp(flags, cs, from, mid);
  }

  /** Replaying one journal any number of times ends in the state of one pass. */
  lemma {:induction false} JournalReplayIdempotent(flags: map<Component, Flags>, cs: seq<Component>, cells: Cells)
    requires Full(cells) && (forall c :: c in cs ==> c in flags)
    requires forall i, j :: 0 <= i < j < |cs| ==> cs[i] != cs[j]
    ensures PassAll(flags, cs, PassAll(flags, cs, cells)) == PassAll(flags, cs, cells)
  {
    assert cs[..|cs|] == cs;
    assert StoppedAllAt(flags, cs, cells, |cs|, PassAll(flags, cs, cells));
    JournalReplayAddsUp(flags, cs, cells, PassAll(flags, cs, cells));
  }
}
