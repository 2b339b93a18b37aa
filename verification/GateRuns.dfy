/** Every interleaving of threads at the access gate. */
module GateRuns {
  import opened GateSteps

  /** An interleaving from the idle gate. */
  ghost predicate Trace(gs: seq<Gate>, actions: seq<Action>) {
    && |gs| == |actions| + 1 && gs[0] == IDLE
    && (forall i {:trigger Can(gs[i], actions[i])} :: 0 <= i < |actions| ==>
          Can(gs[i], actions[i]) && gs[i + 1] == Step(gs[i], actions[i]))
  }

  lemma {:induction false} RunKeepsValid(gs: seq<Gate>, actions: seq<Action>, n: nat)
    requires Trace(gs, actions) && n < |gs|
    ensures Valid(gs[n])
  {
    if n > 0 {
      RunKeepsValid(gs, actions, n - 1);
      assert Can(gs[n - 1], actions[n - 1]);
      StepKeepsValid(gs[n - 1], actions[n - 1]);
    }
  }

  // ---- Exclusion -----------------------------------------------------------

  /** Which scopes may be open side by side: reads with reads, and reads with one
      mutation or one backup. */
  predicate Compatible(a: Mode, b: Mode) {
    || (a == Read && b != Restore)
    || (b == Read && a != Restore)
  }

  lemma AtMostOne(s: set<Thread>, t: Thread, u: Thread)
    requires t in s && u in s && t != u
    ensures |s| >= 2
  {
    assert |s - {t}| == |s| - 1 && u in s - {t};
  }

  /** Two different threads are never inside scopes that exclude each other. */
  lemma ScopesCompatible(gs: seq<Gate>, actions: seq<Action>, n: nat, t: Thread, u: Thread)
    requires Trace(gs, actions) && n < |gs| && t != u
    requires t in gs[n].threads && u in gs[n].threads && gs[n].threads[t].Inside? && gs[n].threads[u].Inside?
    ensures Compatible(gs[n].threads[t].mode, gs[n].threads[u].mode)
  {
    var g := gs[n];
    RunKeepsValid(gs, actions, n);
    InsideCounts(g, t);
    InsideCounts(g, u);
    if g.threads[t].mode == g.threads[u].mode {
      AtMostOne(Holders(g.threads, g.threads[t].mode), t, u);
      assert Exact(g, g.threads[t].mode);
    }
  }

  /** The waiting counters are the numbers of threads that wait. */
  lemma CountersCount(gs: seq<Gate>, actions: seq<Action>, n: nat)
    requires Trace(gs, actions) && n < |gs|
    ensures gs[n].backupWaiting == |Waiters(gs[n].threads, Backup)|
    ensures gs[n].restoreWaiting == |Waiters(gs[n].threads, Restore)|
    ensures gs[n].activeReads == |Holders(gs[n].threads, Read)|
  {
    RunKeepsValid(gs, actions, n);
    assert Exact(gs[n], Read) && Exact(gs[n], Backup) && Exact(gs[n], Restore);
  }

  // ---- Progress ------------------------------------------------------------

  predicate Empty(g: Gate) { forall t :: t in g.threads ==> !g.threads[t].Inside? }

  /** Whose turn it is when nobody is inside. */
  predicate Next(g: Gate, mode: Mode) {
    match mode
    case Restore => true
    case Backup => Waiters(g.threads, Restore) == {}
    case Mutation => Waiters(g.threads, Restore) == {} && Waiters(g.threads, Backup) == {}
    case Read => Waiters(g.threads, Restore) == {}
  }

  lemma EmptyGate(g: Gate)
    requires Valid(g) && Empty(g)
    ensures g.activeReads == 0 && !g.mutationActive && !g.backupActive && !g.restoreActive
  {
    forall m: Mode ensures Active(g, m) == 0 {
      assert Exact(g, m);
      assert Holders(g.threads, m) == {};
    }
    assert Active(g, Read) == 0 && Active(g, Mutation) == 0 && Active(g, Backup) == 0 && Active(g, Restore) == 0;
  }

  lemma NextNotBlocked(g: Gate, mode: Mode)
    requires Valid(g) && Empty(g) && Next(g, mode)
    ensures !Blocked(g, mode)
  {
    EmptyGate(g);
    assert Exact(g, Restore) && Exact(g, Backup);
  }

  /** When nobody is inside, every waiter whose turn it is has been woken, and gets in
      as soon as it runs. */
  lemma TurnIsTaken(gs: seq<Gate>, actions: seq<Action>, n: nat, t: Thread)
    requires Trace(gs, actions) && n < |gs| && Empty(gs[n])
    requires t in gs[n].threads && Next(gs[n], gs[n].threads[t].mode)
    ensures Can(gs[n], Resume(t)) && t in Step(gs[n], Resume(t)).threads && Step(gs[n], Resume(t)).threads[t].Inside?
  {
    var g := gs[n];
    RunKeepsValid(gs, actions, n);
    NextNotBlocked(g, g.threads[t].mode);
    assert !g.threads[t].Asleep?;
  }

  /** No deadlock: if threads wait and nobody is inside, some woken thread can go in. */
  lemma NoDeadlock(gs: seq<Gate>, actions: seq<Action>, n: nat) returns (t: Thread)
    requires Trace(gs, actions) && n < |gs| && Empty(gs[n]) && gs[n].threads != map[]
    ensures Can(gs[n], Resume(t)) && t in Step(gs[n], Resume(t)).threads && Step(gs[n], Resume(t)).threads[t].Inside?
  {
    var threads := gs[n].threads;
    if Waiters(threads, Restore) != {} {
      t :| t in Waiters(threads, Restore);
    } else if Waiters(threads, Backup) != {} {
      t :| t in Waiters(threads, Backup);
    } else {
      t :| t in threads;
      assert threads[t].mode == Mutation || threads[t].mode == Read by {
        assert t !in Waiters(threads, Restore) && t !in Waiters(threads, Backup);
      }
    }
    TurnIsTaken(gs, actions, n, t);
  }

  // ---- Precedence ----------------------------------------------------------

  /** Threads inside a scope other than a restore. */
  function Others(g: Gate): set<Thread> { set t | t in g.threads && g.threads[t].Inside? && g.threads[t].mode != Restore }

  lemma NobodyPassesRestore(g: Gate, a: Action)
    requires Can(g, a) && g.restoreWaiting > 0
    ensures Others(Step(g, a)) <= Others(g)
  {
  }

  /** While a restore waits, no read, mutation or backup goes in: the scopes that are
      open only become fewer. */
  lemma {:induction false} RestoreIsNotPassed(gs: seq<Gate>, actions: seq<Action>, i: nat, j: nat)
    requires Trace(gs, actions) && i <= j < |gs|
    requires forall m :: i <= m < j ==> gs[m].restoreWaiting > 0
    ensures Others(gs[j]) <= Others(gs[i])
  {
    if i < j {
      RestoreIsNotPassed(gs, actions, i, j - 1);
      assert Can(gs[j - 1], actions[j - 1]);
      NobodyPassesRestore(gs[j - 1], actions[j - 1]);
    }
  }

  lemma NoMutationPassesBackup(g: Gate, a: Action)
    requires Can(g, a) && g.backupWaiting > 0
    ensures Holders(Step(g, a).threads, Mutation) <= Holders(g.threads, Mutation)
  {
  }

  /** While a backup waits, no mutation goes in. */
  lemma {:induction false} BackupIsNotPassed(gs: seq<Gate>, actions: seq<Action>, i: nat, j: nat)
    requires Trace(gs, actions) && i <= j < |gs|
    requires forall m :: i <= m < j ==> gs[m].backupWaiting > 0
    ensures Holders(gs[j].threads, Mutation) <= Holders(gs[i].threads, Mutation)
  {
    if i < j {
      BackupIsNotPassed(gs, actions, i, j - 1);
      assert Can(gs[j - 1], actions[j - 1]);
      NoMutationPassesBackup(gs[j - 1], actions[j - 1]);
    }
  }

  // ---- Who goes in ---------------------------------------------------------

  /** A restore goes before every other kind, a backup before mutations. */
  predicate Before(a: Mode, b: Mode) { (a == Restore && b != Restore) || (a == Backup && b == Mutation) }

  /** Nobody is inside a scope that excludes `mode`, and nobody waits who goes before it. */
  predicate Admits(threads: map<Thread, Status>, mode: Mode) {
    forall u :: u in threads ==>
      if threads[u].Inside? then Compatible(mode, threads[u].mode) else !Before(threads[u].mode, mode)
  }

  lemma {:induction false} NoneOf(s: set<Thread>)
    ensures |s| == 0 <==> forall u :: u !in s
  {
    if |s| != 0 { var u :| u in s; }
  }

  lemma {:induction false} ModeCounts(g: Gate, m: Mode)
    requires Valid(g)
    ensures Active(g, m) == 0 <==> forall u :: u in g.threads && g.threads[u].Inside? ==> g.threads[u].mode != m
    ensures m == Backup ==>
              (g.backupWaiting == 0 <==> forall u :: u in g.threads && !g.threads[u].Inside? ==> g.threads[u].mode != m)
    ensures m == Restore ==>
              (g.restoreWaiting == 0 <==> forall u :: u in g.threads && !g.threads[u].Inside? ==> g.threads[u].mode != m)
  {
    assert Exact(g, m);
    NoneOf(Holders(g.threads, m));
    NoneOf(Waiters(g.threads, m));
    forall u | u in g.threads
      ensures u in Holders(g.threads, m) <==> g.threads[u].Inside? && g.threads[u].mode == m
      ensures u in Waiters(g.threads, m) <==> !g.threads[u].Inside? && g.threads[u].mode == m
    {}
  }

  lemma {:induction false} BlockedIs(g: Gate, mode: Mode)
    requires Valid(g)
    ensures Blocked(g, mode) <==> !Admits(g.threads, mode)
  {
    ModeCounts(g, Read);
    ModeCounts(g, Mutation);
    ModeCounts(g, Backup);
    ModeCounts(g, Restore);
  }

  /** A thread that asks, or looks again, goes in if and only if nobody is inside a scope
      that excludes its own and nobody waits who goes before it; otherwise it sleeps. */
  lemma {:induction false} AdmittedExactly(gs: seq<Gate>, actions: seq<Action>, n: nat)
    requires Trace(gs, actions) && n < |actions| && (actions[n].Arrive? || actions[n].Resume?) && Can(gs[n], actions[n])
    ensures var t := actions[n].t;
      var mode := if actions[n].Arrive? then actions[n].mode else gs[n].threads[t].mode;
      t in gs[n + 1].threads && gs[n + 1].threads[t] == if Admits(gs[n].threads, mode) then Inside(mode) else Asleep(mode)
  {
    RunKeepsValid(gs, actions, n);
    var mode := if actions[n].Arrive? then actions[n].mode else gs[n].threads[actions[n].t].mode;
    BlockedIs(gs[n], mode);
    if actions[n].Arrive? { assert Blocked(Announced(gs[n], mode), mode) <==> Blocked(gs[n], mode); }
  }
}
