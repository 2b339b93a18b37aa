/** The library access gate: its counters, and where each thread stands. Every step
    runs under the gate's lock. */
module GateSteps {
  type Thread = nat

  datatype Mode = Read | Mutation | Backup | Restore

  /** Asleep on the condition, woken but not yet back, or inside its scope. */
  datatype Status = Asleep(mode: Mode) | Woken(mode: Mode) | Inside(mode: Mode)

  datatype Gate = Gate(
    activeReads: int,
    mutationActive: bool,
    backupActive: bool,
    restoreActive: bool,
    backupWaiting: int,
    restoreWaiting: int,
    threads: map<Thread, Status>)

  const IDLE := Gate(0, false, false, false, 0, 0, map[])

  /** The condition each kind of scope waits on. */
  predicate Blocked(g: Gate, mode: Mode) {
    match mode
    case Read => g.restoreActive || g.restoreWaiting != 0
    case Mutation => g.mutationActive || g.backupActive || g.backupWaiting != 0 || g.restoreActive || g.restoreWaiting != 0
    case Backup => g.mutationActive || g.backupActive || g.restoreActive || g.restoreWaiting != 0
    case Restore => g.activeReads != 0 || g.mutationActive || g.backupActive || g.restoreActive
  }

  function NotifyAll(threads: map<Thread, Status>): map<Thread, Status> {
    map t | t in threads :: if threads[t].Asleep? then Woken(threads[t].mode) else threads[t]
  }

  /** Backups and restores count themselves as waiting, and stop counting, with a
      notification, however their wait ends. */
  function Announced(g: Gate, mode: Mode): Gate {
    match mode
    case Backup => g.(backupWaiting := g.backupWaiting + 1)
    case Restore => g.(restoreWaiting := g.restoreWaiting + 1)
    case _ => g
  }

  function Withdrawn(g: Gate, mode: Mode): Gate {
    match mode
    case Backup => g.(backupWaiting := g.backupWaiting - 1, threads := NotifyAll(g.threads))
    case Restore => g.(restoreWaiting := g.restoreWaiting - 1, threads := NotifyAll(g.threads))
    case _ => g
  }

  function Taken(g: Gate, mode: Mode): Gate {
    match mode
    case Read => g.(activeReads := g.activeReads + 1)
    case Mutation => g.(mutationActive := true)
    case Backup => g.(backupActive := true)
    case Restore => g.(restoreActive := true)
  }

  function Released(g: Gate, mode: Mode): Gate {
    match mode
    case Read => g.(activeReads := g.activeReads - 1)
    case Mutation => g.(mutationActive := false)
    case Backup => g.(backupActive := false)
    case Restore => g.(restoreActive := false)
  }

  /** A thread that holds the lock looks at its condition: it sleeps or goes in. */
  function Tried(g: Gate, t: Thread, mode: Mode): Gate {
    if Blocked(g, mode) then g.(threads := g.threads[t := Asleep(mode)])
    else Withdrawn(Taken(g.(threads := g.threads[t := Inside(mode)]), mode), mode)
  }

  // ---- Steps ---------------------------------------------------------------

  datatype Action =
    | Arrive(t: Thread, mode: Mode)
    | Resume(t: Thread)
    | Interrupt(t: Thread)
    | Leave(t: Thread)

  /** `Interrupt` is an exception while waiting. */
  predicate Can(g: Gate, a: Action) {
    match a
    case Arrive(t, _) => t !in g.threads
    case Resume(t) => t in g.threads && g.threads[t].Woken?
    case Interrupt(t) => t in g.threads && !g.threads[t].Inside?
    case Leave(t) => t in g.threads && g.threads[t].Inside?
  }

  function Step(g: Gate, a: Action): Gate
    requires Can(g, a)
  {
    match a
    case Arrive(t, mode) => Tried(Announced(g, mode), t, mode)
    case Resume(t) => Tried(g, t, g.threads[t].mode)
    case Interrupt(t) => Withdrawn(g.(threads := g.threads - {t}), g.threads[t].mode)
    case Leave(t) =>
      var after := Released(g.(threads := g.threads - {t}), g.threads[t].mode);
      after.(threads := NotifyAll(after.threads))
  }

  // ---- Invariant -----------------------------------------------------------

  /** The threads inside a scope of this kind. */
  function Holders(threads: map<Thread, Status>, mode: Mode): set<Thread> {
    set t | t in threads && threads[t] == Inside(mode)
  }

  /** The threads waiting for one, asleep or not. */
  function Waiters(threads: map<Thread, Status>, mode: Mode): set<Thread> {
    set t | t in threads && !threads[t].Inside? && threads[t].mode == mode
  }

  function Active(g: Gate, mode: Mode): int {
    match mode
    case Read => g.activeReads
    case Mutation => if g.mutationActive then 1 else 0
    case Backup => if g.backupActive then 1 else 0
    case Restore => if g.restoreActive then 1 else 0
  }

  /** The counters and flags of a mode count its threads. */
  predicate Exact(g: Gate, mode: Mode) {
    && Active(g, mode) == |Holders(g.threads, mode)|
    && (mode == Backup ==> g.backupWaiting == |Waiters(g.threads, mode)|)
    && (mode == Restore ==> g.restoreWaiting == |Waiters(g.threads, mode)|)
  }

  predicate Exclusive(g: Gate) {
    && (g.restoreActive ==> g.activeReads == 0 && !g.mutationActive && !g.backupActive)
    && !(g.mutationActive && g.backupActive)
  }

  /** No wake-up is lost: whoever sleeps has reason to. */
  predicate SleepersBlocked(g: Gate) {
    forall t :: t in g.threads && g.threads[t].Asleep? ==> Blocked(g, g.threads[t].mode)
  }

  ghost predicate Valid(g: Gate) { (forall mode: Mode :: Exact(g, mode)) && Exclusive(g) && SleepersBlocked(g) }

  // ---- Counting ------------------------------------------------------------

  lemma NotifyKeepsSets(threads: map<Thread, Status>, mode: Mode)
    ensures Holders(NotifyAll(threads), mode) == Holders(threads, mode)
    ensures Waiters(NotifyAll(threads), mode) == Waiters(threads, mode)
  {
  }

  lemma PutSets(threads: map<Thread, Status>, t: Thread, s: Status, mode: Mode)
    ensures Holders(threads[t := s], mode) == Holders(threads, mode) - {t} + if s == Inside(mode) then {t} else {}
    ensures Waiters(threads[t := s], mode) ==
              Waiters(threads, mode) - {t} + if !s.Inside? && s.mode == mode then {t} else {}
  {
  }

  lemma RemoveSets(threads: map<Thread, Status>, t: Thread, mode: Mode)
    ensures Holders(threads - {t}, mode) == Holders(threads, mode) - {t}
    ensures Waiters(threads - {t}, mode) == Waiters(threads, mode) - {t}
  {
  }

  /** `after` has `h` more holders and `w` more waiters of mode `m`. */
  predicate Counted(before: map<Thread, Status>, after: map<Thread, Status>, m: Mode, h: int, w: int) {
    |Holders(after, m)| == |Holders(before, m)| + h && |Waiters(after, m)| == |Waiters(before, m)| + w
  }

  function One(b: bool): int { if b then 1 else 0 }

  lemma NotifiedCounts(before: map<Thread, Status>, after: map<Thread, Status>, m: Mode, h: int, w: int)
    requires Counted(before, after, m, h, w)
    ensures Counted(before, NotifyAll(after), m, h, w)
  {
    NotifyKeepsSets(after, m);
  }

  lemma SleptCounts(threads: map<Thread, Status>, t: Thread, mode: Mode, m: Mode)
    requires t in Waiters(threads, mode)
    ensures Counted(threads, threads[t := Asleep(mode)], m, 0, 0)
  {
    PutSets(threads, t, Asleep(mode), m);
    assert Waiters(threads[t := Asleep(mode)], m) == Waiters(threads, m);
    assert Holders(threads[t := Asleep(mode)], m) == Holders(threads, m);
  }

  lemma Swap(a: set<Thread>, b: set<Thread>, t: Thread, joins: bool)
    requires t !in a && b == a + if joins then {t} else {}
    ensures |b| == |a| + One(joins)
  {
  }

  lemma EnteredCounts(threads: map<Thread, Status>, t: Thread, mode: Mode, m: Mode)
    requires t in Waiters(threads, mode)
    ensures Counted(threads, threads[t := Inside(mode)], m, One(m == mode), -One(m == mode))
  {
    HoldersGrow(threads, t, Inside(mode), m);
    WaitersGrow(threads[t := Inside(mode)], t, threads[t], m);
    assert threads[t := Inside(mode)][t := threads[t]] == threads;
  }

  lemma ComeCounts(threads: map<Thread, Status>, t: Thread, mode: Mode, m: Mode)
    requires t !in threads
    ensures Counted(threads, threads[t := Woken(mode)], m, 0, One(m == mode))
  {
    HoldersGrow(threads, t, Woken(mode), m);
    WaitersGrow(threads, t, Woken(mode), m);
  }

  lemma HoldersGrow(threads: map<Thread, Status>, t: Thread, s: Status, m: Mode)
    requires t !in Holders(threads, m)
    ensures |Holders(threads[t := s], m)| == |Holders(threads, m)| + One(s == Inside(m))
  {
    PutSets(threads, t, s, m);
    assert Holders(threads, m) - {t} == Holders(threads, m);
    Swap(Holders(threads, m), Holders(threads[t := s], m), t, s == Inside(m));
  }

  lemma WaitersGrow(threads: map<Thread, Status>, t: Thread, s: Status, m: Mode)
    requires t !in Waiters(threads, m)
    ensures |Waiters(threads[t := s], m)| == |Waiters(threads, m)| + One(!s.Inside? && s.mode == m)
  {
    PutSets(threads, t, s, m);
    assert Waiters(threads, m) - {t} == Waiters(threads, m);
    Swap(Waiters(threads, m), Waiters(threads[t := s], m), t, !s.Inside? && s.mode == m);
  }

  lemma GoneCounts(threads: map<Thread, Status>, t: Thread, m: Mode)
    requires t in threads
    ensures Counted(threads, threads - {t}, m,
                    -One(threads[t] == Inside(m)), -One(!threads[t].Inside? && threads[t].mode == m))
  {
    RemoveSets(threads, t, m);
    if threads[t] != Inside(m) { assert Holders(threads - {t}, m) == Holders(threads, m); }
    if threads[t].Inside? || threads[t].mode != m { assert Waiters(threads - {t}, m) == Waiters(threads, m); }
  }

  /** A thread that waits in `mode` and tries stays counted as it should be. */
  lemma TriedExact(g: Gate, t: Thread, mode: Mode, m: Mode)
    requires t in Waiters(g.threads, mode) && Exact(g, m)
    ensures Exact(Tried(g, t, mode), m)
  {
    SleptCounts(g.threads, t, mode, m);
    EnteredCounts(g.threads, t, mode, m);
    NotifiedCounts(g.threads, g.threads[t := Inside(mode)], m, One(m == mode), -One(m == mode));
  }

  /** Arriving is waiting and trying at once. */
  lemma ArrivedExact(g: Gate, t: Thread, mode: Mode, m: Mode)
    requires t !in g.threads && Exact(g, m)
    ensures Exact(Step(g, Arrive(t, mode)), m)
  {
    ComeCounts(g.threads, t, mode, m);
    TriedExact(Announced(g, mode).(threads := g.threads[t := Woken(mode)]), t, mode, m);
    TriedForgets(Announced(g, mode), t, mode);
  }

  lemma TriedForgets(g: Gate, t: Thread, mode: Mode)
    ensures Tried(g.(threads := g.threads[t := Woken(mode)]), t, mode) == Tried(g, t, mode)
  {
    assert g.threads[t := Woken(mode)][t := Inside(mode)] == g.threads[t := Inside(mode)];
    assert g.threads[t := Woken(mode)][t := Asleep(mode)] == g.threads[t := Asleep(mode)];
  }

  lemma InterruptedExact(g: Gate, t: Thread, m: Mode)
    requires Can(g, Interrupt(t)) && Exact(g, m)
    ensures Exact(Step(g, Interrupt(t)), m)
  {
    GoneCounts(g.threads, t, m);
    NotifiedCounts(g.threads, g.threads - {t}, m, 0, -One(g.threads[t].mode == m));
  }

  lemma LeftExact(g: Gate, t: Thread, m: Mode)
    requires Can(g, Leave(t)) && Exact(g, m)
    ensures Exact(Step(g, Leave(t)), m)
  {
    GoneCounts(g.threads, t, m);
    NotifiedCounts(g.threads, g.threads - {t}, m, -One(g.threads[t].mode == m), 0);
  }

  lemma StepExact(g: Gate, a: Action, m: Mode)
    requires Can(g, a) && Exact(g, m)
    ensures Exact(Step(g, a), m)
  {
    match a
    case Arrive(t, mode) => ArrivedExact(g, t, mode, m);
    case Resume(t) => TriedExact(g, t, g.threads[t].mode, m);
    case Interrupt(t) => InterruptedExact(g, t, m);
    case Leave(t) => LeftExact(g, t, m);
  }

  /** A scope that is left was active. */
  lemma InsideCounts(g: Gate, t: Thread)
    requires t in g.threads && g.threads[t].Inside? && Exact(g, g.threads[t].mode)
    ensures Active(g, g.threads[t].mode) >= 1
  {
    assert t in Holders(g.threads, g.threads[t].mode);
  }

  lemma NotNegative(g: Gate)
    requires forall m: Mode :: Exact(g, m)
    ensures g.activeReads >= 0 && g.backupWaiting >= 0 && g.restoreWaiting >= 0
  {
    assert Exact(g, Read) && Exact(g, Backup) && Exact(g, Restore);
  }

  /** Only an end of waiting or of a scope can unblock a sleeper, and both notify. */
  lemma StepKeepsRest(g: Gate, a: Action)
    requires Can(g, a) && Valid(g)
    ensures Exclusive(Step(g, a)) && SleepersBlocked(Step(g, a))
  {
    NotNegative(g);
    match a
    case Arrive(t, mode) => TriedKeepsRest(Announced(g, mode), t, mode);
    case Resume(t) => TriedKeepsRest(g, t, g.threads[t].mode);
    case Interrupt(t) =>
    case Leave(t) => InsideCounts(g, t);
  }

  lemma TriedKeepsRest(g: Gate, t: Thread, mode: Mode)
    requires Exclusive(g) && SleepersBlocked(g) && g.activeReads >= 0
    ensures Exclusive(Tried(g, t, mode)) && SleepersBlocked(Tried(g, t, mode))
  {
  }

  lemma StepKeepsValid(g: Gate, a: Action)
    requires Can(g, a) && Valid(g)
    ensures Valid(Step(g, a))
  {
    forall m: Mode ensures Exact(Step(g, a), m) { StepExact(g, a, m); }
    StepKeepsRest(g, a);
  }
}
