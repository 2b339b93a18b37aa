/** The gate itself: each method is what a thread does while it holds the lock. */
module AccessGate {
  import opened GateSteps

  class LibraryAccessGate {
    var activeReads: int
    var mutationActive: bool
    var backupActive: bool
    var restoreActive: bool
    var backupWaiting: int
    var restoreWaiting: int
    /** The condition variable's sleepers, and where every other thread is. */
    var threads: map<Thread, Status>

    constructor ()
      ensures State() == IDLE && Valid(State())
    {
      activeReads, mutationActive, backupActive, restoreActive := 0, false, false, false;
      backupWaiting, restoreWaiting, threads := 0, 0, map[];
    }

    function State(): Gate reads this {
      Gate(activeReads, mutationActive, backupActive, restoreActive, backupWaiting, restoreWaiting, threads)
    }

    method Notify()
      modifies this`threads
      ensures threads == NotifyAll(old(threads))
    {
      var left := set t | t in threads && threads[t].Asleep?;
      while left != {}
        invariant left <= threads.Keys && threads.Keys == old(threads).Keys
        invariant forall t :: t in left <==> t in threads && threads[t].Asleep?
        invariant forall t :: t in threads ==>
          threads[t] == if t in left || !old(threads)[t].Asleep? then old(threads)[t] else Woken(old(threads)[t].mode)
      {
        var t :| t in left;
        threads := threads[t := Woken(threads[t].mode)];
        left := left - {t};
      }
    }

    /** One turn of a waiting loop: back to sleep, or in. */
    method Try(t: Thread, mode: Mode)
      modifies this
      ensures State() == Tried(old(State()), t, mode)
    {
      match mode {
        case Read =>
          if restoreActive || restoreWaiting != 0 { Sleep(t, mode); return; }
          activeReads := activeReads + 1;
          threads := threads[t := Inside(mode)];
        case Mutation =>
          if mutationActive || backupActive || backupWaiting != 0 || restoreActive || restoreWaiting != 0 { Sleep(t, mode); return; }
          mutationActive := true;
          threads := threads[t := Inside(mode)];
        case Backup =>
          if mutationActive || backupActive || restoreActive || restoreWaiting != 0 { Sleep(t, mode); return; }
          backupActive := true;
          threads := threads[t := Inside(mode)];
          StopWaiting(mode);
        case Restore =>
          if activeReads != 0 || mutationActive || backupActive || restoreActive { Sleep(t, mode); return; }
          restoreActive := true;
          threads := threads[t := Inside(mode)];
          StopWaiting(mode);
      }
    }

    method Sleep(t: Thread, mode: Mode)
      modifies this`threads
      ensures threads == old(threads)[t := Asleep(mode)]
    {
      threads := threads[t := Asleep(mode)];
    }

    /** The clean-up around a backup's or restore's wait. */
    method StopWaiting(mode: Mode)
      modifies this
      ensures State() == Withdrawn(old(State()), mode)
    {
      if mode == Backup {
        backupWaiting := backupWaiting - 1;
        Notify();
      } else if mode == Restore {
        restoreWaiting := restoreWaiting - 1;
        Notify();
      }
    }

    method Arrive(t: Thread, mode: Mode)
      requires Valid(State()) && t !in threads
      modifies this
      ensures State() == Step(old(State()), Action.Arrive(t, mode)) && Valid(State())
    {
      StepKeepsValid(State(), Action.Arrive(t, mode));
      if mode == Backup { backupWaiting := backupWaiting + 1; }
      if mode == Restore { restoreWaiting := restoreWaiting + 1; }
      Try(t, mode);
    }

    method Resume(t: Thread)
      requires Valid(State()) && t in threads && threads[t].Woken?
      modifies this
      ensures State() == Step(old(State()), Action.Resume(t)) && Valid(State())
    {
      StepKeepsValid(State(), Action.Resume(t));
      Try(t, threads[t].mode);
    }

    /** An exception while waiting: the scope is never entered. */
    method Interrupt(t: Thread)
      requires Valid(State()) && t in threads && !threads[t].Inside?
      modifies this
      ensures State() == Step(old(State()), Action.Interrupt(t)) && Valid(State())
    {
      StepKeepsValid(State(), Action.Interrupt(t));
      var mode := threads[t].mode;
      threads := threads - {t};
      StopWaiting(mode);
    }

    method Leave(t: Thread)
      requires Valid(State()) && t in threads && threads[t].Inside?
      modifies this
      ensures State() == Step(old(State()), Action.Leave(t)) && Valid(State())
    {
      StepKeepsValid(State(), Action.Leave(t));
      match threads[t].mode {
        case Read => activeReads := activeReads - 1;
        case Mutation => mutationActive := false;
        case Backup => backupActive := false;
        case Restore => restoreActive := false;
      }
      threads := threads - {t};
      Notify();
    }
  }
}
