/** The durability contract of `fs_durability.py`: what a directory entry looks
    like after a crash, given which changes to it were synced. */
module DirectoryLog {

  /** The directories a restore renames between, seen from one component. */
  datatype Place = LivePlace | RollbackPlace | MaintenancePlace

  /** One change to an entry that no directory sync has confirmed yet. */
  datatype Change<+T> = Change(state: T, touched: set<Place>)

  /** The state of one entry on stable storage, and what the running process did
      to it since. A crash keeps the changes up to some point and drops the rest. */
  datatype Log<T(==)> = Log(durable: T, pending: seq<Change<T>>) {

    /** What the running process sees. */
    function Now(): T {
      if pending == [] then durable else pending[|pending| - 1].state
    }

    /** `s` is what the process sees now, or what a crash may leave. */
    predicate Has(s: T) {
      s == durable || exists i :: 0 <= i < |pending| && pending[i].state == s
    }

    function Then(state: T, touched: set<Place>): Log<T> {
      Log(durable, pending + [Change(state, touched)])
    }

    /** A sync of one directory confirms every change up to the last that touched it. */
    function Synced(place: Place): Log<T> {
      var k := LastTouch(pending, place);
      if k == 0 then this else Log(pending[k - 1].state, pending[k..])
    }

    predicate AllTouch(place: Place) {
      forall i :: 0 <= i < |pending| ==> place in pending[i].touched
    }
  }

  /** The number of leading changes a sync of `place` makes durable. */
  function LastTouch<T>(pending: seq<Change<T>>, place: Place): (k: nat)
    ensures k <= |pending|
    ensures k > 0 ==> place in pending[k - 1].touched
    ensures forall i :: k <= i < |pending| ==> place !in pending[i].touched
  {
    if pending == [] then 0
    else if place in pending[|pending| - 1].touched then |pending|
    else LastTouch(pending[..|pending| - 1], place)
  }

  lemma ThenHas<T>(l: Log<T>, state: T, touched: set<Place>)
    ensures l.Then(state, touched).Now() == state
    ensures forall s :: l.Then(state, touched).Has(s) <==> l.Has(s) || s == state
  {
    var l' := l.Then(state, touched);
    assert l'.pending[|l.pending|].state == state;
    forall s | l.Has(s) ensures l'.Has(s) {
      if s != l.durable {
        var i :| 0 <= i < |l.pending| && l.pending[i].state == s;
        assert l'.pending[i].state == s;
      }
    }
  }

  lemma NowHas<T>(l: Log<T>)
    ensures l.Has(l.Now())
  {
  }

  /** A sync never changes what the process sees, only rules out crash outcomes;
      when every pending change touched the directory it rules out all but one. */
  lemma SyncedNarrows<T>(l: Log<T>, place: Place)
    ensures l.Synced(place).Now() == l.Now()
    ensures forall s :: l.Synced(place).Has(s) ==> l.Has(s)
    ensures l.AllTouch(place) ==> l.Synced(place) == Log(l.Now(), [])
    ensures forall p :: l.AllTouch(p) ==> l.Synced(place).AllTouch(p)
  {
    var k := LastTouch(l.pending, place);
    var l' := l.Synced(place);
    if k > 0 {
      forall s | l'.Has(s) ensures l.Has(s) {
        if s == l'.durable {
          assert l.pending[k - 1].state == s;
        } else {
          var i :| 0 <= i < |l'.pending| && l'.pending[i].state == s;
          assert l.pending[k + i].state == s;
        }
      }
    }
    if l.AllTouch(place) && l.pending != [] {
      assert place in l.pending[|l.pending| - 1].touched;
    }
  }

  /** The state after the first `n` unsynced changes. */
  function StateAfter<T>(l: Log<T>, n: nat): T
    requires n <= |l.pending|
  {
    if n == 0 then l.durable else l.pending[n - 1].state
  }

  /** After a sync of `place` a crash leaves exactly the states behind every change that
      touched it: one prefix of the changes, and at least those. */
  lemma SyncedExactly<T>(l: Log<T>, place: Place, s: T)
    ensures l.Synced(place).Has(s) <==>
              exists n: nat :: n <= |l.pending| && s == StateAfter(l, n) && forall i :: n <= i < |l.pending| ==> place !in l.pending[i].touched
  {
    var k := LastTouch(l.pending, place);
    var l' := l.Synced(place);
    assert k > 0 ==> l'.durable == StateAfter(l, k);
    if l'.Has(s) {
      if s == l'.durable {
        assert s == StateAfter(l, k);
      } else {
        var i :| 0 <= i < |l'.pending| && l'.pending[i].state == s;
        assert l'.pending[i] == l.pending[k + i];
        assert s == StateAfter(l, k + i + 1);
      }
    }
    if n: nat :| n <= |l.pending| && s == StateAfter(l, n) && forall i :: n <= i < |l.pending| ==> place !in l.pending[i].touched {
      assert n >= k;
      if n > k { assert l'.pending[n - 1 - k] == l.pending[n - 1]; }
    }
  }
}
