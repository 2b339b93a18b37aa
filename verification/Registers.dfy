/** Histories of one revisioned register: a value that several devices edit, each
    naming the revision its edit was based on. */
module Registers {
  datatype Reg<V> = Reg(value: V, revision: nat)

  /** A revision records the value actually changing. */
  predicate Follows<V(==)>(a: Reg<V>, b: Reg<V>) {
    b == a || (b.revision == a.revision + 1 && b.value != a.value)
  }

  /** What happened between two moments: a delivery of a based operation with its
      answer, or something else. */
  datatype Event<V> =
    | Elsewhere
    | Based(base: int, desired: V, acknowledged: bool, changed: bool, serverRevision: int)

  /** What an answer promises about the register. */
  predicate Honest<V(==)>(a: Reg<V>, b: Reg<V>, e: Event<V>)
    requires e.Based?
  {
    if e.acknowledged then
      && b.value == e.desired && e.base <= a.revision
      && (a.value != e.desired ==> e.base == a.revision)
      && (e.changed <==> a.value != e.desired)
      && e.serverRevision == b.revision
    else b == a && !e.changed
  }

  predicate History<V(==)>(h: seq<Reg<V>>, es: seq<Event<V>>) {
    && |h| == |es| + 1
    && (forall i :: 0 <= i < |es| ==> Follows(h[i], h[i + 1]))
    && (forall i :: 0 <= i < |es| && es[i].Based? ==> Honest(h[i], h[i + 1], es[i]))
  }

  /** Revisions never go back, and equal revisions mean equal values. */
  lemma {:induction false} SameRevisionSameValue<V>(h: seq<Reg<V>>, es: seq<Event<V>>, i: nat, j: nat)
    requires History(h, es) && i <= j < |h|
    ensures h[i].revision <= h[j].revision
    ensures h[i].revision == h[j].revision ==> h[i] == h[j]
  {
    if i < j {
      SameRevisionSameValue(h, es, i, j - 1);
      assert Follows(h[j - 1], h[j]);
    }
  }

  /** Equal revisions mean exactly that nothing changed in between; equal values alone
      do not, for a value may change and change back. */
  lemma {:induction false} SameRevisionUnchanged<V>(h: seq<Reg<V>>, es: seq<Event<V>>, i: nat, j: nat)
    requires History(h, es) && i <= j < |h|
    ensures h[i].revision == h[j].revision <==> forall m :: i <= m <= j ==> h[m].value == h[i].value
  {
    if h[i].revision == h[j].revision {
      forall m | i <= m <= j ensures h[m].value == h[i].value {
        SameRevisionSameValue(h, es, i, m);
        SameRevisionSameValue(h, es, m, j);
      }
    } else if i < j {
      SameRevisionUnchanged(h, es, i, j - 1);
      assert Follows(h[j - 1], h[j]);
    }
  }

  /** No lost update: an acknowledged delivery that changed something was based on the
      current revision, so the value it replaced is the one every device saw with that
      revision, and nothing happened to the register since. */
  lemma NoLostUpdate<V>(h: seq<Reg<V>>, es: seq<Event<V>>, i: nat, k: nat)
    requires History(h, es) && i <= k < |es|
    requires es[k].Based? && es[k].acknowledged && es[k].changed && h[i].revision == es[k].base
    ensures h[k] == h[i] && h[k + 1] == Reg(es[k].desired, h[i].revision + 1)
    ensures es[k].serverRevision == es[k].base + 1
    ensures forall m :: i <= m <= k ==> h[m] == h[i]
  {
    assert Honest(h[k], h[k + 1], es[k]) && Follows(h[k], h[k + 1]);
    forall m | i <= m <= k ensures h[m] == h[i] {
      SameRevisionSameValue(h, es, i, m);
      SameRevisionSameValue(h, es, m, k);
    }
  }

  /** Once acknowledged, an operation delivered again changes nothing. */
  lemma AtMostOnce<V>(h: seq<Reg<V>>, es: seq<Event<V>>, i: nat, j: nat)
    requires History(h, es) && i < j < |es|
    requires es[i].Based? && es[i].acknowledged
    requires es[j].Based? && es[j].base == es[i].base && es[j].desired == es[i].desired
    ensures !es[j].changed && h[j + 1] == h[j]
  {
    assert Honest(h[i], h[i + 1], es[i]) && Follows(h[i], h[i + 1]);
    assert Honest(h[j], h[j + 1], es[j]) && Follows(h[j], h[j + 1]);
    SameRevisionSameValue(h, es, i + 1, j);
  }
}
