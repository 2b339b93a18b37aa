/** Parent pointers: a map from each folder to its parent, "" above the roots. */
module FolderTree {
  type Id = string
  type Parents = map<Id, Id>

  /** The `n`-th ancestor. */
  function Up(p: Parents, id: Id, n: nat): Id
    decreases n
  {
    if n == 0 then id else if id in p then Up(p, p[id], n - 1) else ""
  }

  ghost predicate Rooted(p: Parents, id: Id) { exists n: nat :: Up(p, id, n) == "" }

  ghost predicate Forest(p: Parents) {
    && "" !in p
    && (forall id :: id in p ==> p[id] == "" || p[id] in p)
    && (forall id :: id in p ==> Rooted(p, id))
  }

  /** `id` lies strictly below `a`. */
  ghost predicate Below(p: Parents, a: Id, id: Id) {
    id in p && exists n: nat :: n > 0 && Up(p, id, n) == a
  }

  lemma {:induction false} UpTwice(p: Parents, id: Id, m: nat, n: nat)
    requires "" !in p
    ensures Up(p, id, m + n) == Up(p, Up(p, id, m), n)
    decreases m
  {
    if m > 0 {
      if id in p { UpTwice(p, p[id], m - 1, n); } else { UpNothing(p, n); }
    }
  }

  lemma {:induction false} UpNothing(p: Parents, n: nat)
    requires "" !in p
    ensures Up(p, "", n) == ""
  {
  }

  lemma {:induction false} UpRepeats(p: Parents, id: Id, n: nat, k: nat)
    requires "" !in p && Up(p, id, n) == id
    ensures Up(p, id, n * k) == id
  {
    if k > 0 {
      UpRepeats(p, id, n, k - 1);
      UpTwice(p, id, n, n * (k - 1));
      assert n + n * (k - 1) == n * k;
    }
  }

  ghost predicate OwnAncestor(p: Parents, id: Id) { exists n: nat :: n > 0 && Up(p, id, n) == id }

  /** A folder in a forest is never its own ancestor. */
  lemma NoCycle(p: Parents, id: Id)
    requires Forest(p) && id in p
    ensures !OwnAncestor(p, id)
  {
    if OwnAncestor(p, id) {
      var n: nat :| n > 0 && Up(p, id, n) == id;
      var m: nat :| Up(p, id, m) == "";
      UpNothing(p, (n - 1) * m);
      UpTwice(p, id, m, (n - 1) * m);
      assert m + (n - 1) * m == n * m;
      UpRepeats(p, id, n, m);
    }
  }

  /** A chain that does not pass `f` does not notice where `f` goes. */
  lemma {:induction false} SameChain(p: Parents, q: Parents, f: Id, id: Id, n: nat)
    requires forall x :: x != f ==> (x in p <==> x in q) && (x in p ==> p[x] == q[x])
    requires forall k: nat :: k < n ==> Up(p, id, k) != f
    ensures Up(q, id, n) == Up(p, id, n)
    decreases n
  {
    if n > 0 {
      assert Up(p, id, 0) == id;
      if id in p {
        forall k: nat | k < n - 1 ensures Up(p, p[id], k) != f {
          assert Up(p, id, k + 1) == Up(p, p[id], k);
        }
        SameChain(p, q, f, p[id], n - 1);
      }
    }
  }

  lemma {:induction false} ChainTo(p: Parents, q: Parents, f: Id, id: Id, n: nat) returns (k: nat)
    requires forall x :: x != f ==> (x in p <==> x in q) && (x in p ==> p[x] == q[x])
    ensures k <= n && Up(q, id, k) == Up(p, id, k)
    ensures k == n || Up(p, id, k) == f
  {
    k := FirstVisit(p, f, id, n);
    SameChain(p, q, f, id, k);
  }

  lemma {:induction false} FirstVisit(p: Parents, f: Id, id: Id, n: nat) returns (k: nat)
    ensures k <= n && forall i: nat :: i < k ==> Up(p, id, i) != f
    ensures k == n || Up(p, id, k) == f
  {
    if n == 0 {
      k := 0;
    } else {
      k := FirstVisit(p, f, id, n - 1);
      if k == n - 1 && Up(p, id, k) != f { k := n; }
    }
  }

  /** Chains stay in the forest. */
  lemma {:induction false} UpStays(p: Parents, id: Id, n: nat)
    requires Forest(p) && (id in p || id == "")
    ensures Up(p, id, n) in p || Up(p, id, n) == ""
    decreases n
  {
    if n > 0 && id in p { UpStays(p, p[id], n - 1); }
  }

  lemma StillRooted(p: Parents, q: Parents, f: Id, id: Id)
    requires "" !in q
    requires forall x :: x != f ==> (x in p <==> x in q) && (x in p ==> p[x] == q[x])
    requires Rooted(p, id) && Rooted(q, f)
    ensures Rooted(q, id)
  {
    var n: nat :| Up(p, id, n) == "";
    var k := ChainTo(p, q, f, id, n);
    if k < n {
      var m: nat :| Up(q, f, m) == "";
      UpTwice(q, id, k, m);
      assert Up(q, id, k + m) == "";
    }
  }

  ghost predicate MayMove(p: Parents, f: Id, to: Id) {
    to == "" || (to in p && to != f && !Below(p, f, to))
  }

  lemma MovedIsForest(p: Parents, f: Id, to: Id)
    requires Forest(p) && f in p && MayMove(p, f, to)
    ensures Forest(p[f := to])
  {
    var q := p[f := to];
    assert Rooted(q, f) by {
      if to == "" {
        assert Up(q, f, 1) == "";
      } else {
        var n: nat :| Up(p, to, n) == "";
        forall k: nat | k < n ensures Up(p, to, k) != f {
          if k == 0 { assert Up(p, to, 0) == to; }
        }
        SameChain(p, q, f, to, n);
        assert Up(q, f, n + 1) == "";
      }
    }
    forall id | id in q ensures Rooted(q, id) {
      if id != f { StillRooted(p, q, f, id); }
    }
  }

  /** Moving under oneself or a descendant closes a cycle. */
  lemma MovedIsCycle(p: Parents, f: Id, to: Id)
    requires Forest(p) && f in p && to in p && (to == f || Below(p, f, to))
    ensures OwnAncestor(p[f := to], f) && !Forest(p[f := to])
  {
    var q := p[f := to];
    var n: nat :| Up(p, to, n) == f && (n > 0 || to == f);
    var k := ChainTo(p, q, f, to, n);
    assert Up(q, f, k + 1) == Up(q, to, k);
    assert Up(q, f, k + 1) == f;
    if Forest(q) { NoCycle(q, f); }
  }

  /** The guard on moves is exact. */
  lemma MoveKeepsForest(p: Parents, f: Id, to: Id)
    requires Forest(p) && f in p
    ensures Forest(p[f := to]) <==> MayMove(p, f, to)
  {
    if MayMove(p, f, to) {
      MovedIsForest(p, f, to);
    } else if to in p {
      MovedIsCycle(p, f, to);
    } else {
      assert p[f := to][f] == to && to !in p[f := to];
    }
  }

  lemma AddKeepsForest(p: Parents, id: Id, parent: Id)
    requires Forest(p) && id !in p && id != "" && (parent == "" || parent in p)
    ensures Forest(p[id := parent])
  {
    var q := p[id := parent];
    forall x | x in p ensures Rooted(q, x) {
      var n: nat :| Up(p, x, n) == "";
      forall k: nat | k < n ensures Up(p, x, k) != id { UpStays(p, x, k); }
      SameChain(p, q, id, x, n);
    }
    if parent == "" {
      assert Up(q, id, 1) == "";
    } else {
      var n: nat :| Up(q, parent, n) == "";
      assert Up(q, id, n + 1) == "";
    }
  }

  lemma RemoveKeepsForest(p: Parents, id: Id)
    requires Forest(p) && forall x :: x in p ==> p[x] != id
    ensures Forest(p - {id})
  {
    var q := p - {id};
    assert Up(q, id, 1) == "";
    forall x | x in q ensures Rooted(q, x) { StillRooted(p, q, id, x); }
  }

  /** A set closed under children, holding those of `f`, holds all that is below `f`. */
  lemma {:induction false} ClosedHoldsBelow(p: Parents, f: Id, sub: set<Id>, id: Id, n: nat)
    requires "" !in p && f in p && n > 0 && id in p && Up(p, id, n) == f
    requires forall x :: x in p && (p[x] == f || p[x] in sub) ==> x in sub
    ensures id in sub
    decreases n
  {
    if n > 1 {
      if p[id] in p {
        ClosedHoldsBelow(p, f, sub, p[id], n - 1);
      }
    }
  }

  lemma ChildBelow(p: Parents, f: Id, x: Id)
    requires x in p && (p[x] == f || Below(p, f, p[x]))
    ensures Below(p, f, x)
  {
    if p[x] == f {
      assert Up(p, x, 1) == f;
    } else {
      var n: nat :| n > 0 && Up(p, p[x], n) == f;
      assert Up(p, x, n + 1) == f;
    }
  }
}
