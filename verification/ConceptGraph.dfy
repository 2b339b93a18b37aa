/** Paths in a graph of Concepts and their parents, which may be several. */
module ConceptGraph {
  type Id = string
  type Edges = set<(Id, Id)>

  /** `b` is `n` parent steps above `a`. */
  ghost predicate Reach(e: Edges, a: Id, b: Id, n: nat)
    decreases n
  {
    if n == 0 then a == b else exists m :: (a, m) in e && Reach(e, m, b, n - 1)
  }

  ghost predicate Above(e: Edges, a: Id, b: Id) { exists n: nat :: Reach(e, a, b, n) }

  ghost predicate Acyclic(e: Edges) { forall x, n: nat :: n > 0 ==> !Reach(e, x, x, n) }

  lemma {:induction false} ReachOn(e: Edges, a: Id, b: Id, c: Id, m: nat, n: nat)
    requires Reach(e, a, b, m) && Reach(e, b, c, n)
    ensures Reach(e, a, c, m + n)
    decreases m
  {
    if m > 0 {
      var x :| (a, x) in e && Reach(e, x, b, m - 1);
      ReachOn(e, x, b, c, m - 1, n);
      assert m + n > 0 && m + n - 1 == m - 1 + n;
    }
  }

  lemma StepAbove(e: Edges, a: Id, b: Id, c: Id)
    requires Above(e, a, b) && (b, c) in e
    ensures Above(e, a, c)
  {
    var n: nat :| Reach(e, a, b, n);
    assert Reach(e, c, c, 0);
    assert Reach(e, b, c, 1);
    ReachOn(e, a, b, c, n, 1);
  }

  /** The parents of `c` become `parents`. */
  function Reparented(e: Edges, c: Id, parents: set<Id>): Edges {
    (set x | x in e && x.0 != c) + (set p | p in parents :: (c, p))
  }

  /** A path in the new graph is a path in the old one, or first comes to `c`. */
  lemma {:induction false} PathOrThrough(e: Edges, c: Id, parents: set<Id>, a: Id, b: Id, n: nat) returns (k: nat)
    requires Reach(Reparented(e, c, parents), a, b, n)
    ensures k <= n
    ensures (k == n && Reach(e, a, b, n))
            || (k < n && Reach(e, a, c, k) && Reach(Reparented(e, c, parents), c, b, n - k))
    decreases n
  {
    if n == 0 {
      k := 0;
    } else if a == c {
      k := 0;
      assert Reach(e, a, c, 0);
    } else {
      var m :| (a, m) in Reparented(e, c, parents) && Reach(Reparented(e, c, parents), m, b, n - 1);
      k := PathOrThrough(e, c, parents, m, b, n - 1);
      k := k + 1;
    }
  }

  /** Taking parents none of which is below `c` closes no cycle. */
  lemma ReparentedAcyclic(e: Edges, c: Id, parents: set<Id>)
    requires Acyclic(e) && forall p :: p in parents ==> !Above(e, p, c)
    ensures Acyclic(Reparented(e, c, parents))
  {
    var e' := Reparented(e, c, parents);
    forall x, n: nat | n > 0 ensures !Reach(e', x, x, n) {
      if Reach(e', x, x, n) {
        var k := PathOrThrough(e, c, parents, x, x, n);
        if k < n {
          var p :| (c, p) in e' && Reach(e', p, x, n - k - 1);
          NoWayBack(e, c, parents, p, x, n - k - 1, k);
        }
      }
    }
  }

  lemma NoWayBack(e: Edges, c: Id, parents: set<Id>, p: Id, x: Id, m: nat, k: nat)
    requires p in parents && !Above(e, p, c)
    requires Reach(e, x, c, k)
    ensures !Reach(Reparented(e, c, parents), p, x, m)
  {
    if Reach(Reparented(e, c, parents), p, x, m) {
      var j := PathOrThrough(e, c, parents, p, x, m);
      if j == m { ReachOn(e, p, x, c, m, k); }
    }
  }

  /** Taking a parent at or below `c` does close a cycle. */
  lemma ReparentedCyclic(e: Edges, c: Id, parents: set<Id>, p: Id)
    requires p in parents && Above(e, p, c)
    ensures !Acyclic(Reparented(e, c, parents))
  {
    var e' := Reparented(e, c, parents);
    var n: nat :| Reach(e, p, c, n);
    var k := FirstAt(e, c, parents, p, n);
    assert (c, p) in e' && Reach(e', c, c, k + 1);
  }

  lemma {:induction false} FirstAt(e: Edges, c: Id, parents: set<Id>, a: Id, n: nat) returns (k: nat)
    requires Reach(e, a, c, n)
    ensures Reach(Reparented(e, c, parents), a, c, k)
    decreases n
  {
    if a == c {
      k := 0;
    } else {
      var m :| (a, m) in e && Reach(e, m, c, n - 1);
      k := FirstAt(e, c, parents, m, n - 1);
      k := k + 1;
    }
  }

  /** The cycle check is exact. */
  lemma GuardIsExact(e: Edges, c: Id, parents: set<Id>)
    requires Acyclic(e)
    ensures Acyclic(Reparented(e, c, parents)) <==> forall p :: p in parents ==> !Above(e, p, c)
  {
    if p :| p in parents && Above(e, p, c) {
      ReparentedCyclic(e, c, parents, p);
    } else {
      ReparentedAcyclic(e, c, parents);
    }
  }

  lemma {:induction false} FewerPaths(e: Edges, fewer: Edges, a: Id, b: Id, n: nat)
    requires fewer <= e && Reach(fewer, a, b, n)
    ensures Reach(e, a, b, n)
    decreases n
  {
    if n > 0 {
      var m :| (a, m) in fewer && Reach(fewer, m, b, n - 1);
      FewerPaths(e, fewer, m, b, n - 1);
    }
  }

  lemma FewerEdges(e: Edges, fewer: Edges)
    requires Acyclic(e) && fewer <= e
    ensures Acyclic(fewer)
  {
    forall x, n: nat | n > 0 ensures !Reach(fewer, x, x, n) {
      if Reach(fewer, x, x, n) { FewerPaths(e, fewer, x, x, n); }
    }
  }

  /** A set closed under parents that holds `a` holds all that is above `a`. */
  lemma {:induction false} ClosedHoldsAbove(e: Edges, closed: set<Id>, a: Id, b: Id, n: nat)
    requires forall x, y :: (x, y) in e && x in closed ==> y in closed
    requires a in closed && Reach(e, a, b, n)
    ensures b in closed
    decreases n
  {
    if n > 0 {
      var m :| (a, m) in e && Reach(e, m, b, n - 1);
      ClosedHoldsAbove(e, closed, m, b, n - 1);
    }
  }
}
