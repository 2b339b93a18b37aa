/** The answers to a change of a Concept's parents and to its deletion, edge by edge. */
module ConceptAnswers {
  import opened Common
  import opened ConceptGraph
  import opened ConceptStore

  function Moved(g: Graph, x: Id): nat { if x in g.revisions then g.revisions[x] else 0 }

  /** `wanted` are the parents of `c` as they are. */
  ghost predicate HasParents(g: Graph, c: Id, wanted: set<Id>) { forall p :: (c, p) in g.edges <==> p in wanted }

  /** The edges between `x` and its parents and children are the same. */
  ghost predicate SamePlace(g: Graph, g': Graph, x: Id) {
    forall y :: ((x, y) in g.edges <==> (x, y) in g'.edges) && ((y, x) in g.edges <==> (y, x) in g'.edges)
  }

  ghost predicate ParentsAnswer(g: Graph, c: Id, wanted: set<Id>, base: int, g': Graph, reply: Reply) {
    && (reply.code != Acknowledged ==> g' == g && !reply.changed)
    && (if c !in g.concepts then reply.code == EntityNotFound
        else if base > Moved(g, c) then reply.code == FutureRevision
        else if base < Moved(g, c) && !HasParents(g, c, wanted) then reply.code == RevisionConflict
        else if exists p :: p in wanted && p !in g.concepts then reply.code == ParentNotFound
        else if exists p :: p in wanted && Above(g.edges, p, c) then reply.code == ConceptCycle
        else
          && reply == Reply(Acknowledged, !HasParents(g, c, wanted), Moved(g', c))
          && g'.concepts == g.concepts
          && (forall a, b :: (a, b) in g'.edges <==> if a == c then b in wanted else (a, b) in g.edges)
          && (forall x :: Moved(g', x) == Moved(g, x) + if SamePlace(g, g', x) then 0 else 1))
  }

  lemma {:induction false} ParentsAre(e: Edges, c: Id)
    ensures forall p :: p in ParentsOf(e, c) <==> (c, p) in e
    ensures forall p :: p in ChildrenOf(e, c) <==> (p, c) in e
  {
    forall p | (c, p) in e ensures p in ParentsOf(e, c) { assert (c, p).0 == c && (c, p).1 == p; }
    forall p | (p, c) in e ensures p in ChildrenOf(e, c) { assert (p, c).1 == c && (p, c).0 == p; }
  }

  lemma {:induction false} HasParentsIs(g: Graph, c: Id, wanted: set<Id>)
    ensures HasParents(g, c, wanted) <==> wanted == ParentsOf(g.edges, c)
  {
    ParentsAre(g.edges, c);
    if HasParents(g, c, wanted) {
      forall p ensures p in wanted <==> p in ParentsOf(g.edges, c) {}
    }
  }

  lemma {:induction false} ReparentedEdges(e: Edges, c: Id, wanted: set<Id>)
    ensures forall a, b :: (a, b) in Reparented(e, c, wanted) <==> if a == c then b in wanted else (a, b) in e
  {
    forall a, b ensures (a, b) in Reparented(e, c, wanted) <==> if a == c then b in wanted else (a, b) in e {
      if a == c && b in wanted { assert (c, b) in set p | p in wanted :: (c, p); }
    }
  }

  /** Where no wanted parent is the Concept or below it, both ends of each edge that
      comes or goes are touched, and nobody else. */
  lemma {:induction false} TouchedIs(g: Graph, c: Id, wanted: set<Id>, g': Graph, x: Id)
    requires c !in wanted && (c, c) !in g.edges && !HasParents(g, c, wanted)
    requires forall a, b :: (a, b) in g'.edges <==> if a == c then b in wanted else (a, b) in g.edges
    ensures x in Touched(g.edges, c, wanted) <==> !SamePlace(g, g', x)
  {
    ParentsAre(g.edges, c);
    if x == c {
      var p :| (c, p) in g.edges <==> p !in wanted;
      assert (c, p) in g.edges <==> (c, p) !in g'.edges;
    } else if x in Touched(g.edges, c, wanted) {
      assert (c, x) in g.edges <==> (c, x) !in g'.edges;
    } else {
      assert (c, x) in g.edges <==> x in wanted;
    }
  }

  /** A change of parents is refused if and only if the Concept is missing, the base
      revision does not fit, a parent is missing, or one is the Concept or below it; an
      accepted one sets exactly those parents and moves the revision of every Concept
      whose place changed, by one, and of no other. */
  lemma {:induction false} ParentsExactly(g: Graph, c: Id, wanted: set<Id>, base: int)
    requires Valid(g)
    ensures ParentsAnswer(g, c, wanted, base, ApplyParents(g, c, wanted, base).0, ApplyParents(g, c, wanted, base).1)
  {
    HasParentsIs(g, c, wanted);
    if ParentsRefusal(g, c, wanted).None? {
      if HasParents(g, c, wanted) { SameIsSame(g, c, wanted); } else { ChangedExactly(g, c, wanted); }
    }
  }

  lemma {:induction false} SameIsSame(g: Graph, c: Id, wanted: set<Id>)
    requires HasParents(g, c, wanted)
    ensures forall a, b :: (a, b) in g.edges <==> if a == c then b in wanted else (a, b) in g.edges
    ensures forall x :: SamePlace(g, g, x)
  {
  }

  lemma {:induction false} ChangedExactly(g: Graph, c: Id, wanted: set<Id>)
    requires Valid(g) && ParentsRefusal(g, c, wanted).None? && !HasParents(g, c, wanted)
    ensures var g' := SetParents(g, c, wanted).0;
      && (forall a, b :: (a, b) in g'.edges <==> if a == c then b in wanted else (a, b) in g.edges)
      && (forall x :: Moved(g', x) == Moved(g, x) + if SamePlace(g, g', x) then 0 else 1)
  {
    var g' := SetParents(g, c, wanted).0;
    HasParentsIs(g, c, wanted);
    ReparentedEdges(g.edges, c, wanted);
    assert Reach(g.edges, c, c, 0);
    assert Above(g.edges, c, c);
    assert (c, c) in g.edges ==> Reach(g.edges, c, c, 1);
    forall x ensures Moved(g', x) == Moved(g, x) + if SamePlace(g, g', x) then 0 else 1 {
      TouchedIs(g, c, wanted, g', x);
    }
  }

  /** A Concept goes unless notes refer to it, with its edges, and the revision of each
      neighbour moves by one. */
  lemma {:induction false} DeleteExactly(g: Graph, c: Id, inUse: bool)
    requires Valid(g)
    ensures var (g', reply) := Delete(g, c, inUse);
      if c !in g.concepts then g' == g && reply == Reply(Acknowledged, false, 0)
      else if inUse then g' == g && reply.code == ConceptInUse
      else
        && reply == Reply(Acknowledged, true, 0) && g'.concepts == g.concepts - {c}
        && (forall a, b :: (a, b) in g'.edges <==> (a, b) in g.edges && a != c && b != c)
        && (forall x :: Moved(g', x) == Moved(g, x) + if (c, x) in g.edges || (x, c) in g.edges then 1 else 0)
  {
    ParentsAre(g.edges, c);
  }
}
