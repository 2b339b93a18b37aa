/** Concepts, their parents, and the revision of each Concept's place in the hierarchy. */
module ConceptStore {
  import opened Common
  import opened Registers
  import opened ConceptGraph

  datatype Graph = Graph(concepts: set<Id>, edges: Edges, revisions: map<Id, nat>)

  datatype Code = Acknowledged | EntityNotFound | ParentNotFound | ConceptCycle | ConceptInUse | FutureRevision | RevisionConflict

  datatype Reply = Reply(code: Code, changed: bool, revision: nat)

  function ParentsOf(e: Edges, c: Id): set<Id> { set x | x in e && x.0 == c :: x.1 }
  function ChildrenOf(e: Edges, c: Id): set<Id> { set x | x in e && x.1 == c :: x.0 }

  function Revision(revisions: map<Id, nat>, c: Id): nat { if c in revisions then revisions[c] else 0 }

  function Advanced(revisions: map<Id, nat>, ids: set<Id>): map<Id, nat> {
    map c | c in revisions.Keys + ids :: Revision(revisions, c) + if c in ids then 1 else 0
  }

  ghost predicate Valid(g: Graph) {
    Acyclic(g.edges) && forall x: (Id, Id) :: x in g.edges ==> x.0 in g.concepts && x.1 in g.concepts
  }

  ghost function ParentsRefusal(g: Graph, c: Id, wanted: set<Id>): Option<Code> {
    if c !in g.concepts then Some(EntityNotFound)
    else if exists p :: p in wanted && p !in g.concepts then Some(ParentNotFound)
    else if exists p :: p in wanted && Above(g.edges, p, c) then Some(ConceptCycle)
    else None
  }

  /** Both ends of every edge that comes or goes. */
  function Touched(e: Edges, c: Id, wanted: set<Id>): set<Id> {
    {c} + (ParentsOf(e, c) - wanted) + (wanted - ParentsOf(e, c))
  }

  ghost function SetParents(g: Graph, c: Id, wanted: set<Id>): (Graph, Reply) {
    match ParentsRefusal(g, c, wanted)
    case Some(code) => (g, Reply(code, false, Revision(g.revisions, c)))
    case None =>
      if wanted == ParentsOf(g.edges, c) then (g, Reply(Acknowledged, false, Revision(g.revisions, c)))
      else
        var revisions := Advanced(g.revisions, Touched(g.edges, c, wanted));
        (Graph(g.concepts, Reparented(g.edges, c, wanted), revisions), Reply(Acknowledged, true, Revision(revisions, c)))
  }

  /** SET_CONCEPT_PARENTS. */
  ghost function ApplyParents(g: Graph, c: Id, wanted: set<Id>, base: int): (Graph, Reply) {
    var revision := Revision(g.revisions, c);
    if c !in g.concepts then (g, Reply(EntityNotFound, false, revision))
    else if base > revision then (g, Reply(FutureRevision, false, revision))
    else if base < revision && wanted != ParentsOf(g.edges, c) then (g, Reply(RevisionConflict, false, revision))
    else SetParents(g, c, wanted)
  }

  /** `inUse` is whether research notes refer to the Concept. */
  function Delete(g: Graph, c: Id, inUse: bool): (Graph, Reply) {
    if c !in g.concepts then (g, Reply(Acknowledged, false, 0))
    else if inUse then (g, Reply(ConceptInUse, false, 0))
    else
      (Graph(g.concepts - {c}, (set x | x in g.edges && x.0 != c && x.1 != c),
             Advanced(g.revisions, ParentsOf(g.edges, c) + ChildrenOf(g.edges, c))),
       Reply(Acknowledged, true, 0))
  }

  // ---- Runs ----------------------------------------------------------------

  datatype Op =
    | NewConcept(c: Id)
    | ParentsOp(c: Id, wanted: set<Id>, base: int)
    | Replace(c: Id, wanted: set<Id>)
    | DeleteOp(c: Id, inUse: bool)

  ghost function Step(g: Graph, op: Op): (Graph, Reply) {
    match op
    case NewConcept(c) => (g.(concepts := g.concepts + {c}), Reply(Acknowledged, true, 0))
    case ParentsOp(c, wanted, base) => ApplyParents(g, c, wanted, base)
    case Replace(c, wanted) => SetParents(g, c, wanted)
    case DeleteOp(c, inUse) => Delete(g, c, inUse)
  }

  ghost predicate Trace(gs: seq<Graph>, ops: seq<Op>) {
    && |gs| == |ops| + 1
    && (forall i {:trigger Step(gs[i], ops[i])} :: 0 <= i < |ops| ==> gs[i + 1] == Step(gs[i], ops[i]).0)
  }

  lemma {:induction false} StepKeepsValid(g: Graph, op: Op)
    requires Valid(g)
    ensures Valid(Step(g, op).0)
  {
    match op
    case NewConcept(c) =>
    case ParentsOp(c, wanted, base) => SetKeepsValid(g, c, wanted);
    case Replace(c, wanted) => SetKeepsValid(g, c, wanted);
    case DeleteOp(c, inUse) => FewerEdges(g.edges, (set x | x in g.edges && x.0 != c && x.1 != c));
  }

  lemma {:induction false} SetKeepsValid(g: Graph, c: Id, wanted: set<Id>)
    requires Valid(g)
    ensures Valid(SetParents(g, c, wanted).0)
  {
    if ParentsRefusal(g, c, wanted).None? { ReparentedAcyclic(g.edges, c, wanted); }
  }

  /** Over every run the hierarchy has no cycle and no dangling end. */
  lemma {:induction false} RunKeepsHierarchy(gs: seq<Graph>, ops: seq<Op>, n: nat)
    requires Trace(gs, ops) && Valid(gs[0]) && n < |gs|
    ensures Valid(gs[n])
  {
    if n > 0 {
      RunKeepsHierarchy(gs, ops, n - 1);
      StepKeepsValid(gs[n - 1], ops[n - 1]);
      assert gs[n] == Step(gs[n - 1], ops[n - 1]).0;
    }
  }

  // ---- The register of a Concept's place -----------------------------------

  type PlaceOf = (set<Id>, set<Id>)

  function PlaceReg(g: Graph, c: Id): Reg<PlaceOf> {
    Reg((ParentsOf(g.edges, c), ChildrenOf(g.edges, c)), Revision(g.revisions, c))
  }

  lemma {:induction false} ReparentedPlaces(e: Edges, c: Id, wanted: set<Id>, x: Id)
    requires c !in wanted && c !in ParentsOf(e, c)
    ensures var e' := Reparented(e, c, wanted);
      (ParentsOf(e', x), ChildrenOf(e', x)) == (ParentsOf(e, x), ChildrenOf(e, x)) <==>
        (x !in Touched(e, c, wanted) || (x == c && wanted == ParentsOf(e, c)))
  {
    var e' := Reparented(e, c, wanted);
    NewParents(e, c, wanted, x);
    NewChildren(e, c, wanted, x);
    if x != c {
      assert x in ParentsOf(e, c) <==> c in ChildrenOf(e, x) by { EdgeEnds(e, c, x); }
      assert x in wanted <==> c in ChildrenOf(e', x);
      assert x !in Touched(e, c, wanted) ==> ChildrenOf(e', x) == ChildrenOf(e, x);
    } else {
      assert c !in wanted && c !in ChildrenOf(e, c) by { EdgeEnds(e, c, c); }
      assert ChildrenOf(e', c) == ChildrenOf(e, c);
    }
  }

  lemma EdgeEnds(e: Edges, c: Id, p: Id)
    ensures (c, p) in e <==> p in ParentsOf(e, c)
    ensures (c, p) in e <==> c in ChildrenOf(e, p)
  {
    if p in ParentsOf(e, c) {
      var x :| x in e && x.0 == c && x.1 == p;
      assert x == (c, p);
    }
    if c in ChildrenOf(e, p) {
      var x :| x in e && x.1 == p && x.0 == c;
      assert x == (c, p);
    }
  }

  lemma NewParents(e: Edges, c: Id, wanted: set<Id>, x: Id)
    ensures ParentsOf(Reparented(e, c, wanted), x) == if x == c then wanted else ParentsOf(e, x)
  {
    var e' := Reparented(e, c, wanted);
    forall p ensures p in ParentsOf(e', x) <==> p in (if x == c then wanted else ParentsOf(e, x)) {
      EdgeEnds(e', x, p);
      EdgeEnds(e, x, p);
    }
  }

  lemma NewChildren(e: Edges, c: Id, wanted: set<Id>, x: Id)
    ensures ChildrenOf(Reparented(e, c, wanted), x) == ChildrenOf(e, x) - {c} + if x in wanted then {c} else {}
  {
    var e' := Reparented(e, c, wanted);
    forall y ensures y in ChildrenOf(e', x) <==> y in ChildrenOf(e, x) - {c} + (if x in wanted then {c} else {}) {
      EdgeEnds(e', y, x);
      EdgeEnds(e, y, x);
    }
  }

  lemma {:induction false} SetFollows(g: Graph, c: Id, wanted: set<Id>, x: Id)
    requires Valid(g)
    ensures Follows(PlaceReg(g, x), PlaceReg(SetParents(g, c, wanted).0, x))
  {
    if ParentsRefusal(g, c, wanted).None? && wanted != ParentsOf(g.edges, c) {
      NotOwnParent(g, c, wanted);
      ReparentedPlaces(g.edges, c, wanted, x);
    }
  }

  lemma {:induction false} NotOwnParent(g: Graph, c: Id, wanted: set<Id>)
    requires Valid(g) && ParentsRefusal(g, c, wanted).None?
    ensures c !in wanted && c !in ParentsOf(g.edges, c)
  {
    assert Reach(g.edges, c, c, 0);
    assert Above(g.edges, c, c);
    EdgeEnds(g.edges, c, c);
    if (c, c) in g.edges { assert Reach(g.edges, c, c, 1); }
  }

  lemma {:induction false} DeleteFollows(g: Graph, c: Id, inUse: bool, x: Id)
    requires Valid(g) && x != c
    ensures Follows(PlaceReg(g, x), PlaceReg(Delete(g, c, inUse).0, x))
  {
    var e, e' := g.edges, Delete(g, c, inUse).0.edges;
    EdgeEnds(e, c, x);
    EdgeEnds(e, x, c);
    EdgeEnds(e', c, x);
    EdgeEnds(e', x, c);
    if c in g.concepts && !inUse {
      forall p ensures p in ParentsOf(e', x) <==> p in ParentsOf(e, x) && p != c {
        EdgeEnds(e', x, p);
        EdgeEnds(e, x, p);
      }
      forall y ensures y in ChildrenOf(e', x) <==> y in ChildrenOf(e, x) && y != c {
        EdgeEnds(e', y, x);
        EdgeEnds(e, y, x);
      }
      assert x !in ParentsOf(e, c) && x !in ChildrenOf(e, c) ==>
        ParentsOf(e', x) == ParentsOf(e, x) && ChildrenOf(e', x) == ChildrenOf(e, x);
    }
  }

  /** The parents revision of a Concept moves, by one, exactly when its parents or its
      children change. */
  lemma {:induction false} PlaceFollows(g: Graph, op: Op, x: Id)
    requires Valid(g) && x in g.concepts && x in Step(g, op).0.concepts
    ensures Follows(PlaceReg(g, x), PlaceReg(Step(g, op).0, x))
  {
    match op
    case NewConcept(c) =>
    case ParentsOp(c, wanted, base) => SetFollows(g, c, wanted, x);
    case Replace(c, wanted) => SetFollows(g, c, wanted, x);
    case DeleteOp(c, inUse) => if c != x { DeleteFollows(g, c, inUse, x); }
  }

  function Place(g: Graph, c: Id): PlaceOf { (ParentsOf(g.edges, c), ChildrenOf(g.edges, c)) }

  /** Within one lifetime of a Concept, two moments with the same parents revision have
      the same parents and the same children; and the revision is the same exactly when
      neither changed at any moment between. */
  lemma {:induction false} PlaceHistory(gs: seq<Graph>, ops: seq<Op>, x: Id, i: nat, j: nat)
    requires Trace(gs, ops) && Valid(gs[0]) && i <= j < |gs| && forall g :: g in gs ==> x in g.concepts
    ensures Revision(gs[i].revisions, x) <= Revision(gs[j].revisions, x)
    ensures Revision(gs[i].revisions, x) == Revision(gs[j].revisions, x) ==> Place(gs[i], x) == Place(gs[j], x)
    ensures Revision(gs[i].revisions, x) == Revision(gs[j].revisions, x) <==>
              forall m :: i <= m <= j ==> Place(gs[m], x) == Place(gs[i], x)
  {
    var h := seq(|gs|, m requires 0 <= m < |gs| => PlaceReg(gs[m], x));
    var es: seq<Event<PlaceOf>> := seq(|ops|, m => Elsewhere);
    forall m | 0 <= m < |es| ensures Follows(h[m], h[m + 1]) {
      RunKeepsHierarchy(gs, ops, m);
      assert gs[m + 1] == Step(gs[m], ops[m]).0 && gs[m] in gs && gs[m + 1] in gs;
      PlaceFollows(gs[m], ops[m], x);
    }
    SameRevisionSameValue(h, es, i, j);
    SameRevisionUnchanged(h, es, i, j);
    assert forall m :: i <= m <= j ==> h[m].value == Place(gs[m], x);
  }

  /** Equal places do not mean equal revisions: a parent given and taken away leaves the
      place as it was, two revisions later. */
  lemma PlaceMayReturn()
    ensures var g0 := Graph({"a", "b"}, {}, map[]);
      var g1 := SetParents(g0, "a", {"b"}).0;
      var g2 := SetParents(g1, "a", {}).0;
      && Valid(g0) && Place(g2, "a") == Place(g0, "a")
      && Revision(g0.revisions, "a") == 0 && Revision(g2.revisions, "a") == 2
  {
    var g0 := Graph({"a", "b"}, {}, map[]);
    NothingAbove("b", "a");
    assert ParentsOf(g0.edges, "a") == {};
    var g1 := Graph({"a", "b"}, {("a", "b")}, map["a" := 1, "b" := 1]);
    assert SetParents(g0, "a", {"b"}).0 == g1;
    assert ("a", "b") in g1.edges && "b" in ParentsOf(g1.edges, "a");
    assert SetParents(g1, "a", {}).0.edges == {};
  }

  lemma NothingAbove(a: Id, b: Id)
    requires a != b
    ensures !Above({}, a, b) && Acyclic({})
  {
    forall x, n: nat | n > 0 ensures !Reach({}, x, x, n) {}
    forall n: nat ensures !Reach({}, a, b, n) {}
  }

  /** A based change of parents replaces only what its device saw: it changes something
      only at the current revision, so a second delivery of a change never does. */
  lemma {:induction false} ParentsChangeOnce(gs: seq<Graph>, ops: seq<Op>, i: nat, j: nat)
    requires Trace(gs, ops) && Valid(gs[0]) && i < j < |ops| && ops[i].ParentsOp? && ops[j] == ops[i]
    requires forall g :: g in gs ==> ops[i].c in g.concepts
    requires Step(gs[i], ops[i]).1.code == Acknowledged
    ensures Step(gs[i], ops[i]).1.changed ==> ops[i].base == Revision(gs[i].revisions, ops[i].c)
    ensures !Step(gs[j], ops[j]).1.changed
  {
    PlaceHistory(gs, ops, ops[i].c, i + 1, j);
    assert gs[i + 1] == Step(gs[i], ops[i]).0;
    RunKeepsHierarchy(gs, ops, i);
    Acknowledges(gs[i], ops[i]);
    if Step(gs[j], ops[j]).1.changed { ChangesAtBase(gs[j], ops[j]); }
  }

  lemma {:induction false} ChangesAtBase(g: Graph, op: Op)
    requires op.ParentsOp? && Step(g, op).1.changed
    ensures op.base == Revision(g.revisions, op.c) && op.wanted != ParentsOf(g.edges, op.c)
  {
  }

  lemma {:induction false} Acknowledges(g: Graph, op: Op)
    requires Valid(g) && op.ParentsOp? && Step(g, op).1.code == Acknowledged
    ensures var g' := Step(g, op).0;
      && ParentsOf(g'.edges, op.c) == op.wanted && op.base <= Revision(g.revisions, op.c)
      && (if Step(g, op).1.changed then op.base == Revision(g.revisions, op.c) && Revision(g'.revisions, op.c) == op.base + 1
          else g' == g)
  {
    NewParents(g.edges, op.c, op.wanted, op.c);
  }
}
