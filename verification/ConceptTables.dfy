/** The Concept tables, changed in place. */
module ConceptTables {
  import opened Common
  import opened ConceptGraph
  import opened ConceptStore

  class Tables {
    var concepts: set<Id>
    var edges: Edges
    var revisions: map<Id, nat>

    constructor (g: Graph)
      ensures Contents() == g
    {
      concepts, edges, revisions := g.concepts, g.edges, g.revisions;
    }

    function Contents(): Graph reads this { Graph(concepts, edges, revisions) }

    /** Whether giving `child` the parents `wanted` would close a cycle. */
    method ParentCycle(child: Id, wanted: seq<Id>) returns (cycle: bool)
      ensures cycle <==> AboveSome(edges, wanted, child)
    {
      StartExploring(edges, wanted);
      if child in wanted { return true; }
      var stack, seen: set<Id> := wanted, {};
      while stack != []
        invariant child !in seen && seen <= Within(edges, wanted)
        invariant Exploring(edges, wanted, stack, seen)
        decreases Within(edges, wanted) - seen, |stack|
      {
        var node := stack[|stack| - 1];
        if node == child { return true; }
        if node in seen {
          PopSeen(edges, wanted, stack, seen);
          stack := stack[..|stack| - 1];
        } else {
          var parents := AsSeq(ParentsOf(edges, node));
          PushParents(edges, wanted, stack, seen, parents);
          seen := seen + {node};
          stack := stack[..|stack| - 1] + parents;
        }
      }
      NothingElseAbove(edges, wanted, seen, child);
      cycle := false;
    }

    method AdvanceAll(ids: set<Id>)
      modifies this`revisions
      ensures revisions == Advanced(old(revisions), ids)
    {
      var left := ids;
      while left != {}
        invariant left <= ids && revisions == Advanced(old(revisions), ids - left)
      {
        var c :| c in left;
        revisions := revisions[c := Revision(revisions, c) + 1];
        left := left - {c};
      }
      assert ids - left == ids;
    }

    method SetParentsHere(c: Id, raw: seq<Id>) returns (reply: Reply)
      requires Valid(Contents())
      modifies this`edges, this`revisions
      ensures (Contents(), reply) == SetParents(old(Contents()), c, Named(raw))
    {
      if c !in concepts { return Reply(EntityNotFound, false, Revision(revisions, c)); }
      var wanted := WithoutRepeats(raw);
      if p :| p in wanted && p !in concepts { return Reply(ParentNotFound, false, Revision(revisions, c)); }
      var cycle := ParentCycle(c, wanted);
      if cycle { return Reply(ConceptCycle, false, Revision(revisions, c)); }
      NotOwnParent(Contents(), c, Named(raw));
      reply := Rewrite(c, wanted, Named(raw));
    }

    /** The rows of `c` deleted and inserted anew. */
    method RewriteRows(c: Id, wanted: seq<Id>, ghost names: set<Id>) returns (before: set<Id>, after: set<Id>)
      requires forall p :: p in wanted <==> p in names
      modifies this`edges
      ensures edges == Reparented(old(edges), c, names)
      ensures before == ParentsOf(old(edges), c) && after == names
      ensures before == after ==> edges == old(edges)
    {
      before := ParentsOf(edges, c);
      NewParents(edges, c, names, c);
      SameEdges(edges, c);
      edges := (set x | x in edges && x.0 != c) + (set p | p in wanted :: (c, p));
      after := ParentsOf(edges, c);
    }

    /** Revisions move if the rows are not the same again. */
    method Rewrite(c: Id, wanted: seq<Id>, ghost names: set<Id>) returns (reply: Reply)
      requires (forall p :: p in wanted <==> p in names) && c !in names && c !in ParentsOf(edges, c)
      modifies this`edges, this`revisions
      ensures edges == Reparented(old(edges), c, names)
      ensures names == ParentsOf(old(edges), c) ==> edges == old(edges)
      ensures revisions == if names == ParentsOf(old(edges), c) then old(revisions)
                           else Advanced(old(revisions), Touched(old(edges), c, names))
      ensures reply == Reply(Acknowledged, names != ParentsOf(old(edges), c), Revision(revisions, c))
    {
      var before, after := RewriteRows(c, wanted, names);
      if after == before { return Reply(Acknowledged, false, Revision(revisions, c)); }
      revisions := revisions[c := Revision(revisions, c) + 1];
      AdvanceAll((before - after) + (after - before));
      OneThenMore(old(revisions), c, (before - after) + (after - before));
      assert {c} + ((before - after) + (after - before)) == Touched(old(edges), c, names);
      reply := Reply(Acknowledged, true, Revision(revisions, c));
    }

    method ApplyParentsHere(c: Id, raw: seq<Id>, base: int) returns (reply: Reply)
      requires Valid(Contents()) && "" !in raw
      modifies this`edges, this`revisions
      ensures (Contents(), reply) == ApplyParents(old(Contents()), c, Named(raw), base)
    {
      var revision := Revision(revisions, c);
      if c !in concepts { return Reply(EntityNotFound, false, revision); }
      if base > revision { return Reply(FutureRevision, false, revision); }
      var desired := set p | p in raw;
      if base < revision && desired != ParentsOf(edges, c) { return Reply(RevisionConflict, false, revision); }
      assert desired == Named(raw);
      reply := SetParentsHere(c, raw);
    }

    method DeleteHere(c: Id, inUse: bool) returns (reply: Reply)
      modifies this
      ensures (Contents(), reply) == Delete(old(Contents()), c, inUse)
    {
      if c !in concepts { return Reply(Acknowledged, false, 0); }
      if inUse { return Reply(ConceptInUse, false, 0); }
      var related := ParentsOf(edges, c) + ChildrenOf(edges, c);
      concepts := concepts - {c};
      edges := set x | x in edges && x.0 != c && x.1 != c;
      AdvanceAll(related);
      reply := Reply(Acknowledged, true, 0);
    }
  }

  function Named(raw: seq<Id>): set<Id> { set p | p in raw && p != "" }

  /** Blank and repeated ids dropped, first occurrences kept in order. */
  method WithoutRepeats(raw: seq<Id>) returns (wanted: seq<Id>)
    ensures forall p :: p in wanted <==> p in Named(raw)
    ensures forall i, j :: 0 <= i < j < |wanted| ==> wanted[i] != wanted[j]
  {
    var seen: set<Id> := {};
    wanted := [];
    for i := 0 to |raw|
      invariant seen == Named(raw[..i]) && forall p :: p in wanted <==> p in seen
      invariant forall i, j :: 0 <= i < j < |wanted| ==> wanted[i] != wanted[j]
    {
      assert raw[..i + 1] == raw[..i] + [raw[i]];
      if raw[i] != "" && raw[i] !in seen {
        seen := seen + {raw[i]};
        wanted := wanted + [raw[i]];
      }
    }
    assert raw[..|raw|] == raw;
  }

  /** The members of a set in some order. */
  method AsSeq(s: set<Id>) returns (r: seq<Id>)
    ensures forall x :: x in r <==> x in s
  {
    var left := s;
    r := [];
    while left != {}
      invariant left <= s && forall x :: x in r <==> x in s - left
    {
      var x :| x in left;
      r, left := r + [x], left - {x};
    }
  }

  lemma SameEdges(e: Edges, c: Id)
    ensures Reparented(e, c, ParentsOf(e, c)) == e
  {
    forall p ensures p in ParentsOf(e, c) <==> (c, p) in e { EdgeEnds(e, c, p); }
  }

  lemma OneThenMore(revisions: map<Id, nat>, c: Id, more: set<Id>)
    requires c !in more
    ensures Advanced(revisions[c := Revision(revisions, c) + 1], more) == Advanced(revisions, {c} + more)
  {
  }

  ghost predicate AboveSome(e: Edges, wanted: seq<Id>, x: Id) { exists p :: p in wanted && Above(e, p, x) }

  function Within(e: Edges, wanted: seq<Id>): set<Id> { (set p | p in wanted) + (set x | x in e :: x.1) }

  /** What is on the stack or seen lies above `wanted`, and the parents of what is
      seen are seen or on the stack. */
  ghost predicate Exploring(e: Edges, wanted: seq<Id>, stack: seq<Id>, seen: set<Id>) {
    && (forall x :: x in stack || x in seen ==> AboveSome(e, wanted, x))
    && (forall x :: x in stack ==> x in Within(e, wanted))
    && (forall p :: p in wanted ==> p in stack || p in seen)
    && (forall x, y :: (x, y) in e && x in seen ==> y in stack || y in seen)
  }

  lemma StartExploring(e: Edges, wanted: seq<Id>)
    ensures Exploring(e, wanted, wanted, {})
  {
    forall p | p in wanted ensures AboveSome(e, wanted, p) { assert Reach(e, p, p, 0); }
  }

  lemma PopSeen(e: Edges, wanted: seq<Id>, stack: seq<Id>, seen: set<Id>)
    requires stack != [] && Exploring(e, wanted, stack, seen) && stack[|stack| - 1] in seen
    ensures Exploring(e, wanted, stack[..|stack| - 1], seen)
  {
    var rest := stack[..|stack| - 1];
    assert forall x :: x in stack <==> x in rest || x == stack[|stack| - 1] by { assert stack == rest + [stack[|stack| - 1]]; }
  }

  lemma PushParents(e: Edges, wanted: seq<Id>, stack: seq<Id>, seen: set<Id>, parents: seq<Id>)
    requires stack != [] && Exploring(e, wanted, stack, seen)
    requires forall y :: y in parents <==> y in ParentsOf(e, stack[|stack| - 1])
    ensures stack[|stack| - 1] in Within(e, wanted)
    ensures Exploring(e, wanted, stack[..|stack| - 1] + parents, seen + {stack[|stack| - 1]})
  {
    var node, rest := stack[|stack| - 1], stack[..|stack| - 1];
    assert stack == rest + [node];
    ParentsAbove(e, wanted, node);
    forall y | y in parents ensures y in Within(e, wanted) { assert (node, y).1 == y; }
  }

  lemma ParentsAbove(e: Edges, wanted: seq<Id>, node: Id)
    requires AboveSome(e, wanted, node)
    ensures forall y :: y in ParentsOf(e, node) <==> (node, y) in e
    ensures forall y :: y in ParentsOf(e, node) ==> AboveSome(e, wanted, y)
  {
    forall y ensures y in ParentsOf(e, node) <==> (node, y) in e { EdgeEnds(e, node, y); }
    forall y | (node, y) in e ensures AboveSome(e, wanted, y) {
      var p :| p in wanted && Above(e, p, node);
      StepAbove(e, p, node, y);
    }
  }

  lemma NothingElseAbove(e: Edges, wanted: seq<Id>, seen: set<Id>, child: Id)
    requires child !in seen && Exploring(e, wanted, [], seen)
    ensures !AboveSome(e, wanted, child)
  {
    forall p | p in wanted ensures !Above(e, p, child) {
      if Above(e, p, child) {
        var n: nat :| Reach(e, p, child, n);
        ClosedHoldsAbove(e, seen, p, child, n);
      }
    }
  }
}
