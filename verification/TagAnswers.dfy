/** The answers to merges and edits of tags, row by row: which are refused, and what each
    relation holds afterwards. */
module TagAnswers {
  import opened Common
  import opened TagStore

  function Moved(r: Relation, p: (OwnerId, TagId)): nat { if p in r.revisions then r.revisions[p] else 0 }

  /** Owners of `source` are owners of `target` now, nobody else came or went, and the
      revision of a pair moved by one exactly where the pair came or went. */
  ghost predicate TakesOver(r: Relation, r': Relation, source: TagId, target: TagId) {
    && (forall o, tag :: (o, tag) in r'.rows <==>
          tag != source && ((o, tag) in r.rows || (tag == target && (o, source) in r.rows)))
    && (forall o, tag :: Moved(r', (o, tag)) ==
          Moved(r, (o, tag)) + if (o, tag) in r.rows <==> (o, tag) in r'.rows then 0 else 1)
  }

  lemma {:induction false} MovedForTakesOver(r: Relation, source: TagId, target: TagId)
    requires source != target
    ensures TakesOver(r, MovedFor(r, source, target, Owners(r.rows, source)), source, target)
  {
    var owners := Owners(r.rows, source);
    forall o ensures o in owners <==> (o, source) in r.rows {
      if (o, source) in r.rows { assert (o, source).0 in owners; }
    }
    forall o, tag ensures
      var r' := MovedFor(r, source, target, owners);
      && ((o, tag) in r'.rows <==> tag != source && ((o, tag) in r.rows || (tag == target && (o, source) in r.rows)))
      && Moved(r', (o, tag)) == Moved(r, (o, tag)) + if (o, tag) in r.rows <==> (o, tag) in r'.rows then 0 else 1
    {
      OnePair(r, source, target, owners, o, tag);
    }
  }

  lemma {:induction false} OnePair(r: Relation, source: TagId, target: TagId, owners: set<OwnerId>, o: OwnerId, tag: TagId)
    requires source != target && forall x :: x in owners <==> (x, source) in r.rows
    ensures var r' := MovedFor(r, source, target, owners);
      && ((o, tag) in r'.rows <==> tag != source && ((o, tag) in r.rows || (tag == target && (o, source) in r.rows)))
      && Moved(r', (o, tag)) == Moved(r, (o, tag)) + if (o, tag) in r.rows <==> (o, tag) in r'.rows then 0 else 1
  {
    if o in owners { assert (o, source) == (o, source) && (o, target) == (o, target); }
  }

  /** A merge is refused if and only if a name is missing, both are one, or one is not a
      live tag; an accepted one ends the source, sends it and all that was merged into it
      to the target, and gives its owners to the target in all three relations. */
  lemma {:induction false} MergeExactly(t: Tags, source: TagId, target: TagId)
    ensures MergeRefusal(t, source, target) ==
              if source == "" || target == "" then Some(Missing) else if source == target then Some(IntoItself)
              else if source in t.live && target in t.live then None else Some(NotFound)
    ensures MergeRefusal(t, source, target).None? ==>
              var t' := MergedTags(t, source, target);
              && (forall id :: id in t'.live <==> id in t.live && id != source)
              && t'.lifecycle.Keys == t.lifecycle.Keys
              && (forall id :: id in t.lifecycle ==>
                    t'.lifecycle[id] == if id == source || t.lifecycle[id] == Merged(source) then Merged(target) else t.lifecycle[id])
              && TakesOver(t.works, t'.works, source, target)
              && TakesOver(t.folders, t'.folders, source, target)
              && (forall o, tag :: (o, tag) in t'.staged <==>
                    tag != source && ((o, tag) in t.staged || (tag == target && (o, source) in t.staged)))
  {
    if source != target {
      MovedForTakesOver(t.works, source, target);
      MovedForTakesOver(t.folders, source, target);
      forall o, tag ensures (o, tag) in Image(t.staged, source, target) <==>
                              tag != source && ((o, tag) in t.staged || (tag == target && (o, source) in t.staged)) {
        if (o, tag) in t.staged && tag != source { assert (o, Renamed(tag, source, target)) == (o, tag); }
        if (o, source) in t.staged && tag == target {
          assert Renamed(source, source, target) == target && ((o, source).0, Renamed((o, source).1, source, target)) == (o, target);
        }
      }
    }
  }

  ghost predicate EditAnswer(
    t: Tags, kind: Kind, known: bool, pair: (OwnerId, TagId), present: bool, base: int, t': Tags, reply: Reply)
  {
    var r, r' := if kind == OfWork then t.works else t.folders, if kind == OfWork then t'.works else t'.folders;
    var state := if pair.1 in t.lifecycle then Some(t.lifecycle[pair.1]) else None;
    var here := pair in r.rows;
    && t' == (if kind == OfWork then t.(works := r') else t.(folders := r'))
    && (reply.code != Acknowledged ==> r' == r && !reply.changed)
    && (if !known || state == None then reply.code == EntityNotFound
        else if state == Some(Deleted) then reply.code == TagDeleted
        else if state != Some(Active) then reply.code == TagMerged
        else if base > Moved(r, pair) then reply.code == FutureRevision
        else if base < Moved(r, pair) && here != present then reply.code == RevisionConflict
        else
          && reply == Reply(Acknowledged, here != present, Moved(r', pair))
          && (pair in r'.rows <==> present)
          && (forall p :: p != pair ==> (p in r'.rows <==> p in r.rows) && Moved(r', p) == Moved(r, p))
          && Moved(r', pair) == Moved(r, pair) + if here == present then 0 else 1)
  }

  /** An edit is accepted from the current revision, and from an older one where nothing
      is left to change; it changes that pair alone. */
  lemma {:induction false} EditExactly(t: Tags, kind: Kind, known: bool, pair: (OwnerId, TagId), present: bool, base: int)
    ensures EditAnswer(t, kind, known, pair, present, base,
                       Edit(t, kind, known, pair, present, base).0, Edit(t, kind, known, pair, present, base).1)
  {
  }

  /** A creation takes a new id with a free label; an id that was ever used stays used. */
  lemma {:induction false} CreateExactly(t: Tags, id: TagId, taken: bool)
    ensures var (t', reply) := Create(t, id, taken);
      if id in t.live then t' == t && reply == Reply(Acknowledged, false, 0)
      else if taken then t' == t && reply.code == NameTaken
      else if id in t.lifecycle then t' == t && reply.code == Refused
      else
        && reply == Reply(Acknowledged, true, 0)
        && t' == Tags(t.live + {id}, t.lifecycle[id := Active], t.works, t.folders, t.staged)
  {
  }
}
