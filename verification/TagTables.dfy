/** The tag tables, changed in place. */
module TagTables {
  import opened Common
  import opened TagStore

  class Tables {
    var live: set<TagId>
    var lifecycle: map<TagId, State>
    var works: Relation
    var folders: Relation
    var staged: set<(OwnerId, TagId)>

    constructor (t: Tags)
      ensures Contents() == t
    {
      live, lifecycle, works, folders, staged := t.live, t.lifecycle, t.works, t.folders, t.staged;
    }

    function Contents(): Tags reads this { Tags(live, lifecycle, works, folders, staged) }

    /** One relation row set or cleared; its revision moves if it changes. */
    method SetStateHere(kind: Kind, pair: (OwnerId, TagId), present: bool) returns (changed: bool)
      modifies this`works, this`folders
      ensures Contents() == old(Contents()).With(kind, SetState(old(Contents()).Of(kind), pair, present))
      ensures changed <==> (pair in old(Contents()).Of(kind).rows) != present
    {
      var r := if kind == OfWork then works else folders;
      changed := (pair in r.rows) != present;
      if changed {
        var rows := if present then r.rows + {pair} else r.rows - {pair};
        r := Relation(rows, r.revisions[pair := Revision(r, pair) + 1]);
        if kind == OfWork { works := r; } else { folders := r; }
      }
    }

    /** Every owner of the source gets the target and loses the source. */
    method MoveRelation(kind: Kind, source: TagId, target: TagId)
      requires source != target
      modifies this`works, this`folders
      ensures var r := old(Contents()).Of(kind);
        Contents() == old(Contents()).With(kind, MovedFor(r, source, target, Owners(r.rows, source)))
    {
      ghost var was := Contents().Of(kind);
      var left := Owners(Contents().Of(kind).rows, source);
      ghost var all := left;
      MovedForNobody(was, source, target);
      assert all - left == {};
      while left != {}
        invariant left <= all
        invariant Contents() == old(Contents()).With(kind, MovedFor(was, source, target, all - left))
      {
        var o :| o in left;
        MoveOwner(kind, source, target, o, was, all - left);
        assert all - left + {o} == all - (left - {o});
        left := left - {o};
      }
      assert all - left == all;
    }

    method MoveOwner(kind: Kind, source: TagId, target: TagId, o: OwnerId, ghost was: Relation, ghost done: set<OwnerId>)
      requires source != target && o !in done && (o, source) in was.rows
      requires Contents().Of(kind) == MovedFor(was, source, target, done)
      modifies this`works, this`folders
      ensures Contents() == old(Contents()).With(kind, MovedFor(was, source, target, done + {o}))
    {
      MovedForOneMore(was, source, target, done, o);
      var _ := SetStateHere(kind, (o, target), true);
      var _ := SetStateHere(kind, (o, source), false);
    }

    method Merge(source: TagId, target: TagId) returns (refusal: Option<MergeError>)
      modifies this
      ensures refusal == MergeRefusal(old(Contents()), source, target)
      ensures Contents() == if refusal.None? then MergedTags(old(Contents()), source, target) else old(Contents())
    {
      if source == "" || target == "" { return Some(Missing); }
      if source == target { return Some(IntoItself); }
      if source !in live || target !in live { return Some(NotFound); }
      MoveRelation(OfWork, source, target);
      MoveRelation(OfFolder, source, target);
      lifecycle := Redirected(lifecycle, source, target);
      var moved := set p | p in staged && p.1 == source :: (p.0, target);
      var rest := set p | p in staged && p.1 != source;
      assert rest + moved == Image(staged, source, target) by { ImageSplits(staged, source, target); }
      staged := staged + moved;
      staged := set p | p in staged && p.1 != source;
      assert staged == rest + moved;
      live := live - {source};
      refusal := None;
    }

    method CreateHere(id: TagId, taken: bool) returns (reply: Reply)
      modifies this`live, this`lifecycle
      ensures (Contents(), reply) == Create(old(Contents()), id, taken)
    {
      if id in live { return Reply(Acknowledged, false, 0); }
      if taken { return Reply(NameTaken, false, 0); }
      if id in lifecycle { return Reply(Refused, false, 0); }
      live := live + {id};
      lifecycle := lifecycle[id := Active];
      reply := Reply(Acknowledged, true, 0);
    }

    /** Follows merge targets until a tag that is not merged; one hop is all it takes. */
    method ResolveLifecycle(id: TagId) returns (standing: Standing)
      requires Valid(Contents())
      ensures standing == StandingOf(lifecycle, id)
    {
      var current, seen: set<TagId> := id, {};
      while current !in seen
        invariant seen == {} ==> current == id
        invariant seen != {} ==> id in lifecycle && lifecycle[id] == Merged(current) && current in live && seen == {id}
        invariant current in seen ==> current == id && lifecycle[id] == Merged(id)
        decreases lifecycle.Keys - seen
      {
        seen := seen + {current};
        if current !in lifecycle { return Unknown; }
        match lifecycle[current] {
          case Deleted => return Gone;
          case Active =>
            if current !in live { return Unknown; }
            return if current == id then Current else Elsewhere(current);
          case Merged(target) => current := target;
        }
      }
      standing := Cycle;
    }

    method EditHere(kind: Kind, known: bool, pair: (OwnerId, TagId), present: bool, base: int) returns (reply: Reply)
      requires Valid(Contents())
      modifies this`works, this`folders
      ensures (Contents(), reply) == Edit(old(Contents()), kind, known, pair, present, base)
    {
      var revision := Revision(Contents().Of(kind), pair);
      if !known { return Reply(EntityNotFound, false, revision); }
      var standing := ResolveLifecycle(pair.1);
      match standing {
        case Gone => return Reply(TagDeleted, false, revision);
        case Elsewhere(_) => return Reply(TagMerged, false, revision);
        case Current =>
          if base > revision { return Reply(FutureRevision, false, revision); }
          if base < revision && (pair in Contents().Of(kind).rows) != present {
            return Reply(RevisionConflict, false, revision);
          }
          var changed := SetStateHere(kind, pair, present);
          reply := Reply(Acknowledged, changed, revision + if changed then 1 else 0);
        case _ => return Reply(EntityNotFound, false, revision);
      }
    }
  }

  lemma ImageSplits(rows: set<(OwnerId, TagId)>, source: TagId, target: TagId)
    ensures Image(rows, source, target) ==
              (set p | p in rows && p.1 != source) + (set p | p in rows && p.1 == source :: (p.0, target))
  {
    forall p | p in rows ensures (p.0, Renamed(p.1, source, target)) in Image(rows, source, target) {}
    forall p | p in rows && p.1 != source ensures p in Image(rows, source, target) {
      assert p == (p.0, Renamed(p.1, source, target));
    }
  }
}
