/** Tags, their lifecycle, and the relations of Works, Folders and staged files to
    them. */
module TagStore {
  import opened Common

  type TagId = string
  type OwnerId = string

  datatype State = Active | Merged(target: TagId) | Deleted

  /** A relation between owners and tags, with a revision for each pair. */
  datatype Relation = Relation(rows: set<(OwnerId, TagId)>, revisions: map<(OwnerId, TagId), nat>)

  datatype Kind = OfWork | OfFolder

  datatype Tags = Tags(
    live: set<TagId>,
    lifecycle: map<TagId, State>,
    works: Relation,
    folders: Relation,
    staged: set<(OwnerId, TagId)>)
  {
    function Of(kind: Kind): Relation { if kind == OfWork then works else folders }
    function With(kind: Kind, r: Relation): Tags { if kind == OfWork then this.(works := r) else this.(folders := r) }
  }

  function Revision(r: Relation, pair: (OwnerId, TagId)): nat {
    if pair in r.revisions then r.revisions[pair] else 0
  }

  function SetState(r: Relation, pair: (OwnerId, TagId), present: bool): Relation {
    if (pair in r.rows) == present then r
    else Relation(if present then r.rows + {pair} else r.rows - {pair}, r.revisions[pair := Revision(r, pair) + 1])
  }

  /** What a merge does to one owner: target set, then source cleared. */
  function TwoStates(r: Relation, source: TagId, target: TagId, o: OwnerId): Relation {
    SetState(SetState(r, (o, target), true), (o, source), false)
  }

  // ---- Merge ---------------------------------------------------------------

  function Renamed(tag: TagId, source: TagId, target: TagId): TagId { if tag == source then target else tag }

  /** The image of a relation under `source` becoming `target`. */
  function Image(rows: set<(OwnerId, TagId)>, source: TagId, target: TagId): set<(OwnerId, TagId)> {
    set p | p in rows :: (p.0, Renamed(p.1, source, target))
  }

  /** `source` becomes `target` for the owners in `owners`; only pairs that come or go
      get a newer revision. */
  function MovedFor(r: Relation, source: TagId, target: TagId, owners: set<OwnerId>): Relation {
    Relation(
      (set p | p in r.rows && !(p.1 == source && p.0 in owners)) + (set o | o in owners :: (o, target)),
      map p | p in r.revisions.Keys + (set o | o in owners :: (o, source)) + (set o | o in owners && (o, target) !in r.rows :: (o, target)) ::
        Revision(r, p) + if p.0 in owners && (p.1 == source || (p.1 == target && p !in r.rows)) then 1 else 0)
  }

  function Owners(rows: set<(OwnerId, TagId)>, tag: TagId): set<OwnerId> { set p | p in rows && p.1 == tag :: p.0 }

  /** The one statement that redirects the source and all that was merged into it. */
  function Redirected(lifecycle: map<TagId, State>, source: TagId, target: TagId): map<TagId, State> {
    map id | id in lifecycle ::
      if id == source || lifecycle[id] == Merged(source) then Merged(target) else lifecycle[id]
  }

  datatype MergeError = Missing | IntoItself | NotFound

  function MergeRefusal(t: Tags, source: TagId, target: TagId): Option<MergeError> {
    if source == "" || target == "" then Some(Missing)
    else if source == target then Some(IntoItself)
    else if source !in t.live || target !in t.live then Some(NotFound)
    else None
  }

  function MergedTags(t: Tags, source: TagId, target: TagId): Tags {
    Tags(t.live - {source},
         Redirected(t.lifecycle, source, target),
         MovedFor(t.works, source, target, Owners(t.works.rows, source)),
         MovedFor(t.folders, source, target, Owners(t.folders.rows, source)),
         Image(t.staged, source, target))
  }

  // ---- Resolution ----------------------------------------------------------

  datatype Standing = Unknown | Gone | Current | Elsewhere(target: TagId) | Cycle

  ghost predicate Valid(t: Tags) {
    && (forall id :: id in t.live <==> id in t.lifecycle && t.lifecycle[id] == Active)
    && (forall id :: id in t.lifecycle && t.lifecycle[id].Merged? ==> t.lifecycle[id].target in t.live)
    && (forall p: (OwnerId, TagId) :: p in t.works.rows || p in t.folders.rows || p in t.staged ==> p.1 in t.live)
  }

  /** One look-up in the lifecycle table settles a tag. */
  function StandingOf(lifecycle: map<TagId, State>, id: TagId): Standing {
    if id !in lifecycle then Unknown
    else match lifecycle[id]
      case Active => Current
      case Deleted => Gone
      case Merged(target) => Elsewhere(target)
  }

  // ---- Creation and edits --------------------------------------------------

  datatype Code = Acknowledged | EntityNotFound | NameTaken | Refused | TagDeleted | TagMerged | FutureRevision | RevisionConflict

  datatype Reply = Reply(code: Code, changed: bool, revision: nat)

  /** `taken` is whether the label belongs to another tag. An id that was merged away
      is refused by the lifecycle table's key. */
  function Create(t: Tags, id: TagId, taken: bool): (Tags, Reply) {
    if id in t.live then (t, Reply(Acknowledged, false, 0))
    else if taken then (t, Reply(NameTaken, false, 0))
    else if id in t.lifecycle then (t, Reply(Refused, false, 0))
    else (t.(live := t.live + {id}, lifecycle := t.lifecycle[id := Active]), Reply(Acknowledged, true, 0))
  }

  /** ADD and REMOVE, of Works and Folders alike; `known` is whether the owner exists. */
  function Edit(t: Tags, kind: Kind, known: bool, pair: (OwnerId, TagId), present: bool, base: int): (Tags, Reply) {
    var r := t.Of(kind);
    var revision := Revision(r, pair);
    if !known then (t, Reply(EntityNotFound, false, revision))
    else match StandingOf(t.lifecycle, pair.1)
      case Gone => (t, Reply(TagDeleted, false, revision))
      case Elsewhere(_) => (t, Reply(TagMerged, false, revision))
      case Current =>
        if base > revision then (t, Reply(FutureRevision, false, revision))
        else if base < revision && (pair in r.rows) != present then (t, Reply(RevisionConflict, false, revision))
        else
          var r' := SetState(r, pair, present);
          (t.With(kind, r'), Reply(Acknowledged, r' != r, Revision(r', pair)))
      case _ => (t, Reply(EntityNotFound, false, revision))
  }

  // ---- Facts ---------------------------------------------------------------

  lemma ImageOfMoved(r: Relation, source: TagId, target: TagId)
    requires source != target
    ensures MovedFor(r, source, target, Owners(r.rows, source)).rows == Image(r.rows, source, target)
  {
    var owners := Owners(r.rows, source);
    var moved, image := MovedFor(r, source, target, owners).rows, Image(r.rows, source, target);
    forall p | p in moved ensures p in image {
      if p in r.rows && !(p.1 == source && p.0 in owners) {
        assert p.1 == source ==> p.0 in owners;
        assert p == (p.0, Renamed(p.1, source, target));
      } else {
        assert (p.0, source) in r.rows && Renamed(source, source, target) == target;
      }
    }
    forall p | p in image ensures p in moved {
      var q :| q in r.rows && p == (q.0, Renamed(q.1, source, target));
      if q.1 == source { assert q.0 in owners; }
    }
  }

  lemma MovedForNobody(r: Relation, source: TagId, target: TagId)
    ensures MovedFor(r, source, target, {}) == r
  {
    assert MovedFor(r, source, target, {}).revisions == r.revisions;
  }

  lemma MovedForOneMore(r: Relation, source: TagId, target: TagId, done: set<OwnerId>, o: OwnerId)
    requires source != target && o !in done && (o, source) in r.rows
    ensures TwoStates(MovedFor(r, source, target, done), source, target, o) == MovedFor(r, source, target, done + {o})
  {
    var before := MovedFor(r, source, target, done);
    assert (o, target) in before.rows <==> (o, target) in r.rows;
    assert (o, source) in before.rows;
    SameRows(r, source, target, done, o);
    SameRevisions(r, source, target, done, o);
  }

  lemma SameRows(r: Relation, source: TagId, target: TagId, done: set<OwnerId>, o: OwnerId)
    requires source != target && o !in done && (o, source) in r.rows
    ensures MovedFor(r, source, target, done).rows + {(o, target)} - {(o, source)} == MovedFor(r, source, target, done + {o}).rows
  {
    var a := MovedFor(r, source, target, done).rows + {(o, target)} - {(o, source)};
    var b := MovedFor(r, source, target, done + {o}).rows;
    forall p ensures p in a <==> p in b {
      if p.1 == target { assert p == (p.0, target); }
    }
  }

  lemma PairAgrees(r: Relation, source: TagId, target: TagId, done: set<OwnerId>, o: OwnerId, owner: OwnerId, tag: TagId)
    requires source != target && o !in done && (o, source) in r.rows
    ensures var p, a, b := (owner, tag), TwoStates(MovedFor(r, source, target, done), source, target, o).revisions,
                           MovedFor(r, source, target, done + {o}).revisions;
            (p in a <==> p in b) && (p in a ==> a[p] == b[p])
  {
    var before := MovedFor(r, source, target, done);
    assert (o, source) in before.rows;
    if owner == o {
      assert (o, target) in before.rows <==> (o, target) in r.rows;
    }
  }

  lemma SameRevisions(r: Relation, source: TagId, target: TagId, done: set<OwnerId>, o: OwnerId)
    requires source != target && o !in done && (o, source) in r.rows
    ensures TwoStates(MovedFor(r, source, target, done), source, target, o).revisions
            == MovedFor(r, source, target, done + {o}).revisions
  {
    var a, b := TwoStates(MovedFor(r, source, target, done), source, target, o).revisions,
                MovedFor(r, source, target, done + {o}).revisions;
    forall p: (OwnerId, TagId) ensures (p in a <==> p in b) && (p in a ==> a[p] == b[p]) {
      PairAgrees(r, source, target, done, o, p.0, p.1);
    }
    SameMaps(a, b);
  }

  lemma SameMaps(a: map<(OwnerId, TagId), nat>, b: map<(OwnerId, TagId), nat>)
    requires forall p: (OwnerId, TagId) :: (p in a <==> p in b) && (p in a ==> a[p] == b[p])
    ensures a == b
  {
  }
}
