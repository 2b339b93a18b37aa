/** Batched lookup of link targets against one look-up for each target. */
module LinkLookup {
  import opened Common

  /** A row with what it may be found by; the key may be null. */
  datatype Row = Row(id: string, name: string, key: Option<string>)

  predicate Claims(r: Row, target: string) { r.id == target || r.key == Some(target) }

  /** One target at a time: the first row, in table order, that has it as id or key. */
  function FirstMatch(rows: seq<Row>, target: string): Option<Row> {
    if rows == [] then None
    else if Claims(rows[0], target) then Some(rows[0])
    else FirstMatch(rows[1..], target)
  }

  /** The rows a statement for these targets returns, in table order. */
  function Selected(rows: seq<Row>, chunk: seq<string>): seq<Row> {
    if rows == [] then []
    else if (exists target :: target in chunk && Claims(rows[0], target)) then [rows[0]] + Selected(rows[1..], chunk)
    else Selected(rows[1..], chunk)
  }

  lemma {:induction false} SelectedHasFirst(rows: seq<Row>, chunk: seq<string>, target: string)
    requires target in chunk
    ensures FirstMatch(Selected(rows, chunk), target) == FirstMatch(rows, target)
  {
    if rows != [] { SelectedHasFirst(rows[1..], chunk, target); }
  }

  lemma {:induction false} FirstMatchNext(rows: seq<Row>, i: nat, target: string)
    requires i < |rows|
    ensures FirstMatch(rows[..i + 1], target) ==
      match FirstMatch(rows[..i], target)
      case Some(r) => Some(r)
      case None => if Claims(rows[i], target) then Some(rows[i]) else None
  {
    if i > 0 {
      assert rows[..i + 1][1..] == rows[1..][..i] && rows[..i][1..] == rows[1..][..i - 1];
      FirstMatchNext(rows[1..], i - 1, target);
    }
  }

  /** What is known of the targets in `wanted`, after their rows were looked at. */
  ghost predicate Found(found: map<string, Row>, rows: seq<Row>, wanted: set<string>) {
    forall target :: target in wanted ==>
      match FirstMatch(rows, target)
      case Some(r) => target in found && found[target] == r
      case None => target !in found
  }

  /** Statements for `chunkSize` targets at a time; the first row that claims a target
      gets it. */
  method FirstMatches(rows: seq<Row>, targets: seq<string>, chunkSize: nat) returns (found: map<string, Row>)
    requires chunkSize > 0
    ensures Found(found, rows, set t | t in targets)
    ensures found.Keys <= set t | t in targets
  {
    found := map[];
    var start := 0;
    while start < |targets|
      invariant 0 <= start
      invariant var done := if start < |targets| then targets[..start] else targets;
        Found(found, rows, set t | t in done) && found.Keys <= set t | t in done
    {
      var end := if start + chunkSize < |targets| then start + chunkSize else |targets|;
      var chunk := targets[start..end];
      found := OneStatement(rows, targets[..start], chunk, found);
      assert targets[..start] + chunk == targets[..end];
      assert targets[..|targets|] == targets;
      start := start + chunkSize;
    }
  }

  /** What one statement has found after some of its rows, over what was found before. */
  ghost predicate Scanned(found0: map<string, Row>, found: map<string, Row>, seen: seq<Row>, wanted: set<string>) {
    forall target ::
      if target in wanted && target !in found0 then
        match FirstMatch(seen, target)
        case Some(r) => target in found && found[target] == r
        case None => target !in found
      else (target in found <==> target in found0) && (target in found ==> found[target] == found0[target])
  }

  /** A row is offered for its id, then for its key. */
  function Offered(found: map<string, Row>, r: Row, wanted: set<string>): map<string, Row> {
    var a := if r.id in wanted && r.id !in found then found[r.id := r] else found;
    if r.key.Some? && r.key.value in wanted && r.key.value !in a then a[r.key.value := r] else a
  }

  lemma {:induction false} OneRowMore(found0: map<string, Row>, found: map<string, Row>, rows: seq<Row>, i: nat, wanted: set<string>)
    requires i < |rows| && Scanned(found0, found, rows[..i], wanted)
    ensures Scanned(found0, Offered(found, rows[i], wanted), rows[..i + 1], wanted)
  {
    var after := Offered(found, rows[i], wanted);
    forall target
      ensures
        if target in wanted && target !in found0 then
          match FirstMatch(rows[..i + 1], target)
          case Some(r) => target in after && after[target] == r
          case None => target !in after
        else (target in after <==> target in found0) && (target in after ==> after[target] == found0[target])
    {
      FirstMatchNext(rows, i, target);
    }
  }

  lemma {:induction false} AllScanned(found0: map<string, Row>, found: map<string, Row>, rows: seq<Row>, before: seq<string>, chunk: seq<string>)
    requires Found(found0, rows, set t | t in before) && found0.Keys <= set t | t in before
    requires Scanned(found0, found, Selected(rows, chunk), set t | t in chunk)
    ensures Found(found, rows, set t | t in before + chunk) && found.Keys <= set t | t in before + chunk
  {
    forall target | target in before + chunk
      ensures
        match FirstMatch(rows, target)
        case Some(r) => target in found && found[target] == r
        case None => target !in found
    {
      if target in chunk && target !in found0 { SelectedHasFirst(rows, chunk, target); }
    }
  }

  /** One statement; `before` was looked up already. */
  method OneStatement(rows: seq<Row>, ghost before: seq<string>, chunk: seq<string>, found0: map<string, Row>)
    returns (found: map<string, Row>)
    requires Found(found0, rows, set t | t in before) && found0.Keys <= set t | t in before
    ensures Found(found, rows, set t | t in before + chunk) && found.Keys <= set t | t in before + chunk
  {
    found := found0;
    var selected := Selected(rows, chunk);
    var wanted := set t | t in chunk;
    var i := 0;
    while i < |selected|
      invariant 0 <= i <= |selected| && Scanned(found0, found, selected[..i], wanted)
    {
      var r := selected[i];
      OneRowMore(found0, found, selected, i, wanted);
      if r.id in wanted && r.id !in found { found := found[r.id := r]; }
      if r.key.Some? && r.key.value in wanted && r.key.value !in found { found := found[r.key.value := r]; }
      i := i + 1;
    }
    assert selected[..i] == selected;
    AllScanned(found0, found, rows, before, chunk);
  }

  // ---- Works before Persons ------------------------------------------------

  datatype Kind = OfWork | OfPerson

  /** One target at a time, Works first. */
  function Resolve(works: seq<Row>, persons: seq<Row>, target: string): Option<(Kind, Row)> {
    match FirstMatch(works, target)
    case Some(r) => Some((OfWork, r))
    case None =>
      match FirstMatch(persons, target)
      case Some(r) => Some((OfPerson, r))
      case None => None
  }

  /** Row `i` is the first that has the target as its id or its key. */
  ghost predicate FirstAt(rows: seq<Row>, i: nat, target: string) {
    && i < |rows| && (rows[i].id == target || rows[i].key == Some(target))
    && forall j :: 0 <= j < i ==> rows[j].id != target && rows[j].key != Some(target)
  }

  lemma {:induction false} FirstMatchIs(rows: seq<Row>, target: string) returns (i: nat)
    ensures FirstMatch(rows, target).Some? ==> FirstAt(rows, i, target) && FirstMatch(rows, target) == Some(rows[i])
    ensures FirstMatch(rows, target).None? ==> forall j :: 0 <= j < |rows| ==> rows[j].id != target && rows[j].key != Some(target)
  {
    i := 0;
    if rows != [] && !Claims(rows[0], target) {
      var k := FirstMatchIs(rows[1..], target);
      i := k + 1;
      forall j | 0 < j < |rows| ensures rows[j] == rows[1..][j - 1] {}
    }
  }

  /** A target resolves to the first Work that has it as id or title; to the first Person
      that has it as id or last name if there is none; and to nothing if nobody has it. */
  lemma {:induction false} ResolvesExactly(works: seq<Row>, persons: seq<Row>, target: string)
    ensures var r := Resolve(works, persons, target);
      if exists i: nat :: FirstAt(works, i, target) then exists i: nat :: FirstAt(works, i, target) && r == Some((OfWork, works[i]))
      else if exists i: nat :: FirstAt(persons, i, target) then exists i: nat :: FirstAt(persons, i, target) && r == Some((OfPerson, persons[i]))
      else r == None
  {
    var i := FirstMatchIs(works, target);
    var j := FirstMatchIs(persons, target);
  }

  /** The batched look-up resolves exactly the targets that the look-up one at a time
      resolves, and to the same rows, whatever the chunk size. */
  method ResolveTargets(works: seq<Row>, persons: seq<Row>, targets: seq<string>, chunkSize: nat)
    returns (resolved: map<string, (Kind, Row)>)
    requires chunkSize > 0
    ensures forall t :: t in targets ==>
      match Resolve(works, persons, t)
      case Some(hit) => t in resolved && resolved[t] == hit
      case None => t !in resolved
    ensures forall t :: t in resolved ==> t in targets
  {
    var ofWorks := FirstMatches(works, targets, chunkSize);
    resolved := map t | t in ofWorks :: (OfWork, ofWorks[t]);
    var rest := Without(targets, ofWorks.Keys);
    if rest != [] {
      var ofPersons := FirstMatches(persons, rest, chunkSize);
      resolved := resolved + map t | t in ofPersons :: (OfPerson, ofPersons[t]);
    }
  }

  function Without(targets: seq<string>, gone: set<string>): (r: seq<string>)
    ensures forall t :: t in r <==> t in targets && t !in gone
  {
    if targets == [] then []
    else if targets[0] in gone then Without(targets[1..], gone)
    else [targets[0]] + Without(targets[1..], gone)
  }
}
