/** The backlog file: normalising items, loading, saving, and importing an
    export (terminal_mcp/backlog_store.py, terminal_mcp/backlog_db.py,
    terminal_mcp/backlog_service.py). */
module BacklogFile {
  import opened SortedKeys

  datatype Json =
    | JNull | JBool(b: bool) | JInt(n: int) | JFloat(x: real) | JStr(s: string)
    | JArr(items: seq<Json>) | JObj(fields: map<string, Json>)

  /** `not value` in Python. */
  predicate Falsy(j: Json) {
    match j
    case JNull => true
    case JBool(b) => !b
    case JInt(n) => n == 0
    case JFloat(x) => x == 0.0
    case JStr(s) => s == ""
    case JArr(items) => items == []
    case JObj(fields) => fields == map[]
  }

  /** isinstance(value, (int, float)): bool is an int. */
  predicate IsNumber(j: Json) { j.JBool? || j.JInt? || j.JFloat? }

  /** The keys the item format models; every other key is an extra. */
  datatype Field =
    | Id | Title | Description | Status | Priority | Type | Order | CreatedAt | UpdatedAt | Source
    | Dependencies | AcceptanceCriteria | Tags | Assignee | Session | NodeId | QueueTaskId | Branch
    | Worktree | BlockedReason | Evidence | History

  const HEAD_FIELDS := [Id, Title, Description, Status, Priority, Type, Order, CreatedAt, UpdatedAt, Source]
  const TAIL_FIELDS := [
    Dependencies, AcceptanceCriteria, Tags, Assignee, Session, NodeId, QueueTaskId, Branch,
    Worktree, BlockedReason, Evidence, History]

  /** The fixed order of the fields in a file. */
  const FIELD_ORDER := HEAD_FIELDS + TAIL_FIELDS

  predicate IsField(f: Field) { true }

  const FIELDS := set f: Field | IsField(f)

  /** One element of items[]: an object, split by key, or anything else. */
  datatype Entry = NotAnObject | Object(known: map<Field, Json>, extra: map<string, Json>)

  datatype Item = Item(known: map<Field, Json>, extra: map<string, Json>)

  const STATUSES := {"BACKLOG", "READY", "IN_PROGRESS", "BLOCKED", "NEEDS_REVIEW", "DONE", "CANCELLED"}
  const PRIORITIES := {"P0", "P1", "P2", "P3"}
  const EVIDENCE_FIELDS := {"commits", "tests", "deploys", "notes"}

  datatype Repair =
    | Missing(f: Field) | AssignedId | UnknownStatus | UnknownPriority | NotAList(f: Field)
    | EvidenceNotAnObject | Dropped | Reassigned

  function Default(f: Field): Json {
    match f
    case Status => JStr("BACKLOG")
    case Priority => JStr("P2")
    case Type => JStr("feature")
    case Order => JInt(0)
    case Source => JStr("unknown")
    case Id | Title | Description | CreatedAt | UpdatedAt => JStr("")
    case Dependencies | AcceptanceCriteria | Tags | History => JArr([])
    case Evidence => JObj(map[])
    case _ => JNull
  }

  predicate Present(known: map<Field, Json>, f: Field) { f in known && known[f] != JNull }

  function Filled(known: map<Field, Json>, f: Field): Json {
    if Present(known, f) then known[f] else Default(f)
  }

  predicate OneOf(j: Json, names: set<string>) { j.JStr? && j.s in names }

  predicate IsListField(f: Field) { f == Dependencies || f == AcceptanceCriteria || f == Tags || f == History }

  function WithEvidence(fields: map<string, Json>): map<string, Json> {
    map k | k in fields.Keys + EVIDENCE_FIELDS :: if k in fields then fields[k] else JArr([])
  }

  predicate IsChecked(f: Field) { f in {Id, Status, Priority, Evidence} || IsListField(f) }

  /** A checked field with its shape put right. */
  function Shaped(v: Json, f: Field, newId: string): Json {
    match f
    case Id => if Falsy(v) then JStr(newId) else v
    case Status => if OneOf(v, STATUSES) then v else JStr("BACKLOG")
    case Priority => if OneOf(v, PRIORITIES) then v else JStr("P2")
    case Evidence => if v.JObj? then v else JObj(map[])
    case _ => if IsListField(f) && !v.JArr? then JArr([]) else v
  }

  /** The last lines: evidence lists, order, and the two timestamps. */
  function Finished(v: Json, f: Field, created: Json, now: string): Json {
    match f
    case Evidence => if v.JObj? then JObj(WithEvidence(v.fields)) else v
    case Order => if IsNumber(v) then v else JInt(0)
    case CreatedAt => if Falsy(v) then JStr(now) else v
    case UpdatedAt => if !Falsy(v) then v else if Falsy(created) then JStr(now) else created
    case _ => v
  }

  /** A field of the normalised item, from the fields as read. */
  function Fixed(known: map<Field, Json>, f: Field, newId: string, now: string): Json {
    Finished(Shaped(Filled(known, f), f, newId), f, Filled(known, CreatedAt), now)
  }

  function When(c: bool, r: Repair): seq<Repair> { if c then [r] else [] }

  /** The fields whose shape is checked once all are filled, in order. */
  const CHECKED := [Id, Status, Priority, Dependencies, AcceptanceCriteria, Tags, History, Evidence]

  function ShapeRepair(v: Json, f: Field): seq<Repair> {
    match f
    case Id => When(Falsy(v), AssignedId)
    case Status => When(!OneOf(v, STATUSES), UnknownStatus)
    case Priority => When(!OneOf(v, PRIORITIES), UnknownPriority)
    case Evidence => When(!v.JObj?, EvidenceNotAnObject)
    case _ => When(!v.JArr?, NotAList(f))
  }

  function ShapeRepairs(known: map<Field, Json>, fs: seq<Field>): seq<Repair> {
    if fs == [] then [] else ShapeRepair(Filled(known, fs[0]), fs[0]) + ShapeRepairs(known, fs[1..])
  }

  function MissingRepairs(known: map<Field, Json>, fs: seq<Field>): seq<Repair> {
    if fs == [] then []
    else When((fs[0] == Id || fs[0] == Title) && !Present(known, fs[0]), Missing(fs[0])) + MissingRepairs(known, fs[1..])
  }

  function Repairs(known: map<Field, Json>): seq<Repair> {
    MissingRepairs(known, FIELD_ORDER) + ShapeRepairs(known, CHECKED)
  }

  /** normalise_item for an object. */
  function Normalised(known: map<Field, Json>, extra: map<string, Json>, newId: string, now: string): Item {
    Item(map f | f in FIELDS :: Fixed(known, f, newId, now), extra)
  }

  // ------------------------------------------------------------- normal items

  /** What makes an item normal: every field is there and has its shape. */
  ghost predicate Normal(item: Item) {
    item.known.Keys == FIELDS && forall f :: f in FIELDS ==> FieldIsNormal(item.known[f], f)
  }

  ghost predicate FieldIsNormal(v: Json, f: Field) {
    match f
    case Id => !Falsy(v)
    case Title => v != JNull
    case Status => OneOf(v, STATUSES)
    case Priority => OneOf(v, PRIORITIES)
    case Evidence => v.JObj? && EVIDENCE_FIELDS <= v.fields.Keys
    case Order => IsNumber(v)
    case CreatedAt | UpdatedAt => !Falsy(v)
    case Description | Type | Source => v != JNull
    case Dependencies | AcceptanceCriteria | Tags | History => v.JArr?
    case _ => true
  }

  /** What normalise_item returns is normal, and keeps every extra key. */
  lemma NormalisedIsNormal(known: map<Field, Json>, extra: map<string, Json>, newId: string, now: string)
    requires newId != "" && now != ""
    ensures Normal(Normalised(known, extra, newId, now)) && Normalised(known, extra, newId, now).extra == extra
  {
    hide Fixed, FieldIsNormal;
    forall f: Field
      ensures FieldIsNormal(Fixed(known, f, newId, now), f)
    {
      FixedIsNormal(known, f, newId, now);
    }
  }

  lemma FixedIsNormal(known: map<Field, Json>, f: Field, newId: string, now: string)
    requires newId != "" && now != ""
    ensures FieldIsNormal(Fixed(known, f, newId, now), f)
  {
  }

  /** A normal item is left alone, without a repair, whatever new id and time
      are at hand; and these are the only ones left alone. */
  lemma NormalIff(item: Item, newId: string, now: string)
    requires newId != "" && now != ""
    ensures Normal(item) ==> Repairs(item.known) == []
    ensures Normal(item) <==> Normalised(item.known, item.extra, newId, now) == item
  {
    assert forall f :: IsField(f);
    var again := Normalised(item.known, item.extra, newId, now);
    NormalisedIsNormal(item.known, item.extra, newId, now);
    if Normal(item) {
      forall f | f in FIELDS
        ensures Fixed(item.known, f, newId, now) == item.known[f]
      {
        NormalFieldStays(item, f, newId, now);
      }
      assert again.known == item.known;
      assert forall f :: f in FIELDS ==> FieldIsNormal(item.known[f], f);
      NormalNeedsNoRepair(item);
    }
  }

  lemma NormalFieldStays(item: Item, f: Field, newId: string, now: string)
    requires Normal(item)
    ensures Fixed(item.known, f, newId, now) == item.known[f]
  {
    assert IsField(f) && FieldIsNormal(item.known[f], f);
    if f == Evidence {
      var e := item.known[f].fields;
      assert WithEvidence(e) == e;
    }
  }

  lemma {:induction false} NormalShapes(item: Item, fs: seq<Field>)
    requires Normal(item) && forall i :: 0 <= i < |fs| ==> IsChecked(fs[i])
    ensures ShapeRepairs(item.known, fs) == []
  {
    if fs != [] {
      assert IsField(fs[0]) && FieldIsNormal(item.known[fs[0]], fs[0]);
      NormalShapes(item, fs[1..]);
    }
  }

  lemma {:induction false} NormalIsPresent(item: Item, fs: seq<Field>)
    requires Normal(item)
    ensures MissingRepairs(item.known, fs) == []
  {
    if fs != [] {
      assert IsField(fs[0]) && FieldIsNormal(item.known[fs[0]], fs[0]);
      NormalIsPresent(item, fs[1..]);
    }
  }

  lemma NormalNeedsNoRepair(item: Item)
    requires Normal(item)
    ensures Repairs(item.known) == []
  {
    NormalIsPresent(item, FIELD_ORDER);
    NormalShapes(item, CHECKED);
  }

  /** Nothing that is right is touched: a field that is there in its shape comes
      out as it went in, however broken the rest of the item is. */
  lemma RightFieldsAreKept(known: map<Field, Json>, extra: map<string, Json>, f: Field, newId: string, now: string)
    requires Present(known, f) && FieldIsNormal(known[f], f)
    ensures f in Normalised(known, extra, newId, now).known
    ensures Normalised(known, extra, newId, now).known[f] == known[f]
  {
    assert IsField(f);
    if f == Evidence {
      assert WithEvidence(known[f].fields) == known[f].fields;
    }
  }

  /** Normalising twice is normalising once, and the second pass repairs
      nothing. */
  lemma NormalisingIsIdempotent(known: map<Field, Json>, extra: map<string, Json>,
                                                   newId: string, now: string, newId': string, now': string)
    requires newId != "" && now != "" && newId' != "" && now' != ""
    ensures var item := Normalised(known, extra, newId, now);
            && Normalised(item.known, item.extra, newId', now') == item
            && Repairs(item.known) == []
  {
    hide Normal, Normalised, Repairs;
    NormalisedIsNormal(known, extra, newId, now);
    NormalIff(Normalised(known, extra, newId, now), newId', now');
  }

  // ------------------------------------------------------------------ methods

  lemma EveryFieldIsListed(f: Field)
    ensures f in FIELD_ORDER
  {
    InHeadOrTail(f);
    if f in HEAD_FIELDS {
      var i :| 0 <= i < |HEAD_FIELDS| && HEAD_FIELDS[i] == f;
      assert FIELD_ORDER[i] == f;
    } else {
      var i :| 0 <= i < |TAIL_FIELDS| && TAIL_FIELDS[i] == f;
      assert FIELD_ORDER[|HEAD_FIELDS| + i] == f;
    }
  }

  lemma InHeadOrTail(f: Field)
    ensures f in HEAD_FIELDS || f in TAIL_FIELDS
  {
  }

  /** The first loop of normalise_item. */
  method FillFields(known: map<Field, Json>, order: seq<Field>) returns (item: map<Field, Json>, repairs: seq<Repair>)
    ensures forall f :: f in item <==> f in order
    ensures forall f :: f in item ==> item[f] == Filled(known, f)
    ensures repairs == MissingRepairs(known, order)
  {
    hide Filled, Present, When, MissingRepairs;
    item, repairs := map[], [];
    NothingMissing(known, order, []);
    for i := 0 to |order|
      invariant forall f :: f in item <==> f in order[..i]
      invariant forall f :: f in item ==> item[f] == Filled(known, f)
      invariant repairs + MissingRepairs(known, order[i..]) == MissingRepairs(known, order)
    {
      var f := order[i];
      MissingUnfolds(known, order, i, repairs);
      assert order[..i + 1] == order[..i] + [f];
      item := item[f := Filled(known, f)];
      repairs := repairs + When((f == Id || f == Title) && !Present(known, f), Missing(f));
    }
    assert order[..|order|] == order;
    NothingMissing(known, order, repairs);
  }

  lemma {:induction false} MissingUnfolds(known: map<Field, Json>, order: seq<Field>, i: nat, before: seq<Repair>)
    requires i < |order|
    ensures var f := order[i];
            before + MissingRepairs(known, order[i..])
            == (before + When((f == Id || f == Title) && !Present(known, f), Missing(f))) + MissingRepairs(known, order[i + 1..])
  {
    assert order[i..][0] == order[i] && order[i..][1..] == order[i + 1..];
  }

  lemma {:induction false} NothingMissing(known: map<Field, Json>, order: seq<Field>, repairs: seq<Repair>)
    ensures order[0..] == order && [] + MissingRepairs(known, order[0..]) == MissingRepairs(known, order)
    ensures repairs + MissingRepairs(known, order[|order|..]) == repairs
  {
    assert order[0..] == order;
  }

  /** The checks in the middle, one field after another. */
  method ShapeFields(ghost known: map<Field, Json>, filled: map<Field, Json>, order: seq<Field>, newId: string)
    returns (item: map<Field, Json>, repairs: seq<Repair>)
    requires forall f :: IsField(f) ==> f in filled && filled[f] == Filled(known, f)
    requires forall i, j :: 0 <= i < j < |order| ==> order[i] != order[j]
    ensures item.Keys == filled.Keys
    ensures forall f :: f in item ==> item[f] == if f in order then Shaped(filled[f], f, newId) else filled[f]
    ensures repairs == ShapeRepairs(known, order)
  {
    hide Shaped, ShapeRepair, ShapeRepairs, Filled;
    item, repairs := filled, [];
    NoShapes(known, order, []);
    for i := 0 to |order|
      invariant item.Keys == filled.Keys
      invariant forall f :: f in item ==> item[f] == if f in order[..i] then Shaped(filled[f], f, newId) else filled[f]
      invariant repairs + ShapeRepairs(known, order[i..]) == ShapeRepairs(known, order)
    {
      var f := order[i];
      assert IsField(f);
      ShapesUnfold(known, order, i, repairs);
      assert order[..i + 1] == order[..i] + [f];
      repairs := repairs + ShapeRepair(item[f], f);
      item := item[f := Shaped(item[f], f, newId)];
    }
    assert order[..|order|] == order;
    NoShapes(known, order, repairs);
  }

  lemma {:induction false} ShapesUnfold(known: map<Field, Json>, order: seq<Field>, i: nat, before: seq<Repair>)
    requires i < |order|
    ensures before + ShapeRepairs(known, order[i..])
            == (before + ShapeRepair(Filled(known, order[i]), order[i])) + ShapeRepairs(known, order[i + 1..])
  {
    assert order[i..][0] == order[i] && order[i..][1..] == order[i + 1..];
  }

  lemma {:induction false} NoShapes(known: map<Field, Json>, order: seq<Field>, repairs: seq<Repair>)
    ensures order[0..] == order && [] + ShapeRepairs(known, order[0..]) == ShapeRepairs(known, order)
    ensures repairs + ShapeRepairs(known, order[|order|..]) == repairs
  {
    assert order[0..] == order;
  }

  method NormaliseItem(known: map<Field, Json>, extra: map<string, Json>, newId: string, now: string)
    returns (item: Item, repairs: seq<Repair>)
    requires newId != "" && now != ""
    ensures item == Normalised(known, extra, newId, now)
    ensures repairs == Repairs(known)
  {
    hide *;
    var filled, missing := FillFields(known, FIELD_ORDER);
    forall f: Field
      ensures f in filled
    {
      EveryFieldIsListed(f);
    }
    CheckedAreDistinct();
    var shaped, checks := ShapeFields(known, filled, CHECKED, newId);
    ShapesAreRight(known, shaped, newId);
    var finished := FinishFields(shaped, now);
    item := Item(finished, extra);
    repairs := missing + checks;
    StepsMakeTheItem(known, extra, shaped, item, newId, now);
    RepairsInTwo(known);
  }

  lemma {:induction false} RepairsInTwo(known: map<Field, Json>)
    ensures Repairs(known) == MissingRepairs(known, FIELD_ORDER) + ShapeRepairs(known, CHECKED)
  {
  }

  lemma StepsMakeTheItem(known: map<Field, Json>, extra: map<string, Json>, shaped: map<Field, Json>,
                                            item: Item, newId: string, now: string)
    requires shaped.Keys == FIELDS && CreatedAt in shaped && shaped[CreatedAt] == Filled(known, CreatedAt)
    requires forall f :: f in shaped ==> shaped[f] == Shaped(Filled(known, f), f, newId)
    requires item.extra == extra && item.known.Keys == FIELDS
    requires forall f :: f in item.known ==> item.known[f] == Finished(shaped[f], f, shaped[CreatedAt], now)
    ensures item == Normalised(known, extra, newId, now)
  {
    hide Filled, Shaped, Finished;
  }

  lemma CheckedAreDistinct()
    ensures forall i, j :: 0 <= i < j < |CHECKED| ==> CHECKED[i] != CHECKED[j]
    ensures forall f :: IsChecked(f) <==> f in CHECKED
  {
    assert CHECKED[0] == Id && CHECKED[1] == Status && CHECKED[2] == Priority && CHECKED[3] == Dependencies;
    assert CHECKED[4] == AcceptanceCriteria && CHECKED[5] == Tags && CHECKED[6] == History && CHECKED[7] == Evidence;
  }

  lemma ShapesAreRight(known: map<Field, Json>, shaped: map<Field, Json>, newId: string)
    requires forall f: Field :: IsField(f) ==> f in shaped
    requires forall f :: f in shaped ==>
               shaped[f] == if f in CHECKED then Shaped(Filled(known, f), f, newId) else Filled(known, f)
    ensures forall f :: f in shaped ==> shaped[f] == Shaped(Filled(known, f), f, newId)
    ensures shaped.Keys == FIELDS && Evidence in shaped && shaped[Evidence].JObj?
    ensures CreatedAt in shaped && shaped[CreatedAt] == Filled(known, CreatedAt)
  {
    CheckedAreDistinct();
    assert IsField(Evidence) && IsField(CreatedAt);
    forall f | f in shaped && f !in CHECKED
      ensures Shaped(Filled(known, f), f, newId) == Filled(known, f)
    {
      assert !IsChecked(f);
    }
    assert !IsChecked(CreatedAt) && IsChecked(Evidence);
  }

  method FinishFields(shaped: map<Field, Json>, now: string) returns (item: map<Field, Json>)
    requires shaped.Keys == FIELDS
    requires Evidence in shaped && shaped[Evidence].JObj? && CreatedAt in shaped
    ensures item.Keys == shaped.Keys
    ensures forall f :: f in item ==> item[f] == Finished(shaped[f], f, shaped[CreatedAt], now)
  {
    hide Falsy, IsNumber, WithEvidence;
    assert IsField(Order) && IsField(CreatedAt) && IsField(UpdatedAt);
    item := shaped[Evidence := JObj(WithEvidence(shaped[Evidence].fields))];
    if !IsNumber(item[Order]) {
      item := item[Order := JInt(0)];
    }
    if Falsy(item[CreatedAt]) {
      item := item[CreatedAt := JStr(now)];
    }
    if Falsy(item[UpdatedAt]) {
      item := item[UpdatedAt := item[CreatedAt]];
    }
  }
}
