/** What becomes of absent and broken fields of a backlog item, and which repairs
    are reported for them (terminal_mcp/backlog_store.py, normalise_item). */
module BacklogRepairs {
  import opened Options
  import opened BacklogFile

  lemma FieldIsFixed(known: map<Field, Json>, extra: map<string, Json>, newId: string, now: string, f: Field)
    ensures f in Normalised(known, extra, newId, now).known
    ensures Normalised(known, extra, newId, now).known[f] == Fixed(known, f, newId, now)
  {
    hide Fixed;
    assert IsField(f);
  }

  const NO_EVIDENCE := map["commits" := JArr([]), "tests" := JArr([]), "deploys" := JArr([]), "notes" := JArr([])]

  /** What stands for an absent or null field; a missing update time is the time of
      creation, and a missing time of creation is now. */
  function InPlaceOf(f: Field, newId: string, now: string, created: Json): Json {
    match f
    case Id => JStr(newId)
    case Status => JStr("BACKLOG")
    case Priority => JStr("P2")
    case Type => JStr("feature")
    case Order => JInt(0)
    case Source => JStr("unknown")
    case Title | Description => JStr("")
    case CreatedAt => JStr(now)
    case UpdatedAt => created
    case Dependencies | AcceptanceCriteria | Tags | History => JArr([])
    case Evidence => JObj(NO_EVIDENCE)
    case _ => JNull
  }

  lemma AbsentFieldsBecome(known: map<Field, Json>, extra: map<string, Json>, newId: string, now: string, f: Field)
    requires newId != "" && now != "" && !Present(known, f)
    ensures var out := Normalised(known, extra, newId, now).known;
            f in out && CreatedAt in out && out[f] == InPlaceOf(f, newId, now, out[CreatedAt])
  {
    hide Normalised;
    FieldIsFixed(known, extra, newId, now, f);
    FieldIsFixed(known, extra, newId, now, CreatedAt);
    AbsentIsFixed(known, newId, now, f);
  }

  lemma AbsentIsFixed(known: map<Field, Json>, newId: string, now: string, f: Field)
    requires newId != "" && now != "" && !Present(known, f)
    ensures Fixed(known, f, newId, now) == InPlaceOf(f, newId, now, Fixed(known, CreatedAt, newId, now))
  {
    hide OneOf;
    match f
    case Evidence =>
      var empty: map<string, Json> := map[];
      assert WithEvidence(empty).Keys == NO_EVIDENCE.Keys;
      assert WithEvidence(empty) == NO_EVIDENCE;
    case Status => KnownNames();
    case Priority => KnownNames();
    case _ =>
  }

  lemma KnownNames()
    ensures OneOf(JStr("BACKLOG"), STATUSES) && OneOf(JStr("P2"), PRIORITIES)
  {
  }

  /** Whether a field that is there has its shape. */
  predicate InShape(f: Field, v: Json) {
    match f
    case Id | CreatedAt | UpdatedAt => !Falsy(v)
    case Status => OneOf(v, STATUSES)
    case Priority => OneOf(v, PRIORITIES)
    case Order => IsNumber(v)
    case Dependencies | AcceptanceCriteria | Tags | History => v.JArr?
    case Evidence => v.JObj?
    case _ => true
  }

  /** A field that is there: out of shape it becomes what an absent one would, in
      shape it is kept, and evidence only gains the lists it lacks. */
  lemma PresentFieldsBecome(known: map<Field, Json>, extra: map<string, Json>, newId: string, now: string, f: Field)
    requires newId != "" && now != "" && Present(known, f)
    ensures var out := Normalised(known, extra, newId, now).known;
            && f in out && CreatedAt in out
            && (!InShape(f, known[f]) ==> out[f] == InPlaceOf(f, newId, now, out[CreatedAt]))
            && (InShape(f, known[f]) && f != Evidence ==> out[f] == known[f])
            && (InShape(f, known[f]) && f == Evidence ==>
                  && out[f].JObj? && out[f].fields.Keys == known[f].fields.Keys + NO_EVIDENCE.Keys
                  && forall k :: k in out[f].fields ==> out[f].fields[k] == if k in known[f].fields then known[f].fields[k] else JArr([]))
  {
    hide Normalised;
    FieldIsFixed(known, extra, newId, now, f);
    FieldIsFixed(known, extra, newId, now, CreatedAt);
    if f == Evidence {
      EvidenceIsFixed(known, newId, now);
    } else {
      PresentIsFixed(known, newId, now, f);
    }
  }

  lemma EvidenceIsFixed(known: map<Field, Json>, newId: string, now: string)
    requires Present(known, Evidence)
    ensures var v := known[Evidence];
            Fixed(known, Evidence, newId, now) == if v.JObj? then JObj(WithEvidence(v.fields)) else JObj(NO_EVIDENCE)
    ensures EVIDENCE_FIELDS == NO_EVIDENCE.Keys
  {
    var empty: map<string, Json> := map[];
    assert WithEvidence(empty) == NO_EVIDENCE;
  }

  lemma PresentIsFixed(known: map<Field, Json>, newId: string, now: string, f: Field)
    requires newId != "" && now != "" && Present(known, f) && f != Evidence
    ensures Fixed(known, f, newId, now)
            == if InShape(f, known[f]) then known[f] else InPlaceOf(f, newId, now, Fixed(known, CreatedAt, newId, now))
  {
    hide OneOf, WithEvidence;
  }

  lemma {:induction false} ShapeReported(known: map<Field, Json>, fs: seq<Field>, r: Repair)
    ensures r in ShapeRepairs(known, fs) <==> exists i :: 0 <= i < |fs| && r in ShapeRepair(Filled(known, fs[i]), fs[i])
  {
    hide ShapeRepair, Filled;
    if fs != [] {
      ShapeReported(known, fs[1..], r);
      if i :| 0 <= i < |fs| && r in ShapeRepair(Filled(known, fs[i]), fs[i]) {
        assert i > 0 ==> fs[1..][i - 1] == fs[i];
      }
      if i :| 0 <= i < |fs[1..]| && r in ShapeRepair(Filled(known, fs[1..][i]), fs[1..][i]) {
        assert fs[i + 1] == fs[1..][i];
      }
    }
  }

  lemma {:induction false} MissingReported(known: map<Field, Json>, fs: seq<Field>, r: Repair)
    ensures r in MissingRepairs(known, fs) <==>
            r.Missing? && (r.f == Id || r.f == Title) && r.f in fs && !Present(known, r.f)
  {
    if fs != [] {
      MissingReported(known, fs[1..], r);
      assert fs == [fs[0]] + fs[1..];
    }
  }

  /** What a repair says of the fields as read. */
  predicate Deserved(known: map<Field, Json>, r: Repair) {
    match r
    case Missing(f) => (f == Id || f == Title) && !Present(known, f)
    case AssignedId => Present(known, Id) ==> Falsy(known[Id])
    case UnknownStatus => Present(known, Status) && !OneOf(known[Status], STATUSES)
    case UnknownPriority => Present(known, Priority) && !OneOf(known[Priority], PRIORITIES)
    case NotAList(f) => f in {Dependencies, AcceptanceCriteria, Tags, History} && Present(known, f) && !known[f].JArr?
    case EvidenceNotAnObject => Present(known, Evidence) && !known[Evidence].JObj?
    case _ => false
  }

  /** A repair is reported exactly when the fields as read call for it: absent
      fields are silently filled, except that a missing id or title is named. */
  lemma ReportedIff(known: map<Field, Json>, r: Repair)
    ensures r in Repairs(known) <==> Deserved(known, r)
  {
    hide MissingRepairs, ShapeRepairs;
    ShapeReported(known, CHECKED, r);
    MissingReported(known, FIELD_ORDER, r);
    EveryFieldIsListed(Id);
    EveryFieldIsListed(Title);
    CheckedOnes(known, r);
  }

  lemma CheckedOnes(known: map<Field, Json>, r: Repair)
    ensures (exists i :: 0 <= i < |CHECKED| && r in ShapeRepair(Filled(known, CHECKED[i]), CHECKED[i])) <==>
            (!r.Missing? && Deserved(known, r))
  {
    var at := CheckedAt(r);
    hide ShapeRepair, Filled, Deserved;
    forall i | 0 <= i < |CHECKED|
      ensures r in ShapeRepair(Filled(known, CHECKED[i]), CHECKED[i]) <==> at == Some(CHECKED[i]) && Deserved(known, r)
    {
      ShapeDeserved(known, CHECKED[i], r);
    }
    AtIsChecked(r);
    UncheckedIsNot(known, r);
  }

  /** The field whose shape a repair speaks of. */
  function CheckedAt(r: Repair): Option<Field> {
    match r
    case AssignedId => Some(Id)
    case UnknownStatus => Some(Status)
    case UnknownPriority => Some(Priority)
    case NotAList(f) => if f in {Dependencies, AcceptanceCriteria, Tags, History} then Some(f) else None
    case EvidenceNotAnObject => Some(Evidence)
    case _ => None
  }

  lemma AtIsChecked(r: Repair)
    ensures CheckedAt(r).Some? ==> CheckedAt(r).value in CHECKED
  {
    assert CHECKED[0] == Id && CHECKED[1] == Status && CHECKED[2] == Priority && CHECKED[3] == Dependencies;
    assert CHECKED[4] == AcceptanceCriteria && CHECKED[5] == Tags && CHECKED[6] == History && CHECKED[7] == Evidence;
  }

  lemma UncheckedIsNot(known: map<Field, Json>, r: Repair)
    ensures CheckedAt(r) == None && !r.Missing? ==> !Deserved(known, r)
    ensures CheckedAt(r).Some? ==> !r.Missing?
  {
  }

  lemma ShapeDeserved(known: map<Field, Json>, f: Field, r: Repair)
    requires f in CHECKED
    ensures r in ShapeRepair(Filled(known, f), f) <==> CheckedAt(r) == Some(f) && Deserved(known, r)
  {
    hide OneOf;
    KnownNames();
  }
}
