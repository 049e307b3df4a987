/** Reconciling a historical projection into the canonical backlog
    (terminal_mcp/backlog_db.py). A JSON value inside a list or a scalar field
    is named by its canonical text, the key json.dumps gives it. */
module Reconcile {
  import opened Options
  import opened BacklogDb
  import opened SortedKeys

  type Key = string

  datatype ListField = Dependencies | AcceptanceCriteria | Tags | History

  const LIST_FIELDS := {Dependencies, AcceptanceCriteria, Tags, History}

  const SCALAR_FIELDS := [
    "title", "description", "status", "priority", "type", "order", "created_at",
    "updated_at", "source", "assignee", "session", "node_id", "queue_task_id",
    "branch", "worktree", "blocked_reason"]

  /** An evidence field is a list, or something else. */
  datatype Ev = EvList(keys: seq<Key>) | EvScalar(key: Key)

  type Evidence = map<string, Ev>

  /** An item besides its id. A list field may be missing, and so may evidence. */
  datatype Payload = Payload(
    scalars: map<string, Key>, lists: map<ListField, seq<Key>>, evidence: Option<Evidence>)

  // ---------------------------------------------------------------- one item

  function StableUnion(current: seq<Key>, historical: seq<Key>): seq<Key> {
    SortKeys(current + historical)
  }

  function ListOf(p: Payload, f: ListField): seq<Key> { if f in p.lists then p.lists[f] else [] }

  function EvidenceOf(p: Payload): Evidence { if p.evidence.Some? then p.evidence.value else map[] }

  predicate IsList(e: Evidence, f: string) { f in e && e[f].EvList? }

  function KeysIn(e: Evidence, f: string): seq<Key> { if IsList(e, f) then e[f].keys else [] }

  function MergedField(c: Evidence, h: Evidence, f: string): Ev
    requires f in c || f in h
  {
    if IsList(c, f) || IsList(h, f) then EvList(StableUnion(KeysIn(c, f), KeysIn(h, f)))
    else if f in c then c[f] else h[f]
  }

  function MergedEvidence(c: Evidence, h: Evidence): Evidence {
    map f | f in c.Keys + h.Keys :: MergedField(c, h, f)
  }

  /** reconcile_item: canonical scalars stay, metadata is added. */
  function Merged(c: Payload, h: Payload): Payload {
    c.(lists := map f | f in LIST_FIELDS :: StableUnion(ListOf(c, f), ListOf(h, f)),
       evidence := Some(MergedEvidence(EvidenceOf(c), EvidenceOf(h))))
  }

  function Lookup(m: map<string, Key>, f: string): Option<Key> { if f in m then Some(m[f]) else None }

  function Differing(c: Payload, h: Payload, fields: seq<string>): seq<string> {
    if fields == [] then []
    else (if Lookup(c.scalars, fields[0]) != Lookup(h.scalars, fields[0]) then [fields[0]] else [])
         + Differing(c, h, fields[1..])
  }

  // ------------------------------------------------------------ one document

  datatype Report = Report(
    rows: Rows<Payload>, added: seq<Id>, updated: seq<Id>, same: seq<Id>,
    conflicts: seq<(Id, seq<string>)>)

  function One(r: Report, h: Item<Payload>): Report {
    if h.id !in r.rows then
      r.(rows := r.rows[h.id := Merged(h.payload, h.payload)], added := r.added + [h.id])
    else
      var c := r.rows[h.id];
      var m := Merged(c, h.payload);
      var differing := Differing(c, h.payload, SCALAR_FIELDS);
      var r' := if differing == [] then r else r.(conflicts := r.conflicts + [(h.id, differing)]);
      if m == c then r'.(same := r'.same + [h.id])
      else r'.(rows := r'.rows[h.id := m], updated := r'.updated + [h.id])
  }

  function Fold(r: Report, incoming: seq<Item<Payload>>): Report
    decreases |incoming|
  {
    if incoming == [] then r else Fold(One(r, incoming[0]), incoming[1..])
  }

  function Reconciled(rows: Rows<Payload>, incoming: seq<Item<Payload>>): Report {
    Fold(Report(rows, [], [], [], []), incoming)
  }

  predicate Changed(r: Report) { r.added != [] || r.updated != [] }

  /** reconcile_document: the report does not depend on dryRun, and only a real
      run that changes something writes, once. */
  method ReconcileDocument(db: BacklogStore<Payload>, incoming: seq<Item<Payload>>, dryRun: bool)
    returns (report: Report, revision: nat)
    modifies db
    ensures report == Reconciled(old(db.rows), incoming)
    ensures db.known == old(db.known)
    ensures db.rows == if Changed(report) && !dryRun then report.rows else old(db.rows)
    ensures db.revision == old(db.revision) + if Changed(report) && !dryRun && db.known then 1 else 0
    ensures revision == if db.known then db.revision else 0
    ensures db.revision == old(db.revision) + if db.rows != old(db.rows) && db.known then 1 else 0
    ensures !dryRun ==> AllAbsorbed(db.rows, incoming)
  {
    hide AllAbsorbed, One;
    ghost var was := db.rows;
    report := Report(db.rows, [], [], [], []);
    for i := 0 to |incoming|
      invariant Fold(report, incoming[i..]) == Reconciled(old(db.rows), incoming)
      invariant db.rows == old(db.rows) && db.known == old(db.known) && db.revision == old(db.revision)
    {
      assert incoming[i..][0] == incoming[i] && incoming[i..][1..] == incoming[i + 1..];
      report := One(report, incoming[i]);
    }
    assert incoming[|incoming|..] == [];
    revision := db.Revision();
    ChangedIff(was, incoming);
    FoldAbsorbsAll(Report(was, [], [], [], []), incoming);
    if Changed(report) && !dryRun {
      revision := db.ReplaceRows(report.rows);
    }
  }

  /** The fields reported as conflicting are exactly those that differ. */
  lemma {:induction false} DifferingIs(c: Payload, h: Payload, fields: seq<string>, f: string)
    ensures f in Differing(c, h, fields) <==> f in fields && Lookup(c.scalars, f) != Lookup(h.scalars, f)
  {
    if fields != [] {
      DifferingIs(c, h, fields[1..], f);
      assert fields == [fields[0]] + fields[1..];
    }
  }

  // ---------------------------------------------------------- union of lists

  /** Every element of both sides survives, nothing else appears, and the order
      is the sorted one. */
  lemma UnionIs(c: seq<Key>, h: seq<Key>)
    ensures Sorted(StableUnion(c, h)) && Elems(StableUnion(c, h)) == Elems(c) + Elems(h)
  {
    SortKeysSorts(c + h);
    ElemsOfAppend(c, h);
  }

  /** A list absorbs another: it is in canonical order and has all of it. */
  ghost predicate ListAbsorbs(m: seq<Key>, h: seq<Key>) { Sorted(m) && Elems(h) <= Elems(m) }

  lemma UnionAbsorbs(c: seq<Key>, h: seq<Key>, g: seq<Key>)
    ensures ListAbsorbs(StableUnion(c, h), h)
    ensures ListAbsorbs(c, g) ==> ListAbsorbs(StableUnion(c, h), g)
    ensures StableUnion(c, h) == c <==> ListAbsorbs(c, h)
  {
    UnionIs(c, h);
    if ListAbsorbs(c, h) {
      SortedIsUnique(StableUnion(c, h), c);
    }
  }

  // ------------------------------------------------------------ what absorbs

  ghost predicate EvAbsorbs(m: Evidence, h: Evidence, f: string) {
    && (f in h ==> f in m)
    && (IsList(h, f) ==> IsList(m, f))
    && (IsList(m, f) ==> ListAbsorbs(m[f].keys, KeysIn(h, f)))
  }

  /** Everything `h` has to add is in `m` already, in canonical form. */
  ghost predicate Absorbs(m: Payload, h: Payload) {
    && m.lists.Keys == LIST_FIELDS && m.evidence.Some?
    && (forall f :: f in LIST_FIELDS ==> ListAbsorbs(ListOf(m, f), ListOf(h, f)))
    && (forall f :: f in EvidenceOf(m).Keys + EvidenceOf(h).Keys ==> EvAbsorbs(EvidenceOf(m), EvidenceOf(h), f))
  }

  lemma FieldAbsorbs(c: Evidence, h: Evidence, g: Evidence, f: string)
    requires f in c || f in h
    ensures EvAbsorbs(MergedEvidence(c, h), h, f)
    ensures EvAbsorbs(c, g, f) ==> EvAbsorbs(MergedEvidence(c, h), g, f)
    ensures f in c && EvAbsorbs(c, h, f) <==> f in c && MergedField(c, h, f) == c[f]
  {
    UnionAbsorbs(KeysIn(c, f), KeysIn(h, f), KeysIn(g, f));
    UnionAbsorbs(KeysIn(c, f), KeysIn(h, f), []);
  }

  /** A merge absorbs what it merged in, and whatever was absorbed before. */
  lemma MergeAbsorbs(c: Payload, h: Payload, g: Payload)
    ensures Absorbs(Merged(c, h), h)
    ensures Absorbs(c, g) ==> Absorbs(Merged(c, h), g)
  {
    var m := Merged(c, h);
    forall f | f in LIST_FIELDS
      ensures ListAbsorbs(ListOf(m, f), ListOf(h, f))
      ensures ListAbsorbs(ListOf(c, f), ListOf(g, f)) ==> ListAbsorbs(ListOf(m, f), ListOf(g, f))
    {
      UnionAbsorbs(ListOf(c, f), ListOf(h, f), ListOf(g, f));
    }
    forall f | f in EvidenceOf(c) || f in EvidenceOf(h)
      ensures EvAbsorbs(EvidenceOf(m), EvidenceOf(h), f)
      ensures EvAbsorbs(EvidenceOf(c), EvidenceOf(g), f) ==> EvAbsorbs(EvidenceOf(m), EvidenceOf(g), f)
    {
      FieldAbsorbs(EvidenceOf(c), EvidenceOf(h), EvidenceOf(g), f);
    }
  }

  lemma SameListsIff(m: Payload, h: Payload)
    ensures Merged(m, h).lists == m.lists <==>
            m.lists.Keys == LIST_FIELDS && forall f :: f in LIST_FIELDS ==> ListAbsorbs(ListOf(m, f), ListOf(h, f))
  {
    hide StableUnion, ListAbsorbs, MergedEvidence;
    var n := Merged(m, h);
    assert n.lists.Keys == LIST_FIELDS;
    forall f | f in LIST_FIELDS
      ensures n.lists[f] == ListOf(m, f) <==> ListAbsorbs(ListOf(m, f), ListOf(h, f))
    {
      UnionAbsorbs(ListOf(m, f), ListOf(h, f), []);
    }
    if m.lists.Keys == LIST_FIELDS && forall f :: f in LIST_FIELDS ==> ListAbsorbs(ListOf(m, f), ListOf(h, f)) {
      assert forall f :: f in LIST_FIELDS ==> n.lists[f] == m.lists[f];
      assert n.lists == m.lists;
    }
  }

  lemma SameEvidenceIff(m: Evidence, h: Evidence)
    ensures MergedEvidence(m, h) == m <==> forall f :: f in m.Keys + h.Keys ==> EvAbsorbs(m, h, f)
  {
    hide EvAbsorbs, MergedField;
    var n := MergedEvidence(m, h);
    forall f | f in m.Keys + h.Keys
      ensures EvAbsorbs(m, h, f) <==> f in m && n[f] == m[f]
    {
      FieldAbsorbs(m, h, map[], f);
      if EvAbsorbs(m, h, f) {
        AbsorbedIsPresent(m, h, f);
      }
    }
    if forall f :: f in m.Keys + h.Keys ==> EvAbsorbs(m, h, f) {
      assert n.Keys == m.Keys;
    }
  }

  lemma AbsorbedIsPresent(m: Evidence, h: Evidence, f: string)
    requires f in m.Keys + h.Keys && EvAbsorbs(m, h, f)
    ensures f in m
  {
  }

  /** Merging leaves an item alone exactly when it absorbs the other. */
  lemma UnchangedIff(m: Payload, h: Payload)
    ensures Merged(m, h) == m <==> Absorbs(m, h)
  {
    hide MergedEvidence, EvAbsorbs, ListAbsorbs, StableUnion;
    SameListsIff(m, h);
    SameEvidenceIff(EvidenceOf(m), EvidenceOf(h));
  }

  // --------------------------------------------------------------- two runs

  /** The same item as far as merging looks: scalars may differ, as they do when
      a file without timestamps is loaded at two times. */
  predicate SameMetadata(a: Item<Payload>, b: Item<Payload>) {
    a.id == b.id && a.payload.lists == b.payload.lists && a.payload.evidence == b.payload.evidence
  }

  ghost predicate AllAbsorbed(rows: Rows<Payload>, incoming: seq<Item<Payload>>) {
    forall i :: 0 <= i < |incoming| ==> incoming[i].id in rows && Absorbs(rows[incoming[i].id], incoming[i].payload)
  }

  lemma OneKeepsAbsorbed(r: Report, h: Item<Payload>, g: Item<Payload>)
    ensures g.id in r.rows && Absorbs(r.rows[g.id], g.payload) ==>
              g.id in One(r, h).rows && Absorbs(One(r, h).rows[g.id], g.payload)
    ensures h.id in One(r, h).rows && Absorbs(One(r, h).rows[h.id], h.payload)
  {
    hide Absorbs, Merged, Differing;
    MergeAbsorbs(h.payload, h.payload, g.payload);
    if h.id in r.rows {
      MergeAbsorbs(r.rows[h.id], h.payload, g.payload);
    }
  }

  lemma {:induction false} FoldKeepsAbsorbed(r: Report, incoming: seq<Item<Payload>>, g: Item<Payload>)
    requires g.id in r.rows && Absorbs(r.rows[g.id], g.payload)
    ensures g.id in Fold(r, incoming).rows && Absorbs(Fold(r, incoming).rows[g.id], g.payload)
    decreases |incoming|
  {
    if incoming != [] {
      OneKeepsAbsorbed(r, incoming[0], g);
      FoldKeepsAbsorbed(One(r, incoming[0]), incoming[1..], g);
    }
  }

  lemma {:induction false} FoldAbsorbsAll(r: Report, incoming: seq<Item<Payload>>)
    ensures AllAbsorbed(Fold(r, incoming).rows, incoming)
    decreases |incoming|
  {
    hide Absorbs, One;
    if incoming != [] {
      var r1 := One(r, incoming[0]);
      OneKeepsAbsorbed(r, incoming[0], incoming[0]);
      FoldKeepsAbsorbed(r1, incoming[1..], incoming[0]);
      FoldAbsorbsAll(r1, incoming[1..]);
      forall i | 0 <= i < |incoming|
        ensures incoming[i].id in Fold(r, incoming).rows && Absorbs(Fold(r, incoming).rows[incoming[i].id], incoming[i].payload)
      {
        if i > 0 {
          assert incoming[1..][i - 1] == incoming[i];
        }
      }
    }
  }

  lemma {:induction false} FoldOfAbsorbed(r: Report, incoming: seq<Item<Payload>>)
    requires AllAbsorbed(r.rows, incoming)
    ensures Fold(r, incoming).rows == r.rows
    ensures Fold(r, incoming).added == r.added && Fold(r, incoming).updated == r.updated
    decreases |incoming|
  {
    hide Absorbs, Merged, Differing;
    if incoming != [] {
      var r1 := One(r, incoming[0]);
      UnchangedIff(r.rows[incoming[0].id], incoming[0].payload);
      assert AllAbsorbed(r1.rows, incoming[1..]);
      FoldOfAbsorbed(r1, incoming[1..]);
    }
  }

  lemma SameIsAbsorbed(rows: Rows<Payload>, first: seq<Item<Payload>>, second: seq<Item<Payload>>)
    requires |second| == |first| && forall i :: 0 <= i < |first| ==> SameMetadata(first[i], second[i])
    requires AllAbsorbed(rows, first)
    ensures AllAbsorbed(rows, second)
  {
    hide Absorbs;
    forall i | 0 <= i < |second|
      ensures second[i].id in rows && Absorbs(rows[second[i].id], second[i].payload)
    {
      assert SameMetadata(first[i], second[i]);
      AbsorbsSame(rows[first[i].id], first[i], second[i]);
    }
  }

  lemma AbsorbsSame(m: Payload, a: Item<Payload>, b: Item<Payload>)
    requires SameMetadata(a, b) && Absorbs(m, a.payload)
    ensures Absorbs(m, b.payload)
  {
    assert forall f :: ListOf(b.payload, f) == ListOf(a.payload, f);
    assert EvidenceOf(b.payload) == EvidenceOf(a.payload);
  }

  /** Reconciling the same projection again, even one whose scalar fields came
      out differently, changes nothing: the report says so, and the method
      above then neither writes nor bumps the revision. */
  lemma SecondRunChangesNothing(rows: Rows<Payload>, first: seq<Item<Payload>>, second: seq<Item<Payload>>)
    requires |second| == |first| && forall i :: 0 <= i < |first| ==> SameMetadata(first[i], second[i])
    ensures Reconciled(Reconciled(rows, first).rows, second).rows == Reconciled(rows, first).rows
    ensures !Changed(Reconciled(Reconciled(rows, first).rows, second))
  {
    hide Fold, AllAbsorbed, SameMetadata;
    var once := Reconciled(rows, first).rows;
    FoldAbsorbsAll(Report(rows, [], [], [], []), first);
    SameIsAbsorbed(once, first, second);
    FoldOfAbsorbed(Report(once, [], [], [], []), second);
  }

  // ------------------------------------------------------------ nothing lost

  /** The list elements the incoming items of one id bring. */
  function Brought(incoming: seq<Item<Payload>>, id: Id, f: ListField): set<Key> {
    if incoming == [] then {} else
      (if incoming[0].id == id then Elems(ListOf(incoming[0].payload, f)) else {}) + Brought(incoming[1..], id, f)
  }

  lemma OneOnRow(r: Report, h: Item<Payload>, id: Id, f: ListField)
    requires id in r.rows
    ensures id in One(r, h).rows && One(r, h).rows[id].scalars == r.rows[id].scalars
    ensures Elems(ListOf(One(r, h).rows[id], f))
            == Elems(ListOf(r.rows[id], f)) + if h.id == id then Elems(ListOf(h.payload, f)) else {}
  {
    hide StableUnion, Elems, Differing;
    if h.id == id {
      MergedList(r.rows[id], h.payload, f);
    }
  }

  lemma MergedList(c: Payload, h: Payload, f: ListField)
    ensures Elems(ListOf(Merged(c, h), f)) == Elems(ListOf(c, f)) + Elems(ListOf(h, f))
  {
    assert f in LIST_FIELDS;
    UnionIs(ListOf(c, f), ListOf(h, f));
  }

  lemma {:induction false} FoldOnRow(r: Report, incoming: seq<Item<Payload>>, id: Id, f: ListField)
    requires id in r.rows
    ensures id in Fold(r, incoming).rows
    ensures Fold(r, incoming).rows[id].scalars == r.rows[id].scalars
    ensures Elems(ListOf(Fold(r, incoming).rows[id], f)) == Elems(ListOf(r.rows[id], f)) + Brought(incoming, id, f)
    decreases |incoming|
  {
    hide One, Elems, ListOf;
    if incoming != [] {
      OneOnRow(r, incoming[0], id, f);
      FoldOnRow(One(r, incoming[0]), incoming[1..], id, f);
    }
  }

  /** An item that was there keeps every scalar field, and each of its lists
      ends up with exactly its own elements and those brought for its id. */
  lemma {:induction false} CanonicalItemIsKept(rows: Rows<Payload>, incoming: seq<Item<Payload>>, id: Id, f: ListField)
    requires id in rows
    ensures id in Reconciled(rows, incoming).rows
    ensures Reconciled(rows, incoming).rows[id].scalars == rows[id].scalars
    ensures Elems(ListOf(Reconciled(rows, incoming).rows[id], f)) == Elems(ListOf(rows[id], f)) + Brought(incoming, id, f)
  {
    FoldOnRow(Report(rows, [], [], [], []), incoming, id, f);
  }

  /** Evidence lists are united the same way; an evidence field that is not a
      list survives a merge exactly when the historical one is not a list. */
  lemma EvidenceSurvivesIff(c: Evidence, h: Evidence, f: string)
    requires f in c
    ensures IsList(c, f) ==>
              IsList(MergedEvidence(c, h), f) &&
              Elems(MergedEvidence(c, h)[f].keys) == Elems(c[f].keys) + Elems(KeysIn(h, f))
    ensures !IsList(c, f) ==> (MergedEvidence(c, h)[f] == c[f] <==> !IsList(h, f))
  {
    UnionIs(KeysIn(c, f), KeysIn(h, f));
  }

  /** Whether some incoming item of that id has a list in evidence field f. */
  function BringsList(incoming: seq<Item<Payload>>, id: Id, f: string): bool {
    incoming != [] &&
    ((incoming[0].id == id && IsList(EvidenceOf(incoming[0].payload), f)) || BringsList(incoming[1..], id, f))
  }

  /** The elements they bring for it. */
  function BroughtEvidence(incoming: seq<Item<Payload>>, id: Id, f: string): set<Key> {
    if incoming == [] then {} else
      (if incoming[0].id == id then Elems(KeysIn(EvidenceOf(incoming[0].payload), f)) else {})
      + BroughtEvidence(incoming[1..], id, f)
  }

  /** Evidence field f of e', against e and what was brought. */
  ghost predicate FieldAfter(e: Evidence, e': Evidence, f: string, brings: bool, brought: set<Key>) {
    && (IsList(e', f) <==> IsList(e, f) || brings)
    && Elems(KeysIn(e', f)) == Elems(KeysIn(e, f)) + brought
    && (f in e && !IsList(e, f) ==> f in e' && (e'[f] == e[f] <==> !brings))
  }

  lemma MergeField(c: Evidence, h: Evidence, f: string)
    ensures FieldAfter(c, MergedEvidence(c, h), f, IsList(h, f), Elems(KeysIn(h, f)))
  {
    UnionIs(KeysIn(c, f), KeysIn(h, f));
  }

  lemma FieldsCompose(e: Evidence, e1: Evidence, e2: Evidence, f: string, b1: bool, s1: set<Key>, b2: bool, s2: set<Key>)
    requires FieldAfter(e, e1, f, b1, s1) && FieldAfter(e1, e2, f, b2, s2)
    ensures FieldAfter(e, e2, f, b1 || b2, s1 + s2)
  {
    hide Elems, KeysIn;
    assert Elems(KeysIn(e, f)) + s1 + s2 == Elems(KeysIn(e, f)) + (s1 + s2);
  }

  lemma NothingBrought(e: Evidence, f: string)
    ensures FieldAfter(e, e, f, false, {})
  {
  }

  lemma OneOnEvidence(r: Report, h: Item<Payload>, id: Id)
    requires id in r.rows
    ensures id in One(r, h).rows
    ensures EvidenceOf(One(r, h).rows[id])
            == if h.id == id then MergedEvidence(EvidenceOf(r.rows[id]), EvidenceOf(h.payload)) else EvidenceOf(r.rows[id])
  {
    hide MergedEvidence, Differing, StableUnion;
  }

  lemma {:induction false} FoldOnEvidence(r: Report, incoming: seq<Item<Payload>>, id: Id, f: string)
    requires id in r.rows
    ensures id in Fold(r, incoming).rows
    ensures FieldAfter(EvidenceOf(r.rows[id]), EvidenceOf(Fold(r, incoming).rows[id]), f,
                       BringsList(incoming, id, f), BroughtEvidence(incoming, id, f))
    decreases |incoming|
  {
    hide FieldAfter, Elems, MergedEvidence, One, IsList, KeysIn;
    var e := EvidenceOf(r.rows[id]);
    if incoming == [] {
      NothingBrought(e, f);
    } else {
      var h, rest := incoming[0], incoming[1..];
      var eh := EvidenceOf(h.payload);
      OneOnEvidence(r, h, id);
      FoldOnEvidence(One(r, h), rest, id, f);
      var end := EvidenceOf(Fold(r, incoming).rows[id]);
      if h.id == id {
        MergeField(e, eh, f);
        FieldsCompose(e, MergedEvidence(e, eh), end, f, IsList(eh, f), Elems(KeysIn(eh, f)), BringsList(rest, id, f), BroughtEvidence(rest, id, f));
      } else {
        assert {} + BroughtEvidence(rest, id, f) == BroughtEvidence(rest, id, f);
      }
    }
  }

  /** Over a whole document, whatever its items: an evidence field of a stored
      item is a list afterwards exactly when it was one or some item of its id
      brings one, it then holds its own elements and those brought, and a field
      that is no list survives exactly when no item brings a list for it. */
  lemma {:induction false} EvidenceAfterDocument(rows: Rows<Payload>, incoming: seq<Item<Payload>>, id: Id, f: string)
    requires id in rows
    ensures id in Reconciled(rows, incoming).rows
    ensures FieldAfter(EvidenceOf(rows[id]), EvidenceOf(Reconciled(rows, incoming).rows[id]), f,
                       BringsList(incoming, id, f), BroughtEvidence(incoming, id, f))
  {
    FoldOnEvidence(Report(rows, [], [], [], []), incoming, id, f);
  }

  lemma {:induction false} FoldOnAdded(r: Report, incoming: seq<Item<Payload>>, id: Id, i: nat, f: ListField, ef: string)
    requires id !in r.rows && i < |incoming| && incoming[i].id == id
    requires forall j :: 0 <= j < i ==> incoming[j].id != id
    ensures id in Fold(r, incoming).rows
    ensures var p := Fold(r, incoming).rows[id];
            && p.scalars == incoming[i].payload.scalars
            && Elems(ListOf(p, f)) == Brought(incoming, id, f)
            && (IsList(EvidenceOf(p), ef) <==> BringsList(incoming, id, ef))
            && Elems(KeysIn(EvidenceOf(p), ef)) == BroughtEvidence(incoming, id, ef)
    decreases |incoming|
  {
    hide Differing, Elems, ListOf, MergedEvidence, IsList, KeysIn;
    var h := incoming[0];
    if i == 0 {
      var m := Merged(h.payload, h.payload);
      MergedList(h.payload, h.payload, f);
      MergeField(EvidenceOf(h.payload), EvidenceOf(h.payload), ef);
      FoldOnRow(One(r, h), incoming[1..], id, f);
      FoldOnEvidence(One(r, h), incoming[1..], id, ef);
    } else {
      assert forall j :: 0 <= j < i - 1 ==> incoming[1..][j] == incoming[j + 1];
      FoldOnAdded(One(r, h), incoming[1..], id, i - 1, f, ef);
    }
  }

  /** What a new item ends up holding: the scalars of the first item of its id,
      and of lists and evidence lists all that was brought for it. */
  lemma {:induction false} AddedItemHolds(
    rows: Rows<Payload>, incoming: seq<Item<Payload>>, id: Id, i: nat, f: ListField, ef: string)
    requires id !in rows && i < |incoming| && incoming[i].id == id
    requires forall j :: 0 <= j < i ==> incoming[j].id != id
    ensures id in Reconciled(rows, incoming).rows
    ensures var p := Reconciled(rows, incoming).rows[id];
            && p.scalars == incoming[i].payload.scalars
            && Elems(ListOf(p, f)) == Brought(incoming, id, f)
            && (IsList(EvidenceOf(p), ef) <==> BringsList(incoming, id, ef))
            && Elems(KeysIn(EvidenceOf(p), ef)) == BroughtEvidence(incoming, id, ef)
  {
    FoldOnAdded(Report(rows, [], [], [], []), incoming, id, i, f, ef);
  }

  lemma OneAdds(r: Report, h: Item<Payload>, id: Id)
    ensures id in One(r, h).rows <==> id in r.rows || h.id == id
    ensures multiset(One(r, h).added)[id] == multiset(r.added)[id] + if id !in r.rows && h.id == id then 1 else 0
  {
    hide Merged, Differing;
  }

  /** The ids after a run are the old ones and the incoming ones; an id is
      reported added, once, exactly when it was missing. */
  lemma {:induction false} AddedIff(r: Report, incoming: seq<Item<Payload>>, id: Id)
    ensures id in Fold(r, incoming).rows <==> id in r.rows || exists i :: 0 <= i < |incoming| && incoming[i].id == id
    ensures multiset(Fold(r, incoming).added)[id] == multiset(r.added)[id] +
              if id !in r.rows && id in Fold(r, incoming).rows then 1 else 0
    decreases |incoming|
  {
    hide One;
    if incoming != [] {
      var h := incoming[0];
      OneAdds(r, h, id);
      AddedIff(One(r, h), incoming[1..], id);
      forall i | 0 <= i < |incoming| && incoming[i].id == id
        ensures h.id == id || exists j :: 0 <= j < |incoming[1..]| && incoming[1..][j].id == id
      {
        if i > 0 {
          assert incoming[1..][i - 1].id == id;
        }
      }
      forall j | 0 <= j < |incoming[1..]| && incoming[1..][j].id == id
        ensures exists i :: 0 <= i < |incoming| && incoming[i].id == id
      {
        assert incoming[j + 1].id == id;
      }
    }
  }

  // ------------------------------------------------------------ what is reported

  lemma OneUpdates(r: Report, h: Item<Payload>, id: Id)
    requires id in r.rows
    ensures id in One(r, h).rows
    ensures h.id != id ==> One(r, h).rows[id] == r.rows[id] && (id in One(r, h).updated <==> id in r.updated)
    ensures h.id == id ==> (id in One(r, h).updated <==> id in r.updated || !Absorbs(r.rows[id], h.payload))
    ensures h.id == id && Absorbs(r.rows[id], h.payload) ==> One(r, h).rows[id] == r.rows[id]
  {
    hide Merged, Differing, Absorbs;
    UnchangedIff(r.rows[id], h.payload);
  }

  /** An item once changed never becomes what it was: it absorbed something that
      it had not absorbed. */
  lemma {:induction false} FoldUpdates(r: Report, incoming: seq<Item<Payload>>, id: Id)
    requires id in r.rows
    ensures id in Fold(r, incoming).rows
    ensures id in Fold(r, incoming).updated <==> id in r.updated || Fold(r, incoming).rows[id] != r.rows[id]
    decreases |incoming|
  {
    hide One, Absorbs;
    if incoming != [] {
      var h := incoming[0];
      OneUpdates(r, h, id);
      FoldUpdates(One(r, h), incoming[1..], id);
      OneKeepsAbsorbed(r, h, h);
      if h.id == id {
        FoldKeepsAbsorbed(One(r, h), incoming[1..], h);
      }
    }
  }

  /** A stored item is reported updated exactly when it comes out different. */
  lemma UpdatedIff(rows: Rows<Payload>, incoming: seq<Item<Payload>>, id: Id)
    requires id in rows
    ensures id in Reconciled(rows, incoming).rows
    ensures id in Reconciled(rows, incoming).updated <==> Reconciled(rows, incoming).rows[id] != rows[id]
  {
    hide Fold;
    FoldUpdates(Report(rows, [], [], [], []), incoming, id);
  }

  lemma OneReportsRows(r: Report, h: Item<Payload>)
    requires forall i :: i in r.updated ==> i in r.rows
    ensures forall i :: i in One(r, h).updated ==> i in One(r, h).rows
  {
    hide Merged, Differing;
  }

  lemma {:induction false} UpdatedAreRows(r: Report, incoming: seq<Item<Payload>>)
    requires forall i :: i in r.updated ==> i in r.rows
    ensures forall i :: i in Fold(r, incoming).updated ==> i in Fold(r, incoming).rows
    decreases |incoming|
  {
    hide One;
    if incoming != [] {
      OneReportsRows(r, incoming[0]);
      UpdatedAreRows(One(r, incoming[0]), incoming[1..]);
    }
  }

  lemma AddedWasMissing(rows: Rows<Payload>, incoming: seq<Item<Payload>>, id: Id)
    ensures id in Reconciled(rows, incoming).added <==> id !in rows && id in Reconciled(rows, incoming).rows
    ensures id in rows ==> id in Reconciled(rows, incoming).rows
  {
    hide Fold;
    AddedIff(Report(rows, [], [], [], []), incoming, id);
    var added := Reconciled(rows, incoming).added;
    assert id in added <==> id in multiset(added);
  }

  /** A run counts as changing something exactly when the rows come out
      different. */
  lemma ChangedIff(rows: Rows<Payload>, incoming: seq<Item<Payload>>)
    ensures Changed(Reconciled(rows, incoming)) <==> Reconciled(rows, incoming).rows != rows
  {
    hide Reconciled;
    var r := Reconciled(rows, incoming);
    UpdatedAreReported(rows, incoming);
    if r.added != [] {
      AddedWasMissing(rows, incoming, r.added[0]);
      assert r.added[0] in r.added;
    }
    if r.updated != [] {
      var id := r.updated[0];
      assert id in r.updated;
      if id in rows {
        UpdatedIff(rows, incoming, id);
      }
    }
    if r.added == [] && r.updated == [] {
      forall id
        ensures id in r.rows <==> id in rows
        ensures id in rows ==> id in r.rows && r.rows[id] == rows[id]
      {
        AddedWasMissing(rows, incoming, id);
        if id in rows {
          UpdatedIff(rows, incoming, id);
        }
      }
      assert r.rows.Keys == rows.Keys;
    }
  }

  lemma UpdatedAreReported(rows: Rows<Payload>, incoming: seq<Item<Payload>>)
    ensures forall id :: id in Reconciled(rows, incoming).updated ==> id in Reconciled(rows, incoming).rows
  {
    hide Fold;
    UpdatedAreRows(Report(rows, [], [], [], []), incoming);
  }

  function Ids(incoming: seq<Item<Payload>>): multiset<Id> {
    if incoming == [] then multiset{} else multiset{incoming[0].id} + Ids(incoming[1..])
  }

  function Reported(r: Report): multiset<Id> { multiset(r.added) + multiset(r.updated) + multiset(r.same) }

  lemma OneIsReportedOnce(r: Report, h: Item<Payload>)
    ensures Reported(One(r, h)) == Reported(r) + multiset{h.id}
  {
    hide Merged, Differing;
  }

  lemma {:induction false} FoldReportsAll(r: Report, incoming: seq<Item<Payload>>)
    ensures Reported(Fold(r, incoming)) == Reported(r) + Ids(incoming)
    decreases |incoming|
  {
    hide One, Reported;
    if incoming != [] {
      OneIsReportedOnce(r, incoming[0]);
      FoldReportsAll(One(r, incoming[0]), incoming[1..]);
    }
  }

  /** Every incoming item is reported once, as added, updated or the same. So an
      id that comes in once is reported the same exactly when it was stored and
      its row stays as it was. */
  lemma {:induction false} EveryItemIsReportedOnce(rows: Rows<Payload>, incoming: seq<Item<Payload>>, id: Id)
    ensures Reported(Reconciled(rows, incoming)) == Ids(incoming)
    ensures Ids(incoming)[id] == 1 ==>
              (id in Reconciled(rows, incoming).same <==>
                 id in rows && id in Reconciled(rows, incoming).rows && Reconciled(rows, incoming).rows[id] == rows[id])
  {
    hide Fold, Ids;
    FoldReportsAll(Report(rows, [], [], [], []), incoming);
    var r := Reconciled(rows, incoming);
    assert Reported(Report(rows, [], [], [], [])) == multiset{};
    if Ids(incoming)[id] == 1 {
      AddedWasMissing(rows, incoming, id);
      OnceInOneList(r.added, r.updated, r.same, id);
      if id in rows {
        UpdatedIff(rows, incoming, id);
      } else {
        ComesIn(incoming, id);
        AddedIff(Report(rows, [], [], [], []), incoming, id);
      }
    }
  }

  lemma OnceInOneList(a: seq<Id>, b: seq<Id>, c: seq<Id>, id: Id)
    requires (multiset(a) + multiset(b) + multiset(c))[id] == 1
    ensures id in c <==> id !in a && id !in b
  {
    assert id in a <==> id in multiset(a);
    assert id in b <==> id in multiset(b);
    assert id in c <==> id in multiset(c);
  }

  lemma {:induction false} ComesIn(incoming: seq<Item<Payload>>, id: Id)
    requires Ids(incoming)[id] > 0
    ensures exists i :: 0 <= i < |incoming| && incoming[i].id == id
  {
    if incoming[0].id != id {
      ComesIn(incoming[1..], id);
      var i :| 0 <= i < |incoming[1..]| && incoming[1..][i].id == id;
      assert incoming[i + 1].id == id;
    }
  }

  /** The scalar fields in which an incoming item differs from a stored one. */
  function ScalarConflicts(c: Payload, h: Payload): set<string> {
    set f | f in SCALAR_FIELDS && Lookup(c.scalars, f) != Lookup(h.scalars, f)
  }

  ghost predicate Conflicting(conflicts: seq<(Id, seq<string>)>, id: Id, fields: set<string>) {
    exists j :: 0 <= j < |conflicts| && conflicts[j].0 == id && Elems(conflicts[j].1) == fields
  }

  lemma {:induction false} DifferingAre(c: Payload, h: Payload)
    ensures Elems(Differing(c, h, SCALAR_FIELDS)) == ScalarConflicts(c, h)
    ensures Differing(c, h, SCALAR_FIELDS) == [] <==> ScalarConflicts(c, h) == {}
  {
    hide Differing, Lookup;
    var d := Differing(c, h, SCALAR_FIELDS);
    forall f
      ensures f in d <==> f in ScalarConflicts(c, h)
    {
      DifferingIs(c, h, SCALAR_FIELDS, f);
    }
    if d != [] {
      assert d[0] in d;
    }
  }

  lemma OneConflict(r: Report, h: Item<Payload>, id: Id, fields: set<string>)
    requires id in r.rows
    ensures id in One(r, h).rows && One(r, h).rows[id].scalars == r.rows[id].scalars
    ensures Conflicting(One(r, h).conflicts, id, fields) <==>
            || Conflicting(r.conflicts, id, fields)
            || (h.id == id && fields != {} && fields == ScalarConflicts(r.rows[id], h.payload))
  {
    hide StableUnion, Differing, ScalarConflicts, Elems, MergedEvidence;
    if h.id in r.rows {
      DifferingAre(r.rows[h.id], h.payload);
      ConflictAppended(r.conflicts, h.id, Differing(r.rows[h.id], h.payload, SCALAR_FIELDS), id, fields);
    }
  }

  lemma ConflictAppended(conflicts: seq<(Id, seq<string>)>, at: Id, differing: seq<string>, id: Id, fields: set<string>)
    ensures Conflicting(conflicts + [(at, differing)], id, fields) <==>
            Conflicting(conflicts, id, fields) || (at == id && Elems(differing) == fields)
  {
    hide Elems;
    var more := conflicts + [(at, differing)];
    assert more[|conflicts|] == (at, differing);
    assert forall j :: 0 <= j < |conflicts| ==> more[j] == conflicts[j];
  }

  lemma {:induction false} FoldConflicts(r: Report, incoming: seq<Item<Payload>>, id: Id, fields: set<string>)
    requires id in r.rows
    ensures Conflicting(Fold(r, incoming).conflicts, id, fields) <==>
            || Conflicting(r.conflicts, id, fields)
            || (fields != {} && exists i :: 0 <= i < |incoming| && incoming[i].id == id &&
                                            fields == ScalarConflicts(r.rows[id], incoming[i].payload))
    decreases |incoming|
  {
    hide One, Conflicting, Lookup;
    if incoming != [] {
      var h, rest := incoming[0], incoming[1..];
      OneConflict(r, h, id, fields);
      FoldConflicts(One(r, h), rest, id, fields);
      SameScalarConflicts(One(r, h).rows[id], r.rows[id]);
      if i :| 0 <= i < |incoming| && incoming[i].id == id && fields == ScalarConflicts(r.rows[id], incoming[i].payload) {
        assert i > 0 ==> rest[i - 1] == incoming[i];
      }
      if i :| 0 <= i < |rest| && rest[i].id == id && fields == ScalarConflicts(r.rows[id], rest[i].payload) {
        assert incoming[i + 1] == rest[i];
      }
    }
  }

  lemma SameScalarConflicts(a: Payload, b: Payload)
    requires a.scalars == b.scalars
    ensures forall h :: ScalarConflicts(a, h) == ScalarConflicts(b, h)
  {
  }

  /** A stored id is reported in conflict with a set of fields exactly when some
      item that comes in for it differs from the stored row in just those scalar
      fields. */
  lemma ConflictsIff(rows: Rows<Payload>, incoming: seq<Item<Payload>>, id: Id, fields: set<string>)
    requires id in rows
    ensures Conflicting(Reconciled(rows, incoming).conflicts, id, fields) <==>
            fields != {} && exists i :: 0 <= i < |incoming| && incoming[i].id == id &&
                                        fields == ScalarConflicts(rows[id], incoming[i].payload)
  {
    hide Fold, ScalarConflicts;
    FoldConflicts(Report(rows, [], [], [], []), incoming, id, fields);
  }
}
