/** Loading, saving and importing the backlog file
    (terminal_mcp/backlog_store.py, terminal_mcp/backlog_service.py,
    terminal_mcp/backlog_db.py). The JSON text is left out: a file is the value
    its text parses to. */
module BacklogRoundTrip {
  import opened Options
  import opened SortedKeys
  import opened BacklogFile

  const SCHEMA_VERSION := 1

  /** The top level of a file: absent keys are None. `items` is a list of
      entries; anything falsy there reads as an empty list. */
  datatype File = File(
    schemaVersion: Option<Json>, project: Option<Json>, revision: Option<Json>,
    updatedAt: Option<Json>, items: seq<Entry>)

  datatype Document = Document(project: Json, revision: int, updatedAt: Json, items: seq<Item>)

  /** Ids are compared as Python compares them: True == 1 == 1.0. */
  function IdKey(j: Json): Json {
    match j
    case JBool(b) => JInt(if b then 1 else 0)
    case JFloat(x) => if x.Floor as real == x then JInt(x.Floor) else j
    case _ => j
  }

  predicate Hashable(j: Json) { !j.JArr? && !j.JObj? }

  function IdOf(item: Item): Json { if Id in item.known then item.known[Id] else JNull }

  // --------------------------------------------------------------------- load

  datatype Loading = Loading(items: seq<Item>, seen: set<Json>, repairs: seq<Repair>)

  /** One entry. None is the TypeError of looking up an unhashable id. */
  function LoadOne(st: Loading, e: Entry, newId: string, otherId: string, now: string): Option<Loading> {
    if e.NotAnObject? then Some(st.(repairs := st.repairs + [Dropped])) else
    var item := Normalised(e.known, e.extra, newId, now);
    var repairs := st.repairs + Repairs(e.known);
    if !Hashable(IdOf(item)) then None
    else if IdKey(IdOf(item)) in st.seen then
      Some(Loading(st.items + [item.(known := item.known[Id := JStr(otherId)])],
                   st.seen + {JStr(otherId)}, repairs + [Reassigned]))
    else Some(Loading(st.items + [item], st.seen + {IdKey(IdOf(item))}, repairs))
  }

  /** `ids(n)` is the n-th id uuid4 hands out; entry n may use 2n and 2n + 1. */
  function LoadFrom(st: Loading, entries: seq<Entry>, n: nat, ids: nat -> string, now: string): Option<Loading>
    decreases |entries|
  {
    if entries == [] then Some(st) else
    var next := LoadOne(st, entries[0], ids(2 * n), ids(2 * n + 1), now);
    if next.None? then None else LoadFrom(next.value, entries[1..], n + 1, ids, now)
  }

  datatype LoadResult = Refused | Crashed | Loaded(document: Document, repairs: seq<Repair>)

  /** Newer versions, and versions that are not integers, are refused. */
  predicate VersionOk(v: Option<Json>) {
    match v
    case None => true
    case Some(JInt(n)) => n <= SCHEMA_VERSION
    case Some(JBool(_)) => true
    case _ => false
  }

  /** int(x) truncates toward zero. */
  function Truncated(x: real): int { if x >= 0.0 then x.Floor else -((-x).Floor) }

  function RevisionOf(v: Option<Json>): int {
    match v
    case Some(JInt(n)) => n
    case Some(JBool(b)) => if b then 1 else 0
    case Some(JFloat(x)) => Truncated(x)
    case _ => 0
  }

  function LoadedHeader(f: File, items: seq<Item>, now: string): Document {
    Document(if f.project.Some? && f.project.value.JObj? then f.project.value else JObj(map[]),
             RevisionOf(f.revision),
             if f.updatedAt.Some? && !Falsy(f.updatedAt.value) then f.updatedAt.value else JStr(now), items)
  }

  function Load(f: File, ids: nat -> string, now: string): LoadResult {
    if !VersionOk(f.schemaVersion) then Refused else
    var st := LoadFrom(Loading([], {}, []), f.items, 0, ids, now);
    if st.None? then Crashed else Loaded(LoadedHeader(f, st.value.items, now), st.value.repairs)
  }

  method LoadFile(f: File, ids: nat -> string, now: string) returns (r: LoadResult)
    requires now != "" && forall n :: ids(n) != ""
    ensures r == Load(f, ids, now)
  {
    if !VersionOk(f.schemaVersion) {
      return Refused;
    }
    var items, seen, repairs := [], {}, [];
    for i := 0 to |f.items|
      invariant LoadFrom(Loading(items, seen, repairs), f.items[i..], i, ids, now)
                == LoadFrom(Loading([], {}, []), f.items, 0, ids, now)
    {
      var e := f.items[i];
      assert f.items[i..][0] == e && f.items[i..][1..] == f.items[i + 1..];
      if e.NotAnObject? {
        repairs := repairs + [Dropped];
        continue;
      }
      var item, more := NormaliseItem(e.known, e.extra, ids(2 * i), now);
      repairs := repairs + more;
      if !Hashable(IdOf(item)) {
        return Crashed;
      }
      if IdKey(IdOf(item)) in seen {
        repairs := repairs + [Reassigned];
        item := item.(known := item.known[Id := JStr(ids(2 * i + 1))]);
      }
      seen := seen + {IdKey(IdOf(item))};
      items := items + [item];
    }
    return Loaded(LoadedHeader(f, items, now), repairs);
  }

  // --------------------------------------------------------------------- save

  /** serialise: one entry per item; the order of keys is OrderedKeys below. */
  function Serialise(d: Document): File {
    File(Some(JInt(SCHEMA_VERSION)), Some(d.project), Some(JInt(d.revision)), Some(d.updatedAt),
         seq(|d.items|, i requires 0 <= i < |d.items| => Object(d.items[i].known, d.items[i].extra)))
  }

  /** save bumps the revision it was given and stamps the time. */
  function Saved(d: Document, now: string): File {
    Serialise(d.(revision := d.revision + 1, updatedAt := JStr(now)))
  }

  /** export_file hands the stored revision minus one to save. */
  function Exported(d: Document, now: string): File {
    Saved(d.(revision := d.revision - 1), now)
  }

  // ------------------------------------------------------------------- import

  datatype Imported = Imported(rows: map<Json, Item>, added: nat, updated: nat)

  function Merge(m: Imported, items: seq<Item>): Imported
    decreases |items|
  {
    if items == [] then m else
    var k := IdKey(IdOf(items[0]));
    Merge(if k in m.rows then Imported(m.rows[k := items[0]], m.added, m.updated + 1)
          else Imported(m.rows[k := items[0]], m.added + 1, m.updated), items[1..])
  }

  function RowsOf(items: seq<Item>): map<Json, Item> { Merge(Imported(map[], 0, 0), items).rows }

  /** What import_document makes of the loaded items before it merges them. */
  function Renormalised(items: seq<Item>, ids: nat -> string, now: string): (r: seq<Item>)
    ensures |r| == |items|
  {
    seq(|items|, i requires 0 <= i < |items| => Normalised(items[i].known, items[i].extra, ids(i), now))
  }

  /** import_document, up to the write: every item is normalised again, and then
      merged by id or put in place of everything. */
  method ImportItems(existing: map<Json, Item>, items: seq<Item>, replace: bool, ids: nat -> string, now: string)
    returns (r: Imported)
    requires now != "" && forall m :: ids(m) != ""
    ensures var incoming := Renormalised(items, ids, now);
            r == if replace then Imported(RowsOf(incoming), |incoming|, 0) else Merge(Imported(existing, 0, 0), incoming)
  {
    hide Merge, Normalised, RowsOf;
    var incoming := [];
    for i := 0 to |items|
      invariant incoming == Renormalised(items, ids, now)[..i]
    {
      var item, repairs := NormaliseItem(items[i].known, items[i].extra, ids(i), now);
      incoming := incoming + [item];
    }
    assert incoming == Renormalised(items, ids, now);
    r := MergeItems(existing, incoming, replace);
  }

  method MergeItems(existing: map<Json, Item>, items: seq<Item>, replace: bool) returns (r: Imported)
    ensures r == if replace then Imported(RowsOf(items), |items|, 0) else Merge(Imported(existing, 0, 0), items)
  {
    var rows, added, updated := if replace then map[] else existing, 0, 0;
    for i := 0 to |items|
      invariant Merge(Imported(rows, added, updated), items[i..]) == Merge(Imported(if replace then map[] else existing, 0, 0), items)
    {
      assert items[i..][0] == items[i] && items[i..][1..] == items[i + 1..];
      var k := IdKey(IdOf(items[i]));
      if k in rows {
        updated := updated + 1;
      } else {
        added := added + 1;
      }
      rows := rows[k := items[i]];
    }
    assert items[|items|..] == [];
    r := if replace then Imported(rows, |items|, 0) else Imported(rows, added, updated);
  }

  // --------------------------------------------------------- load after save

  ghost predicate AllNormal(items: seq<Item>) {
    forall i :: 0 <= i < |items| ==> Normal(items[i]) && Hashable(IdOf(items[i]))
  }

  ghost predicate DistinctKeys(items: seq<Item>) {
    forall i, j :: 0 <= i < j < |items| ==> IdKey(IdOf(items[i])) != IdKey(IdOf(items[j]))
  }

  function KeysOf(items: seq<Item>): set<Json> { set i | 0 <= i < |items| :: IdKey(IdOf(items[i])) }

  function EntryOf(item: Item): Entry { Object(item.known, item.extra) }

  ghost predicate IsEntries(entries: seq<Entry>, items: seq<Item>) {
    |entries| == |items| && forall i :: 0 <= i < |items| ==> entries[i] == EntryOf(items[i])
  }

  lemma LoadNormal(st: Loading, item: Item, newId: string, otherId: string, now: string)
    requires newId != "" && now != "" && Normal(item) && Hashable(IdOf(item)) && IdKey(IdOf(item)) !in st.seen
    ensures LoadOne(st, EntryOf(item), newId, otherId, now)
            == Some(Loading(st.items + [item], st.seen + {IdKey(IdOf(item))}, st.repairs))
  {
    hide Normal, Normalised, Repairs;
    NormalIff(item, newId, now);
    assert st.repairs + [] == st.repairs;
  }

  lemma {:induction false} LoadNormals(st: Loading, entries: seq<Entry>, items: seq<Item>, n: nat, ids: nat -> string, now: string)
    requires now != "" && (forall m :: ids(m) != "") && IsEntries(entries, items)
    requires AllNormal(items) && DistinctKeys(items) && st.seen !! KeysOf(items)
    ensures LoadFrom(st, entries, n, ids, now) == Some(Loading(st.items + items, st.seen + KeysOf(items), st.repairs))
    decreases |items|
  {
    hide LoadOne, Normal, Hashable, IdKey;
    if items == [] {
      assert st.items + items == st.items && KeysOf(items) == {} && st.seen + {} == st.seen;
    } else {
      var k := IdKey(IdOf(items[0]));
      KeysOfCons(items);
      LoadNormal(st, items[0], ids(2 * n), ids(2 * n + 1), now);
      var next := Loading(st.items + [items[0]], st.seen + {k}, st.repairs);
      LoadNormals(next, entries[1..], items[1..], n + 1, ids, now);
      assert st.items + [items[0]] + items[1..] == st.items + items;
      assert st.seen + {k} + KeysOf(items[1..]) == st.seen + KeysOf(items);
    }
  }

  lemma KeysOfCons(items: seq<Item>)
    requires items != [] && DistinctKeys(items)
    ensures KeysOf(items) == {IdKey(IdOf(items[0]))} + KeysOf(items[1..])
    ensures IdKey(IdOf(items[0])) !in KeysOf(items[1..]) && DistinctKeys(items[1..])
  {
    hide IdKey;
    assert forall i :: 1 <= i < |items| ==> items[i] == items[1..][i - 1];
  }

  /** Loading what was serialised gives back the same document, item by item,
      and repairs nothing, when the items are normal and their ids differ. */
  lemma LoadAfterSerialise(d: Document, ids: nat -> string, now: string)
    requires now != "" && (forall m :: ids(m) != "")
    requires AllNormal(d.items) && DistinctKeys(d.items) && d.project.JObj? && !Falsy(d.updatedAt)
    ensures Load(Serialise(d), ids, now) == Loaded(d, [])
  {
    hide AllNormal, DistinctKeys;
    var st := Loading([], {}, []);
    LoadNormals(st, Serialise(d).items, d.items, 0, ids, now);
    assert st.items + d.items == d.items;
  }

  /** An exported file carries the stored revision and the stored items. */
  lemma ExportThenLoad(d: Document, ids: nat -> string, exportedAt: string, now: string)
    requires now != "" && exportedAt != "" && (forall m :: ids(m) != "")
    requires AllNormal(d.items) && DistinctKeys(d.items) && d.project.JObj?
    ensures Load(Exported(d, exportedAt), ids, now) == Loaded(d.(updatedAt := JStr(exportedAt)), [])
  {
    LoadAfterSerialise(d.(updatedAt := JStr(exportedAt)), ids, now);
  }

  // ------------------------------------------------------------- importing it

  ghost predicate RowsHold(rows: map<Json, Item>, items: seq<Item>) {
    forall i :: 0 <= i < |items| ==> IdKey(IdOf(items[i])) in rows && rows[IdKey(IdOf(items[i]))] == items[i]
  }

  lemma {:induction false} MergeKeeps(m: Imported, items: seq<Item>, k: Json)
    requires k in m.rows
    ensures k in Merge(m, items).rows
    ensures k !in KeysOf(items) ==> Merge(m, items).rows[k] == m.rows[k]
    decreases |items|
  {
    hide IdKey;
    if items != [] {
      var k0 := IdKey(IdOf(items[0]));
      var m1 := if k0 in m.rows then Imported(m.rows[k0 := items[0]], m.added, m.updated + 1)
                else Imported(m.rows[k0 := items[0]], m.added + 1, m.updated);
      MergeKeeps(m1, items[1..], k);
      assert forall i :: 0 <= i < |items[1..]| ==> items[1..][i] == items[i + 1];
      assert k !in KeysOf(items) ==> k0 != k && k !in KeysOf(items[1..]) by {
        if k !in KeysOf(items) {
          assert IdKey(IdOf(items[0])) in KeysOf(items);
          forall i | 0 <= i < |items[1..]|
            ensures IdKey(IdOf(items[1..][i])) != k
          {
            assert IdKey(IdOf(items[i + 1])) in KeysOf(items);
          }
        }
      }
    }
  }

  /** Importing deletes nothing: every stored id is still there, and an item
      whose id does not come in is untouched. */
  lemma {:induction false} ImportDeletesNothing(existing: map<Json, Item>, items: seq<Item>)
    ensures existing.Keys <= Merge(Imported(existing, 0, 0), items).rows.Keys
    ensures forall k :: k in existing && k !in KeysOf(items) ==> Merge(Imported(existing, 0, 0), items).rows[k] == existing[k]
  {
    forall k | k in existing
      ensures k in Merge(Imported(existing, 0, 0), items).rows
      ensures k !in KeysOf(items) ==> Merge(Imported(existing, 0, 0), items).rows[k] == existing[k]
    {
      MergeKeeps(Imported(existing, 0, 0), items, k);
    }
  }

  lemma {:induction false} MergeHolds(m: Imported, items: seq<Item>)
    requires DistinctKeys(items)
    ensures RowsHold(Merge(m, items).rows, items)
    decreases |items|
  {
    hide IdKey;
    if items != [] {
      var k := IdKey(IdOf(items[0]));
      var m1 := if k in m.rows then Imported(m.rows[k := items[0]], m.added, m.updated + 1)
                else Imported(m.rows[k := items[0]], m.added + 1, m.updated);
      KeysOfCons(items);
      MergeHolds(m1, items[1..]);
      MergeKeeps(m1, items[1..], k);
      forall i | 0 <= i < |items|
        ensures var key := IdKey(IdOf(items[i])); key in Merge(m, items).rows && Merge(m, items).rows[key] == items[i]
      {
        if i > 0 {
          assert items[1..][i - 1] == items[i];
        }
      }
    }
  }

  /** Merging items that are all there already only counts them. */
  lemma {:induction false} MergeOfHeld(m: Imported, items: seq<Item>)
    requires RowsHold(m.rows, items)
    ensures Merge(m, items) == Imported(m.rows, m.added, m.updated + |items|)
    decreases |items|
  {
    hide IdKey;
    if items != [] {
      var k := IdKey(IdOf(items[0]));
      assert k in m.rows && m.rows[k] == items[0];
      assert m.rows[k := items[0]] == m.rows;
      assert forall i :: 0 <= i < |items[1..]| ==> items[1..][i] == items[i + 1];
      MergeOfHeld(Imported(m.rows, m.added, m.updated + 1), items[1..]);
    }
  }

  /** A second pass over normal items changes none of them. */
  lemma RenormalisingKeeps(items: seq<Item>, ids: nat -> string, now: string)
    requires now != "" && (forall m :: ids(m) != "") && AllNormal(items)
    ensures Renormalised(items, ids, now) == items
  {
    hide Normalised, Normal;
    forall i | 0 <= i < |items|
      ensures Renormalised(items, ids, now)[i] == items[i]
    {
      NormalIff(items[i], ids(i), now);
    }
  }

  /** Export a project and import the file again: nothing is repaired, nothing
      is added, and every row is what it was, whatever new ids and time are at
      hand when it is loaded and when its items are normalised once more. */
  lemma ReimportingAnExportChangesNothing(
    d: Document, ids: nat -> string, exportedAt: string, now: string, more: nat -> string, later: string)
    requires now != "" && exportedAt != "" && later != "" && (forall m :: ids(m) != "") && (forall m :: more(m) != "")
    requires AllNormal(d.items) && DistinctKeys(d.items) && d.project.JObj?
    ensures var loaded := Load(Exported(d, exportedAt), ids, now);
            && loaded.Loaded? && loaded.repairs == []
            && Merge(Imported(RowsOf(d.items), 0, 0), Renormalised(loaded.document.items, more, later))
               == Imported(RowsOf(d.items), 0, |d.items|)
  {
    hide AllNormal, DistinctKeys, Merge, RowsHold, Load, Exported, Renormalised;
    ExportThenLoad(d, ids, exportedAt, now);
    RenormalisingKeeps(d.items, more, later);
    MergeHolds(Imported(map[], 0, 0), d.items);
    MergeOfHeld(Imported(RowsOf(d.items), 0, 0), d.items);
  }

  // ------------------------------------------------------------- any file at all

  /** The ids handed out are new: they differ from each other and from every id
      in the file. */
  ghost predicate FreshIds(ids: nat -> string, entries: seq<Entry>) {
    && (forall m :: ids(m) != "") && (forall m, k :: ids(m) == ids(k) ==> m == k)
    && (forall i, m :: 0 <= i < |entries| && entries[i].Object? && Id in entries[i].known ==> entries[i].known[Id] != JStr(ids(m)))
  }

  ghost predicate LoadingOk(st: Loading, n: nat, ids: nat -> string) {
    && AllNormal(st.items) && DistinctKeys(st.items) && st.seen == KeysOf(st.items)
    && forall m :: m >= 2 * n ==> JStr(ids(m)) !in st.seen
  }

  lemma AddingKeepsOk(items: seq<Item>, item: Item)
    requires AllNormal(items) && DistinctKeys(items)
    requires Normal(item) && Hashable(IdOf(item)) && IdKey(IdOf(item)) !in KeysOf(items)
    ensures AllNormal(items + [item]) && DistinctKeys(items + [item])
    ensures KeysOf(items + [item]) == KeysOf(items) + {IdKey(IdOf(item))}
  {
    hide Normal, Hashable, IdKey;
    var more := items + [item];
    assert more[|items|] == item;
    assert forall i :: 0 <= i < |items| ==> more[i] == items[i];
    forall k | k in KeysOf(items)
      ensures k in KeysOf(more)
    {
      var i :| 0 <= i < |items| && IdKey(IdOf(items[i])) == k;
      assert IdKey(IdOf(more[i])) == k;
    }
    assert IdKey(IdOf(more[|items|])) in KeysOf(more);
    forall i | 0 <= i < |items|
      ensures IdKey(IdOf(items[i])) in KeysOf(items)
    {
    }
  }

  lemma LoadOneKeepsOk(st: Loading, e: Entry, n: nat, ids: nat -> string, now: string)
    requires LoadingOk(st, n, ids) && FreshIds(ids, [e]) && now != ""
    ensures var next := LoadOne(st, e, ids(2 * n), ids(2 * n + 1), now);
            next.Some? ==> LoadingOk(next.value, n + 1, ids)
  {
    if e.Object? {
      var item := Normalised(e.known, e.extra, ids(2 * n), now);
      NormalisedIsNormal(e.known, e.extra, ids(2 * n), now);
      LoadedId(e, item, n, ids, now);
      if Hashable(IdOf(item)) {
        if IdKey(IdOf(item)) in st.seen {
          var other := item.(known := item.known[Id := JStr(ids(2 * n + 1))]);
          RenamedIsNormal(item, ids(2 * n + 1));
          AddingKeepsOk(st.items, other);
        } else {
          AddingKeepsOk(st.items, item);
        }
      }
    }
  }

  lemma RenamedIsNormal(item: Item, newId: string)
    requires Normal(item) && newId != ""
    ensures Normal(item.(known := item.known[Id := JStr(newId)]))
    ensures IdOf(item.(known := item.known[Id := JStr(newId)])) == JStr(newId)
  {
    assert IsField(Id);
  }

  /** The id an entry is loaded under is its own or the n-th new pair's first. */
  lemma LoadedId(e: Entry, item: Item, n: nat, ids: nat -> string, now: string)
    requires e.Object? && FreshIds(ids, [e]) && item == Normalised(e.known, e.extra, ids(2 * n), now)
    ensures forall m :: m >= 2 * n + 2 ==> IdKey(IdOf(item)) != JStr(ids(m))
    ensures IdKey(IdOf(item)) != JStr(ids(2 * n + 1))
  {
    assert IsField(Id);
    assert [e][0] == e;
    assert IdOf(item) == JStr(ids(2 * n)) || (Id in e.known && IdOf(item) == e.known[Id]) || IdOf(item) == Default(Id);
  }

  lemma {:induction false} LoadFromKeepsOk(st: Loading, entries: seq<Entry>, n: nat, ids: nat -> string, now: string)
    requires LoadingOk(st, n, ids) && FreshIds(ids, entries) && now != ""
    ensures var end := LoadFrom(st, entries, n, ids, now);
            end.Some? ==> AllNormal(end.value.items) && DistinctKeys(end.value.items)
    decreases |entries|
  {
    hide LoadOne, AllNormal, DistinctKeys;
    if entries != [] {
      var e := entries[0];
      assert FreshIds(ids, [e]) && FreshIds(ids, entries[1..]);
      LoadOneKeepsOk(st, e, n, ids, now);
      var next := LoadOne(st, e, ids(2 * n), ids(2 * n + 1), now);
      if next.Some? {
        LoadFromKeepsOk(next.value, entries[1..], n + 1, ids, now);
      }
    }
  }

  /** Whatever the file holds, a load that does not fail gives normal items with
      pairwise different ids. */
  lemma LoadRepairsEverything(f: File, ids: nat -> string, now: string)
    requires FreshIds(ids, f.items) && now != "" && Load(f, ids, now).Loaded?
    ensures AllNormal(Load(f, ids, now).document.items) && DistinctKeys(Load(f, ids, now).document.items)
  {
    LoadFromKeepsOk(Loading([], {}, []), f.items, 0, ids, now);
  }

  // ---- which entries come through

  /** The entries that are objects, normalised, in order; entry number n of the
      file may get the new id 2n. */
  function Objects(entries: seq<Entry>, n: nat, ids: nat -> string, now: string): seq<Item>
    decreases |entries|
  {
    if entries == [] then []
    else (if entries[0].Object? then [Normalised(entries[0].known, entries[0].extra, ids(2 * n), now)] else [])
         + Objects(entries[1..], n + 1, ids, now)
  }

  /** All fields are the same except, perhaps, the id. */
  ghost predicate SameButId(a: Item, b: Item) {
    && a.extra == b.extra && a.known.Keys == b.known.Keys
    && forall f :: f in a.known && f != Id ==> a.known[f] == b.known[f]
  }

  /** Loaded item j: the object it came from, with its own id unless an item
      before it has that id. */
  ghost predicate CameFrom(items: seq<Item>, j: nat, from: Item)
    requires j < |items|
  {
    && SameButId(items[j], from)
    && (IdOf(items[j]) == IdOf(from) <==> forall i :: 0 <= i < j ==> IdKey(IdOf(items[i])) != IdKey(IdOf(from)))
  }

  lemma CameFromOnly(items: seq<Item>, item: Item, other: string)
    requires Id in item.known && IdOf(item) != JStr(other)
    ensures var taken := IdKey(IdOf(item)) in KeysOf(items);
            var last := if taken then item.(known := item.known[Id := JStr(other)]) else item;
            CameFrom(items + [last], |items|, item)
  {
    hide IdKey;
    var taken := IdKey(IdOf(item)) in KeysOf(items);
    var last := if taken then item.(known := item.known[Id := JStr(other)]) else item;
    var more := items + [last];
    assert forall i :: 0 <= i < |items| ==> more[i] == items[i];
    assert taken ==> IdOf(last) == JStr(other);
    if taken {
      var i :| 0 <= i < |items| && IdKey(IdOf(items[i])) == IdKey(IdOf(item));
      assert IdKey(IdOf(more[i])) == IdKey(IdOf(item));
    } else {
      forall i | 0 <= i < |items|
        ensures IdKey(IdOf(more[i])) != IdKey(IdOf(item))
      {
        assert IdKey(IdOf(items[i])) in KeysOf(items);
      }
    }
  }

  lemma CameFromStays(items: seq<Item>, more: seq<Item>, j: nat, from: Item)
    requires j < |items| && items <= more && CameFrom(items, j, from)
    ensures CameFrom(more, j, from)
  {
    hide IdKey, SameButId;
    assert forall i :: 0 <= i <= j ==> more[i] == items[i];
  }

  lemma LoadOneIs(st: Loading, e: Entry, newId: string, otherId: string, now: string)
    ensures e.NotAnObject? ==> LoadOne(st, e, newId, otherId, now) == Some(st.(repairs := st.repairs + [Dropped]))
    ensures e.Object? ==>
              var item := Normalised(e.known, e.extra, newId, now);
              var next := LoadOne(st, e, newId, otherId, now);
              var last := if IdKey(IdOf(item)) in st.seen then item.(known := item.known[Id := JStr(otherId)]) else item;
              && (next.Some? <==> Hashable(IdOf(item)))
              && (next.Some? ==> next.value.items == st.items + [last])
  {
    hide Normalised, IdKey;
  }

  ghost predicate AllHashable(from: seq<Item>) { forall j :: 0 <= j < |from| ==> Hashable(IdOf(from[j])) }

  ghost predicate AllCameFrom(items: seq<Item>, k: nat, from: seq<Item>) {
    k + |from| <= |items| && forall j :: 0 <= j < |from| ==> CameFrom(items, k + j, from[j])
  }

  lemma OneMoreHashable(first: Item, rest: seq<Item>)
    ensures AllHashable([first] + rest) <==> Hashable(IdOf(first)) && AllHashable(rest)
  {
    hide Hashable;
    var from := [first] + rest;
    assert from[0] == first && forall j :: 0 <= j < |rest| ==> from[j + 1] == rest[j];
  }

  lemma OneMoreCameFrom(items: seq<Item>, k: nat, first: Item, rest: seq<Item>)
    requires k < |items| && CameFrom(items, k, first) && AllCameFrom(items, k + 1, rest)
    ensures AllCameFrom(items, k, [first] + rest)
  {
    hide CameFrom;
    var from := [first] + rest;
    forall j | 0 <= j < |from|
      ensures CameFrom(items, k + j, from[j])
    {
      if j > 0 {
        assert CameFrom(items, k + 1 + (j - 1), rest[j - 1]);
      }
    }
  }

  lemma NoObjects(items: seq<Item>)
    ensures AllHashable([]) && AllCameFrom(items, |items|, [])
  {
  }

  lemma {:induction false} LoadFromKeepsEntries(st: Loading, entries: seq<Entry>, n: nat, ids: nat -> string, now: string)
    requires LoadingOk(st, n, ids) && FreshIds(ids, entries) && now != ""
    ensures var end, from := LoadFrom(st, entries, n, ids, now), Objects(entries, n, ids, now);
            && (end.Some? <==> AllHashable(from))
            && (end.Some? ==>
                  && |end.value.items| == |st.items| + |from| && st.items <= end.value.items
                  && AllCameFrom(end.value.items, |st.items|, from))
    decreases |entries|
  {
    hide LoadOne, LoadingOk, Normalised, Hashable, CameFrom, IdKey, AllHashable, AllCameFrom;
    NoObjects(st.items);
    if entries != [] {
      var e := entries[0];
      assert FreshIds(ids, [e]) && FreshIds(ids, entries[1..]);
      hide FreshIds;
      var next := LoadOne(st, e, ids(2 * n), ids(2 * n + 1), now);
      var rest := Objects(entries[1..], n + 1, ids, now);
      LoadOneIs(st, e, ids(2 * n), ids(2 * n + 1), now);
      LoadOneKeepsOk(st, e, n, ids, now);
      if next.Some? {
        LoadFromKeepsEntries(next.value, entries[1..], n + 1, ids, now);
      }
      if e.Object? {
        var first := Normalised(e.known, e.extra, ids(2 * n), now);
        OneMoreHashable(first, rest);
        if next.Some? {
          var end := LoadFrom(next.value, entries[1..], n + 1, ids, now);
          FirstCameFrom(st, e, n, ids, now, next.value.items);
          if end.Some? {
            CameFromStays(next.value.items, end.value.items, |st.items|, first);
            OneMoreCameFrom(end.value.items, |st.items|, first, rest);
          }
        }
      } else {
        assert [] + rest == rest;
      }
    }
  }

  lemma FirstCameFrom(st: Loading, e: Entry, n: nat, ids: nat -> string, now: string, items: seq<Item>)
    requires LoadingOk(st, n, ids) && FreshIds(ids, [e]) && e.Object? && now != ""
    requires var item := Normalised(e.known, e.extra, ids(2 * n), now);
             items == st.items + [if IdKey(IdOf(item)) in st.seen then item.(known := item.known[Id := JStr(ids(2 * n + 1))]) else item]
    ensures CameFrom(items, |st.items|, Normalised(e.known, e.extra, ids(2 * n), now))
  {
    hide CameFrom, AllNormal, DistinctKeys, Normal;
    var item := Normalised(e.known, e.extra, ids(2 * n), now);
    LoadedId(e, item, n, ids, now);
    IdIsKnown(e.known, e.extra, ids(2 * n), now);
    CameFromOnly(st.items, item, ids(2 * n + 1));
  }

  lemma IdIsKnown(known: map<Field, Json>, extra: map<string, Json>, newId: string, now: string)
    ensures Id in Normalised(known, extra, newId, now).known
  {
    assert IsField(Id);
  }

  predicate NewerOrNoInteger(v: Json) {
    if v.JInt? then v.n > 1 else !v.JBool?
  }

  /** What a load makes of a file. It refuses exactly the versions that are newer
      or no integer, and fails exactly when an object's id cannot be looked up;
      otherwise there is one item for each object entry, in order, with the
      object's own fields, and its own id too unless an item before it has it. */
  lemma {:induction false} LoadKeepsEntries(f: File, ids: nat -> string, now: string)
    requires FreshIds(ids, f.items) && now != ""
    ensures var r, from := Load(f, ids, now), Objects(f.items, 0, ids, now);
            && (r.Refused? <==> (f.schemaVersion.Some? && NewerOrNoInteger(f.schemaVersion.value)))
            && (r.Crashed? <==> !r.Refused? && exists j :: 0 <= j < |from| && !Hashable(IdOf(from[j])))
            && (r.Loaded? ==>
                  && |r.document.items| == |from|
                  && forall j :: 0 <= j < |from| ==> CameFrom(r.document.items, j, from[j]))
  {
    hide LoadFrom, CameFrom, Hashable, Objects;
    assert LoadingOk(Loading([], {}, []), 0, ids);
    LoadFromKeepsEntries(Loading([], {}, []), f.items, 0, ids, now);
  }

  // ------------------------------------------------------------- order of keys

  datatype Name = Known(f: Field) | Extra(key: string)

  function KnownNames(item: Item, fs: seq<Field>): seq<Name> {
    if fs == [] then [] else (if fs[0] in item.known then [Known(fs[0])] else []) + KnownNames(item, fs[1..])
  }

  function ExtraNames(keys: seq<string>): seq<Name> {
    if keys == [] then [] else [Extra(keys[0])] + ExtraNames(keys[1..])
  }

  /** _ordered_item, given the extra keys in the order the dict holds them. */
  function OrderedKeys(item: Item, extras: seq<string>): seq<Name> {
    KnownNames(item, FIELD_ORDER) + ExtraNames(SortKeys(extras))
  }

  /** The order in which an item is written depends on its keys alone, not on
      how the dict came to hold them. */
  lemma WrittenOrderIsCanonical(item: Item, extras: seq<string>, others: seq<string>)
    requires Elems(extras) == Elems(others)
    ensures OrderedKeys(item, extras) == OrderedKeys(item, others)
  {
    SortKeysSorts(extras);
    SortKeysSorts(others);
    SortedIsUnique(SortKeys(extras), SortKeys(others));
  }

  lemma {:induction false} NamesAreListed(item: Item, fs: seq<Field>, keys: seq<string>, n: Name)
    ensures n in KnownNames(item, fs) <==> n.Known? && n.f in fs && n.f in item.known
    ensures n in ExtraNames(keys) <==> n.Extra? && n.key in keys
    decreases |fs| + |keys|
  {
    if fs != [] {
      NamesAreListed(item, fs[1..], [], n);
      assert fs == [fs[0]] + fs[1..];
    }
    if keys != [] {
      NamesAreListed(item, [], keys[1..], n);
      assert keys == [keys[0]] + keys[1..];
    }
  }

  /** Nothing is lost and nothing is made up when an item is written. */
  lemma WrittenKeysAreTheKeys(item: Item, extras: seq<string>, n: Name)
    requires Elems(extras) == item.extra.Keys
    ensures n in OrderedKeys(item, extras) <==> (if n.Known? then n.f in item.known else n.key in item.extra)
  {
    NamesAreListed(item, FIELD_ORDER, SortKeys(extras), n);
    SortKeysSorts(extras);
    if n.Known? {
      EveryFieldIsListed(n.f);
    } else {
      assert n.key in Elems(SortKeys(extras)) <==> n.key in SortKeys(extras);
    }
  }
}
