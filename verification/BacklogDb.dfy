/** One project's backlog in the controller database, and the service that
    reads, changes and writes it back (terminal_mcp/backlog_db.py,
    terminal_mcp/backlog_service.py). */
module BacklogDb {
  import opened Options

  type Id = string

  /** An item; everything but the id is one payload. */
  datatype Item<+P> = Item(id: Id, payload: P)

  type Rows<P> = map<Id, P>

  ghost predicate DistinctIds<P>(items: seq<Item<P>>) {
    forall i, j :: 0 <= i < j < |items| ==> items[i].id != items[j].id
  }

  function TableOf<P>(items: seq<Item<P>>): Rows<P> {
    if items == [] then map[] else
      var last := items[|items| - 1];
      TableOf(items[..|items| - 1])[last.id := last.payload]
  }

  lemma {:induction false} TableOfKeys<P>(items: seq<Item<P>>)
    ensures forall id :: id in TableOf(items) <==> exists i :: 0 <= i < |items| && items[i].id == id
  {
    if items != [] {
      var front := items[..|items| - 1];
      TableOfKeys(front);
      forall i | 0 <= i < |items|
        ensures items[i].id in TableOf(items)
      {
        if i < |front| {
          assert front[i].id == items[i].id;
        }
      }
    }
  }

  /** The table gives back exactly the items written, when their ids differ. */
  lemma {:induction false} TableOfHolds<P>(items: seq<Item<P>>, i: nat)
    requires DistinctIds(items) && i < |items|
    ensures items[i].id in TableOf(items) && TableOf(items)[items[i].id] == items[i].payload
  {
    if i < |items| - 1 {
      TableOfHolds(items[..|items| - 1], i);
    }
  }

  const MAX_ITEMS: nat := 2000

  /** What a mutator answers: an application-level refusal, or the new set. */
  datatype Outcome<P> = Refused | NewItems(items: seq<Item<P>>)

  datatype Answer = Conflict(actual: nat) | Rejected | TooLarge | Integrity | Ok(revision: nat)

  class BacklogStore<P(==)> {
    var known: bool
    var revision: nat
    var rows: Rows<P>

    constructor ()
      ensures !known && revision == 0 && rows == map[]
    {
      known, revision, rows := false, 0, map[];
    }

    method EnsureProject()
      modifies this
      ensures known && rows == old(rows) && revision == if old(known) then old(revision) else 0
    {
      if !known {
        known, revision := true, 0;
      }
    }

    method Revision() returns (r: nat)
      ensures r == if known then revision else 0
    {
      r := if known then revision else 0;
    }

    /** One transaction: the old rows go, the new ones come in one by one, a
        repeated id rolls everything back. */
    method ReplaceItems(items: seq<Item<P>>) returns (r: Option<nat>)
      modifies this
      ensures known == old(known)
      ensures r.Some? <==> DistinctIds(items)
      ensures rows == if r.Some? then TableOf(items) else old(rows)
      ensures revision == if r.Some? && known then old(revision) + 1 else old(revision)
      ensures r.Some? ==> r.value == if known then revision else 0
    {
      var inserted := map[];
      for i := 0 to |items|
        invariant rows == old(rows) && revision == old(revision) && known == old(known)
        invariant inserted == TableOf(items[..i]) && DistinctIds(items[..i])
      {
        TableOfKeys(items[..i]);
        assert items[..i + 1][..i] == items[..i];
        if items[i].id in inserted {
          assert exists k :: 0 <= k < i && items[..i][k].id == items[i].id;
          return None;
        }
        inserted := inserted[items[i].id := items[i].payload];
      }
      assert items[..|items|] == items;
      rows := inserted;
      if known {
        revision := revision + 1;
        return Some(revision);
      }
      return Some(0);
    }

    /** The same transaction for items already keyed by id. */
    method ReplaceRows(items: Rows<P>) returns (r: nat)
      modifies this
      ensures known == old(known) && rows == items
      ensures revision == if known then old(revision) + 1 else old(revision)
      ensures r == if known then revision else 0
    {
      rows := items;
      if known {
        revision := revision + 1;
      }
      r := if known then revision else 0;
    }

    /** The service's read-modify-write, run with the project lock held and no
        unlocked writer about. */
    method Mutate(expected: Option<nat>, mutator: Rows<P> -> Outcome<P>) returns (a: Answer)
      modifies this
      ensures known
      ensures a.Ok? ==> (expected.Some? ==> expected.value == old(Current())) && revision == old(Current()) + 1 == a.revision
      ensures a.Ok? ==> mutator(old(rows)).NewItems? && rows == TableOf(mutator(old(rows)).items)
                        && DistinctIds(mutator(old(rows)).items) && |mutator(old(rows)).items| <= MAX_ITEMS
      ensures !a.Ok? ==> revision == old(Current()) && rows == old(rows)
      ensures a.Conflict? <==> expected.Some? && expected.value != old(Current())
      ensures a.Conflict? ==> a.actual == old(Current())
    {
      EnsureProject();
      var current := Revision();
      if expected.Some? && expected.value != current {
        return Conflict(current);
      }
      var outcome := mutator(rows);
      if outcome.Refused? {
        return Rejected;
      }
      if |outcome.items| > MAX_ITEMS {
        return TooLarge;
      }
      var written := ReplaceItems(outcome.items);
      return if written.Some? then Ok(written.value) else Integrity;
    }

    ghost function Current(): nat
      reads this
    {
      if known then revision else 0
    }
  }
}
