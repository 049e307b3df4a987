/** What the usage index holds in every run, and after a refresh that meets no
    error (terminal_mcp/ai_usage_index.py). */
module UsageClean {
  import opened Options
  import opened UsageParse
  import opened UsageIndex
  import opened UsageRuns

  // --------------------------------------------------------------- whole runs

  lemma {:induction false} WorldsGrow(read: Reader, tr: seq<Sys>, acts: seq<Act>, i: nat, j: nat, p: Path)
    requires Behavior(read, tr, acts) && i <= j < |tr| && p in tr[i].world
    ensures p in tr[j].world && tr[i].world[p].bytes <= tr[j].world[p].bytes
    decreases j - i
  {
    if i < j {
      WorldsGrow(read, tr, acts, i, j - 1, p);
    }
  }

  lemma DistinctBefore(read: Reader, tr: seq<Sys>, acts: seq<Act>, i: nat)
    requires Behavior(read, tr, acts) && i < |tr| && Distinct(read, tr[|tr| - 1].world)
    ensures Distinct(read, tr[i].world)
  {
    var w, final := tr[i].world, tr[|tr| - 1].world;
    forall p | p in w
      ensures p in final && All(read, w, p) <= All(read, final, p)
    {
      WorldsGrow(read, tr, acts, i, |tr| - 1, p);
      var b, b' := w[p].bytes, final[p].bytes;
      assert b + b'[|b|..] == b';
      ParseOfGrownFile(read, b, b'[|b|..], None);
    }
    forall p, q, k, m | p in w && q in w && 0 <= k < |All(read, w, p)| && 0 <= m < |All(read, w, q)|
      ensures All(read, w, p)[k].event.id == All(read, w, q)[m].event.id ==> p == q && k == m
    {
      assert All(read, w, p)[k] == All(read, final, p)[k];
      assert All(read, w, q)[m] == All(read, final, q)[m];
    }
  }

  /** In every run with distinct event ids: each cursor sits at a line start;
      every event before a cursor is stored, once, with its own data and with
      either the prompt a full re-read gives it or none; nothing else is stored. */
  lemma {:induction false} IndexNeverMisattributes(read: Reader, tr: seq<Sys>, acts: seq<Act>, i: nat)
    requires Behavior(read, tr, acts) && i < |tr| && Distinct(read, tr[|tr| - 1].world)
    ensures Inv(read, tr[i])
  {
    if i > 0 {
      IndexNeverMisattributes(read, tr, acts, i - 1);
      DistinctBefore(read, tr, acts, i - 1);
      match acts[i - 1]
      case Append(path, inode, more) => AppendKeepsInv(read, tr[i - 1], path, inode, more);
      case ReadFile(path, statSize, fault) => ReadFileKeepsInv(read, tr[i - 1], path, statSize, fault);
      case FillFile(path, fault) => FillFileKeepsInv(read, tr[i - 1], path, fault);
    }
  }

  // ------------------------------------------------------ a clean refresh heals

  predicate RowExact(rows: Rows, e: Entry) {
    e.event.id in rows && rows[e.event.id] == Row(e.event, e.prompt)
  }

  /** No complete line of the file is unread. */
  ghost predicate Complete(s: Sys, p: Path) {
    p in s.world && p in s.t.cursors && s.t.cursors[p].offset <= |s.world[p].bytes| &&
    Lines(s.world[p].bytes[s.t.cursors[p].offset..]) == []
  }

  function QuietView(w: World, p: Path): View
    requires p in w
  {
    ViewOf(w, p, |w[p].bytes|, None)
  }

  /** Every file as it stands, read without error. */
  function QuietViews(w: World, order: seq<Path>): seq<View>
    requires forall i :: 0 <= i < |order| ==> order[i] in w
  {
    if order == [] then [] else [QuietView(w, order[0])] + QuietViews(w, order[1..])
  }

  lemma {:induction false} QuietRefreshFiles(read: Reader, s: Sys, order: seq<Path>)
    requires Inv(read, s) && Distinct(read, s.world)
    requires forall i :: 0 <= i < |order| ==> order[i] in s.world
    ensures var s' := s.(t := RefreshFiles(read, s.t, QuietViews(s.world, order)));
            && Inv(read, s')
            && (forall p :: Complete(s, p) || p in order ==> Complete(s', p))
    decreases |order|
  {
    if order != [] {
      var p := order[0];
      var a := ReadFile(p, |s.world[p].bytes|, None);
      assert CursorsOk(read, s);
      var s1 := Do(read, s, a);
      ReadFileKeepsInv(read, s, p, |s.world[p].bytes|, None);
      assert s1 == s.(t := RefreshFile(read, s.t, QuietView(s.world, p)));
      QuietRefreshFiles(read, s1, order[1..]);
      var vs := QuietViews(s.world, order);
      assert vs[0] == QuietView(s.world, p) && vs[1..] == QuietViews(s.world, order[1..]);
    }
  }

  ghost predicate Attributed(read: Reader, s: Sys, p: Path)
    requires CursorsOk(read, s) && p in s.world
  {
    forall k :: 0 <= k < |Covered(read, s, p)| ==> RowExact(s.t.rows, Covered(read, s, p)[k])
  }

  /** One clean backfill iteration gives the rows of its file their full
      attribution and leaves the other files' rows alone. */
  lemma FillFileAttributes(read: Reader, s: Sys, path: Path, q: Path)
    requires Inv(read, s) && Distinct(read, s.world) && Complete(s, path) && q in s.world
    requires q == path || Attributed(read, s, q)
    ensures var s' := Do(read, s, FillFile(path, None));
            Inv(read, s') && Attributed(read, s', q)
  {
    var s' := Do(read, s, FillFile(path, None));
    FillFileKeepsInv(read, s, path, None);
    var b := s.world[path].bytes;
    assert b[0..] == b;
    assert CursorOk(read, s.world[path], s.t.cursors[path]);
    LastPromptAtCursor(read, b, OffsetOf(s.t, path));
    var es := Outcome(read, b, 0, None, None).entries;
    assert es == Covered(read, s, path);
    FillOnlyFills(s.t.rows, es);
    forall k | 0 <= k < |Covered(read, s', q)|
      ensures RowExact(s'.t.rows, Covered(read, s', q)[k])
    {
      var e := Covered(read, s', q)[k];
      assert e == Covered(read, s, q)[k];
      assert RowMatches(s.t.rows, e) && RowMatches(s'.t.rows, e);
      if q == path {
        assert e == es[k];
      } else {
        assert RowExact(s.t.rows, e);
      }
    }
  }

  lemma {:induction false} QuietBackfillFiles(read: Reader, s: Sys, order: seq<Path>)
    requires Inv(read, s) && Distinct(read, s.world)
    requires forall i :: 0 <= i < |order| ==> order[i] in s.world
    requires forall p :: p in s.world ==> Complete(s, p)
    ensures var s' := s.(t := BackfillFiles(read, s.t, QuietViews(s.world, order)));
            && Inv(read, s')
            && (forall p :: p in s.world ==> Complete(s', p))
            && (forall p :: p in s.world && (p in order || Attributed(read, s, p)) ==> Attributed(read, s', p))
    decreases |order|
  {
    if order != [] {
      var p := order[0];
      var s1 := Do(read, s, FillFile(p, None));
      FillFileKeepsInv(read, s, p, None);
      forall q | q in s.world && (q == p || Attributed(read, s, q))
        ensures Attributed(read, s1, q)
      {
        FillFileAttributes(read, s, p, q);
      }
      assert s1 == s.(t := BackfillFile(read, s.t, QuietView(s.world, p)));
      QuietBackfillFiles(read, s1, order[1..]);
      var vs := QuietViews(s.world, order);
      assert vs[0] == QuietView(s.world, p) && vs[1..] == QuietViews(s.world, order[1..]);
    }
  }

  /** The table a single pass over every file builds. */
  function OnePass(read: Reader, w: World, order: seq<Path>, rows: Rows): Rows
    requires forall i :: 0 <= i < |order| ==> order[i] in w
    decreases |order|
  {
    if order == [] then rows else OnePass(read, w, order[1..], InsertNew(rows, All(read, w, order[0])))
  }

  /** Rows that hold exactly the entries of the files in `done`. */
  ghost predicate Holds(read: Reader, w: World, done: set<Path>, rows: Rows) {
    && (forall p, k :: p in done && p in w && 0 <= k < |All(read, w, p)| ==> RowExact(rows, All(read, w, p)[k]))
    && (forall id :: id in rows ==> exists p, k :: p in done && p in w && 0 <= k < |All(read, w, p)| && All(read, w, p)[k].event.id == id)
  }

  function PathsOf(order: seq<Path>): set<Path> { set p | p in order }

  lemma EveryPath(w: World, order: seq<Path>)
    requires forall i :: 0 <= i < |order| ==> order[i] in w
    requires forall p :: p in w ==> p in order
    ensures {} + PathsOf(order) == w.Keys
  {
  }

  lemma {:induction false} OnePassHolds(read: Reader, w: World, order: seq<Path>, rows: Rows, done: set<Path>)
    requires Distinct(read, w) && Holds(read, w, done, rows)
    requires forall i :: 0 <= i < |order| ==> order[i] in w
    ensures Holds(read, w, done + PathsOf(order), OnePass(read, w, order, rows))
    decreases |order|
  {
    hide All, Holds, InsertNew, Distinct;
    if order == [] {
      assert done + PathsOf(order) == done;
    } else {
      InsertHolds(read, w, order[0], rows, done);
      OnePassHolds(read, w, order[1..], InsertNew(rows, All(read, w, order[0])), done + {order[0]});
      assert done + {order[0]} + PathsOf(order[1..]) == done + PathsOf(order);
    }
  }

  lemma {:induction false} InsertHolds(read: Reader, w: World, path: Path, rows: Rows, done: set<Path>)
    requires Distinct(read, w) && Holds(read, w, done, rows) && path in w
    ensures Holds(read, w, done + {path}, InsertNew(rows, All(read, w, path)))
  {
    var es := All(read, w, path);
    var out := InsertNew(rows, es);
    InsertKeepsAndAdds(rows, es);
    forall p, k | p in done + {path} && p in w && 0 <= k < |All(read, w, p)|
      ensures RowExact(out, All(read, w, p)[k])
    {
      var id := All(read, w, p)[k].event.id;
      if p in done {
        assert RowExact(rows, All(read, w, p)[k]);
      } else {
        forall q, m | q in done && q in w && 0 <= m < |All(read, w, q)|
          ensures All(read, w, q)[m].event.id != id
        {
          assert q != p;
        }
        InsertOfNewId(rows, es, k);
      }
    }
    forall id | id in out
      ensures exists p, k :: p in done + {path} && p in w && 0 <= k < |All(read, w, p)| && All(read, w, p)[k].event.id == id
    {
      if id !in rows {
        var m := InsertSource(rows, es, id);
        assert All(read, w, path)[m].event.id == id;
      }
    }
  }

  lemma HoldsIsUnique(read: Reader, w: World, a: Rows, b: Rows)
    requires Holds(read, w, w.Keys, a) && Holds(read, w, w.Keys, b)
    ensures a == b
  {
    hide All;
    forall id | id in a
      ensures id in b && a[id] == b[id]
    {
      var p, k :| p in w && 0 <= k < |All(read, w, p)| && All(read, w, p)[k].event.id == id;
      assert RowExact(a, All(read, w, p)[k]) && RowExact(b, All(read, w, p)[k]);
    }
    forall id | id in b
      ensures id in a
    {
      var p, k :| p in w && 0 <= k < |All(read, w, p)| && All(read, w, p)[k].event.id == id;
      assert RowExact(a, All(read, w, p)[k]);
    }
  }

  lemma AttributedEverywhereHolds(read: Reader, s: Sys)
    requires Inv(read, s) && forall p :: p in s.world ==> Complete(s, p) && Attributed(read, s, p)
    ensures Holds(read, s.world, s.world.Keys, s.t.rows)
  {
    forall p | p in s.world
      ensures Covered(read, s, p) == All(read, s.world, p)
    {
      assert CursorOk(read, s.world[p], s.t.cursors[p]);
      LastPromptAtCursor(read, s.world[p].bytes, OffsetOf(s.t, p));
    }
    forall p, k | p in s.world && 0 <= k < |All(read, s.world, p)|
      ensures RowExact(s.t.rows, All(read, s.world, p)[k])
    {
      assert All(read, s.world, p)[k] == Covered(read, s, p)[k];
    }
    forall id | id in s.t.rows
      ensures exists p, k :: p in s.world.Keys && p in s.world && 0 <= k < |All(read, s.world, p)| && All(read, s.world, p)[k].event.id == id
    {
      assert CoversId(read, s, id);
      var p, k :| p in s.world && 0 <= k < |Covered(read, s, p)| && Covered(read, s, p)[k].event.id == id;
      assert All(read, s.world, p)[k].event.id == id;
    }
  }

  lemma {:induction false} CleanRefreshReads(read: Reader, s: Sys, order: seq<Path>, s1: Sys)
    requires Inv(read, s) && Distinct(read, s.world)
    requires forall i :: 0 <= i < |order| ==> order[i] in s.world
    requires forall p :: p in s.world ==> p in order
    requires s1 == s.(t := RefreshFiles(read, s.t, QuietViews(s.world, order)))
    ensures Inv(read, s1) && forall p :: p in s1.world ==> Complete(s1, p)
  {
    QuietRefreshFiles(read, s, order);
  }

  lemma {:induction false} CleanBackfillAttributes(read: Reader, s: Sys, order: seq<Path>, s1: Sys)
    requires Inv(read, s) && Distinct(read, s.world)
    requires forall i :: 0 <= i < |order| ==> order[i] in s.world
    requires forall p :: p in s.world ==> p in order && Complete(s, p)
    requires s1 == s.(t := Backfill(read, s.t, QuietViews(s.world, order)))
    ensures Inv(read, s1) && forall p :: p in s1.world ==> Complete(s1, p) && Attributed(read, s1, p)
  {
    if AnyUnattributed(s.t.rows) {
      QuietBackfillFiles(read, s, order);
    } else {
      assert s1 == s;
      forall p, k | p in s.world && 0 <= k < |Covered(read, s, p)|
        ensures RowExact(s.t.rows, Covered(read, s, p)[k])
      {
        assert RowMatches(s.t.rows, Covered(read, s, p)[k]);
      }
    }
  }

  lemma NothingHeld(read: Reader, w: World)
    ensures Holds(read, w, {}, map[])
  {
  }

  lemma {:induction false} CleanRefreshFromInvariant(read: Reader, s: Sys, order: seq<Path>)
    requires Inv(read, s) && Distinct(read, s.world)
    requires forall i :: 0 <= i < |order| ==> order[i] in s.world
    requires forall p :: p in s.world ==> p in order
    ensures var vs := QuietViews(s.world, order);
            Backfill(read, RefreshFiles(read, s.t, vs), vs).rows == OnePass(read, s.world, order, map[])
  {
    hide *;
    var vs := QuietViews(s.world, order);
    var s1 := s.(t := RefreshFiles(read, s.t, vs));
    CleanRefreshReads(read, s, order, s1);
    var s2 := s1.(t := Backfill(read, s1.t, vs));
    CleanBackfillAttributes(read, s1, order, s2);
    AttributedEverywhereHolds(read, s2);
    NothingHeld(read, s.world);
    OnePassHolds(read, s.world, order, map[], {});
    EveryPath(s.world, order);
    HoldsIsUnique(read, s.world, s2.t.rows, OnePass(read, s.world, order, map[]));
  }

  /** Whatever appends, cut lines and read errors came before: one refresh that
      meets no error makes the stored rows, and so every count over them, equal
      to one pass over all complete lines of all files, attributions included. */
  lemma {:induction false} CleanRefreshIsExact(read: Reader, tr: seq<Sys>, acts: seq<Act>, order: seq<Path>, s: Sys)
    requires Behavior(read, tr, acts) && s == tr[|tr| - 1] && Distinct(read, s.world)
    requires forall i :: 0 <= i < |order| ==> order[i] in s.world
    requires forall p :: p in s.world ==> p in order
    ensures var vs := QuietViews(s.world, order);
            Backfill(read, RefreshFiles(read, s.t, vs), vs).rows == OnePass(read, s.world, order, map[])
  {
    IndexNeverMisattributes(read, tr, acts, |tr| - 1);
    CleanRefreshFromInvariant(read, s, order);
  }
}
