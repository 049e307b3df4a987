/** The usage index (terminal_mcp/ai_usage_index.py): cursors, the carried
    prompt, insert-or-ignore storage and the backfill pass.

    The functions below say what one file's refresh or backfill does to the
    tables; the class runs them in the loops of refresh and
    backfill. */
module UsageIndex {
  import opened Options
  import opened UsageParse

  type Path = nat

  datatype Row = Row(event: Event, prompt: Option<PromptId>)
  type Rows = map<EventId, Row>

  /** One file_cursors row; `carry` is the prompt the last read ended inside. */
  datatype Cursor = Cursor(inode: nat, size: nat, offset: nat, carry: Option<PromptId>)

  datatype Tables = Tables(
    rows: Rows, cursors: map<Path, Cursor>, prompts: map<PromptId, Prompt>, costs: map<SessionId, real>)

  /** What the file system shows of one file: the size is taken by stat before
      the content is read, and a read may fail part-way. */
  datatype View = View(path: Path, inode: nat, statSize: nat, content: Bytes, fault: Option<nat>)

  // ------------------------------------------------------------------- tables

  function InsertOne(rows: Rows, e: Entry): Rows {
    if e.event.id in rows then rows else rows[e.event.id := Row(e.event, e.prompt)]
  }

  /** INSERT OR IGNORE of every entry in turn. */
  function InsertNew(rows: Rows, es: seq<Entry>): Rows
    decreases |es|
  {
    if es == [] then rows else InsertNew(InsertOne(rows, es[0]), es[1..])
  }

  function FillOne(rows: Rows, e: Entry): Rows {
    if e.prompt.Some? && e.event.id in rows && rows[e.event.id].prompt.None?
    then rows[e.event.id := rows[e.event.id].(prompt := e.prompt)] else rows
  }

  /** UPDATE ... SET prompt_id WHERE event_id AND prompt_id IS NULL, for every
      entry that has a prompt. */
  function FillMissing(rows: Rows, es: seq<Entry>): Rows
    decreases |es|
  {
    if es == [] then rows else FillMissing(FillOne(rows, es[0]), es[1..])
  }

  function StorePrompts(t: map<PromptId, Prompt>, ps: seq<Prompt>): map<PromptId, Prompt>
    decreases |ps|
  {
    if ps == [] then t else StorePrompts(if ps[0].id in t then t else t[ps[0].id := ps[0]], ps[1..])
  }

  /** A later running total supersedes an earlier one. */
  function StoreCosts(t: map<SessionId, real>, cs: seq<Cost>): map<SessionId, real>
    decreases |cs|
  {
    if cs == [] then t else StoreCosts(t[cs[0].session := cs[0].usd], cs[1..])
  }

  // ------------------------------------------------------------ one file each

  function ResumeOffset(stored: Cursor, inode: nat, size: nat): nat {
    if inode != stored.inode || size < stored.offset then 0 else stored.offset
  }

  function StartOf(t: Tables, v: View): nat {
    if v.path in t.cursors then ResumeOffset(t.cursors[v.path], v.inode, v.statSize) else 0
  }

  function CarryOf(t: Tables, v: View): Option<PromptId> {
    if StartOf(t, v) > 0 && v.path in t.cursors then t.cursors[v.path].carry else None
  }

  predicate NothingAppended(t: Tables, v: View) {
    v.path in t.cursors && StartOf(t, v) >= v.statSize
  }

  function ReadOutcome(read: Reader, t: Tables, v: View): Parsed {
    Outcome(read, v.content, StartOf(t, v), CarryOf(t, v), v.fault)
  }

  /** The loop body of `refresh` for one transcript. */
  function RefreshFile(read: Reader, t: Tables, v: View): Tables {
    if NothingAppended(t, v) then t else
      var p := ReadOutcome(read, t, v);
      Tables(InsertNew(t.rows, p.entries),
             t.cursors[v.path := Cursor(v.inode, v.statSize, StartOf(t, v) + p.consumed, p.last)],
             StorePrompts(t.prompts, p.prompts),
             StoreCosts(t.costs, p.costs))
  }

  /** _remember_carry: a path without a cursor gets an empty one. */
  function RememberCarry(cursors: map<Path, Cursor>, path: Path, carry: Option<PromptId>): map<Path, Cursor> {
    cursors[path := if path in cursors then cursors[path].(carry := carry) else Cursor(0, 0, 0, carry)]
  }

  /** The loop body of `backfill` for one transcript. */
  function BackfillFile(read: Reader, t: Tables, v: View): Tables {
    var p := Outcome(read, v.content, 0, None, v.fault);
    Tables(FillMissing(t.rows, p.entries),
           RememberCarry(t.cursors, v.path, p.last),
           StorePrompts(t.prompts, p.prompts),
           StoreCosts(t.costs, p.costs))
  }

  predicate AnyUnattributed(rows: Rows) {
    exists id :: id in rows && rows[id].prompt.None?
  }

  function RefreshFiles(read: Reader, t: Tables, vs: seq<View>): Tables
    decreases |vs|
  {
    if vs == [] then t else RefreshFiles(read, RefreshFile(read, t, vs[0]), vs[1..])
  }

  function BackfillFiles(read: Reader, t: Tables, vs: seq<View>): Tables
    decreases |vs|
  {
    if vs == [] then t else BackfillFiles(read, BackfillFile(read, t, vs[0]), vs[1..])
  }

  function Backfill(read: Reader, t: Tables, vs: seq<View>): Tables {
    if AnyUnattributed(t.rows) then BackfillFiles(read, t, vs) else t
  }

  // ----------------------------------------------------- facts about the folds

  /** Rows are never removed; events and non-null prompts never change. */
  ghost predicate Grows(old_: Rows, new_: Rows) {
    forall id :: id in old_ ==>
      && id in new_
      && new_[id].event == old_[id].event
      && (old_[id].prompt.Some? ==> new_[id].prompt == old_[id].prompt)
  }

  lemma {:induction false} InsertKeepsAndAdds(rows: Rows, es: seq<Entry>)
    ensures forall id :: id in rows ==> id in InsertNew(rows, es) && InsertNew(rows, es)[id] == rows[id]
    ensures forall k :: 0 <= k < |es| ==> es[k].event.id in InsertNew(rows, es)
    ensures forall id :: id in InsertNew(rows, es) && id !in rows ==>
              exists k :: 0 <= k < |es| && es[k].event.id == id && InsertNew(rows, es)[id] == Row(es[k].event, es[k].prompt)
    decreases |es|
  {
    if es != [] {
      var rows1 := InsertOne(rows, es[0]);
      InsertKeepsAndAdds(rows1, es[1..]);
      var out := InsertNew(rows, es);
      forall id | id in out && id !in rows
        ensures exists k :: 0 <= k < |es| && es[k].event.id == id && out[id] == Row(es[k].event, es[k].prompt)
      {
        if id in rows1 {
          assert es[0].event.id == id;
        } else {
          var k :| 0 <= k < |es[1..]| && es[1..][k].event.id == id && out[id] == Row(es[1..][k].event, es[1..][k].prompt);
          assert es[k + 1] == es[1..][k];
        }
      }
    }
  }

  /** Where a new row comes from. */
  lemma InsertSource(rows: Rows, es: seq<Entry>, id: EventId) returns (m: nat)
    requires id in InsertNew(rows, es) && id !in rows
    ensures m < |es| && es[m].event.id == id && InsertNew(rows, es)[id] == Row(es[m].event, es[m].prompt)
  {
    InsertKeepsAndAdds(rows, es);
    m :| m < |es| && es[m].event.id == id && InsertNew(rows, es)[id] == Row(es[m].event, es[m].prompt);
  }

  /** An id that is new and occurs once is stored as it came. */
  lemma {:induction false} InsertOfNewId(rows: Rows, es: seq<Entry>, k: nat)
    requires k < |es| && es[k].event.id !in rows
    requires forall m :: 0 <= m < |es| && es[m].event.id == es[k].event.id ==> m == k
    ensures es[k].event.id in InsertNew(rows, es)
    ensures InsertNew(rows, es)[es[k].event.id] == Row(es[k].event, es[k].prompt)
  {
    InsertKeepsAndAdds(rows, es);
    var m := InsertSource(rows, es, es[k].event.id);
  }

  lemma {:induction false} FillOnlyFills(rows: Rows, es: seq<Entry>)
    ensures FillMissing(rows, es).Keys == rows.Keys && Grows(rows, FillMissing(rows, es))
    ensures forall id :: id in rows && FillMissing(rows, es)[id] != rows[id] ==>
              exists k :: 0 <= k < |es| && es[k].event.id == id && es[k].prompt.Some? && FillMissing(rows, es)[id].prompt == es[k].prompt
    ensures forall k :: 0 <= k < |es| && es[k].prompt.Some? && es[k].event.id in rows ==>
              FillMissing(rows, es)[es[k].event.id].prompt.Some?
    decreases |es|
  {
    if es != [] {
      var rows1 := FillOne(rows, es[0]);
      FillOnlyFills(rows1, es[1..]);
      var out := FillMissing(rows, es);
      forall id | id in rows && out[id] != rows[id]
        ensures exists k :: 0 <= k < |es| && es[k].event.id == id && es[k].prompt.Some? && out[id].prompt == es[k].prompt
      {
        if rows1[id] == rows[id] {
          var k :| 0 <= k < |es[1..]| && es[1..][k].event.id == id && es[1..][k].prompt.Some? && out[id].prompt == es[1..][k].prompt;
          assert es[k + 1] == es[1..][k];
        } else {
          assert es[0].event.id == id;
        }
      }
      forall k | 0 <= k < |es| && es[k].prompt.Some? && es[k].event.id in rows
        ensures out[es[k].event.id].prompt.Some?
      {
        if k > 0 {
          assert es[k] == es[1..][k - 1];
        }
      }
    }
  }

  // -------------------------------------------------------------------- class

  class AiUsageIndex {
    var rows: Rows
    var cursors: map<Path, Cursor>
    var prompts: map<PromptId, Prompt>
    var costs: map<SessionId, real>

    function Contents(): Tables reads this { Tables(rows, cursors, prompts, costs) }

    constructor ()
      ensures Contents() == Tables(map[], map[], map[], map[])
    {
      rows, cursors, prompts, costs := map[], map[], map[], map[];
    }

    /** Returns the number of rows that were really inserted. */
    method StoreEvents(es: seq<Entry>) returns (inserted: nat)
      modifies this`rows
      ensures rows == InsertNew(old(rows), es)
      ensures inserted == |rows| - |old(rows)|
    {
      inserted := 0;
      for i := 0 to |es|
        invariant InsertNew(rows, es[i..]) == InsertNew(old(rows), es)
        invariant inserted == |rows| - |old(rows)|
      {
        assert es[i..][0] == es[i] && es[i..][1..] == es[i + 1..];
        if es[i].event.id !in rows {
          rows := rows[es[i].event.id := Row(es[i].event, es[i].prompt)];
          inserted := inserted + 1;
        }
      }
      assert es[|es|..] == [];
    }

    method UpdateMissing(es: seq<Entry>)
      modifies this`rows
      ensures rows == FillMissing(old(rows), es)
    {
      for i := 0 to |es|
        invariant FillMissing(rows, es[i..]) == FillMissing(old(rows), es)
      {
        assert es[i..][0] == es[i] && es[i..][1..] == es[i + 1..];
        rows := FillOne(rows, es[i]);
      }
      assert es[|es|..] == [];
    }

    method StorePromptsAndCosts(ps: seq<Prompt>, cs: seq<Cost>)
      modifies this`prompts, this`costs
      ensures prompts == StorePrompts(old(prompts), ps) && costs == StoreCosts(old(costs), cs)
    {
      for i := 0 to |ps|
        invariant StorePrompts(prompts, ps[i..]) == StorePrompts(old(prompts), ps)
        invariant costs == old(costs)
      {
        assert ps[i..][0] == ps[i] && ps[i..][1..] == ps[i + 1..];
        if ps[i].id !in prompts {
          prompts := prompts[ps[i].id := ps[i]];
        }
      }
      assert ps[|ps|..] == [];
      assert cs[0..] == cs;
      for i := 0 to |cs|
        invariant StoreCosts(costs, cs[i..]) == StoreCosts(old(costs), cs)
        invariant prompts == StorePrompts(old(prompts), ps)
      {
        assert cs[i..][0] == cs[i] && cs[i..][1..] == cs[i + 1..];
        costs := costs[cs[i].session := cs[i].usd];
      }
      assert cs[|cs|..] == [];
    }

    /** One transcript in the refresh loop. */
    method RefreshOne(read: Reader, v: View) returns (inserted: nat)
      modifies this
      ensures Contents() == RefreshFile(read, old(Contents()), v)
      ensures inserted == |rows| - |old(rows)|
    {
      hide Outcome, Parse, InsertNew, StorePrompts, StoreCosts;
      var start := if v.path in cursors then ResumeOffset(cursors[v.path], v.inode, v.statSize) else 0;
      if v.path in cursors && start >= v.statSize {
        return 0;
      }
      var carry := if start > 0 then cursors[v.path].carry else None;
      var p, endOffset := ParseTranscript(read, v.content, start, carry, v.fault);
      inserted := StoreOutcome(v, p, endOffset);
    }

    method StoreOutcome(v: View, p: Parsed, endOffset: nat) returns (inserted: nat)
      modifies this
      ensures rows == InsertNew(old(rows), p.entries)
      ensures cursors == old(cursors)[v.path := Cursor(v.inode, v.statSize, endOffset, p.last)]
      ensures prompts == StorePrompts(old(prompts), p.prompts) && costs == StoreCosts(old(costs), p.costs)
      ensures inserted == |rows| - |old(rows)|
    {
      StorePromptsAndCosts(p.prompts, p.costs);
      cursors := RememberCarry(cursors, v.path, p.last);
      inserted := StoreEvents(p.entries);
      cursors := cursors[v.path := cursors[v.path].(inode := v.inode, size := v.statSize, offset := endOffset)];
    }

    /** The whole backfill pass: nothing at all when no turn lacks a prompt. */
    method RunBackfill(read: Reader, vs: seq<View>)
      modifies this
      ensures Contents() == Backfill(read, old(Contents()), vs)
    {
      if !AnyUnattributed(rows) {
        return;
      }
      for i := 0 to |vs|
        invariant BackfillFiles(read, Contents(), vs[i..]) == BackfillFiles(read, old(Contents()), vs)
      {
        assert vs[i..][0] == vs[i] && vs[i..][1..] == vs[i + 1..];
        var p, endOffset := ParseTranscript(read, vs[i].content, 0, None, vs[i].fault);
        StorePromptsAndCosts(p.prompts, p.costs);
        UpdateMissing(p.entries);
        cursors := RememberCarry(cursors, vs[i].path, p.last);
      }
      assert vs[|vs|..] == [];
    }

    /** refresh: every transcript, then the backfill, which looks at the files
        again. */
    method Refresh(read: Reader, vs: seq<View>, again: seq<View>) returns (eventsNew: nat)
      modifies this
      ensures Contents() == Backfill(read, RefreshFiles(read, old(Contents()), vs), again)
      ensures eventsNew == |rows| - |old(rows)|
    {
      eventsNew := 0;
      for i := 0 to |vs|
        invariant RefreshFiles(read, Contents(), vs[i..]) == RefreshFiles(read, old(Contents()), vs)
        invariant eventsNew == |rows| - |old(rows)|
      {
        assert vs[i..][0] == vs[i] && vs[i..][1..] == vs[i + 1..];
        var inserted := RefreshOne(read, vs[i]);
        eventsNew := eventsNew + inserted;
      }
      assert vs[|vs|..] == [];
      ghost var before := Contents();
      RunBackfill(read, again);
      BackfillKeepsKeys(read, before, again);
    }
  }

  lemma {:induction false} BackfillFilesKeepKeys(read: Reader, t: Tables, vs: seq<View>)
    ensures BackfillFiles(read, t, vs).rows.Keys == t.rows.Keys && Grows(t.rows, BackfillFiles(read, t, vs).rows)
    decreases |vs|
  {
    if vs != [] {
      FillOnlyFills(t.rows, Outcome(read, vs[0].content, 0, None, vs[0].fault).entries);
      BackfillFilesKeepKeys(read, BackfillFile(read, t, vs[0]), vs[1..]);
    }
  }

  lemma BackfillKeepsKeys(read: Reader, t: Tables, vs: seq<View>)
    ensures Backfill(read, t, vs).rows.Keys == t.rows.Keys && Grows(t.rows, Backfill(read, t, vs).rows)
    ensures |Backfill(read, t, vs).rows| == |t.rows|
  {
    BackfillFilesKeepKeys(read, t, vs);
    assert |Backfill(read, t, vs).rows.Keys| == |t.rows.Keys|;
  }
}
