/** The incremental index agrees with re-reading everything
    (terminal_mcp/ai_usage_index.py, terminal_mcp/ai_usage_local.py).

    Files only grow here and keep their inode. Appends may cut a line anywhere
    and may fall between the stat and the read of a file, and any read may fail
    part-way. */
module UsageRuns {
  import opened Options
  import opened UsageParse
  import opened UsageIndex

  datatype File = File(inode: nat, bytes: Bytes)
  type World = map<Path, File>

  datatype Sys = Sys(world: World, t: Tables)

  datatype Act =
    | Append(path: Path, inode: nat, more: Bytes)
    | ReadFile(path: Path, statSize: nat, fault: Option<nat>)   // one refresh iteration
    | FillFile(path: Path, fault: Option<nat>)                  // one backfill iteration

  const EMPTY := Sys(map[], Tables(map[], map[], map[], map[]))

  function OffsetOf(t: Tables, path: Path): nat {
    if path in t.cursors then t.cursors[path].offset else 0
  }

  function ViewOf(w: World, path: Path, statSize: nat, fault: Option<nat>): View
    requires path in w
  {
    View(path, w[path].inode, statSize, w[path].bytes, fault)
  }

  /** The complete lines behind the cursor hold no prompt other than the one in
      force at the cursor. */
  ghost predicate NoOtherPromptBehind(read: Reader, b: Bytes, off: nat)
    requires off <= |b|
  {
    var behind := LastPrompt(read, Lines(b[off..]));
    behind == None || behind == Whole(read, b[..off]).last
  }

  /** The size a stat returns lies between what was read before and what is
      there when the content is read. A backfill of a file may run when it
      leaves the right carry, or when it fails; UsageFaults shows that a
      backfill in any other state leaves a wrong one. */
  ghost predicate Enabled(read: Reader, s: Sys, a: Act) {
    match a
    case Append(_, _, _) => true
    case ReadFile(path, statSize, _) =>
      path in s.world && OffsetOf(s.t, path) <= statSize <= |s.world[path].bytes|
    case FillFile(path, fault) =>
      path in s.world && OffsetOf(s.t, path) <= |s.world[path].bytes| &&
      (fault.None? ==> NoOtherPromptBehind(read, s.world[path].bytes, OffsetOf(s.t, path)))
  }

  function Appended(w: World, path: Path, inode: nat, more: Bytes): World {
    w[path := if path in w then File(w[path].inode, w[path].bytes + more) else File(inode, more)]
  }

  ghost function Do(read: Reader, s: Sys, a: Act): Sys
    requires Enabled(read, s, a)
  {
    match a
    case Append(path, inode, more) => s.(world := Appended(s.world, path, inode, more))
    case ReadFile(path, statSize, fault) =>
      s.(t := RefreshFile(read, s.t, ViewOf(s.world, path, statSize, fault)))
    case FillFile(path, fault) =>
      s.(t := BackfillFile(read, s.t, ViewOf(s.world, path, |s.world[path].bytes|, fault)))
  }

  ghost predicate Behavior(read: Reader, tr: seq<Sys>, acts: seq<Act>) {
    && |tr| == |acts| + 1 && tr[0] == EMPTY
    && forall i :: 0 <= i < |acts| ==> Enabled(read, tr[i], acts[i]) && tr[i + 1] == Do(read, tr[i], acts[i])
  }

  // ---------------------------------------------------------------- invariant

  function All(read: Reader, w: World, path: Path): seq<Entry>
    requires path in w
  {
    Whole(read, w[path].bytes).entries
  }

  /** No event id occurs twice, in one file or in two. */
  ghost predicate Distinct(read: Reader, w: World) {
    forall p, q, i, j ::
      p in w && q in w && 0 <= i < |All(read, w, p)| && 0 <= j < |All(read, w, q)| ==>
        All(read, w, p)[i].event.id == All(read, w, q)[j].event.id ==> p == q && i == j
  }

  /** A cursor sits at a line start of its file, and carries either the prompt
      in force there or nothing. */
  ghost predicate CursorOk(read: Reader, f: File, c: Cursor) {
    && AtLineStart(f.bytes, c.offset)
    && (c.inode == f.inode || c.offset == 0)
    && (c.carry == None || c.carry == Whole(read, f.bytes[..c.offset]).last)
  }

  predicate RowMatches(rows: Rows, e: Entry) {
    && e.event.id in rows
    && rows[e.event.id].event == e.event
    && (rows[e.event.id].prompt == e.prompt || rows[e.event.id].prompt == None)
  }

  /** The entries of a file that lie before its cursor. */
  ghost function Covered(read: Reader, s: Sys, path: Path): seq<Entry>
    requires path in s.world && OffsetOf(s.t, path) <= |s.world[path].bytes|
  {
    Whole(read, s.world[path].bytes[..OffsetOf(s.t, path)]).entries
  }

  ghost predicate CursorsOk(read: Reader, s: Sys) {
    forall p :: p in s.t.cursors ==> p in s.world && CursorOk(read, s.world[p], s.t.cursors[p])
  }

  ghost predicate CoveredStored(read: Reader, s: Sys)
    requires CursorsOk(read, s)
  {
    forall p, k :: p in s.world && 0 <= k < |Covered(read, s, p)| ==> RowMatches(s.t.rows, Covered(read, s, p)[k])
  }

  ghost predicate CoversId(read: Reader, s: Sys, id: EventId)
    requires CursorsOk(read, s)
  {
    exists p, k :: p in s.world && 0 <= k < |Covered(read, s, p)| && Covered(read, s, p)[k].event.id == id
  }

  ghost predicate NothingElse(read: Reader, s: Sys)
    requires CursorsOk(read, s)
  {
    forall id :: id in s.t.rows ==> CoversId(read, s, id)
  }

  ghost predicate Inv(read: Reader, s: Sys) {
    CursorsOk(read, s) && CoveredStored(read, s) && NothingElse(read, s)
  }

  /** What lies before the cursor is the beginning of what the file holds. */
  lemma CoveredIsPrefix(read: Reader, s: Sys, p: Path)
    requires CursorsOk(read, s) && p in s.world
    ensures Covered(read, s, p) <= All(read, s.world, p)
  {
    var b, off := s.world[p].bytes, OffsetOf(s.t, p);
    assert b[..off] + b[off..] == b;
    ParseOfGrownFile(read, b[..off], b[off..], None);
  }

  // ------------------------------------------------------------------- append

  lemma AppendKeepsInv(read: Reader, s: Sys, path: Path, inode: nat, more: Bytes)
    requires Inv(read, s)
    ensures Inv(read, s.(world := Appended(s.world, path, inode, more)))
  {
    var s' := s.(world := Appended(s.world, path, inode, more));
    forall p | p in s.world
      ensures OffsetOf(s.t, p) <= |s.world[p].bytes| <= |s'.world[p].bytes|
      ensures s'.world[p].bytes[..OffsetOf(s.t, p)] == s.world[p].bytes[..OffsetOf(s.t, p)]
    {
    }
    forall p | p in s'.t.cursors
      ensures CursorOk(read, s'.world[p], s'.t.cursors[p])
    {
      assert CursorOk(read, s.world[p], s.t.cursors[p]);
    }
    if path !in s.world {
      assert more[..0] == [];
      assert Covered(read, s', path) == [];
    }
    forall p, k | p in s'.world && 0 <= k < |Covered(read, s', p)|
      ensures RowMatches(s'.t.rows, Covered(read, s', p)[k])
    {
      assert Covered(read, s, p) == Covered(read, s', p);
    }
    forall id | id in s'.t.rows
      ensures CoversId(read, s', id)
    {
      var p, k :| p in s.world && 0 <= k < |Covered(read, s, p)| && Covered(read, s, p)[k].event.id == id;
      assert Covered(read, s', p)[k].event.id == id;
    }
  }

  // --------------------------------------------------------------------- read

  /** Where one incremental read ends, and that it read exactly the bytes
      between the two offsets. */
  lemma ReadSpan(read: Reader, b: Bytes, off: nat, carry: Option<PromptId>, fault: Option<nat>)
    requires AtLineStart(b, off)
    ensures var off' := off + Outcome(read, b, off, carry, fault).consumed;
            && AtLineStart(b, off')
            && Outcome(read, b, off, carry, fault).entries == Parse(read, b[off..off'], carry).entries
            && Outcome(read, b, off, carry, fault).last
               == (if fault.Some? then None else Parse(read, b[off..off'], carry).last)
            && (fault.None? ==> Lines(b[off'..]) == [])
  {
    hide Parse, Lines;
    var d := Delivered(b[off..], fault);
    var c := Parse(read, d, carry).consumed;
    ParseStopsAtLineStart(read, d, carry);
    ParseOfCompletePart(read, d, carry);
    EndsAtLineStart(b, off, fault, c);
    assert d[..c] == b[off..off + c];
    assert fault.None? ==> d[c..] == b[off + c..];
  }

  lemma CarriedParse(read: Reader, y: Bytes, carry: Option<PromptId>, right: Option<PromptId>)
    requires carry == None || carry == right
    ensures SameButMissing(Parse(read, y, carry).entries, Parse(read, y, right).entries)
    ensures Parse(read, y, carry).last == None || Parse(read, y, carry).last == Parse(read, y, right).last
  {
    LostCarryOnlyLoses(read, Lines(y), right);
  }

  lemma ExtendWhole(read: Reader, b: Bytes, off: nat, off': nat)
    requires off <= off' && AtLineStart(b, off) && AtLineStart(b, off')
    ensures var more := Parse(read, b[off..off'], Whole(read, b[..off]).last);
            && Whole(read, b[..off']).entries == Whole(read, b[..off]).entries + more.entries
            && Whole(read, b[..off']).last == more.last
  {
    assert b[..off'] == b[..off] + b[off..off'];
    ParseInTwo(read, b[..off], b[off..off'], None);
  }

  /** What one read of a file from `off` to `off'` must have found: exactly the
      entries between the two offsets, except that attributions may be missing. */
  ghost predicate Advanced(read: Reader, b: Bytes, off: nat, off': nat, p: Parsed, add: seq<Entry>) {
    && off <= off' && AtLineStart(b, off) && AtLineStart(b, off')
    && Whole(read, b[..off']).entries == Whole(read, b[..off]).entries + add
    && SameButMissing(p.entries, add)
    && (p.last == None || p.last == Whole(read, b[..off']).last)
  }

  lemma ReadAdvances(read: Reader, b: Bytes, off: nat, carry: Option<PromptId>, fault: Option<nat>, p: Parsed)
    returns (add: seq<Entry>)
    requires AtLineStart(b, off)
    requires carry == None || carry == Whole(read, b[..off]).last
    requires p == Outcome(read, b, off, carry, fault)
    ensures Advanced(read, b, off, off + p.consumed, p, add)
    ensures fault.None? ==> Lines(b[off + p.consumed..]) == []
  {
    hide Whole, Parse, Lines, Outcome;
    var off' := off + p.consumed;
    ReadSpan(read, b, off, carry, fault);
    var right := Whole(read, b[..off]).last;
    ExtendWhole(read, b, off, off');
    add := Parse(read, b[off..off'], right).entries;
    CarriedParse(read, b[off..off'], carry, right);
  }

  /** A read of file `path` in terms of the system: rows and cursor afterwards. */
  ghost predicate ReadResult(read: Reader, s: Sys, s': Sys, path: Path, got: seq<Entry>, add: seq<Entry>) {
    && path in s.world && s'.world == s.world
    && OffsetOf(s.t, path) <= |s.world[path].bytes| && OffsetOf(s'.t, path) <= |s.world[path].bytes|
    && s'.t.rows == InsertNew(s.t.rows, got)
    && SameButMissing(got, add)
    && Covered(read, s', path) == Covered(read, s, path) + add
    && (forall q :: q != path ==> OffsetOf(s'.t, q) == OffsetOf(s.t, q))
  }

  /** Freshly read entries were not stored before, and differ pairwise. */
  lemma AddedAreNew(read: Reader, s: Sys, s': Sys, path: Path, got: seq<Entry>, add: seq<Entry>)
    requires Inv(read, s) && CursorsOk(read, s') && Distinct(read, s.world)
    requires ReadResult(read, s, s', path, got, add)
    ensures forall k :: 0 <= k < |got| ==> got[k].event.id !in s.t.rows
    ensures forall k, m :: 0 <= k < |got| && 0 <= m < |got| && got[k].event.id == got[m].event.id ==> k == m
  {
    var n := |Covered(read, s, path)|;
    var all := All(read, s.world, path);
    CoveredIsPrefix(read, s', path);
    forall k | 0 <= k < |got|
      ensures n + k < |all| && all[n + k].event.id == got[k].event.id
    {
      assert Covered(read, s', path)[n + k] == add[k];
    }
    forall k | 0 <= k < |got|
      ensures got[k].event.id !in s.t.rows
    {
      forall q, j | q in s.world && 0 <= j < |Covered(read, s, q)|
        ensures Covered(read, s, q)[j].event.id != got[k].event.id
      {
        CoveredIsPrefix(read, s, q);
        assert !(q == path && j == n + k);
        assert All(read, s.world, q)[j].event.id != all[n + k].event.id;
      }
    }
  }

  lemma ReadStoresCovered(read: Reader, s: Sys, s': Sys, path: Path, got: seq<Entry>, add: seq<Entry>, p: Path, k: nat)
    requires Inv(read, s) && CursorsOk(read, s') && Distinct(read, s.world)
    requires ReadResult(read, s, s', path, got, add)
    requires p in s'.world && k < |Covered(read, s', p)|
    ensures RowMatches(s'.t.rows, Covered(read, s', p)[k])
  {
    var n := |Covered(read, s, path)|;
    if p != path || k < n {
      OldMatchSurvivesInsert(s.t.rows, got, Covered(read, s, p)[k]);
      assert Covered(read, s', p)[k] == Covered(read, s, p)[k];
    } else {
      AddedAreNew(read, s, s', path, got, add);
      InsertOfNewId(s.t.rows, got, k - n);
      assert add[k - n] == Covered(read, s', p)[k];
    }
  }

  lemma {:induction false} OldMatchSurvivesInsert(rows: Rows, got: seq<Entry>, e: Entry)
    requires RowMatches(rows, e)
    ensures RowMatches(InsertNew(rows, got), e)
  {
    InsertKeepsAndAdds(rows, got);
  }

  lemma ReadStoresNothingElse(read: Reader, s: Sys, s': Sys, path: Path, got: seq<Entry>, add: seq<Entry>)
    requires Inv(read, s) && CursorsOk(read, s')
    requires ReadResult(read, s, s', path, got, add)
    ensures NothingElse(read, s')
  {
    hide Whole, InsertNew, RowMatches;
    forall id | id in s'.t.rows
      ensures CoversId(read, s', id)
    {
      if id in s.t.rows {
        var p, k :| p in s.world && 0 <= k < |Covered(read, s, p)| && Covered(read, s, p)[k].event.id == id;
        assert Covered(read, s', p)[k].event.id == id;
      } else {
        var m := InsertSource(s.t.rows, got, id);
        assert Covered(read, s', path)[|Covered(read, s, path)| + m] == add[m];
      }
    }
  }

  lemma ReadKeepsStored(read: Reader, s: Sys, s': Sys, path: Path, got: seq<Entry>, add: seq<Entry>)
    requires Inv(read, s) && CursorsOk(read, s') && Distinct(read, s.world)
    requires ReadResult(read, s, s', path, got, add)
    ensures Inv(read, s')
  {
    forall p, k | p in s'.world && 0 <= k < |Covered(read, s', p)|
      ensures RowMatches(s'.t.rows, Covered(read, s', p)[k])
    {
      ReadStoresCovered(read, s, s', path, got, add, p, k);
    }
    ReadStoresNothingElse(read, s, s', path, got, add);
  }

  lemma StartIsOffset(read: Reader, s: Sys, path: Path, statSize: nat, fault: Option<nat>)
    requires CursorsOk(read, s) && Enabled(read, s, ReadFile(path, statSize, fault))
    ensures var v := ViewOf(s.world, path, statSize, fault);
            StartOf(s.t, v) == OffsetOf(s.t, path) &&
            (CarryOf(s.t, v) == None || CarryOf(s.t, v) == Whole(read, s.world[path].bytes[..OffsetOf(s.t, path)]).last)
  {
  }

  /** A refresh iteration keeps the invariant; one without error leaves no
      complete line unread. */
  lemma ReadFileKeepsInv(read: Reader, s: Sys, path: Path, statSize: nat, fault: Option<nat>)
    requires Inv(read, s) && Distinct(read, s.world) && Enabled(read, s, ReadFile(path, statSize, fault))
    ensures Inv(read, Do(read, s, ReadFile(path, statSize, fault)))
    ensures var s' := Do(read, s, ReadFile(path, statSize, fault));
            && OffsetOf(s.t, path) <= OffsetOf(s'.t, path) <= |s.world[path].bytes|
            && (fault.None? && statSize == |s.world[path].bytes| ==>
                  path in s'.t.cursors && Lines(s.world[path].bytes[OffsetOf(s'.t, path)..]) == [])
            && (forall q :: q != path ==> OffsetOf(s'.t, q) == OffsetOf(s.t, q) && (q in s.t.cursors ==> q in s'.t.cursors))
  {
    var v := ViewOf(s.world, path, statSize, fault);
    var b, off := s.world[path].bytes, OffsetOf(s.t, path);
    StartIsOffset(read, s, path, statSize, fault);
    if NothingAppended(s.t, v) {
      assert off == statSize;
    } else {
      var s' := s.(t := RefreshFile(read, s.t, v));
      var add := ReadFileResult(read, s, s', v);
      ReadKeepsStored(read, s, s', path, ReadOutcome(read, s.t, v).entries, add);
    }
  }

  lemma ReadFileResult(read: Reader, s: Sys, s': Sys, v: View) returns (add: seq<Entry>)
    requires CursorsOk(read, s) && Enabled(read, s, ReadFile(v.path, v.statSize, v.fault))
    requires v == ViewOf(s.world, v.path, v.statSize, v.fault) && !NothingAppended(s.t, v)
    requires s'.world == s.world && s'.t == RefreshFile(read, s.t, v)
    ensures CursorsOk(read, s')
    ensures ReadResult(read, s, s', v.path, ReadOutcome(read, s.t, v).entries, add)
    ensures OffsetOf(s.t, v.path) <= OffsetOf(s'.t, v.path) <= |v.content|
    ensures v.path in s'.t.cursors && forall q :: q in s.t.cursors ==> q in s'.t.cursors
    ensures v.fault.None? ==> Lines(v.content[OffsetOf(s'.t, v.path)..]) == []
  {
    hide Parse, Lines, Outcome, InsertNew, FillMissing, StorePrompts, StoreCosts, ReadResult;
    var off := OffsetOf(s.t, v.path);
    StartIsOffset(read, s, v.path, v.statSize, v.fault);
    assert AtLineStart(v.content, off);
    var p := ReadOutcome(read, s.t, v);
    RefreshFileShape(read, s.t, v, off);
    add := ReadAdvances(read, v.content, off, CarryOf(s.t, v), v.fault, p);
    AdvancedIsReadResult(read, s, s', v.path, p, add, v);
  }

  lemma AdvancedIsReadResult(read: Reader, s: Sys, s': Sys, path: Path, p: Parsed, add: seq<Entry>, v: View)
    requires CursorsOk(read, s) && path in s.world && s'.world == s.world
    requires OffsetOf(s.t, path) <= |s.world[path].bytes| && v.inode == s.world[path].inode
    requires var off := OffsetOf(s.t, path);
             && Advanced(read, s.world[path].bytes, off, off + p.consumed, p, add)
             && s'.t.cursors == s.t.cursors[path := Cursor(v.inode, v.statSize, off + p.consumed, p.last)]
    requires s'.t.rows == InsertNew(s.t.rows, p.entries)
    ensures CursorsOk(read, s') && ReadResult(read, s, s', path, p.entries, add)
    ensures OffsetOf(s'.t, path) == OffsetOf(s.t, path) + p.consumed
  {
  }

  lemma RefreshFileShape(read: Reader, t: Tables, v: View, off: nat)
    requires StartOf(t, v) == off && !NothingAppended(t, v)
    ensures var p := ReadOutcome(read, t, v);
            && p == Outcome(read, v.content, off, CarryOf(t, v), v.fault)
            && RefreshFile(read, t, v).rows == InsertNew(t.rows, p.entries)
            && RefreshFile(read, t, v).cursors == t.cursors[v.path := Cursor(v.inode, v.statSize, off + p.consumed, p.last)]
  {
  }

  // ----------------------------------------------------------------- backfill

  /** What a backfill reads of a file is the beginning of what the file holds. */
  lemma FillReadsPrefix(read: Reader, b: Bytes, fault: Option<nat>)
    ensures Outcome(read, b, 0, None, fault).entries <= Whole(read, b).entries
  {
    var d := Delivered(b, fault);
    assert b[0..] == b && d + b[|d|..] == b;
    ParseOfGrownFile(read, d, b[|d|..], None);
  }

  /** With nothing complete behind the cursor, the file's last prompt is the
      cursor's. */
  lemma LastPromptAtCursor(read: Reader, b: Bytes, off: nat)
    requires AtLineStart(b, off) && Lines(b[off..]) == []
    ensures Whole(read, b).last == Whole(read, b[..off]).last
    ensures Whole(read, b).entries == Whole(read, b[..off]).entries
  {
    assert b[..off] + b[off..] == b;
    ParseInTwo(read, b[..off], b[off..], None);
  }

  /** The file's last prompt is then the cursor's. */
  lemma SamePromptAtEnd(read: Reader, b: Bytes, off: nat)
    requires AtLineStart(b, off) && NoOtherPromptBehind(read, b, off)
    ensures Whole(read, b).last == Whole(read, b[..off]).last
  {
    hide Lines, LastPrompt, ParseLines;
    assert b[..off] + b[off..] == b;
    ParseInTwo(read, b[..off], b[off..], None);
    ParseEndsInLastPrompt(read, Lines(b[off..]), Whole(read, b[..off]).last);
  }

  /** Filling gives a row its right attribution and touches nothing else. */
  lemma {:induction false} FillKeepsMatch(read: Reader, s: Sys, path: Path, es: seq<Entry>, q: Path, j: nat)
    requires Inv(read, s) && Distinct(read, s.world) && path in s.world
    requires es <= All(read, s.world, path)
    requires q in s.world && j < |Covered(read, s, q)|
    ensures RowMatches(FillMissing(s.t.rows, es), Covered(read, s, q)[j])
  {
    FillOnlyFills(s.t.rows, es);
    var e := Covered(read, s, q)[j];
    assert RowMatches(s.t.rows, e);
    var id := e.event.id;
    var out := FillMissing(s.t.rows, es);
    if out[id] != s.t.rows[id] {
      var k :| 0 <= k < |es| && es[k].event.id == id && out[id].prompt == es[k].prompt;
      CoveredIsPrefix(read, s, q);
      assert All(read, s.world, path)[k].event.id == All(read, s.world, q)[j].event.id;
      assert es[k] == e;
    }
  }

  lemma FillFileKeepsInv(read: Reader, s: Sys, path: Path, fault: Option<nat>)
    requires Inv(read, s) && Distinct(read, s.world) && Enabled(read, s, FillFile(path, fault))
    ensures Inv(read, Do(read, s, FillFile(path, fault)))
    ensures forall q :: OffsetOf(Do(read, s, FillFile(path, fault)).t, q) == OffsetOf(s.t, q)
  {
    var s' := Do(read, s, FillFile(path, fault));
    var b := s.world[path].bytes;
    assert b[0..] == b;
    var es := Outcome(read, b, 0, None, fault).entries;
    FillReadsPrefix(read, b, fault);
    FillOnlyFills(s.t.rows, es);
    FillFileCursors(read, s, s', path, fault);
    forall p, k | p in s'.world && 0 <= k < |Covered(read, s', p)|
      ensures RowMatches(s'.t.rows, Covered(read, s', p)[k])
    {
      assert Covered(read, s', p) == Covered(read, s, p);
      FillKeepsMatch(read, s, path, es, p, k);
    }
    forall id | id in s'.t.rows
      ensures CoversId(read, s', id)
    {
      var p, k :| p in s.world && 0 <= k < |Covered(read, s, p)| && Covered(read, s, p)[k].event.id == id;
      assert Covered(read, s', p)[k].event.id == id;
    }
  }

  lemma FillFileCursors(read: Reader, s: Sys, s': Sys, path: Path, fault: Option<nat>)
    requires CursorsOk(read, s) && Enabled(read, s, FillFile(path, fault))
    requires s' == Do(read, s, FillFile(path, fault))
    ensures CursorsOk(read, s')
    ensures forall q :: OffsetOf(s'.t, q) == OffsetOf(s.t, q)
  {
    var b, off := s.world[path].bytes, OffsetOf(s.t, path);
    assert b[0..] == b;
    assert AtLineStart(b, off);
    if fault.None? {
      SamePromptAtEnd(read, b, off);
    }
    var last := Outcome(read, b, 0, None, fault).last;
    assert last == None || last == Whole(read, b[..off]).last;
    assert CursorOk(read, s'.world[path], s'.t.cursors[path]);
  }
}
