/** Transcripts that are replaced, truncated or rewritten between reads
    (terminal_mcp/ai_usage_local.py, FileCursor; terminal_mcp/ai_usage_index.py,
    refresh). A cursor is resumed when the inode is the same and the file is not
    shorter than the stored offset, and the file is read again from the start
    otherwise. */
module UsageRewrites {
  import opened Options
  import opened UsageParse
  import opened UsageIndex
  import opened UsageRuns
  import opened UsageClean
  import opened UsageFaults

  // ----------------------------------------------------------------- one read

  /** Every event of the complete lines is stored. */
  ghost predicate Stores(read: Reader, rows: Rows, b: Bytes) {
    forall k :: 0 <= k < |Whole(read, b).entries| ==> Whole(read, b).entries[k].event.id in rows
  }

  /** A path not seen before, another inode, or a file shorter than the offset. */
  predicate Rescans(t: Tables, v: View) {
    v.path in t.cursors ==> v.inode != t.cursors[v.path].inode || v.statSize < t.cursors[v.path].offset
  }

  /** Such a file is read from its first byte: every event of its complete lines is
      stored, and the cursor ends behind the last of them, with the inode it was
      found under and the file's last prompt. Only a file that is empty when its
      size is taken is passed over. */
  lemma RescanReadsEverything(read: Reader, t: Tables, v: View)
    requires v.fault.None? && Rescans(t, v) && (v.path in t.cursors ==> v.statSize > 0)
    ensures var t', all := RefreshFile(read, t, v), Whole(read, v.content);
            && Stores(read, t'.rows, v.content)
            && v.path in t'.cursors && t'.cursors[v.path] == Cursor(v.inode, v.statSize, all.consumed, all.last)
            && all.consumed <= |v.content| && Lines(v.content[all.consumed..]) == []
  {
    hide Lines, ParseLines, InsertNew, StorePrompts, StoreCosts;
    assert v.content[0..] == v.content;
    assert ReadOutcome(read, t, v) == Whole(read, v.content);
    ParseStopsAtLineStart(read, v.content, None);
    InsertKeepsAndAdds(t.rows, Whole(read, v.content).entries);
  }

  lemma StoredStay(read: Reader, rows: Rows, more: Rows, b: Bytes)
    requires Stores(read, rows, b) && rows.Keys <= more.Keys
    ensures Stores(read, more, b)
  {
  }

  lemma EntriesInTwo(read: Reader, b: Bytes, i: nat, carry: Option<PromptId>)
    requires AtLineStart(b, i)
    ensures |Whole(read, b).entries| == |Whole(read, b[..i]).entries| + |Parse(read, b[i..], carry).entries|
    ensures Whole(read, b[..i]).entries <= Whole(read, b).entries
    ensures forall k :: 0 <= k < |Parse(read, b[i..], carry).entries| ==>
              Whole(read, b).entries[|Whole(read, b[..i]).entries| + k].event == Parse(read, b[i..], carry).entries[k].event
  {
    hide Lines, ParseLines;
    assert b[..i] + b[i..] == b;
    ParseInTwo(read, b[..i], b[i..], None);
    CarryTellsApart(read, Lines(b[i..]), carry, Whole(read, b[..i]).last);
  }

  lemma StoresInTwo(read: Reader, rows: Rows, b: Bytes, i: nat, carry: Option<PromptId>)
    requires AtLineStart(b, i)
    ensures Stores(read, rows, b) <==>
            && Stores(read, rows, b[..i])
            && forall k :: 0 <= k < |Parse(read, b[i..], carry).entries| ==> Parse(read, b[i..], carry).entries[k].event.id in rows
  {
    hide Whole, Parse;
    EntriesInTwo(read, b, i, carry);
    var n, all, tail := |Whole(read, b[..i]).entries|, Whole(read, b).entries, Parse(read, b[i..], carry).entries;
    if Stores(read, rows, b) {
      forall k | 0 <= k < |tail|
        ensures tail[k].event.id in rows
      {
        assert all[n + k].event == tail[k].event;
      }
      forall k | 0 <= k < n
        ensures Whole(read, b[..i]).entries[k].event.id in rows
      {
        assert all[k] == Whole(read, b[..i]).entries[k];
      }
    }
    if Stores(read, rows, b[..i]) && forall k :: 0 <= k < |tail| ==> tail[k].event.id in rows {
      forall k | 0 <= k < |all|
        ensures all[k].event.id in rows
      {
        if k < n {
          assert all[k] == Whole(read, b[..i]).entries[k];
        } else {
          assert all[n + (k - n)].event == tail[k - n].event;
        }
      }
    }
  }

  /** What a read takes in, from wherever it starts: the bytes between the two
      offsets. */
  lemma ReadStoresSpan(read: Reader, t: Tables, v: View)
    requires !NothingAppended(t, v) && AtLineStart(v.content, StartOf(t, v)) && Stores(read, t.rows, v.content[..StartOf(t, v)])
    ensures v.path in RefreshFile(read, t, v).cursors
    ensures var t' := RefreshFile(read, t, v);
            var off' := t'.cursors[v.path].offset;
            && t.rows.Keys <= t'.rows.Keys
            && AtLineStart(v.content, off') && Stores(read, t'.rows, v.content[..off'])
            && (v.fault.None? ==> Stores(read, t'.rows, v.content))
  {
    hide Whole, Parse, Lines, InsertNew, StorePrompts, StoreCosts;
    var b, off, carry := v.content, StartOf(t, v), CarryOf(t, v);
    var p := ReadOutcome(read, t, v);
    ReadSpan(read, b, off, carry, v.fault);
    var t' := RefreshFile(read, t, v);
    var off' := off + p.consumed;
    InsertKeepsAndAdds(t.rows, p.entries);
    StoredStay(read, t.rows, t'.rows, b[..off]);
    assert b[..off'][..off] == b[..off] && b[..off'][off..] == b[off..off'];
    StoresInTwo(read, t'.rows, b[..off'], off, carry);
    if v.fault.None? {
      NothingBehind(read, b, off');
      StoresInTwo(read, t'.rows, b, off', None);
    }
  }

  lemma NothingBehind(read: Reader, b: Bytes, i: nat)
    requires i <= |b| && Lines(b[i..]) == []
    ensures Parse(read, b[i..], None).entries == []
  {
  }

  // -------------------------------------------------------------------- steps

  /** Change gives a path any content and inode whatever. */
  datatype Move =
    | Change(path: Path, file: File)
    | Read(path: Path, statSize: nat, fault: Option<nat>)
    | Fill(path: Path, fault: Option<nat>)

  /** Whether a file would be resumed at the cursor. */
  predicate Resumes(c: Cursor, f: File) { f.inode == c.inode && c.offset <= |f.bytes| }

  /** The change can be told from the cursor: the file will be read again from the
      start, or nothing before the cursor is different. */
  predicate Noticeable(s: Sys, path: Path, file: File) {
    path in s.t.cursors && Resumes(s.t.cursors[path], file) ==>
      && path in s.world && Resumes(s.t.cursors[path], s.world[path])
      && file.bytes[..s.t.cursors[path].offset] == s.world[path].bytes[..s.t.cursors[path].offset]
  }

  predicate Possible(s: Sys, m: Move) {
    match m
    case Change(path, file) => Noticeable(s, path, file)
    case Read(path, statSize, _) => path in s.world && statSize <= |s.world[path].bytes|
    case Fill(path, _) => path in s.world
  }

  function Moved(read: Reader, s: Sys, m: Move): Sys
    requires Possible(s, m)
  {
    match m
    case Change(path, file) => s.(world := s.world[path := file])
    case Read(path, statSize, fault) => s.(t := RefreshFile(read, s.t, ViewOf(s.world, path, statSize, fault)))
    case Fill(path, fault) => s.(t := BackfillFile(read, s.t, ViewOf(s.world, path, |s.world[path].bytes|, fault)))
  }

  ghost predicate Run(read: Reader, tr: seq<Sys>, ms: seq<Move>) {
    && |tr| == |ms| + 1 && tr[0] == EMPTY
    && forall i :: 0 <= i < |ms| ==> Possible(tr[i], ms[i]) && tr[i + 1] == Moved(read, tr[i], ms[i])
  }

  /** Where a file would be resumed, all before the cursor is stored. */
  ghost predicate Honest(read: Reader, s: Sys, p: Path) {
    p in s.world && p in s.t.cursors && Resumes(s.t.cursors[p], s.world[p]) ==>
      && AtLineStart(s.world[p].bytes, s.t.cursors[p].offset)
      && Stores(read, s.t.rows, s.world[p].bytes[..s.t.cursors[p].offset])
  }

  ghost predicate AllHonest(read: Reader, s: Sys) { forall p :: Honest(read, s, p) }

  lemma ReadKeepsHonest(read: Reader, s: Sys, path: Path, statSize: nat, fault: Option<nat>)
    requires AllHonest(read, s) && path in s.world && statSize <= |s.world[path].bytes|
    ensures var t' := RefreshFile(read, s.t, ViewOf(s.world, path, statSize, fault));
            && AllHonest(read, s.(t := t')) && s.t.rows.Keys <= t'.rows.Keys
            && (fault.None? && statSize == |s.world[path].bytes| ==> Stores(read, t'.rows, s.world[path].bytes))
  {
    hide Stores, ReadOutcome, InsertNew, StorePrompts, StoreCosts;
    var v := ViewOf(s.world, path, statSize, fault);
    var b, t' := v.content, RefreshFile(read, s.t, v);
    assert Honest(read, s, path);
    StoresNothing(read, s.t.rows);
    assert b[..0] == [];
    if NothingAppended(s.t, v) {
      assert b[..|b|] == b;
    } else {
      ReadStoresSpan(read, s.t, v);
      forall p
        ensures Honest(read, s.(t := t'), p)
      {
        assert Honest(read, s, p);
        if p != path && p in s.world && p in s.t.cursors && Resumes(s.t.cursors[p], s.world[p]) {
          StoredStay(read, s.t.rows, t'.rows, s.world[p].bytes[..s.t.cursors[p].offset]);
        }
      }
    }
  }

  lemma StoresNothing(read: Reader, rows: Rows)
    ensures Stores(read, rows, [])
  {
  }

  lemma FillKeepsHonest(read: Reader, s: Sys, path: Path, v: View)
    requires AllHonest(read, s) && v.path == path
    ensures AllHonest(read, s.(t := BackfillFile(read, s.t, v))) && BackfillFile(read, s.t, v).rows.Keys == s.t.rows.Keys
  {
    hide Stores, Outcome, FillMissing, StorePrompts, StoreCosts;
    var t' := BackfillFile(read, s.t, v);
    FillOnlyFills(s.t.rows, Outcome(read, v.content, 0, None, v.fault).entries);
    StoresNothing(read, t'.rows);
    forall p
      ensures Honest(read, s.(t := t'), p)
    {
      assert Honest(read, s, p);
      if p in s.world {
        assert s.world[p].bytes[..0] == [];
        if p in s.t.cursors && Resumes(s.t.cursors[p], s.world[p]) {
          StoredStay(read, s.t.rows, t'.rows, s.world[p].bytes[..s.t.cursors[p].offset]);
        }
      }
    }
  }

  lemma MoveKeepsHonest(read: Reader, s: Sys, m: Move)
    requires AllHonest(read, s) && Possible(s, m)
    ensures AllHonest(read, Moved(read, s, m))
  {
    hide Stores, RefreshFile, BackfillFile;
    match m
    case Change(path, file) =>
      forall p
        ensures Honest(read, Moved(read, s, m), p)
      {
        assert Honest(read, s, p);
      }
    case Read(path, statSize, fault) => ReadKeepsHonest(read, s, path, statSize, fault);
    case Fill(path, fault) => FillKeepsHonest(read, s, path, ViewOf(s.world, path, |s.world[path].bytes|, fault));
  }

  lemma {:induction false} RunIsHonest(read: Reader, tr: seq<Sys>, ms: seq<Move>, i: nat)
    requires Run(read, tr, ms) && i < |tr|
    ensures AllHonest(read, tr[i])
  {
    hide AllHonest, Moved;
    if i > 0 {
      RunIsHonest(read, tr, ms, i - 1);
      MoveKeepsHonest(read, tr[i - 1], ms[i - 1]);
      assert tr[i - 1 + 1] == Moved(read, tr[i - 1], ms[i - 1]);
    } else {
      EmptyIsHonest(read);
    }
  }

  lemma EmptyIsHonest(read: Reader)
    ensures AllHonest(read, EMPTY)
  {
  }

  // ------------------------------------------------------------- clean refresh

  lemma {:induction false} QuietReadsStore(read: Reader, s: Sys, order: seq<Path>, p: Path)
    requires AllHonest(read, s) && p in s.world
    requires forall i :: 0 <= i < |order| ==> order[i] in s.world
    ensures p in order || Stores(read, s.t.rows, s.world[p].bytes) ==>
              Stores(read, RefreshFiles(read, s.t, QuietViews(s.world, order)).rows, s.world[p].bytes)
    decreases |order|
  {
    hide AllHonest, Stores, RefreshFile;
    if order != [] {
      var q := order[0];
      ReadKeepsHonest(read, s, q, |s.world[q].bytes|, None);
      var s1 := s.(t := RefreshFile(read, s.t, QuietView(s.world, q)));
      if Stores(read, s.t.rows, s.world[p].bytes) {
        StoredStay(read, s.t.rows, s1.t.rows, s.world[p].bytes);
      }
      QuietReadsStore(read, s1, order[1..], p);
      var vs := QuietViews(s.world, order);
      assert vs[0] == QuietView(s.world, q) && vs[1..] == QuietViews(s.world, order[1..]);
    }
  }

  /** Whatever was appended, cut off, replaced and misread before, as long as no
      change went unnoticed: one refresh that meets no error stores every event of
      the files as they stand. */
  lemma {:induction false} CleanRefreshStoresEverything(read: Reader, tr: seq<Sys>, ms: seq<Move>, order: seq<Path>, s: Sys, p: Path)
    requires Run(read, tr, ms) && s == tr[|tr| - 1] && p in s.world
    requires forall i :: 0 <= i < |order| ==> order[i] in s.world
    requires forall q :: q in s.world ==> q in order
    ensures var vs := QuietViews(s.world, order);
            Stores(read, Backfill(read, RefreshFiles(read, s.t, vs), vs).rows, s.world[p].bytes)
  {
    hide AllHonest, Stores, RefreshFiles, Backfill;
    RunIsHonest(read, tr, ms, |tr| - 1);
    QuietReadsStore(read, s, order, p);
    var vs := QuietViews(s.world, order);
    var t := RefreshFiles(read, s.t, vs);
    BackfillKeepsKeys(read, t, vs);
    StoredStay(read, t.rows, Backfill(read, t, vs).rows, s.world[p].bytes);
  }

  // --------------------------------------------------------- unnoticed changes

  /** What a resumed read without error leaves out: it stores every event of the
      file as it stands if and only if each event before the offset is stored
      already or occurs again behind it. */
  lemma ResumedReadStoresAllIff(read: Reader, t: Tables, v: View)
    requires v.fault.None? && !NothingAppended(t, v) && AtLineStart(v.content, StartOf(t, v))
    ensures var off := StartOf(t, v);
            var before, behind := Whole(read, v.content[..off]).entries, Parse(read, v.content[off..], None).entries;
            Stores(read, RefreshFile(read, t, v).rows, v.content) <==>
            forall k :: 0 <= k < |before| ==>
              before[k].event.id in t.rows || exists j :: 0 <= j < |behind| && behind[j].event.id == before[k].event.id
  {
    hide Whole, Lines, ParseLines, InsertNew, StorePrompts, StoreCosts;
    var b, off := v.content, StartOf(t, v);
    var p := ReadOutcome(read, t, v);
    var behind := Parse(read, b[off..], None).entries;
    CarryTellsApart(read, Lines(b[off..]), CarryOf(t, v), None);
    InsertKeepsAndAdds(t.rows, p.entries);
    var rows := RefreshFile(read, t, v).rows;
    assert p.entries == Parse(read, b[off..], CarryOf(t, v)).entries;
    StoresInTwo(read, rows, b, off, CarryOf(t, v));
    forall id
      ensures id in rows <==> id in t.rows || exists j :: 0 <= j < |behind| && behind[j].event.id == id
    {
      if j :| 0 <= j < |behind| && behind[j].event.id == id {
        assert p.entries[j].event == behind[j].event;
      }
      if id in rows && id !in t.rows {
        var m := InsertSource(t.rows, p.entries, id);
        assert p.entries[m].event == behind[m].event;
      }
    }
  }

  lemma ToyResumed(t: Tables)
    requires t.cursors == map[0 := Cursor(5, 6, 6, None)]
    ensures RefreshFile(Toy, t, Shown(FIRST + LATER)).rows == InsertNew(t.rows, [Entry(Event(2, 0, 1), None)])
  {
    hide Parse, InsertNew, Toy;
    ToyParses(None);
    assert (FIRST + LATER)[6..] == LATER;
    assert ReadOutcome(Toy, t, Shown(FIRST + LATER)) == Parse(Toy, LATER, None);
  }

  /** A file rewritten in place under its old inode, and not shorter than the
      offset, is not read again: the event on its first line is never stored. */
  lemma RewriteInPlaceLosesEvents(t: Tables)
    requires t.cursors == map[0 := Cursor(5, 6, 6, None)] && 1 !in t.rows
    ensures Whole(Toy, FIRST + LATER).entries != [] && Whole(Toy, FIRST + LATER).entries[0].event.id == 1
    ensures 1 !in RefreshFile(Toy, t, Shown(FIRST + LATER)).rows
  {
    hide Whole, RefreshFile, Toy;
    ToyWhole();
    ToyResumed(t);
    var es := [Entry(Event(2, 0, 1), None)];
    assert es[1..] == [];
    assert InsertNew(t.rows, es) == InsertOne(t.rows, es[0]);
  }
}
