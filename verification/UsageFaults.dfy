/** What the index keeps in every run, and where the carried prompt goes wrong
    (terminal_mcp/ai_usage_index.py, terminal_mcp/ai_usage_local.py). */
module UsageFaults {
  import opened Options
  import opened UsageParse
  import opened UsageIndex

  // ------------------------------------- any files, truncated, replaced, failing

  /** One step of a single writer, on whatever the file system shows: contents
      may shrink or be replaced between steps and reads may fail. */
  datatype Op = Refreshed(v: View) | Filled(v: View)

  function Step(read: Reader, t: Tables, op: Op): Tables {
    match op
    case Refreshed(v) => RefreshFile(read, t, v)
    case Filled(v) => BackfillFile(read, t, v)
  }

  function RunOps(read: Reader, t: Tables, ops: seq<Op>): Tables
    decreases |ops|
  {
    if ops == [] then t else RunOps(read, Step(read, t, ops[0]), ops[1..])
  }

  /** What `events_new` adds up to: a backfill reports no new events. */
  function EventsNew(read: Reader, t: Tables, ops: seq<Op>): int
    decreases |ops|
  {
    if ops == [] then 0 else
      var t' := Step(read, t, ops[0]);
      (if ops[0].Refreshed? then |t'.rows| - |t.rows| else 0) + EventsNew(read, t', ops[1..])
  }

  lemma StepOnlyGrows(read: Reader, t: Tables, op: Op)
    ensures Grows(t.rows, Step(read, t, op).rows)
    ensures op.Filled? ==> |Step(read, t, op).rows| == |t.rows|
    ensures op.Refreshed? && !NothingAppended(t, op.v) ==>
              forall k :: 0 <= k < |ReadOutcome(read, t, op.v).entries| ==>
                ReadOutcome(read, t, op.v).entries[k].event.id in Step(read, t, op).rows
  {
    match op
    case Refreshed(v) => InsertKeepsAndAdds(t.rows, ReadOutcome(read, t, v).entries);
    case Filled(v) =>
      FillOnlyFills(t.rows, Outcome(read, v.content, 0, None, v.fault).entries);
      assert |Step(read, t, op).rows.Keys| == |t.rows.Keys|;
  }

  /** Stored rows never disappear and never change, except that a missing prompt
      may be filled in once; the reported new events are exactly the rows. */
  lemma {:induction false} IndexOnlyGrows(read: Reader, t: Tables, ops: seq<Op>)
    ensures Grows(t.rows, RunOps(read, t, ops).rows)
    ensures EventsNew(read, t, ops) == |RunOps(read, t, ops).rows| - |t.rows|
    decreases |ops|
  {
    if ops != [] {
      StepOnlyGrows(read, t, ops[0]);
      IndexOnlyGrows(read, Step(read, t, ops[0]), ops[1..]);
    }
  }

  // ----------------------------------------------- when the carry is wrong

  /** A backfill reads to the current end of the file but leaves the offset, so
      it leaves the right carry if and only if the complete lines behind the
      cursor hold no prompt other than the one in force at the cursor. */
  lemma BackfillCarryIsRightIff(read: Reader, t: Tables, v: View)
    requires v.fault.None? && v.path in t.cursors && AtLineStart(v.content, t.cursors[v.path].offset)
    ensures var off := t.cursors[v.path].offset;
            var t' := BackfillFile(read, t, v);
            var right := Whole(read, v.content[..off]).last;
            var behind := LastPrompt(read, Lines(v.content[off..]));
            && t'.cursors[v.path].offset == off
            && (t'.cursors[v.path].carry == right <==> behind == None || behind == right)
  {
    var b, off := v.content, t.cursors[v.path].offset;
    assert b[0..] == b && b[..off] + b[off..] == b;
    ParseInTwo(read, b[..off], b[off..], None);
    ParseEndsInLastPrompt(read, Lines(b[off..]), Whole(read, b[..off]).last);
  }

  /** A backfill whose read fails forgets the prompt: the carry is right if and
      only if no prompt was typed before the cursor. */
  lemma FailedBackfillCarryIsRightIff(read: Reader, t: Tables, v: View)
    requires v.fault.Some? && v.path in t.cursors && AtLineStart(v.content, t.cursors[v.path].offset)
    ensures var off := t.cursors[v.path].offset;
            var t' := BackfillFile(read, t, v);
            && t'.cursors[v.path].offset == off
            && (t'.cursors[v.path].carry == Whole(read, v.content[..off]).last <==>
                  LastPrompt(read, Lines(v.content[..off])) == None)
  {
    ParseEndsInLastPrompt(read, Lines(v.content[..t.cursors[v.path].offset]), None);
  }

  lemma {:induction false} LastPromptInTwo(read: Reader, x: seq<Bytes>, y: seq<Bytes>)
    ensures LastPrompt(read, x + y) == if LastPrompt(read, y).Some? then LastPrompt(read, y) else LastPrompt(read, x)
  {
    if x == [] {
      assert x + y == y;
    } else {
      assert (x + y)[0] == x[0] && (x + y)[1..] == x[1..] + y;
      LastPromptInTwo(read, x[1..], y);
    }
  }

  /** What one read takes from the file: the complete lines of the bytes delivered,
      up to the new offset. */
  lemma ReadTakesLines(read: Reader, t: Tables, v: View)
    requires !NothingAppended(t, v) && AtLineStart(v.content, StartOf(t, v))
    ensures var off, off' := StartOf(t, v), RefreshFile(read, t, v).cursors[v.path].offset;
            && off <= off' && AtLineStart(v.content, off')
            && Lines(v.content[off..off']) == Lines(Delivered(Tail(v.content, off), v.fault))
            && Lines(v.content[..off']) == Lines(v.content[..off]) + Lines(v.content[off..off'])
  {
    hide Lines, ParseLines;
    var b, off := v.content, StartOf(t, v);
    var d := Delivered(Tail(b, off), v.fault);
    var c := Parse(read, d, CarryOf(t, v)).consumed;
    ParseStopsAtLineStart(read, d, CarryOf(t, v));
    EndsAtLineStart(b, off, v.fault, c);
    ConsumedIsSize(read, Lines(d), CarryOf(t, v));
    LinesOfCompletePart(d);
    assert d[..c] == b[off..off + c];
    assert b[..off + c] == b[..off] + b[off..off + c];
    LinesInTwo(b[..off], b[off..off + c]);
  }

  /** A read error keeps what was read but forgets the prompt: the carry is right
      if and only if no prompt was typed before the old offset and none is among
      the complete lines delivered before the error. */
  lemma FailedReadCarryIsRightIff(read: Reader, t: Tables, v: View)
    requires v.fault.Some? && !NothingAppended(t, v)
    requires AtLineStart(v.content, StartOf(t, v))
    ensures var t' := RefreshFile(read, t, v);
            var off' := t'.cursors[v.path].offset;
            && off' <= |v.content|
            && (t'.cursors[v.path].carry == Whole(read, v.content[..off']).last <==>
                  && LastPrompt(read, Lines(v.content[..StartOf(t, v)])) == None
                  && LastPrompt(read, Lines(Delivered(Tail(v.content, StartOf(t, v)), v.fault))) == None)
  {
    hide Lines, LastPrompt;
    var b, off := v.content, StartOf(t, v);
    ReadTakesLines(read, t, v);
    var off' := RefreshFile(read, t, v).cursors[v.path].offset;
    ParseEndsInLastPrompt(read, Lines(b[..off']), None);
    LastPromptInTwo(read, Lines(b[..off]), Lines(b[off..off']));
  }

  // -------------------------------------------- when a wrong carry does harm

  /** A turn comes before the first prompt among some lines. */
  function EventFirst(read: Reader, lines: seq<Bytes>): bool {
    lines != [] &&
    match read(lines[0])
    case EventLine(_) => true
    case PromptLine(_) => false
    case _ => EventFirst(read, lines[1..])
  }

  /** Two parses of the same lines, with different prompts carried in: they agree
      if no turn comes before the first prompt, and else already the first turn
      tells them apart. */
  lemma {:induction false} CarryTellsApart(read: Reader, lines: seq<Bytes>, c: Option<PromptId>, d: Option<PromptId>)
    ensures var x, y := ParseLines(read, lines, c).entries, ParseLines(read, lines, d).entries;
            && |x| == |y| && (forall i :: 0 <= i < |x| ==> x[i].event == y[i].event)
            && (!EventFirst(read, lines) ==> x == y)
            && (EventFirst(read, lines) ==> x != [] && x[0].prompt == c && y[0].prompt == d)
  {
    if lines != [] {
      var line, n := read(lines[0]), |lines[0]|;
      var x, y := OneLine(line, n, c), OneLine(line, n, d);
      CarryTellsApart(read, lines[1..], x.last, y.last);
      FirstLineTells(line, n, c, d);
    }
  }

  lemma FirstLineTells(line: Line, n: nat, c: Option<PromptId>, d: Option<PromptId>)
    ensures var x, y := OneLine(line, n, c), OneLine(line, n, d);
            && (line.EventLine? ==> x.entries == [Entry(line.event, c)] && y.entries == [Entry(line.event, d)])
            && (!line.EventLine? ==> x.entries == [] && y.entries == [])
            && (line.PromptLine? ==> x.last == y.last)
            && (!line.PromptLine? ==> x.last == c && y.last == d)
  {
  }

  /** The entries of a read have ids of their own, none of them stored yet. */
  ghost predicate AllNew(rows: Rows, es: seq<Entry>) {
    && (forall k :: 0 <= k < |es| ==> es[k].event.id !in rows)
    && (forall k, m :: 0 <= k < |es| && 0 <= m < |es| && es[k].event.id == es[m].event.id ==> k == m)
  }

  ghost predicate StoredAs(rows: Rows, es: seq<Entry>) {
    forall k :: 0 <= k < |es| ==> es[k].event.id in rows && rows[es[k].event.id] == Row(es[k].event, es[k].prompt)
  }

  /** From any carry, right or wrong: a refresh stores the new events of a file
      with exactly the attributions of a full re-read if and only if the carry is
      the prompt in force at the offset, or no turn comes before the first prompt
      among the lines read. */
  lemma WrongCarryHarmsIff(read: Reader, t: Tables, v: View)
    requires !NothingAppended(t, v) && AtLineStart(v.content, StartOf(t, v)) && AllNew(t.rows, ReadOutcome(read, t, v).entries)
    ensures var off, off' := StartOf(t, v), RefreshFile(read, t, v).cursors[v.path].offset;
            && off' <= |v.content|
            && var before, after := Whole(read, v.content[..off]), Whole(read, v.content[..off']).entries;
               && before.entries <= after
               && (StoredAs(RefreshFile(read, t, v).rows, after[|before.entries|..]) <==>
                     CarryOf(t, v) == before.last || !EventFirst(read, Lines(Delivered(Tail(v.content, off), v.fault))))
  {
    hide Lines, ParseLines, EventFirst, StoredAs, AllNew;
    var b, off := v.content, StartOf(t, v);
    var lines := Lines(Delivered(Tail(b, off), v.fault));
    ReadTakesLines(read, t, v);
    var off' := RefreshFile(read, t, v).cursors[v.path].offset;
    var right := Whole(read, b[..off]).last;
    assert b[..off'] == b[..off] + b[off..off'];
    ParseInTwo(read, b[..off], b[off..off'], None);
    CarryTellsApart(read, lines, CarryOf(t, v), right);
    NewAreStoredAs(t.rows, ReadOutcome(read, t, v).entries, ParseLines(read, lines, right).entries);
  }

  /** New entries are stored as they are, and so as others only if these are the
      same. */
  lemma {:induction false} NewAreStoredAs(rows: Rows, got: seq<Entry>, want: seq<Entry>)
    requires AllNew(rows, got) && |want| == |got| && forall i :: 0 <= i < |got| ==> want[i].event == got[i].event
    ensures StoredAs(InsertNew(rows, got), want) <==> want == got
  {
    forall k | 0 <= k < |got|
      ensures got[k].event.id in InsertNew(rows, got) && InsertNew(rows, got)[got[k].event.id] == Row(got[k].event, got[k].prompt)
    {
      InsertOfNewId(rows, got, k);
    }
    if StoredAs(InsertNew(rows, got), want) {
      forall k | 0 <= k < |got|
        ensures want[k] == got[k]
      {
        assert want[k].event.id == got[k].event.id;
      }
    }
  }

  // ----------------------------------------------------- a wrong attribution

  /** Three-byte lines: 1 is a prompt, 2 a turn, and the second byte its id. */
  function Toy(line: Bytes): Line {
    if |line| == 3 && line[0] == 1 then PromptLine(Prompt(line[1] as nat, 0))
    else if |line| == 3 && line[0] == 2 then EventLine(Event(line[1] as nat, 0, 1))
    else Other
  }

  lemma {:induction false} CutLine(kind: byte, id: byte, rest: Bytes)
    requires kind != NEWLINE && id != NEWLINE
    ensures Lines([kind, id, NEWLINE] + rest) == [[kind, id, NEWLINE]] + Lines(rest)
  {
    var b := [kind, id, NEWLINE] + rest;
    LineLenIsFirst(b);
    assert b[2] == NEWLINE;
    assert b[0] == kind && b[1] == id && LineLen(b) == 3;
    assert b[..3] == [kind, id, NEWLINE] && b[3..] == rest;
  }

  const FIRST: Bytes := [2, 1, NEWLINE] + ([1, 7, NEWLINE] + [])
  const LATER: Bytes := [2, 2, NEWLINE] + ([1, 8, NEWLINE] + [])

  lemma ToyLines()
    ensures Lines(FIRST) == [[2, 1, NEWLINE], [1, 7, NEWLINE]]
    ensures Lines(LATER) == [[2, 2, NEWLINE], [1, 8, NEWLINE]]
    ensures Lines(FIRST + LATER) == Lines(FIRST) + Lines(LATER)
  {
    CutLine(1, 7, []);
    CutLine(2, 1, [1, 7, NEWLINE] + []);
    CutLine(1, 8, []);
    CutLine(2, 2, [1, 8, NEWLINE] + []);
    LinesInTwo(FIRST, LATER);
  }

  function Shown(content: Bytes): View { View(0, 5, |content|, content, None) }

  lemma {:induction false} ParseTwo(read: Reader, a: Bytes, b: Bytes, carry: Option<PromptId>)
    ensures var first := OneLine(read(a), |a|, carry);
            ParseLines(read, [a, b], carry) == Then(first, OneLine(read(b), |b|, first.last))
  {
    var first := OneLine(read(a), |a|, carry);
    var second := OneLine(read(b), |b|, first.last);
    assert [a, b][1..] == [b] && [b][1..] == [];
    assert Then(second, Nothing(second.last)) == second;
    assert ParseLines(read, [b], first.last) == second;
  }

  lemma ToyReads()
    ensures Toy([2, 1, NEWLINE]) == EventLine(Event(1, 0, 1))
    ensures Toy([2, 2, NEWLINE]) == EventLine(Event(2, 0, 1))
    ensures Toy([1, 7, NEWLINE]) == PromptLine(Prompt(7, 0))
    ensures Toy([1, 8, NEWLINE]) == PromptLine(Prompt(8, 0))
  {
  }

  lemma TurnThenPrompt(e: Event, p: Prompt, carry: Option<PromptId>)
    ensures Then(OneLine(EventLine(e), 3, carry), OneLine(PromptLine(p), 3, carry))
            == Parsed([Entry(e, carry)], [p], [], 6, 2, 0, Some(p.id))
  {
  }

  lemma ToyParses(carry: Option<PromptId>)
    ensures Parse(Toy, FIRST, None) == Parsed([Entry(Event(1, 0, 1), None)], [Prompt(7, 0)], [], 6, 2, 0, Some(7))
    ensures Parse(Toy, LATER, carry) == Parsed([Entry(Event(2, 0, 1), carry)], [Prompt(8, 0)], [], 6, 2, 0, Some(8))
  {
    ToyLines();
    ToyReads();
    ParseTwo(Toy, [2, 1, NEWLINE], [1, 7, NEWLINE], None);
    TurnThenPrompt(Event(1, 0, 1), Prompt(7, 0), None);
    ParseTwo(Toy, [2, 2, NEWLINE], [1, 8, NEWLINE], carry);
    TurnThenPrompt(Event(2, 0, 1), Prompt(8, 0), carry);
  }

  lemma ToyWhole()
    ensures Whole(Toy, FIRST + LATER).entries == [Entry(Event(1, 0, 1), None), Entry(Event(2, 0, 1), Some(7))]
    ensures Whole(Toy, FIRST + LATER).last == Some(8)
  {
    ToyParses(Some(7));
    assert |FIRST| == 6 && FIRST[5] == NEWLINE;
    ParseInTwo(Toy, FIRST, LATER, None);
  }

  lemma ToyFirstRefresh()
    ensures var t1 := RefreshFile(Toy, Tables(map[], map[], map[], map[]), Shown(FIRST));
            && t1.rows == map[1 := Row(Event(1, 0, 1), None)]
            && t1.cursors == map[0 := Cursor(5, 6, 6, Some(7))]
  {
    ToyParses(None);
    assert FIRST[0..] == FIRST;
    var es := [Entry(Event(1, 0, 1), None)];
    assert es[1..] == [];
    assert InsertNew(map[], es) == InsertOne(map[], es[0]);
  }

  lemma ToyBackfill(t1: Tables)
    requires t1.rows == map[1 := Row(Event(1, 0, 1), None)]
    requires t1.cursors == map[0 := Cursor(5, 6, 6, Some(7))]
    ensures AnyUnattributed(t1.rows)
    ensures var t2 := BackfillFile(Toy, t1, Shown(FIRST + LATER));
            t2.rows == t1.rows && t2.cursors == map[0 := Cursor(5, 6, 6, Some(8))]
  {
    ToyWhole();
    assert (FIRST + LATER)[0..] == FIRST + LATER;
    assert t1.rows[1].prompt.None?;
    var es := [Entry(Event(1, 0, 1), None), Entry(Event(2, 0, 1), Some(7))];
    assert es[1..] == [es[1]] && es[1..][1..] == [];
    assert FillMissing(t1.rows, [es[1]]) == t1.rows;
  }

  lemma ToySecondRefresh(t2: Tables)
    requires t2.rows == map[1 := Row(Event(1, 0, 1), None)]
    requires t2.cursors == map[0 := Cursor(5, 6, 6, Some(8))]
    ensures 2 in RefreshFile(Toy, t2, Shown(FIRST + LATER)).rows
    ensures RefreshFile(Toy, t2, Shown(FIRST + LATER)).rows[2].prompt == Some(8)
  {
    ToyParses(Some(8));
    var v := Shown(FIRST + LATER);
    assert (FIRST + LATER)[6..] == LATER;
    assert ReadOutcome(Toy, t2, v) == Parse(Toy, LATER, Some(8));
    InsertOfNewId(t2.rows, [Entry(Event(2, 0, 1), Some(8))], 0);
  }

  lemma {:induction false} BackfillOfOneFile(read: Reader, t: Tables, v: View)
    ensures BackfillFiles(read, t, [v]) == BackfillFile(read, t, v)
  {
    assert [v][1..] == [];
    assert BackfillFiles(read, BackfillFile(read, t, v), []) == BackfillFile(read, t, v);
  }

  function ToyFirst(): Tables { RefreshFile(Toy, Tables(map[], map[], map[], map[]), Shown(FIRST)) }
  function ToyBackfilled(): Tables { Backfill(Toy, ToyFirst(), [Shown(FIRST + LATER)]) }
  function ToyEnd(): Tables { RefreshFile(Toy, ToyBackfilled(), Shown(FIRST + LATER)) }

  /** An append between a refresh and its backfill can fix a wrong attribution
      for ever: event 2 came before prompt 8 was typed, is stored under 8, and no
      later step of any kind changes that. */
  lemma {:induction false} AppendBeforeBackfillMisattributes(ops: seq<Op>)
    ensures |Whole(Toy, FIRST + LATER).entries| == 2
    ensures Whole(Toy, FIRST + LATER).entries[1] == Entry(Event(2, 0, 1), Some(7))
    ensures 2 in RunOps(Toy, ToyEnd(), ops).rows && RunOps(Toy, ToyEnd(), ops).rows[2].prompt == Some(8)
  {
    ToyWhole();
    ToyFirstRefresh();
    ToyBackfill(ToyFirst());
    BackfillOfOneFile(Toy, ToyFirst(), Shown(FIRST + LATER));
    ToySecondRefresh(ToyBackfilled());
    IndexOnlyGrows(Toy, ToyEnd(), ops);
  }
}
