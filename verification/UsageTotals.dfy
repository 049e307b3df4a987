/** The stored prompts and running totals after a clean refresh
    (terminal_mcp/ai_usage_index.py, _store_prompts and _store_costs). */
module UsageTotals {
  import opened Options
  import opened UsageParse
  import opened UsageIndex
  import opened UsageRuns
  import opened UsageClean
  import opened UsageFaults

  function Prompts(read: Reader, b: Bytes): seq<Prompt> { Whole(read, b).prompts }

  function Costs(read: Reader, b: Bytes): seq<Cost> { Whole(read, b).costs }

  // ------------------------------------------------------------------- tables

  lemma {:induction false} StorePromptsIs(t: map<PromptId, Prompt>, ps: seq<Prompt>)
    ensures forall id :: id in t ==> id in StorePrompts(t, ps) && StorePrompts(t, ps)[id] == t[id]
    ensures forall p :: p in ps ==> p.id in StorePrompts(t, ps)
    ensures forall id :: id in StorePrompts(t, ps) && id !in t ==> StorePrompts(t, ps)[id] in ps && StorePrompts(t, ps)[id].id == id
    decreases |ps|
  {
    if ps != [] {
      StorePromptsIs(if ps[0].id in t then t else t[ps[0].id := ps[0]], ps[1..]);
      assert ps == [ps[0]] + ps[1..];
    }
  }

  function Total(costs: map<SessionId, real>, c: SessionId): Option<real> {
    if c in costs then Some(costs[c]) else None
  }

  /** The last running total of a session in a list. */
  function LastCost(cs: seq<Cost>, c: SessionId): Option<real> {
    if cs == [] then None
    else if cs[|cs| - 1].session == c then Some(cs[|cs| - 1].usd)
    else LastCost(cs[..|cs| - 1], c)
  }

  function Latest(before: Option<real>, after: Option<real>): Option<real> {
    if after.Some? then after else before
  }

  lemma {:induction false} LastCostInTwo(a: seq<Cost>, b: seq<Cost>, c: SessionId)
    ensures LastCost(a + b, c) == Latest(LastCost(a, c), LastCost(b, c))
  {
    if b == [] {
      assert a + b == a;
    } else {
      var n := |b| - 1;
      assert (a + b)[..|a| + n] == a + b[..n];
      LastCostInTwo(a, b[..n], c);
    }
  }

  /** A later running total supersedes an earlier one. */
  lemma {:induction false} StoreCostsIs(t: map<SessionId, real>, cs: seq<Cost>, c: SessionId)
    ensures Total(StoreCosts(t, cs), c) == Latest(Total(t, c), LastCost(cs, c))
    decreases |cs|
  {
    if cs != [] {
      StoreCostsIs(t[cs[0].session := cs[0].usd], cs[1..], c);
      LastCostInTwo([cs[0]], cs[1..], c);
      assert cs == [cs[0]] + cs[1..] && [cs[0]][..0] == [];
      assert LastCost([cs[0]], c) == if cs[0].session == c then Some(cs[0].usd) else LastCost([], c);
    }
  }

  // ----------------------------------------------------------------- one file

  lemma PiecesAdd(read: Reader, b: Bytes, i: nat, j: nat)
    requires i <= j && AtLineStart(b, i) && AtLineStart(b, j)
    ensures Prompts(read, b[..j]) == Prompts(read, b[..i]) + Prompts(read, b[i..j])
    ensures Costs(read, b[..j]) == Costs(read, b[..i]) + Costs(read, b[i..j])
  {
    hide Lines, ParseLines;
    ExtendWhole(read, b, i, j);
    assert b[..j] == b[..i] + b[i..j];
    ParseInTwo(read, b[..i], b[i..j], None);
    CarryOnlyAttributes(read, Lines(b[i..j]), Whole(read, b[..i]).last);
  }

  lemma PrefixPieces(read: Reader, b: Bytes, n: nat)
    requires n <= |b|
    ensures Prompts(read, b[..n]) <= Prompts(read, b) && Costs(read, b[..n]) <= Costs(read, b)
  {
    assert b[..n] + b[n..] == b;
    ParseOfGrownFile(read, b[..n], b[n..], None);
  }

  /** Behind the last complete line there is nothing. */
  lemma CompletePieces(read: Reader, b: Bytes, n: nat)
    requires AtLineStart(b, n) && Lines(b[n..]) == []
    ensures Prompts(read, b[..n]) == Prompts(read, b) && Costs(read, b[..n]) == Costs(read, b)
  {
    assert b[..n] + b[n..] == b;
    ParseInTwo(read, b[..n], b[n..], None);
  }

  lemma {:induction false} NoneInPart(a: seq<Cost>, whole: seq<Cost>, c: SessionId)
    requires a <= whole && LastCost(whole, c) == None
    ensures LastCost(a, c) == None
  {
    assert whole == a + whole[|a|..];
    LastCostInTwo(a, whole[|a|..], c);
  }

  /** The pieces one incremental read delivers. */
  lemma ReadPieces(read: Reader, b: Bytes, off: nat, carry: Option<PromptId>, fault: Option<nat>, p: Parsed)
    requires AtLineStart(b, off) && p == Outcome(read, b, off, carry, fault)
    ensures AtLineStart(b, off + p.consumed)
    ensures p.prompts == Prompts(read, b[off..off + p.consumed]) && p.costs == Costs(read, b[off..off + p.consumed])
  {
    hide Lines, ParseLines;
    var d := Delivered(b[off..], fault);
    var n := Parse(read, d, carry).consumed;
    assert p.consumed == n;
    ReadSpan(read, b, off, carry, fault);
    ParseOfCompletePart(read, d, carry);
    assert d[..n] == b[off..off + n];
    CarryOnlyAttributes(read, Lines(b[off..off + n]), carry);
  }

  // ---------------------------------------------------------------- invariant

  ghost predicate InSomeFile(read: Reader, w: World, p: Prompt) {
    exists path :: path in w && p in Prompts(read, w[path].bytes)
  }

  ghost predicate PromptsOk(read: Reader, s: Sys)
    requires CursorsOk(read, s)
  {
    && (forall path, p :: path in s.world && p in Prompts(read, s.world[path].bytes[..OffsetOf(s.t, path)]) ==> p.id in s.t.prompts)
    && (forall id :: id in s.t.prompts ==> s.t.prompts[id].id == id && InSomeFile(read, s.world, s.t.prompts[id]))
  }

  /** Session c is written by one file only. */
  ghost predicate SoleFile(read: Reader, w: World, path: Path, c: SessionId) {
    forall q :: q in w && q != path ==> LastCost(Costs(read, w[q].bytes), c) == None
  }

  /** The stored total is the last one of some part of the file that reaches at
      least to the cursor. */
  ghost predicate TotalAt(read: Reader, s: Sys, path: Path, c: SessionId, n: nat)
    requires path in s.world
  {
    && OffsetOf(s.t, path) <= n && AtLineStart(s.world[path].bytes, n)
    && Total(s.t.costs, c) == LastCost(Costs(read, s.world[path].bytes[..n]), c)
  }

  ghost predicate TotalOk(read: Reader, s: Sys, path: Path, c: SessionId) {
    if path in s.world then exists n :: TotalAt(read, s, path, c, n) else Total(s.t.costs, c) == None
  }

  /** One step took in these pieces of file `path`. */
  ghost predicate Took(read: Reader, s: Sys, s': Sys, path: Path, ps: seq<Prompt>, cs: seq<Cost>)
    requires CursorsOk(read, s) && CursorsOk(read, s')
  {
    && path in s.world && s'.world == s.world
    && (forall q :: q != path ==> OffsetOf(s'.t, q) == OffsetOf(s.t, q))
    && s'.t.prompts == StorePrompts(s.t.prompts, ps) && s'.t.costs == StoreCosts(s.t.costs, cs)
    && OffsetOf(s.t, path) <= OffsetOf(s'.t, path)
  }

  lemma PromptsStay(read: Reader, s: Sys, s': Sys, path: Path, ps: seq<Prompt>, cs: seq<Cost>)
    requires CursorsOk(read, s) && CursorsOk(read, s') && PromptsOk(read, s) && Took(read, s, s', path, ps, cs)
    requires forall p :: p in ps ==> p in Prompts(read, s.world[path].bytes)
    requires forall p :: p in Prompts(read, s.world[path].bytes[..OffsetOf(s'.t, path)]) ==>
               p in Prompts(read, s.world[path].bytes[..OffsetOf(s.t, path)]) || p in ps
    ensures PromptsOk(read, s')
  {
    hide Whole, Prompts;
    StorePromptsIs(s.t.prompts, ps);
    forall id | id in s'.t.prompts
      ensures s'.t.prompts[id].id == id && InSomeFile(read, s'.world, s'.t.prompts[id])
    {
      if id !in s.t.prompts {
        assert s'.t.prompts[id] in Prompts(read, s.world[path].bytes);
      }
    }
  }

  /** Another file brings nothing for this session. */
  lemma {:induction false} OtherFileTotal(read: Reader, s: Sys, s': Sys, path: Path, c: SessionId, q: Path, ps: seq<Prompt>, cs: seq<Cost>)
    requires CursorsOk(read, s) && CursorsOk(read, s') && TotalOk(read, s, path, c)
    requires Took(read, s, s', q, ps, cs) && q != path && LastCost(cs, c) == None
    ensures TotalOk(read, s', path, c)
  {
    StoreCostsIs(s.t.costs, cs, c);
    if path in s.world {
      var n: nat :| TotalAt(read, s, path, c, n);
      assert TotalAt(read, s', path, c, n);
    }
  }

  lemma ReadTotal(read: Reader, s: Sys, s': Sys, path: Path, c: SessionId, ps: seq<Prompt>, cs: seq<Cost>)
    requires CursorsOk(read, s) && CursorsOk(read, s') && TotalOk(read, s, path, c) && Took(read, s, s', path, ps, cs)
    requires var b, off, off' := s.world[path].bytes, OffsetOf(s.t, path), OffsetOf(s'.t, path);
             AtLineStart(b, off) && AtLineStart(b, off') && cs == Costs(read, b[off..off'])
    ensures TotalOk(read, s', path, c)
  {
    hide Whole, Costs;
    var b, off, off' := s.world[path].bytes, OffsetOf(s.t, path), OffsetOf(s'.t, path);
    var n: nat :| TotalAt(read, s, path, c, n);
    StoreCostsIs(s.t.costs, cs, c);
    PiecesAdd(read, b, off, off');
    LastCostInTwo(Costs(read, b[..off]), cs, c);
    if LastCost(cs, c).Some? {
      assert TotalAt(read, s', path, c, off');
    } else if off' <= n {
      assert TotalAt(read, s', path, c, n);
    } else {
      BetweenTotal(read, b, off, n, off', c);
      assert TotalAt(read, s', path, c, off');
    }
  }

  /** Without a total between two line starts, none lies between others inside. */
  lemma {:induction false} BetweenTotal(read: Reader, b: Bytes, i: nat, n: nat, j: nat, c: SessionId)
    requires i <= n <= j && AtLineStart(b, i) && AtLineStart(b, n) && AtLineStart(b, j)
    requires LastCost(Costs(read, b[i..j]), c) == None
    ensures LastCost(Costs(read, b[..n]), c) == LastCost(Costs(read, b[..j]), c)
  {
    hide Whole, Costs;
    PiecesAdd(read, b, i, j);
    PiecesAdd(read, b, i, n);
    PiecesAdd(read, b, n, j);
    var x, y, z := Costs(read, b[i..n]), Costs(read, b[n..j]), Costs(read, b[..i]);
    assert z + Costs(read, b[i..j]) == z + x + y;
    assert Costs(read, b[i..j]) == (z + Costs(read, b[i..j]))[|z|..] == x + y;
    LastCostInTwo(x, y, c);
    LastCostInTwo(Costs(read, b[..n]), y, c);
  }

  lemma FillTotal(read: Reader, s: Sys, s': Sys, path: Path, c: SessionId, ps: seq<Prompt>, cs: seq<Cost>, e: nat)
    requires CursorsOk(read, s) && CursorsOk(read, s') && TotalOk(read, s, path, c) && Took(read, s, s', path, ps, cs)
    requires OffsetOf(s'.t, path) <= e && AtLineStart(s.world[path].bytes, e) && cs == Costs(read, s.world[path].bytes[..e])
    requires cs == Costs(read, s.world[path].bytes)
    ensures TotalOk(read, s', path, c)
  {
    hide Whole, Costs;
    var b := s.world[path].bytes;
    var n: nat :| TotalAt(read, s, path, c, n);
    StoreCostsIs(s.t.costs, cs, c);
    if LastCost(cs, c).None? {
      PrefixPieces(read, b, n);
      NoneInPart(Costs(read, b[..n]), Costs(read, b), c);
    }
    assert TotalAt(read, s', path, c, e);
  }

  // -------------------------------------------------------------------- steps

  lemma ReadTakes(read: Reader, s: Sys, path: Path, statSize: nat, fault: Option<nat>)
    returns (ps: seq<Prompt>, cs: seq<Cost>)
    requires Inv(read, s) && Distinct(read, s.world) && Enabled(read, s, ReadFile(path, statSize, fault))
    ensures var s' := Do(read, s, ReadFile(path, statSize, fault));
            && Inv(read, s') && Took(read, s, s', path, ps, cs)
            && var b, off, off' := s.world[path].bytes, OffsetOf(s.t, path), OffsetOf(s'.t, path);
               && AtLineStart(b, off) && AtLineStart(b, off')
               && ps == Prompts(read, b[off..off']) && cs == Costs(read, b[off..off'])
  {
    hide Whole, Prompts, Costs, Outcome, InsertNew, StorePrompts, StoreCosts, Inv, CursorOk;
    var v := ViewOf(s.world, path, statSize, fault);
    var b, off := v.content, OffsetOf(s.t, path);
    ReadFileKeepsInv(read, s, path, statSize, fault);
    StartHere(read, s, path, statSize, fault);
    if NothingAppended(s.t, v) {
      ps, cs := [], [];
      assert b[off..off] == [];
      EmptyPieces(read, s.t);
    } else {
      var p := ReadOutcome(read, s.t, v);
      ReadPieces(read, b, off, CarryOf(s.t, v), fault, p);
      ps, cs := p.prompts, p.costs;
    }
  }

  lemma StartHere(read: Reader, s: Sys, path: Path, statSize: nat, fault: Option<nat>)
    requires Inv(read, s) && Enabled(read, s, ReadFile(path, statSize, fault))
    ensures CursorsOk(read, s) && AtLineStart(s.world[path].bytes, OffsetOf(s.t, path))
    ensures StartOf(s.t, ViewOf(s.world, path, statSize, fault)) == OffsetOf(s.t, path)
  {
    StartIsOffset(read, s, path, statSize, fault);
    assert path in s.t.cursors ==> CursorOk(read, s.world[path], s.t.cursors[path]);
  }

  lemma EmptyPieces(read: Reader, t: Tables)
    ensures Prompts(read, []) == [] && Costs(read, []) == []
    ensures StorePrompts(t.prompts, []) == t.prompts && StoreCosts(t.costs, []) == t.costs
  {
  }

  lemma FillPieces(read: Reader, b: Bytes, fault: Option<nat>, p: Parsed)
    requires p == Outcome(read, b, 0, None, fault)
    ensures AtLineStart(b, p.consumed) && p.prompts == Prompts(read, b[..p.consumed]) && p.costs == Costs(read, b[..p.consumed])
    ensures fault.None? ==> Lines(b[p.consumed..]) == []
  {
    hide Whole, Prompts, Costs, Outcome, Lines;
    ReadPieces(read, b, 0, None, fault, p);
    ReadSpan(read, b, 0, None, fault);
    assert b[0..p.consumed] == b[..p.consumed];
  }

  lemma FillTakes(read: Reader, s: Sys, path: Path, fault: Option<nat>)
    returns (ps: seq<Prompt>, cs: seq<Cost>, n: nat)
    requires Inv(read, s) && Distinct(read, s.world) && Enabled(read, s, FillFile(path, fault))
    ensures var s' := Do(read, s, FillFile(path, fault));
            && Inv(read, s') && Took(read, s, s', path, ps, cs) && OffsetOf(s'.t, path) == OffsetOf(s.t, path)
            && var b := s.world[path].bytes;
               && AtLineStart(b, n) && ps == Prompts(read, b[..n]) && cs == Costs(read, b[..n])
               && (fault.None? ==> Lines(b[n..]) == [])
  {
    assert CursorsOk(read, s);
    hide Whole, Prompts, Costs, Outcome, FillMissing, StorePrompts, StoreCosts, Inv, CursorOk, Lines, AtLineStart;
    FillFileKeepsInv(read, s, path, fault);
    var p := Outcome(read, s.world[path].bytes, 0, None, fault);
    FillPieces(read, s.world[path].bytes, fault, p);
    ps, cs, n := p.prompts, p.costs, p.consumed;
  }

  lemma LinesBetween(b: Bytes, n: nat, off: nat)
    requires n < off && AtLineStart(b, n) && AtLineStart(b, off)
    ensures Lines(b[n..]) != []
  {
    assert b[n..] == b[n..off] + b[off..];
    assert b[n..off][off - n - 1] == NEWLINE;
    LinesInTwo(b[n..off], b[off..]);
    EndsInLine(b[n..off]);
  }

  // --------------------------------------------------------------- whole runs

  lemma AppendKeepsPrompts(read: Reader, s: Sys, path: Path, inode: nat, more: Bytes)
    requires Inv(read, s) && PromptsOk(read, s)
    ensures var s' := s.(world := Appended(s.world, path, inode, more));
            Inv(read, s') && PromptsOk(read, s')
  {
    hide Whole, Prompts;
    var s' := s.(world := Appended(s.world, path, inode, more));
    AppendKeepsInv(read, s, path, inode, more);
    EmptyPieces(read, s.t);
    assert more[..0] == [];
    forall q, p | q in s'.world && p in Prompts(read, s'.world[q].bytes[..OffsetOf(s'.t, q)])
      ensures p.id in s'.t.prompts
    {
      if q in s.world {
        assert s'.world[q].bytes[..OffsetOf(s.t, q)] == s.world[q].bytes[..OffsetOf(s.t, q)];
      }
    }
    forall id | id in s.t.prompts
      ensures InSomeFile(read, s'.world, s.t.prompts[id])
    {
      var q :| q in s.world && s.t.prompts[id] in Prompts(read, s.world[q].bytes);
      GrownPieces(read, s.world, path, inode, more, q);
      assert s.t.prompts[id] in Prompts(read, s'.world[q].bytes);
    }
  }

  lemma GrownPieces(read: Reader, w: World, path: Path, inode: nat, more: Bytes, q: Path)
    requires q in w
    ensures var w' := Appended(w, path, inode, more);
            && q in w' && Prompts(read, w[q].bytes) <= Prompts(read, w'[q].bytes)
            && Costs(read, w[q].bytes) <= Costs(read, w'[q].bytes)
  {
    if q == path {
      ParseOfGrownFile(read, w[q].bytes, more, None);
    }
  }

  lemma AppendKeepsTotal(read: Reader, s: Sys, path: Path, inode: nat, more: Bytes, q: Path, c: SessionId)
    requires Inv(read, s) && TotalOk(read, s, q, c)
    ensures TotalOk(read, s.(world := Appended(s.world, path, inode, more)), q, c)
  {
    hide Whole, Costs;
    var s' := s.(world := Appended(s.world, path, inode, more));
    if q in s.world {
      var n: nat :| TotalAt(read, s, q, c, n);
      assert s'.world[q].bytes[..n] == s.world[q].bytes[..n];
      assert TotalAt(read, s', q, c, n);
    } else if q in s'.world {
      EmptyPieces(read, s.t);
      assert s'.world[q].bytes[..0] == [];
      assert TotalAt(read, s', q, c, 0);
    }
  }

  lemma StepKeepsPrompts(read: Reader, s: Sys, a: Act)
    requires Inv(read, s) && Distinct(read, s.world) && Enabled(read, s, a) && PromptsOk(read, s)
    ensures Inv(read, Do(read, s, a)) && PromptsOk(read, Do(read, s, a))
  {
    hide PromptsOk, Whole, Prompts, Distinct;
    match a
    case Append(path, inode, more) => AppendKeepsPrompts(read, s, path, inode, more);
    case ReadFile(path, statSize, fault) =>
      var ps, cs := ReadTakes(read, s, path, statSize, fault);
      ReadPromptsStay(read, s, Do(read, s, a), path, ps, cs);
    case FillFile(path, fault) =>
      var ps, cs, n := FillTakes(read, s, path, fault);
      PrefixPieces(read, s.world[path].bytes, n);
      PromptsStay(read, s, Do(read, s, a), path, ps, cs);
  }

  lemma ReadPromptsStay(read: Reader, s: Sys, s': Sys, path: Path, ps: seq<Prompt>, cs: seq<Cost>)
    requires CursorsOk(read, s) && CursorsOk(read, s') && PromptsOk(read, s) && Took(read, s, s', path, ps, cs)
    requires var b, off, off' := s.world[path].bytes, OffsetOf(s.t, path), OffsetOf(s'.t, path);
             AtLineStart(b, off) && AtLineStart(b, off') && ps == Prompts(read, b[off..off'])
    ensures PromptsOk(read, s')
  {
    hide PromptsOk, Whole, Prompts;
    var b, off, off' := s.world[path].bytes, OffsetOf(s.t, path), OffsetOf(s'.t, path);
    PiecesAdd(read, b, off, off');
    PrefixPieces(read, b, off');
    assert forall p :: p in ps ==> p in Prompts(read, b[..off']);
    PromptsStay(read, s, s', path, ps, cs);
  }

  predicate NoFailedFill(a: Act) { a.FillFile? ==> a.fault.None? }

  lemma StepKeepsTotal(read: Reader, s: Sys, a: Act, path: Path, c: SessionId)
    requires Inv(read, s) && Distinct(read, s.world) && Enabled(read, s, a) && NoFailedFill(a)
    requires TotalOk(read, s, path, c) && SoleFile(read, s.world, path, c)
    ensures TotalOk(read, Do(read, s, a), path, c)
  {
    hide TotalOk, Whole, Costs, Prompts, Lines, Distinct;
    match a
    case Append(p, inode, more) => AppendKeepsTotal(read, s, p, inode, more, path, c);
    case ReadFile(p, statSize, fault) =>
      var ps, cs := ReadTakes(read, s, p, statSize, fault);
      var s' := Do(read, s, a);
      if p == path {
        ReadTotal(read, s, s', path, c, ps, cs);
      } else {
        NothingInSlice(read, s.world[p].bytes, OffsetOf(s.t, p), OffsetOf(s'.t, p), c);
        OtherFileTotal(read, s, s', path, c, p, ps, cs);
      }
    case FillFile(p, fault) =>
      var ps, cs, n := FillTakes(read, s, p, fault);
      var s' := Do(read, s, a);
      var b := s.world[p].bytes;
      CompletePieces(read, b, n);
      if p == path {
        StartOfCursor(read, s, p);
        if n < OffsetOf(s.t, p) {
          LinesBetween(b, n, OffsetOf(s.t, p));
        }
        FillTotal(read, s, s', path, c, ps, cs, n);
      } else {
        OtherFileTotal(read, s, s', path, c, p, ps, cs);
      }
  }

  lemma StartOfCursor(read: Reader, s: Sys, path: Path)
    requires CursorsOk(read, s) && path in s.world
    ensures AtLineStart(s.world[path].bytes, OffsetOf(s.t, path))
  {
    assert path in s.t.cursors ==> CursorOk(read, s.world[path], s.t.cursors[path]);
  }

  lemma {:induction false} NothingInSlice(read: Reader, b: Bytes, i: nat, j: nat, c: SessionId)
    requires i <= j && AtLineStart(b, i) && AtLineStart(b, j) && LastCost(Costs(read, b), c) == None
    ensures LastCost(Costs(read, b[i..j]), c) == None
  {
    hide Costs;
    PiecesAdd(read, b, i, j);
    PrefixPieces(read, b, j);
    NoneInPart(Costs(read, b[..j]), Costs(read, b), c);
    LastCostInTwo(Costs(read, b[..i]), Costs(read, b[i..j]), c);
  }

  lemma {:induction false} PromptsHold(read: Reader, tr: seq<Sys>, acts: seq<Act>, i: nat)
    requires Behavior(read, tr, acts) && i < |tr| && Distinct(read, tr[|tr| - 1].world)
    ensures Inv(read, tr[i]) && PromptsOk(read, tr[i])
  {
    hide Enabled, Do, Distinct;
    if i > 0 {
      PromptsHold(read, tr, acts, i - 1);
      DistinctBefore(read, tr, acts, i - 1);
      StepKeepsPrompts(read, tr[i - 1], acts[i - 1]);
      assert tr[i - 1 + 1] == Do(read, tr[i - 1], acts[i - 1]);
    } else {
      NothingYet(read, tr, acts);
    }
  }

  lemma NothingYet(read: Reader, tr: seq<Sys>, acts: seq<Act>)
    requires Behavior(read, tr, acts)
    ensures tr != [] && Inv(read, tr[0]) && PromptsOk(read, tr[0]) && forall path, c :: TotalOk(read, tr[0], path, c)
  {
  }

  lemma SoleBefore(read: Reader, tr: seq<Sys>, acts: seq<Act>, i: nat, path: Path, c: SessionId)
    requires Behavior(read, tr, acts) && i < |tr| && SoleFile(read, tr[|tr| - 1].world, path, c)
    ensures SoleFile(read, tr[i].world, path, c)
  {
    hide Whole, Costs;
    var w, final := tr[i].world, tr[|tr| - 1].world;
    forall q | q in w && q != path
      ensures LastCost(Costs(read, w[q].bytes), c) == None
    {
      WorldsGrow(read, tr, acts, i, |tr| - 1, q);
      var b := w[q].bytes;
      assert final[q].bytes[..|b|] == b;
      PrefixPieces(read, final[q].bytes, |b|);
      NoneInPart(Costs(read, b), Costs(read, final[q].bytes), c);
    }
  }

  lemma {:induction false} TotalHolds(read: Reader, tr: seq<Sys>, acts: seq<Act>, path: Path, c: SessionId, i: nat)
    requires Behavior(read, tr, acts) && i < |tr| && Distinct(read, tr[|tr| - 1].world)
    requires SoleFile(read, tr[|tr| - 1].world, path, c) && forall k :: 0 <= k < |acts| ==> NoFailedFill(acts[k])
    ensures TotalOk(read, tr[i], path, c)
  {
    hide Enabled, Do, Distinct, SoleFile, TotalOk, PromptsOk, NoFailedFill;
    if i > 0 {
      TotalHolds(read, tr, acts, path, c, i - 1);
      DistinctBefore(read, tr, acts, i - 1);
      SoleBefore(read, tr, acts, i - 1, path, c);
      PromptsHold(read, tr, acts, i - 1);
      StepKeepsTotal(read, tr[i - 1], acts[i - 1], path, c);
      assert tr[i - 1 + 1] == Do(read, tr[i - 1], acts[i - 1]);
    } else {
      NothingYet(read, tr, acts);
    }
  }

  // ----------------------------------------------------------- a clean refresh

  predicate NoneFailed(acts: seq<Act>) { forall k :: 0 <= k < |acts| ==> NoFailedFill(acts[k]) }

  ghost predicate AllComplete(s: Sys) { forall p :: p in s.world ==> Complete(s, p) }

  lemma OneMore(read: Reader, tr: seq<Sys>, acts: seq<Act>, a: Act) returns (tr': seq<Sys>, acts': seq<Act>)
    requires Behavior(read, tr, acts) && Enabled(read, tr[|tr| - 1], a)
    ensures Behavior(read, tr', acts') && tr'[|tr'| - 1] == Do(read, tr[|tr| - 1], a)
    ensures NoneFailed(acts) && NoFailedFill(a) ==> NoneFailed(acts')
  {
    var s := tr[|tr| - 1];
    var s' := Do(read, s, a);
    hide Do, Enabled, NoFailedFill;
    tr', acts' := tr + [s'], acts + [a];
    forall i | 0 <= i < |acts'|
      ensures Enabled(read, tr'[i], acts'[i]) && tr'[i + 1] == Do(read, tr'[i], acts'[i])
    {
      if i < |acts| {
        assert tr'[i] == tr[i] && tr'[i + 1] == tr[i + 1] && acts'[i] == acts[i];
      }
    }
  }

  lemma QuietReadIsEnabled(read: Reader, s: Sys, p: Path)
    requires Inv(read, s) && p in s.world
    ensures Enabled(read, s, ReadFile(p, |s.world[p].bytes|, None))
    ensures Do(read, s, ReadFile(p, |s.world[p].bytes|, None)) == s.(t := RefreshFile(read, s.t, QuietView(s.world, p)))
  {
    StartOfCursor(read, s, p);
  }

  lemma QuietFillIsEnabled(read: Reader, s: Sys, p: Path)
    requires Inv(read, s) && Complete(s, p)
    ensures Enabled(read, s, FillFile(p, None))
    ensures var s' := Do(read, s, FillFile(p, None));
            && s' == s.(t := BackfillFile(read, s.t, QuietView(s.world, p)))
            && (AllComplete(s) ==> AllComplete(s'))
  {
    hide Outcome, FillMissing, StorePrompts, StoreCosts, Inv;
  }

  lemma {:induction false} ViewsOfCons(w: World, order: seq<Path>)
    requires order != [] && forall i :: 0 <= i < |order| ==> order[i] in w
    ensures var vs := QuietViews(w, order);
            vs != [] && vs[0] == QuietView(w, order[0]) && vs[1..] == QuietViews(w, order[1..])
  {
  }

  /** The reads of a clean refresh are steps of a run. */
  lemma {:induction false} ExtendByReads(read: Reader, tr: seq<Sys>, acts: seq<Act>, order: seq<Path>)
    returns (tr': seq<Sys>, acts': seq<Act>)
    requires Behavior(read, tr, acts) && Distinct(read, tr[|tr| - 1].world)
    requires forall i :: 0 <= i < |order| ==> order[i] in tr[|tr| - 1].world
    ensures Behavior(read, tr', acts') && (NoneFailed(acts) ==> NoneFailed(acts'))
    ensures var s := tr[|tr| - 1]; tr'[|tr'| - 1] == s.(t := RefreshFiles(read, s.t, QuietViews(s.world, order)))
    decreases |order|
  {
    hide Enabled, Do, Inv, Distinct, RefreshFile, NoneFailed;
    var s := tr[|tr| - 1];
    if order == [] {
      tr', acts' := tr, acts;
    } else {
      var p := order[0];
      IndexNeverMisattributes(read, tr, acts, |tr| - 1);
      QuietReadIsEnabled(read, s, p);
      ViewsOfCons(s.world, order);
      tr', acts' := OneMore(read, tr, acts, ReadFile(p, |s.world[p].bytes|, None));
      tr', acts' := ExtendByReads(read, tr', acts', order[1..]);
    }
  }

  lemma {:induction false} ExtendByFills(read: Reader, tr: seq<Sys>, acts: seq<Act>, order: seq<Path>)
    returns (tr': seq<Sys>, acts': seq<Act>)
    requires Behavior(read, tr, acts) && Distinct(read, tr[|tr| - 1].world)
    requires forall i :: 0 <= i < |order| ==> order[i] in tr[|tr| - 1].world
    requires AllComplete(tr[|tr| - 1])
    ensures Behavior(read, tr', acts') && (NoneFailed(acts) ==> NoneFailed(acts'))
    ensures var s := tr[|tr| - 1]; tr'[|tr'| - 1] == s.(t := BackfillFiles(read, s.t, QuietViews(s.world, order)))
    ensures AllComplete(tr'[|tr'| - 1])
    decreases |order|
  {
    hide Enabled, Do, Inv, Distinct, BackfillFile, Complete, NoneFailed;
    var s := tr[|tr| - 1];
    if order == [] {
      tr', acts' := tr, acts;
    } else {
      IndexNeverMisattributes(read, tr, acts, |tr| - 1);
      QuietFillIsEnabled(read, s, order[0]);
      ViewsOfCons(s.world, order);
      tr', acts' := OneMore(read, tr, acts, FillFile(order[0], None));
      tr', acts' := ExtendByFills(read, tr', acts', order[1..]);
    }
  }

  lemma ExtendByRefresh(read: Reader, tr: seq<Sys>, acts: seq<Act>, order: seq<Path>)
    returns (tr': seq<Sys>, acts': seq<Act>)
    requires Behavior(read, tr, acts) && Distinct(read, tr[|tr| - 1].world)
    requires forall i :: 0 <= i < |order| ==> order[i] in tr[|tr| - 1].world
    requires forall p :: p in tr[|tr| - 1].world ==> p in order
    ensures Behavior(read, tr', acts') && tr' != [] && (NoneFailed(acts) ==> NoneFailed(acts'))
    ensures var s := tr[|tr| - 1];
            var vs := QuietViews(s.world, order);
            && tr'[|tr'| - 1] == s.(t := Backfill(read, RefreshFiles(read, s.t, vs), vs))
            && AllComplete(tr'[|tr'| - 1])
  {
    hide Inv, Distinct, BackfillFiles, RefreshFiles, Complete, NoneFailed, Enabled, Do;
    var s := tr[|tr| - 1];
    IndexNeverMisattributes(read, tr, acts, |tr| - 1);
    tr', acts' := ExtendByReads(read, tr, acts, order);
    var s1 := tr'[|tr'| - 1];
    CleanRefreshReads(read, s, order, s1);
    if AnyUnattributed(s1.t.rows) {
      tr', acts' := ExtendByFills(read, tr', acts', order);
    }
  }

  /** Whatever appends, cut lines and failed reads came before: after one clean
      refresh the stored prompts are those typed in the files, each under its id
      with what some file says of it. */
  lemma {:induction false} CleanRefreshHasEveryPrompt(read: Reader, tr: seq<Sys>, acts: seq<Act>, order: seq<Path>, s: Sys, id: PromptId)
    requires Behavior(read, tr, acts) && s == tr[|tr| - 1] && Distinct(read, s.world)
    requires forall i :: 0 <= i < |order| ==> order[i] in s.world
    requires forall p :: p in s.world ==> p in order
    ensures var vs := QuietViews(s.world, order);
            var prompts := Backfill(read, RefreshFiles(read, s.t, vs), vs).prompts;
            && (id in prompts <==> exists p :: InSomeFile(read, s.world, p) && p.id == id)
            && (id in prompts ==> prompts[id].id == id && InSomeFile(read, s.world, prompts[id]))
  {
    hide *;
    var tr', acts' := ExtendByRefresh(read, tr, acts, order);
    var s' := tr'[|tr'| - 1];
    PromptsHold(read, tr', acts', |tr'| - 1);
    AllPromptsRead(read, s', id);
  }

  lemma AllPromptsRead(read: Reader, s: Sys, id: PromptId)
    requires Inv(read, s) && PromptsOk(read, s) && AllComplete(s)
    ensures id in s.t.prompts <==> exists p :: InSomeFile(read, s.world, p) && p.id == id
    ensures id in s.t.prompts ==> s.t.prompts[id].id == id && InSomeFile(read, s.world, s.t.prompts[id])
  {
    hide Whole, Prompts;
    if p :| InSomeFile(read, s.world, p) && p.id == id {
      var path :| path in s.world && p in Prompts(read, s.world[path].bytes);
      StartOfCursor(read, s, path);
      CompletePieces(read, s.world[path].bytes, OffsetOf(s.t, path));
    }
  }

  /** If no backfill read failed before: after one clean refresh the running
      total of a session is the last one its file reports. */
  lemma {:induction false} CleanRefreshHasLastTotal(
    read: Reader, tr: seq<Sys>, acts: seq<Act>, order: seq<Path>, s: Sys, path: Path, c: SessionId)
    requires Behavior(read, tr, acts) && s == tr[|tr| - 1] && Distinct(read, s.world) && NoneFailed(acts)
    requires forall i :: 0 <= i < |order| ==> order[i] in s.world
    requires forall p :: p in s.world ==> p in order
    requires path in s.world && SoleFile(read, s.world, path, c)
    ensures var vs := QuietViews(s.world, order);
            Total(Backfill(read, RefreshFiles(read, s.t, vs), vs).costs, c) == LastCost(Costs(read, s.world[path].bytes), c)
  {
    hide Inv, Distinct, BackfillFiles, RefreshFiles, Complete, TotalOk, Whole, Costs, SoleFile, Enabled, Do;
    var tr', acts' := ExtendByRefresh(read, tr, acts, order);
    var s' := tr'[|tr'| - 1];
    TotalHolds(read, tr', acts', path, c, |tr'| - 1);
    IndexNeverMisattributes(read, tr', acts', |tr'| - 1);
    TotalAtEnd(read, s', path, c);
  }

  lemma {:induction false} TotalAtEnd(read: Reader, s: Sys, path: Path, c: SessionId)
    requires Inv(read, s) && TotalOk(read, s, path, c) && Complete(s, path)
    ensures Total(s.t.costs, c) == LastCost(Costs(read, s.world[path].bytes), c)
  {
    hide Whole, Costs;
    var b, off := s.world[path].bytes, OffsetOf(s.t, path);
    var n: nat :| TotalAt(read, s, path, c, n);
    StartOfCursor(read, s, path);
    CompletePieces(read, b, off);
    if off < n {
      LinesBetween(b, off, n);
    }
  }

  /** A backfill read that fails may take a total back: it leaves the stored one
      as it was if and only if the part it read reports the same total, or
      none. */
  lemma {:induction false} FailedBackfillKeepsTotalIff(read: Reader, t: Tables, v: View, c: SessionId)
    ensures var part := Costs(read, Delivered(v.content, v.fault));
            Total(BackfillFile(read, t, v).costs, c) == Total(t.costs, c) <==>
            LastCost(part, c) == None || LastCost(part, c) == Total(t.costs, c)
  {
    assert v.content[0..] == v.content;
    StoreCostsIs(t.costs, Costs(read, Delivered(v.content, v.fault)), c);
  }

  /** Three-byte lines: the total of session 0 is the second byte. */
  function Meter(line: Bytes): Line {
    if |line| == 3 then CostLine(Cost(0, line[1] as real)) else Other
  }

  const FIVE: Bytes := [3, 5, NEWLINE] + []
  const SEVEN: Bytes := [3, 7, NEWLINE] + []

  /** A total of 7 goes back to 5 when a backfill fails after the first line. */
  lemma FailedBackfillTakesTotalBack(t: Tables, path: Path)
    requires Total(t.costs, 0) == Some(7.0)
    ensures LastCost(Costs(Meter, FIVE + SEVEN), 0) == Some(7.0)
    ensures Total(BackfillFile(Meter, t, View(path, 5, 6, FIVE + SEVEN, Some(3))).costs, 0) == Some(5.0)
  {
    MeterReads();
    assert [Cost(0, 5.0), Cost(0, 7.0)][..1] == [Cost(0, 5.0)];
    var v := View(path, 5, 6, FIVE + SEVEN, Some(3));
    assert v.content[0..] == v.content && Delivered(v.content, v.fault) == FIVE;
    StoreCostsIs(t.costs, Costs(Meter, FIVE), 0);
  }

  lemma MeterLines()
    ensures Lines(FIVE) == [[3, 5, NEWLINE]] && Lines(FIVE + SEVEN) == [[3, 5, NEWLINE], [3, 7, NEWLINE]]
  {
    CutLine(3, 5, []);
    CutLine(3, 7, []);
    LinesInTwo(FIVE, SEVEN);
  }

  lemma {:induction false} ParseOne(read: Reader, a: Bytes, carry: Option<PromptId>)
    ensures ParseLines(read, [a], carry) == OneLine(read(a), |a|, carry)
  {
    var first := OneLine(read(a), |a|, carry);
    assert [a][1..] == [];
    assert Then(first, Nothing(first.last)) == first;
  }

  lemma MeterShows(usd: byte)
    ensures Meter([3, usd, NEWLINE]) == CostLine(Cost(0, usd as real))
  {
  }

  lemma {:induction false} CostsOfOne(read: Reader, b: Bytes, line: Bytes, c: Cost)
    requires Lines(b) == [line] && read(line) == CostLine(c)
    ensures Costs(read, b) == [c]
  {
    ParseOne(read, line, None);
  }

  lemma {:induction false} CostsOfTwo(read: Reader, b: Bytes, x: Bytes, y: Bytes, c: Cost, d: Cost)
    requires Lines(b) == [x, y] && read(x) == CostLine(c) && read(y) == CostLine(d)
    ensures Costs(read, b) == [c, d]
  {
    hide Lines, ParseLines;
    ParseTwo(read, x, y, None);
  }

  lemma MeterReads()
    ensures Costs(Meter, FIVE) == [Cost(0, 5.0)] && Costs(Meter, FIVE + SEVEN) == [Cost(0, 5.0), Cost(0, 7.0)]
  {
    hide *;
    MeterLines();
    MeterShows(5);
    MeterShows(7);
    CostsOfOne(Meter, FIVE, [3, 5, NEWLINE], Cost(0, 5.0));
    CostsOfTwo(Meter, FIVE + SEVEN, [3, 5, NEWLINE], [3, 7, NEWLINE], Cost(0, 5.0), Cost(0, 7.0));
  }
}
