/** The bounded context compiler (terminal_mcp/context_compiler.py). Items are
    the strings str() makes of them; `fold` stands for str.lower. */
module ContextCompiler {
  import opened PyText

  type Fold = string -> string

  /** rstrip(".;:") */
  function StripStops(s: string): string {
    if s != "" && s[|s| - 1] in ".;:" then StripStops(s[..|s| - 1]) else s
  }

  function KeyOf(fold: Fold, item: string): string { StripStops(fold(Collapse(item))) }

  // ---- what a key stands for

  ghost predicate Stops(s: string) { forall i :: 0 <= i < |s| ==> s[i] == '.' || s[i] == ';' || s[i] == ':' }

  ghost predicate EndsInStop(s: string) { s != "" && Stops(s[|s| - 1..]) }

  /** s is t and then nothing but stops. */
  ghost predicate UpTo(s: string, t: string) { |t| <= |s| && s[..|t|] == t && Stops(s[|t|..]) }

  /** Two texts that agree up to trailing stops. */
  ghost predicate AgreeUpToStops(a: string, b: string) { exists base :: UpTo(a, base) && UpTo(b, base) }

  /** The normalised text of an item, before its stops are cut off. */
  function Folded(fold: Fold, item: string): string { fold(Collapse(item)) }

  lemma {:induction false} StripStopsIs(s: string)
    ensures UpTo(s, StripStops(s)) && !EndsInStop(StripStops(s))
  {
    if s != "" && s[|s| - 1] in ".;:" {
      StripStopsIs(s[..|s| - 1]);
      var t := StripStops(s);
      assert forall i :: |t| <= i < |s| - 1 ==> s[..|s| - 1][|t|..][i - |t|] == s[i];
    } else {
      assert StripStops(s) == s && s[|s|..] == "";
    }
  }

  lemma LongerEndsInStop(s: string, a: string, b: string)
    requires UpTo(s, a) && UpTo(s, b) && |a| < |b|
    ensures EndsInStop(b)
  {
    assert b[|b| - 1] == s[|b| - 1] == s[|a|..][|b| - 1 - |a|];
  }

  /** There is only one way to cut all trailing stops off. */
  lemma UpToIsUnique(s: string, a: string, b: string)
    requires UpTo(s, a) && UpTo(s, b) && !EndsInStop(a) && !EndsInStop(b)
    ensures a == b
  {
    if |a| < |b| {
      LongerEndsInStop(s, a, b);
    } else if |b| < |a| {
      LongerEndsInStop(s, b, a);
    }
  }

  lemma UpToComposes(s: string, t: string, u: string)
    requires UpTo(s, t) && UpTo(t, u)
    ensures UpTo(s, u)
  {
    assert s[|u|..] == t[|u|..] + s[|t|..];
  }

  /** The key of an item is its folded text without its trailing stops. */
  lemma KeyIs(fold: Fold, item: string)
    ensures UpTo(Folded(fold, item), KeyOf(fold, item)) && !EndsInStop(KeyOf(fold, item))
  {
    StripStopsIs(Folded(fold, item));
  }

  /** Two items share a key exactly when their folded texts agree up to trailing
      stops. */
  lemma SameKeyIff(fold: Fold, a: string, b: string)
    ensures KeyOf(fold, a) == KeyOf(fold, b) <==> AgreeUpToStops(Folded(fold, a), Folded(fold, b))
  {
    hide UpTo, EndsInStop, KeyOf;
    var x, y := Folded(fold, a), Folded(fold, b);
    KeyIs(fold, a);
    KeyIs(fold, b);
    if base :| UpTo(x, base) && UpTo(y, base) {
      StripStopsIs(base);
      UpToComposes(x, base, StripStops(base));
      UpToComposes(y, base, StripStops(base));
      UpToIsUnique(x, KeyOf(fold, a), StripStops(base));
      UpToIsUnique(y, KeyOf(fold, b), StripStops(base));
    }
  }

  /** The caller's mapping, in insertion order, and its other arguments. */
  datatype Request = Request(
    lanes: seq<(string, seq<string>)>, budgets: seq<(string, int)>, order: seq<string>, mandatory: set<string>)

  datatype Lane = Lane(
    name: string, raw: seq<string>, budget: int, candidates: seq<string>, selected: seq<string>,
    duplicates: nat, dropped: nat, inputChars: nat)

  datatype Outcome =
    | NegativeBudget(lane: string)
    | MandatoryOverflow(lane: string, needed: nat, budget: int)
    | Packet(lanes: seq<Lane>)

  function Chars(items: seq<string>): nat {
    if items == [] then 0 else |items[0]| + Chars(items[1..])
  }

  // ------------------------------------------------------------ specification

  datatype Gathered = Gathered(candidates: seq<string>, duplicates: nat, inputChars: nat, seen: set<string>)

  function GatherOne(fold: Fold, g: Gathered, raw: string): Gathered {
    var item := Collapse(raw);
    if item == "" then g
    else if KeyOf(fold, item) in g.seen then g.(duplicates := g.duplicates + 1, inputChars := g.inputChars + |item|)
    else Gathered(g.candidates + [item], g.duplicates, g.inputChars + |item|, g.seen + {KeyOf(fold, item)})
  }

  function Gather(fold: Fold, g: Gathered, raws: seq<string>): Gathered
    decreases |raws|
  {
    if raws == [] then g else Gather(fold, GatherOne(fold, g, raws[0]), raws[1..])
  }

  /** Greedy: an item that does not fit is dropped whole. */
  function Pack(items: seq<string>, budget: int, used: nat): seq<string> {
    if items == [] then []
    else if used + |items[0]| <= budget then [items[0]] + Pack(items[1..], budget, used + |items[0]|)
    else Pack(items[1..], budget, used)
  }

  function RawOf(lanes: seq<(string, seq<string>)>, name: string): seq<string> {
    if lanes == [] then [] else if lanes[0].0 == name then lanes[0].1 else RawOf(lanes[1..], name)
  }

  function DefaultBudget(name: string): int {
    if name == "mandatory" || name == "code" then 12000
    else if name == "task" then 8000
    else if name == "verification" then 5000
    else if name == "experience" then 6000
    else 4000
  }

  /** The caller's last word on a lane counts. */
  function BudgetOf(budgets: seq<(string, int)>, name: string): int {
    if budgets == [] then DefaultBudget(name)
    else if budgets[|budgets| - 1].0 == name then budgets[|budgets| - 1].1
    else BudgetOf(budgets[..|budgets| - 1], name)
  }

  function LaneFor(fold: Fold, r: Request, name: string, seen: set<string>): (Lane, set<string>) {
    var raw, budget := RawOf(r.lanes, name), BudgetOf(r.budgets, name);
    var g := Gather(fold, Gathered([], 0, 0, seen), raw);
    var selected := if name in r.mandatory then g.candidates else Pack(g.candidates, budget, 0);
    PackFacts(g.candidates, budget, 0);
    (Lane(name, raw, budget, g.candidates, selected, g.duplicates, |g.candidates| - |selected|, g.inputChars), g.seen)
  }

  function CompileFrom(fold: Fold, r: Request, names: seq<string>, seen: set<string>): Outcome
    ensures !CompileFrom(fold, r, names, seen).NegativeBudget?
    decreases |names|
  {
    if names == [] then Packet([]) else
    var (lane, seen') := LaneFor(fold, r, names[0], seen);
    if names[0] in r.mandatory && Chars(lane.candidates) > lane.budget then
      MandatoryOverflow(names[0], Chars(lane.candidates), lane.budget)
    else
      var rest := CompileFrom(fold, r, names[1..], seen');
      if rest.Packet? then Packet([lane] + rest.lanes) else rest
  }

  function Fresh(names: seq<string>, known: set<string>): seq<string>
    decreases |names|
  {
    if names == [] then []
    else if names[0] in known then Fresh(names[1..], known)
    else [names[0]] + Fresh(names[1..], known + {names[0]})
  }

  function NamesOf(lanes: seq<(string, seq<string>)>): seq<string> {
    if lanes == [] then [] else [lanes[0].0] + NamesOf(lanes[1..])
  }

  /** dict.fromkeys([*lane_order, *lanes.keys()]) */
  function LaneNames(r: Request): seq<string> { Fresh(r.order + NamesOf(r.lanes), {}) }

  function FirstNegative(budgets: seq<(string, int)>): int
    ensures -1 <= FirstNegative(budgets) < |budgets|
  {
    if budgets == [] then -1
    else if budgets[0].1 < 0 then 0
    else
      var i := FirstNegative(budgets[1..]);
      if i < 0 then -1 else i + 1
  }

  function Compile(fold: Fold, r: Request): Outcome {
    var i := FirstNegative(r.budgets);
    if i >= 0 then NegativeBudget(r.budgets[i].0) else CompileFrom(fold, r, LaneNames(r), {})
  }

  // ------------------------------------------------------------------- methods

  method GatherLane(fold: Fold, raws: seq<string>, seen0: set<string>)
    returns (candidates: seq<string>, duplicates: nat, inputChars: nat, seen: set<string>)
    ensures Gathered(candidates, duplicates, inputChars, seen) == Gather(fold, Gathered([], 0, 0, seen0), raws)
  {
    hide KeyOf, Collapse;
    candidates, duplicates, inputChars, seen := [], 0, 0, seen0;
    for i := 0 to |raws|
      invariant Gather(fold, Gathered(candidates, duplicates, inputChars, seen), raws[i..])
                == Gather(fold, Gathered([], 0, 0, seen0), raws)
    {
      assert raws[i..][0] == raws[i] && raws[i..][1..] == raws[i + 1..];
      var item := Collapse(raws[i]);
      if item == "" {
        continue;
      }
      inputChars := inputChars + |item|;
      var key := KeyOf(fold, item);
      if key in seen {
        duplicates := duplicates + 1;
        continue;
      }
      seen, candidates := seen + {key}, candidates + [item];
    }
    assert raws[|raws|..] == [];
  }

  method PackLane(items: seq<string>, budget: int) returns (selected: seq<string>, dropped: nat)
    ensures selected == Pack(items, budget, 0) && |selected| + dropped == |items|
  {
    selected, dropped := [], 0;
    var used: nat := 0;
    for i := 0 to |items|
      invariant selected + Pack(items[i..], budget, used) == Pack(items, budget, 0)
      invariant |selected| + dropped == i
    {
      assert items[i..][0] == items[i] && items[i..][1..] == items[i + 1..];
      if used + |items[i]| <= budget {
        assert selected + ([items[i]] + Pack(items[i + 1..], budget, used + |items[i]|))
            == (selected + [items[i]]) + Pack(items[i + 1..], budget, used + |items[i]|);
        selected, used := selected + [items[i]], used + |items[i]|;
      } else {
        dropped := dropped + 1;
      }
    }
    assert items[|items|..] == [] && selected + [] == selected;
  }

  /** compile_context, up to the joined text and its hash. */
  method CompileContext(fold: Fold, r: Request) returns (out: Outcome)
    ensures out == Compile(fold, r)
  {
    var bad := FirstNegative(r.budgets);
    if bad >= 0 {
      return NegativeBudget(r.budgets[bad].0);
    }
    hide Chars, RawOf, BudgetOf, LaneFor, LaneNames, Gather, Pack;
    var names, seen: set<string>, lanes := LaneNames(r), {}, [];
    for i := 0 to |names|
      invariant After(lanes, CompileFrom(fold, r, names[i..], seen)) == CompileFrom(fold, r, names, {})
    {
      assert names[i..][0] == names[i] && names[i..][1..] == names[i + 1..];
      var raw, budget := RawOf(r.lanes, names[i]), BudgetOf(r.budgets, names[i]);
      var candidates, duplicates, inputChars, seen' := GatherLane(fold, raw, seen);
      var selected, dropped := candidates, 0;
      if names[i] in r.mandatory {
        if Chars(candidates) > budget {
          return MandatoryOverflow(names[i], Chars(candidates), budget);
        }
      } else {
        selected, dropped := PackLane(candidates, budget);
      }
      var lane := Lane(names[i], raw, budget, candidates, selected, duplicates, dropped, inputChars);
      LaneIs(fold, r, lane, seen, seen');
      AfterOneMore(lanes, lane, CompileFrom(fold, r, names[i + 1..], seen'));
      lanes, seen := lanes + [lane], seen';
    }
    assert names[|names|..] == [];
    return Packet(lanes);
  }

  lemma LaneIs(fold: Fold, r: Request, lane: Lane, seen: set<string>, seen': set<string>)
    requires lane.raw == RawOf(r.lanes, lane.name) && lane.budget == BudgetOf(r.budgets, lane.name)
    requires Gathered(lane.candidates, lane.duplicates, lane.inputChars, seen') == Gather(fold, Gathered([], 0, 0, seen), lane.raw)
    requires lane.selected == if lane.name in r.mandatory then lane.candidates else Pack(lane.candidates, lane.budget, 0)
    requires |lane.selected| + lane.dropped == |lane.candidates|
    ensures LaneFor(fold, r, lane.name, seen) == (lane, seen')
  {
  }

  /** Lanes compiled before, put in front of what follows. */
  function After(lanes: seq<Lane>, rest: Outcome): Outcome {
    if rest.Packet? then Packet(lanes + rest.lanes) else rest
  }

  lemma AfterOneMore(lanes: seq<Lane>, lane: Lane, rest: Outcome)
    ensures After(lanes, After([lane], rest)) == After(lanes + [lane], rest)
  {
    if rest.Packet? {
      assert lanes + ([lane] + rest.lanes) == (lanes + [lane]) + rest.lanes;
    }
  }

  // ------------------------------------------------------------------ one lane

  ghost predicate Subsequence(a: seq<string>, b: seq<string>) {
    a == [] || (b != [] && ((a[0] == b[0] && Subsequence(a[1..], b[1..])) || Subsequence(a, b[1..])))
  }

  /** What greedy packing promises: a subsequence within the budget, and no
      dropped item would still fit beside what was taken. */
  lemma {:induction false} PackFacts(items: seq<string>, budget: int, used: nat)
    ensures Subsequence(Pack(items, budget, used), items) && |Pack(items, budget, used)| <= |items|
    ensures used <= budget ==> used + Chars(Pack(items, budget, used)) <= budget
    ensures used > budget ==> Pack(items, budget, used) == []
    ensures forall item :: item in items && item !in Pack(items, budget, used) ==>
              used + Chars(Pack(items, budget, used)) + |item| > budget
    ensures forall item :: item in Pack(items, budget, used) ==> item in items
  {
    if items != [] {
      var fits := used + |items[0]| <= budget;
      var rest := Pack(items[1..], budget, if fits then used + |items[0]| else used);
      PackFacts(items[1..], budget, if fits then used + |items[0]| else used);
      assert items == [items[0]] + items[1..];
      assert ([items[0]] + rest)[1..] == rest;
    }
  }

  function KeySet(fold: Fold, items: seq<string>): set<string> { set item | item in items :: KeyOf(fold, item) }

  /** The keys of the items that are not blank. */
  function InkKeys(fold: Fold, raws: seq<string>): set<string> {
    set raw | raw in raws && Collapse(raw) != "" :: KeyOf(fold, raw)
  }

  function InkCount(raws: seq<string>): nat {
    if raws == [] then 0 else (if Collapse(raws[0]) == "" then 0 else 1) + InkCount(raws[1..])
  }

  ghost predicate KeysDiffer(fold: Fold, items: seq<string>) {
    forall i, j :: 0 <= i < j < |items| ==> KeyOf(fold, items[i]) != KeyOf(fold, items[j])
  }

  ghost predicate GatheredOk(fold: Fold, base: set<string>, g: Gathered) {
    g.seen == base + KeySet(fold, g.candidates) && KeySet(fold, g.candidates) !! base && KeysDiffer(fold, g.candidates)
  }

  lemma KeyOfCollapsed(fold: Fold, raw: string)
    ensures KeyOf(fold, Collapse(raw)) == KeyOf(fold, raw)
  {
    CollapseTwice(raw);
  }

  lemma KeySetOfAppend(fold: Fold, items: seq<string>, item: string)
    ensures KeySet(fold, items + [item]) == KeySet(fold, items) + {KeyOf(fold, item)}
  {
    hide KeyOf;
    var more := items + [item];
    assert item in more;
    assert forall x :: x in items ==> x in more;
  }

  lemma GatherOneOk(fold: Fold, base: set<string>, g: Gathered, raw: string)
    requires GatheredOk(fold, base, g)
    ensures var g' := GatherOne(fold, g, raw);
            && GatheredOk(fold, base, g')
            && g'.seen == g.seen + (if Collapse(raw) == "" then {} else {KeyOf(fold, raw)})
            && |g'.candidates| + g'.duplicates == |g.candidates| + g.duplicates + if Collapse(raw) == "" then 0 else 1
  {
    hide Collapse, StripStops;
    var item := Collapse(raw);
    KeyOfCollapsed(fold, raw);
    if item != "" && KeyOf(fold, item) !in g.seen {
      KeySetOfAppend(fold, g.candidates, item);
      forall i | 0 <= i < |g.candidates|
        ensures KeyOf(fold, g.candidates[i]) in KeySet(fold, g.candidates)
      {
        assert g.candidates[i] in g.candidates;
      }
    }
  }

  lemma InkKeysOfCons(fold: Fold, raws: seq<string>)
    requires raws != []
    ensures InkKeys(fold, raws) == (if Collapse(raws[0]) == "" then {} else {KeyOf(fold, raws[0])}) + InkKeys(fold, raws[1..])
  {
    hide Collapse, KeyOf;
    assert raws == [raws[0]] + raws[1..];
  }

  /** Gathering a lane: each new key once, every item accounted for. */
  lemma {:induction false} GatherFacts(fold: Fold, base: set<string>, g: Gathered, raws: seq<string>)
    requires GatheredOk(fold, base, g)
    ensures var end := Gather(fold, g, raws);
            && GatheredOk(fold, base, end)
            && end.seen == g.seen + InkKeys(fold, raws)
            && |end.candidates| + end.duplicates == |g.candidates| + g.duplicates + InkCount(raws)
    decreases |raws|
  {
    hide GatheredOk, GatherOne, KeyOf, Collapse;
    if raws != [] {
      GatherOneOk(fold, base, g, raws[0]);
      GatherFacts(fold, base, GatherOne(fold, g, raws[0]), raws[1..]);
      InkKeysOfCons(fold, raws);
    }
  }

  ghost predicate LaneOk(fold: Fold, r: Request, seen: set<string>, lane: Lane) {
    && lane.raw == RawOf(r.lanes, lane.name) && lane.budget == BudgetOf(r.budgets, lane.name)
    && |lane.candidates| == |lane.selected| + lane.dropped
    && InkCount(lane.raw) == |lane.candidates| + lane.duplicates
    && Chars(lane.selected) <= lane.budget
    && Subsequence(lane.selected, lane.candidates)
    && (forall item :: item in lane.candidates && item !in lane.selected ==> Chars(lane.selected) + |item| > lane.budget)
    && (lane.name in r.mandatory ==> lane.selected == lane.candidates)
    && KeysDiffer(fold, lane.candidates)
    && KeySet(fold, lane.candidates) == InkKeys(fold, lane.raw) - seen
  }

  lemma {:induction false} WholeIsSubsequence(items: seq<string>)
    ensures Subsequence(items, items)
  {
    if items != [] {
      WholeIsSubsequence(items[1..]);
    }
  }

  lemma {:induction false} LaneForIsOk(fold: Fold, r: Request, name: string, seen: set<string>)
    requires BudgetOf(r.budgets, name) >= 0
    requires var lane := LaneFor(fold, r, name, seen).0; name in r.mandatory ==> Chars(lane.candidates) <= lane.budget
    ensures LaneOk(fold, r, seen, LaneFor(fold, r, name, seen).0)
    ensures LaneFor(fold, r, name, seen).1 == seen + InkKeys(fold, RawOf(r.lanes, name))
  {
    hide KeyOf, KeysDiffer, Gather, RawOf, BudgetOf, InkCount, InkKeys, KeySet, Chars, Subsequence, Pack;
    var raw := RawOf(r.lanes, name);
    var g0 := Gathered([], 0, 0, seen);
    NothingGathered(fold, seen);
    GatherFacts(fold, seen, g0, raw);
    var g := Gather(fold, g0, raw);
    NewKeys(seen, KeySet(fold, g.candidates), InkKeys(fold, raw));
    WholeIsSubsequence(g.candidates);
    PackFacts(g.candidates, BudgetOf(r.budgets, name), 0);
  }

  lemma NewKeys(seen: set<string>, got: set<string>, ink: set<string>)
    requires seen + got == seen + ink && got !! seen
    ensures got == ink - seen
  {
    assert forall k :: k in ink - seen ==> k in seen + got;
    assert forall k :: k in got ==> k in seen + ink;
  }

  lemma NothingGathered(fold: Fold, seen: set<string>)
    ensures GatheredOk(fold, seen, Gathered([], 0, 0, seen))
  {
    assert KeySet(fold, []) == {};
  }

  // ----------------------------------------------------------------- all lanes

  /** The keys of the items of the first p lanes. */
  function Before(fold: Fold, lanes: seq<Lane>, p: nat): set<string>
    requires p <= |lanes|
  {
    if p == 0 then {} else Before(fold, lanes, p - 1) + InkKeys(fold, lanes[p - 1].raw)
  }

  ghost predicate LanesOk(fold: Fold, r: Request, seen: set<string>, lanes: seq<Lane>) {
    forall p :: 0 <= p < |lanes| ==> LaneOk(fold, r, seen + Before(fold, lanes, p), lanes[p])
  }

  lemma {:induction false} BeforeOfCons(fold: Fold, lanes: seq<Lane>, p: nat)
    requires lanes != [] && p < |lanes|
    ensures Before(fold, lanes, p + 1) == InkKeys(fold, lanes[0].raw) + Before(fold, lanes[1..], p)
  {
    hide InkKeys;
    if p > 0 {
      BeforeOfCons(fold, lanes, p - 1);
      assert lanes[p] == lanes[1..][p - 1];
    }
  }

  lemma {:induction false} BudgetsAreNotNegative(budgets: seq<(string, int)>, name: string)
    requires forall i :: 0 <= i < |budgets| ==> budgets[i].1 >= 0
    ensures BudgetOf(budgets, name) >= 0
  {
    if budgets != [] {
      BudgetsAreNotNegative(budgets[..|budgets| - 1], name);
    }
  }

  lemma {:induction false} NoNegative(budgets: seq<(string, int)>)
    ensures FirstNegative(budgets) < 0 <==> forall i :: 0 <= i < |budgets| ==> budgets[i].1 >= 0
    ensures FirstNegative(budgets) >= 0 ==> budgets[FirstNegative(budgets)].1 < 0
  {
    if budgets != [] && budgets[0].1 >= 0 {
      NoNegative(budgets[1..]);
      assert forall i :: 1 <= i < |budgets| ==> budgets[i] == budgets[1..][i - 1];
    }
  }

  lemma {:induction false} CompiledLanesOk(fold: Fold, r: Request, names: seq<string>, seen: set<string>)
    requires forall i :: 0 <= i < |r.budgets| ==> r.budgets[i].1 >= 0
    requires CompileFrom(fold, r, names, seen).Packet?
    ensures LanesOk(fold, r, seen, CompileFrom(fold, r, names, seen).lanes)
    decreases |names|
  {
    hide LaneFor, LaneOk, InkKeys, BudgetOf;
    if names != [] {
      BudgetsAreNotNegative(r.budgets, names[0]);
      LaneForIsOk(fold, r, names[0], seen);
      LaneIsNamed(fold, r, names[0], seen);
      var (lane, seen') := LaneFor(fold, r, names[0], seen);
      CompiledLanesOk(fold, r, names[1..], seen');
      ConsLanesOk(fold, r, seen, lane, CompileFrom(fold, r, names[1..], seen').lanes);
    }
  }

  lemma {:induction false} LaneIsNamed(fold: Fold, r: Request, name: string, seen: set<string>)
    ensures LaneFor(fold, r, name, seen).0.name == name
    ensures LaneFor(fold, r, name, seen).0.raw == RawOf(r.lanes, name)
  {
  }

  lemma ConsLanesOk(fold: Fold, r: Request, seen: set<string>, lane: Lane, rest: seq<Lane>)
    ensures LaneOk(fold, r, seen, lane) && LanesOk(fold, r, seen + InkKeys(fold, lane.raw), rest) ==>
              LanesOk(fold, r, seen, [lane] + rest)
  {
    hide LaneOk, InkKeys, Before;
    if LaneOk(fold, r, seen, lane) && LanesOk(fold, r, seen + InkKeys(fold, lane.raw), rest) {
      var all := [lane] + rest;
      assert all[1..] == rest;
      forall p | 0 <= p < |all|
        ensures LaneOk(fold, r, seen + Before(fold, all, p), all[p])
      {
        if p == 0 {
          NothingBefore(fold, all, seen);
        } else {
          BeforeOfCons(fold, all, p - 1);
          UnionAssociates(seen, InkKeys(fold, lane.raw), Before(fold, rest, p - 1));
          assert all[p] == rest[p - 1];
          assert LaneOk(fold, r, seen + InkKeys(fold, lane.raw) + Before(fold, rest, p - 1), rest[p - 1]);
        }
      }
    }
  }

  lemma {:induction false} NothingBefore(fold: Fold, lanes: seq<Lane>, seen: set<string>)
    ensures seen + Before(fold, lanes, 0) == seen
  {
  }

  lemma UnionAssociates(a: set<string>, b: set<string>, c: set<string>)
    ensures a + (b + c) == (a + b) + c
  {
  }

  /** Every lane of a packet: items in = candidates + duplicates + blanks,
      candidates = used + dropped, used within the budget, nothing dropped that
      would still fit, nothing dropped at all from a mandatory lane; and the
      candidates are one per key not met in an earlier lane. */
  lemma {:induction false} LaneAccounts(fold: Fold, r: Request, p: nat)
    requires Compile(fold, r).Packet? && p < |Compile(fold, r).lanes|
    ensures LaneOk(fold, r, Before(fold, Compile(fold, r).lanes, p), Compile(fold, r).lanes[p])
  {
    hide LaneOk;
    NoNegative(r.budgets);
    CompiledLanesOk(fold, r, LaneNames(r), {});
    var lanes := Compile(fold, r).lanes;
    assert {} + Before(fold, lanes, p) == Before(fold, lanes, p);
  }

  lemma {:induction false} FreshIs(names: seq<string>, known: set<string>, n: string)
    ensures n in Fresh(names, known) <==> n in names && n !in known
    decreases |names|
  {
    if names != [] {
      assert names == [names[0]] + names[1..];
      FreshIs(names[1..], if names[0] in known then known else known + {names[0]}, n);
    }
  }

  lemma {:induction false} FreshDiffer(names: seq<string>, known: set<string>)
    ensures forall i, j :: 0 <= i < j < |Fresh(names, known)| ==> Fresh(names, known)[i] != Fresh(names, known)[j]
    decreases |names|
  {
    if names != [] {
      var more := if names[0] in known then known else known + {names[0]};
      FreshDiffer(names[1..], more);
      forall i | 0 <= i < |Fresh(names[1..], more)|
        ensures Fresh(names[1..], more)[i] !in more
      {
        FreshIs(names[1..], more, Fresh(names[1..], more)[i]);
      }
    }
  }

  lemma {:induction false} CompiledNames(fold: Fold, r: Request, names: seq<string>, seen: set<string>)
    requires CompileFrom(fold, r, names, seen).Packet?
    ensures |CompileFrom(fold, r, names, seen).lanes| == |names|
    ensures forall p :: 0 <= p < |names| ==> CompileFrom(fold, r, names, seen).lanes[p].name == names[p]
    decreases |names|
  {
    hide LaneFor, Chars;
    if names != [] {
      LaneIsNamed(fold, r, names[0], seen);
      CompiledNames(fold, r, names[1..], LaneFor(fold, r, names[0], seen).1);
    }
  }

  /** A packet has one lane for every name of the order and of the input, each
      once, in that order. */
  lemma EveryLaneOnce(fold: Fold, r: Request)
    requires Compile(fold, r).Packet?
    ensures |Compile(fold, r).lanes| == |LaneNames(r)|
    ensures forall p :: 0 <= p < |LaneNames(r)| ==> Compile(fold, r).lanes[p].name == LaneNames(r)[p]
    ensures forall p, q :: 0 <= p < q < |LaneNames(r)| ==> LaneNames(r)[p] != LaneNames(r)[q]
    ensures forall n :: n in LaneNames(r) <==> n in r.order || n in NamesOf(r.lanes)
  {
    CompiledNames(fold, r, LaneNames(r), {});
    FreshDiffer(r.order + NamesOf(r.lanes), {});
    forall n
      ensures n in LaneNames(r) <==> n in r.order || n in NamesOf(r.lanes)
    {
      FreshIs(r.order + NamesOf(r.lanes), {}, n);
    }
  }

  lemma {:induction false} BeforeGrows(fold: Fold, lanes: seq<Lane>, p: nat, q: nat)
    requires p < q <= |lanes|
    ensures InkKeys(fold, lanes[p].raw) <= Before(fold, lanes, q)
  {
    hide InkKeys;
    if p + 1 < q {
      BeforeGrows(fold, lanes, p, q - 1);
    }
  }

  /** No key occurs twice in a packet: no two of its items agree up to trailing
      stops. */
  lemma NoKeyTwice(fold: Fold, r: Request, p: nat, i: nat, q: nat, j: nat)
    requires Compile(fold, r).Packet?
    requires p < |Compile(fold, r).lanes| && i < |Compile(fold, r).lanes[p].candidates|
    requires q < |Compile(fold, r).lanes| && j < |Compile(fold, r).lanes[q].candidates|
    requires p < q || (p == q && i < j)
    ensures KeyOf(fold, Compile(fold, r).lanes[p].candidates[i]) != KeyOf(fold, Compile(fold, r).lanes[q].candidates[j])
    ensures !AgreeUpToStops(Folded(fold, Compile(fold, r).lanes[p].candidates[i]), Folded(fold, Compile(fold, r).lanes[q].candidates[j]))
  {
    hide KeyOf, Compile, InkKeys, Chars, Subsequence, AgreeUpToStops;
    SameKeyIff(fold, Compile(fold, r).lanes[p].candidates[i], Compile(fold, r).lanes[q].candidates[j]);
    var lanes := Compile(fold, r).lanes;
    LaneAccounts(fold, r, p);
    LaneAccounts(fold, r, q);
    if p < q {
      BeforeGrows(fold, lanes, p, q);
      assert lanes[p].candidates[i] in lanes[p].candidates && lanes[q].candidates[j] in lanes[q].candidates;
      assert KeyOf(fold, lanes[p].candidates[i]) in KeySet(fold, lanes[p].candidates);
      assert KeyOf(fold, lanes[q].candidates[j]) in KeySet(fold, lanes[q].candidates);
    }
  }

  ghost predicate InPacket(fold: Fold, lanes: seq<Lane>, key: string) {
    exists q :: 0 <= q < |lanes| && key in KeySet(fold, lanes[q].selected)
  }

  lemma {:induction false} NotBefore(fold: Fold, lanes: seq<Lane>, key: string, p: nat)
    requires p <= |lanes| && forall q :: 0 <= q < p ==> key !in InkKeys(fold, lanes[q].raw)
    ensures key !in Before(fold, lanes, p)
  {
    hide InkKeys;
    if p > 0 {
      NotBefore(fold, lanes, key, p - 1);
    }
  }

  lemma {:induction false} SelectedAreCandidates(fold: Fold, a: seq<string>, b: seq<string>)
    requires Subsequence(a, b)
    ensures KeySet(fold, a) <= KeySet(fold, b)
  {
    hide KeyOf;
    SubsequenceMembers(a, b);
  }

  lemma {:induction false} SubsequenceMembers(a: seq<string>, b: seq<string>)
    requires Subsequence(a, b)
    ensures forall x :: x in a ==> x in b
    decreases |b|
  {
    if a != [] {
      assert a == [a[0]] + a[1..] && b == [b[0]] + b[1..];
      if a[0] == b[0] && Subsequence(a[1..], b[1..]) {
        SubsequenceMembers(a[1..], b[1..]);
      } else {
        SubsequenceMembers(a, b[1..]);
      }
    }
  }

  /** Later lanes cannot make up for the first one that has the key. */
  lemma OnlyFirstLane(fold: Fold, r: Request, key: string, p: nat)
    requires Compile(fold, r).Packet? && p < |Compile(fold, r).lanes|
    requires key in InkKeys(fold, Compile(fold, r).lanes[p].raw)
    requires forall q :: 0 <= q < p ==> key !in InkKeys(fold, Compile(fold, r).lanes[q].raw)
    ensures InPacket(fold, Compile(fold, r).lanes, key) <==> key in KeySet(fold, Compile(fold, r).lanes[p].selected)
    ensures Compile(fold, r).lanes[p].name in r.mandatory ==> InPacket(fold, Compile(fold, r).lanes, key)
  {
    hide Compile, InkKeys, KeySet, Chars, KeysDiffer;
    var lanes := Compile(fold, r).lanes;
    NotBefore(fold, lanes, key, p);
    LaneAccounts(fold, r, p);
    assert key in KeySet(fold, lanes[p].candidates);
    forall q | 0 <= q < |lanes| && q != p
      ensures key !in KeySet(fold, lanes[q].selected)
    {
      LaneAccounts(fold, r, q);
      SelectedAreCandidates(fold, lanes[q].selected, lanes[q].candidates);
      if q > p {
        BeforeGrows(fold, lanes, p, q);
      }
    }
  }

  // ---- the first lane decides, told by the request alone

  /** The keys of the non-blank items of the first p lanes. */
  function KeysBefore(fold: Fold, r: Request, names: seq<string>, p: nat): set<string>
    requires p <= |names|
  {
    if p == 0 then {} else KeysBefore(fold, r, names, p - 1) + InkKeys(fold, RawOf(r.lanes, names[p - 1]))
  }

  /** The new items of lane number p: one for each key no earlier lane has. */
  function CandidatesAt(fold: Fold, r: Request, names: seq<string>, p: nat): seq<string>
    requires p < |names|
  {
    Gather(fold, Gathered([], 0, 0, KeysBefore(fold, r, names, p)), RawOf(r.lanes, names[p])).candidates
  }

  lemma {:induction false} KeysBeforeOfTail(fold: Fold, r: Request, names: seq<string>, p: nat)
    requires p < |names|
    ensures KeysBefore(fold, r, names, p + 1) == InkKeys(fold, RawOf(r.lanes, names[0])) + KeysBefore(fold, r, names[1..], p)
  {
    hide InkKeys, RawOf;
    if p > 0 {
      KeysBeforeOfTail(fold, r, names, p - 1);
      assert names[p] == names[1..][p - 1];
    }
  }

  lemma {:induction false} SeenAfterLane(fold: Fold, r: Request, name: string, seen: set<string>)
    ensures LaneFor(fold, r, name, seen).1 == seen + InkKeys(fold, RawOf(r.lanes, name))
  {
    hide GatheredOk, Gather, RawOf, BudgetOf, InkCount, InkKeys, KeySet, Pack;
    NothingGathered(fold, seen);
    GatherFacts(fold, seen, Gathered([], 0, 0, seen), RawOf(r.lanes, name));
  }

  lemma {:induction false} CompiledLane(fold: Fold, r: Request, names: seq<string>, seen: set<string>, p: nat)
    requires CompileFrom(fold, r, names, seen).Packet? && p < |names|
    ensures p < |CompileFrom(fold, r, names, seen).lanes|
    ensures CompileFrom(fold, r, names, seen).lanes[p] == LaneFor(fold, r, names[p], seen + KeysBefore(fold, r, names, p)).0
    decreases |names|
  {
    hide LaneFor, InkKeys, RawOf, Chars;
    if p == 0 {
      assert seen + KeysBefore(fold, r, names, 0) == seen;
    } else {
      var ink := InkKeys(fold, RawOf(r.lanes, names[0]));
      SeenAfterLane(fold, r, names[0], seen);
      CompiledLane(fold, r, names[1..], seen + ink, p - 1);
      KeysBeforeOfTail(fold, r, names, p - 1);
      UnionAssociates(seen, ink, KeysBefore(fold, r, names[1..], p - 1));
    }
  }

  /** A given item is packed if and only if it fits behind what was packed of the
      items before it. */
  lemma {:induction false} PackedIff(items: seq<string>, budget: int, used: nat, k: nat)
    requires k < |items| && forall i :: 0 <= i < |items| && i != k ==> items[i] != items[k]
    ensures items[k] in Pack(items, budget, used) <==> used + Chars(Pack(items[..k], budget, used)) + |items[k]| <= budget
  {
    var fits := used + |items[0]| <= budget;
    var used' := if fits then used + |items[0]| else used;
    if k == 0 {
      PackFacts(items[1..], budget, used');
      assert items[..0] == [];
    } else {
      assert forall i :: 0 <= i < |items[1..]| ==> items[1..][i] == items[i + 1];
      PackedIff(items[1..], budget, used', k - 1);
      assert items[..k] == [items[0]] + items[1..][..k - 1];
      var rest := Pack(items[1..][..k - 1], budget, used');
      assert fits ==> Chars([items[0]] + rest) == |items[0]| + Chars(rest) by {
        assert ([items[0]] + rest)[1..] == rest;
      }
    }
  }

  lemma {:induction false} KeyIsPackedIff(fold: Fold, items: seq<string>, budget: int, k: nat)
    requires k < |items| && KeysDiffer(fold, items)
    ensures KeyOf(fold, items[k]) in KeySet(fold, Pack(items, budget, 0)) <==>
            Chars(Pack(items[..k], budget, 0)) + |items[k]| <= budget
  {
    hide KeyOf, Pack, Chars, Subsequence;
    assert forall i :: 0 <= i < |items| && i != k ==> KeyOf(fold, items[i]) != KeyOf(fold, items[k]);
    PackedIff(items, budget, 0, k);
    PackFacts(items, budget, 0);
  }

  ghost predicate FirstWith(fold: Fold, r: Request, names: seq<string>, key: string, p: nat)
    requires p < |names|
  {
    key in InkKeys(fold, RawOf(r.lanes, names[p])) && key !in KeysBefore(fold, r, names, p)
  }

  lemma {:induction false} NotInEarlierLanes(fold: Fold, r: Request, names: seq<string>, key: string, p: nat)
    requires p <= |names| && key !in KeysBefore(fold, r, names, p)
    ensures forall q :: 0 <= q < p ==> key !in InkKeys(fold, RawOf(r.lanes, names[q]))
  {
    hide InkKeys, RawOf;
    if p > 0 {
      NotInEarlierLanes(fold, r, names, key, p - 1);
    }
  }

  lemma {:induction false} FirstLaneInPacket(fold: Fold, r: Request, names: seq<string>, key: string, p: nat)
    requires Compile(fold, r).Packet? && names == LaneNames(r) && p < |names| && FirstWith(fold, r, names, key, p)
    ensures p < |Compile(fold, r).lanes|
    ensures var lane := Compile(fold, r).lanes[p];
            && lane == LaneFor(fold, r, names[p], KeysBefore(fold, r, names, p)).0
            && (InPacket(fold, Compile(fold, r).lanes, key) <==> key in KeySet(fold, lane.selected))
            && key in KeySet(fold, lane.candidates) && KeysDiffer(fold, lane.candidates)
  {
    hide CompileFrom, LaneFor, LaneNames, InkKeys, KeysBefore, InPacket, Before, KeySet, RawOf, KeysDiffer, Chars, Subsequence;
    var lanes := Compile(fold, r).lanes;
    assert lanes == CompileFrom(fold, r, names, {}).lanes;
    NotInEarlierLanes(fold, r, names, key, p);
    forall q | 0 <= q <= p
      ensures q < |lanes| && lanes[q].raw == RawOf(r.lanes, names[q])
    {
      CompiledLane(fold, r, names, {}, q);
      LaneIsNamed(fold, r, names[q], {} + KeysBefore(fold, r, names, q));
    }
    CompiledLane(fold, r, names, {}, p);
    assert {} + KeysBefore(fold, r, names, p) == KeysBefore(fold, r, names, p);
    OnlyFirstLane(fold, r, key, p);
    LaneAccounts(fold, r, p);
    NotBefore(fold, lanes, key, p);
  }

  /** Whether a key makes it into the packet is decided in the first lane that
      has it, and by what the caller knows: that lane is mandatory, or the one
      item standing for the key still fits behind what was packed of the items
      before it. */
  lemma FirstLaneDecides(fold: Fold, r: Request, names: seq<string>, key: string, p: nat) returns (k: nat)
    requires Compile(fold, r).Packet? && names == LaneNames(r) && p < |names| && FirstWith(fold, r, names, key, p)
    ensures k < |CandidatesAt(fold, r, names, p)| && KeyOf(fold, CandidatesAt(fold, r, names, p)[k]) == key
    ensures var name, items := names[p], CandidatesAt(fold, r, names, p);
            var budget := BudgetOf(r.budgets, name);
            InPacket(fold, Compile(fold, r).lanes, key) <==>
            name in r.mandatory || Chars(Pack(items[..k], budget, 0)) + |items[k]| <= budget
  {
    hide *;
    FirstLaneInPacket(fold, r, names, key, p);
    k := CandidateOf(fold, r, names, p, key);
    KeyIsPackedIff(fold, CandidatesAt(fold, r, names, p), BudgetOf(r.budgets, names[p]), k);
  }

  lemma CandidateOf(fold: Fold, r: Request, names: seq<string>, p: nat, key: string) returns (k: nat)
    requires p < |names|
    requires key in KeySet(fold, LaneFor(fold, r, names[p], KeysBefore(fold, r, names, p)).0.candidates)
    ensures k < |CandidatesAt(fold, r, names, p)| && KeyOf(fold, CandidatesAt(fold, r, names, p)[k]) == key
    ensures var lane := LaneFor(fold, r, names[p], KeysBefore(fold, r, names, p)).0;
            && lane.candidates == CandidatesAt(fold, r, names, p)
            && lane.selected == if names[p] in r.mandatory then lane.candidates
                                else Pack(lane.candidates, BudgetOf(r.budgets, names[p]), 0)
  {
    hide KeyOf, Gather, Pack, RawOf, BudgetOf, KeysBefore;
    var items := CandidatesAt(fold, r, names, p);
    var item :| item in items && KeyOf(fold, item) == key;
    k :| 0 <= k < |items| && items[k] == item;
  }

  /** Some item of the packet has this folded text, up to trailing stops. */
  ghost predicate TextInPacket(fold: Fold, lanes: seq<Lane>, text: string) {
    exists q, i :: 0 <= q < |lanes| && 0 <= i < |lanes[q].selected| && AgreeUpToStops(Folded(fold, lanes[q].selected[i]), text)
  }

  lemma KeyIsText(fold: Fold, lanes: seq<Lane>, raw: string)
    ensures InPacket(fold, lanes, KeyOf(fold, raw)) <==> TextInPacket(fold, lanes, Folded(fold, raw))
  {
    hide KeyOf, AgreeUpToStops, Folded;
    if InPacket(fold, lanes, KeyOf(fold, raw)) {
      var q :| 0 <= q < |lanes| && KeyOf(fold, raw) in KeySet(fold, lanes[q].selected);
      var item :| item in lanes[q].selected && KeyOf(fold, item) == KeyOf(fold, raw);
      SameKeyIff(fold, item, raw);
      var i :| 0 <= i < |lanes[q].selected| && lanes[q].selected[i] == item;
    }
    if q, i :| 0 <= q < |lanes| && 0 <= i < |lanes[q].selected| && AgreeUpToStops(Folded(fold, lanes[q].selected[i]), Folded(fold, raw)) {
      SameKeyIff(fold, lanes[q].selected[i], raw);
      assert lanes[q].selected[i] in lanes[q].selected;
      assert KeyOf(fold, raw) in KeySet(fold, lanes[q].selected);
    }
  }

  /** Mandatory context is never lost when the mandatory lanes come first: the
      call fails, or for every item of such a lane the packet has one of the same
      folded text up to trailing stops. */
  lemma MandatoryFirstIsKept(fold: Fold, r: Request, p: nat, raw: string)
    requires Compile(fold, r).Packet? && p < |Compile(fold, r).lanes|
    requires forall q :: 0 <= q <= p ==> Compile(fold, r).lanes[q].name in r.mandatory
    requires raw in Compile(fold, r).lanes[p].raw && Collapse(raw) != ""
    ensures InPacket(fold, Compile(fold, r).lanes, KeyOf(fold, raw))
    ensures TextInPacket(fold, Compile(fold, r).lanes, Folded(fold, raw))
  {
    hide Compile, KeyOf, Collapse, InPacket, TextInPacket, Folded;
    KeyIsText(fold, Compile(fold, r).lanes, raw);
    var lanes := Compile(fold, r).lanes;
    var key := KeyOf(fold, raw);
    assert key in InkKeys(fold, lanes[p].raw);
    var f := FirstLaneWith(fold, lanes, key, p);
    OnlyFirstLane(fold, r, key, f);
  }

  lemma {:induction false} FirstLaneWith(fold: Fold, lanes: seq<Lane>, key: string, p: nat) returns (f: nat)
    requires p < |lanes| && key in InkKeys(fold, lanes[p].raw)
    ensures f <= p && key in InkKeys(fold, lanes[f].raw)
    ensures forall q :: 0 <= q < f ==> key !in InkKeys(fold, lanes[q].raw)
  {
    hide InkKeys;
    f := p;
    if q :| 0 <= q < p && key in InkKeys(fold, lanes[q].raw) {
      f := FirstLaneWith(fold, lanes, key, q);
    }
  }

  // ---- when the call fails

  /** The first lane, if any, whose mandatory items exceed its budget. */
  ghost predicate Overflows(fold: Fold, r: Request, names: seq<string>, p: nat)
    requires p < |names|
  {
    names[p] in r.mandatory && Chars(CandidatesAt(fold, r, names, p)) > BudgetOf(r.budgets, names[p])
  }

  lemma {:induction false} LaneCandidates(fold: Fold, r: Request, names: seq<string>, p: nat)
    requires p < |names|
    ensures var lane := LaneFor(fold, r, names[p], KeysBefore(fold, r, names, p)).0;
            lane.candidates == CandidatesAt(fold, r, names, p) && lane.budget == BudgetOf(r.budgets, names[p])
  {
    hide Gather, KeysBefore, RawOf, BudgetOf, Pack;
  }

  /** The same test, from the p-th name on. */
  ghost predicate OverflowsFrom(fold: Fold, r: Request, names: seq<string>, seen: set<string>, p: nat)
    requires p < |names|
  {
    var lane := LaneFor(fold, r, names[p], seen + KeysBefore(fold, r, names, p)).0;
    names[p] in r.mandatory && Chars(lane.candidates) > lane.budget
  }

  lemma OverflowOfTail(fold: Fold, r: Request, names: seq<string>, seen: set<string>, p: nat)
    requires p + 1 < |names|
    ensures var seen' := LaneFor(fold, r, names[0], seen).1;
            OverflowsFrom(fold, r, names, seen, p + 1) <==> OverflowsFrom(fold, r, names[1..], seen', p)
  {
    hide LaneFor, InkKeys, RawOf, KeysBefore, Chars;
    var ink := InkKeys(fold, RawOf(r.lanes, names[0]));
    SeenAfterLane(fold, r, names[0], seen);
    KeysBeforeOfTail(fold, r, names, p);
    UnionAssociates(seen, ink, KeysBefore(fold, r, names[1..], p));
  }

  lemma {:induction false} CompileFailsIff(fold: Fold, r: Request, names: seq<string>, seen: set<string>)
    ensures var out := CompileFrom(fold, r, names, seen);
            && (out.MandatoryOverflow? <==> exists p :: 0 <= p < |names| && OverflowsFrom(fold, r, names, seen, p))
            && (out.MandatoryOverflow? || out.Packet?)
    decreases |names|
  {
    hide LaneFor, KeysBefore, Chars, OverflowsFrom;
    if names != [] {
      var seen' := LaneFor(fold, r, names[0], seen).1;
      CompileFailsIff(fold, r, names[1..], seen');
      FirstOverflows(fold, r, names, seen);
      forall p | 0 <= p < |names| - 1
        ensures OverflowsFrom(fold, r, names, seen, p + 1) <==> OverflowsFrom(fold, r, names[1..], seen', p)
      {
        OverflowOfTail(fold, r, names, seen, p);
      }
      if p :| 0 <= p < |names| && OverflowsFrom(fold, r, names, seen, p) {
        assert p > 0 ==> OverflowsFrom(fold, r, names[1..], seen', p - 1);
      }
      if p :| 0 <= p < |names[1..]| && OverflowsFrom(fold, r, names[1..], seen', p) {
        assert OverflowsFrom(fold, r, names, seen, p + 1);
      }
    }
  }

  lemma FirstOverflows(fold: Fold, r: Request, names: seq<string>, seen: set<string>)
    requires names != []
    ensures var lane := LaneFor(fold, r, names[0], seen).0;
            OverflowsFrom(fold, r, names, seen, 0) <==> names[0] in r.mandatory && Chars(lane.candidates) > lane.budget
  {
    hide LaneFor, Chars;
    assert seen + KeysBefore(fold, r, names, 0) == seen;
  }

  /** The call fails exactly for a negative budget, or when the new items of some
      mandatory lane exceed the lane's budget; otherwise it gives a packet. */
  lemma FailsIff(fold: Fold, r: Request, names: seq<string>)
    requires names == LaneNames(r)
    ensures var out := Compile(fold, r);
            && (out.NegativeBudget? <==> exists i :: 0 <= i < |r.budgets| && r.budgets[i].1 < 0)
            && (out.MandatoryOverflow? <==> !out.NegativeBudget? && exists p :: 0 <= p < |names| && Overflows(fold, r, names, p))
  {
    hide CompileFrom, LaneNames, LaneFor, KeysBefore, Chars, CandidatesAt, BudgetOf;
    NoNegative(r.budgets);
    CompileFailsIff(fold, r, names, {});
    forall p | 0 <= p < |names|
      ensures OverflowsFrom(fold, r, names, {}, p) <==> Overflows(fold, r, names, p)
    {
      LaneCandidates(fold, r, names, p);
      assert {} + KeysBefore(fold, r, names, p) == KeysBefore(fold, r, names, p);
    }
  }

  /** A lane's budget is what the caller said last of it, and without a word from
      the caller the default one. */
  lemma {:induction false} BudgetIs(budgets: seq<(string, int)>, name: string, i: nat)
    requires i < |budgets| && budgets[i].0 == name && forall j :: i < j < |budgets| ==> budgets[j].0 != name
    ensures BudgetOf(budgets, name) == budgets[i].1
  {
    if i < |budgets| - 1 {
      BudgetIs(budgets[..|budgets| - 1], name, i);
    }
  }

  lemma {:induction false} BudgetByDefault(budgets: seq<(string, int)>, name: string)
    requires forall j :: 0 <= j < |budgets| ==> budgets[j].0 != name
    ensures BudgetOf(budgets, name) == DefaultBudget(name)
  {
    if budgets != [] {
      BudgetByDefault(budgets[..|budgets| - 1], name);
    }
  }

  // ---- the items themselves

  /** The items of a lane that are not blank, collapsed. */
  function Inked(raws: seq<string>): seq<string> {
    if raws == [] then [] else (if Collapse(raws[0]) == "" then [] else [Collapse(raws[0])]) + Inked(raws[1..])
  }

  /** Item number i has a key that is neither in `seen` nor that of an earlier
      item. */
  ghost predicate IsFirst(fold: Fold, seen: set<string>, items: seq<string>, i: nat)
    requires i < |items|
  {
    KeyOf(fold, items[i]) !in seen && forall j :: 0 <= j < i ==> KeyOf(fold, items[j]) != KeyOf(fold, items[i])
  }

  ghost predicate FirstsAreIn(fold: Fold, seen: set<string>, items: seq<string>, out: seq<string>) {
    forall i :: 0 <= i < |items| && IsFirst(fold, seen, items, i) ==> items[i] in out
  }

  lemma {:induction false} SubsequenceOfCons(a: seq<string>, x: string, b: seq<string>)
    requires Subsequence(a, b)
    ensures Subsequence(a, [x] + b) && Subsequence([x] + a, [x] + b)
  {
    assert ([x] + b)[1..] == b && ([x] + a)[1..] == a;
  }

  lemma {:induction false} GatherItems(fold: Fold, g: Gathered, raws: seq<string>)
    ensures var end := Gather(fold, g, raws);
            && g.candidates <= end.candidates
            && Subsequence(end.candidates[|g.candidates|..], Inked(raws))
            && end.inputChars == g.inputChars + Chars(Inked(raws))
            && FirstsAreIn(fold, g.seen, Inked(raws), end.candidates)
    decreases |raws|
  {
    hide KeyOf, Collapse, Subsequence, FirstsAreIn;
    if raws == [] {
      NoItems(fold, g);
    } else {
      var item, g1, rest := Collapse(raws[0]), GatherOne(fold, g, raws[0]), Inked(raws[1..]);
      GatherItems(fold, g1, raws[1..]);
      var end := Gather(fold, g, raws);
      if item == "" {
        assert [] + rest == rest;
      } else {
        assert Inked(raws) == [item] + rest;
        CharsOfCons(item, rest);
        if KeyOf(fold, item) !in g.seen {
          assert end.candidates[|g.candidates|] == item;
        }
        FirstsOfCons(fold, g.seen, g1.seen, item, rest, end.candidates);
        SubsequenceOfCons(end.candidates[|g1.candidates|..], item, rest);
        if KeyOf(fold, item) !in g.seen {
          assert end.candidates[|g.candidates|..] == [item] + end.candidates[|g1.candidates|..];
        }
      }
    }
  }

  lemma {:induction false} CharsOfCons(item: string, rest: seq<string>)
    ensures Chars([item] + rest) == |item| + Chars(rest)
  {
    assert ([item] + rest)[1..] == rest;
  }

  lemma NoItems(fold: Fold, g: Gathered)
    ensures Subsequence(g.candidates[|g.candidates|..], []) && FirstsAreIn(fold, g.seen, [], g.candidates)
  {
  }

  lemma FirstOfTail(fold: Fold, seen: set<string>, item: string, rest: seq<string>, i: nat)
    requires i < |rest| && IsFirst(fold, seen, [item] + rest, i + 1)
    ensures IsFirst(fold, seen + {KeyOf(fold, item)}, rest, i) && IsFirst(fold, seen, rest, i)
  {
    hide KeyOf;
    var items := [item] + rest;
    assert items[0] == item && items[i + 1] == rest[i];
    forall j | 0 <= j < i
      ensures KeyOf(fold, rest[j]) != KeyOf(fold, rest[i])
    {
      assert items[j + 1] == rest[j];
    }
  }

  lemma FirstsOfCons(fold: Fold, seen: set<string>, seen': set<string>, item: string, rest: seq<string>, out: seq<string>)
    requires seen' == seen + {KeyOf(fold, item)} || (KeyOf(fold, item) in seen && seen' == seen)
    requires FirstsAreIn(fold, seen', rest, out) && (KeyOf(fold, item) !in seen ==> item in out)
    ensures FirstsAreIn(fold, seen, [item] + rest, out)
  {
    hide KeyOf;
    var items := [item] + rest;
    forall i | 0 <= i < |items| && IsFirst(fold, seen, items, i)
      ensures items[i] in out
    {
      if i > 0 {
        FirstOfTail(fold, seen, item, rest, i - 1);
        assert items[i] == rest[i - 1];
      }
    }
  }

  /** What the candidates of a lane are: its own items, collapsed, in their order,
      the first of each key that no earlier lane has; and the characters counted
      are those of all its items. */
  lemma {:induction false} LaneItems(fold: Fold, r: Request, names: seq<string>, p: nat)
    requires Compile(fold, r).Packet? && names == LaneNames(r) && p < |names|
    ensures p < |Compile(fold, r).lanes|
    ensures var lane := Compile(fold, r).lanes[p];
            && lane.raw == RawOf(r.lanes, names[p])
            && Subsequence(lane.candidates, Inked(lane.raw)) && lane.inputChars == Chars(Inked(lane.raw))
            && FirstsAreIn(fold, KeysBefore(fold, r, names, p), Inked(lane.raw), lane.candidates)
  {
    hide CompileFrom, Gather, LaneNames, KeysBefore, RawOf, Chars, Subsequence, Inked, FirstsAreIn, BudgetOf, Pack;
    CompiledLane(fold, r, names, {}, p);
    var seen := KeysBefore(fold, r, names, p);
    assert {} + seen == seen;
    var raw, g0 := RawOf(r.lanes, names[p]), Gathered([], 0, 0, seen);
    GatherItems(fold, g0, raw);
    var end := Gather(fold, g0, raw);
    assert end.candidates[|g0.candidates|..] == end.candidates;
  }

  /** One word in an optional lane without budget and again in a mandatory lane
      after it. */
  function HiddenRequest(word: string): Request {
    Request([("notes", [word]), ("mandatory", [word])], [("notes", 0)], ["notes", "mandatory"], {"mandatory"})
  }

  /** Lane order matters: an optional lane that drops an item keeps its copy in a
      later mandatory lane out of the packet, and the call does not fail. */
  lemma OptionalLaneHidesMandatory(fold: Fold, word: string)
    requires IsWord(word)
    ensures Compile(fold, HiddenRequest(word)).Packet?
    ensures !InPacket(fold, Compile(fold, HiddenRequest(word)).lanes, KeyOf(fold, word))
  {
    var r := HiddenRequest(word);
    var key := KeyOf(fold, word);
    HiddenNames(word);
    WordsOfOne(word);
    assert Collapse(word) == word;
    assert r.lanes[1..] == [("mandatory", [word])];
    assert r.budgets[..0] == [] && FirstNegative(r.budgets[1..]) == -1;
    HiddenNotes(fold, word);
    HiddenMandatory(fold, word);
    var notes := LaneFor(fold, r, "notes", {}).0;
    var mandatory := LaneFor(fold, r, "mandatory", {key}).0;
    assert ["notes", "mandatory"][1..] == ["mandatory"] && ["mandatory"][1..] == [];
    assert CompileFrom(fold, r, [], {key}) == Packet([]);
    assert CompileFrom(fold, r, ["mandatory"], {key}) == Packet([mandatory] + []);
    assert CompileFrom(fold, r, ["notes", "mandatory"], {}) == Packet([notes] + ([mandatory] + []));
  }

  lemma HiddenNames(word: string)
    ensures LaneNames(HiddenRequest(word)) == ["notes", "mandatory"]
  {
    var r := HiddenRequest(word);
    assert r.lanes[1..] == [("mandatory", [word])] && r.lanes[1..][1..] == [];
    var none: seq<(string, seq<string>)> := r.lanes[1..][1..];
    assert none == [] && NamesOf(none) == [];
    assert NamesOf(r.lanes[1..]) == ["mandatory"] + NamesOf(none) == ["mandatory"];
    assert r.lanes[0].0 == "notes" && NamesOf(r.lanes) == [r.lanes[0].0] + NamesOf(r.lanes[1..]);
    var names := ["notes", "mandatory", "notes", "mandatory"];
    assert r.order + NamesOf(r.lanes) == names;
    assert names[1..] == ["mandatory", "notes", "mandatory"] && names[1..][1..] == ["notes", "mandatory"];
    assert names[1..][1..][1..] == ["mandatory"] && ["mandatory"][1..] == [];
    assert |"notes"| != |"mandatory"|;
    var both := {"notes"} + {"mandatory"};
    assert {} + {"notes"} == {"notes"};
    assert Fresh(["mandatory"], both) == [] && Fresh(["notes", "mandatory"], both) == [];
    assert Fresh(names[1..], {"notes"}) == ["mandatory"] + [];
  }

  lemma HiddenNotes(fold: Fold, word: string)
    requires IsWord(word) && Collapse(word) == word
    ensures LaneFor(fold, HiddenRequest(word), "notes", {}).0.selected == []
    ensures LaneFor(fold, HiddenRequest(word), "notes", {}).1 == {KeyOf(fold, word)}
  {
    var r := HiddenRequest(word);
    assert RawOf(r.lanes, "notes") == [word] && BudgetOf(r.budgets, "notes") == 0;
    assert [word][1..] == [];
    var g0 := Gathered([], 0, 0, {});
    assert Gather(fold, g0, [word]) == GatherOne(fold, g0, word);
    assert [] + [word] == [word];
    assert Pack([], 0, 0) == [] && Pack([word], 0, 0) == [];
  }

  lemma HiddenMandatory(fold: Fold, word: string)
    requires IsWord(word) && Collapse(word) == word
    ensures LaneFor(fold, HiddenRequest(word), "mandatory", {KeyOf(fold, word)}).0.selected == []
    ensures LaneFor(fold, HiddenRequest(word), "mandatory", {KeyOf(fold, word)}).0.candidates == []
    ensures LaneFor(fold, HiddenRequest(word), "mandatory", {KeyOf(fold, word)}).0.budget == 12000
  {
    var r, seen := HiddenRequest(word), {KeyOf(fold, word)};
    assert |"notes"| != |"mandatory"|;
    assert r.lanes[1..] == [("mandatory", [word])] && RawOf(r.lanes, "mandatory") == RawOf(r.lanes[1..], "mandatory") == [word];
    assert r.budgets[..0] == [] && BudgetOf(r.budgets, "mandatory") == BudgetOf([], "mandatory");
    assert [word][1..] == [];
    var g0 := Gathered([], 0, 0, seen);
    assert Gather(fold, g0, [word]) == GatherOne(fold, g0, word);
  }
}
