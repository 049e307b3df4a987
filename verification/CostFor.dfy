/** Apportioned cost (terminal_mcp/ai_usage_index.py, cost_for), in exact
    arithmetic and before the final rounding: each session's reported cost is
    split by the share of its tokens that lies in the selected range. */
module CostFor {
  import opened Options

  type Session = string

  /** A row of usage_events; `tokens` is the sum of its four token columns. */
  datatype Event = Event(
    id: string, ts: real, node: string, agent: string, model: Option<string>, project: Option<string>,
    session: Session, tokens: int)

  /** The filters of the dashboard; an empty string filters nothing. */
  datatype Filter = Filter(
    since: Option<real>, until: Option<real>, node: string, agent: string, model: string, project: string,
    session: string)

  const NO_FILTER := Filter(None, None, "", "", "", "", "")

  /** _where: every given filter has to hold; both ends of a range belong to it. */
  predicate Matches(f: Filter, e: Event) {
    && (f.since.Some? ==> e.ts >= f.since.value)
    && (f.until.Some? ==> e.ts <= f.until.value)
    && (f.node == "" || e.node == f.node)
    && (f.agent == "" || e.agent == f.agent)
    && (f.model == "" || e.model == Some(f.model))
    && (f.project == "" || e.project == Some(f.project))
    && (f.session == "" || e.session == f.session)
  }

  type Selection = Event -> bool

  function Where(f: Filter): Selection { e => Matches(f, e) }

  /** SELECT ... FROM usage_events WHERE the selection holds. */
  function Select(es: seq<Event>, selects: Selection): seq<Event> {
    if es == [] then []
    else if selects(Last(es)) then Select(Front(es), selects) + [Last(es)]
    else Select(Front(es), selects)
  }

  lemma {:induction false} SelectIs(es: seq<Event>, selects: Selection, e: Event)
    ensures e in Select(es, selects) <==> e in es && selects(e)
  {
    if es != [] {
      SelectIs(Front(es), selects, e);
      assert es == Front(es) + [Last(es)];
    }
  }

  /** Each filter of _where on its own, and none at all. */
  lemma SingleFilters(e: Event, t: real, name: string)
    requires name != ""
    ensures Where(NO_FILTER)(e)
    ensures Where(NO_FILTER.(since := Some(t)))(e) <==> t <= e.ts
    ensures Where(NO_FILTER.(until := Some(t)))(e) <==> e.ts <= t
    ensures Where(NO_FILTER.(node := name))(e) <==> e.node == name
    ensures Where(NO_FILTER.(agent := name))(e) <==> e.agent == name
    ensures Where(NO_FILTER.(model := name))(e) <==> e.model == Some(name)
    ensures Where(NO_FILTER.(project := name))(e) <==> e.project == Some(name)
    ensures Where(NO_FILTER.(session := name))(e) <==> e.session == name
  {
  }

  /** Filters given together all have to hold. */
  lemma FiltersCombine(f: Filter, e: Event)
    ensures Where(f)(e) <==>
            && Where(NO_FILTER.(since := f.since))(e) && Where(NO_FILTER.(until := f.until))(e)
            && Where(NO_FILTER.(node := f.node))(e) && Where(NO_FILTER.(agent := f.agent))(e)
            && Where(NO_FILTER.(model := f.model))(e) && Where(NO_FILTER.(project := f.project))(e)
            && Where(NO_FILTER.(session := f.session))(e)
  {
  }

  /** What the CLI reported, for the sessions that have a cost. */
  type Costs = map<Session, real>

  /** SELECT SUM(tokens) ... GROUP BY agent_session_id, for one session. */
  function TokensOf(events: seq<Event>, s: Session): int {
    if events == [] then 0
    else TokensOf(Front(events), s) + if Last(events).session == s then Last(events).tokens else 0
  }

  function Front(events: seq<Event>): seq<Event> requires events != [] { events[..|events| - 1] }
  function Last(events: seq<Event>): Event requires events != [] { events[|events| - 1] }

  /** The groups of a selection, each once. */
  function SessionsOf(events: seq<Event>): seq<Session> {
    if events == [] then []
    else
      var before := SessionsOf(Front(events));
      if Last(events).session in before then before else before + [Last(events).session]
  }

  predicate Priced(costs: Costs, all: seq<Event>, s: Session) { s in costs && TokensOf(all, s) > 0 }

  datatype Cost = Cost(total: real, priced: nat, unpriced: int)

  /** One turn of the loop: a group of `tokens` tokens. */
  function AddGroup(costs: Costs, all: seq<Event>, c: Cost, s: Session, tokens: int): Cost {
    if Priced(costs, all, s) then
      Cost(c.total + costs[s] * (tokens as real / TokensOf(all, s) as real), c.priced + 1, c.unpriced)
    else c.(unpriced := c.unpriced + tokens)
  }

  function Groups(costs: Costs, all: seq<Event>, selected: seq<Event>, sessions: seq<Session>): Cost {
    if sessions == [] then Cost(0.0, 0, 0)
    else
      var s := sessions[|sessions| - 1];
      AddGroup(costs, all, Groups(costs, all, selected, sessions[..|sessions| - 1]), s, TokensOf(selected, s))
  }

  function CostOf(costs: Costs, all: seq<Event>, selected: seq<Event>): Cost {
    Groups(costs, all, selected, SessionsOf(selected))
  }

  method ComputeCost(costs: Costs, all: seq<Event>, selected: seq<Event>) returns (c: Cost)
    ensures c == CostOf(costs, all, selected)
  {
    var sessions := SessionsOf(selected);
    var total, priced, unpriced := 0.0, 0, 0;
    for i := 0 to |sessions|
      invariant Cost(total, priced, unpriced) == Groups(costs, all, selected, sessions[..i])
    {
      assert sessions[..i + 1][..i] == sessions[..i];
      var tokens, whole := TokensOf(selected, sessions[i]), TokensOf(all, sessions[i]);
      if sessions[i] !in costs || whole <= 0 {
        unpriced := unpriced + tokens;
        continue;
      }
      total, priced := total + costs[sessions[i]] * (tokens as real / whole as real), priced + 1;
    }
    assert sessions[..|sessions|] == sessions;
    c := Cost(total, priced, unpriced);
  }

  // ----------------------------------------------------- one event at a time

  /** What `tokens` tokens of session s are worth. */
  function Share(costs: Costs, all: seq<Event>, s: Session, tokens: int): real {
    if s in costs && TokensOf(all, s) > 0 then costs[s] * (tokens as real / TokensOf(all, s) as real) else 0.0
  }

  function Unpriced(costs: Costs, all: seq<Event>, s: Session, tokens: int): int {
    if s in costs && TokensOf(all, s) > 0 then 0 else tokens
  }

  function EventShares(costs: Costs, all: seq<Event>, es: seq<Event>): real {
    if es == [] then 0.0 else EventShares(costs, all, Front(es)) + Share(costs, all, Last(es).session, Last(es).tokens)
  }

  function EventUnpriced(costs: Costs, all: seq<Event>, es: seq<Event>): int {
    if es == [] then 0 else EventUnpriced(costs, all, Front(es)) + Unpriced(costs, all, Last(es).session, Last(es).tokens)
  }

  lemma DivisionAdds(a: real, b: real, w: real, c: real)
    requires w != 0.0
    ensures c * ((a + b) / w) == c * (a / w) + c * (b / w)
  {
    var x, y := a / w, b / w;
    assert x * w == a && y * w == b;
    assert (x + y) * w == a + b;
    assert (a + b) / w == x + y;
  }

  lemma ShareAdds(costs: Costs, all: seq<Event>, s: Session, a: int, b: int)
    ensures Share(costs, all, s, a + b) == Share(costs, all, s, a) + Share(costs, all, s, b)
    ensures Share(costs, all, s, 0) == 0.0
  {
    if Priced(costs, all, s) {
      DivisionAdds(a as real, b as real, TokensOf(all, s) as real, costs[s]);
      assert (a + b) as real == a as real + b as real;
      DivisionAdds(0.0, 0.0, TokensOf(all, s) as real, costs[s]);
    }
  }

  ghost predicate Distinct(s: seq<Session>) { forall i, j :: 0 <= i < j < |s| ==> s[i] != s[j] }

  lemma {:induction false} SessionsAre(es: seq<Event>)
    ensures Distinct(SessionsOf(es))
    ensures forall s :: s in SessionsOf(es) <==> exists i :: 0 <= i < |es| && es[i].session == s
    ensures forall s :: s !in SessionsOf(es) ==> TokensOf(es, s) == 0
  {
    if es != [] {
      SessionsAre(Front(es));
      forall s
        ensures s in SessionsOf(es) <==> exists i :: 0 <= i < |es| && es[i].session == s
      {
        if i :| 0 <= i < |es| && es[i].session == s {
          assert i < |es| - 1 ==> Front(es)[i].session == s;
        }
        if s in SessionsOf(es) && s != Last(es).session {
          var i :| 0 <= i < |Front(es)| && Front(es)[i].session == s;
          assert es[i].session == s;
        }
      }
    }
  }

  /** One more event adds its worth to its own group and to no other. */
  lemma {:induction false} GroupsOfOneMore(costs: Costs, all: seq<Event>, es: seq<Event>, sessions: seq<Session>)
    requires es != [] && Distinct(sessions)
    ensures var e := Last(es);
            var before, after := Groups(costs, all, Front(es), sessions), Groups(costs, all, es, sessions);
            && after.total == before.total + (if e.session in sessions then Share(costs, all, e.session, e.tokens) else 0.0)
            && after.unpriced == before.unpriced + (if e.session in sessions then Unpriced(costs, all, e.session, e.tokens) else 0)
  {
    hide Priced, SessionsOf;
    if sessions != [] {
      var s, rest := sessions[|sessions| - 1], sessions[..|sessions| - 1];
      GroupsOfOneMore(costs, all, es, rest);
      ShareAdds(costs, all, s, TokensOf(Front(es), s), Last(es).tokens);
      assert sessions == rest + [s];
      GroupIsShare(costs, all, Groups(costs, all, Front(es), rest), s, TokensOf(Front(es), s));
      GroupIsShare(costs, all, Groups(costs, all, es, rest), s, TokensOf(es, s));
    }
  }

  lemma GroupIsShare(costs: Costs, all: seq<Event>, c: Cost, s: Session, tokens: int)
    ensures AddGroup(costs, all, c, s, tokens).total == c.total + Share(costs, all, s, tokens)
    ensures AddGroup(costs, all, c, s, tokens).unpriced == c.unpriced + Unpriced(costs, all, s, tokens)
  {
  }

  /** An empty group costs nothing. */
  lemma {:induction false} GroupsOfNewSession(costs: Costs, all: seq<Event>, es: seq<Event>, sessions: seq<Session>, s: Session)
    requires TokensOf(es, s) == 0
    ensures Groups(costs, all, es, sessions + [s]).total == Groups(costs, all, es, sessions).total
    ensures Groups(costs, all, es, sessions + [s]).unpriced == Groups(costs, all, es, sessions).unpriced
  {
    assert (sessions + [s])[..|sessions|] == sessions;
    GroupIsShare(costs, all, Groups(costs, all, es, sessions), s, 0);
    ShareAdds(costs, all, s, 0, 0);
  }

  /** The grouped loop computes the sum over the single events. */
  lemma {:induction false} GroupedIsPerEvent(costs: Costs, all: seq<Event>, es: seq<Event>)
    ensures CostOf(costs, all, es).total == EventShares(costs, all, es)
    ensures CostOf(costs, all, es).unpriced == EventUnpriced(costs, all, es)
  {
    hide Share, Unpriced, AddGroup, Groups;
    if es == [] {
      NoGroups(costs, all, es);
    } else {
      GroupedIsPerEvent(costs, all, Front(es));
      SessionsAre(Front(es));
      SessionsAre(es);
      GroupsOfOneMore(costs, all, es, SessionsOf(es));
      if Last(es).session !in SessionsOf(Front(es)) {
        GroupsOfNewSession(costs, all, Front(es), SessionsOf(Front(es)), Last(es).session);
      }
      assert SessionsOf(es)[|SessionsOf(es)| - 1] in SessionsOf(es);
      assert Last(es).session in SessionsOf(es);
    }
  }

  /** The sessions among some that have a cost and positive tokens. */
  function WithCost(costs: Costs, all: seq<Event>, sessions: seq<Session>): set<Session> {
    set s | s in sessions && s in costs && TokensOf(all, s) > 0
  }

  lemma {:induction false} CountedIfPriced(costs: Costs, all: seq<Event>, c: Cost, s: Session, tokens: int)
    ensures AddGroup(costs, all, c, s, tokens).priced == c.priced + if s in costs && TokensOf(all, s) > 0 then 1 else 0
  {
    hide TokensOf;
  }

  lemma {:induction false} OneMoreWithCost(costs: Costs, all: seq<Event>, rest: seq<Session>, s: Session)
    requires s !in rest
    ensures |WithCost(costs, all, rest + [s])| == |WithCost(costs, all, rest)| + if s in costs && TokensOf(all, s) > 0 then 1 else 0
  {
    hide TokensOf;
    var more := if s in costs && TokensOf(all, s) > 0 then {s} else {};
    assert WithCost(costs, all, rest + [s]) == WithCost(costs, all, rest) + more;
    assert WithCost(costs, all, rest) !! more;
  }

  lemma {:induction false} PricedGroups(costs: Costs, all: seq<Event>, es: seq<Event>, sessions: seq<Session>)
    requires Distinct(sessions)
    ensures Groups(costs, all, es, sessions).priced == |WithCost(costs, all, sessions)|
  {
    hide TokensOf, AddGroup, WithCost;
    if sessions == [] {
      NoneWithCost(costs, all);
    } else {
      var s, rest := sessions[|sessions| - 1], sessions[..|sessions| - 1];
      PricedGroups(costs, all, es, rest);
      assert sessions == rest + [s];
      OneMoreWithCost(costs, all, rest, s);
      CountedIfPriced(costs, all, Groups(costs, all, es, rest), s, TokensOf(es, s));
    }
  }

  lemma NoneWithCost(costs: Costs, all: seq<Event>)
    ensures WithCost(costs, all, []) == {}
  {
  }

  /** The sessions with a selected event, a cost, and positive tokens over all
      events. */
  function PricedSessions(costs: Costs, all: seq<Event>, es: seq<Event>): set<Session> {
    set i | 0 <= i < |es| && es[i].session in costs && TokensOf(all, es[i].session) > 0 :: es[i].session
  }

  lemma PricedIs(costs: Costs, all: seq<Event>, es: seq<Event>)
    ensures CostOf(costs, all, es).priced == |PricedSessions(costs, all, es)|
  {
    hide Groups, TokensOf, SessionsOf;
    SessionsAre(es);
    PricedGroups(costs, all, es, SessionsOf(es));
    forall s
      ensures s in WithCost(costs, all, SessionsOf(es)) <==> s in PricedSessions(costs, all, es)
    {
      assert s in SessionsOf(es) <==> exists i :: 0 <= i < |es| && es[i].session == s;
    }
    assert WithCost(costs, all, SessionsOf(es)) == PricedSessions(costs, all, es);
  }

  lemma {:induction false} NoGroups(costs: Costs, all: seq<Event>, es: seq<Event>)
    ensures Groups(costs, all, es, []) == Cost(0.0, 0, 0)
  {
  }

  // -------------------------------------------------------------- conservation

  /** How many of the selections take the event. */
  function Hits(parts: seq<Selection>, e: Event): nat {
    if parts == [] then 0
    else Hits(parts[..|parts| - 1], e) + if parts[|parts| - 1](e) then 1 else 0
  }

  /** What the calls for the single selections add up to. */
  function TotalOf(costs: Costs, all: seq<Event>, parts: seq<Selection>): real {
    if parts == [] then 0.0
    else
      var n := |parts| - 1;
      TotalOf(costs, all, parts[..n]) + CostOf(costs, all, Select(all, parts[n])).total
  }

  function UnpricedOf(costs: Costs, all: seq<Event>, parts: seq<Selection>): int {
    if parts == [] then 0
    else
      var n := |parts| - 1;
      UnpricedOf(costs, all, parts[..n]) + CostOf(costs, all, Select(all, parts[n])).unpriced
  }

  function SharesOf(costs: Costs, all: seq<Event>, es: seq<Event>, parts: seq<Selection>): real {
    if parts == [] then 0.0
    else
      var n := |parts| - 1;
      SharesOf(costs, all, es, parts[..n]) + EventShares(costs, all, Select(es, parts[n]))
  }

  function UnpricedShares(costs: Costs, all: seq<Event>, es: seq<Event>, parts: seq<Selection>): int {
    if parts == [] then 0
    else
      var n := |parts| - 1;
      UnpricedShares(costs, all, es, parts[..n]) + EventUnpriced(costs, all, Select(es, parts[n]))
  }

  /** Every event as often as it is selected. */
  function SharesByHits(costs: Costs, all: seq<Event>, es: seq<Event>, parts: seq<Selection>): real {
    if es == [] then 0.0
    else
      var e := Last(es);
      SharesByHits(costs, all, Front(es), parts) + Share(costs, all, e.session, e.tokens) * (Hits(parts, e) as real)
  }

  function UnpricedByHits(costs: Costs, all: seq<Event>, es: seq<Event>, parts: seq<Selection>): int {
    if es == [] then 0
    else
      var e := Last(es);
      UnpricedByHits(costs, all, Front(es), parts) + Unpriced(costs, all, e.session, e.tokens) * Hits(parts, e)
  }

  lemma {:induction false} PartsPerEvent(costs: Costs, all: seq<Event>, parts: seq<Selection>)
    ensures TotalOf(costs, all, parts) == SharesOf(costs, all, all, parts)
    ensures UnpricedOf(costs, all, parts) == UnpricedShares(costs, all, all, parts)
  {
    hide CostOf, Select, EventShares, EventUnpriced;
    if parts != [] {
      PartsPerEvent(costs, all, parts[..|parts| - 1]);
      GroupedIsPerEvent(costs, all, Select(all, parts[|parts| - 1]));
    }
  }

  lemma {:induction false} SelectLast(costs: Costs, all: seq<Event>, es: seq<Event>, selects: Selection)
    requires es != []
    ensures EventShares(costs, all, Select(es, selects)) == EventShares(costs, all, Select(Front(es), selects))
              + (if selects(Last(es)) then Share(costs, all, Last(es).session, Last(es).tokens) else 0.0)
    ensures EventUnpriced(costs, all, Select(es, selects)) == EventUnpriced(costs, all, Select(Front(es), selects))
              + (if selects(Last(es)) then Unpriced(costs, all, Last(es).session, Last(es).tokens) else 0)
  {
    hide Share, Unpriced;
    var before := Select(Front(es), selects);
    assert Front(before + [Last(es)]) == before;
  }

  lemma OneMoreHit(x: real, u: int, n: nat, hit: bool)
    ensures x * ((n + if hit then 1 else 0) as real) == x * (n as real) + if hit then x else 0.0
    ensures u * (n + if hit then 1 else 0) == u * n + if hit then u else 0
  {
    assert (n + 1) as real == n as real + 1.0;
  }

  /** The last event counts once in every selection that takes it. */
  lemma {:induction false} LastCountsPerHit(costs: Costs, all: seq<Event>, es: seq<Event>, parts: seq<Selection>)
    requires es != []
    ensures SharesOf(costs, all, es, parts) == SharesOf(costs, all, Front(es), parts)
              + Share(costs, all, Last(es).session, Last(es).tokens) * (Hits(parts, Last(es)) as real)
    ensures UnpricedShares(costs, all, es, parts) == UnpricedShares(costs, all, Front(es), parts)
              + Unpriced(costs, all, Last(es).session, Last(es).tokens) * Hits(parts, Last(es))
  {
    hide Share, Unpriced, Select, EventShares, EventUnpriced, Front, Last;
    if parts != [] {
      var n, e := |parts| - 1, Last(es);
      LastCountsPerHit(costs, all, es, parts[..n]);
      SelectLast(costs, all, es, parts[n]);
      OneMoreHit(Share(costs, all, e.session, e.tokens), Unpriced(costs, all, e.session, e.tokens), Hits(parts[..n], e), parts[n](e));
    }
  }

  lemma {:induction false} NothingSelected(costs: Costs, all: seq<Event>, parts: seq<Selection>)
    ensures SharesOf(costs, all, [], parts) == 0.0 && UnpricedShares(costs, all, [], parts) == 0
  {
    if parts != [] {
      NothingSelected(costs, all, parts[..|parts| - 1]);
    }
  }

  lemma {:induction false} SharesAreByHits(costs: Costs, all: seq<Event>, es: seq<Event>, parts: seq<Selection>)
    ensures SharesOf(costs, all, es, parts) == SharesByHits(costs, all, es, parts)
    ensures UnpricedShares(costs, all, es, parts) == UnpricedByHits(costs, all, es, parts)
  {
    hide Share, Unpriced, Hits, Select;
    if es == [] {
      NothingSelected(costs, all, parts);
    } else {
      SharesAreByHits(costs, all, Front(es), parts);
      LastCountsPerHit(costs, all, es, parts);
    }
  }

  /** Whatever the selections, what they cost together is every single event's
      share as often as it is selected; likewise the unpriced tokens. */
  lemma {:induction false} EveryHitIsPaidOnce(costs: Costs, all: seq<Event>, parts: seq<Selection>)
    ensures TotalOf(costs, all, parts) == SharesByHits(costs, all, all, parts)
    ensures UnpricedOf(costs, all, parts) == UnpricedByHits(costs, all, all, parts)
  {
    PartsPerEvent(costs, all, parts);
    SharesAreByHits(costs, all, all, parts);
  }

  lemma {:induction false} SingleHits(costs: Costs, all: seq<Event>, es: seq<Event>, parts: seq<Selection>)
    requires forall i :: 0 <= i < |es| ==> Hits(parts, es[i]) == 1
    ensures SharesByHits(costs, all, es, parts) == EventShares(costs, all, es)
    ensures UnpricedByHits(costs, all, es, parts) == EventUnpriced(costs, all, es)
  {
    hide Share, Unpriced, Hits;
    if es != [] {
      SingleHits(costs, all, Front(es), parts);
      assert Hits(parts, Last(es)) == 1;
    }
  }

  /** What the CLI reported for the sessions that have events, a cost, and
      positive tokens. */
  function Reported(costs: Costs, all: seq<Event>, sessions: seq<Session>): real {
    if sessions == [] then 0.0
    else
      var s := sessions[|sessions| - 1];
      Reported(costs, all, sessions[..|sessions| - 1]) + if s in costs && TokensOf(all, s) > 0 then costs[s] else 0.0
  }

  lemma {:induction false} WholeGroupsAreReported(costs: Costs, all: seq<Event>, sessions: seq<Session>)
    ensures Groups(costs, all, all, sessions).total == Reported(costs, all, sessions)
  {
    if sessions != [] {
      WholeGroupsAreReported(costs, all, sessions[..|sessions| - 1]);
      var s := sessions[|sessions| - 1];
      if Priced(costs, all, s) {
        var w := TokensOf(all, s) as real;
        assert w / w == 1.0;
      }
    }
  }

  /** The full range sums back to exactly what was reported. */
  lemma {:induction false} FullRangeIsReported(costs: Costs, all: seq<Event>)
    ensures CostOf(costs, all, all).total == Reported(costs, all, SessionsOf(all))
  {
    WholeGroupsAreReported(costs, all, SessionsOf(all));
  }

  /** However the events are split over disjoint selections, by time, model,
      project or anything else about a row, the costs of the parts sum to what
      was reported, and their unpriced tokens to those of the full range. */
  lemma {:induction false} PartitionConserves(costs: Costs, all: seq<Event>, parts: seq<Selection>)
    requires forall i :: 0 <= i < |all| ==> Hits(parts, all[i]) == 1
    ensures TotalOf(costs, all, parts) == Reported(costs, all, SessionsOf(all))
    ensures UnpricedOf(costs, all, parts) == CostOf(costs, all, all).unpriced
  {
    EveryHitIsPaidOnce(costs, all, parts);
    SingleHits(costs, all, all, parts);
    GroupedIsPerEvent(costs, all, all);
    FullRangeIsReported(costs, all);
  }

  // ------------------------------------------------------------- touching ranges

  function Until(t: real): Selection { Where(NO_FILTER.(until := Some(t))) }
  function Since(t: real): Selection { Where(NO_FILTER.(since := Some(t))) }
  function During(a: real, b: real): Selection { Where(NO_FILTER.(since := Some(a), until := Some(b))) }

  lemma {:induction false} SplitShares(costs: Costs, all: seq<Event>, es: seq<Event>, t: real)
    ensures EventShares(costs, all, Select(es, Until(t))) + EventShares(costs, all, Select(es, Since(t)))
            == EventShares(costs, all, es) + EventShares(costs, all, Select(es, During(t, t)))
  {
    hide Share;
    if es != [] {
      SplitShares(costs, all, Front(es), t);
      SelectLast(costs, all, es, Until(t));
      SelectLast(costs, all, es, Since(t));
      SelectLast(costs, all, es, During(t, t));
    }
  }

  /** Both ends of a range belong to it: of two ranges that meet at t, the
      events of that very moment are paid in both. */
  lemma {:induction false} TouchingRangesPayTwice(costs: Costs, all: seq<Event>, t: real)
    ensures CostOf(costs, all, Select(all, Until(t))).total + CostOf(costs, all, Select(all, Since(t))).total
            == Reported(costs, all, SessionsOf(all)) + CostOf(costs, all, Select(all, During(t, t))).total
  {
    hide *;
    SplitShares(costs, all, all, t);
    GroupedIsPerEvent(costs, all, Select(all, Until(t)));
    GroupedIsPerEvent(costs, all, Select(all, Since(t)));
    GroupedIsPerEvent(costs, all, Select(all, During(t, t)));
    GroupedIsPerEvent(costs, all, all);
    FullRangeIsReported(costs, all);
  }
}
