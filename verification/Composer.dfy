/** What is sitting in the agent's composer: the bottom-up classifier over an
    ANSI pane capture (terminal_mcp/composer.py, read_composer). */
module Composer {
  import opened Options
  import opened PyText
  import opened Ansi

  datatype State = Draft | Empty | Unknown

  datatype Snapshot = Snapshot(
    state: State, draft: string, ghostText: string, markerRow: Option<nat>, hasAttributes: bool)

  // ------------------------------------------------------------------ one row

  /** Unicode category Zs. */
  predicate IsSeparator(c: char) {
    var n := c as int;
    || n == 0x20 || n == 0xA0 || n == 0x1680 || 0x2000 <= n <= 0x200A
    || n == 0x202F || n == 0x205F || n == 0x3000
  }

  function PlainSpaces(s: string): (r: string)
    ensures |r| == |s|
  {
    seq(|s|, i requires 0 <= i < |s| => if IsSeparator(s[i]) then ' ' else s[i])
  }

  predicate IsMarker(c: char) {
    c == '\U{276F}' || c == '\U{203A}' || c == '\U{00BB}' || c == '>'
  }

  function LeadLen(s: string): (n: nat)
    ensures n <= |s|
  {
    if s != "" && (s[0] == ' ' || s[0] == '\t') then 1 + LeadLen(s[1..]) else 0
  }

  /** Where the content of a prompt row begins; None for any other row. */
  function ContentStart(plain: string): (r: Option<nat>)
    ensures r.Some? ==> r.value <= |plain|
  {
    var row := PlainSpaces(plain);
    var lead := LeadLen(row);
    if lead == |row| || !IsMarker(row[lead]) then None
    else if lead + 1 < |row| && (row[lead + 1] == ' ' || row[lead + 1] == '\t') then Some(lead + 2)
    else Some(lead + 1)
  }

  predicate IsRuleChar(c: char) {
    '\U{2500}' <= c <= '\U{257F}' || c == '-' || c == '_' || c == '='
  }

  /** A row of the composer frame. */
  predicate IsRule(plain: string) {
    var t := Strip(plain);
    |t| >= 8 && forall i :: 0 <= i < |t| ==> IsRuleChar(t[i])
  }

  predicate IsBlankRow(plain: string) { Strip(plain) == "" }

  /** A character with its dim flag. */
  type Cell = (char, bool)

  function Cells(text: string, dim: seq<bool>): (cs: seq<Cell>)
    requires |dim| == |text|
    ensures |cs| == |text|
  {
    seq(|text|, i requires 0 <= i < |text| => (text[i], dim[i]))
  }

  /** What the classifier asks of one parsed row: the cells after its marker
      (None when it has none), all its cells, whether it is part of a frame,
      whether it is blank, whether it carried SGR. */
  datatype Row = Row(content: Option<seq<Cell>>, cells: seq<Cell>, frame: bool, blank: bool, sgr: bool)

  function RowOf(p: Scan): Row
    requires |p.dim| == |p.plain|
  {
    var start := ContentStart(p.plain);
    Row(if start.Some? then Some(Cells(PlainSpaces(p.plain)[start.value..], p.dim[start.value..])) else None,
        Cells(p.plain, p.dim), IsRule(p.plain), IsBlankRow(p.plain), p.sawSgr)
  }

  // ------------------------------------------------------------- many rows

  function ParsedRow(text: string): Row { RowOf(ScanFrom(text, false)) }

  function ParseAll(rows: seq<string>): (ps: seq<Row>)
    ensures |ps| == |rows|
  {
    seq(|rows|, i requires 0 <= i < |rows| => ParsedRow(rows[i]))
  }

  /** The last marker row among the first `n`. */
  function BottomMarker(ps: seq<Row>, n: nat): (r: Option<nat>)
    requires n <= |ps|
    ensures r.Some? ==> r.value < n && ps[r.value].content.Some?
  {
    if n == 0 then None
    else if ps[n - 1].content.Some? then Some(n - 1)
    else BottomMarker(ps, n - 1)
  }

  predicate InBox(ps: seq<Row>, r: nat)
    requires r < |ps|
  {
    r > 0 && ps[r - 1].frame
  }

  predicate NothingBelow(ps: seq<Row>, r: nat) {
    forall i :: r < i < |ps| ==> ps[i].blank
  }

  /** A marker row is live inside a box, or with nothing visible below it. */
  predicate Live(ps: seq<Row>, r: nat)
    requires r < |ps|
  {
    InBox(ps, r) || NothingBelow(ps, r)
  }

  predicate EndsDraft(p: Row) { p.frame || p.content.Some? || p.blank }

  /** Wrapped rows of a boxed draft, each after one dim blank. */
  function Folded(ps: seq<Row>, i: nat): seq<Cell>
    decreases |ps| - i
  {
    if i >= |ps| || EndsDraft(ps[i]) then []
    else [(' ', true)] + ps[i].cells + Folded(ps, i + 1)
  }

  /** The cells of the composer whose marker is on row `r`. */
  function Region(ps: seq<Row>, r: nat): seq<Cell>
    requires r < |ps| && ps[r].content.Some?
  {
    ps[r].content.value + (if InBox(ps, r) then Folded(ps, r + 1) else [])
  }

  function Chars(cs: seq<Cell>): (s: string)
    ensures |s| == |cs|
  {
    seq(|cs|, i requires 0 <= i < |cs| => cs[i].0)
  }

  /** A visible character; one that is not dim. */
  predicate HasInk(cs: seq<Cell>) { exists i :: 0 <= i < |cs| && !IsSpace(cs[i].0) }
  predicate HasBrightInk(cs: seq<Cell>) { exists i :: 0 <= i < |cs| && !IsSpace(cs[i].0) && !cs[i].1 }

  function Judge(cs: seq<Cell>, hasAttributes: bool, row: nat): Snapshot {
    var text := Collapse(Chars(cs));
    if text == "" || !HasInk(cs) then Snapshot(Empty, "", "", Some(row), hasAttributes)
    else if !hasAttributes then Snapshot(Unknown, "", "", Some(row), false)
    else if !HasBrightInk(cs) then Snapshot(Empty, "", Collapse(text), Some(row), true)
    else Snapshot(Draft, Collapse(text), "", Some(row), true)
  }

  function Classify(ps: seq<Row>, hasAttributes: bool): Snapshot {
    match BottomMarker(ps, |ps|)
    case None => Snapshot(Unknown, "", "", None, hasAttributes)
    case Some(r) =>
      if !Live(ps, r) then Snapshot(Unknown, "", "", Some(r), hasAttributes)
      else Judge(Region(ps, r), hasAttributes, r)
  }

  predicate AnySgr(ps: seq<Row>) { exists i :: 0 <= i < |ps| && ps[i].sgr }

  function ReadComposer(rows: seq<string>, attributes: Option<bool>): Snapshot {
    if rows == [] then Snapshot(Unknown, "", "", None, false) else
      var ps := ParseAll(rows);
      Classify(ps, if attributes.Some? then attributes.value else AnySgr(ps))
  }

  // ------------------------------------------------------------------ methods

  method ParseRow(text: string) returns (row: Row)
    ensures row == ParsedRow(text)
  {
    var p := FaintMap(text);
    row := RowOf(p);
  }

  method ParseRows(rows: seq<string>) returns (ps: seq<Row>)
    ensures ps == ParseAll(rows)
  {
    ps := [];
    for i := 0 to |rows|
      invariant ps == ParseAll(rows)[..i]
    {
      var row := ParseRow(rows[i]);
      ps := ps + [row];
    }
  }

  method FoldRows(ps: seq<Row>, row: nat, first: seq<Cell>) returns (cells: seq<Cell>)
    requires row < |ps|
    ensures cells == first + Folded(ps, row + 1)
  {
    cells := first;
    var follow := row + 1;
    while follow < |ps| && !EndsDraft(ps[follow])
      invariant row < follow <= |ps|
      invariant first + Folded(ps, row + 1) == cells + Folded(ps, follow)
    {
      var more := [(' ', true)] + ps[follow].cells;
      assert cells + (more + Folded(ps, follow + 1)) == (cells + more) + Folded(ps, follow + 1);
      cells := cells + more;
      follow := follow + 1;
    }
    assert cells + [] == cells;
  }

  /** The loops of read_composer: parse every row, scan upwards for a marker, fold the
      wrapped rows of a boxed draft downwards. */
  method ReadComposerRows(rows: seq<string>, attributes: Option<bool>) returns (snap: Snapshot)
    ensures snap == ReadComposer(rows, attributes)
  {
    if rows == [] {
      return Snapshot(Unknown, "", "", None, false);
    }
    var ps := ParseRows(rows);
    snap := ScanUpwards(ps, if attributes.Some? then attributes.value else AnySgr(ps));
  }

  method ScanUpwards(ps: seq<Row>, hasAttributes: bool) returns (snap: Snapshot)
    ensures snap == Classify(ps, hasAttributes)
  {
    var row := |ps|;
    while row > 0
      invariant 0 <= row <= |ps|
      invariant BottomMarker(ps, row) == BottomMarker(ps, |ps|)
    {
      row := row - 1;
      if ps[row].content.None? {
        continue;
      }
      var inBox := row > 0 && ps[row - 1].frame;
      if !inBox && exists below :: row < below < |ps| && !ps[below].blank {
        return Snapshot(Unknown, "", "", Some(row), hasAttributes);
      }
      var cells := ps[row].content.value;
      if inBox {
        cells := FoldRows(ps, row, cells);
      } else {
        assert cells + [] == cells;
      }
      assert cells == Region(ps, row);
      var text := Collapse(Chars(cells));
      if text == "" || !HasInk(cells) {
        return Snapshot(Empty, "", "", Some(row), hasAttributes);
      }
      if !hasAttributes {
        return Snapshot(Unknown, "", "", Some(row), false);
      }
      if !HasBrightInk(cells) {
        return Snapshot(Empty, "", Collapse(text), Some(row), true);
      }
      return Snapshot(Draft, Collapse(text), "", Some(row), true);
    }
    return Snapshot(Unknown, "", "", None, hasAttributes);
  }

  // ---------------------------------------------------------------- theorems

  lemma TextIffInk(cs: seq<Cell>)
    ensures Collapse(Chars(cs)) != "" <==> HasInk(cs)
    ensures HasBrightInk(cs) ==> HasInk(cs)
  {
    CollapseIsEmptyIffBlank(Chars(cs));
    if HasInk(cs) {
      var i :| 0 <= i < |cs| && !IsSpace(cs[i].0);
      assert !IsSpace(Chars(cs)[i]);
    }
  }

  ghost predicate IsBottomMarker(ps: seq<Row>, r: nat) {
    r < |ps| && ps[r].content.Some? && forall i :: r < i < |ps| ==> ps[i].content.None?
  }

  lemma {:induction false} BottomMarkerIs(ps: seq<Row>, n: nat)
    requires n <= |ps|
    ensures forall i :: 0 <= i < n && (BottomMarker(ps, n).Some? ==> BottomMarker(ps, n).value < i) ==> ps[i].content.None?
  {
    if n > 0 && ps[n - 1].content.None? {
      BottomMarkerIs(ps, n - 1);
    }
  }

  /** A draft is reported exactly when the capture carries attributes, the
      bottom-most marker row is live, and its region shows a visible character
      that is not dim. */
  lemma DraftIff(ps: seq<Row>, hasAttributes: bool)
    ensures Classify(ps, hasAttributes).state == Draft <==>
            hasAttributes && exists r :: IsBottomMarker(ps, r) && Live(ps, r) && HasBrightInk(Region(ps, r))
  {
    var b := BottomMarker(ps, |ps|);
    BottomMarkerIs(ps, |ps|);
    if b.Some? {
      assert IsBottomMarker(ps, b.value);
      assert forall r :: IsBottomMarker(ps, r) ==> r == b.value;
      TextIffInk(Region(ps, b.value));
    } else {
      assert forall r :: !IsBottomMarker(ps, r);
    }
  }

  /** An empty composer is reported exactly when the bottom-most marker row is
      live and its region shows nothing, or shows only dim characters in a
      capture that carries attributes. */
  lemma EmptyIff(ps: seq<Row>, hasAttributes: bool)
    ensures Classify(ps, hasAttributes).state == Empty <==>
            exists r :: IsBottomMarker(ps, r) && Live(ps, r) &&
                        (!HasInk(Region(ps, r)) || (hasAttributes && !HasBrightInk(Region(ps, r))))
  {
    var b := BottomMarker(ps, |ps|);
    BottomMarkerIs(ps, |ps|);
    if b.Some? {
      assert IsBottomMarker(ps, b.value);
      assert forall r :: IsBottomMarker(ps, r) ==> r == b.value;
      TextIffInk(Region(ps, b.value));
    } else {
      assert forall r :: !IsBottomMarker(ps, r);
    }
  }

  /** Draft text is handed out for a draft and for nothing else; a ghost
      suggestion's text never is. */
  lemma TextMatchesState(rows: seq<string>, attributes: Option<bool>)
    ensures var s := ReadComposer(rows, attributes);
            && (s.draft != "" <==> s.state == Draft)
            && (s.ghostText != "" ==> s.state == Empty && s.draft == "")
            && Collapse(s.draft) == s.draft
  {
    if rows != [] {
      var ps := ParseAll(rows);
      var b := BottomMarker(ps, |ps|);
      if b.Some? {
        var cs := Region(ps, b.value);
        TextIffInk(cs);
        CollapseTwice(Chars(cs));
      }
    }
    assert Collapse("") == "";
  }

  /** Rows joined, each after one dim blank. */
  function Joined(rows: seq<Row>): seq<Cell> {
    if rows == [] then [] else Joined(rows[..|rows| - 1]) + ([(' ', true)] + rows[|rows| - 1].cells)
  }

  lemma {:induction false} JoinedOfCons(row: Row, rows: seq<Row>)
    ensures Joined([row] + rows) == [(' ', true)] + row.cells + Joined(rows)
  {
    if rows == [] {
      assert [row][..0] == [] && [row] + rows == [row];
      assert Joined([row]) == [] + ([(' ', true)] + row.cells);
    } else {
      var n := |rows| - 1;
      var head, last := [(' ', true)] + row.cells, [(' ', true)] + rows[n].cells;
      assert ([row] + rows)[..n + 1] == [row] + rows[..n] && ([row] + rows)[n + 1] == rows[n];
      JoinedOfCons(row, rows[..n]);
      assert (head + Joined(rows[..n])) + last == head + (Joined(rows[..n]) + last);
    }
  }

  /** Folding takes exactly the rows up to the next frame, prompt or blank row. */
  lemma {:induction false} FoldedIs(ps: seq<Row>, i: nat, end: nat)
    requires i <= end <= |ps| && (end == |ps| || ps[end].frame || ps[end].content.Some? || ps[end].blank)
    requires forall k :: i <= k < end ==> !ps[k].frame && ps[k].content.None? && !ps[k].blank
    ensures Folded(ps, i) == Joined(ps[i..end])
    decreases end - i
  {
    if i < end {
      FoldedIs(ps, i + 1, end);
      assert ps[i..end] == [ps[i]] + ps[i + 1..end];
      JoinedOfCons(ps[i], ps[i + 1..end]);
    }
  }

  /** The text handed out: of a live bottom-most marker the collapsed characters of
      its region, as the draft or, when it is empty but shows something, as the
      ghost text; and the row of the marker is named whatever the answer. */
  lemma AnswerIs(ps: seq<Row>, hasAttributes: bool, r: nat)
    requires IsBottomMarker(ps, r)
    ensures var s := Classify(ps, hasAttributes);
            && s.markerRow == Some(r) && s.hasAttributes == hasAttributes
            && (s.state == Draft ==> s.draft == Collapse(Chars(Region(ps, r))))
            && (s.state == Empty ==> s.ghostText == Collapse(Chars(Region(ps, r))))
            && (s.state == Unknown ==> s.draft == "" && s.ghostText == "")
  {
    BottomMarkerIs(ps, |ps|);
    assert BottomMarker(ps, |ps|) == Some(r) by {
      BottomMarkerFinds(ps, |ps|, r);
    }
    hide Folded, Live, BottomMarker;
    TextIffInk(Region(ps, r));
    CollapseTwice(Chars(Region(ps, r)));
  }

  lemma {:induction false} BottomMarkerFinds(ps: seq<Row>, n: nat, r: nat)
    requires r < n <= |ps| && ps[r].content.Some? && forall i :: r < i < n ==> ps[i].content.None?
    ensures BottomMarker(ps, n) == Some(r)
  {
    if r < n - 1 {
      BottomMarkerFinds(ps, n - 1, r);
    }
  }

  // ---- rows above the composer do not matter

  lemma {:induction false} MarkerShifts(pp: seq<Row>, ps: seq<Row>, n: nat)
    requires n <= |ps| && BottomMarker(ps, n).Some?
    ensures BottomMarker(pp + ps, |pp| + n) == Some(|pp| + BottomMarker(ps, n).value)
  {
    assert (pp + ps)[|pp| + n - 1] == ps[n - 1];
    if ps[n - 1].content.None? {
      MarkerShifts(pp, ps, n - 1);
    }
  }

  lemma {:induction false} FoldShifts(pp: seq<Row>, ps: seq<Row>, i: nat)
    ensures Folded(pp + ps, |pp| + i) == Folded(ps, i)
    decreases |ps| - i
  {
    if i < |ps| {
      assert (pp + ps)[|pp| + i] == ps[i];
      FoldShifts(pp, ps, i + 1);
    }
  }

  lemma NothingBelowShifts(pp: seq<Row>, ps: seq<Row>, r: nat)
    ensures NothingBelow(pp + ps, |pp| + r) <==> NothingBelow(ps, r)
  {
    var all := pp + ps;
    if NothingBelow(all, |pp| + r) {
      forall i | r < i < |ps|
        ensures ps[i].blank
      {
        assert all[|pp| + i] == ps[i];
      }
    }
  }

  ghost predicate Shielded(pp: seq<Row>, ps: seq<Row>) {
    BottomMarker(ps, |ps|) == Some(0) && pp != [] ==> !pp[|pp| - 1].frame
  }

  lemma {:induction false} RegionShifts(pp: seq<Row>, ps: seq<Row>, r: nat)
    requires BottomMarker(ps, |ps|) == Some(r) && Shielded(pp, ps)
    ensures (pp + ps)[|pp| + r] == ps[r]
    ensures Live(pp + ps, |pp| + r) == Live(ps, r)
    ensures Region(pp + ps, |pp| + r) == Region(ps, r)
  {
    NothingBelowShifts(pp, ps, r);
    FoldShifts(pp, ps, r + 1);
    assert (pp + ps)[|pp| + r] == ps[r];
    assert InBox(pp + ps, |pp| + r) == InBox(ps, r);
  }

  lemma JudgeAtAnyRow(cs: seq<Cell>, hasAttributes: bool, row: nat, other: nat)
    ensures Judge(cs, hasAttributes, row) == Judge(cs, hasAttributes, other).(markerRow := Some(row))
  {
  }

  lemma {:induction false} ClassifyShifts(pp: seq<Row>, ps: seq<Row>, r: nat, hasAttributes: bool, at: nat)
    requires BottomMarker(ps, |ps|) == Some(r) && Shielded(pp, ps) && at == |pp| + r
    ensures Classify(pp + ps, hasAttributes) == Classify(ps, hasAttributes).(markerRow := Some(at))
  {
    hide BottomMarker, Live, Region, Judge, InBox, Folded, Collapse, Chars, HasInk;
    MarkerShifts(pp, ps, |ps|);
    RegionShifts(pp, ps, r);
    JudgeAtAnyRow(Region(ps, r), hasAttributes, at, r);
  }

  /** Whether the answer is the same for a marker on the first row that a frame
      above it would put into a box: nothing lies below it, or the capture has no
      attributes and the boxed text shows something, so that neither is told. */
  ghost predicate BoxChangesNothing(ps: seq<Row>, hasAttributes: bool)
    requires ps != [] && ps[0].content.Some?
  {
    NothingBelow(ps, 0) || (!hasAttributes && HasInk(ps[0].content.value + Folded(ps, 1)))
  }

  lemma {:induction false} BoxedByFrame(pp: seq<Row>, ps: seq<Row>)
    requires BottomMarker(ps, |ps|) == Some(0) && pp != [] && pp[|pp| - 1].frame
    ensures (pp + ps)[|pp|] == ps[0] && Live(pp + ps, |pp|)
    ensures Region(pp + ps, |pp|) == ps[0].content.value + Folded(ps, 1)
    ensures Live(ps, 0) <==> NothingBelow(ps, 0)
    ensures Region(ps, 0) == ps[0].content.value + []
    ensures NothingBelow(ps, 0) ==> Folded(ps, 1) == []
  {
    FoldShifts(pp, ps, 1);
    assert (pp + ps)[|pp|] == ps[0] && (pp + ps)[|pp| - 1] == pp[|pp| - 1];
  }

  lemma JudgeIs(cs: seq<Cell>, hasAttributes: bool, row: nat)
    ensures Judge(cs, hasAttributes, row) == Snapshot(Unknown, "", "", Some(row), hasAttributes) <==> !hasAttributes && HasInk(cs)
  {
    TextIffInk(cs);
  }

  lemma {:induction false} FrameAboveFirstRow(pp: seq<Row>, ps: seq<Row>, hasAttributes: bool)
    requires BottomMarker(ps, |ps|) == Some(0) && pp != [] && pp[|pp| - 1].frame
    ensures Classify(pp + ps, hasAttributes) == Classify(ps, hasAttributes).(markerRow := Some(|pp|)) <==>
            BoxChangesNothing(ps, hasAttributes)
  {
    hide BottomMarker, Live, Region, Judge, Folded, NothingBelow, HasInk;
    MarkerShifts(pp, ps, |ps|);
    BoxedByFrame(pp, ps);
    JudgeAtAnyRow(Region(ps, 0), hasAttributes, |pp|, 0);
    JudgeIs(Region(pp + ps, |pp|), hasAttributes, |pp|);
  }

  /** Rows put above a composer change nothing but the row number exactly when
      the marker is not on the first row, or the row above it is no frame, or
      boxing it makes no difference. */
  lemma {:induction false} ClassifyShiftsIff(pp: seq<Row>, ps: seq<Row>, r: nat, hasAttributes: bool)
    requires BottomMarker(ps, |ps|) == Some(r)
    ensures Classify(pp + ps, hasAttributes) == Classify(ps, hasAttributes).(markerRow := Some(|pp| + r)) <==>
            Shielded(pp, ps) || BoxChangesNothing(ps, hasAttributes)
  {
    hide Classify, BoxChangesNothing;
    if Shielded(pp, ps) {
      ClassifyShifts(pp, ps, r, hasAttributes, |pp| + r);
    } else {
      FrameAboveFirstRow(pp, ps, hasAttributes);
    }
  }

  lemma ParseAllAppends(above: seq<string>, rows: seq<string>)
    ensures ParseAll(above + rows) == ParseAll(above) + ParseAll(rows)
  {
  }

  lemma ReadGiven(rows: seq<string>, ps: seq<Row>, capable: bool)
    requires rows != [] && ps == ParseAll(rows)
    ensures ReadComposer(rows, Some(capable)) == Classify(ps, capable)
  {
  }

  /** With the capture's capability given, scrollback above a composer changes
      nothing but the row number if and only if the marker is not on the first
      row, or the row put above it is no frame, or boxing it makes no
      difference. */
  lemma {:induction false} ScrollbackOnlyShifts(above: seq<string>, rows: seq<string>, r: nat, capable: bool)
    requires rows != [] && BottomMarker(ParseAll(rows), |rows|) == Some(r)
    ensures ReadComposer(above + rows, Some(capable)) == ReadComposer(rows, Some(capable)).(markerRow := Some(|above| + r)) <==>
            Shielded(ParseAll(above), ParseAll(rows)) || BoxChangesNothing(ParseAll(rows), capable)
  {
    hide *;
    ParseAllAppends(above, rows);
    ReadGiven(rows, ParseAll(rows), capable);
    ReadGiven(above + rows, ParseAll(above) + ParseAll(rows), capable);
    ClassifyShiftsIff(ParseAll(above), ParseAll(rows), r, capable);
  }

  /** What goes wrong: with attributes, a frame put above a first-row prompt
      with output below it turns "cannot tell" into an answer. */
  lemma {:induction false} FrameAboveFirstRowMatters(ps: seq<Row>, frame: Row)
    requires frame.frame && BottomMarker(ps, |ps|) == Some(0) && !NothingBelow(ps, 0)
    ensures Classify(ps, true).state == Unknown
    ensures Classify([frame] + ps, true).state != Unknown
  {
    MarkerShifts([frame], ps, |ps|);
    assert ([frame] + ps)[1] == ps[0] && ([frame] + ps)[0] == frame;
  }

  // ---- the same on a captured pane

  const RULE := "--------"
  const PROMPT := "> x"
  const OUTPUT := "out"

  function Bright(n: nat): (dim: seq<bool>)
    ensures |dim| == n && forall i :: 0 <= i < n ==> !dim[i]
  {
    seq(n, _ => false)
  }

  lemma {:induction false} PlainScan(s: string)
    requires ESC !in s
    ensures ScanFrom(s, false) == Scan(s, Bright(|s|), false)
  {
    if s != "" {
      PlainScan(s[1..]);
      ScanChar(s[0], s[1..], false);
      assert s == [s[0]] + s[1..];
      assert Bright(|s|) == [false] + Bright(|s| - 1);
    }
  }

  lemma RuleRow()
    ensures var p := ParsedRow(RULE); p.frame && p.content.None?
  {
    hide ScanFrom;
    PlainScan(RULE);
    assert !IsSpace('-') && Strip(RULE) == RULE;
    assert PlainSpaces(RULE)[0] == '-' && LeadLen(PlainSpaces(RULE)) == 0;
  }

  lemma PromptRow()
    ensures var p := ParsedRow(PROMPT); p.content == Some([('x', false)])
  {
    hide ScanFrom;
    PlainScan(PROMPT);
    var row := PlainSpaces(PROMPT);
    assert row == "> x";
    assert LeadLen(row) == 0 && ContentStart(PROMPT) == Some(2);
    assert row[2..] == "x" && Bright(3)[2..] == [false];
    assert Cells("x", [false]) == [('x', false)];
  }

  lemma OutputRow()
    ensures var p := ParsedRow(OUTPUT);
            p.content.None? && !p.frame && !p.blank && p.cells == [('o', false), ('u', false), ('t', false)]
  {
    hide ScanFrom;
    PlainScan(OUTPUT);
    assert !IsSpace('o') && !IsSpace('t') && Strip(OUTPUT) == OUTPUT;
    assert PlainSpaces(OUTPUT)[0] == 'o' && LeadLen(PlainSpaces(OUTPUT)) == 0;
    assert Bright(3) == [false, false, false];
  }

  lemma {:induction false} FoldedOutput(ps: seq<Row>)
    requires |ps| == 3 && !EndsDraft(ps[2]) && ps[2].cells == [('o', false), ('u', false), ('t', false)]
    ensures Folded(ps, 2) == [(' ', true), ('o', false), ('u', false), ('t', false)]
  {
    assert Folded(ps, 3) == [];
    assert [(' ', true)] + ps[2].cells + [] == [(' ', true), ('o', false), ('u', false), ('t', false)];
  }

  lemma JudgeDraft(cs: seq<Cell>, row: nat)
    requires cs == [('x', false)] + [(' ', true), ('o', false), ('u', false), ('t', false)]
    ensures Judge(cs, true, row) == Snapshot(Draft, "x out", "", Some(row), true)
  {
    hide Collapse, IsSpace;
    assert !IsSpace(cs[0].0) by { XIsInk(); }
    assert HasBrightInk(cs);
    TextIffInk(cs);
    assert Chars(cs) == "x out";
    CollapseOfTwo();
  }

  lemma XIsInk()
    ensures !IsSpace('x')
  {
  }

  lemma CollapseOfTwo()
    ensures Collapse("x out") == "x out"
  {
    var ws := ["x", "out"];
    assert ws[1..] == ["out"] && JoinWords(["out"]) == "out";
    assert JoinWords(ws) == "x" + " " + "out" == "x out";
    WordsOfJoin(ws);
  }

  /** One screen, seen with and without the rule above its first row: the answer
      goes from "cannot tell" to a draft. */
  lemma RuleAboveMakesADraft()
    ensures ReadComposer([PROMPT, OUTPUT], Some(true)) == Snapshot(Unknown, "", "", Some(0), true)
    ensures ReadComposer([RULE, PROMPT, OUTPUT], Some(true)) == Snapshot(Draft, "x out", "", Some(1), true)
  {
    hide ParsedRow, Judge, Folded;
    RuleRow();
    PromptRow();
    OutputRow();
    var two, three := ParseAll([PROMPT, OUTPUT]), ParseAll([RULE, PROMPT, OUTPUT]);
    assert BottomMarker(two, 1) == Some(0) && BottomMarker(two, 2) == Some(0);
    assert !two[1].blank;
    assert BottomMarker(three, 2) == Some(1) && BottomMarker(three, 3) == Some(1);
    FoldedOutput(three);
    JudgeDraft(Region(three, 1), 1);
  }
}
