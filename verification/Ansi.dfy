/** ANSI escape sequences as the composer reader sees them
    (terminal_mcp/composer.py): the three patterns as recognisers, the one-pass
    scanner that tracks the dim attribute, and the three-pass strip_ansi. */
module Ansi {
  import opened Collections
  import opened PyText

  const ESC: char := '\U{001B}'
  const BEL: char := '\U{0007}'

  // -------------------------------------------------------------- recognisers

  predicate IsParam(c: char) { '0' <= c <= '9' || c == ';' || c == ':' || c == '?' }
  predicate IsInter(c: char) { ' ' <= c <= '/' }
  predicate IsFinal(c: char) { '@' <= c <= '~' }
  predicate IsOscBody(c: char) { c != BEL && c != ESC }

  datatype Class = Params | Inters | OscBody

  predicate InClass(k: Class, c: char) {
    match k
    case Params => IsParam(c)
    case Inters => IsInter(c)
    case OscBody => IsOscBody(c)
  }

  /** Number of leading characters of one class. */
  function Span(s: string, k: Class): (n: nat)
    ensures n <= |s|
    ensures forall i :: 0 <= i < n ==> InClass(k, s[i])
    ensures n < |s| ==> !InClass(k, s[n])
  {
    if s == "" || !InClass(k, s[0]) then 0 else 1 + Span(s[1..], k)
  }

  datatype Pattern = CsiPat | OscPat | AnyEscPat

  lemma {:induction false} SpanIs(s: string, k: Class, n: nat)
    requires n <= |s| && (forall i :: 0 <= i < n ==> InClass(k, s[i])) && (n < |s| ==> !InClass(k, s[n]))
    ensures Span(s, k) == n
  {
  }

  /** Length of the match at the start of `s`, 0 if there is none. The three
      character classes of a control sequence are disjoint, so the greedy match
      is the only one. */
  function Match(p: Pattern, s: string): (n: nat)
    ensures n <= |s|
    ensures n > 0 ==> s[0] == ESC
  {
    if |s| < 2 || s[0] != ESC then 0 else
    match p
    case CsiPat =>
      if s[1] != '[' then 0 else
      var i := 2 + Span(s[2..], Params);
      var j := i + Span(s[i..], Inters);
      if j < |s| && IsFinal(s[j]) then j + 1 else 0
    case OscPat =>
      if s[1] != ']' then 0 else
      var i := 2 + Span(s[2..], OscBody);
      if i < |s| && s[i] == BEL then i + 1
      else if i + 1 < |s| && s[i] == ESC && s[i + 1] == '\\' then i + 2 else 0
    case AnyEscPat => if s[1] == '\n' then 0 else 2
  }

  /** _CSI.match or _OSC.match */
  function Token(s: string): (n: nat)
    ensures n <= |s|
    ensures n > 0 ==> s[0] == ESC
  {
    if Match(CsiPat, s) > 0 then Match(CsiPat, s) else Match(OscPat, s)
  }

  // -------------------------------------------------------------- SGR effect

  predicate IsColourHead(h: string) { h == "38" || h == "48" || h == "58" }

  function Head(part: string): string { Strip(SplitOn(part, ':')[0]) }

  /** Parameters an extended colour consumes, itself included. */
  function ColourWidth(parts: seq<string>): nat {
    var mode := if |parts| > 1 then parts[1] else "";
    if mode == "2" then 5 else if mode == "5" then 3 else 1
  }

  function AfterHead(h: string, dim: bool): bool {
    if h == "" || h == "0" || h == "22" then false else if h == "2" then true else dim
  }

  function Drop<T>(s: seq<T>, n: nat): seq<T> {
    if n <= |s| then s[n..] else []
  }

  /** The dim flag after a list of SGR parameters. */
  function Apply(parts: seq<string>, dim: bool): bool
    decreases |parts|
  {
    if parts == [] then dim
    else if IsColourHead(Head(parts[0])) && ':' !in parts[0] then Apply(Drop(parts, ColourWidth(parts)), dim)
    else Apply(parts[1..], AfterHead(Head(parts[0]), dim))
  }

  function ApplyBody(body: string, dim: bool): bool {
    Apply(if body == "" then ["0"] else SplitOn(body, ';'), dim)
  }

  predicate IsSgr(token: string) { |token| >= 3 && token[|token| - 1] == 'm' }

  // ------------------------------------------------------------- the scanner

  datatype Scan = Scan(plain: string, dim: seq<bool>, sawSgr: bool)

  /** The scan of `s` with `dim` as the attribute in force. */
  function ScanFrom(s: string, dim: bool): (r: Scan)
    ensures |r.dim| == |r.plain|
    decreases |s|
  {
    if s == "" then Scan("", [], false) else
    var n := Token(s);
    if n > 0 then
      if IsSgr(s[..n]) then ScanFrom(s[n..], ApplyBody(s[2..n - 1], dim)).(sawSgr := true)
      else ScanFrom(s[n..], dim)
    else if s[0] == ESC then ScanFrom(Drop(s, 2), dim)
    else
      var r := ScanFrom(s[1..], dim);
      Scan([s[0]] + r.plain, [dim] + r.dim, r.sawSgr)
  }

  /** The first parameter of a rest of the list, and where the next one is. */
  lemma {:induction false} ApplyAt(parts: seq<string>, offset: nat, dim: bool)
    requires offset < |parts|
    ensures var part := parts[offset];
            var mode := if offset + 1 < |parts| then parts[offset + 1] else "";
            var width := if mode == "2" then 5 else if mode == "5" then 3 else 1;
            Apply(Drop(parts, offset), dim)
            == if IsColourHead(Head(part)) && ':' !in part then Apply(Drop(parts, offset + width), dim)
               else Apply(Drop(parts, offset + 1), AfterHead(Head(part), dim))
  {
    hide Head, AfterHead;
    var rest := Drop(parts, offset);
    assert rest[0] == parts[offset] && (|rest| > 1 ==> rest[1] == parts[offset + 1]);
    assert rest[1..] == Drop(parts, offset + 1);
    var width := ColourWidth(rest);
    assert Drop(rest, width) == Drop(parts, offset + width);
  }

  lemma {:induction false} ApplyEnds(parts: seq<string>, offset: nat, dim: bool)
    ensures Apply(Drop(parts, 0), dim) == Apply(parts, dim)
    ensures |parts| <= offset ==> Apply(Drop(parts, offset), dim) == dim
  {
    assert Drop(parts, 0) == parts;
  }

  /** The parameter loop of one SGR sequence. */
  method ApplyLoop(body: string, before: bool) returns (dim: bool)
    ensures dim == ApplyBody(body, before)
  {
    hide Apply, Drop, Head;
    var parts := if body == "" then ["0"] else SplitOn(body, ';');
    dim := before;
    var offset := 0;
    ApplyEnds(parts, 0, before);
    while offset < |parts|
      invariant 0 <= offset
      invariant Apply(Drop(parts, offset), dim) == Apply(parts, before)
    {
      ApplyAt(parts, offset, dim);
      var part, head := parts[offset], Head(parts[offset]);
      if IsColourHead(head) && ':' !in part {
        var mode := if offset + 1 < |parts| then parts[offset + 1] else "";
        offset := offset + if mode == "2" then 5 else if mode == "5" then 3 else 1;
      } else {
        if head == "" || head == "0" {
          dim := false;
        } else if head == "2" {
          dim := true;
        } else if head == "22" {
          dim := false;
        }
        offset := offset + 1;
      }
    }
    ApplyEnds(parts, offset, dim);
  }

  // One step of the scan, for each kind of beginning.

  lemma {:induction false} ScanChar(c: char, rest: string, dim: bool)
    requires c != ESC
    ensures var r := ScanFrom(rest, dim);
            ScanFrom([c] + rest, dim) == Scan([c] + r.plain, [dim] + r.dim, r.sawSgr)
  {
    assert ([c] + rest)[1..] == rest;
  }

  lemma ScanUnfolds(s: string, n: nat, dim: bool)
    requires s != "" && n == Token(s) > 0
    ensures ScanFrom(s, dim) == if IsSgr(s[..n]) then ScanFrom(s[n..], ApplyBody(s[2..n - 1], dim)).(sawSgr := true)
                                else ScanFrom(s[n..], dim)
  {
    hide Token, ApplyBody;
  }

  lemma ScanToken(token: string, rest: string, dim: bool)
    requires token != "" && Token(token + rest) == |token|
    ensures IsSgr(token) ==>
              ScanFrom(token + rest, dim) == ScanFrom(rest, ApplyBody(token[2..|token| - 1], dim)).(sawSgr := true)
    ensures !IsSgr(token) ==> ScanFrom(token + rest, dim) == ScanFrom(rest, dim)
  {
    hide ScanFrom, Token, ApplyBody;
    var s, n := token + rest, |token|;
    ScanUnfolds(s, n, dim);
    assert s[..n] == token && s[n..] == rest;
    if IsSgr(token) {
      assert s[2..n - 1] == token[2..n - 1];
    }
  }

  lemma {:induction false} ScanBrokenEscape(s: string, dim: bool)
    requires s != "" && s[0] == ESC && Token(s) == 0
    ensures ScanFrom(s, dim) == ScanFrom(Drop(s, 2), dim)
  {
  }

  /** What was read so far, continued. */
  function After(a: Scan, b: Scan): Scan {
    Scan(a.plain + b.plain, a.dim + b.dim, a.sawSgr || b.sawSgr)
  }

  lemma AfterChar(a: Scan, c: char, dim: bool, r: Scan)
    ensures After(a, Scan([c] + r.plain, [dim] + r.dim, r.sawSgr))
            == After(Scan(a.plain + [c], a.dim + [dim], a.sawSgr), r)
  {
    assert a.plain + ([c] + r.plain) == (a.plain + [c]) + r.plain;
    assert a.dim + ([dim] + r.dim) == (a.dim + [dim]) + r.dim;
  }

  /** What was read, continued from `index` with `dim`: the loop of the scanner
      keeps this equal to the scan of the whole row. */
  function Continued(raw: string, index: nat, dim: bool, r: Scan): Scan {
    After(r, ScanFrom(Drop(raw, index), dim))
  }

  lemma {:induction false} ContinueStart(raw: string)
    ensures Continued(raw, 0, false, Scan("", [], false)) == ScanFrom(raw, false)
  {
    assert Drop(raw, 0) == raw;
    var r := ScanFrom(raw, false);
    assert After(Scan("", [], false), r) == r;
  }

  lemma ContinueEnd(raw: string, index: nat, dim: bool, r: Scan)
    requires |raw| <= index
    ensures Continued(raw, index, dim, r) == r
  {
    assert After(r, ScanFrom("", dim)) == r;
  }

  lemma ContinueToken(raw: string, index: nat, n: nat, dim: bool, r: Scan, dim': bool, r': Scan)
    requires index + n <= |raw| && n == Token(Drop(raw, index)) && n > 0
    requires var token := raw[index..index + n];
             if IsSgr(token) then dim' == ApplyBody(token[2..n - 1], dim) && r' == r.(sawSgr := true)
             else dim' == dim && r' == r
    ensures Continued(raw, index + n, dim', r') == Continued(raw, index, dim, r)
  {
    hide ScanFrom, Token, IsSgr, ApplyBody, Drop;
    var token, rest := raw[index..index + n], Drop(raw, index + n);
    SplitAt(raw, index, n);
    ScanToken(token, rest, dim);
  }

  lemma SplitAt(raw: string, index: nat, n: nat)
    requires index + n <= |raw|
    ensures Drop(raw, index) == raw[index..index + n] + Drop(raw, index + n)
  {
  }

  lemma ContinueBroken(raw: string, index: nat, dim: bool, r: Scan)
    requires index < |raw| && raw[index] == ESC && Token(Drop(raw, index)) == 0
    ensures Continued(raw, index + 2, dim, r) == Continued(raw, index, dim, r)
  {
    ScanBrokenEscape(Drop(raw, index), dim);
    assert Drop(Drop(raw, index), 2) == Drop(raw, index + 2);
  }

  lemma ContinueChar(raw: string, index: nat, dim: bool, r: Scan, r': Scan)
    requires index < |raw| && raw[index] != ESC
    requires r' == Scan(r.plain + [raw[index]], r.dim + [dim], r.sawSgr)
    ensures Continued(raw, index + 1, dim, r') == Continued(raw, index, dim, r)
  {
    var rest := Drop(raw, index + 1);
    assert Drop(raw, index) == [raw[index]] + rest;
    ScanChar(raw[index], rest, dim);
    AfterChar(r, raw[index], dim, ScanFrom(rest, dim));
  }

  /** _faint_map: one pass over the row. */
  method FaintMap(raw: string) returns (r: Scan)
    ensures r == ScanFrom(raw, false)
    ensures |r.dim| == |r.plain|
  {
    hide Continued, ScanFrom, Token, ApplyBody;
    var dim, index := false, 0;
    r := Scan("", [], false);
    ContinueStart(raw);
    while index < |raw|
      invariant 0 <= index && Continued(raw, index, dim, r) == ScanFrom(raw, false)
      decreases |raw| - index
    {
      ghost var dim0, r0 := dim, r;
      var n := Token(Drop(raw, index));
      if n > 0 {
        var token := raw[index..index + n];
        if IsSgr(token) {
          dim := ApplyLoop(token[2..n - 1], dim);
          r := r.(sawSgr := true);
        }
        ContinueToken(raw, index, n, dim0, r0, dim, r);
        index := index + n;
      } else if raw[index] == ESC {
        ContinueBroken(raw, index, dim, r);
        index := index + 2;
      } else {
        r := Scan(r.plain + [raw[index]], r.dim + [dim], r.sawSgr);
        ContinueChar(raw, index, dim, r0, r);
        index := index + 1;
      }
    }
    ContinueEnd(raw, index, dim, r);
  }

  /** No escape character survives, whatever the row. */
  lemma {:induction false} PlainHasNoEscape(s: string, dim: bool)
    ensures ESC !in ScanFrom(s, dim).plain
    decreases |s|
  {
    hide Token, ApplyBody;
    if s != "" {
      var n := Token(s);
      if n > 0 {
        PlainHasNoEscape(s[n..], if IsSgr(s[..n]) then ApplyBody(s[2..n - 1], dim) else dim);
      } else {
        PlainHasNoEscape(if s[0] == ESC then Drop(s, 2) else s[1..], dim);
      }
    }
  }

  // ------------------------------------------------------------- strip_ansi

  /** pattern.sub("", s) */
  function Remove(p: Pattern, s: string): string
    decreases |s|
  {
    if s == "" then "" else
    var n := Match(p, s);
    if n > 0 then Remove(p, s[n..]) else [s[0]] + Remove(p, s[1..])
  }

  function StripAnsi(s: string): string {
    Remove(AnyEscPat, Remove(CsiPat, Remove(OscPat, s)))
  }

  // ----------------------------------------------- strings of whole sequences

  datatype Piece =
    | Ch(c: char)
    | Csi(params: string, inter: string, final: char)
    | Osc(body: string, bel: bool)
    | Two(c: char)

  ghost predicate Valid(p: Piece) {
    match p
    case Ch(c) => c != ESC
    case Csi(params, inter, final) =>
      (forall i :: 0 <= i < |params| ==> IsParam(params[i])) &&
      (forall i :: 0 <= i < |inter| ==> IsInter(inter[i])) && IsFinal(final)
    case Osc(body, _) => forall i :: 0 <= i < |body| ==> IsOscBody(body[i])
    case Two(c) => c != ESC && c != '[' && c != ']' && c != '\n'
  }

  function Show(p: Piece): (s: string)
    ensures s != ""
  {
    match p
    case Ch(c) => [c]
    case Csi(params, inter, final) => [ESC, '['] + params + inter + [final]
    case Osc(body, bel) => [ESC, ']'] + body + (if bel then [BEL] else [ESC, '\\'])
    case Two(c) => [ESC, c]
  }

  function Render(ps: seq<Piece>): string {
    if ps == [] then "" else Show(ps[0]) + Render(ps[1..])
  }

  ghost predicate AllValid(ps: seq<Piece>) {
    forall i :: 0 <= i < |ps| ==> Valid(ps[i])
  }

  function Text(ps: seq<Piece>): string {
    if ps == [] then "" else (if ps[0].Ch? then [ps[0].c] else "") + Text(ps[1..])
  }

  // A whole sequence is matched as a whole, whatever follows it.

  lemma CsiMatches(p: Piece, rest: string)
    requires p.Csi? && Valid(p)
    ensures Match(CsiPat, Show(p) + rest) == |Show(p)|
  {
    var s := Show(p) + rest;
    var i := 2 + |p.params|;
    SpanIs(s[2..], Params, |p.params|);
    SpanIs(s[i..], Inters, |p.inter|);
  }

  lemma OscMatches(p: Piece, rest: string)
    requires p.Osc? && Valid(p)
    ensures Match(OscPat, Show(p) + rest) == |Show(p)|
  {
    var s := Show(p) + rest;
    SpanIs(s[2..], OscBody, |p.body|);
  }

  lemma WholeSequenceIsToken(p: Piece, rest: string)
    requires Valid(p) && (p.Csi? || p.Osc?)
    ensures Token(Show(p) + rest) == |Show(p)|
  {
    if p.Csi? {
      CsiMatches(p, rest);
    } else {
      OscMatches(p, rest);
    }
  }

  /** The scanner sees exactly the text. */
  lemma {:induction false} ScanOfRender(ps: seq<Piece>, dim: bool)
    requires AllValid(ps)
    ensures ScanFrom(Render(ps), dim).plain == Text(ps)
  {
    if ps != [] {
      var p, rest := ps[0], Render(ps[1..]);
      assert Valid(p);
      ScanOfRender(ps[1..], dim);
      match p
      case Ch(c) => ScanChar(c, rest, dim);
      case Two(c) =>
        ScanBrokenEscape(Show(p) + rest, dim);
        assert Drop(Show(p) + rest, 2) == rest;
      case Csi(_, _, _) =>
        WholeSequenceIsToken(p, rest);
        ScanToken(Show(p), rest, dim);
        if IsSgr(Show(p)) {
          ScanOfRender(ps[1..], ApplyBody(Show(p)[2..|Show(p)| - 1], dim));
        }
      case Osc(_, _) =>
        WholeSequenceIsToken(p, rest);
        ScanToken(Show(p), rest, dim);
    }
  }

  // Each pass of strip_ansi removes one kind of piece and keeps the others.

  function Kept(pat: Pattern, p: Piece): bool {
    match pat
    case OscPat => !p.Osc?
    case CsiPat => !p.Csi?
    case AnyEscPat => p.Ch?
  }

  function Filter(pat: Pattern, ps: seq<Piece>): seq<Piece> {
    if ps == [] then [] else (if Kept(pat, ps[0]) then [ps[0]] else []) + Filter(pat, ps[1..])
  }

  /** What a pass may meet: the later passes run on what the earlier left. */
  ghost predicate Meets(pat: Pattern, p: Piece) {
    match pat
    case OscPat => true
    case CsiPat => !p.Osc?
    case AnyEscPat => p.Ch? || p.Two?
  }

  lemma {:induction false} RemoveChar(pat: Pattern, c: char, rest: string)
    requires Match(pat, [c] + rest) == 0
    ensures Remove(pat, [c] + rest) == [c] + Remove(pat, rest)
  {
    assert ([c] + rest)[1..] == rest;
  }

  /** Without an escape character nothing is removed. */
  lemma {:induction false} RemoveKeepsText(pat: Pattern, x: string, y: string)
    requires ESC !in x
    ensures Remove(pat, x + y) == x + Remove(pat, y)
  {
    if x == "" {
      assert x + y == y;
    } else {
      var c, tail := x[0], x[1..];
      RemoveKeepsText(pat, tail, y);
      assert x == [c] + tail;
      ConsAppend(c, tail, y);
      RemoveChar(pat, c, tail + y);
      ConsAppend(c, tail, Remove(pat, y));
    }
  }

  /** A sequence of another kind does not match. */
  lemma OtherKindDoesNotMatch(pat: Pattern, p: Piece, rest: string)
    requires Valid(p) && Meets(pat, p) && Kept(pat, p) && !p.Ch?
    ensures Match(pat, Show(p) + rest) == 0
    ensures Show(p)[0] == ESC && ESC !in Show(p)[1..]
  {
    assert (Show(p) + rest)[1] == Show(p)[1];
  }

  /** A piece the pass keeps is copied. */
  lemma {:induction false} RemoveKeepsPiece(pat: Pattern, p: Piece, rest: string)
    requires Valid(p) && Meets(pat, p) && Kept(pat, p)
    ensures Remove(pat, Show(p) + rest) == Show(p) + Remove(pat, rest)
  {
    if p.Ch? {
      RemoveKeepsText(pat, Show(p), rest);
    } else {
      OtherKindDoesNotMatch(pat, p, rest);
      var tail := Show(p)[1..];
      assert Show(p) == [ESC] + tail;
      ConsAppend(ESC, tail, rest);
      RemoveChar(pat, ESC, tail + rest);
      RemoveKeepsText(pat, tail, rest);
      ConsAppend(ESC, tail, Remove(pat, rest));
    }
  }

  /** A piece the pass does not keep disappears as a whole. */
  lemma {:induction false} RemoveDropsPiece(pat: Pattern, p: Piece, rest: string)
    requires Valid(p) && Meets(pat, p) && !Kept(pat, p)
    ensures Remove(pat, Show(p) + rest) == Remove(pat, rest)
  {
    var s := Show(p) + rest;
    match pat
    case OscPat => OscMatches(p, rest);
    case CsiPat => CsiMatches(p, rest);
    case AnyEscPat =>
    assert Match(pat, s) == |Show(p)|;
    assert s[|Show(p)|..] == rest;
  }

  lemma {:induction false} FilterKeeps(pat: Pattern, ps: seq<Piece>)
    requires AllValid(ps) && forall i :: 0 <= i < |ps| ==> Meets(pat, ps[i])
    ensures AllValid(Filter(pat, ps)) && Text(Filter(pat, ps)) == Text(ps)
    ensures forall i :: 0 <= i < |Filter(pat, ps)| ==> Kept(pat, Filter(pat, ps)[i]) && Meets(pat, Filter(pat, ps)[i])
  {
    hide Valid, Meets, Kept, Text;
    if ps != [] {
      FilterKeeps(pat, ps[1..]);
      FilterKeepsText(pat, ps);
    } else {
      FilterOfNothing(pat);
    }
  }

  lemma {:induction false} FilterOfNothing(pat: Pattern)
    ensures Filter(pat, []) == [] && Text([]) == ""
  {
  }

  /** A pass never drops a piece of text. */
  lemma {:induction false} FilterKeepsText(pat: Pattern, ps: seq<Piece>)
    requires ps != []
    ensures Text(Filter(pat, ps[1..])) == Text(ps[1..]) ==> Text(Filter(pat, ps)) == Text(ps)
  {
    var tail := Filter(pat, ps[1..]);
    assert ([ps[0]] + tail)[1..] == tail && [] + tail == tail;
  }

  lemma {:induction false} RemoveIsFilter(pat: Pattern, ps: seq<Piece>)
    requires AllValid(ps) && forall i :: 0 <= i < |ps| ==> Meets(pat, ps[i])
    ensures Remove(pat, Render(ps)) == Render(Filter(pat, ps))
  {
    if ps != [] {
      hide Remove, Show, Match, Valid, Kept, Meets;
      var p, rest := ps[0], Render(ps[1..]);
      RemoveIsFilter(pat, ps[1..]);
      var tail := Filter(pat, ps[1..]);
      if Kept(pat, p) {
        RemoveKeepsPiece(pat, p, rest);
        assert ([p] + tail)[1..] == tail;
      } else {
        RemoveDropsPiece(pat, p, rest);
        assert [] + tail == tail;
      }
    }
  }

  lemma {:induction false} OnlyTextRenders(ps: seq<Piece>)
    requires forall i :: 0 <= i < |ps| ==> ps[i].Ch?
    ensures Render(ps) == Text(ps)
  {
    if ps != [] {
      OnlyTextRenders(ps[1..]);
    }
  }

  /** On every string built from ESC-free text and whole sequences, the one-pass
      scanner and the three passes of strip_ansi give the same plain text. */
  lemma {:induction false} ScannerAgreesWithStrip(ps: seq<Piece>, dim: bool)
    requires AllValid(ps)
    ensures ScanFrom(Render(ps), dim).plain == StripAnsi(Render(ps)) == Text(ps)
  {
    ScanOfRender(ps, dim);
    RemoveIsFilter(OscPat, ps);
    FilterKeeps(OscPat, ps);
    var a := Filter(OscPat, ps);
    RemoveIsFilter(CsiPat, a);
    FilterKeeps(CsiPat, a);
    var b := Filter(CsiPat, a);
    KeepsMeeting(a);
    FilterKeeps(AnyEscPat, b);
    RemoveIsFilter(AnyEscPat, b);
    OnlyTextRenders(Filter(AnyEscPat, b));
  }

  lemma {:induction false} KeepsMeeting(a: seq<Piece>)
    requires forall i :: 0 <= i < |a| ==> !a[i].Osc?
    ensures forall i :: 0 <= i < |Filter(CsiPat, a)| ==> Meets(AnyEscPat, Filter(CsiPat, a)[i])
  {
    if a != [] {
      KeepsMeeting(a[1..]);
    }
  }

  /** Broken sequences are where the two differ: an escape at the end of a row or
      before a line feed, and a sequence that appears only once another one inside
      it has been cut out. */
  lemma ScannerAndStripDifferOnBrokenSequences()
    ensures ScanFrom([ESC], false).plain == "" && StripAnsi([ESC]) == [ESC]
    ensures ScanFrom([ESC, '\n'], false).plain == "" && StripAnsi([ESC, '\n']) == [ESC, '\n']
    ensures ScanFrom([ESC, '[', ESC, ']', BEL, 'm'], false).plain == "m" && StripAnsi([ESC, '[', ESC, ']', BEL, 'm']) == ""
  {
    BrokenPairs();
    NestedIsScanned();
    NestedIsStripped();
  }

  lemma BrokenPairs()
    ensures ScanFrom([ESC], false).plain == "" && StripAnsi([ESC]) == [ESC]
    ensures ScanFrom([ESC, '\n'], false).plain == "" && StripAnsi([ESC, '\n']) == [ESC, '\n']
  {
    assert Drop([ESC], 2) == "" && [ESC][1..] == "";
    assert Drop([ESC, '\n'], 2) == "" && [ESC, '\n'][1..] == ['\n'] && ['\n'][1..] == "";
    var lone: string := [ESC];
    var two: string := [ESC, '\n'];
    assert Remove(OscPat, lone) == lone && Remove(CsiPat, lone) == lone;
    assert Remove(OscPat, ['\n']) == ['\n'] && Remove(CsiPat, ['\n']) == ['\n'] && Remove(AnyEscPat, ['\n']) == ['\n'];
    assert Remove(OscPat, two) == two && Remove(CsiPat, two) == two;
  }

  /** ESC [ around a whole OSC, then m: the scanner drops ESC [ as an unknown
      pair, skips the OSC and keeps the m. */
  lemma NestedIsScanned()
    ensures ScanFrom([ESC, '[', ESC, ']', BEL, 'm'], false).plain == "m"
  {
    var s: string := [ESC, '[', ESC, ']', BEL, 'm'];
    SpanIs(s[2..], Params, 0);
    SpanIs(s[2..], Inters, 0);
    assert s[2..][0] == ESC;
    assert Token(s) == 0 && Drop(s, 2) == [ESC, ']', BEL, 'm'];
    var osc := Drop(s, 2);
    SpanIs(osc[2..], OscBody, 0);
    assert Token(osc) == 3 && !IsSgr(osc[..3]) && osc[3..] == "m";
    assert ScanFrom("m", false).plain == "m" by {
      assert "m"[1..] == "" && Token("m") == 0;
    }
  }

  /** strip_ansi cuts the OSC out first, and then finds ESC [ m. */
  lemma NestedIsStripped()
    ensures StripAnsi([ESC, '[', ESC, ']', BEL, 'm']) == ""
  {
    var s: string := [ESC, '[', ESC, ']', BEL, 'm'];
    var osc: string := [ESC, ']', BEL, 'm'];
    SpanIs(osc[2..], OscBody, 0);
    assert Match(OscPat, osc) == 3 && osc[3..] == "m";
    assert "m"[1..] == "" && Remove(OscPat, "") == "";
    assert Remove(OscPat, "m") == ['m'] + "";
    assert s[1..] == ['['] + osc && s[1..][1..] == osc;
    assert Match(OscPat, s) == 0 && Match(OscPat, s[1..]) == 0;
    assert Remove(OscPat, s[1..]) == ['['] + Remove(OscPat, osc);
    var csi: string := [ESC, '[', 'm'];
    assert Remove(OscPat, s) == [ESC] + (['['] + "m") == csi;
    SpanIs(csi[2..], Params, 0);
    SpanIs(csi[2..], Inters, 0);
    assert Match(CsiPat, csi) == 3 && csi[3..] == "";
    assert Remove(CsiPat, csi) == "";
  }
}
