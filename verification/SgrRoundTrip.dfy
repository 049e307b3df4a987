/** Printing dim and plain text through SGR sequences and reading it back with
    the composer's scanner (terminal_mcp/composer.py). SGR is section 8.3.117 of
    ECMA-48; colours use the 38/48/58 forms. */
module SgrRoundTrip {
  import opened PyText
  import opened Ansi

  // ----------------------------------------------------------------- decimals

  function Digit(d: nat): char
    requires d < 10
  {
    ['0', '1', '2', '3', '4', '5', '6', '7', '8', '9'][d]
  }

  function Dec(n: nat): string {
    if n < 10 then [Digit(n)] else Dec(n / 10) + [Digit(n % 10)]
  }

  function Val(s: string): int {
    if s == "" then 0 else 10 * Val(s[..|s| - 1]) + (s[|s| - 1] as int - '0' as int)
  }

  predicate Digits(s: string) { s != "" && forall i :: 0 <= i < |s| ==> '0' <= s[i] <= '9' }

  lemma {:induction false} OneDigit(s: string, d: nat)
    requires d < 10
    ensures Val(s + [Digit(d)]) == 10 * Val(s) + d && '0' <= Digit(d) <= '9'
  {
    assert (s + [Digit(d)])[..|s|] == s;
  }

  lemma {:induction false} DecReadsBack(n: nat)
    ensures Val(Dec(n)) == n && Digits(Dec(n))
  {
    hide Val, Digit;
    OneDigit(if n < 10 then "" else Dec(n / 10), n % 10);
    if n < 10 {
      assert "" + [Digit(n)] == [Digit(n)];
      NoDigits();
    } else {
      DecReadsBack(n / 10);
    }
  }

  lemma NoDigits()
    ensures Val("") == 0
  {
  }

  lemma TwoDigits(a: char, b: char)
    ensures Val([a]) == a as int - '0' as int
    ensures Val([a, b]) == 10 * (a as int - '0' as int) + (b as int - '0' as int)
  {
    assert [a][..0] == "" && [a, b][..1] == [a];
  }

  /** A number prints as one of the codes the scanner knows only if it is it. */
  lemma {:induction false} DecIsCodeIff(n: nat)
    ensures Dec(n) == "0" <==> n == 0
    ensures Dec(n) == "2" <==> n == 2
    ensures Dec(n) == "5" <==> n == 5
    ensures Dec(n) == "22" <==> n == 22
    ensures Dec(n) == "38" <==> n == 38
    ensures Dec(n) == "48" <==> n == 48
    ensures Dec(n) == "58" <==> n == 58
    ensures Dec(n) != ""
  {
    DecReadsBack(n);
    TwoDigits('0', '0');
    TwoDigits('2', '2');
    TwoDigits('5', '8');
    TwoDigits('3', '8');
    TwoDigits('4', '8');
    assert Dec(2) == ['2'];
  }

  lemma {:induction false} StripOfDigits(s: string)
    requires Digits(s)
    ensures Strip(s) == s
  {
  }

  lemma HeadOfDigits(s: string)
    requires Digits(s)
    ensures Head(s) == s && ':' !in s && ';' !in s
  {
    SplitOfPlain(s, ':');
    StripOfDigits(s);
  }

  // --------------------------------------------------------------- attributes

  datatype Ground = Fore | Back | Underline

  /** One SGR attribute. `Other` is any code that is neither an intensity nor a
      colour introducer; `Colon` is a colour with its parts joined by colons. */
  datatype Attr =
    | Dim | Normal | Reset
    | Palette(g: Ground, index: nat)
    | Rgb(g: Ground, red: nat, green: nat, blue: nat)
    | Colon(g: Ground, part: nat, more: seq<nat>)
    | Other(code: nat)

  predicate OtherOk(a: Attr) {
    a.Other? ==> a.code != 0 && a.code != 2 && a.code != 22 && a.code != 38 && a.code != 48 && a.code != 58
  }

  function Intro(g: Ground): string {
    match g
    case Fore => "38"
    case Back => "48"
    case Underline => "58"
  }

  function ColonTail(ns: seq<nat>): string {
    if ns == [] then "" else ":" + Dec(ns[0]) + ColonTail(ns[1..])
  }

  function Codes(a: Attr): (r: seq<string>)
    ensures r != []
  {
    match a
    case Dim => ["2"]
    case Normal => ["22"]
    case Reset => ["0"]
    case Palette(g, n) => [Intro(g), "5", Dec(n)]
    case Rgb(g, r, gr, b) => [Intro(g), "2", Dec(r), Dec(gr), Dec(b)]
    case Colon(g, p, more) => [Intro(g) + ":" + Dec(p) + ColonTail(more)]
    case Other(n) => [Dec(n)]
  }

  function AllCodes(attrs: seq<Attr>): seq<string> {
    if attrs == [] then [] else Codes(attrs[0]) + AllCodes(attrs[1..])
  }

  /** What an attribute means for intensity. */
  function Effect(a: Attr, dim: bool): bool {
    match a
    case Dim => true
    case Normal => false
    case Reset => false
    case _ => dim
  }

  /** What a sequence means: without parameters it is a reset. */
  function Effects(attrs: seq<Attr>, dim: bool): bool {
    if attrs == [] then dim else Effects(attrs[1..], Effect(attrs[0], dim))
  }

  function SgrMeaning(attrs: seq<Attr>, dim: bool): bool {
    if attrs == [] then false else Effects(attrs, dim)
  }

  lemma {:induction false} ColonPart(g: Ground, p: nat, more: seq<nat>)
    ensures var part := Intro(g) + ":" + Dec(p) + ColonTail(more);
            Head(part) == Intro(g) && ':' in part
  {
    ColonHead(Intro(g), Dec(p) + ColonTail(more));
    assert Intro(g) + ":" + Dec(p) + ColonTail(more) == Intro(g) + [':'] + (Dec(p) + ColonTail(more));
  }

  lemma ColonHead(h: string, tail: string)
    requires Digits(h)
    ensures Head(h + [':'] + tail) == h && ':' in h + [':'] + tail
  {
    SplitOfCons(h, ':', tail);
    StripOfDigits(h);
    assert (h + [':'] + tail)[|h|] == ':';
  }

  /** A single code that introduces no colour. */
  lemma {:induction false} ApplySimple(code: string, rest: seq<string>, dim: bool)
    requires Digits(code) && !IsColourHead(code)
    ensures Apply([code] + rest, dim) == Apply(rest, AfterHead(code, dim))
  {
    HeadOfDigits(code);
    assert ([code] + rest)[1..] == rest;
  }

  /** A colour consumes its own parameters, whatever their values. */
  lemma {:induction false} ApplyColour(g: Ground, mode: string, values: seq<string>, rest: seq<string>, dim: bool)
    requires (mode == "5" && |values| == 1) || (mode == "2" && |values| == 3)
    ensures Apply([Intro(g), mode] + values + rest, dim) == Apply(rest, dim)
  {
    var parts := [Intro(g), mode] + values + rest;
    HeadOfDigits(Intro(g));
    assert parts[0] == Intro(g) && parts[1] == mode;
    assert Drop(parts, 2 + |values|) == rest;
  }

  lemma {:induction false} ApplyColon(g: Ground, p: nat, more: seq<nat>, rest: seq<string>, dim: bool)
    ensures Apply(Codes(Colon(g, p, more)) + rest, dim) == Apply(rest, dim)
  {
    ColonPart(g, p, more);
    assert (Codes(Colon(g, p, more)) + rest)[1..] == rest;
  }

  /** The scanner's parameter loop does to one attribute what it means, and
      continues right behind it. */
  lemma {:induction false} ApplyAttr(a: Attr, rest: seq<string>, dim: bool)
    requires OtherOk(a)
    ensures Apply(Codes(a) + rest, dim) == Apply(rest, Effect(a, dim))
  {
    match a
    case Dim => ApplySimple("2", rest, dim);
    case Normal => ApplySimple("22", rest, dim);
    case Reset => ApplySimple("0", rest, dim);
    case Palette(g, n) =>
      assert Codes(a) == [Intro(g), "5"] + [Dec(n)];
      ApplyColour(g, "5", [Dec(n)], rest, dim);
    case Rgb(g, r, gr, b) =>
      assert Codes(a) == [Intro(g), "2"] + [Dec(r), Dec(gr), Dec(b)];
      ApplyColour(g, "2", [Dec(r), Dec(gr), Dec(b)], rest, dim);
    case Colon(g, p, more) => ApplyColon(g, p, more, rest, dim);
    case Other(n) =>
      DecReadsBack(n);
      DecIsCodeIff(n);
      ApplySimple(Dec(n), rest, dim);
  }

  lemma {:induction false} ApplyAttrs(attrs: seq<Attr>, dim: bool)
    requires forall i :: 0 <= i < |attrs| ==> OtherOk(attrs[i])
    ensures Apply(AllCodes(attrs), dim) == Effects(attrs, dim)
  {
    if attrs != [] {
      ApplyAttr(attrs[0], AllCodes(attrs[1..]), dim);
      ApplyAttrs(attrs[1..], Effect(attrs[0], dim));
    }
  }

  // ------------------------------------------------------------ one sequence

  function BodyOf(attrs: seq<Attr>): string {
    if attrs == [] then "" else JoinOn(AllCodes(attrs), ';')
  }

  function Sgr(attrs: seq<Attr>): Piece { Csi(BodyOf(attrs), "", 'm') }

  predicate CodeChars(s: string) { s != "" && forall i :: 0 <= i < |s| ==> '0' <= s[i] <= '9' || s[i] == ':' }

  lemma {:induction false} ColonTailChars(ns: seq<nat>)
    ensures ColonTail(ns) == "" || CodeChars(ColonTail(ns))
  {
    if ns != [] {
      DecReadsBack(ns[0]);
      ColonTailChars(ns[1..]);
    }
  }

  lemma CodesAreCodes(a: Attr)
    ensures forall i :: 0 <= i < |Codes(a)| ==> CodeChars(Codes(a)[i])
  {
    hide Dec, ColonTail;
    match a
    case Palette(_, n) => DecIsDigits(n);
    case Rgb(_, r, g, b) => DecIsDigits(r); DecIsDigits(g); DecIsDigits(b);
    case Colon(_, p, more) => DecIsDigits(p); ColonTailChars(more);
    case Other(n) => DecIsDigits(n);
    case _ =>
  }

  lemma {:induction false} DecIsDigits(n: nat)
    ensures CodeChars(Dec(n))
  {
    DecReadsBack(n);
  }

  lemma {:induction false} AllCodesAreCodes(attrs: seq<Attr>)
    ensures forall i :: 0 <= i < |AllCodes(attrs)| ==> CodeChars(AllCodes(attrs)[i])
  {
    if attrs != [] {
      CodesAreCodes(attrs[0]);
      AllCodesAreCodes(attrs[1..]);
    }
  }

  lemma {:induction false} JoinedIsParams(parts: seq<string>)
    requires parts != [] && forall i :: 0 <= i < |parts| ==> CodeChars(parts[i])
    ensures JoinOn(parts, ';') != ""
    ensures forall i :: 0 <= i < |JoinOn(parts, ';')| ==> IsParam(JoinOn(parts, ';')[i])
  {
    assert CodeChars(parts[0]);
    if |parts| > 1 {
      JoinedIsParams(parts[1..]);
    }
  }

  /** A printed sequence is a whole control sequence, and the scanner gives it
      its meaning. */
  lemma SgrReadsBack(attrs: seq<Attr>, dim: bool)
    requires forall i :: 0 <= i < |attrs| ==> OtherOk(attrs[i])
    ensures Valid(Sgr(attrs)) && IsSgr(Show(Sgr(attrs)))
    ensures ApplyBody(BodyOf(attrs), dim) == SgrMeaning(attrs, dim)
  {
    if attrs == [] {
      HeadOfDigits("0");
      assert ["0"][1..] == [];
    } else {
      AllCodesAreCodes(attrs);
      var parts := AllCodes(attrs);
      JoinedIsParams(parts);
      forall i | 0 <= i < |parts|
        ensures ';' !in parts[i]
      {
        assert CodeChars(parts[i]);
      }
      SplitOfJoin(parts, ';');
      ApplyAttrs(attrs, dim);
    }
  }

  // -------------------------------------------------------------- documents

  datatype Item = Glyph(c: char) | Style(attrs: seq<Attr>)

  predicate ItemOk(i: Item) {
    match i
    case Glyph(c) => c != ESC
    case Style(attrs) => forall k :: 0 <= k < |attrs| ==> OtherOk(attrs[k])
  }

  ghost predicate DocOk(doc: seq<Item>) { forall i :: 0 <= i < |doc| ==> ItemOk(doc[i]) }

  function PrintItem(i: Item): string {
    match i
    case Glyph(c) => [c]
    case Style(attrs) => Show(Sgr(attrs))
  }

  function Print(doc: seq<Item>): string {
    if doc == [] then "" else PrintItem(doc[0]) + Print(doc[1..])
  }

  /** What the document shows: its glyphs, each with the intensity in force. */
  function Shown(doc: seq<Item>, dim: bool): Scan {
    if doc == [] then Scan("", [], false) else
    match doc[0]
    case Glyph(c) =>
      var r := Shown(doc[1..], dim);
      Scan([c] + r.plain, [dim] + r.dim, r.sawSgr)
    case Style(attrs) => Shown(doc[1..], SgrMeaning(attrs, dim)).(sawSgr := true)
  }

  lemma StyleToken(attrs: seq<Attr>)
    ensures |Show(Sgr(attrs))| >= 3 && Show(Sgr(attrs))[2..|Show(Sgr(attrs))| - 1] == BodyOf(attrs)
  {
    hide BodyOf;
  }

  lemma {:induction false} ScanStyle(attrs: seq<Attr>, rest: string, dim: bool)
    requires forall i :: 0 <= i < |attrs| ==> OtherOk(attrs[i])
    ensures ScanFrom(Show(Sgr(attrs)) + rest, dim) == ScanFrom(rest, SgrMeaning(attrs, dim)).(sawSgr := true)
  {
    hide ScanFrom, Token, Show, BodyOf, SgrMeaning, ApplyBody, OtherOk, Valid;
    SgrReadsBack(attrs, dim);
    WholeSequenceIsToken(Sgr(attrs), rest);
    StyleToken(attrs);
    ScanToken(Show(Sgr(attrs)), rest, dim);
  }

  /** Every document is read back as what it shows. */
  lemma {:induction false} DocumentReadsBack(doc: seq<Item>, dim: bool)
    requires DocOk(doc)
    ensures ScanFrom(Print(doc), dim) == Shown(doc, dim)
  {
    if doc != [] {
      assert ItemOk(doc[0]);
      match doc[0]
      case Glyph(c) =>
        ScanChar(c, Print(doc[1..]), dim);
        DocumentReadsBack(doc[1..], dim);
      case Style(attrs) =>
        ScanStyle(attrs, Print(doc[1..]), dim);
        DocumentReadsBack(doc[1..], SgrMeaning(attrs, dim));
    }
  }

  // ---------------------------------------------------------------- printer

  predicate Neutral(a: Attr) { OtherOk(a) && !a.Dim? && !a.Normal? && !a.Reset? }

  /** A decoration: attributes that leave intensity alone. */
  ghost predicate Decoration(attrs: seq<Attr>) {
    forall i :: 0 <= i < |attrs| ==> Neutral(attrs[i])
  }

  /** Printed in one sequence, or not at all when there is nothing to print. */
  function Deco(attrs: seq<Attr>): seq<Item> { if attrs == [] then [] else [Style(attrs)] }

  /** Three ways to switch dim off: 22, an explicit reset, and a sequence without
      parameters. */
  datatype Off = OffByNormal | OffByReset | OffByNothing

  /** Switch intensity only where it changes. */
  function Switch(from: bool, to: bool, off: Off): seq<Item> {
    if from == to then []
    else if to then [Style([Dim])]
    else
      match off
      case OffByNormal => [Style([Normal])]
      case OffByReset => [Style([Reset])]
      case OffByNothing => [Style([])]
  }

  /** A text printed with a dim flag, a decoration and a way to switch dim off for
      each character. */
  function Typeset(text: string, flags: seq<bool>, deco: seq<seq<Attr>>, offs: seq<Off>, dim: bool): seq<Item>
    requires |flags| == |text| == |deco| == |offs|
  {
    if text == "" then [] else
      Deco(deco[0]) + (Switch(dim, flags[0], offs[0]) + ([Glyph(text[0])]
      + Typeset(text[1..], flags[1..], deco[1..], offs[1..], flags[0])))
  }

  lemma {:induction false} NeutralKeepsDim(attrs: seq<Attr>, dim: bool)
    requires Decoration(attrs)
    ensures Effects(attrs, dim) == dim
  {
    if attrs != [] {
      NeutralKeepsDim(attrs[1..], dim);
    }
  }

  lemma SwitchMeans(from: bool, to: bool, off: Off)
    requires from != to
    ensures var sw := Switch(from, to, off);
            |sw| == 1 && sw[0].Style? && SgrMeaning(sw[0].attrs, from) == to
    ensures DocOk(Switch(from, to, off))
  {
    OneEffect(Dim, from);
    OneEffect(Normal, from);
    OneEffect(Reset, from);
  }

  lemma {:induction false} OneEffect(a: Attr, dim: bool)
    ensures Effects([a], dim) == Effect(a, dim)
  {
    assert [a][1..] == [];
    assert Effects([], Effect(a, dim)) == Effect(a, dim);
  }

  lemma {:induction false} ShownStyle(attrs: seq<Attr>, rest: seq<Item>, dim: bool)
    ensures Shown([Style(attrs)] + rest, dim) == Shown(rest, SgrMeaning(attrs, dim)).(sawSgr := true)
  {
    assert ([Style(attrs)] + rest)[1..] == rest;
  }

  lemma {:induction false} ShownDeco(attrs: seq<Attr>, rest: seq<Item>, dim: bool)
    requires Decoration(attrs)
    ensures Shown(Deco(attrs) + rest, dim).plain == Shown(rest, dim).plain
    ensures Shown(Deco(attrs) + rest, dim).dim == Shown(rest, dim).dim
  {
    hide Shown;
    NeutralKeepsDim(attrs, dim);
    ShownStyle(attrs, rest, dim);
    assert [] + rest == rest;
  }

  lemma {:induction false} ShownSwitch(from: bool, to: bool, off: Off, rest: seq<Item>)
    ensures Shown(Switch(from, to, off) + rest, from).plain == Shown(rest, to).plain
    ensures Shown(Switch(from, to, off) + rest, from).dim == Shown(rest, to).dim
  {
    hide Shown, SgrMeaning, Switch;
    if from == to {
      NoSwitch(from, off, rest);
    } else {
      SwitchMeans(from, to, off);
      var sw := Switch(from, to, off);
      ShownStyle(sw[0].attrs, rest, from);
      assert sw == [Style(sw[0].attrs)];
    }
  }

  lemma NoSwitch(dim: bool, off: Off, rest: seq<Item>)
    ensures Switch(dim, dim, off) + rest == rest
  {
  }

  lemma {:induction false} ShownGlyph(c: char, rest: seq<Item>, dim: bool)
    ensures Shown([Glyph(c)] + rest, dim).plain == [c] + Shown(rest, dim).plain
    ensures Shown([Glyph(c)] + rest, dim).dim == [dim] + Shown(rest, dim).dim
  {
    assert ([Glyph(c)] + rest)[1..] == rest;
  }

  lemma {:induction false} TypesetIsDocument(text: string, flags: seq<bool>, deco: seq<seq<Attr>>, offs: seq<Off>, dim: bool)
    requires |flags| == |text| == |deco| == |offs| && forall i :: 0 <= i < |text| ==> text[i] != ESC
    requires forall i :: 0 <= i < |deco| ==> Decoration(deco[i])
    ensures DocOk(Typeset(text, flags, deco, offs, dim))
  {
    hide Switch;
    if text != "" {
      TypesetIsDocument(text[1..], flags[1..], deco[1..], offs[1..], flags[0]);
      assert Decoration(deco[0]);
      SwitchIsDocument(dim, flags[0], offs[0]);
    }
  }

  lemma SwitchIsDocument(from: bool, to: bool, off: Off)
    ensures DocOk(Switch(from, to, off))
  {
    if from != to {
      SwitchMeans(from, to, off);
    }
  }

  lemma {:induction false} TypesetShows(text: string, flags: seq<bool>, deco: seq<seq<Attr>>, offs: seq<Off>, dim: bool)
    requires |flags| == |text| == |deco| == |offs|
    requires forall i :: 0 <= i < |deco| ==> Decoration(deco[i])
    ensures Shown(Typeset(text, flags, deco, offs, dim), dim).plain == text
    ensures Shown(Typeset(text, flags, deco, offs, dim), dim).dim == flags
  {
    if text != "" {
      hide Shown, Switch, Deco, Decoration;
      var rest := Typeset(text[1..], flags[1..], deco[1..], offs[1..], flags[0]);
      TypesetShows(text[1..], flags[1..], deco[1..], offs[1..], flags[0]);
      ShownGlyph(text[0], rest, flags[0]);
      ShownSwitch(dim, flags[0], offs[0], [Glyph(text[0])] + rest);
      ShownDeco(deco[0], Switch(dim, flags[0], offs[0]) + ([Glyph(text[0])] + rest), dim);
    }
  }

  /** Any escape-free text with any dim flags, printed plainly or with any colours
      and other attributes in between, is read back as exactly that text and those
      flags. */
  lemma {:induction false} PrintedTextReadsBack(text: string, flags: seq<bool>, deco: seq<seq<Attr>>, offs: seq<Off>)
    requires |flags| == |text| == |deco| == |offs| && ESC !in text
    requires forall i :: 0 <= i < |deco| ==> Decoration(deco[i])
    ensures var r := ScanFrom(Print(Typeset(text, flags, deco, offs, false)), false);
            r.plain == text && r.dim == flags
  {
    TypesetIsDocument(text, flags, deco, offs, false);
    TypesetShows(text, flags, deco, offs, false);
    DocumentReadsBack(Typeset(text, flags, deco, offs, false), false);
  }
}
