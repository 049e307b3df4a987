/** Reading a transcript by byte offset (terminal_mcp/ai_usage_local.py).

    What one line means (JSON, typed prompts, cost entries, usage counters) is a
    parameter `read`; how lines are cut from bytes, where the offset ends up and
    which prompt a turn is attributed to is the model. */
module UsageParse {
  import opened Collections
  import opened Options

  newtype byte = x: int | 0 <= x < 256
  type Bytes = seq<byte>
  const NEWLINE: byte := 10

  type EventId = nat
  type PromptId = nat
  type SessionId = nat

  datatype Event = Event(id: EventId, session: SessionId, tokens: int)
  datatype Prompt = Prompt(id: PromptId, session: SessionId)
  datatype Cost = Cost(session: SessionId, usd: real)

  /** What the line parser makes of one complete line. */
  datatype Line =
    | Blank | Bad | Other
    | PromptLine(prompt: Prompt) | CostLine(cost: Cost) | EventLine(event: Event)

  type Reader = Bytes -> Line

  /** A turn with the prompt it is attributed to. */
  datatype Entry = Entry(event: Event, prompt: Option<PromptId>)

  datatype Parsed = Parsed(
    entries: seq<Entry>, prompts: seq<Prompt>, costs: seq<Cost>,
    consumed: nat, linesRead: nat, unparsed: nat, last: Option<PromptId>)

  // -------------------------------------------------------------------- lines

  /** Length of the first complete line, newline included; 0 if there is none. */
  function LineLen(b: Bytes): (n: nat)
    ensures n <= |b|
    ensures n > 0 ==> b[n - 1] == NEWLINE
  {
    if b == [] then 0
    else if b[0] == NEWLINE then 1
    else
      var n := LineLen(b[1..]);
      if n == 0 then 0 else n + 1
  }

  /** It is the first newline that ends the line. */
  lemma {:induction false} LineLenIsFirst(b: Bytes)
    ensures forall k :: 0 <= k < |b| && (LineLen(b) > 0 ==> k < LineLen(b) - 1) ==> b[k] != NEWLINE
  {
    if b != [] && b[0] != NEWLINE {
      LineLenIsFirst(b[1..]);
      assert forall k :: 1 <= k < |b| ==> b[k] == b[1..][k - 1];
    }
  }

  predicate AtLineStart(b: Bytes, i: nat) {
    i <= |b| && (i == 0 || b[i - 1] == NEWLINE)
  }

  /** The complete lines of `b`, each with its newline. */
  function Lines(b: Bytes): seq<Bytes>
    decreases |b|
  {
    var n := LineLen(b);
    if n == 0 then [] else [b[..n]] + Lines(b[n..])
  }

  function Size(lines: seq<Bytes>): nat {
    if lines == [] then 0 else |lines[0]| + Size(lines[1..])
  }

  lemma {:induction false} LineLenOfExtension(x: Bytes, y: Bytes)
    requires LineLen(x) > 0
    ensures LineLen(x + y) == LineLen(x)
  {
    if x[0] != NEWLINE {
      LineLenOfExtension(x[1..], y);
      assert (x + y)[1..] == x[1..] + y;
    }
  }

  lemma {:induction false} EndsInLine(x: Bytes)
    requires x != [] && x[|x| - 1] == NEWLINE
    ensures LineLen(x) > 0
  {
    LineLenIsFirst(x);
  }

  lemma {:induction false} UnfoldLines(b: Bytes, n: nat)
    requires n == LineLen(b) > 0
    ensures Lines(b) == [b[..n]] + Lines(b[n..])
    ensures Size(Lines(b)) == n + Size(Lines(b[n..]))
  {
    assert Lines(b)[1..] == Lines(b[n..]);
  }

  lemma {:induction false} RestEndsInLine(x: Bytes, n: nat)
    requires x != [] && AtLineStart(x, |x|) && n == LineLen(x)
    ensures 0 < n && AtLineStart(x[n..], |x| - n)
  {
    EndsInLine(x);
  }

  lemma SliceOfAppend(x: Bytes, y: Bytes, n: nat)
    requires n <= |x|
    ensures (x + y)[..n] == x[..n] && (x + y)[n..] == x[n..] + y
  {
  }

  lemma {:induction false} LinesInTwo(x: Bytes, y: Bytes)
    requires AtLineStart(x, |x|)
    ensures Lines(x + y) == Lines(x) + Lines(y)
    ensures Size(Lines(x)) == |x|
    decreases |x|
  {
    if x == [] {
      assert x + y == y;
    } else {
      hide *;
      var n := LineLen(x);
      RestEndsInLine(x, n);
      LineLenOfExtension(x, y);
      UnfoldLines(x, n);
      UnfoldLines(x + y, n);
      SliceOfAppend(x, y, n);
      LinesInTwo(x[n..], y);
      ConsAppend(x[..n], Lines(x[n..]), Lines(y));
    }
  }

  /** The complete lines fill the bytes up to a line start; what is left holds
      no newline. */
  lemma {:induction false} LinesFill(b: Bytes)
    ensures Size(Lines(b)) <= |b|
    ensures AtLineStart(b, Size(Lines(b)))
    ensures Lines(b[Size(Lines(b))..]) == []
    decreases |b|
  {
    hide *;
    if LineLen(b) == 0 {
      NothingToFill(b);
    } else {
      LinesFill(b[LineLen(b)..]);
      FilledAfterOneLine(b, LineLen(b), Size(Lines(b[LineLen(b)..])));
    }
  }

  lemma {:induction false} NothingToFill(b: Bytes)
    requires LineLen(b) == 0
    ensures Size(Lines(b)) == 0 && AtLineStart(b, 0) && Lines(b[0..]) == []
  {
    assert b[0..] == b;
  }

  lemma {:induction false} FilledAfterOneLine(b: Bytes, n: nat, c: nat)
    requires n == LineLen(b) > 0 && c == Size(Lines(b[n..])) <= |b| - n
    requires AtLineStart(b[n..], c) && Lines(b[n..][c..]) == []
    ensures Size(Lines(b)) == n + c && AtLineStart(b, n + c) && Lines(b[n + c..]) == []
  {
    hide LineLen, Lines, Size;
    UnfoldLines(b, n);
    assert b[n..][c..] == b[n + c..];
  }

  /** The bytes after the last newline hold no line. */
  lemma {:induction false} LinesOfCompletePart(b: Bytes)
    ensures Size(Lines(b)) <= |b| && Lines(b[..Size(Lines(b))]) == Lines(b)
  {
    LinesFill(b);
    var c := Size(Lines(b));
    assert b[..c] + b[c..] == b;
    LinesInTwo(b[..c], b[c..]);
  }

  // ------------------------------------------------------------------ parsing

  function Nothing(carry: Option<PromptId>): Parsed {
    Parsed([], [], [], 0, 0, 0, carry)
  }

  /** What one line of `n` bytes contributes, read with `carry` as the current
      prompt. */
  function OneLine(line: Line, n: nat, carry: Option<PromptId>): Parsed {
    match line
    case Blank => Nothing(carry).(consumed := n)
    case Bad => Parsed([], [], [], n, 1, 1, carry)
    case Other => Parsed([], [], [], n, 1, 0, carry)
    case PromptLine(p) => Parsed([], [p], [], n, 1, 0, Some(p.id))
    case CostLine(c) => Parsed([], [], [c], n, 1, 0, carry)
    case EventLine(e) => Parsed([Entry(e, carry)], [], [], n, 1, 0, carry)
  }

  function Then(a: Parsed, b: Parsed): Parsed {
    Parsed(a.entries + b.entries, a.prompts + b.prompts, a.costs + b.costs,
           a.consumed + b.consumed, a.linesRead + b.linesRead, a.unparsed + b.unparsed, b.last)
  }

  /** Every given line, in order. */
  function ParseLines(read: Reader, lines: seq<Bytes>, carry: Option<PromptId>): Parsed {
    if lines == [] then Nothing(carry) else
      var first := OneLine(read(lines[0]), |lines[0]|, carry);
      Then(first, ParseLines(read, lines[1..], first.last))
  }

  /** Every complete line of `b`, in order; a partial last line is not read. */
  function Parse(read: Reader, b: Bytes, carry: Option<PromptId>): Parsed {
    ParseLines(read, Lines(b), carry)
  }

  /** The parse of a whole file from its start. */
  function Whole(read: Reader, b: Bytes): Parsed {
    Parse(read, b, None)
  }

  lemma ThenIsAssociative(a: Parsed, b: Parsed, c: Parsed)
    ensures Then(Then(a, b), c) == Then(a, Then(b, c))
  {
    assert (a.entries + b.entries) + c.entries == a.entries + (b.entries + c.entries);
    assert (a.prompts + b.prompts) + c.prompts == a.prompts + (b.prompts + c.prompts);
    assert (a.costs + b.costs) + c.costs == a.costs + (b.costs + c.costs);
  }

  lemma {:induction false} ParseLinesInTwo(read: Reader, x: seq<Bytes>, y: seq<Bytes>, carry: Option<PromptId>)
    ensures ParseLines(read, x + y, carry)
            == Then(ParseLines(read, x, carry), ParseLines(read, y, ParseLines(read, x, carry).last))
  {
    if x == [] {
      assert x + y == y;
      var p := ParseLines(read, y, carry);
      assert Then(Nothing(carry), p) == p;
    } else {
      var first := OneLine(read(x[0]), |x[0]|, carry);
      assert (x + y)[0] == x[0] && (x + y)[1..] == x[1..] + y;
      ParseLinesInTwo(read, x[1..], y, first.last);
      ThenIsAssociative(first, ParseLines(read, x[1..], first.last),
                        ParseLines(read, y, ParseLines(read, x, carry).last));
    }
  }

  lemma {:induction false} ConsumedIsSize(read: Reader, lines: seq<Bytes>, carry: Option<PromptId>)
    ensures ParseLines(read, lines, carry).consumed == Size(lines)
  {
    if lines != [] {
      ConsumedIsSize(read, lines[1..], OneLine(read(lines[0]), |lines[0]|, carry).last);
    }
  }

  /** The offset after a parse sits just after a newline, and no complete line
      is left behind it. */
  lemma ParseStopsAtLineStart(read: Reader, b: Bytes, carry: Option<PromptId>)
    ensures var c := Parse(read, b, carry).consumed;
            c <= |b| && AtLineStart(b, c) && Lines(b[c..]) == []
  {
    ConsumedIsSize(read, Lines(b), carry);
    LinesFill(b);
  }

  /** Reading up to a line start and then on from there, with the prompt in
      force there, is reading everything. */
  lemma ParseInTwo(read: Reader, x: Bytes, y: Bytes, carry: Option<PromptId>)
    requires AtLineStart(x, |x|)
    ensures Parse(read, x, carry).consumed == |x|
    ensures Parse(read, x + y, carry) == Then(Parse(read, x, carry), Parse(read, y, Parse(read, x, carry).last))
  {
    LinesInTwo(x, y);
    ConsumedIsSize(read, Lines(x), carry);
    ParseLinesInTwo(read, Lines(x), Lines(y), carry);
  }

  /** The bytes after the last newline do not matter. */
  lemma ParseOfCompletePart(read: Reader, b: Bytes, carry: Option<PromptId>)
    ensures var c := Parse(read, b, carry).consumed;
            c <= |b| && Parse(read, b[..c], carry) == Parse(read, b, carry)
  {
    ConsumedIsSize(read, Lines(b), carry);
    LinesOfCompletePart(b);
  }

  /** A file that only grows keeps what was read from it, entry by entry. */
  lemma ParseOfGrownFile(read: Reader, b: Bytes, more: Bytes, carry: Option<PromptId>)
    ensures Parse(read, b, carry).entries <= Parse(read, b + more, carry).entries
    ensures Parse(read, b, carry).prompts <= Parse(read, b + more, carry).prompts
    ensures Parse(read, b, carry).costs <= Parse(read, b + more, carry).costs
  {
    LinesFill(b);
    LinesOfCompletePart(b);
    var c := Size(Lines(b));
    assert b + more == b[..c] + (b[c..] + more);
    ParseInTwo(read, b[..c], b[c..] + more, carry);
  }

  /** The carried prompt changes attributions only. */
  lemma {:induction false} CarryOnlyAttributes(read: Reader, lines: seq<Bytes>, carry: Option<PromptId>)
    ensures ParseLines(read, lines, carry).prompts == ParseLines(read, lines, None).prompts
    ensures ParseLines(read, lines, carry).costs == ParseLines(read, lines, None).costs
  {
    if lines != [] {
      var line, n := read(lines[0]), |lines[0]|;
      CarryOnlyAttributes(read, lines[1..], OneLine(line, n, carry).last);
      CarryOnlyAttributes(read, lines[1..], OneLine(line, n, None).last);
    }
  }

  /** The lines of one kind. */
  function Count(read: Reader, lines: seq<Bytes>, kind: Line -> bool): nat {
    if lines == [] then 0 else (if kind(read(lines[0])) then 1 else 0) + Count(read, lines[1..], kind)
  }

  /** What a parse counts: the lines that are not blank, and among them those that
      could not be parsed; and it hands on one entry, prompt or cost for each line
      that is one. */
  lemma {:induction false} ParseCounts(read: Reader, lines: seq<Bytes>, carry: Option<PromptId>)
    ensures var p := ParseLines(read, lines, carry);
            && p.linesRead == Count(read, lines, (l: Line) => !l.Blank?)
            && p.unparsed == Count(read, lines, (l: Line) => l.Bad?)
            && |p.entries| == Count(read, lines, (l: Line) => l.EventLine?)
            && |p.prompts| == Count(read, lines, (l: Line) => l.PromptLine?)
            && |p.costs| == Count(read, lines, (l: Line) => l.CostLine?)
  {
    if lines != [] {
      ParseCounts(read, lines[1..], OneLine(read(lines[0]), |lines[0]|, carry).last);
    }
  }

  /** The entry of a turn: its event, under the last prompt typed before it, or
      under the carried one if there is none. */
  lemma {:induction false} EntryOfTurn(read: Reader, lines: seq<Bytes>, carry: Option<PromptId>, i: nat)
    requires i < |lines| && read(lines[i]).EventLine?
    ensures var es, k := ParseLines(read, lines, carry).entries, |ParseLines(read, lines[..i], carry).entries|;
            var before := LastPrompt(read, lines[..i]);
            && k < |es|
            && es[k] == Entry(read(lines[i]).event, if before.Some? then before else carry)
  {
    hide ParseLines;
    var first, rest := lines[..i], lines[i..];
    assert lines == first + rest && rest[0] == lines[i];
    ParseLinesInTwo(read, first, rest, carry);
    ParseEndsInLastPrompt(read, first, carry);
    TurnComesFirst(read, rest, ParseLines(read, first, carry).last);
  }

  lemma {:induction false} TurnComesFirst(read: Reader, lines: seq<Bytes>, carry: Option<PromptId>)
    requires lines != [] && read(lines[0]).EventLine?
    ensures ParseLines(read, lines, carry).entries != []
    ensures ParseLines(read, lines, carry).entries[0] == Entry(read(lines[0]).event, carry)
  {
  }

  /** The last prompt typed among some lines. */
  function LastPrompt(read: Reader, lines: seq<Bytes>): Option<PromptId> {
    if lines == [] then None else
      var later := LastPrompt(read, lines[1..]);
      if later.Some? then later
      else if read(lines[0]).PromptLine? then Some(read(lines[0]).prompt.id) else None
  }

  lemma {:induction false} ParseEndsInLastPrompt(read: Reader, lines: seq<Bytes>, carry: Option<PromptId>)
    ensures ParseLines(read, lines, carry).last
            == if LastPrompt(read, lines).Some? then LastPrompt(read, lines) else carry
  {
    if lines != [] {
      ParseEndsInLastPrompt(read, lines[1..], OneLine(read(lines[0]), |lines[0]|, carry).last);
    }
  }

  /** Equal entries, except that an attribution may be missing. */
  ghost predicate SameButMissing(got: seq<Entry>, want: seq<Entry>) {
    && |got| == |want|
    && forall i :: 0 <= i < |got| ==>
         got[i].event == want[i].event && (got[i].prompt == want[i].prompt || got[i].prompt == None)
  }

  /** Losing the carried prompt loses attributions but never invents one. */
  lemma {:induction false} LostCarryOnlyLoses(read: Reader, lines: seq<Bytes>, carry: Option<PromptId>)
    ensures var got, want := ParseLines(read, lines, None), ParseLines(read, lines, carry);
            && SameButMissing(got.entries, want.entries)
            && (got.last == want.last || got.last == None)
  {
    hide SameButMissing, OneLine;
    if lines == [] {
      SameEntries([]);
    } else {
      var line, n := read(lines[0]), |lines[0]|;
      var got, want := OneLine(line, n, None), OneLine(line, n, carry);
      LostCarryOnOneLine(line, n, carry);
      if got.last == want.last {
        SameEntries(ParseLines(read, lines[1..], got.last).entries);
      } else {
        LostCarryOnlyLoses(read, lines[1..], carry);
      }
      SameButMissingConcat(got.entries, want.entries,
                           ParseLines(read, lines[1..], got.last).entries, ParseLines(read, lines[1..], want.last).entries);
    }
  }

  /** A prompt line forgets the carry, any other passes it on. */
  lemma LostCarryOnOneLine(line: Line, n: nat, carry: Option<PromptId>)
    ensures var got, want := OneLine(line, n, None), OneLine(line, n, carry);
            && SameButMissing(got.entries, want.entries)
            && (got.last == want.last || (got.last == None && want.last == carry))
  {
  }

  lemma SameEntries(es: seq<Entry>)
    ensures SameButMissing(es, es)
  {
  }

  lemma SameButMissingConcat(got: seq<Entry>, want: seq<Entry>, got': seq<Entry>, want': seq<Entry>)
    requires SameButMissing(got, want) && SameButMissing(got', want')
    ensures SameButMissing(got + got', want + want')
  {
  }

  // ------------------------------------------------------------------- method

  /** A read that fails delivers only the first bytes and then raises. */
  function Delivered(b: Bytes, fault: Option<nat>): Bytes {
    if fault.Some? && fault.value <= |b| then b[..fault.value] else b
  }

  /** What seek(start) leaves to read. */
  function Tail(b: Bytes, start: nat): Bytes {
    if start <= |b| then b[start..] else []
  }

  /** The outcome of one call: on a read error everything read so far is kept,
      but the current prompt is not reported. */
  function Outcome(read: Reader, b: Bytes, start: nat, carry: Option<PromptId>, fault: Option<nat>): Parsed {
    var p := Parse(read, Delivered(Tail(b, start), fault), carry);
    if fault.Some? then p.(last := None) else p
  }

  /** One turn of the loop: a line of `n` bytes is added to what was read. */
  method AddLine(line: Line, n: nat, before: Parsed) returns (p: Parsed)
    ensures p == Then(before, OneLine(line, n, before.last))
  {
    assert before.entries + [] == before.entries && before.prompts + [] == before.prompts && before.costs + [] == before.costs;
    p := before.(consumed := before.consumed + n);
    match line {
      case Blank =>
      case Bad => p := p.(linesRead := p.linesRead + 1, unparsed := p.unparsed + 1);
      case Other => p := p.(linesRead := p.linesRead + 1);
      case PromptLine(q) => p := p.(linesRead := p.linesRead + 1, prompts := p.prompts + [q], last := Some(q.id));
      case CostLine(c) => p := p.(linesRead := p.linesRead + 1, costs := p.costs + [c]);
      case EventLine(e) => p := p.(linesRead := p.linesRead + 1, entries := p.entries + [Entry(e, p.last)]);
    }
  }

  /** The loop of parse_claude_transcript over what the file delivered. */
  method ReadLines(read: Reader, tail: Bytes, carry: Option<PromptId>) returns (p: Parsed)
    ensures p == Parse(read, tail, carry)
  {
    hide *;
    var rest := tail;
    p := Nothing(carry);
    ThenUnits(carry, p, Parse(read, tail, carry));
    var n := LineLen(rest);
    while n > 0
      invariant n == LineLen(rest)
      invariant Parse(read, tail, carry) == Then(p, Parse(read, rest, p.last))
      decreases |rest|
    {
      var line := read(rest[..n]);
      ReadOneMore(read, rest, p);
      p := AddLine(line, n, p);
      rest := rest[n..];
      n := LineLen(rest);
    }
    ParseOfNoLine(read, rest, p.last);
    ThenUnits(carry, p, p);
  }

  lemma ThenUnits(carry: Option<PromptId>, p: Parsed, q: Parsed)
    ensures Nothing(carry).last == carry
    ensures Then(Nothing(carry), q) == q
    ensures Then(p, Nothing(p.last)) == p
  {
  }

  lemma {:induction false} ParseOfNoLine(read: Reader, b: Bytes, carry: Option<PromptId>)
    requires LineLen(b) == 0
    ensures Parse(read, b, carry) == Nothing(carry)
  {
  }

  /** parse_claude_transcript. `endOffset` is start plus the complete lines read. */
  method ParseTranscript(read: Reader, b: Bytes, start: nat, carry: Option<PromptId>, fault: Option<nat>)
    returns (p: Parsed, endOffset: nat)
    ensures p == Outcome(read, b, start, carry, fault)
    ensures endOffset == start + p.consumed
    ensures endOffset <= |b| || endOffset == start
    ensures start <= |b| && AtLineStart(b, start) ==> AtLineStart(b, endOffset)
  {
    hide Lines, ParseLines, Parse;
    var tail := Delivered(Tail(b, start), fault);
    p := ReadLines(read, tail, carry);
    ParseStopsAtLineStart(read, tail, carry);
    endOffset := start + p.consumed;
    EndsAtLineStart(b, start, fault, p.consumed);
    if fault.Some? {
      p := p.(last := None);
    }
  }

  /** Moving the first complete line of the rest into what was read. */
  lemma {:induction false} ReadOneMore(read: Reader, rest: Bytes, p: Parsed)
    requires LineLen(rest) > 0
    ensures var n := LineLen(rest);
            var p' := Then(p, OneLine(read(rest[..n]), n, p.last));
            Then(p, Parse(read, rest, p.last)) == Then(p', Parse(read, rest[n..], p'.last))
  {
    UnfoldParse(read, rest, p.last);
    var n := LineLen(rest);
    var first := OneLine(read(rest[..n]), n, p.last);
    ThenIsAssociative(p, first, Parse(read, rest[n..], first.last));
  }

  lemma {:induction false} UnfoldParse(read: Reader, b: Bytes, carry: Option<PromptId>)
    requires LineLen(b) > 0
    ensures var n := LineLen(b);
            var first := OneLine(read(b[..n]), n, carry);
            Parse(read, b, carry) == Then(first, Parse(read, b[n..], first.last))
  {
    assert Lines(b)[1..] == Lines(b[LineLen(b)..]);
  }

  lemma EndsAtLineStart(b: Bytes, start: nat, fault: Option<nat>, consumed: nat)
    requires var tail := Delivered(Tail(b, start), fault); consumed <= |tail| && AtLineStart(tail, consumed)
    ensures start + consumed <= |b| || consumed == 0
    ensures start <= |b| && AtLineStart(b, start) ==> AtLineStart(b, start + consumed)
  {
    if start <= |b| && consumed > 0 {
      assert Delivered(b[start..], fault)[consumed - 1] == b[start + consumed - 1];
    }
  }
}
