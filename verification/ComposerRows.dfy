/** Which rows of a capture are prompt rows, frame rows and blank rows
    (terminal_mcp/composer.py, _PROMPT_ROW, _RULE_ROW and _composer_content). */
module ComposerRows {
  import opened Options
  import opened PyText
  import opened Ansi
  import opened Composer

  // -------------------------------------------------------------- prompt rows

  /** A tab, or any character that the row's separators are replaced for. */
  predicate Blank(c: char) { c == '\t' || IsSeparator(c) }

  const MARKERS: set<char> := {'\U{276F}', '\U{203A}', '\U{00BB}', '>'}

  /** Blanks, then one of the four markers at `lead`. */
  ghost predicate PromptAt(plain: string, lead: nat) {
    lead < |plain| && plain[lead] in MARKERS && forall j :: 0 <= j < lead ==> Blank(plain[j])
  }

  lemma {:induction false} LeadLenIs(s: string)
    ensures forall j :: 0 <= j < LeadLen(s) ==> s[j] == ' ' || s[j] == '\t'
    ensures LeadLen(s) < |s| ==> s[LeadLen(s)] != ' ' && s[LeadLen(s)] != '\t'
  {
    if s != "" && (s[0] == ' ' || s[0] == '\t') {
      LeadLenIs(s[1..]);
      assert forall j :: 1 <= j < LeadLen(s) ==> s[j] == s[1..][j - 1];
    }
  }

  lemma PlainSpacesAt(s: string, j: nat)
    requires j < |s|
    ensures Blank(s[j]) <==> PlainSpaces(s)[j] == ' ' || PlainSpaces(s)[j] == '\t'
    ensures s[j] in MARKERS <==> IsMarker(PlainSpaces(s)[j])
  {
  }

  lemma LeadOf(plain: string, lead: nat)
    requires PromptAt(plain, lead)
    ensures LeadLen(PlainSpaces(plain)) == lead
  {
    hide PlainSpaces, MARKERS, IsSeparator;
    var row := PlainSpaces(plain);
    LeadLenIs(row);
    PlainSpacesAt(plain, lead);
    MarkersAreInk(plain[lead]);
    if LeadLen(row) < lead {
      PlainSpacesAt(plain, LeadLen(row));
    }
  }

  lemma MarkersAreInk(c: char)
    requires c in MARKERS
    ensures !Blank(c)
  {
  }

  /** A row is a prompt row exactly when a marker is the first thing on it, and
      its content starts behind the marker and one blank, if there is one. */
  lemma PromptRowIff(plain: string)
    ensures ContentStart(plain).Some? <==> exists lead: nat :: PromptAt(plain, lead)
    ensures forall lead: nat :: PromptAt(plain, lead) ==>
              ContentStart(plain) == Some(lead + if lead + 1 < |plain| && Blank(plain[lead + 1]) then 2 else 1)
  {
    hide PlainSpaces, MARKERS, IsMarker;
    var row := PlainSpaces(plain);
    LeadLenIs(row);
    if ContentStart(plain).Some? {
      var lead := LeadLen(row);
      PlainSpacesAt(plain, lead);
      forall j | 0 <= j < lead
        ensures Blank(plain[j])
      {
        PlainSpacesAt(plain, j);
      }
      assert PromptAt(plain, lead);
    }
    forall lead: nat | PromptAt(plain, lead)
      ensures ContentStart(plain) == Some(lead + if lead + 1 < |plain| && Blank(plain[lead + 1]) then 2 else 1)
    {
      LeadOf(plain, lead);
      PlainSpacesAt(plain, lead);
      if lead + 1 < |plain| {
        PlainSpacesAt(plain, lead + 1);
      }
    }
  }

  // ---------------------------------------------------------------- frame rows

  predicate LineChar(c: char) { c == '-' || c == '_' || c == '=' || 0x2500 <= c as int <= 0x257F }

  /** Nothing but white space outside s[i..j]. */
  ghost predicate BlankOutside(s: string, i: nat, j: nat) {
    i <= j <= |s| && forall k :: 0 <= k < |s| && !(i <= k < j) ==> IsSpace(s[k])
  }

  lemma {:induction false} StripOf(s: string, i: nat, j: nat)
    requires BlankOutside(s, i, j) && i < j && !IsSpace(s[i]) && !IsSpace(s[j - 1])
    ensures Strip(s) == s[i..j]
    decreases |s|
  {
    hide IsSpace;
    if i > 0 {
      assert BlankOutside(s[1..], i - 1, j - 1) && s[1..][i - 1..j - 1] == s[i..j];
      StripOf(s[1..], i - 1, j - 1);
    } else if j < |s| {
      assert BlankOutside(s[..|s| - 1], i, j) && s[..|s| - 1][i..j] == s[i..j];
      StripOf(s[..|s| - 1], i, j);
    } else {
      assert s[i..j] == s;
    }
  }

  lemma {:induction false} StripBounds(s: string) returns (i: nat, j: nat)
    ensures BlankOutside(s, i, j) && Strip(s) == s[i..j]
    decreases |s|
  {
    hide IsSpace;
    if s == "" {
      i, j := 0, 0;
    } else if IsSpace(s[0]) {
      i, j := StripBounds(s[1..]);
      i, j := i + 1, j + 1;
      assert forall k :: 1 <= k < |s| ==> s[k] == s[1..][k - 1];
    } else if IsSpace(s[|s| - 1]) {
      i, j := StripBounds(s[..|s| - 1]);
    } else {
      i, j := 0, |s|;
    }
  }

  /** A row is part of a frame exactly when it shows one line of at least eight
      box-drawing characters, dashes, underscores or equals signs, and nothing
      else. */
  lemma FrameRowIff(plain: string)
    ensures IsRule(plain) <==>
            exists i: nat, j: nat :: BlankOutside(plain, i, j) && i + 8 <= j && forall k :: i <= k < j ==> LineChar(plain[k])
  {
    hide Strip;
    if IsRule(plain) {
      var i, j := StripBounds(plain);
      forall k | i <= k < j
        ensures LineChar(plain[k])
      {
        assert plain[i..j][k - i] == plain[k];
      }
    }
    if i: nat, j: nat :| BlankOutside(plain, i, j) && i + 8 <= j && forall k :: i <= k < j ==> LineChar(plain[k]) {
      assert LineChar(plain[i]) && LineChar(plain[j - 1]);
      StripOf(plain, i, j);
    }
  }

  // ----------------------------------------------------------------- every row

  /** What the classifier sees in one row of a capture, told from its visible
      text. */
  lemma {:induction false} ParsedRowIs(text: string)
    ensures var plain, p := ScanFrom(text, false).plain, ParsedRow(text);
            && (p.content.Some? <==> exists lead: nat :: PromptAt(plain, lead))
            && (p.frame <==> IsRule(plain))
            && (p.blank <==> forall i :: 0 <= i < |plain| ==> IsSpace(plain[i]))
            && |p.cells| == |plain| && forall i :: 0 <= i < |plain| ==> p.cells[i] == (plain[i], ScanFrom(text, false).dim[i])
  {
    hide ScanFrom, IsRule, Strip;
    PromptRowIff(ScanFrom(text, false).plain);
    StripIsEmptyIffBlank(ScanFrom(text, false).plain);
  }
}
