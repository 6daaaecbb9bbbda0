/** The text the analyzer writes to its report file and sends as the email body:
    for every section with ranked entries, a header, a rule of 50 dashes, one
    `Rank i: key (Count: c)` line per entry, and another rule. The email body is the
    same text after a fixed title. */
module Reporter {
  import opened Common
  import opened LineParser
  import opened Ranker

  /** One entry of the results dict: a section heading and its ranked list. */
  datatype Section = Section(heading: string, entries: seq<Entry>)

  /** The first line of the email body and the blank line after it. */
  const Title: string := "FRPS Analysis Results\n\n"

  /** The width of the rule around each section. */
  const RuleWidth: nat := 50

  /** `"-" * n` */
  function Dashes(n: nat): (r: string)
    ensures |r| == n
    ensures forall i :: 0 <= i < n ==> r[i] == '-'
  {
    if n == 0 then "" else Dashes(n - 1) + "-"
  }

  /** `"-" * 50 + "\n"` */
  const Rule: string := Dashes(RuleWidth) + "\n"

  // ---------------------------------------------------------------------------
  // Numbers as f-strings print them.

  function DigitChar(d: nat): (c: char)
    requires d < 10
    ensures IsDigit(c)
  {
    (48 + d) as char
  }

  /** `str(n)` for a non-negative integer: decimal digits, no leading zero. */
  function Decimal(n: nat): (s: string)
    ensures |s| >= 1
    ensures forall i :: 0 <= i < |s| ==> IsDigit(s[i])
    ensures |s| > 1 ==> s[0] != '0'
  {
    if n < 10 then [DigitChar(n)] else Decimal(n / 10) + [DigitChar(n % 10)]
  }

  /** The number a string of decimal digits denotes. */
  function DecimalValue(s: string): nat
    requires forall i :: 0 <= i < |s| ==> IsDigit(s[i])
  {
    if s == [] then 0
    else
      assert IsDigit(s[|s| - 1]);
      DecimalValue(s[..|s| - 1]) * 10 + (s[|s| - 1] as int - 48)
  }

  /** Reading the digits back gives the number. */
  lemma {:induction false} DecimalRoundTrip(n: nat)
    ensures DecimalValue(Decimal(n)) == n
  {
    if n >= 10 {
      DecimalRoundTrip(n / 10);
      var s := Decimal(n);
      assert s[..|s| - 1] == Decimal(n / 10);
    }
  }

  // ---------------------------------------------------------------------------
  // The text.

  /** `f"Rank {rank}: {item} (Count: {count})\n"` */
  function RankLine(rank: nat, e: Entry): string
  {
    "Rank " + Decimal(rank) + ": " + e.key + " (Count: " + Decimal(e.count) + ")\n"
  }

  /** The lines of a ranked list, numbered from 1 as `enumerate(ranked_items, 1)` does. */
  function RankLines(entries: seq<Entry>): string
  {
    if entries == [] then ""
    else RankLines(entries[..|entries| - 1]) + RankLine(|entries|, entries[|entries| - 1])
  }

  /** `f"\n{section}:\n"` */
  function Header(heading: string): string
  {
    "\n" + heading + ":\n"
  }

  /** A section's text; nothing for a section with an empty list. */
  function SectionText(section: Section): string
  {
    if section.entries == [] then ""
    else Header(section.heading) + Rule + RankLines(section.entries) + Rule
  }

  /** All sections' text, in the order of the results. */
  function ReportText(results: seq<Section>): string
  {
    if results == [] then ""
    else ReportText(results[..|results| - 1]) + SectionText(results[|results| - 1])
  }

  // ---------------------------------------------------------------------------
  // The two writers.

  /** The report file, as the text written to it so far. */
  class ReportFile {
    var contents: string

    /** `open(output_file, 'w')`: a new, empty file. */
    constructor ()
      ensures contents == ""
    {
      contents := "";
    }

    /** `f.write(text)` */
    method Write(text: string)
      modifies this
      ensures contents == old(contents) + text
    {
      contents := contents + text;
    }
  }

  /** The body of `write_results`: writes every non-empty section to a new file. */
  method WriteResults(results: seq<Section>) returns (file: ReportFile)
    ensures fresh(file)
    ensures file.contents == ReportText(results)
  {
    file := new ReportFile();
    for i := 0 to |results|
      invariant file.contents == ReportText(results[..i])
    {
      ReportTextStep(results, i);
      if results[i].entries == [] {
        continue;
      }
      WriteSection(file, results[i]);
    }
    assert results[..|results|] == results;
  }

  /** One iteration of the outer loop of `write_results`, for a non-empty list. */
  method WriteSection(file: ReportFile, section: Section)
    requires section.entries != []
    modifies file
    ensures file.contents == old(file.contents) + SectionText(section)
  {
    file.Write(Header(section.heading));
    file.Write(Rule);
    ghost var head := file.contents;
    assert head + RankLines(section.entries[..0]) == head;
    for j := 0 to |section.entries|
      invariant file.contents == head + RankLines(section.entries[..j])
    {
      RankLinesStep(section.entries, j);
      var line := RankLine(j + 1, section.entries[j]);
      file.Write(line);
      AppendAssociative(head, RankLines(section.entries[..j]), line);
    }
    file.Write(Rule);
    SectionTextSteps(old(file.contents), section);
  }

  /** `format_results_for_email`: the title, then every non-empty section. */
  method FormatResultsForEmail(results: seq<Section>) returns (content: string)
    ensures content == Title + ReportText(results)
  {
    content := Title;
    for i := 0 to |results|
      invariant content == Title + ReportText(results[..i])
    {
      ReportTextStep(results, i);
      if results[i].entries == [] {
        assert ReportText(results[..i + 1]) == ReportText(results[..i]) + "" == ReportText(results[..i]);
        continue;
      }
      content := AppendSection(content, results[i]);
      AppendAssociative(Title, ReportText(results[..i]), SectionText(results[i]));
    }
    assert results[..|results|] == results;
  }

  /** One iteration of the outer loop of `format_results_for_email`, for a
      non-empty list. */
  method AppendSection(content: string, section: Section) returns (text: string)
    requires section.entries != []
    ensures text == content + SectionText(section)
  {
    text := content + Header(section.heading);
    text := text + Rule;
    ghost var head := text;
    assert head + RankLines(section.entries[..0]) == head;
    for j := 0 to |section.entries|
      invariant text == head + RankLines(section.entries[..j])
    {
      RankLinesStep(section.entries, j);
      var line := RankLine(j + 1, section.entries[j]);
      text := text + line;
      AppendAssociative(head, RankLines(section.entries[..j]), line);
    }
    text := text + Rule;
    SectionTextSteps(content, section);
  }

  /** Regrouping a concatenation. Dafny knows this unaided; calling it names the
      three pieces so the loop proofs above stay cheap. */
  lemma AppendAssociative(a: string, b: string, c: string)
    ensures a + b + c == a + (b + c)
  {
  }

  /** One more section: its text is appended. */
  lemma ReportTextStep(results: seq<Section>, i: nat)
    requires i < |results|
    ensures ReportText(results[..i + 1]) == ReportText(results[..i]) + SectionText(results[i])
  {
    assert results[..i + 1][..i] == results[..i];
  }

  /** One more entry: its line is appended. */
  lemma RankLinesStep(entries: seq<Entry>, j: nat)
    requires j < |entries|
    ensures RankLines(entries[..j + 1]) == RankLines(entries[..j]) + RankLine(j + 1, entries[j])
  {
    assert entries[..j + 1][..j] == entries[..j];
  }

  /** Writing a non-empty section piece by piece after `prefix` gives `prefix`
      followed by the section's text. */
  lemma SectionTextSteps(prefix: string, section: Section)
    requires section.entries != []
    ensures prefix + Header(section.heading) + Rule + RankLines(section.entries[..|section.entries|]) + Rule
      == prefix + SectionText(section)
  {
    assert section.entries[..|section.entries|] == section.entries;
  }

  // ---------------------------------------------------------------------------
  // Reading a rank line back.

  /** Start of the maximal run of digits that ends at `e`. */
  function DigitsStart(s: string, e: nat): (b: nat)
    requires e <= |s|
    ensures b <= e
    ensures forall j :: b <= j < e ==> IsDigit(s[j])
    ensures b == 0 || !IsDigit(s[b - 1])
  {
    if e == 0 || !IsDigit(s[e - 1]) then e else DigitsStart(s, e - 1)
  }

  /** Recovers the rank and the entry from a rank line: the rank is the digit run
      after `Rank `, the count the digit run before the closing `)\n`, and the key
      is everything between, so a key may hold any character. */
  function ParseRankLine(s: string): (r: Option<(nat, Entry)>)
    ensures r.Some? ==> |s| >= 5 && s[..5] == "Rank "
  {
    if |s| < 5 || s[..5] != "Rank " || |s| < 2 || s[|s| - 2..] != ")\n" then None
    else
      var d := RunEnd(s, 5, Digit);
      var c := DigitsStart(s, |s| - 2);
      if d == 5 || c == |s| - 2 || d + 2 + 9 > c || s[d..d + 2] != ": " || s[c - 9..c] != " (Count: " then None
      else
        RunEndMaximal(s, 5, Digit);
        Some((DecimalValue(s[5..d]), Entry(s[d + 2..c - 9], DecimalValue(s[c..|s| - 2]))))
  }

  /** Round trip: every rank line reads back as the rank and entry it was made from. */
  lemma RankLineRoundTrip(rank: nat, e: Entry)
    ensures ParseRankLine(RankLine(rank, e)) == Some((rank, e))
  {
    var s := RankLine(rank, e);
    var dr, dc := Decimal(rank), Decimal(e.count);
    SevenSlices("Rank ", dr, ": ", e.key, " (Count: ", dc, ")\n");
    var d := 5 + |dr|;
    var c := |s| - 2 - |dc|;
    assert s[d] == ':' && s[c - 1] == ' ';
    forall j | 5 <= j < d
      ensures InClass(s[j], Digit)
    {
      assert s[j] == dr[j - 5];
    }
    forall j | c <= j < |s| - 2
      ensures IsDigit(s[j])
    {
      assert s[j] == dc[j - c];
    }
    RunEndAt(s, 5, Digit, d);
    DigitsStartAt(s, c, |s| - 2);
    assert s[5..d] == dr && s[d + 2..c - 9] == e.key && s[c..|s| - 2] == dc;
    ParseRankLineAt(s, d, c);
    DecimalRoundTrip(rank);
    DecimalRoundTrip(e.count);
  }

  /** A line with `Rank `, a digit run ending at `d`, `: `, then ` (Count: `, a digit
      run starting at `c`, and `)\n` parses into those three parts. */
  lemma ParseRankLineAt(s: string, d: nat, c: nat)
    requires |s| >= 5 && s[..5] == "Rank " && s[|s| - 2..] == ")\n"
    requires 5 < d && d + 2 + 9 <= c < |s| - 2
    requires RunEnd(s, 5, Digit) == d && DigitsStart(s, |s| - 2) == c
    requires s[d..d + 2] == ": " && s[c - 9..c] == " (Count: "
    requires forall j :: 5 <= j < d ==> IsDigit(s[j])
    ensures ParseRankLine(s) == Some((DecimalValue(s[5..d]), Entry(s[d + 2..c - 9], DecimalValue(s[c..|s| - 2]))))
  {
  }

  /** Where each piece of a concatenation of seven sits. Dafny knows this unaided;
      stating it once keeps `RankLineRoundTrip` from rediscovering each slice. */
  lemma SevenSlices(p1: string, x: string, p2: string, k: string, p3: string, y: string, p4: string)
    ensures var s := p1 + x + p2 + k + p3 + y + p4;
      var d := |p1| + |x|;
      var c := |s| - |p4| - |y|;
      && s[..|p1|] == p1 && s[|p1|..d] == x && s[d..d + |p2|] == p2
      && s[d + |p2|..c - |p3|] == k && s[c - |p3|..c] == p3 && s[c..|s| - |p4|] == y
      && s[|s| - |p4|..] == p4
  {
  }

  /** A digit run preceded by a non-digit starts where `DigitsStart` says. */
  lemma {:induction false} DigitsStartAt(s: string, b: nat, e: nat)
    requires 0 < b <= e <= |s|
    requires forall j :: b <= j < e ==> IsDigit(s[j])
    requires !IsDigit(s[b - 1])
    ensures DigitsStart(s, e) == b
    decreases e
  {
    if b < e {
      DigitsStartAt(s, b, e - 1);
    }
  }

  // ---------------------------------------------------------------------------
  // Reading a section back.

  /** The entries of a ranked list with the ranks `enumerate(entries, 1)` gives them. */
  function Numbered(entries: seq<Entry>): (r: seq<(nat, Entry)>)
    ensures |r| == |entries|
    ensures forall i :: 0 <= i < |r| ==> r[i] == (i + 1, entries[i])
  {
    if entries == [] then []
    else Numbered(entries[..|entries| - 1]) + [(|entries|, entries[|entries| - 1])]
  }

  /** Start of the line that ends at `e`: just after the newline before it. */
  function LineStart(s: string, e: nat): (b: nat)
    requires e <= |s|
    ensures b <= e
    ensures forall j :: b <= j < e ==> s[j] != '\n'
    ensures b == 0 || s[b - 1] == '\n'
  {
    if e == 0 || s[e - 1] == '\n' then e else LineStart(s, e - 1)
  }

  /** Splits `s` into its newline-terminated lines, each with its newline;
      `None` when the text does not end with a newline. */
  function Lines(s: string): Option<seq<string>>
    decreases |s|
  {
    if s == [] then Some([])
    else if s[|s| - 1] != '\n' then None
    else
      var b := LineStart(s, |s| - 1);
      var init := Lines(s[..b]);
      if init.Some? then Some(init.value + [s[b..]]) else None
  }

  /** Parses every line as a rank line; `None` when one is not. */
  function ParseRankLines(lines: seq<string>): Option<seq<(nat, Entry)>>
  {
    if lines == [] then Some([])
    else
      var init := ParseRankLines(lines[..|lines| - 1]);
      var last := ParseRankLine(lines[|lines| - 1]);
      if init.Some? && last.Some? then Some(init.value + [last.value]) else None
  }

  /** The rank lines of a list, one string per line. */
  function RankLineList(entries: seq<Entry>): (r: seq<string>)
    ensures |r| == |entries|
    ensures forall i :: 0 <= i < |r| ==> r[i] == RankLine(i + 1, entries[i])
  {
    if entries == [] then []
    else RankLineList(entries[..|entries| - 1]) + [RankLine(|entries|, entries[|entries| - 1])]
  }

  /** Reads a section's text back: the header for `heading`, a rule, the rank lines
      and a rule. */
  function ReadSection(t: string, heading: string): Option<seq<(nat, Entry)>>
  {
    var top := Header(heading) + Rule;
    if |t| < |top| + |Rule| || t[..|top|] != top || t[|t| - |Rule|..] != Rule then None
    else
      var lines := Lines(t[|top|..|t| - |Rule|]);
      if lines.None? then None else ParseRankLines(lines.value)
  }

  /** A rank line for a key without a newline has exactly one newline: its last
      character. */
  lemma RankLineOneLine(rank: nat, e: Entry)
    requires '\n' !in e.key
    ensures var s := RankLine(rank, e);
      |s| > 0 && s[|s| - 1] == '\n' && forall j :: 0 <= j < |s| - 1 ==> s[j] != '\n'
  {
    var s := RankLine(rank, e);
    var dr, dc := Decimal(rank), Decimal(e.count);
    var body := "Rank " + dr + ": " + e.key + " (Count: " + dc + ")";
    assert s == body + "\n";
    assert '\n' !in dr && '\n' !in dc by {
      assert forall j :: 0 <= j < |dr| ==> IsDigit(dr[j]);
      assert forall j :: 0 <= j < |dc| ==> IsDigit(dc[j]);
    }
    assert '\n' !in body;
    forall j | 0 <= j < |s| - 1
      ensures s[j] != '\n'
    {
      assert s[j] == body[j];
    }
  }

  /** A newline-free stretch that follows a newline (or the start) starts where
      `LineStart` says. */
  lemma {:induction false} LineStartAt(s: string, b: nat, e: nat)
    requires b <= e <= |s|
    requires forall j :: b <= j < e ==> s[j] != '\n'
    requires b == 0 || s[b - 1] == '\n'
    ensures LineStart(s, e) == b
    decreases e
  {
    if b < e {
      LineStartAt(s, b, e - 1);
    }
  }

  /** One more line after complete lines is split off as the last line. */
  lemma LinesSnoc(head: string, line: string)
    requires head == [] || head[|head| - 1] == '\n'
    requires |line| > 0 && line[|line| - 1] == '\n'
    requires forall j :: 0 <= j < |line| - 1 ==> line[j] != '\n'
    ensures Lines(head + line) == if Lines(head).Some? then Some(Lines(head).value + [line]) else None
  {
    var s := head + line;
    forall j | |head| <= j < |s| - 1
      ensures s[j] != '\n'
    {
      assert s[j] == line[j - |head|];
    }
    LineStartAt(s, |head|, |s| - 1);
    assert s[..|head|] == head && s[|head|..] == line;
  }

  /** Rank lines end with a newline. */
  lemma RankLinesEnd(entries: seq<Entry>)
    requires forall i :: 0 <= i < |entries| ==> '\n' !in entries[i].key
    ensures RankLines(entries) == [] || RankLines(entries)[|RankLines(entries)| - 1] == '\n'
  {
    if entries != [] {
      RankLineOneLine(|entries|, entries[|entries| - 1]);
    }
  }

  /** The text of a list whose keys hold no newline splits into its rank lines. */
  lemma {:induction false} RankLinesSplit(entries: seq<Entry>)
    requires forall i :: 0 <= i < |entries| ==> '\n' !in entries[i].key
    ensures Lines(RankLines(entries)) == Some(RankLineList(entries))
  {
    if entries != [] {
      var a := entries[..|entries| - 1];
      var e := entries[|entries| - 1];
      RankLinesSplit(a);
      RankLinesEnd(a);
      RankLineOneLine(|entries|, e);
      LinesSnoc(RankLines(a), RankLine(|entries|, e));
    }
  }

  /** Each rank line reads back as its rank and entry. */
  lemma {:induction false} RankLineListParses(entries: seq<Entry>)
    ensures ParseRankLines(RankLineList(entries)) == Some(Numbered(entries))
  {
    if entries != [] {
      var a := entries[..|entries| - 1];
      var e := entries[|entries| - 1];
      var ls := RankLineList(entries);
      assert ls[..|ls| - 1] == RankLineList(a);
      RankLineListParses(a);
      RankLineRoundTrip(|entries|, e);
    }
  }

  /** Round trip: a non-empty section whose keys hold no newline reads back as its
      ranked list, numbered from 1. */
  lemma SectionRoundTrip(section: Section)
    requires section.entries != []
    requires forall i :: 0 <= i < |section.entries| ==> '\n' !in section.entries[i].key
    ensures ReadSection(SectionText(section), section.heading) == Some(Numbered(section.entries))
  {
    var top := Header(section.heading) + Rule;
    var lines := RankLines(section.entries);
    var t := SectionText(section);
    assert t == top + lines + Rule;
    assert t[..|top|] == top && t[|t| - |Rule|..] == Rule && t[|top|..|t| - |Rule|] == lines;
    RankLinesSplit(section.entries);
    RankLineListParses(section.entries);
  }

  // ---------------------------------------------------------------------------
  // Properties of the report text.

  /** The report of two runs of sections is the two reports one after the other. */
  lemma {:induction false} ReportTextAppend(a: seq<Section>, b: seq<Section>)
    ensures ReportText(a + b) == ReportText(a) + ReportText(b)
    decreases |b|
  {
    if b == [] {
      assert a + b == a;
    } else {
      var init := b[..|b| - 1];
      var last := SectionText(b[|b| - 1]);
      assert (a + b)[..|a + b| - 1] == a + init;
      assert (a + b)[|a + b| - 1] == b[|b| - 1];
      ReportTextAppend(a, init);
      assert ReportText(a + b) == ReportText(a + init) + last;
      assert ReportText(b) == ReportText(init) + last;
      AppendAssociative(ReportText(a), ReportText(init), last);
    }
  }

  /** A section with an empty list leaves no trace in the report. */
  lemma EmptySectionOmitted(a: seq<Section>, heading: string, b: seq<Section>)
    ensures ReportText(a + [Section(heading, [])] + b) == ReportText(a + b)
  {
    var empty := Section(heading, []);
    assert (a + [empty])[..|a|] == a;
    assert ReportText(a + [empty]) == ReportText(a) + "" == ReportText(a);
    ReportTextAppend(a + [empty], b);
    ReportTextAppend(a, b);
  }

  /** When every list is empty the report is empty, and the email is the title alone. */
  lemma {:induction false} AllEmptyReport(results: seq<Section>)
    requires forall s :: s in results ==> s.entries == []
    ensures ReportText(results) == ""
  {
    if results != [] {
      var init := results[..|results| - 1];
      assert forall s :: s in init ==> s in results;
      AllEmptyReport(init);
    }
  }

  /** A non-empty section is framed: header, rule, its lines, rule. */
  lemma SectionFramed(section: Section)
    requires section.entries != []
    ensures |SectionText(section)| >= |Header(section.heading)| + 2 * |Rule|
    ensures SectionText(section)[..|Header(section.heading)|] == Header(section.heading)
    ensures SectionText(section)[|SectionText(section)| - |Rule|..] == Rule
  {
  }

  /** The rule is 50 dashes and a newline. */
  lemma RuleShape()
    ensures |Rule| == 51 && Rule[50] == '\n'
    ensures forall i :: 0 <= i < 50 ==> Rule[i] == '-'
  {
  }
}
