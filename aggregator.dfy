/** The counting loop of `analyze_logs`: every line is parsed, events from
    whitelisted IPs are skipped, and so are names outside a non-empty monitored
    list; each remaining event bumps three counters, by name, by IP, and by the
    combination `name-ip`. */
module Aggregator {
  import opened Common
  import opened LineParser
  import opened Frequency

  /** The event passes both filters of the loop. */
  predicate Admitted(e: Event, monitored: seq<string>, whitelist: seq<string>)
  {
    e.ip !in whitelist && (monitored == [] || e.name in monitored)
  }

  /** The events the loop counts, in line order. */
  function Accepted(lines: seq<string>, monitored: seq<string>, whitelist: seq<string>): (es: seq<Event>)
    ensures |es| <= |lines|
    ensures forall i :: 0 <= i < |es| ==> Admitted(es[i], monitored, whitelist)
  {
    if lines == [] then []
    else
      var es := Accepted(lines[..|lines| - 1], monitored, whitelist);
      var parsed := ParseLogLine(lines[|lines| - 1]);
      if parsed.Some? && Admitted(parsed.value, monitored, whitelist) then es + [parsed.value] else es
  }

  /** The three counters of the loop. */
  datatype Dimension = ByName | ByIp | ByCombination

  /** The key an event is counted under in each counter. */
  function Key(e: Event, d: Dimension): string
  {
    match d
    case ByName => e.name
    case ByIp => e.ip
    case ByCombination => e.name + "-" + e.ip
  }

  function Keys(es: seq<Event>, d: Dimension): (ks: seq<string>)
    ensures |ks| == |es|
    ensures forall i :: 0 <= i < |es| ==> ks[i] == Key(es[i], d)
  {
    if es == [] then [] else Keys(es[..|es| - 1], d) + [Key(es[|es| - 1], d)]
  }

  /** The counting loop of `analyze_logs` over the lines of the log. */
  method AnalyzeLogs(lines: seq<string>, monitored: seq<string>, whitelist: seq<string>)
    returns (names: Counter, ips: Counter, combos: Counter)
    ensures fresh(names) && fresh(ips) && fresh(combos)
    ensures names.Valid() && ips.Valid() && combos.Valid()
    ensures names.history == Keys(Accepted(lines, monitored, whitelist), ByName)
    ensures ips.history == Keys(Accepted(lines, monitored, whitelist), ByIp)
    ensures combos.history == Keys(Accepted(lines, monitored, whitelist), ByCombination)
  {
    names := new Counter();
    ips := new Counter();
    combos := new Counter();
    for i := 0 to |lines|
      invariant names.Valid() && ips.Valid() && combos.Valid()
      invariant names.history == Keys(Accepted(lines[..i], monitored, whitelist), ByName)
      invariant ips.history == Keys(Accepted(lines[..i], monitored, whitelist), ByIp)
      invariant combos.history == Keys(Accepted(lines[..i], monitored, whitelist), ByCombination)
    {
      AcceptedStep(lines, i, monitored, whitelist);
      var parsed := ParseLogLine(lines[i]);
      if parsed.None? {
        continue;
      }
      var name := parsed.value.name;
      var ip := parsed.value.ip;
      if ip in whitelist {
        continue;
      }
      if monitored != [] && name !in monitored {
        continue;
      }
      ghost var es := Accepted(lines[..i], monitored, whitelist);
      assert Accepted(lines[..i + 1], monitored, whitelist) == es + [parsed.value];
      Record(names, ips, combos, es, parsed.value);
    }
    assert lines[..|lines|] == lines;
  }

  /** The three increments of one counted event. */
  method Record(names: Counter, ips: Counter, combos: Counter, ghost es: seq<Event>, e: Event)
    requires names != ips && names != combos && ips != combos
    requires names.Valid() && ips.Valid() && combos.Valid()
    requires names.history == Keys(es, ByName) && ips.history == Keys(es, ByIp)
    requires combos.history == Keys(es, ByCombination)
    modifies names, ips, combos
    ensures names.Valid() && ips.Valid() && combos.Valid()
    ensures names.history == Keys(es + [e], ByName) && ips.history == Keys(es + [e], ByIp)
    ensures combos.history == Keys(es + [e], ByCombination)
  {
    KeysSnoc(es, e);
    names.Increment(e.name);
    ips.Increment(e.ip);
    combos.Increment(e.name + "-" + e.ip);
  }

  /** Proof helper for `AnalyzeLogs`: `Accepted` unfolded once at index `i`. */
  lemma AcceptedStep(lines: seq<string>, i: nat, monitored: seq<string>, whitelist: seq<string>)
    requires i < |lines|
    ensures Accepted(lines[..i + 1], monitored, whitelist) ==
      if ParseLogLine(lines[i]).Some? && Admitted(ParseLogLine(lines[i]).value, monitored, whitelist)
      then Accepted(lines[..i], monitored, whitelist) + [ParseLogLine(lines[i]).value]
      else Accepted(lines[..i], monitored, whitelist)
  {
    assert lines[..i + 1][..i] == lines[..i];
  }

  /** One more event: one more key in each counter. */
  lemma KeysSnoc(es: seq<Event>, e: Event)
    ensures forall d :: Keys(es + [e], d) == Keys(es, d) + [Key(e, d)]
  {
    assert (es + [e])[..|es|] == es;
  }

  // ---------------------------------------------------------------------------
  // Properties of the counted events.

  /** Counting two stretches of lines one after the other. */
  lemma {:induction false} AcceptedAppend(a: seq<string>, b: seq<string>, monitored: seq<string>, whitelist: seq<string>)
    ensures Accepted(a + b, monitored, whitelist) == Accepted(a, monitored, whitelist) + Accepted(b, monitored, whitelist)
    decreases |b|
  {
    if b == [] {
      assert a + b == a;
    } else {
      var init := b[..|b| - 1];
      assert (a + b)[..|a + b| - 1] == a + init;
      assert (a + b)[|a + b| - 1] == b[|b| - 1];
      AcceptedAppend(a, init, monitored, whitelist);
    }
  }

  /** A line that does not parse, or whose event fails a filter, counts for nothing:
      removing it leaves all three counters as they were. */
  lemma FilteredLineIgnored(a: seq<string>, line: string, b: seq<string>, monitored: seq<string>, whitelist: seq<string>)
    requires ParseLogLine(line).None? || !Admitted(ParseLogLine(line).value, monitored, whitelist)
    ensures Accepted(a + [line] + b, monitored, whitelist) == Accepted(a + b, monitored, whitelist)
  {
    AcceptedAppend(a + [line], b, monitored, whitelist);
    AcceptedAppend(a, [line], monitored, whitelist);
    AcceptedAppend(a, b, monitored, whitelist);
    assert [line][..0] == [];
  }

  /** No whitelisted IP is ever counted, under any of the three keys' IP part. */
  lemma WhitelistedIpNeverCounted(lines: seq<string>, monitored: seq<string>, whitelist: seq<string>, ip: string)
    requires ip in whitelist
    ensures ip !in Tally(Keys(Accepted(lines, monitored, whitelist), ByIp))
    ensures forall e :: e in Accepted(lines, monitored, whitelist) ==> e.ip != ip
  {
    TallyAt(Keys(Accepted(lines, monitored, whitelist), ByIp), ip);
  }

  /** With monitoring on, only monitored names are ever counted. */
  lemma MonitoredNamesOnly(lines: seq<string>, monitored: seq<string>, whitelist: seq<string>)
    requires monitored != []
    ensures forall k :: k in Tally(Keys(Accepted(lines, monitored, whitelist), ByName)) ==> k in monitored
  {
    var es := Accepted(lines, monitored, whitelist);
    forall k | k in Tally(Keys(es, ByName))
      ensures k in monitored
    {
      TallyAt(Keys(es, ByName), k);
      var i :| 0 <= i < |es| && Keys(es, ByName)[i] == k;
      assert Admitted(es[i], monitored, whitelist);
    }
  }

  /** Every counted event has a name run and an IP run, as the parser captured them. */
  lemma {:induction false} AcceptedRuns(lines: seq<string>, monitored: seq<string>, whitelist: seq<string>)
    ensures forall e :: e in Accepted(lines, monitored, whitelist) ==> IsRun(e.name, NameChar) && IsRun(e.ip, IpChar)
  {
    if lines != [] {
      AcceptedRuns(lines[..|lines| - 1], monitored, whitelist);
    }
  }

  /** No key of a parsed event holds a newline, so each key fits on one report line. */
  lemma KeyOneLine(e: Event, d: Dimension)
    requires IsRun(e.name, NameChar) && IsRun(e.ip, IpChar)
    ensures '\n' !in Key(e, d)
  {
    assert !InClass('\n', NameChar) && !InClass('\n', IpChar);
    assert '\n' !in e.name && '\n' !in e.ip;
  }

  /** The three counters hold the same total: the number of counted events. */
  lemma AnalysisTotals(lines: seq<string>, monitored: seq<string>, whitelist: seq<string>, d: Dimension)
    ensures Total(FirstSeen(Keys(Accepted(lines, monitored, whitelist), d)),
                  Tally(Keys(Accepted(lines, monitored, whitelist), d)))
            == |Accepted(lines, monitored, whitelist)|
  {
    TallyTotal(Keys(Accepted(lines, monitored, whitelist), d));
  }

  /** The combination key names its event: an IP never holds `-`, so the last `-`
      of the key separates the name from the IP. */
  lemma CombinationKeyInjective(e1: Event, e2: Event)
    requires IsRun(e1.ip, IpChar) && IsRun(e2.ip, IpChar)
    requires Key(e1, ByCombination) == Key(e2, ByCombination)
    ensures e1 == e2
  {
    var k := Key(e1, ByCombination);
    LastDash(e1);
    LastDash(e2);
    assert |e1.name| == |e2.name|;
    assert e1.name == k[..|e1.name|] == e2.name;
    assert e1.ip == k[|e1.name| + 1..] == e2.ip;
  }

  /** In a combination key the `-` after the name is the last one. */
  lemma LastDash(e: Event)
    requires IsRun(e.ip, IpChar)
    ensures Key(e, ByCombination)[|e.name|] == '-'
    ensures forall j :: |e.name| < j < |Key(e, ByCombination)| ==> Key(e, ByCombination)[j] != '-'
  {
    var k := Key(e, ByCombination);
    forall j | |e.name| < j < |k|
      ensures k[j] != '-'
    {
      assert k[j] == e.ip[j - |e.name| - 1];
    }
  }
}
