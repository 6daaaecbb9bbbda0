/** The analysis as `main` runs it once the configuration is read: the two
    comma lists are parsed, the log lines counted, each counter ranked, and the
    three ranked lists rendered to the report file and to the email body. */
module Pipeline {
  import opened Common
  import opened LineParser
  import opened ConfigLists
  import opened Frequency
  import opened Aggregator
  import opened Ranker
  import opened Reporter

  const NamesHeading: string := "Most Frequent Names"
  const IpsHeading: string := "Most Frequent IPs"
  const CombinationsHeading: string := "Most Frequent Combinations"

  /** `get_ranked_results` for the counter fed with the keys `ks`. */
  function RankedKeys(ks: seq<string>, limit: int): (r: seq<Entry>)
    ensures limit <= 0 ==> r == []
    ensures limit > 0 ==> |r| == Min(limit, |FirstSeen(ks)|)
    ensures forall i :: 0 <= i < |r| ==> r[i].key in ks && r[i].count == multiset(ks)[r[i].key]
  {
    TallyShape(ks);
    var r := Rank(Tally(ks), FirstSeen(ks), limit);
    forall i | 0 <= i < |r|
      ensures r[i].key in ks && r[i].count == multiset(ks)[r[i].key]
    {
      TallyAt(ks, r[i].key);
    }
    r
  }

  /** The results dict of `main`, for the events the loop counted. */
  function Results(es: seq<Event>, limit: int): (r: seq<Section>)
    ensures |r| == 3
    ensures r[0].heading == NamesHeading && r[1].heading == IpsHeading && r[2].heading == CombinationsHeading
  {
    [Section(NamesHeading, RankedKeys(Keys(es, ByName), limit)),
     Section(IpsHeading, RankedKeys(Keys(es, ByIp), limit)),
     Section(CombinationsHeading, RankedKeys(Keys(es, ByCombination), limit))]
  }

  /** From the two configuration values and the log lines to the report file and
      the email body. */
  method Analyze(lines: seq<string>, monitoredValue: string, whitelistValue: string, rankLimit: int)
    returns (file: ReportFile, email: string)
    ensures fresh(file)
    ensures file.contents ==
      ReportText(Results(Accepted(lines, ParseList(monitoredValue), ParseList(whitelistValue)), rankLimit))
    ensures email == Title + file.contents
  {
    var monitored := ParseList(monitoredValue);
    var whitelist := ParseList(whitelistValue);
    var names, ips, combos := AnalyzeLogs(lines, monitored, whitelist);
    TallyShape(names.history);
    TallyShape(ips.history);
    TallyShape(combos.history);
    var results := [
      Section(NamesHeading, Rank(names.counts, names.order, rankLimit)),
      Section(IpsHeading, Rank(ips.counts, ips.order, rankLimit)),
      Section(CombinationsHeading, Rank(combos.counts, combos.order, rankLimit))];
    assert results == Results(Accepted(lines, monitored, whitelist), rankLimit);
    file := WriteResults(results);
    email := FormatResultsForEmail(results);
  }

  // ---------------------------------------------------------------------------
  // What the report says.

  /** With a rank limit of 0 or below every list is empty: the report is empty and
      the email is the title alone. */
  lemma NoLimitEmptyReport(es: seq<Event>, limit: int)
    requires limit <= 0
    ensures ReportText(Results(es, limit)) == ""
  {
    ResultsNoLimit(es, limit);
    AllEmptyReport([Section(NamesHeading, []), Section(IpsHeading, []), Section(CombinationsHeading, [])]);
  }

  /** With a rank limit of 0 or below the three lists are empty. */
  lemma ResultsNoLimit(es: seq<Event>, limit: int)
    requires limit <= 0
    ensures Results(es, limit) == [Section(NamesHeading, []), Section(IpsHeading, []), Section(CombinationsHeading, [])]
  {
    assert RankedKeys(Keys(es, ByName), limit) == [];
    assert RankedKeys(Keys(es, ByIp), limit) == [];
    assert RankedKeys(Keys(es, ByCombination), limit) == [];
  }

  /** With no counted event the report is empty. */
  lemma NoEventsEmptyReport(limit: int)
    ensures ReportText(Results([], limit)) == ""
  {
    AllEmptyReport(Results([], limit));
  }

  /** No whitelisted IP is reported in the IP section. */
  lemma WhitelistedIpNotReported(lines: seq<string>, monitored: seq<string>, whitelist: seq<string>, limit: int)
    ensures var ips := Results(Accepted(lines, monitored, whitelist), limit)[1].entries;
      forall i :: 0 <= i < |ips| ==> ips[i].key !in whitelist
  {
    var es := Accepted(lines, monitored, whitelist);
    var ips := Results(es, limit)[1].entries;
    forall i | 0 <= i < |ips|
      ensures ips[i].key !in whitelist
    {
      var j :| 0 <= j < |Keys(es, ByIp)| && Keys(es, ByIp)[j] == ips[i].key;
      assert Admitted(es[j], monitored, whitelist);
    }
  }

  /** With monitoring on, the name section reports monitored names only. */
  lemma MonitoredNamesReported(lines: seq<string>, monitored: seq<string>, whitelist: seq<string>, limit: int)
    requires monitored != []
    ensures var names := Results(Accepted(lines, monitored, whitelist), limit)[0].entries;
      forall i :: 0 <= i < |names| ==> names[i].key in monitored
  {
    var es := Accepted(lines, monitored, whitelist);
    var names := Results(es, limit)[0].entries;
    forall i | 0 <= i < |names|
      ensures names[i].key in monitored
    {
      var j :| 0 <= j < |Keys(es, ByName)| && Keys(es, ByName)[j] == names[i].key;
      assert Admitted(es[j], monitored, whitelist);
    }
  }

  /** Every section of the report reads back as its ranked list, numbered from 1:
      the keys of parsed events never hold a newline. */
  lemma ReportedSectionsReadBack(lines: seq<string>, monitored: seq<string>, whitelist: seq<string>, limit: int, n: nat)
    requires n < 3
    ensures var section := Results(Accepted(lines, monitored, whitelist), limit)[n];
      section.entries != [] ==>
        ReadSection(SectionText(section), section.heading) == Some(Numbered(section.entries))
  {
    AcceptedRuns(lines, monitored, whitelist);
    ResultsReadBack(Accepted(lines, monitored, whitelist), limit, n);
  }

  /** Each section of the results for parsed events reads back as its ranked list. */
  lemma ResultsReadBack(es: seq<Event>, limit: int, n: nat)
    requires n < 3 && forall e :: e in es ==> IsRun(e.name, NameChar) && IsRun(e.ip, IpChar)
    ensures var section := Results(es, limit)[n];
      section.entries != [] ==>
        ReadSection(SectionText(section), section.heading) == Some(Numbered(section.entries))
  {
    if n == 0 {
      RankedSectionReadBack(es, ByName, NamesHeading, limit);
    } else if n == 1 {
      RankedSectionReadBack(es, ByIp, IpsHeading, limit);
    } else {
      RankedSectionReadBack(es, ByCombination, CombinationsHeading, limit);
    }
  }

  /** A section ranking the keys of parsed events reads back as its ranked list. */
  lemma RankedSectionReadBack(es: seq<Event>, d: Dimension, heading: string, limit: int)
    requires forall e :: e in es ==> IsRun(e.name, NameChar) && IsRun(e.ip, IpChar)
    ensures var section := Section(heading, RankedKeys(Keys(es, d), limit));
      section.entries != [] ==>
        ReadSection(SectionText(section), section.heading) == Some(Numbered(section.entries))
  {
    var ks := Keys(es, d);
    var section := Section(heading, RankedKeys(ks, limit));
    if section.entries != [] {
      forall i | 0 <= i < |section.entries|
        ensures '\n' !in section.entries[i].key
      {
        var j :| 0 <= j < |ks| && ks[j] == section.entries[i].key;
        KeyOneLine(es[j], d);
      }
      SectionRoundTrip(section);
    }
  }
}
