# frps log analyzer, modelled in Dafny

The analyzer reads an frps server log and finds the lines where a client
connects: `[name] get a user connection [ip:port]`. It skips connections from
whitelisted IPs. When a list of monitored client names is configured, it also
skips every other name. It counts the rest three ways: by client name, by IP,
and by the `name-ip` combination. Each counter is ranked by `Counter.most_common`
up to a rank limit, and the three ranked lists are rendered as text. That text
goes to a report file and, after a title, into an email body.

The model covers this core:

- **`LineParser`**: `parse_log_line`.
  - The two regular expressions are written as fixed lists of items: a literal
    text, or a `[class]+` run, captured or not.
  - Items are matched left to right, each run taking its maximal extent.
    `PatternDeterminate` shows why that is the only way a backtracking matcher
    can match these patterns.
  - `Search` is `re.search`: the leftmost start position that matches.
  - The matcher is proved sound and complete against a plain description of the
    text a pattern spells.
  - The `elif match2` branch is proved dead: whenever the pattern 2 search finds
    a match, the pattern 1 search finds one too, so pattern 2 never decides the
    result. Each pattern 2 match, read from its second tag, is a pattern 1 match
    with the same name and IP; the two searches may still pick different places
    on a line that holds both.
- **`ConfigLists`**: the comma-list settings (`MONITORED_NAMES`, `WHITELIST_IPS`),
  which are split at commas, stripped, and emptied of blank entries.
- **`Frequency`**: what a `collections.Counter` holds after a sequence of
  `counter[k] += 1`.
  - `Tally` is the counts; `FirstSeen` is the key insertion order.
  - The class `Counter` keeps both, and its `Increment` is proved against them.
- **`Aggregator`**: the counting loop of `analyze_logs`, as a method updating
  three `Counter` objects, proved against `Accepted`, the events the loop counts.
- **`Ranker`**: `get_ranked_results` / `most_common(limit)`.
  - The ranking is a stable sort by descending count, cut to `limit`. A limit of 0
    or below gives nothing.
  - The full sort is proved to be the only list of all the keys that is sorted by
    descending count with ties in insertion order. The cut keeps, among equally
    counted keys, the ones inserted first.
- **`Reporter`**: the text of `write_results` and `format_results_for_email`.
  - Both are methods: one writes to a `ReportFile` object, the other accumulates
    a string.
  - Both are proved to produce `ReportText`; the email body has the title in
    front of it.
  - Each section's text reads back as its numbered `(rank, key, count)` lines.
- **`Pipeline`**: the results dict of `main` and the whole run, from the two
  setting values and the log lines to the file contents and the email body.

## Model

| member | source | states |
|---|---|---|
| LineParser.ParseLogLine | loganalyze.py:94-118 | a line without `[I]` gives no event; an event's name is a non-empty run of `[\w.-]` and its IP a non-empty run of `[\d.]` |
| LineParser.Items | loganalyze.py:102-103 | the two patterns as item lists: pattern 1 is a `\[\w+\] ` tag followed by the connection text with its two groups, pattern 2 has one more tag in front |
| LineParser.MatchItems | loganalyze.py:102-103 | matching items left to right with maximal runs: a match ends within the text, at or after its start |
| LineParser.RunEndMaximal | loganalyze.py:102-103 | a `[class]+` run taken at its maximal extent: every character before its end is in the class, and the character at its end is not (or the text ends) |
| LineParser.RunEndAt | loganalyze.py:102-103 | a run followed by a character outside its class ends exactly there |
| LineParser.MatchAt | loganalyze.py:102-103 | a match at a position captures a name run and an IP run |
| LineParser.Search | loganalyze.py:105-106 | `re.search`: a result is the match at the leftmost position where the pattern matches; no result means no position matches |
| LineParser.PatternCaptures | loganalyze.py:102-103 | both patterns have exactly two groups, a `[\w.-]+` name, then a `[\d.]+` IP |
| LineParser.PatternDeterminate | loganalyze.py:102-103 | in both patterns every run is followed by a literal that starts outside the run's class, so runs never give characters back |
| LineParser.MatchItemsCaptures | loganalyze.py:102-103 | a match yields one capture per capturing run, each a run of that run's class |
| LineParser.MatchItemsSound | loganalyze.py:102-103 | whatever the matcher accepts is text spelling the items, and the captures are the pieces of the capturing runs |
| LineParser.MatchItemsComplete | loganalyze.py:102-103 | text spelling the items is matched to its end, with the pieces of the capturing runs as captures |
| LineParser.MatchItemsAppend | loganalyze.py:102-103 | matching two item lists one after the other is matching their concatenation |
| LineParser.MatchAtSound | loganalyze.py:102-103 | a pattern match is text spelling the pattern, and its name and IP are the two captured runs |
| LineParser.MatchAtComplete | loganalyze.py:102-103 | text spelling a pattern is matched, with its two runs as name and IP |
| LineParser.Pattern2MatchIsPattern1Match | loganalyze.py:102-103 | a pattern 2 match is a pattern 1 match at a later position with the same name and IP |
| LineParser.SearchPattern2Subsumed | loganalyze.py:105-106 | whenever `re.search` finds pattern 2, it finds pattern 1 too |
| LineParser.ParseLogLineIsPattern1 | loganalyze.py:108-118 | the parser's result is the pattern 1 search on an info line and nothing otherwise: the pattern 2 branch never decides it |
| LineParser.ParseLogLineSound | loganalyze.py:94-118 | an event comes from an info line holding text that spells pattern 1, with no such text further left, and its name and IP are the two captured runs |
| LineParser.ParseLogLineComplete | loganalyze.py:94-118 | an info line holding text that spells either pattern gives an event; leftmost pattern 1 text gives exactly its two runs |
| ConfigLists.IsSpace | loganalyze.py:87-88 | the characters `str.strip` removes: Python's `isspace` set |
| ConfigLists.Split | loganalyze.py:87-88 | `split(',')`: at least one piece, none holding a comma, and joined with commas they give the value back |
| ConfigLists.StripStart | loganalyze.py:87-88 | `lstrip`: a suffix of the input, what is cut is whitespace, and the result does not start with whitespace |
| ConfigLists.StripEnd | loganalyze.py:87-88 | `rstrip`: a prefix of the input, what is cut is whitespace, and the result does not end with whitespace |
| ConfigLists.Strip | loganalyze.py:87-88 | `strip`: no longer than the input, and neither end of the result is whitespace |
| ConfigLists.StripTrims | loganalyze.py:87-88 | `strip` cuts only whitespace, and only at the two ends |
| ConfigLists.StripUnique | loganalyze.py:87-88 | any string that trims the input this way and has no whitespace ends is the result of `strip` |
| ConfigLists.TrimsUnique | loganalyze.py:87-88 | two such trims of the same string are equal |
| ConfigLists.StripSubset | loganalyze.py:87-88 | stripping brings in no character that was not in the input |
| ConfigLists.KeepStripped | loganalyze.py:87-88 | the `if x.strip()` filter: every kept entry is non-empty and stripped, and no more entries than pieces |
| ConfigLists.ParseList | loganalyze.py:87-88 | every configured entry is non-empty, has no whitespace at either end and holds no comma |
| ConfigLists.KeepStrippedAvoids | loganalyze.py:87-88 | a character missing from every piece is missing from every kept entry |
| ConfigLists.SplitJoin | loganalyze.py:87-88 | splitting a comma-joined list of comma-free strings gives the list back |
| ConfigLists.KeepStrippedKeeps | loganalyze.py:87-88 | entries that are already non-empty and stripped are kept unchanged |
| ConfigLists.ParseListOfEmpty | loganalyze.py:87-88 | an unset or empty setting gives an empty list |
| ConfigLists.ParseListJoin | loganalyze.py:87-88 | round trip: a list of non-empty, stripped, comma-free entries written with commas parses back to itself |
| Frequency.Tally | loganalyze.py:147-149 | the counts left by `counter[k] += 1` for each key in turn, a missing key starting from 0 |
| Frequency.FirstSeen | loganalyze.py:147-149 | a counter's key order holds each counted key once and nothing else |
| Frequency.TallyAt | loganalyze.py:147-149 | after `counter[k] += 1` for each key in turn, a key has a count exactly when it was counted, and that count is its number of occurrences |
| Frequency.CountSnoc | loganalyze.py:147-149 | one more key: its count goes up by one from 0 if it was missing, and a new key joins the end of the order |
| Frequency.FirstSeenOrder | loganalyze.py:147-149 | keys are ordered by their first occurrence |
| Frequency.TallyTotal | loganalyze.py:147-149 | the counts add up to the number of keys counted |
| Frequency.TallyShape | loganalyze.py:147-149 | the counts and the order hold the same keys, each key once in the order |
| Frequency.Counter.constructor | loganalyze.py:125-127 | `Counter()`: no counts, no keys, nothing counted |
| Frequency.Counter.Increment | loganalyze.py:147-149 | `counter[key] += 1`: the key's count goes up by one from 0 if missing; a new key is appended to the order; the counter stays the tally of everything counted |
| Aggregator.Admitted | loganalyze.py:141-145 | the two filters: the IP is not whitelisted, and the name is monitored when any names are |
| Aggregator.Key | loganalyze.py:147-149 | the key of an event in each counter: its name, its IP, or `name-ip` |
| Aggregator.Accepted | loganalyze.py:133-146 | the counted events: at most one per line, each with an IP outside the whitelist and, if names are monitored, a monitored name |
| Aggregator.Keys | loganalyze.py:147-149 | one key per counted event, in line order: the name, the IP, or `name-ip` |
| Aggregator.AnalyzeLogs | loganalyze.py:125-149 | the loop leaves the three counters holding the tallies and insertion orders of the name, IP and combination keys of the counted events |
| Aggregator.Record | loganalyze.py:147-149 | one counted event bumps each of the three counters by its own key |
| Aggregator.AcceptedAppend | loganalyze.py:133-146 | counting two runs of lines one after the other is counting their concatenation |
| Aggregator.FilteredLineIgnored | loganalyze.py:134-145 | a line that does not parse, or whose event fails a filter, changes no counter wherever it stands |
| Aggregator.WhitelistedIpNeverCounted | loganalyze.py:141-142 | a whitelisted IP never gets a count and no counted event has it |
| Aggregator.MonitoredNamesOnly | loganalyze.py:144-145 | with monitoring on, only monitored names get a count |
| Aggregator.AcceptedRuns | loganalyze.py:134-149 | every counted event carries the name run and IP run the parser captured |
| Aggregator.KeyOneLine | loganalyze.py:147-149 | no key of a parsed event holds a newline |
| Aggregator.AnalysisTotals | loganalyze.py:147-149 | each of the three counters totals the number of counted events, so the three totals are equal |
| Aggregator.CombinationKeyInjective | loganalyze.py:149 | the `name-ip` key determines the event, since an IP holds no `-` |
| Aggregator.LastDash | loganalyze.py:149 | in a `name-ip` key the `-` after the name is the last one |
| Ranker.Place | loganalyze.py:162 | the position where a count goes in a list ranked by count: after every key counted at least as often, before the first key counted less |
| Ranker.Insert | loganalyze.py:162 | inserting a key adds exactly that key to the list |
| Ranker.InsertSorted | loganalyze.py:162 | inserting into a list sorted by descending count keeps it sorted |
| Ranker.InsertStable | loganalyze.py:162 | inserting the latest-inserted key keeps equal counts in insertion order |
| Ranker.SortByCount | loganalyze.py:162 | the sort `most_common` uses is a permutation of the counter's keys |
| Ranker.SortByCountSorted | loganalyze.py:162 | the sorted keys have non-increasing counts |
| Ranker.SortByCountStable | loganalyze.py:162 | keys with equal counts stay in insertion order: the sort is stable |
| Ranker.SortedKeys | loganalyze.py:162 | the sorted keys are all the counter's keys, each once, sorted by descending count, ties in insertion order |
| Ranker.RankedUnique | loganalyze.py:162 | two lists of the same keys, each once, both sorted by descending count with ties in insertion order, are equal |
| Ranker.RankedHead | loganalyze.py:162 | two such lists start with the same key |
| Ranker.SortByCountUnique | loganalyze.py:162 | any list of the counter's keys, each once, sorted by descending count with ties in insertion order, is the ranking |
| Ranker.PermutationDistinct | loganalyze.py:162 | reordering a list without repeats gives no repeats |
| Ranker.Entries | loganalyze.py:162 | the `(item, count)` pairs, in the given key order |
| Ranker.Rank | loganalyze.py:157-162 | `get_ranked_results`: no entries for a limit of 0 or below, otherwise min(limit, keys); each a counted key with its count; no key twice; counts non-increasing; ties in insertion order; no omitted key counted more than a listed one; an omitted key counted as often as a listed one was inserted after it |
| Ranker.EntriesOrdered | loganalyze.py:162 | a prefix of the sorted keys gives entries that carry their counts, are distinct, are sorted, and keep ties in insertion order |
| Ranker.EntriesTop | loganalyze.py:162 | a key left out of a prefix of the sorted keys is counted no more than any listed key |
| Ranker.RankOrdered | loganalyze.py:162 | the first `n` entries of the ranking are distinct, sorted by count, ties in insertion order |
| Ranker.RankTop | loganalyze.py:162 | the first `n` entries of the ranking are the `n` most frequent keys |
| Ranker.EntriesCut | loganalyze.py:162 | a key left out of a prefix of the stable sort, counted as often as a listed key, was inserted after it |
| Ranker.RankCut | loganalyze.py:162 | at the cut of the first `n` entries, equally counted keys are kept in insertion order: the earliest inserted make the list |
| Reporter.RankLine | loganalyze.py:175-176 | one `Rank {rank}: {item} (Count: {count})` line with its newline |
| Reporter.RankLines | loganalyze.py:175-176 | the lines of a ranked list, numbered from 1 as `enumerate(ranked_items, 1)` numbers them |
| Reporter.Header | loganalyze.py:173 | the `\n{section}:\n` header of a section |
| Reporter.SectionText | loganalyze.py:171-177 | a section's text: nothing for an empty list, otherwise header, rule, rank lines and rule |
| Reporter.ReportText | loganalyze.py:170-177 | the text of all sections in the order of the results dict |
| Reporter.Dashes | loganalyze.py:174 | `"-" * n`: `n` characters, all dashes |
| Reporter.RuleShape | loganalyze.py:174 | the rule is 50 dashes and a newline |
| Reporter.Decimal | loganalyze.py:176 | `str(n)`: one or more decimal digits with no leading zero |
| Reporter.DecimalRoundTrip | loganalyze.py:176 | reading `str(n)` back as a number gives `n` |
| Reporter.RankLineRoundTrip | loganalyze.py:175-176 | every `Rank i: key (Count: c)` line reads back as its rank, key and count, so the line loses nothing even when the key holds any character |
| Reporter.Numbered | loganalyze.py:175 | the entries of a ranked list paired with the ranks `enumerate(..., 1)` gives them: entry `i` gets rank `i + 1` |
| Reporter.ReadSection | loganalyze.py:173-177 | reads a section's text back: header, rule, newline-terminated lines each parsed as a rank line, rule |
| Reporter.RankLineOneLine | loganalyze.py:176 | a rank line for a key without a newline ends with its only newline |
| Reporter.RankLinesSplit | loganalyze.py:175-176 | the rank lines of a list whose keys hold no newline split at newlines into exactly its lines |
| Reporter.RankLineListParses | loganalyze.py:175-176 | those lines parse back as the entries, numbered from 1 |
| Reporter.SectionRoundTrip | loganalyze.py:171-177 | round trip: a non-empty section whose keys hold no newline reads back as its numbered `(rank, key, count)` list |
| Reporter.SectionFramed | loganalyze.py:173-177 | a non-empty section starts with its `\n{section}:\n` header and ends with the rule |
| Reporter.ReportTextAppend | loganalyze.py:170-177 | the text of two runs of sections is the two texts one after the other |
| Reporter.EmptySectionOmitted | loganalyze.py:171-172 | a section with an empty list leaves no trace in the text |
| Reporter.AllEmptyReport | loganalyze.py:170-178 | when every list is empty the text is empty |
| Reporter.ReportFile.constructor | loganalyze.py:188 | `open(output_file, 'w')`: a new, empty file |
| Reporter.ReportFile.Write | loganalyze.py:192-196 | `f.write(text)` appends the text to the file |
| Reporter.WriteResults | loganalyze.py:188-196 | `write_results` leaves a new file whose contents are the report text of the results |
| Reporter.WriteSection | loganalyze.py:192-196 | one non-empty section is written as its header, the rule, its rank lines and the rule |
| Reporter.FormatResultsForEmail | loganalyze.py:164-178 | the email body is `FRPS Analysis Results\n\n` followed by the same report text the file gets |
| Reporter.AppendSection | loganalyze.py:173-177 | one non-empty section is appended to the body as its header, the rule, its rank lines and the rule |
| Pipeline.RankedKeys | loganalyze.py:157-162 | the ranking of a counter fed with some keys: the expected length, and each entry a fed key with its number of occurrences |
| Pipeline.Results | loganalyze.py:229-233 | the results dict: three sections headed `Most Frequent Names`, `Most Frequent IPs`, `Most Frequent Combinations`, in that order |
| Pipeline.Analyze | loganalyze.py:226-239 | the whole run: the file holds the report text of the three rankings of the events counted under the parsed settings, and the email body is the title followed by the file's contents |
| Pipeline.ResultsNoLimit | loganalyze.py:229-233 | with a rank limit of 0 or below all three lists are empty |
| Pipeline.NoLimitEmptyReport | loganalyze.py:229-233 | with a rank limit of 0 or below the report is empty |
| Pipeline.NoEventsEmptyReport | loganalyze.py:229-233 | with no counted event the report is empty |
| Pipeline.RankedSectionReadBack | loganalyze.py:173-177 | a section ranking the keys of parsed events reads back as its numbered list |
| Pipeline.ResultsReadBack | loganalyze.py:229-233 | each non-empty section of the results for parsed events reads back as its numbered list |
| Pipeline.ReportedSectionsReadBack | loganalyze.py:229-236 | each section the report holds for a log reads back as its numbered `(rank, key, count)` list |
| Pipeline.WhitelistedIpNotReported | loganalyze.py:141-142 | no whitelisted IP appears in the IP section |
| Pipeline.MonitoredNamesReported | loganalyze.py:144-145 | with monitoring on, the name section lists monitored names only |

## Left out

- Sending the email (`send_email`, SMTP, its settings and its error handling) is left out. The model stops at the email body.
- Logging, and the timing of `main`, are left out.
- `get_env_variables` is partly left out. The setting values are parameters, and only the comma-list parsing is modelled. The environment lookups, the platform default log path and `int(RANK_LIMIT)` are not modelled; the rank limit is an integer parameter.
- File input/output is partly left out.
  - The log file is given as its sequence of lines. Opening, decoding and reading the file are not modelled.
  - The report file is a `ReportFile` object holding its contents. The output directory and the timestamped file name are not modelled.
- Exceptions are left out. `analyze_logs` returns `None` on an exception, and `main` reports that failure by email. A failed read is not modelled, so the model always counts.
- LineParser.IsWordChar: `\w` and `\d` match ASCII characters only here. For `str` patterns, Python's `re` also matches Unicode letters and digits.
- The general regular-expression engine is left out. Only the two fixed patterns are modelled, matched with maximal runs; `PatternDeterminate` shows why a backtracking matcher can do no other for these patterns.
- Ranker.SortByCount models `most_common` as a stable insertion sort. Python's own code path (`sorted`, or `heapq.nlargest` when a limit is given) is not modelled. `SortByCountUnique` shows that every stable sort by descending count gives the same list.
- The report is read back one section at a time, given that section's text. Splitting a whole report into its sections is not modelled.
- The results dict is a sequence of three sections in insertion order, which is the order in which Python iterates a dict.
