# LIB_SEARCH: a verified model of the scanner's core

`LIB_SEARCH.py` reads a list of library identifiers such as
`Firebase-10.24.0` or `DPHSDK-v3.4.3`. It splits each line into a name and a
version. It drops duplicates, then queries the NIST NVD CVE API 2.0 once per
(name, version). For every record of a response it computes the best CVSS
base score. A record scoring at least 7.0 is high risk, and the scanner
keeps it with its description (the English one if there is one). Each input's records are sorted by
descending score.

This project models that core in Dafny. Each module follows one part of the
program:

- `Text` (`text.dfy`) models `str.strip()` and `str.lower()` on ASCII text.
- `Identifier` (`identifier.dfy`) models `parse_name_version` and the line
  filter of `read_items_from_txt`.
  - The regular expression `^(.+?)[-_](v?\d+(?:\.\d+)*.*)$` is modelled as a
    scan for the earliest separator that is followed by `v<digit>` or
    `<digit>`.
  - A line feed inside the stripped line defeats the match, because `.`
    does not match a line feed.
- `Dedup` (`dedup.dfy`) models the "seen set" pattern that `main` writes out
  three times. It gives first-occurrence deduplication by a key, with its
  laws.
- `Nvd` (`nvd.dfy`) models an NVD record and the three pure helpers:
  - `best_cvss_score_nvd` is the method `BestCvssScore`, with its nested
    loops. It is proved equal to the running maximum `BestScore`.
  - `extract_high_risk_vulns_nvd` and `get_description_nvd` are functions.
  - The `data.get("baseScore") or m.get("baseScore")` fallback follows
    Python truthiness: a zero or empty data-level score falls back.
- `Ranking` (`ranking.dfy`) models the reported form of a record and the
  stable descending sort of line 247. The sort key is the score, or -1 for a
  record without one.
- `Scan` (`scan.dfy`) models the loops of `main`:
  - the raw-line deduplication offered for saving;
  - the (name, version) deduplication;
  - the aggregation into `per_input`, whose `(raw, cve_id)` set is shared
    across all items.

  It also proves the whole pipeline property, `ScanEntryVulns`. For the items
  `main` actually queries, the shared set never hides a record. Each
  successful entry lists the first high-risk record of each CVE id of its own
  response, sorted by score.

The source functions themselves are these members. Each is pure and
carries its meaning in the lemmas named beside it:

- `parse_name_version` (lines 49-70) is `Identifier.ParseNameVersion`.
  Its lemmas are `ParseNoneIff`, `ParseWithoutSplit`,
  `ParseAtEarliestSplit` and `ParseWellFormed`.
- The filter of `read_items_from_txt` (lines 79-82) is `Identifier.ItemsOf`,
  and the loop itself is `Identifier.ReadItems`.
- `best_cvss_score_nvd` (lines 98-113) is `Nvd.BestCvssScore`, proved equal
  to `Nvd.BestScore`, whose lemma is `BestScoreIsMaximum`.
- `extract_high_risk_vulns_nvd` (lines 127-130) is `Nvd.ExtractHighRisk`,
  with `Nvd.IsHighRisk` for its first component. Its lemma is `HighRiskIff`.
- `get_description_nvd` (lines 116-124) is `Nvd.DescriptionOf`. Its lemmas
  are `DescriptionPrefersEnglish` and `DescriptionFallback`.
- The aggregation of `main` (lines 215-248) is `Scan.ReportOf`, built from
  `Scan.EntryFor` (one item) and `Scan.Kept` (its record loop). The loops
  themselves are `Scan.Aggregate` and `Scan.CollectHighRisk`. Their lemmas
  are `ReportLength`, `ReportEntries`, `ReportAt`, `KeptIsDedup`,
  `EntryVulnsMeaning` and `ScanEntryVulns`.

Calls the model cannot see are parameters:

- The input lines of the file are a `seq<string>`.
- What `nvd_query` returned or raised for the `i`-th queried item is
  `outcomes[i]`, a `QueryOutcome`. It is one of: the `vulnerabilities` list,
  an `HTTPError` message, or another exception's message.
- A `baseScore` field is `Absent`, a JSON `Number`, or `Other`. `Other`
  carries the value's truthiness and what `float()` makes of it.

The comment at `LIB_SEARCH.py:61` says the line is split by the *last* `-`
or `_`. The lazy `.+?` of the regular expression on line 62 makes the match
split at the *earliest* qualifying separator. The model follows the code.
`Identifier.ExampleEarliestSplit` shows the difference: `lib-1.0-2.0` gives
(`lib`, `1.0-2.0`).

## Model

| member | source | states |
|---|---|---|
| Text.SkipSpaces | LIB_SEARCH.py:57 | the scan stops at the first non-whitespace position at or after its start, having passed only whitespace |
| Text.BackSpaces | LIB_SEARCH.py:57 | the backward scan stops after the last non-whitespace character, not before its lower bound, having passed only whitespace |
| Text.Strip | LIB_SEARCH.py:57 | stripping never lengthens a string |
| Text.StripIsTrim | LIB_SEARCH.py:57 | a stripped string has no whitespace at either end, every character dropped at either end is whitespace, and the result is empty exactly when the input is all whitespace |
| Text.StripTrimmed | LIB_SEARCH.py:66-67 | stripping a string with no whitespace at either end changes nothing |
| Text.StripIdempotent | LIB_SEARCH.py:57 | stripping twice is stripping once |
| Text.LowerChar | LIB_SEARCH.py:68 | no capital is left; a capital becomes the small form of the same letter; every other character is unchanged |
| Text.Lower | LIB_SEARCH.py:120 | lowering keeps the length, leaves no capital, turns each capital into its small letter and keeps every other character |
| Text.LowerIdempotent | LIB_SEARCH.py:120 | lowering twice is lowering once |
| Text.LowerNoUpper | LIB_SEARCH.py:120 | a text without capitals is its own lower case |
| Identifier.FirstSplit | LIB_SEARCH.py:62 | the scan returns the least split position at or after its start, or None when there is none |
| Identifier.SplitIndex | LIB_SEARCH.py:62 | the regular expression matches exactly when the line has no line feed and some separator at position ≥ 1 is followed by `v?<digit>`; the name group then ends at the earliest such separator |
| Identifier.VersionGroupOf | LIB_SEARCH.py:67-69 | on a trimmed version group only a lowercase `v` is removed, and what remains begins with a digit |
| Identifier.ParseNoneIff | LIB_SEARCH.py:57-59 | the parse is None exactly for blank lines and lines starting with `#` after stripping |
| Identifier.ParseWithoutSplit | LIB_SEARCH.py:62-64 | with no qualifying separator the result is (stripped line, "") |
| Identifier.ParseAtEarliestSplit | LIB_SEARCH.py:62-70 | at the earliest qualifying separator the name is the stripped prefix and the version is the suffix with one leading `v` removed |
| Identifier.VersionTail | LIB_SEARCH.py:66-69 | after a split of a stripped line the version group loses only a lowercase `v` and keeps a digit at its head |
| Identifier.ParseWellFormed | LIB_SEARCH.py:49-70 | every accepted line yields a non-empty trimmed name and a version that is empty or begins with a digit |
| Identifier.ItemsOf | LIB_SEARCH.py:79-82 | the filter yields at most one item per line |
| Identifier.ItemsOfSound | LIB_SEARCH.py:79-83 | every item has a non-empty raw line that parses back to the item's name and version, and every parsing line contributes (stripped line, name, version) |
| Identifier.ReadItems | LIB_SEARCH.py:78-83 | the loop returns exactly the filter's items, in input order |
| Identifier.SplitExample | LIB_SEARCH.py:62-70 | a trimmed line with its earliest qualifying separator at `i` parses to the given name and version |
| Identifier.ExampleFirebase | LIB_SEARCH.py:52 | `Firebase-10.24.0` parses to (`Firebase`, `10.24.0`) |
| Identifier.ExampleAFNetworking | LIB_SEARCH.py:53 | `AFNetworking-4.0.1` parses to (`AFNetworking`, `4.0.1`) |
| Identifier.ExampleDPHSDK | LIB_SEARCH.py:54 | `DPHSDK-v3.4.3` parses to (`DPHSDK`, `3.4.3`) |
| Identifier.ExampleEarliestSplit | LIB_SEARCH.py:61-62 | `lib-1.0-2.0` splits at the first `-`, giving (`lib`, `1.0-2.0`) |
| Identifier.ExampleSeparatorInName | LIB_SEARCH.py:62 | a separator not followed by a version stays in the name: `my_lib-2-beta` gives (`my_lib`, `2-beta`) |
| Identifier.ExampleNoVersion | LIB_SEARCH.py:63-64 | `just-a-name` gives (`just-a-name`, "") |
| Identifier.ExampleUppercaseV | LIB_SEARCH.py:62-64 | an uppercase `V` cannot start the version group: `lib-V1.0` gives (`lib-V1.0`, "") |
| Identifier.ExampleSkipped | LIB_SEARCH.py:57-59 | the empty line and an indented comment give None |
| Dedup.KeysOf | LIB_SEARCH.py:203-208 | the key of every element is in the seen set |
| Dedup.DedupBy | LIB_SEARCH.py:202-209 | deduplication never lengthens the sequence |
| Dedup.KeysOfExact | LIB_SEARCH.py:203-208 | a key is seen only if some element carries it |
| Dedup.KeysOfAbsent | LIB_SEARCH.py:203-208 | a key no element carries is not seen |
| Dedup.DedupSnoc | LIB_SEARCH.py:204-209 | one more element is kept exactly when its key has not been seen |
| Dedup.DedupKeepsFirstOccurrences | LIB_SEARCH.py:202-209 | the kept elements are exactly the first occurrences of their keys, at strictly increasing positions |
| Dedup.KeptPositions | LIB_SEARCH.py:202-209 | the kept elements are the input at strictly increasing positions |
| Dedup.KeptAreFirst | LIB_SEARCH.py:202-209 | every kept position is the first occurrence of its key |
| Dedup.FirstAreKept | LIB_SEARCH.py:202-209 | every first occurrence is kept |
| Dedup.DedupDistinct | LIB_SEARCH.py:202-209 | no two kept elements share a key |
| Dedup.DedupRepresents | LIB_SEARCH.py:237-240 | every record's CVE id is the id of some kept record |
| Dedup.DedupKeys | LIB_SEARCH.py:202-209 | deduplication loses no key |
| Dedup.DedupOfDistinct | LIB_SEARCH.py:202-209 | a sequence whose keys are already distinct is unchanged |
| Dedup.DedupIdempotent | LIB_SEARCH.py:202-209 | deduplicating twice is deduplicating once |
| Nvd.MaxScore | LIB_SEARCH.py:112-113 | the running maximum is None exactly for no scores; otherwise it is one of the scores and bounds them all |
| Nvd.BestScoreIsMaximum | LIB_SEARCH.py:99-114 | the best score is the largest present, parseable base score of the three lists, None when there is none |
| Nvd.ScoresOfSnoc | LIB_SEARCH.py:103-111 | one more metric adds its score exactly when the chosen field is present and parses |
| Nvd.MaxScoreSnoc | LIB_SEARCH.py:112-113 | one more score updates the maximum by the strict comparison of line 112 |
| Nvd.BestCvssScore | LIB_SEARCH.py:99-114 | the nested loops return the maximum of every present, parseable base score, in list order V3.1, V3.0, V2, and None when there is none |
| Nvd.HighRiskIff | LIB_SEARCH.py:127-130 | a record is high risk exactly when one of its scores reaches 7.0; the score returned is the best score |
| Nvd.EnglishTags | LIB_SEARCH.py:120 | the language test accepts exactly `en`, `En`, `eN` and `EN` |
| Nvd.FirstEnglish | LIB_SEARCH.py:119-121 | the index found is the first English description, or None when there is none |
| Nvd.DescriptionPrefersEnglish | LIB_SEARCH.py:119-121 | the first English description, stripped, is the result |
| Nvd.DescriptionFallback | LIB_SEARCH.py:122-124 | without an English description the first description is used, without any the result is empty, and the result is always trimmed |
| Nvd.SingleScoreScores | LIB_SEARCH.py:103-111 | a record with one non-zero data-level score has that single score |
| Nvd.ExampleThreshold | LIB_SEARCH.py:129 | the threshold is inclusive: 7.0 is high risk and 6.9 is not |
| Nvd.ExampleBestAcrossLists | LIB_SEARCH.py:102-113 | 6.5 in the V3.1 list and 8.1 in the V2 list give 8.1: the lists are not tried in order of preference |
| Nvd.ExampleFallback | LIB_SEARCH.py:105-111 | a zero data-level score falls back to the metric-level score; a missing fallback gives no score; a truthy unparseable data-level value does not fall back |
| Nvd.ExampleDescription | LIB_SEARCH.py:119-121 | an `EN` description wins over an earlier `es` one |
| Ranking.Insert | LIB_SEARCH.py:247 | inserting into a descending sequence keeps it descending and adds one record |
| Ranking.InsertPerm | LIB_SEARCH.py:247 | inserting adds exactly the inserted record to the multiset of records |
| Ranking.SortedTail | LIB_SEARCH.py:247 | the tail of a descending sequence is descending |
| Ranking.WithKeyCons | LIB_SEARCH.py:247 | the records with a given key of a sequence are its head, if it has that key, followed by those of its tail |
| Ranking.SortByScoreDesc | LIB_SEARCH.py:247 | the result is descending by score, with no score counting as -1, and it is a permutation of the input |
| Ranking.InsertStable | LIB_SEARCH.py:247 | an inserted record goes ahead of the records with its own key |
| Ranking.SortIsStable | LIB_SEARCH.py:247 | for every key, the records with that key keep their input order |
| Ranking.InsertKeepsDistinctIds | LIB_SEARCH.py:247 | inserting a record with a new CVE id keeps the ids distinct |
| Ranking.SortKeepsDistinctIds | LIB_SEARCH.py:247 | sorting keeps CVE ids distinct |
| Ranking.SortMembers | LIB_SEARCH.py:247 | the sort keeps the length and exactly the input's records |
| Ranking.SortedFrom | LIB_SEARCH.py:247 | every position of the output holds an input record |
| Scan.DedupRawLines | LIB_SEARCH.py:184-189 | the loop yields the raw lines of the first item per raw line |
| Scan.RawLinesUnique | LIB_SEARCH.py:184-189 | the saved lines repeat no line, miss no line, and each stands where it first occurred |
| Scan.DedupItems | LIB_SEARCH.py:202-209 | the loop keeps the first item per (name, version), in order |
| Scan.DedupItemsDistinctRaws | LIB_SEARCH.py:202-209 | items read from lines have distinct raw lines once deduplicated on (name, version) |
| Scan.HighRiskOnly | LIB_SEARCH.py:231-234 | the filtered records are high risk and from the response, and every high-risk record is among them |
| Scan.ReportSnoc | LIB_SEARCH.py:215-248 | one more item adds its entry, built with the keys seen so far, and adds its own keys to the seen set |
| Scan.CollectHighRisk | LIB_SEARCH.py:231-245 | the record loop appends each high-risk record whose (raw, id) key is new and adds exactly those keys to the seen set |
| Scan.Aggregate | LIB_SEARCH.py:215-248 | the aggregation loop builds exactly the reference report |
| Scan.ReportAt | LIB_SEARCH.py:215-248 | entry `i` is built from item `i`, its outcome, and the keys seen for the items before it |
| Scan.ReportLength | LIB_SEARCH.py:215-248 | there is one entry per item, including failed ones |
| Scan.ReportEntries | LIB_SEARCH.py:218-229 | each entry carries its item's raw line, name and version; an HTTP error gives `NVD query failed: …`, another exception `NVD query error: …`, both with no records; a successful query gives no error |
| Scan.HighKeysMeaning | LIB_SEARCH.py:237-240 | the keys added for a raw line carry that line, and their ids are exactly the ids of the high-risk records |
| Scan.SeenAfterRaws | LIB_SEARCH.py:216-240 | every seen key carries the raw line of an item already processed |
| Scan.MapReportedSnoc | LIB_SEARCH.py:241-245 | one more record adds its report at the end |
| Scan.KeptIsDedup | LIB_SEARCH.py:231-245 | when no key of the raw line was seen, the loop keeps the first high-risk record of each CVE id, in order |
| Scan.EntryVulns | LIB_SEARCH.py:215-248 | with distinct raw lines, a successful entry lists the sorted reports of the first high-risk record of each CVE id of its response |
| Scan.ReportedScore | LIB_SEARCH.py:232-245 | a reported high-risk record carries its best score, which is at least 7.0 |
| Scan.SortedReportFrom | LIB_SEARCH.py:241-247 | each sorted report is the report of a kept record |
| Scan.SortedFirstReports | LIB_SEARCH.py:231-247 | each listed record scores at least 7.0 and is the report of the first high-risk record with its CVE id |
| Scan.SortedFirstReport | LIB_SEARCH.py:231-247 | the listed record at any one position scores at least 7.0 and is the report of the first high-risk record with its CVE id |
| Scan.SortedReportsDistinct | LIB_SEARCH.py:237-247 | no CVE id is listed twice |
| Scan.HighRiskListed | LIB_SEARCH.py:231-240 | a list naming every id of the filtered records names every high-risk id of the response |
| Scan.FilteredIndex | LIB_SEARCH.py:231-234 | every high-risk record of a response is at some position of the filtered records |
| Scan.SortedReportsCover | LIB_SEARCH.py:231-247 | every CVE id of the filtered records is listed |
| Scan.SortedReportCovers | LIB_SEARCH.py:231-247 | the CVE id of any one filtered record is listed |
| Scan.SortListsId | LIB_SEARCH.py:247 | sorting drops no CVE id from the list |
| Scan.EntryVulnsMeaning | LIB_SEARCH.py:215-248 | with distinct raw lines, a successful entry is sorted stably by descending score, holds only records scoring at least 7.0, repeats no CVE id, lists every high-risk CVE id of its response, and each is the first high-risk record with its id |
| Scan.ScanEntryVulns | LIB_SEARCH.py:202-248 | for the items read from the lines and deduplicated on (name, version), every successful entry lists the sorted reports of the first high-risk record of each CVE id of its own response |

## Left out

- `ensure_module`, the `colorama` colouring and `c` (lines 10-43): these install packages and format console output.
- `read_items_from_paste` (lines 86-96) reads the console. Its per-line filter is the same as `read_items_from_txt`'s, which is modelled.
- Reading `libs.txt`, `splitlines`, creating the file, and writing the normalized list back (lines 73-77, 169-197): this is file I/O. The model starts from the list of lines, and `Scan.DedupRawLines` models the list that would be written.
- `nvd_query` (lines 133-149): an HTTP request. Its result or exception is the `outcomes` parameter.
- The mode prompt, `NVD_API_KEY`, the clock, the "NO RESULTS" / "NO INPUTS" early exits and the report printing (lines 153-167, 199-200, 211-213, 250 onward): console I/O and environment.
- Text.Lower, Text.Strip, Text.IsSpace: cover ASCII letters and the ASCII whitespace that `str.strip()` removes (`\t`–`\r`, `\x1c`–`\x1f`, space), not the non-ASCII whitespace or case mappings of Python strings.
- Identifier.IsDigit: `\d` is modelled as the ASCII digits, not every Unicode decimal digit.
- Nvd.AsFloat: `float()` is an oracle carried by the `Other` score field, and Python floats are modelled as reals (no NaN, infinities or rounding).
- JSON shapes that are not objects or lists where the code calls `.get` or iterates (a `cve` that is a string, say) are left out. Those raise in the source, and such a record is not representable in the model. A missing or null `cve`, `metrics`, metric list, `descriptions` or description `value` is modelled as empty, as the source's `or {}` / `or []` / `or ""` make it. A null `lang` becomes `"None"`, as `str(None)` does.
- Nvd.Vuln: the CVE `id` is a string. A missing `id` becomes `""`, as `get("id", "")` gives it. A `null` or non-string `id` is not modelled: the source keys and reports it as `None` (or the number), while the model cannot tell it apart from a string id. So a response holding two high-risk records whose ids are `null` and `""` gives two reported records in the source, and the model has no such response.
- Ranking.SortByScoreDesc: the list is sorted in place by `list.sort`; the model computes the sorted sequence as a value and proves it sorted, a permutation and stable.
