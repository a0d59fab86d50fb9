# CVE monitoring: a verified model

The repository watches the National Vulnerability Database (NVD) for CVEs
that affect the components of one embedded SDK. It has two scripts.

`check_cves.py` works through a fixed list of keywords. Each item has an SDK
label, a search term and an optional version.
- For each keyword it pages through the NVD CVE API 2.0 (200 records per
  request).
- It keeps a CVE only when the CVE's CPE configurations admit the item's
  version.
- It drops CVEs whose description points at a different version, using two
  text heuristics:
  - a wpa_supplicant-specific one;
  - a generic digit-dot-digit one.
- It normalizes each kept CVE into a flat record. Default values fill the
  missing fields, and the CVSS data comes from the first of the V3.1,
  V3.0 and V2 metric lists whose first entry carries CVSS data (a present but
  empty list raises and ends the search).
- It tags each record with the item's SDK label.

`generate_pdf_report.py` turns those records into a report:
- Each record becomes a seven-column row.
- Rows with HIGH or CRITICAL severity are flagged for red text.
- Records are split into "new" and "existing" by their `is_new` flag.
- Each group becomes a heading, a spacer and either a placeholder note or a
  table.

The model is split into these modules:
- `Versions`: release versions as sequences of naturals. Parsing, rendering,
  and the zero-padded component-wise order of PEP 440 final releases.
- `Applicability`: `is_version_vulnerable`, modelled twice:
  - as the nested scan the code performs;
  - as an independent range-containment reference.
- `TextFilters`: the two `re.findall` extractions, as hand-written scanners,
  and the two drop heuristics, each proved equal to a plain predicate.
- `NvdRecords`: the raw CVE shape and the normalization into a result record.
- `Search`:
  - `search_nvd` as a method with a loop, over an abstract page oracle;
  - the main keyword loop;
  - specification functions for both, and lemmas about offsets, error
    handling and labelling.
- `Report`: `format_row`, `classify_entry`, the split loop and the data side
  of `add_table` (table rows and red-row indices), with `story` as a class.
- `Text` and `Wrappers`: ASCII string helpers, Python truthiness of optional
  strings, and `Option`/`Result`.

Two behaviours of the code are kept as written:
- **Both start attributes present.** When a descriptor has both
  `versionStartIncluding` and `versionStartExcluding`, the start value comes
  from the including attribute but is compared strictly, because the
  strictness test looks at the excluding attribute. The range reference
  matches the code only when at most one start attribute is present, and
  `Applicability.BothStartAttributesCompareStrictly` states the other case,
  with or without an end bound.
- **The generic filter.** Its final `all(v != target …)` test is always true
  once the branch is entered. `TextFilters.GenericDropsIff` proves the filter
  equal to the simple three-part condition.

## Model

| member | source | states |
|---|---|---|
| Text.OrElse | check_cves.py:40-41 | `a or b` on optional strings: the first operand when it is truthy, the second otherwise; so the result is truthy iff either operand is |
| Text.UpperIsCaseInsensitiveEquality | generate_pdf_report.py:45-46 | uppercasing a string gives an all-capitals word exactly when the string equals that word up to letter case |
| Versions.ParseVersionAcceptsExactlyWellFormed | check_cves.py:31-34 | a version string parses iff it is non-empty digit groups separated by single dots, with no dot at either end |
| Versions.ParseVersion | check_cves.py:32-34 | `version.parse` restricted to final releases: digit groups separated by dots, `None` for anything else; which strings it accepts is stated by ParseVersionAcceptsExactlyWellFormed and what it returns by ParseRender and ParseRenderPadded |
| Versions.ParseRender | check_cves.py:32 | parsing the dotted rendering of any non-empty release gives back that release |
| Versions.ParseRenderPadded | check_cves.py:32-34 | each segment is read as an integer, as PEP 440 normalises it: a rendering with any number of leading zeros in any segment ("2.0.01") parses to the same release as the plain one ("2.0.1") |
| Versions.Compare | check_cves.py:45-53 | version comparison is three-valued (-1, 0 or 1) |
| Versions.CompareZeroIffPaddedEqual | check_cves.py:45-53 | two releases compare equal iff they agree at every position once the shorter is padded with zeros |
| Versions.LessIffFirstDifferenceBelow | check_cves.py:45-53 | `a < b` iff, at the first position where the zero-padded releases differ, `a` has the smaller component |
| Versions.CompareAntisymmetric | check_cves.py:45-53 | swapping the operands negates the comparison |
| Versions.LessIsNotGreaterOrEqual | check_cves.py:45-53 | the order is total: `a < b` iff not `b <= a`, and any two releases are comparable |
| Versions.LessEqTransitive | check_cves.py:45-53 | `<=` is transitive, and the chain is strict when either step is strict |
| Versions.TrailingZeroIsEqual | check_cves.py:45-53 | a trailing zero component does not change a release's place in the order (2.0 equals 2) |
| Versions.NumericSegmentOrder | check_cves.py:45-53 | components compare as numbers: 1.9 < 1.10 and 2.2 < 2.20 |
| Applicability.ScanDescriptors | check_cves.py:39-57 | the descriptor loop returns true iff some descriptor in the list admits the target |
| Applicability.CheckDescriptor | check_cves.py:40-57 | the body of the descriptor loop: the start bound (lines 40-48), then the end bound, giving admitted, out of range or bad bound; its meaning is stated by DescriptorAdmitsIffRangeContains and the bound lemmas below |
| Applicability.CheckEnd | check_cves.py:41-57 | the end-bound half of the loop body, exclusive when `versionEndExcluding` is truthy; stated by DescriptorAdmitsIffRangeContains, UpperExclusiveOnly and UnparseableEndNeverAdmits |
| Applicability.ScanNodes | check_cves.py:38-57 | the node loop returns true iff some descriptor of some node admits the target |
| Applicability.ScanConfigs | check_cves.py:37-58 | the configuration loop returns true iff some descriptor of some node of some configuration admits the target |
| Applicability.IsVersionVulnerable | check_cves.py:28-58 | an empty or missing target admits every CVE; an unparseable target admits none; otherwise the result is true iff some descriptor admits the parsed target |
| Applicability.DescriptorAdmitsIffRangeContains | check_cves.py:40-54 | with at most one start attribute, a descriptor admits the target iff its bounds parse and the version range they describe contains the target, with each bound inclusive or exclusive as its attribute says |
| Applicability.BothStartAttributesCompareStrictly | check_cves.py:40-57 | with both start attributes present, whatever the end attributes, the descriptor admits exactly when the including value is strictly below the target and the end check admits |
| Applicability.UnboundedDescriptorAdmitsAll | check_cves.py:40-55 | a descriptor without start or end bounds admits every parsed target |
| Applicability.UnparseableStartNeverAdmits | check_cves.py:42-57 | a start bound that fails to parse makes the descriptor a skipped bad bound |
| Applicability.UnparseableEndNeverAdmits | check_cves.py:49-57 | an end bound that fails to parse means the descriptor never admits |
| Applicability.LowerInclusiveOnly | check_cves.py:43-48 | a descriptor with only `versionStartIncluding` admits exactly the targets at or above it |
| Applicability.UpperExclusiveOnly | check_cves.py:49-55 | a descriptor with only `versionEndExcluding` admits exactly the targets strictly below it |
| Applicability.NoConfigurationsNoMatch | check_cves.py:36-58 | an empty configuration list, or the empty object used when the key is missing, admits no parsed target |
| Applicability.BadBoundIsSkipped | check_cves.py:42-57 | a descriptor with a bad bound does not stop the scan: a later descriptor that admits still makes the result true |
| TextFilters.WpaMatchAt | check_cves.py:85 | a wpa match starts at "wpa_supplicant", then at most one `_` or space, then a version that starts with a digit, holds a dot and has only digits and dots, every dot followed by a digit inside it and a digit last (`\d+(?:\.\d+)+`); the version runs as far as the pattern allows: no digit, and no dot followed by a digit, comes right after it |
| TextFilters.WpaMatchWhereVersionFollows | check_cves.py:85 | the pattern misses no mention: "wpa_supplicant", an optional `_` or space, then digits, a dot and a digit always give a match whose version starts right there |
| TextFilters.WpaMatchesDoNotOverlap | check_cves.py:85 | no second match starts inside an earlier match |
| TextFilters.WpaVersionsAreAllMatches | check_cves.py:85 | a token is extracted iff some match position in the scanned range yields it |
| TextFilters.WpaVersionsFrom | check_cves.py:85 | `re.findall` of the wpa pattern, scanning left to right and resuming after each match; what it extracts is stated by WpaVersionsAreAllMatches |
| TextFilters.WpaFilterApplies | check_cves.py:84 | the heuristic is on when the lower-cased keyword contains "wpa_supplicant" and the label contains "2.2"; Search.WpaEntryEnablesFilter states it for the configured entry |
| TextFilters.WpaDrops | check_cves.py:85-87 | lines 85-87 as written: some version found and none starting with "2.2"; characterised by WpaDropsIffNoMatchStartsWith22 |
| TextFilters.WpaDropsIffNoMatchStartsWith22 | check_cves.py:84-87 | the wpa heuristic drops a description iff its lowercase form has at least one wpa version match and none of the matches starts with "2.2" |
| TextFilters.WpaSingleMention | check_cves.py:85-87 | a lower-case description whose only pattern match begins at its start (none begins at a later position) is dropped iff that mention's version does not start with "2.2" |
| TextFilters.WpaDropsOtherVersion | check_cves.py:85-87 | "wpa_supplicant 1.0" is dropped |
| TextFilters.WpaKeeps220 | check_cves.py:85-87 | "wpa_supplicant 2.20" is kept, because "2.20" starts with "2.2" |
| TextFilters.GenericMatchAt | check_cves.py:90 | a generic match lies within the scanned text |
| TextFilters.GenericVersionsFrom | check_cves.py:90 | every extracted token is a substring of the text |
| TextFilters.GenericMatchIffDigitDotDigit | check_cves.py:90 | a successful match attempt covers a digit-dot-digit at or after its position, and an attempt where a digit-dot-digit starts always succeeds |
| TextFilters.GenericVersionsNonEmptyIff | check_cves.py:90-91 | the extraction finds something iff the text contains a digit, a dot and a digit in a row |
| TextFilters.GenericDrops | check_cves.py:89-92 | lines 89-92 as written, extraction and `all(...)` test included; proved equal to the plain three-part condition by GenericDropsIff |
| TextFilters.GenericDropsIff | check_cves.py:89-92 | the generic heuristic drops a CVE iff a target is set, the target is in neither title nor description, and the description contains digit-dot-digit |
| NvdRecords.TitleOf | check_cves.py:81 | the title is the first entry's "title", or "" when that entry has none; a missing "titles" key gives ""; an empty list raises |
| NvdRecords.DescriptionOf | check_cves.py:82 | the description is the first entry's "value", or "N/A" when that entry has none; a missing "descriptions" key gives "N/A"; an empty list raises |
| NvdRecords.ReferenceOf | check_cves.py:113 | the reference is the first URL, or the NVD detail page of the CVE id when there is none |
| NvdRecords.CweOf | check_cves.py:101-102 | the CWE is "N/A" without weaknesses, otherwise the first weakness's first description; the lookup raises exactly when that weakness has no description |
| NvdRecords.ChooseCvss | check_cves.py:96-100 | the `or` chain over the three metric lists; its priority is stated by CvssV31First, CvssV30Second and CvssV2Last, and its failures by EmptyMetricListFails |
| NvdRecords.Normalize | check_cves.py:94-114 | normalization succeeds iff the CVSS lookup and the CWE lookup both succeed; the record then has source "NVD", the CVE's id, no label yet, the given title and description, the chosen data's severity or "UNKNOWN" and score or "N/A", the CWE, the publication date or "N/A", and the chosen reference |
| NvdRecords.NormalizeDefaults | check_cves.py:94-114 | with no metrics, weaknesses, references or publication date, the record holds "UNKNOWN", "N/A", "N/A", "N/A" and the NVD detail URL |
| NvdRecords.CvssV31First | check_cves.py:96-100 | CVSS data from the first V3.1 metric wins when present |
| NvdRecords.CvssV30Second | check_cves.py:96-100 | when V3.1 gives no data (the list is absent or its first entry has no cvssData), the first V3.0 entry's data is taken |
| NvdRecords.CvssV2Last | check_cves.py:96-100 | when neither V3 list gives data, the first V2 entry's data is taken, or an empty object when that entry has none or when there is no V2 list (so a CVE without metrics gets an empty object whatever its other fields) |
| NvdRecords.EmptyMetricListFails | check_cves.py:96-100 | the lookup raises iff it reaches a present but empty list: V3.1 always, V3.0 when V3.1 gave no data, V2 when neither V3 list did |
| NvdRecords.NormalizeV2Only | check_cves.py:96-110 | a CVE with only a V2 metric whose data has a score but no severity is recorded with severity "UNKNOWN", its V2 score and CWE "N/A" |
| Search.ExamineYieldsNormalized | check_cves.py:76-114 | a CVE whose configurations do not admit the target is skipped; a kept CVE had a title and a description, and its record is their normalization, with the CVE's id, source "NVD" and no label yet |
| Search.ExamineTakesIff | check_cves.py:76-114 | a CVE is kept iff it is applicable, its title and description lookups succeed, neither heuristic drops it, and normalization succeeds |
| Search.Examine | check_cves.py:76-114 | what the loop body does with one CVE: skip it, raise, or keep its record; stated by ExamineYieldsNormalized, ExamineTakesIff and ExamineAbortsIff |
| Search.ExamineAbortsIff | check_cves.py:76-114 | a CVE raises iff it is applicable and either its title or description lookup fails, or neither heuristic drops it and normalization fails; a CVE a heuristic drops never raises |
| Search.ProcessPage | check_cves.py:75-114 | the records of one page up to the first exception; stated by ProcessPageIsTakenUntilAbort, AbortIsFinal and KeepsRecordsBeforeFirstAbort |
| Search.AbortIsFinal | check_cves.py:119-121 | once an exception has ended the page's processing, later CVEs add nothing |
| Search.ProcessPageIsTakenUntilAbort | check_cves.py:75-114 | a page aborts iff some CVE on it raises; otherwise its records are exactly the kept CVEs' records, in order |
| Search.KeepsRecordsBeforeFirstAbort | check_cves.py:75-121 | when the first raising CVE is at position k, the page yields the records kept before k and stops |
| Search.Scan | check_cves.py:64-121 | the `while True` loop as a recursive specification; stated by ScanOffsets, ScanRecordsArePageRecords and RunIsUnique |
| Search.ScanOffsets | check_cves.py:61-118 | requests go to offsets 0, 200, 400, … in order; at least one is made; the scan goes on after each offset but the last and stops after the last |
| Search.RunIsUnique | check_cves.py:61-118 | any offset list with those properties is the scan's own: the stop rule leaves only one possible run of requests |
| Search.ScanRecordsArePageRecords | check_cves.py:61-121 | the scan returns the records of the requested pages, page after page, with what was collected before any error |
| Search.TwoRequestsFor250 | check_cves.py:116-118 | a total of 250 results leads to exactly the offsets 0 and 200 |
| Search.ProcessCves | check_cves.py:75-114 | the page loop's records and abort flag are those of the page specification |
| Search.SearchNvd | check_cves.py:60-121 | `search_nvd` requests 0, 200, 400, … and stops after the first offset whose fetch fails, whose processing raises, or whose advanced offset reaches the reported total; it returns the records of the requested pages, page after page, which are the records of the recursive scan specification |
| Search.SearchNvdIsScan | check_cves.py:60-121 | the requests and records of `search_nvd` are those of the recursive scan specification |
| Search.ScanStop | check_cves.py:116-121 | a scan that does not continue past its offset requests that offset only and returns that page's records |
| Search.ScanStep | check_cves.py:116-118 | a scan that continues is this page's records followed by the scan from the next offset |
| Search.Tagged | check_cves.py:132-133 | tagging keeps the records and their order and sets each record's label to the keyword item's SDK, changing nothing else |
| Search.Gather | check_cves.py:124-134 | the global `results` after the main loop, given what each search returned; stated by GatherAppend and ResultsCarryTheirLabel |
| Search.GatherAppend | check_cves.py:124-134 | the main loop over two lists of items gathers the first list's results, then the second's |
| Search.ScanKeywordsAppend | check_cves.py:124-134 | the results of a keyword list are the results of its parts, concatenated in list order |
| Search.ResultsCarryTheirLabel | check_cves.py:132-134 | every gathered result carries the SDK label of some keyword item |
| Search.AppendTagged | check_cves.py:132-134 | one iteration of the main loop extends the results by the keyword's records, each tagged with its SDK label |
| Search.ScanAll | check_cves.py:124-134 | the main loop's results are the tagged results of each keyword in list order |
| Search.ScanConfigured | check_cves.py:9-23 | the main loop over the 13 configured entries (lines 124-134) gives their tagged results, each carrying one entry's label |
| Search.WpaEntryEnablesFilter | check_cves.py:18 | the "wpa_supplicant 2.2" entry switches on the wpa heuristic of line 84 |
| Report.PublishedDate | generate_pdf_report.py:39 | the date column is the longest prefix of `published` without 'T': all of it when there is no 'T', otherwise what precedes the first 'T' |
| Report.FormatRow | generate_pdf_report.py:32-41 | every row has as many cells as the header |
| Report.MissingFieldsShowNA | generate_pdf_report.py:32-41 | each missing key shows "N/A" in its own column, the date column included |
| Report.PresentFieldsShowTheirValue | generate_pdf_report.py:32-41 | each present key shows its value in its own column, under the matching header label (lines 72-74); the date column shows the part of `published` before the first "T" |
| Report.Classify | generate_pdf_report.py:43-47 | the row is the formatted row; the highlight is on iff a severity is present and equals HIGH or CRITICAL up to letter case |
| Report.ClassifyAll | generate_pdf_report.py:53-54 | every entry is classified, in order |
| Report.SplitEntries | generate_pdf_report.py:50-58 | the split loop yields the new entries and the other entries, each classified, in input order |
| Report.NewOnes | generate_pdf_report.py:53-56 | the classified entries flagged new, in order; stated by NewOnesMembership and SplitIsStablePartition |
| Report.ExistingOnes | generate_pdf_report.py:53-58 | the other classified entries, in order; stated by ExistingOnesMembership and SplitIsStablePartition |
| Report.SplitIsStablePartition | generate_pdf_report.py:50-58 | the two lists' lengths sum to the input's, and dealing them back out by the `is_new` flags rebuilds the classified input in order |
| Report.NewOnesMembership | generate_pdf_report.py:53-56 | the new list holds exactly the classified entries flagged new |
| Report.ExistingOnesMembership | generate_pdf_report.py:53-58 | the existing list holds exactly the classified entries without a true `is_new`, a missing flag included |
| Report.ScannedResultsAreExisting | generate_pdf_report.py:53-58 | records written by the scanner carry no `is_new`, so the new list is empty and every record is in the existing list |
| Report.TableData | generate_pdf_report.py:76 | the table data is the header followed by each entry's row in order: 1 + n rows |
| Report.HighlightedRows | generate_pdf_report.py:93-96 | the table rows of the highlighted entries; stated by HighlightedRowsExact |
| Report.HighlightedRowsExact | generate_pdf_report.py:93-96 | row k is red iff 1 <= k <= n and entry k-1 is highlighted, so the header row 0 never is; the indices ascend |
| Report.RedRows | generate_pdf_report.py:93-96 | the `enumerate(entries, start=1)` loop collects exactly the highlighted row indices |
| Report.TableFlowablesShape | generate_pdf_report.py:63-100 | a section is a heading, an 8-point spacer, then the "No new CVEs detected." note exactly for an empty list with the flag and a table otherwise (header-only for an empty list without it), then a 20-point spacer; the table is the header and each entry's row in order, red exactly on the highlighted entries' rows |
| Report.TableFlowables | generate_pdf_report.py:63-100 | what `add_table` appends; stated by TableFlowablesShape |
| Report.Story.constructor | generate_pdf_report.py:61 | the story starts empty |
| Report.Story.AddTable | generate_pdf_report.py:63-100 | `add_table` appends exactly the section for its title, entries and flag |
| Report.BuildStory | generate_pdf_report.py:113-114 | the story is the new section with its note, then the existing section |
| Report.ReportStory | generate_pdf_report.py:113-114 | the new section with its note, then the existing section; stated by ReportOfScannedResults for the scanner's output |
| Report.ReportOfScannedResults | generate_pdf_report.py:113-114 | for the scanner's own output the report is the "No new CVEs detected." note, then one table of all results in order |

## Left out

- HTTP and JSON decoding: `requests.get` and `r.json()` are a page oracle
  `fetch(keyword, offset)`. A network or decoding error is its failure
  result. A missing "totalResults" appears as 0, and a missing
  "vulnerabilities" list as the empty list.
- Search.SearchNvd: it requires every total the oracle could report, for any
  keyword and any offset (requested or not), to stay at or below a fixed
  bound, so that the loop terminates. This excludes every unbounded oracle,
  including ones on which the real loop still stops; a server whose reported
  totals keep growing could make the real loop run forever, and the model
  does not cover either kind.
- JSON shape errors are not modelled: a missing "cve", "id" or "url" key, a first
  weakness without a "description" key or whose first description has no
  "value" key, or
  a value of an unexpected JSON type. Every field is an optional value of the
  expected type.
- Versions.ParseVersion: accepts only numeric release segments. Pre-, post-
  and dev-releases, epochs, local labels, a leading "v" and surrounding
  whitespace, all of which `packaging` accepts, are treated as parse
  failures. `packaging` itself is not part of this model.
- Text.Lower, Text.Upper: map ASCII letters only. The regex `\d` is ASCII
  digits only. Python's Unicode case mapping and Unicode digits are not
  modelled.
- NvdRecords.ChooseCvss: treats any present `cvssData` object as truthy. An
  empty `{}` object, which Python treats as false, is not distinguished.
- Report.IsNew: `is_new` is an optional boolean. Other JSON values and their
  truthiness are not modelled.
- Report.FormatRow: cells are plain strings. ReportLab's `Paragraph` markup
  interpretation is not modelled.
- ReportLab rendering is left out: table styles other than the red-text
  rows, fonts, colours, column widths, page size and `doc.build`.
- File I/O and the clock are left out: reading and writing `results.json`,
  the timestamp, creating the output directory, and writing the PDF.
- Console printing (`print`) is left out, including the error message
  printed when a scan ends on an exception.
- Novelty classification: nothing in the repository computes `is_new`, and
  `NEW_IDS_PATH` is never read. The model takes the flag as input.
