/** The data side of generate_pdf_report.py: each result entry becomes a
    7-cell row and a highlight flag, the entries are split into new and
    existing ones, and each group becomes a heading, a spacer and either a
    note or a table whose highlighted rows are listed for red text. Cells are
    plain strings; fonts, colours and column widths are left to the renderer. */
module Report {
  import opened Wrappers
  import opened Text
  import NvdRecords

  /** One element of results.json, each key possibly absent */
  datatype Entry = Entry(
    sdk: Option<string>,
    id: Option<string>,
    severity: Option<string>,
    cvss: Option<string>,
    cwe: Option<string>,
    published: Option<string>,
    description: Option<string>,
    isNew: Option<bool>)

  type Row = seq<string>

  const NA := "N/A"

  /** The header labels, in column order */
  const HEADER: Row := ["SDK", "CVE ID", "Severity", "CVSS", "CWE", "Published", "Description"]

  /** `published.split("T")[0]`: the text before the first 'T' */
  function PublishedDate(published: string): (date: string)
    ensures StartsWith(published, date)
    ensures 'T' !in date
    ensures |date| < |published| ==> published[|date|] == 'T'
  {
    if published == [] || published[0] == 'T' then []
    else [published[0]] + PublishedDate(published[1..])
  }

  /** `format_row`: the seven cells, "N/A" for a missing key */
  function FormatRow(e: Entry): (row: Row)
    ensures |row| == |HEADER|
  {
    [ e.sdk.GetOr(NA),
      e.id.GetOr(NA),
      e.severity.GetOr(NA),
      e.cvss.GetOr(NA),
      e.cwe.GetOr(NA),
      PublishedDate(e.published.GetOr(NA)),
      e.description.GetOr(NA) ]
  }

  /** A missing key shows as "N/A" in its column, the date column included. */
  lemma MissingFieldsShowNA(e: Entry)
    ensures e.sdk.None? ==> FormatRow(e)[0] == NA
    ensures e.id.None? ==> FormatRow(e)[1] == NA
    ensures e.severity.None? ==> FormatRow(e)[2] == NA
    ensures e.cvss.None? ==> FormatRow(e)[3] == NA
    ensures e.cwe.None? ==> FormatRow(e)[4] == NA
    ensures e.published.None? ==> FormatRow(e)[5] == NA
    ensures e.description.None? ==> FormatRow(e)[6] == NA
  {
    assert 'T' !in NA;
  }

  /** A present key shows its value in its own column, under the header label
      of that column; the date column shows the date part of `published`. */
  lemma PresentFieldsShowTheirValue(e: Entry)
    ensures e.sdk.Some? ==> FormatRow(e)[0] == e.sdk.value && HEADER[0] == "SDK"
    ensures e.id.Some? ==> FormatRow(e)[1] == e.id.value && HEADER[1] == "CVE ID"
    ensures e.severity.Some? ==> FormatRow(e)[2] == e.severity.value && HEADER[2] == "Severity"
    ensures e.cvss.Some? ==> FormatRow(e)[3] == e.cvss.value && HEADER[3] == "CVSS"
    ensures e.cwe.Some? ==> FormatRow(e)[4] == e.cwe.value && HEADER[4] == "CWE"
    ensures e.published.Some? ==> FormatRow(e)[5] == PublishedDate(e.published.value) && HEADER[5] == "Published"
    ensures e.description.Some? ==> FormatRow(e)[6] == e.description.value && HEADER[6] == "Description"
  {
  }

  /** A row and whether it is printed red */
  datatype Classified = Classified(row: Row, highlight: bool)

  /** `classify_entry` */
  function Classify(e: Entry): (c: Classified)
    ensures c.row == FormatRow(e)
    ensures c.highlight <==>
              e.severity.Some? && (EqualsIgnoringCase(e.severity.value, "HIGH") || EqualsIgnoringCase(e.severity.value, "CRITICAL"))
  {
    var severity := e.severity.GetOr("");
    UpperIsCaseInsensitiveEquality(severity, "HIGH");
    UpperIsCaseInsensitiveEquality(severity, "CRITICAL");
    Classified(FormatRow(e), Upper(severity) in {"HIGH", "CRITICAL"})
  }

  /** `entry.get("is_new", False)` is truthy */
  predicate IsNew(e: Entry) {
    e.isNew == Some(true)
  }

  function ClassifyAll(es: seq<Entry>): (cs: seq<Classified>)
    ensures |cs| == |es|
    ensures forall i :: 0 <= i < |es| ==> cs[i] == Classify(es[i])
  {
    if es == [] then [] else ClassifyAll(es[..|es| - 1]) + [Classify(es[|es| - 1])]
  }

  /** The entries `new_cves` receives, classified, in input order */
  function NewOnes(es: seq<Entry>): seq<Classified> {
    if es == [] then []
    else NewOnes(es[..|es| - 1]) + if IsNew(es[|es| - 1]) then [Classify(es[|es| - 1])] else []
  }

  /** The entries `existing_cves` receives, classified, in input order */
  function ExistingOnes(es: seq<Entry>): seq<Classified> {
    if es == [] then []
    else ExistingOnes(es[..|es| - 1]) + if IsNew(es[|es| - 1]) then [] else [Classify(es[|es| - 1])]
  }

  /** Lines 50-58: the split loop */
  method SplitEntries(es: seq<Entry>) returns (newCves: seq<Classified>, existingCves: seq<Classified>)
    ensures newCves == NewOnes(es) && existingCves == ExistingOnes(es)
  {
    newCves, existingCves := [], [];
    for i := 0 to |es|
      invariant newCves == NewOnes(es[..i]) && existingCves == ExistingOnes(es[..i])
    {
      assert es[..i + 1][..i] == es[..i];
      var formatted := Classify(es[i]);
      if es[i].isNew.GetOr(false) {
        newCves := newCves + [formatted];
      } else {
        existingCves := existingCves + [formatted];
      }
    }
    assert es[..|es|] == es;
  }

  /** Deal the two lists back out by the entries' flags, the last entry last. */
  function Merge(es: seq<Entry>, newList: seq<Classified>, oldList: seq<Classified>): seq<Classified> {
    if es == [] then []
    else if IsNew(es[|es| - 1]) then
      if newList == [] then [] else Merge(es[..|es| - 1], newList[..|newList| - 1], oldList) + [newList[|newList| - 1]]
    else
      if oldList == [] then [] else Merge(es[..|es| - 1], newList, oldList[..|oldList| - 1]) + [oldList[|oldList| - 1]]
  }

  /** The split is a stable partition: its two lists together have the input's
      length, and interleaving them back by the is_new flags gives every
      entry, classified, in input order. */
  lemma {:induction false} SplitIsStablePartition(es: seq<Entry>)
    ensures |NewOnes(es)| + |ExistingOnes(es)| == |es|
    ensures Merge(es, NewOnes(es), ExistingOnes(es)) == ClassifyAll(es)
  {
    if es != [] {
      var front, last := es[..|es| - 1], es[|es| - 1];
      SplitIsStablePartition(front);
      if IsNew(last) {
        assert NewOnes(es) == NewOnes(front) + [Classify(last)];
        assert NewOnes(es)[..|NewOnes(es)| - 1] == NewOnes(front);
        assert ExistingOnes(es) == ExistingOnes(front);
      } else {
        assert ExistingOnes(es) == ExistingOnes(front) + [Classify(last)];
        assert ExistingOnes(es)[..|ExistingOnes(es)| - 1] == ExistingOnes(front);
        assert NewOnes(es) == NewOnes(front);
      }
    }
  }

  /** Membership in `NewOnes` of a non-empty list, split at its last entry */
  lemma NewOnesLast(es: seq<Entry>)
    requires es != []
    ensures forall c :: c in NewOnes(es) <==>
              c in NewOnes(es[..|es| - 1]) || (IsNew(es[|es| - 1]) && c == Classify(es[|es| - 1]))
  {
  }

  /** `new_cves` holds exactly the classified entries flagged new. */
  lemma {:induction false} NewOnesMembership(es: seq<Entry>, c: Classified)
    ensures c in NewOnes(es) <==> exists i :: 0 <= i < |es| && IsNew(es[i]) && Classify(es[i]) == c
  {
    if es != [] {
      var front, last := es[..|es| - 1], es[|es| - 1];
      NewOnesMembership(front, c);
      NewOnesLast(es);
      if c in NewOnes(es) {
        if c in NewOnes(front) {
          var i :| 0 <= i < |front| && IsNew(front[i]) && Classify(front[i]) == c;
          assert es[i] == front[i];
        } else {
          assert IsNew(last) && Classify(last) == c;
          assert es[|es| - 1] == last;
        }
      }
      if exists i :: 0 <= i < |es| && IsNew(es[i]) && Classify(es[i]) == c {
        var i :| 0 <= i < |es| && IsNew(es[i]) && Classify(es[i]) == c;
        if i < |front| {
          assert front[i] == es[i];
          assert c in NewOnes(front);
        } else {
          assert es[i] == last;
        }
      }
    }
  }


  /** Membership in `ExistingOnes` of a non-empty list, split at its last entry */
  lemma ExistingOnesLast(es: seq<Entry>)
    requires es != []
    ensures forall c :: c in ExistingOnes(es) <==>
              c in ExistingOnes(es[..|es| - 1]) || (!IsNew(es[|es| - 1]) && c == Classify(es[|es| - 1]))
  {
  }

  /** `existing_cves` holds exactly the classified entries not flagged new. */
  lemma {:induction false} ExistingOnesMembership(es: seq<Entry>, c: Classified)
    ensures c in ExistingOnes(es) <==> exists i :: 0 <= i < |es| && !IsNew(es[i]) && Classify(es[i]) == c
  {
    if es != [] {
      var front, last := es[..|es| - 1], es[|es| - 1];
      ExistingOnesMembership(front, c);
      ExistingOnesLast(es);
      if c in ExistingOnes(es) {
        if c in ExistingOnes(front) {
          var i :| 0 <= i < |front| && !IsNew(front[i]) && Classify(front[i]) == c;
          assert es[i] == front[i];
        } else {
          assert !IsNew(last) && Classify(last) == c;
          assert es[|es| - 1] == last;
        }
      }
      if exists i :: 0 <= i < |es| && !IsNew(es[i]) && Classify(es[i]) == c {
        var i :| 0 <= i < |es| && !IsNew(es[i]) && Classify(es[i]) == c;
        if i < |front| {
          assert front[i] == es[i];
          assert c in ExistingOnes(front);
        } else {
          assert es[i] == last;
        }
      }
    }
  }


  /** results.json as check_cves.py writes it: every key present, no "is_new" */
  function ToEntry(r: NvdRecords.Record): Entry {
    Entry(r.sdk, Some(r.id), Some(r.severity), Some(r.cvss), Some(r.cwe), Some(r.published), Some(r.description), None)
  }

  function ToEntries(rs: seq<NvdRecords.Record>): (es: seq<Entry>)
    ensures |es| == |rs| && forall i :: 0 <= i < |rs| ==> es[i] == ToEntry(rs[i])
  {
    seq(|rs|, i requires 0 <= i < |rs| => ToEntry(rs[i]))
  }

  /** Nothing the scanner writes is new: every entry lands among the existing. */
  lemma {:induction false} ScannedResultsAreExisting(rs: seq<NvdRecords.Record>)
    ensures NewOnes(ToEntries(rs)) == []
    ensures ExistingOnes(ToEntries(rs)) == ClassifyAll(ToEntries(rs))
  {
    if rs != [] {
      ScannedResultsAreExisting(rs[..|rs| - 1]);
      assert ToEntries(rs)[..|rs| - 1] == ToEntries(rs[..|rs| - 1]);
    }
  }

  // ----- add_table -----

  datatype Flowable =
    | Heading(text: string)
    | Spacer(height: nat)
    | Note(text: string)
    | Table(data: seq<Row>, redRows: seq<nat>)

  const EMPTY_NOTE := "No new CVEs detected."

  /** Line 76: the header row, then each entry's row */
  function TableData(entries: seq<Classified>): (data: seq<Row>)
    ensures |data| == 1 + |entries| && data[0] == HEADER
    ensures forall i :: 0 <= i < |entries| ==> data[i + 1] == entries[i].row
  {
    [HEADER] + seq(|entries|, i requires 0 <= i < |entries| => entries[i].row)
  }

  /** Table row numbers of the highlighted entries: entry i sits in row i + 1,
      under the header. */
  function HighlightedRows(entries: seq<Classified>): seq<nat> {
    if entries == [] then []
    else HighlightedRows(entries[..|entries| - 1]) + if entries[|entries| - 1].highlight then [|entries|] else []
  }

  lemma {:induction false} HighlightedRowsExact(entries: seq<Classified>)
    ensures forall k :: k in HighlightedRows(entries) <==> 1 <= k <= |entries| && entries[k - 1].highlight
    ensures forall a, b :: 0 <= a < b < |HighlightedRows(entries)| ==> HighlightedRows(entries)[a] < HighlightedRows(entries)[b]
  {
    if entries != [] {
      var front := entries[..|entries| - 1];
      HighlightedRowsExact(front);
      assert forall j :: 0 <= j < |front| ==> front[j] == entries[j];
      var rows := HighlightedRows(front);
      forall a | 0 <= a < |rows|
        ensures rows[a] <= |front|
      {
        assert rows[a] in rows;
      }
    }
  }

  /** Lines 93-96: the red-text rows, collected over `enumerate(entries, start=1)` */
  method RedRows(entries: seq<Classified>) returns (rows: seq<nat>)
    ensures rows == HighlightedRows(entries)
  {
    rows := [];
    for idx := 1 to |entries| + 1
      invariant rows == HighlightedRows(entries[..idx - 1])
    {
      assert entries[..idx][..idx - 1] == entries[..idx - 1];
      if entries[idx - 1].highlight {
        rows := rows + [idx];
      }
    }
    assert entries[..|entries|] == entries;
  }

  /** What `add_table(title, entries, show_empty_note)` appends to the story */
  function TableFlowables(title: string, entries: seq<Classified>, showEmptyNote: bool): seq<Flowable> {
    var heading := [Heading("<b>" + title + "</b>"), Spacer(8)];
    if entries == [] && showEmptyNote then heading + [Note(EMPTY_NOTE), Spacer(20)]
    else heading + [Table(TableData(entries), HighlightedRows(entries)), Spacer(20)]
  }

  /** A note and no table exactly for an empty list with the flag; otherwise a
      table of 1 + n rows, red exactly where an entry is highlighted, never
      the header. */
  lemma TableFlowablesShape(title: string, entries: seq<Classified>, showEmptyNote: bool)
    ensures var out := TableFlowables(title, entries, showEmptyNote);
            && |out| == 4
            && out[0] == Heading("<b>" + title + "</b>") && out[1] == Spacer(8) && out[3] == Spacer(20)
            && (out[2].Note? <==> entries == [] && showEmptyNote)
            && (out[2].Note? ==> out[2].text == EMPTY_NOTE)
            && (out[2].Table? <==> !(entries == [] && showEmptyNote))
            && (out[2].Table? ==>
                  && |out[2].data| == 1 + |entries|
                  && out[2].data[0] == HEADER
                  && (forall i :: 0 <= i < |entries| ==> out[2].data[i + 1] == entries[i].row)
                  && 0 !in out[2].redRows
                  && forall k :: k in out[2].redRows <==> 1 <= k <= |entries| && entries[k - 1].highlight)
  {
    HighlightedRowsExact(entries);
  }

  /** The document being built (`story`) */
  class Story {
    var items: seq<Flowable>

    constructor ()
      ensures items == []
    {
      items := [];
    }

    /** `add_table` */
    method AddTable(title: string, entries: seq<Classified>, showEmptyNote: bool)
      modifies this
      ensures items == old(items) + TableFlowables(title, entries, showEmptyNote)
    {
      items := items + [Heading("<b>" + title + "</b>"), Spacer(8)];
      if entries == [] && showEmptyNote {
        items := items + [Note(EMPTY_NOTE), Spacer(20)];
        return;
      }
      var data := TableData(entries);
      var rows := RedRows(entries);
      items := items + [Table(data, rows), Spacer(20)];
    }
  }

  /** The two section titles, character for character as the script holds them */
  const NEW_TITLE := "\U{00F0}\U{0178}\U{0161}\U{00A8} New CVEs"
  const EXISTING_TITLE := "\U{00F0}\U{0178}\U{201C}\U{2039} Existing CVEs"

  function ReportStory(results: seq<Entry>): seq<Flowable> {
    TableFlowables(NEW_TITLE, NewOnes(results), true) + TableFlowables(EXISTING_TITLE, ExistingOnes(results), false)
  }

  /** Lines 50-58 and 113-114: split, then the new table with its note, then
      the existing table. */
  method BuildStory(results: seq<Entry>) returns (story: seq<Flowable>)
    ensures story == ReportStory(results)
  {
    var newCves, existingCves := SplitEntries(results);
    var doc := new Story();
    doc.AddTable(NEW_TITLE, newCves, true);
    doc.AddTable(EXISTING_TITLE, existingCves, false);
    story := doc.items;
  }

  /** For what the scanner writes, the report is the "No new CVEs detected."
      note followed by one table holding every result in order. */
  lemma ReportOfScannedResults(rs: seq<NvdRecords.Record>)
    ensures var story := ReportStory(ToEntries(rs));
            && |story| == 8
            && story[2] == Note(EMPTY_NOTE)
            && story[6] == Table(TableData(ClassifyAll(ToEntries(rs))), HighlightedRows(ClassifyAll(ToEntries(rs))))
  {
    ScannedResultsAreExisting(rs);
  }
}
