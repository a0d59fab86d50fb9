/** The parts of an NVD CVE API 2.0 "cve" object that `search_nvd` reads, and
    the flat result record it builds from them (check_cves.py lines 76-114).
    A JSON key that may be absent is an Option, or a list that is empty when
    absent where the code defaults to `[]`. A lookup that raises (indexing an
    empty list) is a Failure, which ends the keyword's scan. */
module NvdRecords {
  import opened Wrappers
  import opened Text
  import Applicability

  datatype Title = Title(title: Option<string>)
  datatype Description = Description(value: Option<string>)

  /** The two fields read from "cvssData"; the score is kept as the text
      that `str()` gives it. */
  datatype CvssData = CvssData(baseSeverity: Option<string>, baseScore: Option<string>)
  datatype Metric = Metric(cvssData: Option<CvssData>)
  datatype Metrics = Metrics(
    cvssMetricV31: Option<seq<Metric>>,
    cvssMetricV30: Option<seq<Metric>>,
    cvssMetricV2: Option<seq<Metric>>)

  /** A weakness, by the "value" of each of its descriptions */
  datatype Weakness = Weakness(description: seq<string>)

  datatype Cve = Cve(
    id: string,
    titles: Option<seq<Title>>,
    descriptions: Option<seq<Description>>,
    references: seq<string>,
    metrics: Metrics,
    weaknesses: seq<Weakness>,
    published: Option<string>,
    configurations: Applicability.Configurations)

  /** Why a scan stopped early */
  datatype Error = FetchFailed | EmptyList(key: string)

  /** One result record; `sdk` is absent until the main loop tags it. */
  datatype Record = Record(
    source: string,
    id: string,
    title: string,
    description: string,
    severity: string,
    cvss: string,
    cwe: string,
    published: string,
    reference: string,
    sdk: Option<string>)

  const NVD_DETAIL_URL := "https://nvd.nist.gov/vuln/detail/"

  /** `cve.get("titles", [{}])[0].get("title", "")` */
  function TitleOf(cve: Cve): (r: Result<string, Error>)
    ensures r.Failure? <==> cve.titles == Some([])
    ensures cve.titles.None? ==> r == Success("")
    ensures cve.titles.Some? && cve.titles.value != [] ==> r == Success(cve.titles.value[0].title.GetOr(""))
  {
    match cve.titles
    case None => Success("")
    case Some(ts) => if ts == [] then Failure(EmptyList("titles")) else Success(ts[0].title.GetOr(""))
  }

  /** `cve.get("descriptions", [{}])[0].get("value", "N/A")` */
  function DescriptionOf(cve: Cve): (r: Result<string, Error>)
    ensures r.Failure? <==> cve.descriptions == Some([])
    ensures cve.descriptions.None? ==> r == Success("N/A")
    ensures cve.descriptions.Some? && cve.descriptions.value != [] ==>
              r == Success(cve.descriptions.value[0].value.GetOr("N/A"))
  {
    match cve.descriptions
    case None => Success("N/A")
    case Some(ds) => if ds == [] then Failure(EmptyList("descriptions")) else Success(ds[0].value.GetOr("N/A"))
  }

  /** `metrics.get(key, [{}])[0]`, as the "cvssData" it holds */
  function FirstCvssData(list: Option<seq<Metric>>, key: string): Result<Option<CvssData>, Error> {
    match list
    case None => Success(None)
    case Some(ms) => if ms == [] then Failure(EmptyList(key)) else Success(ms[0].cvssData)
  }

  /** Lines 96-100: the first cvssData among V3.1, V3.0 and V2, in that order;
      an empty object when none has one. A later list is only looked at when
      the earlier ones have no data. */
  function ChooseCvss(m: Metrics): Result<CvssData, Error> {
    match FirstCvssData(m.cvssMetricV31, "cvssMetricV31")
    case Failure(e) => Failure(e)
    case Success(Some(c)) => Success(c)
    case Success(None) =>
      match FirstCvssData(m.cvssMetricV30, "cvssMetricV30")
      case Failure(e) => Failure(e)
      case Success(Some(c)) => Success(c)
      case Success(None) =>
        match FirstCvssData(m.cvssMetricV2, "cvssMetricV2")
        case Failure(e) => Failure(e)
        case Success(c) => Success(c.GetOr(CvssData(None, None)))
  }

  /** Line 102: the first weakness's first description, "N/A" without weaknesses */
  function CweOf(weaknesses: seq<Weakness>): (r: Result<string, Error>)
    ensures r.Failure? <==> weaknesses != [] && weaknesses[0].description == []
    ensures weaknesses == [] ==> r == Success("N/A")
    ensures r.Success? && weaknesses != [] ==> r.value == weaknesses[0].description[0]
  {
    if weaknesses == [] then Success("N/A")
    else if weaknesses[0].description == [] then Failure(EmptyList("description"))
    else Success(weaknesses[0].description[0])
  }

  /** Line 113: the first reference, else the CVE's NVD detail page */
  function ReferenceOf(cve: Cve): (url: string)
    ensures cve.references == [] ==> url == NVD_DETAIL_URL + cve.id
    ensures cve.references != [] ==> url == cve.references[0]
  {
    if cve.references != [] then cve.references[0] else NVD_DETAIL_URL + cve.id
  }

  /** Lines 94-114: the result record for an applicable CVE whose title and
      description were already read. */
  function Normalize(cve: Cve, title: string, description: string): (r: Result<Record, Error>)
    ensures r.Success? ==> r.value.source == "NVD" && r.value.id == cve.id && r.value.sdk.None?
    ensures r.Success? ==> r.value.title == title && r.value.description == description
    ensures r.Success? ==> r.value.reference == ReferenceOf(cve)
    ensures r.Success? <==> ChooseCvss(cve.metrics).Success? && CweOf(cve.weaknesses).Success?
    ensures r.Success? ==>
              && r.value.severity == ChooseCvss(cve.metrics).value.baseSeverity.GetOr("UNKNOWN")
              && r.value.cvss == ChooseCvss(cve.metrics).value.baseScore.GetOr("N/A")
              && r.value.cwe == CweOf(cve.weaknesses).value
              && r.value.published == cve.published.GetOr("N/A")
  {
    match ChooseCvss(cve.metrics)
    case Failure(e) => Failure(e)
    case Success(cvss) =>
      match CweOf(cve.weaknesses)
      case Failure(e) => Failure(e)
      case Success(cwe) =>
        Success(Record(
          source := "NVD",
          id := cve.id,
          title := title,
          description := description,
          severity := cvss.baseSeverity.GetOr("UNKNOWN"),
          cvss := cvss.baseScore.GetOr("N/A"),
          cwe := cwe,
          published := cve.published.GetOr("N/A"),
          reference := ReferenceOf(cve),
          sdk := None))
  }

  /** A CVE with no metrics, weaknesses, references or publication date gets
      every default: "UNKNOWN" severity, "N/A" score, CWE and date, and the
      NVD detail page as reference. */
  lemma NormalizeDefaults(cve: Cve, title: string, description: string)
    requires cve.metrics == Metrics(None, None, None)
    requires cve.weaknesses == [] && cve.references == [] && cve.published.None?
    ensures Normalize(cve, title, description) == Success(Record(
              "NVD", cve.id, title, description, "UNKNOWN", "N/A", "N/A", "N/A",
              NVD_DETAIL_URL + cve.id, None))
  {
  }

  /** CVSS v3.1 data wins over whatever v3.0 and v2 hold. */
  lemma CvssV31First(m: Metrics, c: CvssData)
    requires m.cvssMetricV31.Some? && m.cvssMetricV31.value != []
    requires m.cvssMetricV31.value[0].cvssData == Some(c)
    ensures ChooseCvss(m) == Success(c)
  {
  }

  /** A metric list that is absent, or whose first entry has no "cvssData":
      `or` moves on to the next list. */
  predicate NoCvssData(list: Option<seq<Metric>>) {
    list.None? || (list.value != [] && list.value[0].cvssData.None?)
  }

  /** Without v3.1 data, v3.0 data wins over v2. */
  lemma CvssV30Second(m: Metrics, c: CvssData)
    requires NoCvssData(m.cvssMetricV31)
    requires m.cvssMetricV30.Some? && m.cvssMetricV30.value != []
    requires m.cvssMetricV30.value[0].cvssData == Some(c)
    ensures ChooseCvss(m) == Success(c)
  {
  }

  /** Without v3.x data, the first v2 entry's data, or an empty object; an
      empty object too when there is no v2 list at all. */
  lemma CvssV2Last(m: Metrics)
    requires NoCvssData(m.cvssMetricV31) && NoCvssData(m.cvssMetricV30)
    ensures m.cvssMetricV2.Some? && m.cvssMetricV2.value != [] ==>
              ChooseCvss(m) == Success(m.cvssMetricV2.value[0].cvssData.GetOr(CvssData(None, None)))
    ensures m.cvssMetricV2.None? ==> ChooseCvss(m) == Success(CvssData(None, None))
  {
  }

  /** The lookup raises exactly when it reaches a metric list that is present
      but empty: v3.1 always, v3.0 when v3.1 gave no data, v2 when neither
      v3 list did. */
  lemma EmptyMetricListFails(m: Metrics)
    ensures ChooseCvss(m).Failure? <==>
              || m.cvssMetricV31 == Some([])
              || (NoCvssData(m.cvssMetricV31) && m.cvssMetricV30 == Some([]))
              || (NoCvssData(m.cvssMetricV31) && NoCvssData(m.cvssMetricV30) && m.cvssMetricV2 == Some([]))
  {
  }

  /** A CVE with only v2 metrics, whose data carries a score but no
      "baseSeverity" (v2 keeps the severity outside "cvssData"), is recorded
      with the "UNKNOWN" severity and its v2 score. */
  lemma NormalizeV2Only(cve: Cve, title: string, description: string, score: string)
    requires cve.metrics == Metrics(None, None, Some([Metric(Some(CvssData(None, Some(score))))]))
    requires cve.weaknesses == []
    ensures Normalize(cve, title, description).Success?
    ensures Normalize(cve, title, description).value.severity == "UNKNOWN"
    ensures Normalize(cve, title, description).value.cvss == score
    ensures Normalize(cve, title, description).value.cwe == "N/A"
  {
  }
}
