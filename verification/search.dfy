/** `search_nvd` and the main keyword loop (check_cves.py lines 60-134).
    The HTTP request and its JSON decoding are an oracle `fetch(keyword,
    offset)` that answers with one page or fails; a failure, like any
    exception raised while a page is processed, ends the keyword's scan with
    the records collected so far. */
module Search {
  import opened Wrappers
  import opened Text
  import opened Applicability
  import opened TextFilters
  import opened NvdRecords

  /** "resultsPerPage", and the step of "startIndex" */
  const PAGE_SIZE: nat := 200

  /** One decoded response; an absent "vulnerabilities" key is the empty list
      and an absent "totalResults" is 0. */
  datatype Page = Page(vulnerabilities: seq<Cve>, totalResults: int)

  /** The source: the response to a request for `keyword` at `offset` */
  type Fetch = (string, nat) -> Result<Page, Error>

  /** Every total the source reports is at most `maxTotal`. Only the
      termination argument uses it; the code itself trusts the total. */
  ghost predicate Bounded(fetch: Fetch, maxTotal: nat) {
    forall keyword, offset :: fetch(keyword, offset).Success? ==> fetch(keyword, offset).value.totalResults <= maxTotal
  }

  /** What one keyword's scan knows: the search keyword, the sdk label of the
      current KEYWORDS entry, and the target version. */
  datatype Context = Context(keyword: string, sdk: string, target: Option<string>)

  /** The outcome of one pass of the inner loop body */
  datatype Step = Skip | Take(record: Record) | Abort(error: Error)

  /** Lines 76-114 for one CVE: applicability, the title and description
      lookups, the two text heuristics, then the result record. */
  function Examine(cve: Cve, ctx: Context): Step {
    if !IsVersionVulnerable(cve.configurations, ctx.target) then Skip
    else
      match TitleOf(cve)
      case Failure(e) => Abort(e)
      case Success(title) =>
        match DescriptionOf(cve)
        case Failure(e) => Abort(e)
        case Success(description) =>
          if WpaFilterApplies(ctx.keyword, ctx.sdk) && WpaDrops(description) then Skip
          else if GenericDrops(ctx.target, title, description) then Skip
          else
            match Normalize(cve, title, description)
            case Failure(e) => Abort(e)
            case Success(r) => Take(r)
  }

  /** An inapplicable CVE is passed over; a kept CVE yields its normalized
      record, with the CVE's id, source "NVD" and no label yet. */
  lemma ExamineYieldsNormalized(cve: Cve, ctx: Context)
    ensures !IsVersionVulnerable(cve.configurations, ctx.target) ==> Examine(cve, ctx) == Skip
    ensures Examine(cve, ctx).Take? ==>
              && TitleOf(cve).Success? && DescriptionOf(cve).Success?
              && Normalize(cve, TitleOf(cve).value, DescriptionOf(cve).value) == Success(Examine(cve, ctx).record)
              && Examine(cve, ctx).record.id == cve.id
              && Examine(cve, ctx).record.source == "NVD"
              && Examine(cve, ctx).record.sdk.None?
  {
  }

  /** A CVE is kept exactly when it is applicable, its lookups succeed and
      neither heuristic drops it; the generic heuristic is stated in its
      simplified form. */
  lemma ExamineTakesIff(cve: Cve, ctx: Context)
    ensures Examine(cve, ctx).Take? <==>
              && IsVersionVulnerable(cve.configurations, ctx.target)
              && TitleOf(cve).Success? && DescriptionOf(cve).Success?
              && !(WpaFilterApplies(ctx.keyword, ctx.sdk) && WpaDrops(DescriptionOf(cve).value))
              && !(&& Truthy(ctx.target)
                   && !IsSubstring(ctx.target.value, DescriptionOf(cve).value)
                   && !IsSubstring(ctx.target.value, TitleOf(cve).value)
                   && HasDigitDotDigit(DescriptionOf(cve).value))
              && Normalize(cve, TitleOf(cve).value, DescriptionOf(cve).value).Success?
  {
    if TitleOf(cve).Success? && DescriptionOf(cve).Success? {
      GenericDropsIff(ctx.target, TitleOf(cve).value, DescriptionOf(cve).value);
    }
  }

  /** A CVE ends the scan exactly when it is applicable and a lookup fails,
      or when it survives both heuristics and its normalization fails; a CVE
      a heuristic drops is skipped even when its metrics are malformed. */
  lemma ExamineAbortsIff(cve: Cve, ctx: Context)
    ensures Examine(cve, ctx).Abort? <==>
              && IsVersionVulnerable(cve.configurations, ctx.target)
              && (|| TitleOf(cve).Failure?
                  || DescriptionOf(cve).Failure?
                  || (&& !(WpaFilterApplies(ctx.keyword, ctx.sdk) && WpaDrops(DescriptionOf(cve).value))
                      && !(&& Truthy(ctx.target)
                           && !IsSubstring(ctx.target.value, DescriptionOf(cve).value)
                           && !IsSubstring(ctx.target.value, TitleOf(cve).value)
                           && HasDigitDotDigit(DescriptionOf(cve).value))
                      && Normalize(cve, TitleOf(cve).value, DescriptionOf(cve).value).Failure?))
  {
    if TitleOf(cve).Success? && DescriptionOf(cve).Success? {
      GenericDropsIff(ctx.target, TitleOf(cve).value, DescriptionOf(cve).value);
    }
  }

  /** Records appended while one page is processed, and whether an exception
      ended the scan part-way. */
  datatype Batch = Batch(records: seq<Record>, aborted: bool)

  /** The inner `for vuln in vulns` loop, one CVE after the other */
  function ProcessPage(cves: seq<Cve>, ctx: Context): Batch {
    if cves == [] then Batch([], false)
    else
      var before := ProcessPage(cves[..|cves| - 1], ctx);
      if before.aborted then before
      else
        match Examine(cves[|cves| - 1], ctx)
        case Skip => before
        case Take(r) => Batch(before.records + [r], false)
        case Abort(_) => Batch(before.records, true)
  }

  /** The records the CVEs would yield with no exception, in order */
  function Taken(cves: seq<Cve>, ctx: Context): seq<Record> {
    if cves == [] then []
    else
      var last := Examine(cves[|cves| - 1], ctx);
      Taken(cves[..|cves| - 1], ctx) + if last.Take? then [last.record] else []
  }

  /** Once an exception has ended the page, later CVEs change nothing. */
  lemma {:induction false} AbortIsFinal(cves: seq<Cve>, ctx: Context, k: nat)
    requires k <= |cves|
    requires ProcessPage(cves[..k], ctx).aborted
    ensures ProcessPage(cves, ctx) == ProcessPage(cves[..k], ctx)
    decreases |cves| - k
  {
    if k < |cves| {
      assert cves[..|cves| - 1][..k] == cves[..k];
      AbortIsFinal(cves[..|cves| - 1], ctx, k);
    } else {
      assert cves[..k] == cves;
    }
  }

  /** A page is cut short exactly when some CVE raises; otherwise it yields
      every kept record in arrival order. */
  lemma {:induction false} ProcessPageIsTakenUntilAbort(cves: seq<Cve>, ctx: Context)
    ensures ProcessPage(cves, ctx).aborted <==> exists i :: 0 <= i < |cves| && Examine(cves[i], ctx).Abort?
    ensures !ProcessPage(cves, ctx).aborted ==> ProcessPage(cves, ctx).records == Taken(cves, ctx)
  {
    if cves != [] {
      var front := cves[..|cves| - 1];
      ProcessPageIsTakenUntilAbort(front, ctx);
      assert forall i :: 0 <= i < |front| ==> front[i] == cves[i];
    }
  }

  /** The first CVE that raises ends the page; the records before it are kept. */
  lemma KeepsRecordsBeforeFirstAbort(cves: seq<Cve>, ctx: Context, k: nat)
    requires k < |cves| && Examine(cves[k], ctx).Abort?
    requires forall i :: 0 <= i < k ==> !Examine(cves[i], ctx).Abort?
    ensures ProcessPage(cves, ctx) == Batch(Taken(cves[..k], ctx), true)
  {
    var front := cves[..k];
    ProcessPageIsTakenUntilAbort(front, ctx);
    assert cves[..k + 1][..k] == front;
    AbortIsFinal(cves, ctx, k + 1);
  }

  /** The records of a scan, and the offsets it requested, in order */
  datatype ScanResult = ScanResult(records: seq<Record>, offsets: seq<nat>)

  /** The `while True` loop from offset `index` on */
  function Scan(fetch: Fetch, ctx: Context, maxTotal: nat, index: nat): ScanResult
    requires Bounded(fetch, maxTotal) && index <= maxTotal
    decreases maxTotal - index
  {
    match fetch(ctx.keyword, index)
    case Failure(_) => ScanResult([], [index])
    case Success(page) =>
      var batch := ProcessPage(page.vulnerabilities, ctx);
      if batch.aborted || index + PAGE_SIZE >= page.totalResults then ScanResult(batch.records, [index])
      else
        var rest := Scan(fetch, ctx, maxTotal, index + PAGE_SIZE);
        ScanResult(batch.records + rest.records, [index] + rest.offsets)
  }

  /** The scan goes on past `offset`: the page arrived, nothing raised while it
      was processed, and the advanced offset is below the reported total. */
  predicate Continues(fetch: Fetch, ctx: Context, offset: nat) {
    && fetch(ctx.keyword, offset).Success?
    && !ProcessPage(fetch(ctx.keyword, offset).value.vulnerabilities, ctx).aborted
    && offset + PAGE_SIZE < fetch(ctx.keyword, offset).value.totalResults
  }

  /** The requests of a run from `index`: index, index + 200, index + 400, ...,
      at least one, the scan going on after every offset but the last and
      stopping after the last. */
  predicate IsRunFrom(fetch: Fetch, ctx: Context, index: nat, offsets: seq<nat>) {
    && |offsets| >= 1
    && (forall j :: 0 <= j < |offsets| ==> offsets[j] == index + PAGE_SIZE * j)
    && (forall j :: 0 <= j < |offsets| - 1 ==> Continues(fetch, ctx, offsets[j]))
    && !Continues(fetch, ctx, offsets[|offsets| - 1])
  }

  /** A run from the next offset, preceded by an offset that continues, is a run. */
  lemma RunCons(fetch: Fetch, ctx: Context, index: nat, rest: seq<nat>)
    requires Continues(fetch, ctx, index) && IsRunFrom(fetch, ctx, index + PAGE_SIZE, rest)
    ensures IsRunFrom(fetch, ctx, index, [index] + rest)
  {
    var offs := [index] + rest;
    forall j | 0 < j < |offs| ensures offs[j] == index + PAGE_SIZE * j && offs[j] == rest[j - 1] {
    }
  }

  /** A run whose first offset continues goes on with a run from the next offset. */
  lemma RunTail(fetch: Fetch, ctx: Context, index: nat, offsets: seq<nat>)
    requires IsRunFrom(fetch, ctx, index, offsets) && Continues(fetch, ctx, index)
    ensures |offsets| >= 2 && offsets == [index] + offsets[1..]
    ensures IsRunFrom(fetch, ctx, index + PAGE_SIZE, offsets[1..])
  {
    assert offsets[0] == index;
    var rest := offsets[1..];
    forall j | 0 <= j < |rest| ensures rest[j] == offsets[j + 1] {
    }
  }

  /** The scan requests exactly such a run. */
  lemma {:induction false} ScanOffsets(fetch: Fetch, ctx: Context, maxTotal: nat, index: nat)
    requires Bounded(fetch, maxTotal) && index <= maxTotal
    ensures IsRunFrom(fetch, ctx, index, Scan(fetch, ctx, maxTotal, index).offsets)
    decreases maxTotal - index
  {
    if Continues(fetch, ctx, index) {
      ScanStep(fetch, ctx, maxTotal, index);
      ScanOffsets(fetch, ctx, maxTotal, index + PAGE_SIZE);
      RunCons(fetch, ctx, index, Scan(fetch, ctx, maxTotal, index + PAGE_SIZE).offsets);
    } else {
      ScanStop(fetch, ctx, maxTotal, index);
    }
  }

  /** Only one run exists: any run from `index` is the one the scan requests. */
  lemma {:induction false} RunIsUnique(fetch: Fetch, ctx: Context, maxTotal: nat, index: nat, offsets: seq<nat>)
    requires Bounded(fetch, maxTotal) && index <= maxTotal
    requires IsRunFrom(fetch, ctx, index, offsets)
    ensures offsets == Scan(fetch, ctx, maxTotal, index).offsets
    decreases maxTotal - index
  {
    if Continues(fetch, ctx, index) {
      ScanStep(fetch, ctx, maxTotal, index);
      RunTail(fetch, ctx, index, offsets);
      RunIsUnique(fetch, ctx, maxTotal, index + PAGE_SIZE, offsets[1..]);
    } else {
      ScanStop(fetch, ctx, maxTotal, index);
      assert offsets[0] == index && !Continues(fetch, ctx, offsets[0]);
    }
  }

  /** The records of a page the scan requested, none if the request failed */
  function PageRecords(fetch: Fetch, ctx: Context, offset: nat): seq<Record> {
    match fetch(ctx.keyword, offset)
    case Failure(_) => []
    case Success(page) => ProcessPage(page.vulnerabilities, ctx).records
  }

  function RecordsOfPages(fetch: Fetch, ctx: Context, offsets: seq<nat>): seq<Record> {
    if offsets == [] then [] else RecordsOfPages(fetch, ctx, offsets[..|offsets| - 1]) + PageRecords(fetch, ctx, offsets[|offsets| - 1])
  }

  lemma {:induction false} RecordsOfPagesCons(fetch: Fetch, ctx: Context, offset: nat, offsets: seq<nat>)
    ensures RecordsOfPages(fetch, ctx, [offset] + offsets) == PageRecords(fetch, ctx, offset) + RecordsOfPages(fetch, ctx, offsets)
  {
    if offsets != [] {
      var front := offsets[..|offsets| - 1];
      RecordsOfPagesCons(fetch, ctx, offset, front);
      var all := [offset] + offsets;
      assert all[..|all| - 1] == [offset] + front && all[|all| - 1] == offsets[|offsets| - 1];
      AppendAssociates(PageRecords(fetch, ctx, offset), RecordsOfPages(fetch, ctx, front), PageRecords(fetch, ctx, offsets[|offsets| - 1]));
    }
  }

  /** The scan returns the records of the requested pages, page after page;
      on an error, what was collected before it. */
  lemma {:induction false} ScanRecordsArePageRecords(fetch: Fetch, ctx: Context, maxTotal: nat, index: nat)
    requires Bounded(fetch, maxTotal) && index <= maxTotal
    ensures Scan(fetch, ctx, maxTotal, index).records == RecordsOfPages(fetch, ctx, Scan(fetch, ctx, maxTotal, index).offsets)
    decreases maxTotal - index
  {
    if Continues(fetch, ctx, index) {
      ScanStep(fetch, ctx, maxTotal, index);
      ScanRecordsArePageRecords(fetch, ctx, maxTotal, index + PAGE_SIZE);
      RecordsOfPagesCons(fetch, ctx, index, Scan(fetch, ctx, maxTotal, index + PAGE_SIZE).offsets);
    } else {
      ScanStop(fetch, ctx, maxTotal, index);
      assert RecordsOfPages(fetch, ctx, [index]) == RecordsOfPages(fetch, ctx, []) + PageRecords(fetch, ctx, index);
    }
  }

  /** totalResults 250 with pages of 200: exactly the offsets 0 and 200. */
  lemma TwoRequestsFor250(fetch: Fetch, ctx: Context, maxTotal: nat)
    requires Bounded(fetch, maxTotal)
    requires fetch(ctx.keyword, 0).Success? && fetch(ctx.keyword, 0).value.totalResults == 250
    requires !ProcessPage(fetch(ctx.keyword, 0).value.vulnerabilities, ctx).aborted
    requires fetch(ctx.keyword, 200).Success? ==> fetch(ctx.keyword, 200).value.totalResults == 250
    ensures Scan(fetch, ctx, maxTotal, 0).offsets == [0, 200]
  {
    assert Continues(fetch, ctx, 0);
    assert !Continues(fetch, ctx, 200);
    assert IsRunFrom(fetch, ctx, 0, [0, 200]);
    RunIsUnique(fetch, ctx, maxTotal, 0, [0, 200]);
  }

  /** The inner `for vuln in vulns` loop of `search_nvd`: the records it
      appends, and whether an exception ended it. */
  method ProcessCves(cves: seq<Cve>, ctx: Context) returns (records: seq<Record>, aborted: bool)
    ensures Batch(records, aborted) == ProcessPage(cves, ctx)
  {
    records := [];
    var i := 0;
    while i < |cves|
      invariant 0 <= i <= |cves|
      invariant Batch(records, false) == ProcessPage(cves[..i], ctx)
    {
      assert cves[..i + 1][..i] == cves[..i];
      var step := Examine(cves[i], ctx);
      if step.Abort? {
        AbortIsFinal(cves, ctx, i + 1);
        return records, true;
      }
      if step.Take? {
        records := records + [step.record];
      }
      i := i + 1;
    }
    assert cves[..i] == cves;
    aborted := false;
  }

  /** `search_nvd(keyword, target_version)`, with the module-global `sdk` of the
      main loop passed as a parameter. `offsets` records the requests made:
      they form the run from offset 0, and the records are those of the
      requested pages, which are the records of the scan specification. */
  method SearchNvd(fetch: Fetch, keyword: string, sdk: string, target: Option<string>, ghost maxTotal: nat)
    returns (records: seq<Record>, ghost offsets: seq<nat>)
    requires Bounded(fetch, maxTotal)
    ensures IsRunFrom(fetch, Context(keyword, sdk, target), 0, offsets)
    ensures records == RecordsOfPages(fetch, Context(keyword, sdk, target), offsets)
    ensures records == Scan(fetch, Context(keyword, sdk, target), maxTotal, 0).records
  {
    var ctx := Context(keyword, sdk, target);
    var index: nat := 0;
    records, offsets := [], [];
    while true
      invariant index == PAGE_SIZE * |offsets| && index <= maxTotal
      invariant forall j :: 0 <= j < |offsets| ==> offsets[j] == PAGE_SIZE * j
      invariant forall j :: 0 <= j < |offsets| ==> Continues(fetch, ctx, offsets[j])
      invariant records == RecordsOfPages(fetch, ctx, offsets)
      decreases maxTotal - index
    {
      var response := fetch(keyword, index);
      var batch: seq<Record> := [];
      var aborted := false;
      if response.Success? {
        batch, aborted := ProcessCves(response.value.vulnerabilities, ctx);
      }
      assert batch == PageRecords(fetch, ctx, index);
      assert RecordsOfPages(fetch, ctx, offsets + [index]) == records + batch by {
        assert (offsets + [index])[..|offsets|] == offsets;
      }
      records, offsets := records + batch, offsets + [index];
      if response.Failure? || aborted || index + PAGE_SIZE >= response.value.totalResults {
        assert !Continues(fetch, ctx, index);
        SearchNvdIsScan(fetch, ctx, maxTotal, offsets);
        return;
      }
      index := index + PAGE_SIZE;
    }
  }

  /** A finished `search_nvd` has made exactly the scan's requests and
      returns exactly the scan's records. */
  lemma SearchNvdIsScan(fetch: Fetch, ctx: Context, maxTotal: nat, offsets: seq<nat>)
    requires Bounded(fetch, maxTotal)
    requires IsRunFrom(fetch, ctx, 0, offsets)
    ensures offsets == Scan(fetch, ctx, maxTotal, 0).offsets
    ensures RecordsOfPages(fetch, ctx, offsets) == Scan(fetch, ctx, maxTotal, 0).records
  {
    RunIsUnique(fetch, ctx, maxTotal, 0, offsets);
    ScanRecordsArePageRecords(fetch, ctx, maxTotal, 0);
  }

  lemma ScanStop(fetch: Fetch, ctx: Context, maxTotal: nat, index: nat)
    requires Bounded(fetch, maxTotal) && index <= maxTotal
    requires !Continues(fetch, ctx, index)
    ensures Scan(fetch, ctx, maxTotal, index) == ScanResult(PageRecords(fetch, ctx, index), [index])
  {
  }

  lemma ScanStep(fetch: Fetch, ctx: Context, maxTotal: nat, index: nat)
    requires Bounded(fetch, maxTotal) && index <= maxTotal
    requires Continues(fetch, ctx, index)
    ensures index + PAGE_SIZE <= maxTotal
    ensures Scan(fetch, ctx, maxTotal, index).records ==
              PageRecords(fetch, ctx, index) + Scan(fetch, ctx, maxTotal, index + PAGE_SIZE).records
    ensures Scan(fetch, ctx, maxTotal, index).offsets == [index] + Scan(fetch, ctx, maxTotal, index + PAGE_SIZE).offsets
  {
  }

  // ----- the main loop -----

  /** One entry of KEYWORDS: the report label, the search keyword and the
      optional target version */
  datatype KeywordItem = KeywordItem(sdk: string, search: string, version: Option<string>)

  /** check_cves.py lines 9-23 */
  const KEYWORDS: seq<KeywordItem> := [
    KeywordItem("RTL8720CM", "RTL8720CM", None),
    KeywordItem("Ameba SDK", "Ameba", None),
    KeywordItem("FreeRTOS v10.2.0", "FreeRTOS", Some("10.2.0")),
    KeywordItem("Bluetooth Core Specification 4.2", "Bluetooth Core Specification 4.2", None),
    KeywordItem("cJSON v1.6.0", "cJSON", Some("1.6.0")),
    KeywordItem("IwIP 2.0.2", "lwIP", Some("2.0.2")),
    KeywordItem("mbed TLS 2.16.4", "mbedtls", Some("2.16.4")),
    KeywordItem("Newlib 2.5.0", "Newlib", Some("2.5.0")),
    KeywordItem("wpa_supplicant 2.2", "wpa_supplicant", Some("2.2")),
    KeywordItem("IEEE 802.1X, WPA, WPA2, RSN, IEEE 802.11i", "IEEE 802.1X", None),
    KeywordItem("RealtekSDK(7.1d+v06 full patch)", "RealtekSDK 7.1d v06", None),
    KeywordItem("MINIX3", "MINIX3", Some("3.3.0")),
    KeywordItem("easy-ecc", "easy-ecc", None)
  ]

  function ContextOf(item: KeywordItem): Context {
    Context(item.search, item.sdk, item.version)
  }

  /** `result["sdk"] = sdk` on every record */
  function Tagged(records: seq<Record>, sdk: string): (tagged: seq<Record>)
    ensures |tagged| == |records|
    ensures forall i :: 0 <= i < |records| ==> tagged[i] == records[i].(sdk := Some(sdk))
  {
    seq(|records|, i requires 0 <= i < |records| => records[i].(sdk := Some(sdk)))
  }

  /** The global `results` after the main loop over `items`, where `found[i]`
      is what `search_nvd` returned for `items[i]` */
  function Gather(items: seq<KeywordItem>, found: seq<seq<Record>>): seq<Record>
    requires |found| == |items|
  {
    if items == [] then []
    else Gather(items[..|items| - 1], found[..|found| - 1]) + Tagged(found[|found| - 1], items[|items| - 1].sdk)
  }

  /** What `search_nvd` returns for each item */
  function Searches(items: seq<KeywordItem>, fetch: Fetch, maxTotal: nat): (found: seq<seq<Record>>)
    requires Bounded(fetch, maxTotal)
    ensures |found| == |items|
  {
    seq(|items|, i requires 0 <= i < |items| => Scan(fetch, ContextOf(items[i]), maxTotal, 0).records)
  }

  function ScanKeywords(items: seq<KeywordItem>, fetch: Fetch, maxTotal: nat): seq<Record>
    requires Bounded(fetch, maxTotal)
  {
    Gather(items, Searches(items, fetch, maxTotal))
  }

  /** Results of consecutive keyword lists follow each other, in list order. */
  lemma {:induction false} GatherAppend(a: seq<KeywordItem>, b: seq<KeywordItem>, fa: seq<seq<Record>>, fb: seq<seq<Record>>)
    requires |fa| == |a| && |fb| == |b|
    ensures Gather(a + b, fa + fb) == Gather(a, fa) + Gather(b, fb)
    decreases |b|
  {
    if b == [] {
      assert a + b == a && fa + fb == fa;
    } else {
      var front, frontFound := b[..|b| - 1], fb[..|fb| - 1];
      GatherAppend(a, front, fa, frontFound);
      var ab, fab := a + b, fa + fb;
      assert ab[..|ab| - 1] == a + front;
      assert fab[..|fab| - 1] == fa + frontFound;
      assert ab[|ab| - 1] == b[|b| - 1] && fab[|fab| - 1] == fb[|fb| - 1];
      assert Gather(ab, fab) == Gather(a + front, fa + frontFound) + Tagged(fb[|fb| - 1], b[|b| - 1].sdk);
      AppendAssociates(Gather(a, fa), Gather(front, frontFound), Tagged(fb[|fb| - 1], b[|b| - 1].sdk));
    }
  }

  lemma ScanKeywordsAppend(a: seq<KeywordItem>, b: seq<KeywordItem>, fetch: Fetch, maxTotal: nat)
    requires Bounded(fetch, maxTotal)
    ensures ScanKeywords(a + b, fetch, maxTotal) == ScanKeywords(a, fetch, maxTotal) + ScanKeywords(b, fetch, maxTotal)
  {
    var fa, fb := Searches(a, fetch, maxTotal), Searches(b, fetch, maxTotal);
    assert Searches(a + b, fetch, maxTotal) == fa + fb;
    GatherAppend(a, b, fa, fb);
  }

  /** Every result carries the label of the KEYWORDS entry it was found for. */
  lemma {:induction false} ResultsCarryTheirLabel(items: seq<KeywordItem>, found: seq<seq<Record>>)
    requires |found| == |items|
    ensures forall r :: r in Gather(items, found) ==> exists item :: item in items && r.sdk == Some(item.sdk)
  {
    if items != [] {
      var front, last := items[..|items| - 1], items[|items| - 1];
      ResultsCarryTheirLabel(front, found[..|found| - 1]);
      forall r | r in Gather(items, found)
        ensures exists item :: item in items && r.sdk == Some(item.sdk)
      {
        if r in Gather(front, found[..|found| - 1]) {
          var item :| item in front && r.sdk == Some(item.sdk);
          assert item in items;
        } else {
          var tagged := Tagged(found[|found| - 1], last.sdk);
          var i :| 0 <= i < |tagged| && tagged[i] == r;
          assert r.sdk == Some(last.sdk);
        }
      }
    }
  }

  /** Lines 132-134: label each record and append it to `results` */
  method AppendTagged(results: seq<Record>, found: seq<Record>, sdk: string) returns (extended: seq<Record>)
    ensures extended == results + Tagged(found, sdk)
  {
    extended := results;
    for k := 0 to |found|
      invariant extended == results + Tagged(found[..k], sdk)
    {
      assert Tagged(found[..k + 1], sdk) == Tagged(found[..k], sdk) + [found[k].(sdk := Some(sdk))];
      AppendAssociates(results, Tagged(found[..k], sdk), [found[k].(sdk := Some(sdk))]);
      extended := extended + [found[k].(sdk := Some(sdk))];
    }
    assert found[..|found|] == found;
  }

  /** The main loop (lines 124-134): scan each entry in order, tag its records
      with the entry's label and append them to `results`. */
  method ScanAll(items: seq<KeywordItem>, fetch: Fetch, ghost maxTotal: nat) returns (results: seq<Record>)
    requires Bounded(fetch, maxTotal)
    ensures results == ScanKeywords(items, fetch, maxTotal)
  {
    ghost var all := Searches(items, fetch, maxTotal);
    results := [];
    for n := 0 to |items|
      invariant results == Gather(items[..n], all[..n])
    {
      var item := items[n];
      var found;
      ghost var requested;
      found, requested := SearchNvd(fetch, item.search, item.sdk, item.version, maxTotal);
      SearchNvdIsScan(fetch, ContextOf(item), maxTotal, requested);
      assert found == all[n];
      assert items[..n + 1][..n] == items[..n] && all[..n + 1][..n] == all[..n];
      assert Gather(items[..n + 1], all[..n + 1]) == Gather(items[..n], all[..n]) + Tagged(found, item.sdk);
      results := AppendTagged(results, found, item.sdk);
    }
    assert items[..|items|] == items;
    assert all[..|all|] == all;
  }

  /** The script as run: the main loop over the configured entries. Every
      result carries the label of one of them. */
  method ScanConfigured(fetch: Fetch, ghost maxTotal: nat) returns (results: seq<Record>)
    requires Bounded(fetch, maxTotal)
    ensures results == ScanKeywords(KEYWORDS, fetch, maxTotal)
    ensures forall r :: r in results ==> exists item :: item in KEYWORDS && r.sdk == Some(item.sdk)
  {
    results := ScanAll(KEYWORDS, fetch, maxTotal);
    ResultsCarryTheirLabel(KEYWORDS, Searches(KEYWORDS, fetch, maxTotal));
  }

  /** The wpa_supplicant entry switches the wpa_supplicant heuristic on. */
  lemma WpaEntryEnablesFilter()
    ensures KEYWORDS[8].search == WPA_SUPPLICANT
    ensures WpaFilterApplies(KEYWORDS[8].search, KEYWORDS[8].sdk)
  {
    var item := KEYWORDS[8];
    LowerKeepsLowercase(item.search);
    assert OccursAt(WPA_SUPPLICANT, Lower(item.search), 0);
    assert OccursAt("2.2", item.sdk, 15);
  }
}
