/** `is_version_vulnerable` (check_cves.py): does a CVE's NVD configuration
    data admit the target version? The configuration tree (configurations,
    their nodes, each node's cpeMatch descriptors) is flattened into one OR:
    the first descriptor whose bounds admit the target decides. */
module Applicability {
  import opened Wrappers
  import opened Text
  import opened Versions

  /** One cpeMatch descriptor; an absent attribute is None. */
  datatype CpeMatch = CpeMatch(
    versionStartIncluding: Option<string>,
    versionStartExcluding: Option<string>,
    versionEndIncluding: Option<string>,
    versionEndExcluding: Option<string>)

  /** A node; an absent "cpeMatch" key is the empty list. */
  datatype Node = Node(cpeMatch: seq<CpeMatch>)

  /** A configuration; an absent "nodes" key is the empty list. */
  datatype Config = Config(nodes: seq<Node>)

  /** The record's "configurations" value: a list, or a single object that is
      wrapped into a one-element list. */
  datatype Configurations = ConfigList(configs: seq<Config>) | NotAList(config: Config)

  /** What `cve.get("configurations", {})` yields when the key is absent */
  const MISSING_CONFIGURATIONS := NotAList(Config([]))

  function AsList(c: Configurations): seq<Config> {
    match c
    case ConfigList(cs) => cs
    case NotAList(one) => [one]
  }

  /** How one descriptor treats the target: it admits it (the scan returns
      True), its bounds exclude it, or a bound failed to parse (the exception
      is swallowed); the last two both move on to the next descriptor. */
  datatype Verdict = Admits | OutOfRange | BadBound

  /** The end-bound half of the loop body (check_cves.py lines 49-55) */
  function CheckEnd(cpe: CpeMatch, t: Version): Verdict {
    var ve := OrElse(cpe.versionEndExcluding, cpe.versionEndIncluding);
    if Truthy(ve) then
      match ParseVersion(ve.value)
      case None => BadBound
      case Some(end) =>
        if Truthy(cpe.versionEndExcluding) && !Less(t, end) then OutOfRange
        else if !LessEq(t, end) then OutOfRange
        else Admits
    else Admits
  }

  /** The loop body for one descriptor (check_cves.py lines 40-57) */
  function CheckDescriptor(cpe: CpeMatch, t: Version): Verdict {
    var vs := OrElse(cpe.versionStartIncluding, cpe.versionStartExcluding);
    if Truthy(vs) then
      match ParseVersion(vs.value)
      case None => BadBound
      case Some(start) =>
        if Truthy(cpe.versionStartExcluding) && !Less(start, t) then OutOfRange
        else if !LessEq(start, t) then OutOfRange
        else CheckEnd(cpe, t)
    else CheckEnd(cpe, t)
  }

  /** The innermost loop: scan a node's descriptors for the first that admits. */
  function ScanDescriptors(cpes: seq<CpeMatch>, t: Version): (r: bool)
    ensures r <==> exists cpe :: cpe in cpes && CheckDescriptor(cpe, t) == Admits
  {
    if cpes == [] then false
    else if CheckDescriptor(cpes[0], t) == Admits then true
    else ScanDescriptors(cpes[1..], t)
  }

  function ScanNodes(nodes: seq<Node>, t: Version): (r: bool)
    ensures r <==> exists node, cpe :: node in nodes && cpe in node.cpeMatch && CheckDescriptor(cpe, t) == Admits
  {
    if nodes == [] then false
    else if ScanDescriptors(nodes[0].cpeMatch, t) then true
    else ScanNodes(nodes[1..], t)
  }

  function ScanConfigs(configs: seq<Config>, t: Version): (r: bool)
    ensures r <==> SomeDescriptorAdmits(configs, t)
  {
    if configs == [] then false
    else if ScanNodes(configs[0].nodes, t) then true
    else ScanConfigs(configs[1..], t)
  }

  /** Some descriptor of some node of some configuration admits `t` */
  predicate SomeDescriptorAdmits(configs: seq<Config>, t: Version) {
    exists config, node, cpe ::
      config in configs && node in config.nodes && cpe in node.cpeMatch && CheckDescriptor(cpe, t) == Admits
  }

  /** `is_version_vulnerable(cpe_config, target_version)` */
  function IsVersionVulnerable(configurations: Configurations, target: Option<string>): (r: bool)
    ensures !Truthy(target) ==> r
    ensures Truthy(target) && ParseVersion(target.value).None? ==> !r
    ensures Truthy(target) && ParseVersion(target.value).Some? ==>
              (r <==> SomeDescriptorAdmits(AsList(configurations), ParseVersion(target.value).value))
  {
    if !Truthy(target) then true
    else
      match ParseVersion(target.value)
      case None => false
      case Some(t) => ScanConfigs(AsList(configurations), t)
  }

  // ----- the version range a descriptor stands for -----

  datatype Bound = Bound(value: Version, inclusive: bool)

  /** A version interval; an absent bound does not constrain. */
  datatype VersionRange = VersionRange(start: Option<Bound>, end: Option<Bound>)

  predicate Contains(r: VersionRange, v: Version) {
    && (r.start.Some? ==>
          if r.start.value.inclusive then LessEq(r.start.value.value, v) else Less(r.start.value.value, v))
    && (r.end.Some? ==>
          if r.end.value.inclusive then LessEq(v, r.end.value.value) else Less(v, r.end.value.value))
  }

  /** The bound given by an inclusive and an exclusive attribute, the first
      one present winning; Some(None) when neither is present, None when the
      chosen one does not parse. */
  function BoundOf(first: Option<string>, firstInclusive: bool, second: Option<string>): Option<Option<Bound>> {
    if Truthy(first) then
      match ParseVersion(first.value)
      case None => None
      case Some(v) => Some(Some(Bound(v, firstInclusive)))
    else if Truthy(second) then
      match ParseVersion(second.value)
      case None => None
      case Some(v) => Some(Some(Bound(v, !firstInclusive)))
    else Some(None)
  }

  /** The range a descriptor denotes: start from versionStartIncluding, else
      versionStartExcluding; end from versionEndExcluding, else
      versionEndIncluding. None when a chosen bound does not parse. */
  function RangeOf(cpe: CpeMatch): Option<VersionRange> {
    match (BoundOf(cpe.versionStartIncluding, true, cpe.versionStartExcluding),
           BoundOf(cpe.versionEndExcluding, false, cpe.versionEndIncluding))
    case (Some(s), Some(e)) => Some(VersionRange(s, e))
    case _ => None
  }

  /** A descriptor admits the target exactly when its range parses and
      contains the target, unless it carries both start attributes. */
  lemma DescriptorAdmitsIffRangeContains(cpe: CpeMatch, t: Version)
    requires !(Truthy(cpe.versionStartIncluding) && Truthy(cpe.versionStartExcluding))
    ensures CheckDescriptor(cpe, t) == Admits <==> RangeOf(cpe).Some? && Contains(RangeOf(cpe).value, t)
  {
    var vs := OrElse(cpe.versionStartIncluding, cpe.versionStartExcluding);
    if Truthy(vs) && ParseVersion(vs.value).Some? {
      var start := ParseVersion(vs.value).value;
      LessIsNotGreaterOrEqual(start, t);
      LessIsNotGreaterOrEqual(t, start);
    }
    var ve := OrElse(cpe.versionEndExcluding, cpe.versionEndIncluding);
    if Truthy(ve) && ParseVersion(ve.value).Some? {
      var end := ParseVersion(ve.value).value;
      LessIsNotGreaterOrEqual(end, t);
      LessIsNotGreaterOrEqual(t, end);
    }
  }

  /** With both start attributes present, the versionStartIncluding value is
      used but the comparison is strict; the end bound is then checked as
      usual. */
  lemma BothStartAttributesCompareStrictly(cpe: CpeMatch, t: Version, start: Version)
    requires Truthy(cpe.versionStartIncluding) && Truthy(cpe.versionStartExcluding)
    requires ParseVersion(cpe.versionStartIncluding.value) == Some(start)
    ensures CheckDescriptor(cpe, t) == Admits <==> Less(start, t) && CheckEnd(cpe, t) == Admits
  {
    LessIsNotGreaterOrEqual(start, t);
    LessIsNotGreaterOrEqual(t, start);
  }

  /** A descriptor without bounds admits every version. */
  lemma UnboundedDescriptorAdmitsAll(cpe: CpeMatch, t: Version)
    requires !Truthy(cpe.versionStartIncluding) && !Truthy(cpe.versionStartExcluding)
    requires !Truthy(cpe.versionEndIncluding) && !Truthy(cpe.versionEndExcluding)
    ensures CheckDescriptor(cpe, t) == Admits
  {
  }

  /** A descriptor whose chosen start bound does not parse never admits. */
  lemma UnparseableStartNeverAdmits(cpe: CpeMatch, t: Version)
    requires Truthy(OrElse(cpe.versionStartIncluding, cpe.versionStartExcluding))
    requires ParseVersion(OrElse(cpe.versionStartIncluding, cpe.versionStartExcluding).value).None?
    ensures CheckDescriptor(cpe, t) == BadBound
  {
  }

  /** A descriptor whose chosen end bound does not parse never admits. */
  lemma UnparseableEndNeverAdmits(cpe: CpeMatch, t: Version)
    requires Truthy(OrElse(cpe.versionEndExcluding, cpe.versionEndIncluding))
    requires ParseVersion(OrElse(cpe.versionEndExcluding, cpe.versionEndIncluding).value).None?
    ensures CheckDescriptor(cpe, t) != Admits
  {
  }

  /** Only an inclusive lower bound: admitted exactly at or above it. */
  lemma LowerInclusiveOnly(cpe: CpeMatch, t: Version, start: Version)
    requires cpe == CpeMatch(cpe.versionStartIncluding, None, None, None)
    requires Truthy(cpe.versionStartIncluding) && ParseVersion(cpe.versionStartIncluding.value) == Some(start)
    ensures CheckDescriptor(cpe, t) == Admits <==> LessEq(start, t)
  {
  }

  /** Only an exclusive upper bound: admitted exactly below it. */
  lemma UpperExclusiveOnly(cpe: CpeMatch, t: Version, end: Version)
    requires cpe == CpeMatch(None, None, None, cpe.versionEndExcluding)
    requires Truthy(cpe.versionEndExcluding) && ParseVersion(cpe.versionEndExcluding.value) == Some(end)
    ensures CheckDescriptor(cpe, t) == Admits <==> Less(t, end)
  {
    LessIsNotGreaterOrEqual(t, end);
    LessIsNotGreaterOrEqual(end, t);
  }

  /** An empty configuration list, or the wrapped default `{}`, admits no
      parseable target. */
  lemma NoConfigurationsNoMatch(target: string)
    requires target != "" && ParseVersion(target).Some?
    ensures !IsVersionVulnerable(ConfigList([]), Some(target))
    ensures !IsVersionVulnerable(MISSING_CONFIGURATIONS, Some(target))
  {
    var t := ParseVersion(target).value;
    assert !SomeDescriptorAdmits(AsList(MISSING_CONFIGURATIONS), t);
  }

  /** A bad descriptor does not stop the scan: a later admitting descriptor in
      the same node still makes the record applicable. */
  lemma BadBoundIsSkipped(bad: CpeMatch, good: CpeMatch, rest: seq<CpeMatch>, t: Version)
    requires CheckDescriptor(bad, t) == BadBound
    requires CheckDescriptor(good, t) == Admits
    ensures ScanDescriptors([bad] + rest + [good], t)
  {
    assert good in [bad] + rest + [good];
  }
}
