/** The two free-text heuristics of `search_nvd` (check_cves.py lines 84-92).
    Each regular expression is a hand-written scanner that follows
    `re.findall` from left to right: at each position it tries one match,
    keeps the captured group and resumes after the whole match, or moves one
    position on. */
module TextFilters {
  import opened Wrappers
  import opened Text

  /** A half-open span [start, end) of a string */
  datatype Span = Span(start: nat, end: nat)

  /** End of the maximal digit run that starts at `j` (`\d+` taken greedily) */
  function DigitsEnd(s: string, j: nat): (e: nat)
    requires j <= |s|
    ensures j <= e <= |s|
    ensures forall k :: j <= k < e ==> IsDigit(s[k])
    ensures e == |s| || !IsDigit(s[e])
    decreases |s| - j
  {
    if j < |s| && IsDigit(s[j]) then DigitsEnd(s, j + 1) else j
  }

  /** End of `(?:\.\d+)*` taken greedily from `k` */
  function DotGroupsEnd(s: string, k: nat): (e: nat)
    requires k <= |s|
    ensures k <= e <= |s|
    ensures forall m :: k <= m < e ==> IsDigit(s[m]) || s[m] == '.'
    ensures !(e + 1 < |s| && s[e] == '.' && IsDigit(s[e + 1]))
    ensures (k == |s| || !IsDigit(s[k])) ==> e == |s| || !IsDigit(s[e])
    ensures forall q :: k <= q < e && s[q] == '.' ==> q + 1 < e && IsDigit(s[q + 1])
    ensures 0 < k && IsDigit(s[k - 1]) ==> IsDigit(s[e - 1])
    decreases |s| - k
  {
    if k + 1 < |s| && s[k] == '.' && IsDigit(s[k + 1]) then DotGroupsEnd(s, DigitsEnd(s, k + 1)) else k
  }

  // ----- wpa_supplicant[_ ]?(\d+(?:\.\d+)+) -----

  const WPA_SUPPLICANT := "wpa_supplicant"

  /** One attempt of `wpa_supplicant[_ ]?(\d+(?:\.\d+)+)` at position `i`:
      the span of the captured version and the end of the whole match, which
      are the same. */
  function WpaMatchAt(s: string, i: nat): (m: Option<Span>)
    requires i <= |s|
    ensures m.Some? ==> i + |WPA_SUPPLICANT| <= m.value.start < m.value.end <= |s|
    ensures m.Some? ==> OccursAt(WPA_SUPPLICANT, s, i)
    ensures m.Some? ==> IsDigit(s[m.value.start]) && '.' in s[m.value.start..m.value.end]
    ensures m.Some? ==> forall q :: m.value.start <= q < m.value.end ==> IsDigit(s[q]) || s[q] == '.'
    ensures m.Some? ==> forall q :: i + |WPA_SUPPLICANT| <= q < m.value.start ==> s[q] == '_' || s[q] == ' '
    ensures m.Some? ==> m.value.start <= i + |WPA_SUPPLICANT| + 1
    ensures m.Some? ==> m.value.end == |s| || !IsDigit(s[m.value.end])
    ensures m.Some? ==> !(m.value.end + 1 < |s| && s[m.value.end] == '.' && IsDigit(s[m.value.end + 1]))
    ensures m.Some? ==> IsDigit(s[m.value.end - 1])
    ensures m.Some? ==> forall q :: m.value.start <= q < m.value.end && s[q] == '.' ==> q + 1 < m.value.end && IsDigit(s[q + 1])
  {
    if !OccursAt(WPA_SUPPLICANT, s, i) then None
    else
      var k := i + |WPA_SUPPLICANT|;
      var j := if k < |s| && (s[k] == '_' || s[k] == ' ') then k + 1 else k;
      if j < |s| && IsDigit(s[j]) then
        var d := DigitsEnd(s, j);
        var e := DotGroupsEnd(s, d);
        if d < e then
          assert s[j..e][d - j] == '.';
          Some(Span(j, e))
        else None
      else None
  }

  /** Every character of `s[j..d]` is a digit. */
  predicate DigitsBetween(s: string, j: nat, d: nat)
    requires j <= d <= |s|
  {
    forall q :: j <= q < d ==> IsDigit(s[q])
  }

  /** A digit run that ends at a dot is exactly what `\d+` takes. */
  lemma DigitsEndAtDot(s: string, j: nat, d: nat)
    requires j < d < |s| && s[d] == '.'
    requires DigitsBetween(s, j, d)
    ensures DigitsEnd(s, j) == d
  {
  }

  /** The pattern misses no mention: "wpa_supplicant" at `i`, then an
      optional `_` or space ending at `j`, then the digits `s[j..d]`, a dot and
      a digit, always matches, and its version starts at `j`. */
  lemma WpaMatchWhereVersionFollows(s: string, i: nat, j: nat, d: nat)
    requires i <= |s| && OccursAt(WPA_SUPPLICANT, s, i)
    requires j < d && d + 1 < |s| && DigitsBetween(s, j, d) && s[d] == '.' && IsDigit(s[d + 1])
    requires j == i + |WPA_SUPPLICANT| || (j == i + |WPA_SUPPLICANT| + 1 && (s[j - 1] == '_' || s[j - 1] == ' '))
    ensures WpaMatchAt(s, i).Some? && WpaMatchAt(s, i).value.start == j
  {
    DigitsEndAtDot(s, j, d);
  }

  /** `re.findall(r"wpa_supplicant[_ ]?(\d+(?:\.\d+)+)", s[i..])` */
  function WpaVersionsFrom(s: string, i: nat): seq<string>
    requires i <= |s|
    decreases |s| - i
  {
    if i == |s| then []
    else
      match WpaMatchAt(s, i)
      case Some(m) => [s[m.start..m.end]] + WpaVersionsFrom(s, m.end)
      case None => WpaVersionsFrom(s, i + 1)
  }

  function WpaVersions(s: string): seq<string> {
    WpaVersionsFrom(s, 0)
  }

  /** The version captured by a match at `i` */
  function WpaTokenAt(s: string, i: nat): string
    requires i <= |s| && WpaMatchAt(s, i).Some?
  {
    var m := WpaMatchAt(s, i).value;
    s[m.start..m.end]
  }

  /** Inside a match no other match can begin: only its first character is a 'w'. */
  lemma WpaMatchesDoNotOverlap(s: string, i: nat, k: nat)
    requires i <= |s| && WpaMatchAt(s, i).Some?
    requires i < k < WpaMatchAt(s, i).value.end
    ensures WpaMatchAt(s, k).None?
  {
    var m := WpaMatchAt(s, i).value;
    if k < i + |WPA_SUPPLICANT| {
      assert s[k] == s[i..i + |WPA_SUPPLICANT|][k - i] == WPA_SUPPLICANT[k - i];
    }
    assert s[k] != 'w';
    if WpaMatchAt(s, k).Some? {
      WpaMatchBeginsWithW(s, k);
    }
  }

  lemma WpaMatchBeginsWithW(s: string, k: nat)
    requires k <= |s| && WpaMatchAt(s, k).Some?
    ensures s[k] == 'w'
  {
    assert s[k] == s[k..k + |WPA_SUPPLICANT|][0];
  }

  /** One step of the scan: a match at `p` contributes its version and the
      scan resumes at the match's end, otherwise it moves on by one. */
  lemma WpaVersionsFromStep(s: string, p: nat)
    requires p < |s|
    ensures WpaMatchAt(s, p).Some? ==>
              WpaVersionsFrom(s, p) == [WpaTokenAt(s, p)] + WpaVersionsFrom(s, WpaMatchAt(s, p).value.end)
    ensures WpaMatchAt(s, p).None? ==> WpaVersionsFrom(s, p) == WpaVersionsFrom(s, p + 1)
  {
  }

  /** Every extracted version comes from some match position. */
  lemma {:induction false} WpaFoundIsMatch(s: string, p: nat, v: string)
    requires p <= |s| && v in WpaVersionsFrom(s, p)
    ensures exists i :: p <= i < |s| && WpaMatchAt(s, i).Some? && WpaTokenAt(s, i) == v
    decreases |s| - p
  {
    WpaVersionsFromStep(s, p);
    var m := WpaMatchAt(s, p);
    if m.Some? {
      if v != WpaTokenAt(s, p) {
        WpaFoundIsMatch(s, m.value.end, v);
      }
    } else {
      WpaFoundIsMatch(s, p + 1, v);
    }
  }

  /** Every match position from `p` on contributes its version. */
  lemma {:induction false} WpaMatchIsFound(s: string, p: nat, i: nat)
    requires p <= i < |s| && WpaMatchAt(s, i).Some?
    ensures WpaTokenAt(s, i) in WpaVersionsFrom(s, p)
    decreases |s| - p
  {
    WpaVersionsFromStep(s, p);
    var m := WpaMatchAt(s, p);
    if m.Some? {
      if p < i {
        if i < m.value.end {
          WpaMatchesDoNotOverlap(s, p, i);
        }
        WpaMatchIsFound(s, m.value.end, i);
      }
    } else {
      WpaMatchIsFound(s, p + 1, i);
    }
  }

  /** findall misses nothing and invents nothing: a version is extracted iff
      some match position yields it. */
  lemma WpaVersionsAreAllMatches(s: string, p: nat, v: string)
    requires p <= |s|
    ensures v in WpaVersionsFrom(s, p) <==>
              exists i :: p <= i < |s| && WpaMatchAt(s, i).Some? && WpaTokenAt(s, i) == v
  {
    if v in WpaVersionsFrom(s, p) {
      WpaFoundIsMatch(s, p, v);
    }
    if exists i :: p <= i < |s| && WpaMatchAt(s, i).Some? && WpaTokenAt(s, i) == v {
      var i :| p <= i < |s| && WpaMatchAt(s, i).Some? && WpaTokenAt(s, i) == v;
      WpaMatchIsFound(s, p, i);
    }
  }

  /** The wpa_supplicant heuristic is enabled for this keyword and sdk label. */
  predicate WpaFilterApplies(keyword: string, sdk: string) {
    IsSubstring(WPA_SUPPLICANT, Lower(keyword)) && IsSubstring("2.2", sdk)
  }

  /** Lines 85-87: some wpa_supplicant version is named and none starts with "2.2". */
  predicate WpaDrops(description: string) {
    var found := WpaVersions(Lower(description));
    |found| > 0 && forall v :: v in found ==> !StartsWith(v, "2.2")
  }

  /** The heuristic in terms of match positions: drop exactly when the lower-cased
      description has a match and no match's version starts with "2.2". */
  lemma WpaDropsIffNoMatchStartsWith22(description: string)
    ensures var s := Lower(description);
            WpaDrops(description) <==>
              (exists i :: 0 <= i < |s| && WpaMatchAt(s, i).Some?) &&
              (forall i :: 0 <= i < |s| && WpaMatchAt(s, i).Some? ==> !StartsWith(WpaTokenAt(s, i), "2.2"))
  {
    var s := Lower(description);
    var found := WpaVersions(s);
    assert (exists i :: 0 <= i < |s| && WpaMatchAt(s, i).Some?) <==> |found| > 0 by {
      if exists i :: 0 <= i < |s| && WpaMatchAt(s, i).Some? {
        var i :| 0 <= i < |s| && WpaMatchAt(s, i).Some?;
        WpaMatchIsFound(s, 0, i);
      }
      if |found| > 0 {
        WpaFoundIsMatch(s, 0, found[0]);
      }
    }
    assert (forall v :: v in found ==> !StartsWith(v, "2.2")) <==>
           (forall i :: 0 <= i < |s| && WpaMatchAt(s, i).Some? ==> !StartsWith(WpaTokenAt(s, i), "2.2")) by {
      if forall v :: v in found ==> !StartsWith(v, "2.2") {
        forall i | 0 <= i < |s| && WpaMatchAt(s, i).Some?
          ensures !StartsWith(WpaTokenAt(s, i), "2.2")
        {
          WpaMatchIsFound(s, 0, i);
        }
      }
      if forall i :: 0 <= i < |s| && WpaMatchAt(s, i).Some? ==> !StartsWith(WpaTokenAt(s, i), "2.2") {
        forall v | v in found
          ensures !StartsWith(v, "2.2")
        {
          WpaFoundIsMatch(s, 0, v);
        }
      }
    }
  }

  /** Without a 'w' after position 0, no match can start after position 0. */
  lemma WpaOnlyMatchAtStart(s: string)
    requires forall i :: 0 < i < |s| ==> s[i] != 'w'
    ensures forall i :: 0 < i < |s| ==> WpaMatchAt(s, i).None?
  {
    forall i | 0 < i < |s|
      ensures WpaMatchAt(s, i).None?
    {
      if WpaMatchAt(s, i).Some? {
        WpaMatchBeginsWithW(s, i);
      }
    }
  }

  /** A lower-case description with a single mention, at its start, is
      dropped exactly when that mention's version does not start with "2.2". */
  lemma WpaSingleMention(s: string)
    requires 0 < |s| && Lower(s) == s && WpaMatchAt(s, 0).Some?
    requires forall i :: 0 < i < |s| ==> WpaMatchAt(s, i).None?
    ensures WpaDrops(s) <==> !StartsWith(WpaTokenAt(s, 0), "2.2")
  {
    WpaDropsIffNoMatchStartsWith22(s);
    assert forall i :: 0 <= i < |s| && WpaMatchAt(s, i).Some? ==> i == 0;
  }

  /** The two sample descriptions below are lower-case, and no match begins
      after their start. */
  lemma SampleMentionsAreLowercase(s: string)
    requires s == "wpa_supplicant 1.0" || s == "wpa_supplicant 2.20"
    ensures Lower(s) == s && forall i :: 0 < i < |s| ==> WpaMatchAt(s, i).None?
  {
    LowerKeepsLowercase(s);
    WpaOnlyMatchAtStart(s);
  }

  /** A text that is "wpa_supplicant ", a digit, a dot and then only digits
      matches at its start, and the whole rest is the version. */
  lemma WpaMatchRunsToEnd(s: string)
    requires |WPA_SUPPLICANT| + 3 < |s| && OccursAt(WPA_SUPPLICANT, s, 0)
    requires s[|WPA_SUPPLICANT|] == ' ' && IsDigit(s[|WPA_SUPPLICANT| + 1]) && s[|WPA_SUPPLICANT| + 2] == '.'
    requires forall q :: |WPA_SUPPLICANT| + 3 <= q < |s| ==> IsDigit(s[q])
    ensures WpaMatchAt(s, 0) == Some(Span(|WPA_SUPPLICANT| + 1, |s|))
  {
    DigitsEndAtDot(s, |WPA_SUPPLICANT| + 1, |WPA_SUPPLICANT| + 2);
    assert DigitsEnd(s, |WPA_SUPPLICANT| + 3) == |s|;
  }

  /** The two sample descriptions match at their start, and the version
      captured is what follows "wpa_supplicant ". */
  lemma SampleMatchesAtStart(s: string)
    requires s == "wpa_supplicant 1.0" || s == "wpa_supplicant 2.20"
    ensures WpaMatchAt(s, 0).Some? && WpaTokenAt(s, 0) == s[|WPA_SUPPLICANT| + 1..]
  {
    assert s[..|WPA_SUPPLICANT|] == WPA_SUPPLICANT;
    assert s[|WPA_SUPPLICANT|] == ' ' && IsDigit(s[|WPA_SUPPLICANT| + 1]) && s[|WPA_SUPPLICANT| + 2] == '.';
    WpaMatchRunsToEnd(s);
  }

  /** A description naming only another version is dropped. */
  lemma WpaDropsOtherVersion(s: string)
    requires s == "wpa_supplicant 1.0"
    ensures WpaDrops(s)
  {
    SampleMentionsAreLowercase(s);
    SampleMatchesAtStart(s);
    assert !StartsWith(WpaTokenAt(s, 0), "2.2") by {
      assert WpaTokenAt(s, 0)[0] == s[15] != "2.2"[0];
    }
    WpaSingleMention(s);
  }

  /** "2.20" starts with "2.2", so a description naming it is kept. */
  lemma WpaKeeps220(s: string)
    requires s == "wpa_supplicant 2.20"
    ensures !WpaDrops(s)
  {
    SampleMentionsAreLowercase(s);
    SampleMatchesAtStart(s);
    assert StartsWith(WpaTokenAt(s, 0), "2.2") by {
      assert WpaTokenAt(s, 0)[..3] == s[15..18] == "2.2";
    }
    WpaSingleMention(s);
  }

  // ----- v?(\d+\.\d+(?:\.\d+)?) -----

  /** One attempt of `v?(\d+\.\d+(?:\.\d+)?)` at position `i`: the span of the
      captured version, which is also where the whole match ends. */
  function GenericMatchAt(s: string, i: nat): (m: Option<Span>)
    requires i <= |s|
    ensures m.Some? ==> i <= m.value.start < m.value.end <= |s|
  {
    var j := if i < |s| && s[i] == 'v' then i + 1 else i;
    if j < |s| && IsDigit(s[j]) then
      var d := DigitsEnd(s, j);
      if d + 1 < |s| && s[d] == '.' && IsDigit(s[d + 1]) then
        var e := DigitsEnd(s, d + 1);
        var f := if e + 1 < |s| && s[e] == '.' && IsDigit(s[e + 1]) then DigitsEnd(s, e + 1) else e;
        Some(Span(j, f))
      else None
    else None
  }

  /** `re.findall(r"v?(\d+\.\d+(?:\.\d+)?)", s[i..])` */
  function GenericVersionsFrom(s: string, i: nat): (found: seq<string>)
    requires i <= |s|
    ensures forall v :: v in found ==> IsSubstring(v, s)
    decreases |s| - i
  {
    if i == |s| then []
    else
      match GenericMatchAt(s, i)
      case Some(m) =>
        assert OccursAt(s[m.start..m.end], s, m.start);
        [s[m.start..m.end]] + GenericVersionsFrom(s, m.end)
      case None => GenericVersionsFrom(s, i + 1)
  }

  function GenericVersions(s: string): seq<string> {
    GenericVersionsFrom(s, 0)
  }

  /** A digit, a dot and a digit in a row starting at position `i` of `s` */
  predicate DigitDotDigitAt(s: string, i: nat) {
    i + 2 < |s| && IsDigit(s[i]) && s[i + 1] == '.' && IsDigit(s[i + 2])
  }

  /** A digit, a dot and a digit in a row somewhere in `s` */
  predicate HasDigitDotDigit(s: string) {
    exists i: nat :: i < |s| && DigitDotDigitAt(s, i)
  }

  /** A match attempt at `i` succeeds when a digit-dot-digit starts there, and
      a successful one always covers a digit-dot-digit at or after `i`. */
  lemma GenericMatchIffDigitDotDigit(s: string, i: nat)
    requires i <= |s|
    ensures GenericMatchAt(s, i).Some? ==> exists k: nat :: i <= k && DigitDotDigitAt(s, k)
    ensures DigitDotDigitAt(s, i) ==> GenericMatchAt(s, i).Some?
  {
    var j := if i < |s| && s[i] == 'v' then i + 1 else i;
    if GenericMatchAt(s, i).Some? {
      var d := DigitsEnd(s, j);
      assert DigitDotDigitAt(s, d - 1);
    }
  }

  /** One step of the scan: a match at `p` yields a token, otherwise the scan
      moves on by one character. */
  lemma GenericVersionsFromStep(s: string, p: nat)
    requires p < |s|
    ensures GenericMatchAt(s, p).Some? ==> |GenericVersionsFrom(s, p)| > 0
    ensures GenericMatchAt(s, p).None? ==> GenericVersionsFrom(s, p) == GenericVersionsFrom(s, p + 1)
  {
  }

  /** findall finds something exactly when a digit-dot-digit occurs. */
  lemma {:induction false} GenericVersionsNonEmptyIff(s: string, p: nat)
    requires p <= |s|
    ensures |GenericVersionsFrom(s, p)| > 0 <==> exists i: nat :: p <= i && DigitDotDigitAt(s, i)
    decreases |s| - p
  {
    if p < |s| {
      GenericMatchIffDigitDotDigit(s, p);
      GenericVersionsFromStep(s, p);
      if GenericMatchAt(s, p).None? {
        GenericVersionsNonEmptyIff(s, p + 1);
        if |GenericVersionsFrom(s, p)| > 0 {
          var i: nat :| p + 1 <= i && DigitDotDigitAt(s, i);
          assert p <= i;
        }
        if exists i: nat :: p <= i && DigitDotDigitAt(s, i) {
          var i: nat :| p <= i && DigitDotDigitAt(s, i);
          assert i != p;
          assert p + 1 <= i && DigitDotDigitAt(s, i);
        }
      }
    }
  }

  /** Lines 89-92 as written: with a target set and named in neither title nor
      description, drop when the description names versions all different
      from the target. */
  predicate GenericDrops(target: Option<string>, title: string, description: string) {
    && Truthy(target)
    && !IsSubstring(target.value, description)
    && !IsSubstring(target.value, title)
    && var found := GenericVersions(description);
       |found| > 0 && forall v :: v in found ==> v != target.value
  }

  /** The "all different from the target" test cannot fail where it is reached:
      every extracted version is part of the description, which does not
      contain the target. So the heuristic drops a record exactly when the
      target is in neither text and the description has a digit-dot-digit. */
  lemma GenericDropsIff(target: Option<string>, title: string, description: string)
    ensures GenericDrops(target, title, description) <==>
              && Truthy(target)
              && !IsSubstring(target.value, description)
              && !IsSubstring(target.value, title)
              && HasDigitDotDigit(description)
  {
    GenericVersionsNonEmptyIff(description, 0);
  }
}
