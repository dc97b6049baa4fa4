/**
 * The NVD CVE records the scanner reads (`vulnerabilities[*]` of an API 2.0
 * response) and the three pure questions it asks of one: its best CVSS
 * base score, whether it is high risk, and its description.
 *
 * A record is decoded once, at the boundary: a missing or null `cve`,
 * `metrics`, metric list or `descriptions` becomes empty; a missing `id`,
 * `lang` or `value` becomes "", and `lang` holds what `str()` makes of the
 * field.
 */
module Nvd {
  import opened Wrappers
  import opened Text

  /** A `baseScore` field as found in the JSON. */
  datatype ScoreField =
    | Absent                                   // missing or null: `get` gives None
    | Number(value: real)                      // a JSON number
    | Other(truthy: bool, parsed: Option<real>) // any other value: its truth value,
                                               // and what `float()` makes of it (None: it raises)

  /** One entry of a `cvssMetricV31`, `cvssMetricV30` or `cvssMetricV2` list:
      the `cvssData.baseScore` and the metric-level `baseScore`. */
  datatype Metric = Metric(dataScore: ScoreField, metricScore: ScoreField)

  /** The three metric lists the scorer consults, in the order it reads them. */
  datatype Metrics = Metrics(v31: seq<Metric>, v30: seq<Metric>, v2: seq<Metric>)

  /** One localized description, `{lang, value}`. */
  datatype Description = Description(lang: string, value: string)

  /** One vulnerability record. */
  datatype Vuln = Vuln(id: string, metrics: Metrics, descriptions: seq<Description>)

  /** `HIGH_RISK_CVSS_THRESHOLD`: the lower bound of the "High" rating in the
      qualitative severity scale of section 5 of the CVSS v3.1 specification. */
  const HIGH_RISK_CVSS_THRESHOLD: real := 7.0

  /** Python truthiness of a score field. */
  predicate Truthy(f: ScoreField) {
    match f
    case Absent => false
    case Number(x) => x != 0.0
    case Other(t, _) => t
  }

  /** `data.get("baseScore") or m.get("baseScore")`: a falsy data-level score
      (missing, 0, "", ...) falls back to the metric-level one. */
  function Chosen(m: Metric): ScoreField {
    if Truthy(m.dataScore) then m.dataScore else m.metricScore
  }

  /** `float(score)`, with None when the field is missing or `float` raises. */
  function AsFloat(f: ScoreField): Option<real> {
    match f
    case Absent => None
    case Number(x) => Some(x)
    case Other(_, p) => p
  }

  /** The score one metric contributes, if any. */
  function MetricScore(m: Metric): Option<real> {
    AsFloat(Chosen(m))
  }

  /** The scores a metric list contributes, in order. */
  function ScoresOf(ms: seq<Metric>): seq<real> {
    if ms == [] then []
    else
      ScoresOf(ms[..|ms| - 1]) +
        match MetricScore(ms[|ms| - 1])
        case None => []
        case Some(x) => [x]
  }

  /** The scores of several metric lists, in order. */
  function GroupScores(groups: seq<seq<Metric>>): seq<real> {
    if groups == [] then [] else GroupScores(groups[..|groups| - 1]) + ScoresOf(groups[|groups| - 1])
  }

  /** The metric lists of a record, in the order the scorer reads them. */
  function MetricGroups(v: Vuln): seq<seq<Metric>> {
    [v.metrics.v31, v.metrics.v30, v.metrics.v2]
  }

  /** Every present, parseable base score of a record. */
  function AllScores(v: Vuln): seq<real> {
    GroupScores(MetricGroups(v))
  }

  /** One step of the running maximum: `if best is None or score > best`. */
  function Step(best: Option<real>, x: real): Option<real> {
    if best.None? || x > best.value then Some(x) else best
  }

  /** The running maximum of `xs`, None for no scores. */
  function MaxScore(xs: seq<real>): (r: Option<real>)
    ensures r.None? <==> xs == []
    ensures r.Some? ==> r.value in xs && forall i :: 0 <= i < |xs| ==> xs[i] <= r.value
  {
    if xs == [] then None else Step(MaxScore(xs[..|xs| - 1]), xs[|xs| - 1])
  }

  /** `best_cvss_score_nvd`, as a value. */
  function BestScore(v: Vuln): Option<real> {
    MaxScore(AllScores(v))
  }

  /** The best score is the largest present, parseable base score of any of
      the three lists, and None exactly when there is none. */
  lemma BestScoreIsMaximum(v: Vuln)
    ensures BestScore(v).None? <==> AllScores(v) == []
    ensures BestScore(v).Some? ==>
              BestScore(v).value in AllScores(v) &&
              forall i :: 0 <= i < |AllScores(v)| ==> AllScores(v)[i] <= BestScore(v).value
  {
  }

  /** Extending the scores by one metric. */
  lemma ScoresOfSnoc(ms: seq<Metric>, j: nat)
    requires j < |ms|
    ensures MetricScore(ms[j]).None? ==> ScoresOf(ms[..j + 1]) == ScoresOf(ms[..j])
    ensures MetricScore(ms[j]).Some? ==> ScoresOf(ms[..j + 1]) == ScoresOf(ms[..j]) + [MetricScore(ms[j]).value]
  {
    assert ms[..j + 1][..j] == ms[..j];
  }

  /** Extending the running maximum by one score. */
  lemma MaxScoreSnoc(before: seq<real>, xs: seq<real>, x: real)
    ensures MaxScore(before + (xs + [x])) == Step(MaxScore(before + xs), x)
  {
    assert before + (xs + [x]) == (before + xs) + [x];
    assert ((before + xs) + [x])[..|before + xs|] == before + xs;
  }

  /** `best_cvss_score_nvd`: the nested loops over the three metric lists. */
  method BestCvssScore(v: Vuln) returns (best: Option<real>)
    ensures best == BestScore(v)
    ensures best.None? <==> AllScores(v) == []
    ensures best.Some? ==>
              best.value in AllScores(v) &&
              forall i :: 0 <= i < |AllScores(v)| ==> AllScores(v)[i] <= best.value
  {
    var groups := MetricGroups(v);
    best := None;
    for k := 0 to |groups|
      invariant best == MaxScore(GroupScores(groups[..k]))
    {
      var ms := groups[k];
      ghost var before := GroupScores(groups[..k]);
      assert before + ScoresOf(ms[..0]) == before;
      for j := 0 to |ms|
        invariant best == MaxScore(before + ScoresOf(ms[..j]))
      {
        ScoresOfSnoc(ms, j);
        var score := Chosen(ms[j]);
        if !score.Absent? {
          var parsed := AsFloat(score);
          if parsed.Some? {
            MaxScoreSnoc(before, ScoresOf(ms[..j]), parsed.value);
            if best.None? || parsed.value > best.value {
              best := parsed;
            }
          }
        }
      }
      assert ms[..|ms|] == ms;
      assert groups[..k + 1][..k] == groups[..k];
    }
    assert groups[..|groups|] == groups;
  }

  /** `extract_high_risk_vulns_nvd`: the high-risk verdict and the best score. */
  function ExtractHighRisk(v: Vuln): (bool, Option<real>) {
    var best := BestScore(v);
    (best.Some? && best.value >= HIGH_RISK_CVSS_THRESHOLD, best)
  }

  predicate IsHighRisk(v: Vuln) {
    ExtractHighRisk(v).0
  }

  /** A record is high risk exactly when one of its parseable base scores,
      in any of the three lists, reaches the threshold. */
  lemma HighRiskIff(v: Vuln)
    ensures IsHighRisk(v) <==>
              exists i :: 0 <= i < |AllScores(v)| && AllScores(v)[i] >= HIGH_RISK_CVSS_THRESHOLD
    ensures ExtractHighRisk(v).1 == BestScore(v)
  {
  }

  /** `lang.lower() == "en"`. */
  predicate IsEnglish(lang: string) {
    Lower(lang) == "en"
  }

  /** The English tag in any letter case, and nothing else. */
  lemma EnglishTags(lang: string)
    ensures IsEnglish(lang) <==> lang in {"en", "En", "eN", "EN"}
  {
    if IsEnglish(lang) {
      assert LowerChar(lang[0]) == 'e' && LowerChar(lang[1]) == 'n';
      assert lang == [lang[0], lang[1]];
    }
  }

  /** Index of the first English description. */
  function FirstEnglish(ds: seq<Description>): (r: Option<nat>)
    ensures r.Some? ==> r.value < |ds| && IsEnglish(ds[r.value].lang)
    ensures r.Some? ==> forall j :: 0 <= j < r.value ==> !IsEnglish(ds[j].lang)
    ensures r.None? ==> forall j :: 0 <= j < |ds| ==> !IsEnglish(ds[j].lang)
  {
    if ds == [] then None
    else if IsEnglish(ds[0].lang) then Some(0)
    else
      match FirstEnglish(ds[1..])
      case None => None
      case Some(i) => Some(i + 1)
  }

  /** `get_description_nvd`. */
  function DescriptionOf(v: Vuln): string {
    var ds := v.descriptions;
    match FirstEnglish(ds)
    case Some(i) => Strip(ds[i].value)
    case None => if ds == [] then "" else Strip(ds[0].value)
  }

  /** The first English description wins. */
  lemma DescriptionPrefersEnglish(v: Vuln, i: nat)
    requires i < |v.descriptions| && IsEnglish(v.descriptions[i].lang)
    requires forall j :: 0 <= j < i ==> !IsEnglish(v.descriptions[j].lang)
    ensures DescriptionOf(v) == Strip(v.descriptions[i].value)
  {
    var r := FirstEnglish(v.descriptions);
    assert r == Some(i);
  }

  /** Without an English description the first one is used, and without any
      the result is empty. In every case the result is trimmed. */
  lemma DescriptionFallback(v: Vuln)
    ensures (forall j :: 0 <= j < |v.descriptions| ==> !IsEnglish(v.descriptions[j].lang)) ==>
              DescriptionOf(v) == if v.descriptions == [] then "" else Strip(v.descriptions[0].value)
    ensures IsTrimmed(DescriptionOf(v))
  {
    var ds := v.descriptions;
    match FirstEnglish(ds)
    case Some(i) =>
      StripIsTrim(ds[i].value);
    case None =>
      if ds != [] {
        StripIsTrim(ds[0].value);
      }
  }

  /** A record with one metric list, scored `x` at the data level. */
  function SingleScore(x: real): Vuln {
    Vuln("CVE-0000-0001", Metrics([Metric(Number(x), Absent)], [], []), [])
  }

  lemma SingleScoreScores(x: real)
    requires x != 0.0
    ensures AllScores(SingleScore(x)) == [x]
  {
    var g := MetricGroups(SingleScore(x));
    var ms := [Metric(Number(x), Absent)];
    assert MetricScore(ms[0]) == Some(x);
    assert ms[..0] == [];
    assert ScoresOf(ms) == [x];
    assert ScoresOf(g[1]) == [] && ScoresOf(g[2]) == [];
    assert g[..1][..0] == [] && g[..2][..1] == g[..1] && g[..3][..2] == g[..2] && g[..3] == g;
    assert GroupScores(g[..1]) == [x];
    assert GroupScores(g[..2]) == [x];
  }

  /** The threshold is inclusive: 7.0 is high risk, 6.9 is not. */
  lemma ExampleThreshold()
    ensures IsHighRisk(SingleScore(7.0))
    ensures !IsHighRisk(SingleScore(6.9))
    ensures ExtractHighRisk(SingleScore(6.9)) == (false, Some(6.9))
  {
    SingleScoreScores(7.0);
    SingleScoreScores(6.9);
  }

  /** The best score is taken across the lists, not from the first list. */
  lemma ExampleBestAcrossLists()
    ensures var v := Vuln("CVE-0000-0002",
                          Metrics([Metric(Number(6.5), Absent)], [], [Metric(Absent, Number(8.1))]), []);
            BestScore(v) == Some(8.1) && IsHighRisk(v)
  {
    var v := Vuln("CVE-0000-0002",
                  Metrics([Metric(Number(6.5), Absent)], [], [Metric(Absent, Number(8.1))]), []);
    var g := MetricGroups(v);
    assert ScoresOf(g[0]) == [6.5];
    assert ScoresOf(g[1]) == [];
    assert ScoresOf(g[2]) == [8.1];
    assert g[..1][..0] == [] && g[..2][..1] == g[..1] && g[..3][..2] == g[..2] && g[..3] == g;
    assert GroupScores(g[..1]) == [6.5];
    assert GroupScores(g[..2]) == [6.5];
    assert AllScores(v) == [6.5, 8.1];
    assert [6.5, 8.1][..1] == [6.5];
  }

  /** A zero data-level score is falsy and falls back to the metric-level
      one; with no fallback the metric contributes nothing; a data-level
      value that `float` rejects is truthy, so it does not fall back. */
  lemma ExampleFallback()
    ensures MetricScore(Metric(Number(0.0), Number(9.8))) == Some(9.8)
    ensures MetricScore(Metric(Number(0.0), Absent)) == None
    ensures MetricScore(Metric(Absent, Number(0.0))) == Some(0.0)
    ensures MetricScore(Metric(Other(true, None), Number(9.8))) == None
    ensures MetricScore(Metric(Other(false, None), Number(9.8))) == Some(9.8)
  {
  }

  /** The English description wins over an earlier one in another language;
      the tag is compared without regard to case. */
  lemma ExampleDescription()
    ensures var v := Vuln("CVE-0000-0003", Metrics([], [], []),
                          [Description("es", "uno"), Description("EN", "two")]);
            DescriptionOf(v) == "two"
  {
    var v := Vuln("CVE-0000-0003", Metrics([], [], []),
                  [Description("es", "uno"), Description("EN", "two")]);
    EnglishTags("es");
    EnglishTags("EN");
    StripTrimmed("two");
    DescriptionPrefersEnglish(v, 1);
  }
}
