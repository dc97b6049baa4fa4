/**
 * The loops of `main`: the raw-line deduplication offered for saving back
 * to the input file, the (name, version) deduplication that decides what
 * is queried, and the aggregation of one report entry per queried item.
 *
 * The vulnerability query is an oracle: `outcomes[i]` is what the query for
 * `items[i]` returned or raised.
 */
module Scan {
  import opened Wrappers
  import opened Identifier
  import opened Dedup
  import opened Nvd
  import opened Ranking

  /** What `nvd_query` did: returned the `vulnerabilities` list (empty when
      absent), raised `requests.HTTPError`, or raised any other exception. */
  datatype QueryOutcome =
    | Fetched(records: seq<Vuln>)
    | HttpFailure(message: string)
    | Failure(message: string)

  /** One entry of `per_input`. */
  datatype ReportEntry =
    ReportEntry(raw: string, name: string, version: string, vulns: seq<ReportedVuln>, error: Option<string>)

  function RawKey(it: Item): string {
    it.raw
  }

  function NameVersionKey(it: Item): (string, string) {
    (it.name, it.version)
  }

  function CveId(v: Vuln): string {
    v.id
  }

  /** The raw lines of `items`. */
  function RawsOf(items: seq<Item>): (r: seq<string>)
    ensures |r| == |items| && forall i :: 0 <= i < |items| ==> r[i] == items[i].raw
  {
    seq(|items|, i requires 0 <= i < |items| => items[i].raw)
  }

  // ---------------------------------------------------------------------
  // Deduplication of the input

  /** The raw-line deduplication loop. */
  method DedupRawLines(items: seq<Item>) returns (rawLines: seq<string>)
    ensures rawLines == RawsOf(DedupBy(items, RawKey))
  {
    rawLines := [];
    var seenRaw: set<string> := {};
    for i := 0 to |items|
      invariant seenRaw == KeysOf(items[..i], RawKey)
      invariant rawLines == RawsOf(DedupBy(items[..i], RawKey))
    {
      assert items[..i + 1][..i] == items[..i];
      var raw := items[i].raw;
      if raw !in seenRaw {
        seenRaw := seenRaw + {raw};
        rawLines := rawLines + [raw];
      }
    }
    assert items[..|items|] == items;
  }

  /** The saved lines repeat no line, miss no line, and keep each line where
      it first occurred. */
  lemma RawLinesUnique(items: seq<Item>)
    ensures var lines := RawsOf(DedupBy(items, RawKey));
            (forall a, b :: 0 <= a < b < |lines| ==> lines[a] != lines[b]) &&
            (forall i :: 0 <= i < |items| ==> items[i].raw in lines) &&
            (forall k :: 0 <= k < |lines| ==>
               exists i :: IsFirstOccurrence(items, RawKey, i) && lines[k] == items[i].raw)
  {
    var d := DedupBy(items, RawKey);
    DedupDistinct(items, RawKey);
    DedupKeys(items, RawKey);
    DedupKeepsFirstOccurrences(items, RawKey);
    var lines := RawsOf(d);
    forall i | 0 <= i < |items| ensures items[i].raw in lines {
      assert RawKey(items[i]) in KeysOf(d, RawKey);
      KeysOfExact(d, RawKey, items[i].raw);
      var k :| 0 <= k < |d| && RawKey(d[k]) == items[i].raw;
      assert lines[k] == items[i].raw;
    }
    forall k | 0 <= k < |lines|
      ensures exists i :: IsFirstOccurrence(items, RawKey, i) && lines[k] == items[i].raw
    {
      var i := KeptIndices(items, RawKey)[k];
      assert IsFirstOccurrence(items, RawKey, i) && lines[k] == items[i].raw;
    }
  }

  /** The (name, version) deduplication loop. */
  method DedupItems(rawItems: seq<Item>) returns (items: seq<Item>)
    ensures items == DedupBy(rawItems, NameVersionKey)
  {
    items := [];
    var seen: set<(string, string)> := {};
    for i := 0 to |rawItems|
      invariant seen == KeysOf(rawItems[..i], NameVersionKey)
      invariant items == DedupBy(rawItems[..i], NameVersionKey)
    {
      assert rawItems[..i + 1][..i] == rawItems[..i];
      var it := rawItems[i];
      var key := (it.name, it.version);
      if key in seen {
        continue;
      }
      seen := seen + {key};
      items := items + [it];
    }
    assert rawItems[..|rawItems|] == rawItems;
  }

  /** Items read from input lines have distinct raw lines once deduplicated
      on (name, version): equal raw lines parse to equal keys. */
  lemma DedupItemsDistinctRaws(rawItems: seq<Item>)
    requires forall it :: it in rawItems ==> Consistent(it)
    ensures DistinctKeys(DedupBy(rawItems, NameVersionKey), RawKey)
  {
    var d := DedupBy(rawItems, NameVersionKey);
    DedupDistinct(rawItems, NameVersionKey);
    DedupKeepsFirstOccurrences(rawItems, NameVersionKey);
    forall a, b | 0 <= a < b < |d| ensures RawKey(d[a]) != RawKey(d[b]) {
      var idx := KeptIndices(rawItems, NameVersionKey);
      assert d[a] == rawItems[idx[a]] && d[b] == rawItems[idx[b]];
      assert Consistent(d[a]) && Consistent(d[b]);
      assert NameVersionKey(d[a]) != NameVersionKey(d[b]);
    }
  }

  // ---------------------------------------------------------------------
  // Aggregation

  /** The reported form of a record. */
  function Reported(v: Vuln): ReportedVuln {
    ReportedVuln(v.id, ExtractHighRisk(v).1, DescriptionOf(v))
  }

  /** The high-risk records of `vs`, in order. */
  function HighRiskOnly(vs: seq<Vuln>): (r: seq<Vuln>)
    ensures forall k :: 0 <= k < |r| ==> IsHighRisk(r[k]) && r[k] in vs
    ensures forall k :: 0 <= k < |vs| && IsHighRisk(vs[k]) ==> vs[k] in r
  {
    if vs == [] then []
    else
      var init, v := vs[..|vs| - 1], vs[|vs| - 1];
      assert vs == init + [v];
      HighRiskOnly(init) + if IsHighRisk(v) then [v] else []
  }

  /** The reported forms of `vs`. */
  function MapReported(vs: seq<Vuln>): (r: seq<ReportedVuln>)
    ensures |r| == |vs| && forall k :: 0 <= k < |vs| ==> r[k] == Reported(vs[k])
  {
    seq(|vs|, k requires 0 <= k < |vs| => Reported(vs[k]))
  }

  /** The (raw line, CVE id) keys the record loop adds to `seen` for `vs`. */
  function HighKeys(raw: string, vs: seq<Vuln>): set<(string, string)> {
    if vs == [] then {}
    else
      var v := vs[|vs| - 1];
      HighKeys(raw, vs[..|vs| - 1]) + if IsHighRisk(v) then {(raw, v.id)} else {}
  }

  /** The records the loop over `vs` appends for `raw`, given the keys already
      in `seen` when it starts. */
  function Kept(raw: string, vs: seq<Vuln>, seen: set<(string, string)>): seq<ReportedVuln> {
    if vs == [] then []
    else
      var init := vs[..|vs| - 1];
      var v := vs[|vs| - 1];
      Kept(raw, init, seen) +
        if IsHighRisk(v) && (raw, v.id) !in seen + HighKeys(raw, init) then [Reported(v)] else []
  }

  /** The entry built for one item, given the shared `seen` set. */
  function EntryFor(it: Item, outcome: QueryOutcome, seen: set<(string, string)>): ReportEntry {
    match outcome
    case HttpFailure(msg) => ReportEntry(it.raw, it.name, it.version, [], Some("NVD query failed: " + msg))
    case Failure(msg) => ReportEntry(it.raw, it.name, it.version, [], Some("NVD query error: " + msg))
    case Fetched(vs) => ReportEntry(it.raw, it.name, it.version, SortByScoreDesc(Kept(it.raw, vs, seen)), None)
  }

  /** The `seen` set after the first `|items|` entries. */
  function SeenAfter(items: seq<Item>, outcomes: seq<QueryOutcome>): set<(string, string)>
    requires |outcomes| == |items|
  {
    if items == [] then {}
    else
      var n := |items| - 1;
      SeenAfter(items[..n], outcomes[..n]) +
        match outcomes[n]
        case Fetched(vs) => HighKeys(items[n].raw, vs)
        case _ => {}
  }

  /** `per_input`: one entry per item, built with the `seen` set left by the
      items before it. */
  function ReportOf(items: seq<Item>, outcomes: seq<QueryOutcome>): seq<ReportEntry>
    requires |outcomes| == |items|
  {
    if items == [] then []
    else
      var n := |items| - 1;
      ReportOf(items[..n], outcomes[..n]) + [EntryFor(items[n], outcomes[n], SeenAfter(items[..n], outcomes[..n]))]
  }

  /** One more item extends the report by its entry and `seen` by its keys. */
  lemma ReportSnoc(items: seq<Item>, outcomes: seq<QueryOutcome>, i: nat)
    requires |outcomes| == |items| && i < |items|
    ensures ReportOf(items[..i + 1], outcomes[..i + 1]) ==
              ReportOf(items[..i], outcomes[..i]) + [EntryFor(items[i], outcomes[i], SeenAfter(items[..i], outcomes[..i]))]
    ensures SeenAfter(items[..i + 1], outcomes[..i + 1]) ==
              SeenAfter(items[..i], outcomes[..i]) +
                match outcomes[i]
                case Fetched(vs) => HighKeys(items[i].raw, vs)
                case _ => {}
  {
    assert items[..i + 1][..i] == items[..i];
    assert outcomes[..i + 1][..i] == outcomes[..i];
  }

  /** The loop over the records of one successful query. */
  method CollectHighRisk(raw: string, vs: seq<Vuln>, seen: set<(string, string)>)
    returns (found: seq<ReportedVuln>, seenOut: set<(string, string)>)
    ensures found == Kept(raw, vs, seen)
    ensures seenOut == seen + HighKeys(raw, vs)
  {
    found := [];
    seenOut := seen;
    for j := 0 to |vs|
      invariant found == Kept(raw, vs[..j], seen)
      invariant seenOut == seen + HighKeys(raw, vs[..j])
    {
      assert vs[..j + 1][..j] == vs[..j];
      var v := vs[j];
      var isHighCvss := ExtractHighRisk(v);
      if !isHighCvss.0 {
        continue;
      }
      var key := (raw, v.id);
      if key in seenOut {
        continue;
      }
      seenOut := seenOut + {key};
      found := found + [ReportedVuln(v.id, isHighCvss.1, DescriptionOf(v))];
    }
    assert vs[..|vs|] == vs;
  }

  /** The aggregation loop of `main`. */
  method Aggregate(items: seq<Item>, outcomes: seq<QueryOutcome>) returns (perInput: seq<ReportEntry>)
    requires |outcomes| == |items|
    ensures perInput == ReportOf(items, outcomes)
  {
    perInput := [];
    var seen: set<(string, string)> := {};
    for i := 0 to |items|
      invariant perInput == ReportOf(items[..i], outcomes[..i])
      invariant seen == SeenAfter(items[..i], outcomes[..i])
    {
      ReportSnoc(items, outcomes, i);
      var it := items[i];
      var entry := ReportEntry(it.raw, it.name, it.version, [], None);
      match outcomes[i] {
        case HttpFailure(msg) =>
          entry := entry.(error := Some("NVD query failed: " + msg));
        case Failure(msg) =>
          entry := entry.(error := Some("NVD query error: " + msg));
        case Fetched(vs) =>
          var found;
          found, seen := CollectHighRisk(it.raw, vs, seen);
          entry := entry.(vulns := SortByScoreDesc(found));
      }
      perInput := perInput + [entry];
    }
    assert items[..|items|] == items;
    assert outcomes[..|outcomes|] == outcomes;
  }

  // ---------------------------------------------------------------------
  // What the report says

  /** Entry `i` of the report is built from item `i`, its outcome, and the
      keys seen for the items before it. */
  lemma {:induction false} ReportAt(items: seq<Item>, outcomes: seq<QueryOutcome>, i: nat)
    requires |outcomes| == |items| && i < |items|
    ensures |ReportOf(items, outcomes)| == |items|
    ensures ReportOf(items, outcomes)[i] == EntryFor(items[i], outcomes[i], SeenAfter(items[..i], outcomes[..i]))
  {
    var n := |items| - 1;
    var r0 := ReportOf(items[..n], outcomes[..n]);
    var e := EntryFor(items[n], outcomes[n], SeenAfter(items[..n], outcomes[..n]));
    ReportSnoc(items, outcomes, n);
    assert items[..n + 1] == items && outcomes[..n + 1] == outcomes;
    assert ReportOf(items, outcomes) == r0 + [e];
    ReportLength(items[..n], outcomes[..n]);
    if i < n {
      ReportAt(items[..n], outcomes[..n], i);
      assert items[..n][..i] == items[..i];
      assert outcomes[..n][..i] == outcomes[..i];
      assert (r0 + [e])[i] == r0[i];
    } else {
      assert (r0 + [e])[n] == e;
    }
  }

  /** One entry per item. */
  lemma {:induction false} ReportLength(items: seq<Item>, outcomes: seq<QueryOutcome>)
    requires |outcomes| == |items|
    ensures |ReportOf(items, outcomes)| == |items|
  {
    if items != [] {
      ReportLength(items[..|items| - 1], outcomes[..|items| - 1]);
    }
  }

  /** The report has one entry per item, in item order. A failed query gives
      an entry with its error and no records, and the items after it are
      still reported; a successful one gives an entry without error. */
  lemma ReportEntries(items: seq<Item>, outcomes: seq<QueryOutcome>, i: nat)
    requires |outcomes| == |items| && i < |items|
    ensures |ReportOf(items, outcomes)| == |items|
    ensures var e := ReportOf(items, outcomes)[i];
            e.raw == items[i].raw && e.name == items[i].name && e.version == items[i].version &&
            (outcomes[i].HttpFailure? ==> e.error == Some("NVD query failed: " + outcomes[i].message) && e.vulns == []) &&
            (outcomes[i].Failure? ==> e.error == Some("NVD query error: " + outcomes[i].message) && e.vulns == []) &&
            (outcomes[i].Fetched? ==> e.error == None)
  {
    ReportAt(items, outcomes, i);
  }

  /** The keys added for `raw` carry `raw`, and they are exactly the CVE ids of
      the high-risk records. */
  lemma {:induction false} HighKeysMeaning(raw: string, vs: seq<Vuln>)
    ensures forall key :: key in HighKeys(raw, vs) ==> key.0 == raw
    ensures forall id :: (raw, id) in HighKeys(raw, vs) <==> id in KeysOf(HighRiskOnly(vs), CveId)
  {
    if vs != [] {
      var init := vs[..|vs| - 1];
      var v := vs[|vs| - 1];
      HighKeysMeaning(raw, init);
      var h := HighRiskOnly(init);
      if IsHighRisk(v) {
        assert HighRiskOnly(vs) == h + [v];
        assert (h + [v])[..|h|] == h;
        assert KeysOf(h + [v], CveId) == KeysOf(h, CveId) + {v.id};
      } else {
        assert HighRiskOnly(vs) == h;
      }
    }
  }

  /** Every key in `seen` carries the raw line of an item already processed. */
  lemma {:induction false} SeenAfterRaws(items: seq<Item>, outcomes: seq<QueryOutcome>)
    requires |outcomes| == |items|
    ensures forall key :: key in SeenAfter(items, outcomes) ==>
              exists k :: 0 <= k < |items| && key.0 == items[k].raw
  {
    if items != [] {
      var n := |items| - 1;
      SeenAfterRaws(items[..n], outcomes[..n]);
      if outcomes[n].Fetched? {
        HighKeysMeaning(items[n].raw, outcomes[n].records);
      }
      forall key | key in SeenAfter(items, outcomes)
        ensures exists k :: 0 <= k < |items| && key.0 == items[k].raw
      {
        if key in SeenAfter(items[..n], outcomes[..n]) {
          var k :| 0 <= k < n && key.0 == items[..n][k].raw;
          assert key.0 == items[k].raw;
        } else {
          assert key.0 == items[n].raw;
        }
      }
    }
  }

  /** When no key of `raw` has been seen yet, the record loop keeps the first
      high-risk record of each CVE id, in order. */
  lemma {:induction false} KeptIsDedup(raw: string, vs: seq<Vuln>, seen: set<(string, string)>)
    requires forall key :: key in seen ==> key.0 != raw
    ensures Kept(raw, vs, seen) == MapReported(DedupBy(HighRiskOnly(vs), CveId))
  {
    if vs != [] {
      var init := vs[..|vs| - 1];
      var v := vs[|vs| - 1];
      KeptIsDedup(raw, init, seen);
      HighKeysMeaning(raw, init);
      var h := HighRiskOnly(init);
      var d := DedupBy(h, CveId);
      assert (raw, v.id) !in seen;
      assert (raw, v.id) in HighKeys(raw, init) <==> v.id in KeysOf(h, CveId);
      if IsHighRisk(v) {
        assert Kept(raw, vs, seen) ==
          Kept(raw, init, seen) + if v.id in KeysOf(h, CveId) then [] else [Reported(v)];
        assert HighRiskOnly(vs) == h + [v];
        DedupSnoc(h, v, CveId);
        MapReportedSnoc(d, v);
      } else {
        assert Kept(raw, vs, seen) == Kept(raw, init, seen);
        assert HighRiskOnly(vs) == h;
      }
    }
  }

  /** The reports of one more record. */
  lemma MapReportedSnoc(vs: seq<Vuln>, v: Vuln)
    ensures MapReported(vs + [v]) == MapReported(vs) + [Reported(v)]
  {
    assert forall k :: 0 <= k < |vs| ==> (vs + [v])[k] == vs[k];
  }

  /** When the items have distinct raw lines, entry `i` of a successful query
      holds the first high-risk record of each CVE id, sorted by score. */
  lemma EntryVulns(items: seq<Item>, outcomes: seq<QueryOutcome>, i: nat)
    requires |outcomes| == |items| && i < |items|
    requires DistinctKeys(items, RawKey)
    requires outcomes[i].Fetched?
    ensures |ReportOf(items, outcomes)| == |items|
    ensures ReportOf(items, outcomes)[i].vulns ==
              SortByScoreDesc(MapReported(DedupBy(HighRiskOnly(outcomes[i].records), CveId)))
  {
    ReportAt(items, outcomes, i);
    var seen := SeenAfter(items[..i], outcomes[..i]);
    SeenAfterRaws(items[..i], outcomes[..i]);
    forall key | key in seen ensures key.0 != items[i].raw {
      var k :| 0 <= k < i && key.0 == items[..i][k].raw;
      assert RawKey(items[k]) != RawKey(items[i]);
    }
    KeptIsDedup(items[i].raw, outcomes[i].records, seen);
  }

  /** A reported high-risk record carries its best score, which reaches the
      threshold. */
  lemma ReportedScore(v: Vuln)
    requires IsHighRisk(v)
    ensures Reported(v).cvss == BestScore(v)
    ensures Reported(v).cvss.Some? && Reported(v).cvss.value >= HIGH_RISK_CVSS_THRESHOLD
    ensures SortKey(Reported(v)) == BestScore(v).value
  {
  }

  /** Each position of the sorted reports of `d` is the report of a record of `d`. */
  lemma SortedReportFrom(d: seq<Vuln>, k: nat)
    requires k < |d|
    ensures exists p :: 0 <= p < |d| && SortByScoreDesc(MapReported(d))[k] == Reported(d[p])
  {
    var m := MapReported(d);
    SortedFrom(m, k);
    var p :| 0 <= p < |m| && SortByScoreDesc(m)[k] == m[p];
    assert m[p] == Reported(d[p]);
  }

  /** The sorted reports of the first records per CVE id of the high-risk
      records `h` are high risk and are each the report of such a first record. */
  lemma SortedFirstReports(h: seq<Vuln>)
    requires forall q :: 0 <= q < |h| ==> IsHighRisk(h[q])
    ensures var out := SortByScoreDesc(MapReported(DedupBy(h, CveId)));
            (forall k :: 0 <= k < |out| ==> out[k].cvss.Some? && out[k].cvss.value >= HIGH_RISK_CVSS_THRESHOLD) &&
            (forall k :: 0 <= k < |out| ==> exists p :: IsFirstOccurrence(h, CveId, p) && out[k] == Reported(h[p]))
  {
    var out := SortByScoreDesc(MapReported(DedupBy(h, CveId)));
    forall k | 0 <= k < |out|
      ensures out[k].cvss.Some? && out[k].cvss.value >= HIGH_RISK_CVSS_THRESHOLD
      ensures exists p :: IsFirstOccurrence(h, CveId, p) && out[k] == Reported(h[p])
    {
      SortedFirstReport(h, k);
    }
  }

  /** Position `k` of the sorted reports of the first records per CVE id of
      the high-risk records `h` is high risk and the report of such a record. */
  lemma SortedFirstReport(h: seq<Vuln>, k: nat)
    requires forall q :: 0 <= q < |h| ==> IsHighRisk(h[q])
    requires k < |DedupBy(h, CveId)|
    ensures var out := SortByScoreDesc(MapReported(DedupBy(h, CveId)));
            out[k].cvss.Some? && out[k].cvss.value >= HIGH_RISK_CVSS_THRESHOLD &&
            exists p :: IsFirstOccurrence(h, CveId, p) && out[k] == Reported(h[p])
  {
    var d := DedupBy(h, CveId);
    var out := SortByScoreDesc(MapReported(d));
    DedupKeepsFirstOccurrences(h, CveId);
    var idx := KeptIndices(h, CveId);
    SortedReportFrom(d, k);
    var p :| 0 <= p < |d| && out[k] == Reported(d[p]);
    assert d[p] == h[idx[p]];
    ReportedScore(d[p]);
  }

  /** No CVE id is listed twice among the sorted reports of the first records
      per CVE id of `h`. */
  lemma SortedReportsDistinct(h: seq<Vuln>)
    ensures DistinctIds(SortByScoreDesc(MapReported(DedupBy(h, CveId))))
  {
    var d := DedupBy(h, CveId);
    var m := MapReported(d);
    DedupDistinct(h, CveId);
    forall a, b | 0 <= a < b < |m| ensures m[a].cveId != m[b].cveId {
      assert CveId(d[a]) != CveId(d[b]);
    }
    SortKeepsDistinctIds(m);
  }

  /** Some reported record in `out` has the CVE id `id`. */
  predicate ListsId(out: seq<ReportedVuln>, id: string) {
    exists k :: 0 <= k < |out| && out[k].cveId == id
  }

  /** A list that names every CVE id of the high-risk records of `vs` names
      every high-risk CVE id of `vs`. */
  lemma HighRiskListed(vs: seq<Vuln>, out: seq<ReportedVuln>)
    requires forall q :: 0 <= q < |HighRiskOnly(vs)| ==> ListsId(out, HighRiskOnly(vs)[q].id)
    ensures forall j :: 0 <= j < |vs| && IsHighRisk(vs[j]) ==> ListsId(out, vs[j].id)
  {
    forall j | 0 <= j < |vs| && IsHighRisk(vs[j])
      ensures ListsId(out, vs[j].id)
    {
      var q := FilteredIndex(vs, j);
      assert ListsId(out, HighRiskOnly(vs)[q].id);
    }
  }

  /** A position of `HighRiskOnly(vs)` holding the high-risk record `vs[j]`. */
  function FilteredIndex(vs: seq<Vuln>, j: nat): (q: nat)
    requires j < |vs| && IsHighRisk(vs[j])
    ensures q < |HighRiskOnly(vs)| && HighRiskOnly(vs)[q] == vs[j]
  {
    var init := vs[..|vs| - 1];
    if j == |vs| - 1 then |HighRiskOnly(init)|
    else
      assert init[j] == vs[j];
      FilteredIndex(init, j)
  }

  /** Every CVE id of `h` appears among the sorted reports of its first
      records per id. */
  lemma SortedReportsCover(h: seq<Vuln>)
    ensures forall q :: 0 <= q < |h| ==> ListsId(SortByScoreDesc(MapReported(DedupBy(h, CveId))), h[q].id)
  {
    forall q | 0 <= q < |h| {
      SortedReportCovers(h, q);
    }
  }

  /** The CVE id of `h[q]` appears among the sorted reports of the first
      records per id of `h`. */
  lemma SortedReportCovers(h: seq<Vuln>, q: nat)
    requires q < |h|
    ensures ListsId(SortByScoreDesc(MapReported(DedupBy(h, CveId))), h[q].id)
  {
    var d := DedupBy(h, CveId);
    DedupRepresents(h, CveId, q);
    var p :| 0 <= p < |d| && CveId(d[p]) == CveId(h[q]);
    SortListsId(MapReported(d), p);
  }

  /** Sorting keeps the CVE id of every record listed. */
  lemma SortListsId(m: seq<ReportedVuln>, p: nat)
    requires p < |m|
    ensures ListsId(SortByScoreDesc(m), m[p].cveId)
  {
    var out := SortByScoreDesc(m);
    SortMembers(m);
    assert m[p] in out;
    var k :| 0 <= k < |out| && out[k] == m[p];
  }

  /** The records of a successful entry, when the items have distinct raw
      lines: sorted by descending score and stably so, every one high risk,
      no CVE id repeated, every high-risk CVE id of the response present,
      each the first high-risk record with its id. */
  lemma EntryVulnsMeaning(items: seq<Item>, outcomes: seq<QueryOutcome>, i: nat)
    requires |outcomes| == |items| && i < |items|
    requires DistinctKeys(items, RawKey)
    requires outcomes[i].Fetched?
    ensures |ReportOf(items, outcomes)| == |items|
    ensures var vs, out := outcomes[i].records, ReportOf(items, outcomes)[i].vulns;
            var h := HighRiskOnly(vs);
            SortedDesc(out) &&
            (forall c :: WithKey(out, c) == WithKey(MapReported(DedupBy(h, CveId)), c)) &&
            (forall k :: 0 <= k < |out| ==> out[k].cvss.Some? && out[k].cvss.value >= HIGH_RISK_CVSS_THRESHOLD) &&
            DistinctIds(out) &&
            (forall j :: 0 <= j < |vs| && IsHighRisk(vs[j]) ==> ListsId(out, vs[j].id)) &&
            (forall k :: 0 <= k < |out| ==> exists p :: IsFirstOccurrence(h, CveId, p) && out[k] == Reported(h[p]))
  {
    EntryVulns(items, outcomes, i);
    var vs := outcomes[i].records;
    var h := HighRiskOnly(vs);
    var m := MapReported(DedupBy(h, CveId));
    SortedFirstReports(h);
    SortedReportsDistinct(h);
    SortedReportsCover(h);
    HighRiskListed(vs, SortByScoreDesc(m));
    forall c ensures WithKey(SortByScoreDesc(m), c) == WithKey(m, c) {
      SortIsStable(m, c);
    }
  }

  // ---------------------------------------------------------------------
  // The whole scan

  /** For the items `main` queries, those read from `lines` and deduplicated
      on (name, version), the shared `seen` set never hides a record: a
      successful entry lists the sorted reports of the first high-risk
      record of each CVE id of its own response. */
  lemma ScanEntryVulns(lines: seq<string>, outcomes: seq<QueryOutcome>, i: nat)
    requires |outcomes| == |DedupBy(ItemsOf(lines), NameVersionKey)|
    requires i < |outcomes| && outcomes[i].Fetched?
    ensures |ReportOf(DedupBy(ItemsOf(lines), NameVersionKey), outcomes)| == |outcomes|
    ensures ReportOf(DedupBy(ItemsOf(lines), NameVersionKey), outcomes)[i].vulns ==
              SortByScoreDesc(MapReported(DedupBy(HighRiskOnly(outcomes[i].records), CveId)))
  {
    var rawItems := ItemsOf(lines);
    ItemsOfSound(lines);
    DedupItemsDistinctRaws(rawItems);
    EntryVulns(DedupBy(rawItems, NameVersionKey), outcomes, i);
  }
}
