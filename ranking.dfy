/**
 * The reported form of a high-risk record and the ordering of an entry's
 * records: `list.sort(key=..., reverse=True)`, which sorts by descending
 * score and, being stable, keeps records of equal score in their original
 * order.
 */
module Ranking {
  import opened Wrappers

  /** One reported vulnerability: `{"cve_id", "cvss", "summary"}`. */
  datatype ReportedVuln = ReportedVuln(cveId: string, cvss: Option<real>, summary: string)

  /** The sort key: the score, or -1 for a record without one. */
  function SortKey(r: ReportedVuln): real {
    match r.cvss
    case Some(x) => x
    case None => -1.0
  }

  /** Non-increasing by sort key. */
  predicate SortedDesc(xs: seq<ReportedVuln>) {
    forall a, b :: 0 <= a < b < |xs| ==> SortKey(xs[a]) >= SortKey(xs[b])
  }

  /** Places `x` before the first element whose key does not exceed its own. */
  function Insert(x: ReportedVuln, s: seq<ReportedVuln>): (r: seq<ReportedVuln>)
    requires SortedDesc(s)
    ensures SortedDesc(r) && |r| == |s| + 1
    ensures SortKey(r[0]) == SortKey(x) || (s != [] && SortKey(r[0]) == SortKey(s[0]))
  {
    if s == [] || SortKey(x) >= SortKey(s[0]) then [x] + s
    else
      var rest := Insert(x, s[1..]);
      assert s == [s[0]] + s[1..];
      [s[0]] + rest
  }

  /** Inserting adds exactly `x`. */
  lemma {:induction false} InsertPerm(x: ReportedVuln, s: seq<ReportedVuln>)
    requires SortedDesc(s)
    ensures multiset(Insert(x, s)) == multiset(s) + multiset{x}
  {
    if s != [] && SortKey(x) < SortKey(s[0]) {
      var t := s[1..];
      assert s == [s[0]] + t;
      InsertPerm(x, t);
    }
  }

  /** The stable descending sort, by insertion from the right. */
  function SortByScoreDesc(xs: seq<ReportedVuln>): (r: seq<ReportedVuln>)
    ensures SortedDesc(r) && multiset(r) == multiset(xs) && |r| == |xs|
  {
    if xs == [] then []
    else
      assert xs == [xs[0]] + xs[1..];
      InsertPerm(xs[0], SortByScoreDesc(xs[1..]));
      Insert(xs[0], SortByScoreDesc(xs[1..]))
  }

  /** The elements of `xs` with key `c`, in order. */
  function WithKey(xs: seq<ReportedVuln>, c: real): seq<ReportedVuln> {
    if xs == [] then []
    else (if SortKey(xs[0]) == c then [xs[0]] else []) + WithKey(xs[1..], c)
  }

  /** The tail of a descending sequence is descending. */
  lemma SortedTail(s: seq<ReportedVuln>)
    requires s != [] && SortedDesc(s)
    ensures SortedDesc(s[1..])
  {
    assert forall a :: 0 <= a < |s| - 1 ==> s[1..][a] == s[a + 1];
  }

  /** The records with key `c` of a sequence with a given head. */
  lemma WithKeyCons(y: ReportedVuln, t: seq<ReportedVuln>, c: real)
    ensures WithKey([y] + t, c) == (if SortKey(y) == c then [y] else []) + WithKey(t, c)
  {
    assert ([y] + t)[1..] == t;
  }

  /** Inserting `x` puts it ahead of every element of equal key. */
  lemma {:induction false} InsertStable(x: ReportedVuln, s: seq<ReportedVuln>, c: real)
    requires SortedDesc(s)
    ensures WithKey(Insert(x, s), c) == (if SortKey(x) == c then [x] else []) + WithKey(s, c)
  {
    if s == [] || SortKey(x) >= SortKey(s[0]) {
      WithKeyCons(x, s, c);
    } else {
      var t := s[1..];
      SortedTail(s);
      assert Insert(x, s) == [s[0]] + Insert(x, t);
      InsertStable(x, t, c);
      WithKeyCons(s[0], Insert(x, t), c);
      assert s == [s[0]] + t;
      WithKeyCons(s[0], t, c);
    }
  }

  /** The sort is stable: for every key, the records carrying it appear in
      the same order as in the input. */
  lemma {:induction false} SortIsStable(xs: seq<ReportedVuln>, c: real)
    ensures WithKey(SortByScoreDesc(xs), c) == WithKey(xs, c)
  {
    if xs != [] {
      SortIsStable(xs[1..], c);
      InsertStable(xs[0], SortByScoreDesc(xs[1..]), c);
    }
  }

  /** No two records share a CVE id. */
  predicate DistinctIds(xs: seq<ReportedVuln>) {
    forall a, b :: 0 <= a < b < |xs| ==> xs[a].cveId != xs[b].cveId
  }

  /** Inserting a record with a new id keeps the ids distinct. */
  lemma {:induction false} InsertKeepsDistinctIds(x: ReportedVuln, s: seq<ReportedVuln>)
    requires SortedDesc(s) && DistinctIds(s)
    requires forall k :: 0 <= k < |s| ==> s[k].cveId != x.cveId
    ensures DistinctIds(Insert(x, s))
  {
    if s != [] && SortKey(x) < SortKey(s[0]) {
      var rest := Insert(x, s[1..]);
      InsertKeepsDistinctIds(x, s[1..]);
      InsertPerm(x, s[1..]);
      forall k | 0 <= k < |rest| ensures rest[k].cveId != s[0].cveId {
        assert rest[k] in multiset(s[1..]) + multiset{x};
        if rest[k] != x {
          assert rest[k] in s[1..];
        }
      }
    }
  }

  /** Sorting keeps CVE ids distinct. */
  lemma {:induction false} SortKeepsDistinctIds(xs: seq<ReportedVuln>)
    requires DistinctIds(xs)
    ensures DistinctIds(SortByScoreDesc(xs))
  {
    if xs != [] {
      var tail := xs[1..];
      SortKeepsDistinctIds(tail);
      var st := SortByScoreDesc(tail);
      forall k | 0 <= k < |st| ensures st[k].cveId != xs[0].cveId {
        assert st[k] in multiset(tail);
        var q :| 0 <= q < |tail| && tail[q] == st[k];
        assert xs[q + 1] == st[k];
      }
      InsertKeepsDistinctIds(xs[0], st);
    }
  }

  /** The sort neither invents nor loses records. */
  lemma SortMembers(xs: seq<ReportedVuln>)
    ensures |SortByScoreDesc(xs)| == |xs|
    ensures forall x :: x in SortByScoreDesc(xs) <==> x in xs
  {
    var out := SortByScoreDesc(xs);
    assert multiset(out) == multiset(xs);
    assert |multiset(out)| == |out|;
    forall x ensures x in out <==> x in xs {
      assert x in out <==> x in multiset(out);
      assert x in xs <==> x in multiset(xs);
    }
  }

  /** Each position of the sorted output holds some input record. */
  lemma SortedFrom(xs: seq<ReportedVuln>, k: nat)
    requires k < |xs|
    ensures exists p :: 0 <= p < |xs| && SortByScoreDesc(xs)[k] == xs[p]
  {
    var out := SortByScoreDesc(xs);
    SortMembers(xs);
    assert out[k] in out;
    assert out[k] in xs;
  }
}
