/**
 * `search_documentation` over the archival log: scan the `DOCUMENTATION_` records,
 * keep the documents that decode and match the filters, and sort them best-first.
 */
module Retrieval {
  import opened Wrappers
  import opened Text
  import opened Json
  import opened Records
  import opened Filters
  import opened Scoring
  import opened Sequences
  import StableSort

  type Candidate = (Value, real)

  /** Descending by score. */
  const ByScore := (a: Candidate, b: Candidate) => a.1 > b.1

  lemma ByScoreOrdersWeakly()
    ensures StableSort.StrictWeakOrder(ByScore)
  {
  }

  /** The record neither raises in the scan: it is framed, and a decoded document can be filtered and, if kept, scored. */
  predicate RecordSearchable(c: Codec, r: string, query: string, filters: Option<Dict>) {
    && Framed(r)
    && (DecodeRecord(c, r).Some? ==>
          var doc := DecodeRecord(c, r).value;
          FiltersDefined(doc, filters) && (Matches(doc, filters) ==> RelevanceDefined(c, doc, query)))
  }

  predicate Searchable(c: Codec, records: seq<string>, query: string, filters: Option<Dict>) {
    forall r | r in records :: RecordSearchable(c, r, query, filters)
  }

  /**
   * `_calculate_relevance(doc, query)` at time `now`, as a function of the document. The
   * scan applies it only to documents on which it is defined; elsewhere it is `0`.
   */
  function RelevanceTo(c: Codec, now: int, query: string): Value -> real {
    doc => if RelevanceDefined(c, doc, query) then Relevance(c, now, doc, query) else 0.0
  }

  /*
   * The scan is described for any scoring `score` of the documents; the search uses
   * `RelevanceTo(c, now, query)`. Its properties do not depend on how documents are scored.
   */

  /** The record can be scanned: it is framed, and a decoded document can be filtered. */
  predicate Scannable(c: Codec, r: string, filters: Option<Dict>) {
    && Framed(r)
    && (DecodeRecord(c, r).Some? ==> FiltersDefined(DecodeRecord(c, r).value, filters))
  }

  /**
   * What one record contributes to the results: its document and score, if it decodes
   * and matches. A record on which the scan would raise contributes nothing here;
   * `Search` is only defined on logs without such a record.
   */
  function Scored(c: Codec, r: string, filters: Option<Dict>, score: Value -> real): (cs: seq<Candidate>)
    ensures |cs| <= 1
  {
    if !Scannable(c, r, filters) then []
    else match DecodeRecord(c, r)
    case None => []
    case Some(doc) => if Matches(doc, filters) then [(doc, score(doc))] else []
  }

  /** The contribution of each record, in log order. */
  function Contributions(c: Codec, records: seq<string>, filters: Option<Dict>, score: Value -> real): (parts: seq<seq<Candidate>>)
    ensures |parts| == |records|
    ensures forall i :: 0 <= i < |records| ==> parts[i] == Scored(c, records[i], filters, score)
  {
    seq(|records|, i requires 0 <= i < |records| => Scored(c, records[i], filters, score))
  }

  /** The scored documents collected by the scan, in log order. */
  function Candidates(c: Codec, records: seq<string>, filters: Option<Dict>, score: Value -> real): seq<Candidate> {
    Concat(Contributions(c, records, filters, score))
  }

  /** The candidates the search collects for `query` at time `now`. */
  function Found(c: Codec, now: int, records: seq<string>, query: string, filters: Option<Dict>): seq<Candidate> {
    Candidates(c, records, filters, RelevanceTo(c, now, query))
  }

  function Ranked(c: Codec, now: int, records: seq<string>, query: string, filters: Option<Dict>): seq<Candidate> {
    StableSort.Sort(Found(c, now, records, query, filters), ByScore)
  }

  function Firsts(cs: seq<Candidate>): (ds: seq<Value>)
    ensures |ds| == |cs| && forall i :: 0 <= i < |cs| ==> ds[i] == cs[i].0
  {
    seq(|cs|, i requires 0 <= i < |cs| => cs[i].0)
  }

  /** `search_documentation(query, filters)` over the log `records` at time `now`. */
  function Search(c: Codec, now: int, records: seq<string>, query: string, filters: Option<Dict>): seq<Value>
    requires Searchable(c, records, query, filters)
  {
    Firsts(Ranked(c, now, records, query, filters))
  }

  lemma SearchablePrefix(c: Codec, records: seq<string>, n: nat, query: string, filters: Option<Dict>)
    requires Searchable(c, records, query, filters) && n <= |records|
    ensures Searchable(c, records[..n], query, filters)
  {
    assert forall r | r in records[..n] :: r in records;
  }

  lemma SearchableAppend(c: Codec, a: seq<string>, b: seq<string>, query: string, filters: Option<Dict>)
    requires Searchable(c, a, query, filters) && Searchable(c, b, query, filters)
    ensures Searchable(c, a + b, query, filters)
  {
  }

  /** The parts of a log on which the scan does not raise are such logs too. */
  lemma SearchableParts(c: Codec, a: seq<string>, r: string, b: seq<string>, query: string, filters: Option<Dict>)
    requires Searchable(c, a + [r] + b, query, filters)
    ensures Searchable(c, a, query, filters) && Searchable(c, b, query, filters) && RecordSearchable(c, r, query, filters)
    ensures Searchable(c, a + b, query, filters)
  {
    var s := a + [r] + b;
    assert forall x | x in a :: x in s;
    assert forall x | x in b :: x in s;
    assert r in s;
  }

  /** The scan of one more record adds that record's contribution. */
  lemma CandidatesStep(c: Codec, records: seq<string>, i: nat, filters: Option<Dict>, score: Value -> real)
    requires i < |records|
    ensures Candidates(c, records[..i + 1], filters, score)
         == Candidates(c, records[..i], filters, score) + Scored(c, records[i], filters, score)
  {
    var parts := Contributions(c, records, filters, score);
    assert Contributions(c, records[..i + 1], filters, score) == parts[..i + 1];
    assert Contributions(c, records[..i], filters, score) == parts[..i];
    ConcatStep(parts, i);
  }

  /** The scan of a non-empty log ends with its last record's contribution. */
  lemma CandidatesLast(c: Codec, records: seq<string>, filters: Option<Dict>, score: Value -> real)
    requires records != []
    ensures Candidates(c, records, filters, score)
         == Candidates(c, records[..|records| - 1], filters, score) + Scored(c, records[|records| - 1], filters, score)
  {
    var n := |records| - 1;
    CandidatesStep(c, records, n, filters, score);
    assert records[..n + 1] == records;
  }

  lemma ContributionsAppend(c: Codec, a: seq<string>, b: seq<string>, filters: Option<Dict>, score: Value -> real)
    ensures Contributions(c, a + b, filters, score)
         == Contributions(c, a, filters, score) + Contributions(c, b, filters, score)
  {
    var p, pa, pb := Contributions(c, a + b, filters, score), Contributions(c, a, filters, score), Contributions(c, b, filters, score);
    forall i | 0 <= i < |p| ensures p[i] == (pa + pb)[i] {
      if i < |a| {
        assert (a + b)[i] == a[i];
      } else {
        assert (a + b)[i] == b[i - |a|];
      }
    }
  }

  /** Scanning the two halves of a log separately collects the same candidates as scanning it whole. */
  lemma CandidatesAppend(c: Codec, a: seq<string>, b: seq<string>, filters: Option<Dict>, score: Value -> real)
    ensures Candidates(c, a + b, filters, score)
         == Candidates(c, a, filters, score) + Candidates(c, b, filters, score)
  {
    ContributionsAppend(c, a, b, filters, score);
    ConcatAppend(Contributions(c, a, filters, score), Contributions(c, b, filters, score));
  }

  /** A record in the middle of the log contributes exactly its own candidates, in its place. */
  lemma RecordContribution(c: Codec, a: seq<string>, r: string, b: seq<string>, filters: Option<Dict>, score: Value -> real)
    ensures Candidates(c, a + [r] + b, filters, score)
         == Candidates(c, a, filters, score) + Scored(c, r, filters, score) + Candidates(c, b, filters, score)
  {
    CandidatesAppend(c, a, [r], filters, score);
    assert Candidates(c, [r], filters, score) == Scored(c, r, filters, score) by {
      assert Contributions(c, [r], filters, score) == [Scored(c, r, filters, score)];
      ConcatOne(Scored(c, r, filters, score));
    }
    CandidatesAppend(c, a + [r], b, filters, score);
  }

  lemma ScoredUndecodable(c: Codec, r: string, filters: Option<Dict>, score: Value -> real)
    requires Framed(r) && DecodeRecord(c, r).None?
    ensures Scored(c, r, filters, score) == []
  {
  }

  /** A record that is not documentation, or whose payload does not decode, contributes nothing. */
  lemma CandidatesSkipUndecodable(c: Codec, a: seq<string>, r: string, b: seq<string>, filters: Option<Dict>, score: Value -> real)
    requires Framed(r) && DecodeRecord(c, r).None?
    ensures Candidates(c, a + [r] + b, filters, score) == Candidates(c, a + b, filters, score)
  {
    RecordContribution(c, a, r, b, filters, score);
    ScoredUndecodable(c, r, filters, score);
    var ca, cb := Candidates(c, a, filters, score), Candidates(c, b, filters, score);
    assert ca + [] + cb == ca + cb;
    CandidatesAppend(c, a, b, filters, score);
  }

  /** The candidate stems from a record of the log that decodes to it, matches the filters, and is scored by `score`. */
  predicate FromLog(c: Codec, records: seq<string>, filters: Option<Dict>, score: Value -> real, cand: Candidate) {
    exists r | r in records ::
      && Framed(r) && IsDocRecord(r) && DecodeRecord(c, r) == Some(cand.0)
      && FiltersDefined(cand.0, filters) && Matches(cand.0, filters)
      && cand.1 == score(cand.0)
  }

  lemma {:induction false} CandidatesFromLog(c: Codec, records: seq<string>, filters: Option<Dict>, score: Value -> real)
    ensures forall cand | cand in Candidates(c, records, filters, score) :: FromLog(c, records, filters, score, cand)
    decreases |records|
  {
    if records != [] {
      var n := |records| - 1;
      var init := records[..n];
      var last := records[n];
      CandidatesLast(c, records, filters, score);
      CandidatesFromLog(c, init, filters, score);
      assert forall r | r in init :: r in records;
      assert last in records;
      forall cand | cand in Candidates(c, records, filters, score)
        ensures FromLog(c, records, filters, score, cand)
      {
        if cand in Candidates(c, init, filters, score) {
          var r :| r in init && Framed(r) && IsDocRecord(r) && DecodeRecord(c, r) == Some(cand.0)
            && FiltersDefined(cand.0, filters) && Matches(cand.0, filters)
            && cand.1 == score(cand.0);
          assert r in records;
        } else {
          assert cand in Scored(c, last, filters, score);
        }
      }
    }
  }

  /** Records that are not documentation, or whose payload does not decode, are skipped. */
  lemma SearchSkipsUndecodable(c: Codec, now: int, a: seq<string>, r: string, b: seq<string>, query: string, filters: Option<Dict>)
    requires Searchable(c, a + [r] + b, query, filters)
    requires Framed(r) && DecodeRecord(c, r).None?
    ensures Searchable(c, a + b, query, filters)
    ensures Search(c, now, a + [r] + b, query, filters) == Search(c, now, a + b, query, filters)
  {
    SearchableParts(c, a, r, b, query, filters);
    CandidatesSkipUndecodable(c, a, r, b, filters, RelevanceTo(c, now, query));
  }

  /** `search_documentation`: scans the log collecting (document, score) pairs, then sorts them best-first. */
  method SearchDocumentation(c: Codec, now: int, records: seq<string>, query: string, filters: Option<Dict>)
    returns (docs: seq<Value>)
    requires Searchable(c, records, query, filters)
    ensures docs == Search(c, now, records, query, filters)
  {
    var results: seq<Candidate> := [];
    for i := 0 to |records|
      invariant Searchable(c, records[..i], query, filters)
      invariant results == Found(c, now, records[..i], query, filters)
    {
      CandidatesStep(c, records, i, filters, RelevanceTo(c, now, query));
      SearchablePrefix(c, records, i + 1, query, filters);
      var r := records[i];
      assert RecordSearchable(c, r, query, filters);
      if !StartsWith(r, DocPrefix) {
        continue;
      }
      var decoded := c.decode(AfterFirst(r, PayloadSeparator));
      if decoded.None? {
        continue;
      }
      var doc := decoded.value;
      var outcome := MatchesFilters(doc, filters);
      if outcome == Some(true) {
        var score := Relevance(c, now, doc, query);
        results := results + [(doc, score)];
      }
    }
    assert records[..|records|] == records;
    var sorted := StableSort.Sort(results, ByScore);
    docs := seq(|sorted|, k requires 0 <= k < |sorted| => sorted[k].0);
  }

  /** Every result is the document of a `DOCUMENTATION_` record of the log, and it satisfies the filters. */
  lemma SearchResultsMatch(c: Codec, now: int, records: seq<string>, query: string, filters: Option<Dict>)
    requires Searchable(c, records, query, filters)
    ensures forall d | d in Search(c, now, records, query, filters) ::
              exists r | r in records :: IsDocRecord(r) && Framed(r)
                && DecodeRecord(c, r) == Some(d) && FiltersDefined(d, filters) && Matches(d, filters)
  {
    var score := RelevanceTo(c, now, query);
    var cs := Found(c, now, records, query, filters);
    var ranked := Ranked(c, now, records, query, filters);
    StableSort.SortPermutes(cs, ByScore);
    CandidatesFromLog(c, records, filters, score);
    forall d | d in Search(c, now, records, query, filters)
      ensures exists r | r in records :: IsDocRecord(r) && Framed(r)
                && DecodeRecord(c, r) == Some(d) && FiltersDefined(d, filters) && Matches(d, filters)
    {
      var k :| 0 <= k < |ranked| && ranked[k].0 == d;
      assert ranked[k] in multiset(cs);
      assert FromLog(c, records, filters, score, ranked[k]);
    }
  }

  /** Every document of the log that decodes and matches is among the results. */
  lemma SearchFindsMatching(c: Codec, now: int, a: seq<string>, r: string, b: seq<string>, query: string, filters: Option<Dict>)
    requires Searchable(c, a + [r] + b, query, filters)
    requires Framed(r) && DecodeRecord(c, r).Some?
    requires FiltersDefined(DecodeRecord(c, r).value, filters) && Matches(DecodeRecord(c, r).value, filters)
    ensures DecodeRecord(c, r).value in Search(c, now, a + [r] + b, query, filters)
  {
    var s := a + [r] + b;
    var score := RelevanceTo(c, now, query);
    SearchableParts(c, a, r, b, query, filters);
    RecordContribution(c, a, r, b, filters, score);
    var cs := Found(c, now, s, query, filters);
    var doc := DecodeRecord(c, r).value;
    var cand := (doc, score(doc));
    assert Scored(c, r, filters, score) == [cand];
    assert cs[|Candidates(c, a, filters, score)|] == cand;
    StableSort.SortPermutes(cs, ByScore);
    var ranked := Ranked(c, now, s, query, filters);
    assert cand in multiset(ranked);
    var k :| 0 <= k < |ranked| && ranked[k] == cand;
    assert Search(c, now, s, query, filters)[k] == doc;
  }

  /** The ranking is a permutation of the candidates, ordered by non-increasing score. */
  lemma RankedBestFirst(c: Codec, now: int, records: seq<string>, query: string, filters: Option<Dict>)
    requires Searchable(c, records, query, filters)
    ensures multiset(Ranked(c, now, records, query, filters)) == multiset(Found(c, now, records, query, filters))
    ensures var ranked := Ranked(c, now, records, query, filters);
            forall i, j :: 0 <= i < j < |ranked| ==> ranked[i].1 >= ranked[j].1
    ensures Search(c, now, records, query, filters) == Firsts(Ranked(c, now, records, query, filters))
  {
    var cs := Found(c, now, records, query, filters);
    ByScoreOrdersWeakly();
    StableSort.SortPermutes(cs, ByScore);
    StableSort.SortSorted(cs, ByScore);
  }

  /** The candidates with score `s`, in their order. */
  function WithScore(cs: seq<Candidate>, s: real): (r: seq<Candidate>)
    ensures forall x | x in r :: x in cs && x.1 == s
  {
    if cs == [] then []
    else (if cs[0].1 == s then [cs[0]] else []) + WithScore(cs[1..], s)
  }

  lemma {:induction false} WithScoreIsTied(cs: seq<Candidate>, d: Value, s: real)
    ensures WithScore(cs, s) == StableSort.TiedWith(cs, (d, s), ByScore)
  {
    if cs != [] {
      WithScoreIsTied(cs[1..], d, s);
    }
  }

  /** Documents with equal scores keep the order in which the scan found them. */
  lemma RankedStable(c: Codec, now: int, records: seq<string>, query: string, filters: Option<Dict>, s: real)
    ensures WithScore(Ranked(c, now, records, query, filters), s) == WithScore(Found(c, now, records, query, filters), s)
  {
    var cs := Found(c, now, records, query, filters);
    ByScoreOrdersWeakly();
    StableSort.SortStable(cs, (Null, s), ByScore);
    WithScoreIsTied(cs, Null, s);
    WithScoreIsTied(StableSort.Sort(cs, ByScore), Null, s);
  }

  /**
   * The first result is the first document found with the highest score: among the
   * scored candidates `cs`, nothing scores higher and everything found earlier scores less.
   */
  lemma SearchHead(c: Codec, now: int, records: seq<string>, query: string, filters: Option<Dict>, cs: seq<Candidate>)
    requires Searchable(c, records, query, filters)
    requires cs == Found(c, now, records, query, filters) && cs != []
    ensures exists k :: 0 <= k < |cs| && cs[k].0 == Search(c, now, records, query, filters)[0]
              && (forall j :: 0 <= j < |cs| ==> cs[j].1 <= cs[k].1)
              && (forall j :: 0 <= j < k ==> cs[j].1 < cs[k].1)
  {
    FirstsHead(cs);
  }

  /** The head of the ranking of `cs` is the first candidate with the highest score. */
  lemma FirstsHead(cs: seq<Candidate>)
    requires cs != []
    ensures exists k :: 0 <= k < |cs| && cs[k].0 == Firsts(StableSort.Sort(cs, ByScore))[0]
              && (forall j :: 0 <= j < |cs| ==> cs[j].1 <= cs[k].1)
              && (forall j :: 0 <= j < k ==> cs[j].1 < cs[k].1)
  {
    ByScoreOrdersWeakly();
    StableSort.SortHeadIsFirstMaximal(cs, ByScore);
  }
}
