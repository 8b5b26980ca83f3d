/**
 * The weighted relevance score of `_calculate_relevance`: keyword hits, recency,
 * complexity match and category match.
 */
module Scoring {
  import opened Text
  import opened Json
  import opened Complexity

  const KeywordWeight := 0.4
  const RecencyWeight := 0.3
  const ComplexityWeight := 0.2
  const CategoryWeight := 0.1

  /** `query.lower().split()` */
  function QueryTerms(query: string): seq<string> {
    Words(Lower(query))
  }

  /** `sum(term in text for term in terms)` */
  function KeywordHits(terms: seq<string>, text: string): (n: nat)
    ensures n <= |terms|
    ensures n == |terms| <==> forall i :: 0 <= i < |terms| ==> Contains(text, terms[i])
    ensures n == 0 <==> forall i :: 0 <= i < |terms| ==> !Contains(text, terms[i])
  {
    if terms == [] then 0
    else
      var init := terms[..|terms| - 1];
      assert forall i :: 0 <= i < |init| ==> init[i] == terms[i];
      KeywordHits(init, text) + (if Contains(text, terms[|terms| - 1]) then 1 else 0)
  }

  /** A share of a positive whole lies in [0, 1]. */
  lemma ShareBounds(part: nat, whole: nat)
    requires 0 < whole && part <= whole
    ensures 0.0 <= part as real / whole as real <= 1.0
  {
    var q := part as real / whole as real;
    assert q * whole as real == part as real;
  }

  /** The share of query terms the text contains. */
  function KeywordScore(terms: seq<string>, text: string): (k: real)
    requires |terms| > 0
    ensures 0.0 <= k <= 1.0
  {
    var hits := KeywordHits(terms, text);
    ShareBounds(hits, |terms|);
    hits as real / |terms| as real
  }

  /** `max(0, 1 - days / 365)` */
  function Recency(days: int): (r: real)
    ensures 0.0 <= r
    ensures days >= 0 ==> r <= 1.0
    ensures days >= 365 ==> r == 0.0
  {
    var x := 1.0 - days as real / 365.0;
    if x > 0.0 then x else 0.0
  }

  /** Older documents never score a higher recency. */
  lemma RecencyNonIncreasing(d1: int, d2: int)
    requires d1 <= d2
    ensures Recency(d2) <= Recency(d1)
  {
    assert d1 as real / 365.0 <= d2 as real / 365.0;
  }

  function ComplexityMatch(queryLevel: Level, docComplexity: Value): (m: real)
    ensures m == 1.0 || m == 0.5
    ensures m == 1.0 <==> docComplexity == Str(queryLevel.Label())
  {
    if docComplexity == Str(queryLevel.Label()) then 1.0 else 0.5
  }

  /** Containers that `term in v` accepts without a TypeError. */
  predicate Container(v: Value) {
    v.Str? || v.Arr? || v.Obj?
  }

  /** `term in v`: a substring of a string, an element of a list, a key of a dictionary. */
  predicate TermIn(term: string, v: Value)
    requires Container(v)
  {
    match v
    case Str(s) => Contains(s, term)
    case Arr(xs) => Str(term) in xs
    case Obj(m) => term in m
  }

  function CategoryMatch(terms: seq<string>, category: Value): (g: real)
    requires Container(category)
    ensures g == 1.0 || g == 0.5
    ensures g == 1.0 <==> exists i :: 0 <= i < |terms| && TermIn(terms[i], category)
  {
    if exists i :: 0 <= i < |terms| && TermIn(terms[i], category) then 1.0 else 0.5
  }

  /** The lookups `_calculate_relevance` makes, which raise when the field is missing or ill-typed. */
  predicate RelevanceDefined(c: Codec, doc: Value, query: string) {
    && |QueryTerms(query)| > 0
    && doc.Obj? && "metadata" in doc.fields && doc.fields["metadata"].Obj?
    && var meta := doc.fields["metadata"].fields;
       && "timestamp" in meta && meta["timestamp"].Str? && c.parseTime(meta["timestamp"].s).Some?
       && "complexity" in meta
       && "category" in meta && Container(meta["category"])
  }

  /** Whole days since the document's timestamp. */
  function Age(c: Codec, now: int, doc: Value): int
    requires doc.Obj? && "metadata" in doc.fields && doc.fields["metadata"].Obj?
    requires var meta := doc.fields["metadata"].fields;
             "timestamp" in meta && meta["timestamp"].Str? && c.parseTime(meta["timestamp"].s).Some?
  {
    DaysBetween(now, c.parseTime(doc.fields["metadata"].fields["timestamp"].s).value)
  }

  /** The complexity of a query, as `_assess_complexity({'content': query})` computes it. */
  function QueryLevel(c: Codec, query: string): Level {
    ComplexityOf(Lower(c.dumps(Obj(map["content" := Str(query)]))))
  }

  /** `_calculate_relevance(doc, query)` at time `now`: in [0.15, 1] for a document not dated in the future. */
  function Relevance(c: Codec, now: int, doc: Value, query: string): (score: real)
    requires RelevanceDefined(c, doc, query)
    ensures Age(c, now, doc) >= 0 ==> 0.15 <= score <= 1.0
  {
    var terms := QueryTerms(query);
    var meta := doc.fields["metadata"].fields;
    KeywordWeight * KeywordScore(terms, Lower(c.dumps(doc)))
    + RecencyWeight * Recency(Age(c, now, doc))
    + ComplexityWeight * ComplexityMatch(QueryLevel(c, query), meta["complexity"])
    + CategoryWeight * CategoryMatch(terms, meta["category"])
  }

  /** A document is not dated in the future exactly when its age is not negative. */
  lemma AgeNonNegative(c: Codec, now: int, doc: Value)
    requires doc.Obj? && "metadata" in doc.fields && doc.fields["metadata"].Obj?
    requires var meta := doc.fields["metadata"].fields;
             "timestamp" in meta && meta["timestamp"].Str? && c.parseTime(meta["timestamp"].s).Some?
    ensures Age(c, now, doc) >= 0 <==> c.parseTime(doc.fields["metadata"].fields["timestamp"].s).value <= now
  {
    DaysAtLeast(now, c.parseTime(doc.fields["metadata"].fields["timestamp"].s).value, 0);
  }
}
