/**
 * The deterministic parts of `ResearchAgent`: the two text classifiers applied to a
 * research summary, the rule that reuses a recent stored document instead of new
 * research, and the response built from such a document.
 */
module ResearchAgent {
  import opened Wrappers
  import opened Text
  import opened Json
  import opened Sequences
  import Retrieval

  // ---------------------------------------------------------------------------
  // Categories

  /** The category table, in the order the classifier visits it. */
  const CategoryIndicators: seq<(string, seq<string>)> := [
    ("algorithm", ["algorithm", "complexity", "optimization"]),
    ("design_pattern", ["pattern", "design", "architecture"]),
    ("security", ["security", "authentication", "encryption"]),
    ("performance", ["performance", "optimization", "scaling"]),
    ("best_practice", ["practice", "convention", "standard"])
  ]

  const CategoryNames: set<string> := {"algorithm", "design_pattern", "security", "performance", "best_practice"}

  /** Some row of the table names `category` and has an indicator occurring in the text. */
  predicate Indicated(text: string, category: string) {
    exists k | 0 <= k < |CategoryIndicators| :: CategoryIndicators[k].0 == category && MentionsAny(text, CategoryIndicators[k].1)
  }

  /** `_extract_categories(text)`; the order of the set the source converts is modelled as insertion order. */
  method ExtractCategories(text: string) returns (categories: seq<string>)
    ensures NoDuplicates(categories)
    ensures forall name :: name in categories <==> Indicated(text, name)
    ensures forall name | name in categories :: name in CategoryNames
  {
    categories := [];
    for k := 0 to |CategoryIndicators|
      invariant NoDuplicates(categories)
      invariant forall name :: name in categories <==>
                  exists j | 0 <= j < k :: CategoryIndicators[j].0 == name && MentionsAny(text, CategoryIndicators[j].1)
    {
      var (category, indicators) := CategoryIndicators[k];
      if MentionsAny(text, indicators) && category !in categories {
        categories := categories + [category];
      }
    }
  }

  /** Only the five table names can be indicated. */
  lemma IndicatedIsKnown(text: string, category: string)
    requires Indicated(text, category)
    ensures category in CategoryNames
  {
    var k :| 0 <= k < |CategoryIndicators| && CategoryIndicators[k].0 == category && MentionsAny(text, CategoryIndicators[k].1);
    assert k in {0, 1, 2, 3, 4};
  }

  /** `optimization` is an indicator of two rows, so it yields both of their categories. */
  lemma OptimizationIndicatesTwo(text: string)
    requires Contains(Lower(text), "optimization")
    ensures Indicated(text, "algorithm") && Indicated(text, "performance")
  {
    assert CategoryIndicators[0].1[2] == "optimization";
    assert CategoryIndicators[3].1[1] == "optimization";
  }

  /** A text with none of the indicators of a row is not classified under that row's category. */
  lemma UnmentionedNotIndicated(text: string, k: nat)
    requires k < |CategoryIndicators|
    requires forall indicator | indicator in CategoryIndicators[k].1 :: !Contains(Lower(text), indicator)
    ensures !Indicated(text, CategoryIndicators[k].0)
  {
    assert forall j | 0 <= j < |CategoryIndicators| && j != k :: CategoryIndicators[j].0 != CategoryIndicators[k].0;
  }

  // ---------------------------------------------------------------------------
  // Best practices

  const PracticeIndicators: seq<string> := ["best practice", "recommended", "should", "must", "important"]

  /** The stripped lines that mention a practice indicator, in order. */
  function Practices(lines: seq<string>): seq<string>
    decreases |lines|
  {
    if lines == [] then []
    else
      var last := lines[|lines| - 1];
      Practices(lines[..|lines| - 1]) + (if MentionsAny(last, PracticeIndicators) then [Strip(last)] else [])
  }

  /** `_extract_best_practices(text)` */
  method ExtractBestPractices(text: string) returns (practices: seq<string>)
    ensures practices == Practices(Split(text, "\n"))
    ensures |practices| <= |Split(text, "\n")|
  {
    practices := [];
    var lines := Split(text, "\n");
    for i := 0 to |lines|
      invariant practices == Practices(lines[..i])
    {
      assert lines[..i + 1][..i] == lines[..i];
      var line := lines[i];
      if MentionsAny(line, PracticeIndicators) {
        practices := practices + [Strip(line)];
      }
    }
    assert lines[..|lines|] == lines;
    PracticesBound(lines);
  }

  /** Extracting from consecutive blocks of lines concatenates the results: the order of lines is kept. */
  lemma {:induction false} PracticesAppend(a: seq<string>, b: seq<string>)
    ensures Practices(a + b) == Practices(a) + Practices(b)
    decreases |b|
  {
    if b == [] {
      assert a + b == a;
    } else {
      var b' := b[..|b| - 1];
      assert (a + b)[..|a + b| - 1] == a + b';
      PracticesAppend(a, b');
    }
  }

  /** At most one practice per line. */
  lemma {:induction false} PracticesBound(lines: seq<string>)
    ensures |Practices(lines)| <= |lines|
    decreases |lines|
  {
    if lines != [] {
      PracticesBound(lines[..|lines| - 1]);
    }
  }

  /** A practice is exactly the stripped form of some line mentioning an indicator. */
  lemma {:induction false} PracticesMembers(lines: seq<string>, p: string)
    ensures p in Practices(lines) <==> exists line | line in lines :: MentionsAny(line, PracticeIndicators) && Strip(line) == p
    decreases |lines|
  {
    if lines != [] {
      var init := lines[..|lines| - 1];
      PracticesMembers(init, p);
      assert lines == init + [lines[|lines| - 1]];
      assert forall line :: line in lines <==> line in init || line == lines[|lines| - 1];
    }
  }

  // ---------------------------------------------------------------------------
  // Reuse of stored research

  /** A document whose `metadata.timestamp` is a string `datetime.fromisoformat` accepts. */
  predicate Dated(c: Codec, doc: Value) {
    && doc.Obj? && "metadata" in doc.fields && doc.fields["metadata"].Obj?
    && "timestamp" in doc.fields["metadata"].fields && doc.fields["metadata"].fields["timestamp"].Str?
    && c.parseTime(doc.fields["metadata"].fields["timestamp"].s).Some?
  }

  function StampOf(c: Codec, doc: Value): int
    requires Dated(c, doc)
  {
    c.parseTime(doc.fields["metadata"].fields["timestamp"].s).value
  }

  const ReuseDays := 30

  /** Fewer than 30 whole days have passed since the document was stamped. */
  predicate Recent(c: Codec, now: int, doc: Value)
    requires Dated(c, doc)
  {
    DaysBetween(now, StampOf(c, doc)) < ReuseDays
  }

  /** `[doc for doc in docs if (now - stamp).days < 30]` */
  function RecentDocs(c: Codec, now: int, docs: seq<Value>): (r: seq<Value>)
    requires forall d | d in docs :: Dated(c, d)
    ensures forall d | d in r :: d in docs && Recent(c, now, d)
    decreases |docs|
  {
    if docs == [] then []
    else (if Recent(c, now, docs[0]) then [docs[0]] else []) + RecentDocs(c, now, docs[1..])
  }

  /** The first recent document is the earliest-ranked one younger than 30 days, and there is none only when no document is. */
  lemma {:induction false} FirstRecent(c: Codec, now: int, docs: seq<Value>)
    requires forall d | d in docs :: Dated(c, d)
    ensures RecentDocs(c, now, docs) == [] <==> forall d | d in docs :: !Recent(c, now, d)
    ensures RecentDocs(c, now, docs) != [] ==>
              exists k | 0 <= k < |docs| :: docs[k] == RecentDocs(c, now, docs)[0] && Recent(c, now, docs[k])
                                           && forall j | 0 <= j < k :: !Recent(c, now, docs[j])
    decreases |docs|
  {
    if docs != [] {
      var tail := docs[1..];
      FirstRecent(c, now, tail);
      assert forall d :: d in docs <==> d == docs[0] || d in tail;
      if Recent(c, now, docs[0]) {
        assert RecentDocs(c, now, docs)[0] == docs[0];
      } else {
        assert RecentDocs(c, now, docs) == RecentDocs(c, now, tail);
        if RecentDocs(c, now, tail) != [] {
          var k :| 0 <= k < |tail| && tail[k] == RecentDocs(c, now, tail)[0] && Recent(c, now, tail[k])
                   && forall j | 0 <= j < k :: !Recent(c, now, tail[j]);
          assert docs[k + 1] == tail[k];
          forall j | 0 <= j < k + 1 ensures !Recent(c, now, docs[j]) {
            if j > 0 { assert docs[j] == tail[j - 1]; }
          }
        }
      }
    }
  }

  /** A stored document with the fields a documented response reads. */
  predicate Answerable(doc: Value) {
    && doc.Obj? && "metadata" in doc.fields && doc.fields["metadata"].Obj?
    && "query" in doc.fields["metadata"].fields && "timestamp" in doc.fields["metadata"].fields
    && "content" in doc.fields && doc.fields["content"].Obj?
    && "results" in doc.fields["content"].fields && "summary" in doc.fields["content"].fields
  }

  const ResponseKeys: set<string> := {"query", "timestamp", "results", "summary", "source", "categories", "best_practices"}

  /** `_prepare_documented_response(doc)` */
  function PrepareDocumentedResponse(doc: Value): (r: Dict)
    requires Answerable(doc)
    ensures r.Keys == ResponseKeys
    ensures r["source"] == Str("documentation")
    ensures r["query"] == doc.fields["metadata"].fields["query"]
    ensures r["timestamp"] == doc.fields["metadata"].fields["timestamp"]
    ensures r["summary"] == doc.fields["content"].fields["summary"]
    ensures r["results"] == doc.fields["content"].fields["results"]
    ensures "categories" in doc.fields["content"].fields ==> r["categories"] == doc.fields["content"].fields["categories"]
    ensures "categories" !in doc.fields["content"].fields ==> r["categories"] == Arr([])
    ensures "best_practices" in doc.fields["content"].fields ==> r["best_practices"] == doc.fields["content"].fields["best_practices"]
    ensures "best_practices" !in doc.fields["content"].fields ==> r["best_practices"] == Arr([])
  {
    var meta := doc.fields["metadata"].fields;
    var content := doc.fields["content"].fields;
    map[
      "query" := meta["query"],
      "timestamp" := meta["timestamp"],
      "results" := content["results"],
      "summary" := content["summary"],
      "source" := Str("documentation"),
      "categories" := Get(content, "categories", Arr([])),
      "best_practices" := Get(content, "best_practices", Arr([]))
    ]
  }

  /** The results of the search can be dated, and the one `research` would reuse is answerable. */
  predicate ReuseReadable(c: Codec, now: int, existing: seq<Value>) {
    && (forall d | d in existing :: Dated(c, d))
    && (RecentDocs(c, now, existing) != [] ==> Answerable(RecentDocs(c, now, existing)[0]))
  }

  /** The response built from the first result younger than 30 days, if any. */
  function ReuseFrom(c: Codec, now: int, existing: seq<Value>): (r: Option<Dict>)
    requires ReuseReadable(c, now, existing)
    ensures r.Some? ==> "source" in r.value && r.value["source"] == Str("documentation")
  {
    if existing == [] then None
    else
      var recent := RecentDocs(c, now, existing);
      if recent == [] then None else Some(PrepareDocumentedResponse(recent[0]))
  }

  /** What `research` needs of the stored documents: they can be searched, and the results are readable. */
  predicate ReuseDefined(c: Codec, now: int, records: seq<string>, query: string) {
    Retrieval.Searchable(c, records, query, None) && ReuseReadable(c, now, Retrieval.Search(c, now, records, query, None))
  }

  /**
   * The opening of `research(query)`: with documentation storage enabled, the response
   * built from the first stored result younger than 30 days; `None` where the agent
   * goes on to search the web.
   */
  function ReusedResponse(c: Codec, now: int, storage: bool, records: seq<string>, query: string): (r: Option<Dict>)
    requires storage ==> ReuseDefined(c, now, records, query)
    ensures r.Some? ==> storage && "source" in r.value && r.value["source"] == Str("documentation")
  {
    if storage then ReuseFrom(c, now, Retrieval.Search(c, now, records, query, None)) else None
  }

  /** Stored research is reused exactly when some result is younger than 30 days, and then it is the first such result. */
  lemma ReuseIffRecent(c: Codec, now: int, existing: seq<Value>)
    requires ReuseReadable(c, now, existing)
    ensures ReuseFrom(c, now, existing).Some? <==> exists d | d in existing :: Recent(c, now, d)
    ensures ReuseFrom(c, now, existing).Some? ==>
              exists k | 0 <= k < |existing| :: Recent(c, now, existing[k]) && (forall j | 0 <= j < k :: !Recent(c, now, existing[j]))
                                              && Answerable(existing[k])
                                              && ReuseFrom(c, now, existing).value == PrepareDocumentedResponse(existing[k])
  {
    FirstRecent(c, now, existing);
  }

  /** Without documentation storage, `research` always searches anew. */
  lemma NoStorageNoReuse(c: Codec, now: int, records: seq<string>, query: string)
    ensures ReusedResponse(c, now, false, records, query).None?
  {
  }
}

/**
 * The deterministic part of `CodingAgent.implement`: splitting the model's answer into
 * an explanation and the code of its triple-backtick fences.
 */
module CodingAgent {
  import opened Wrappers
  import opened Text
  import opened Json
  import opened Sequences

  const Fence := "```"
  const PythonTag := "python"

  /** One fenced segment: a leading `python` tag is dropped, and the rest is stripped. */
  function Snippet(segment: string): (r: string)
    ensures |r| <= |segment|
    ensures r == [] || (!IsSpace(r[0]) && !IsSpace(r[|r| - 1]))
  {
    if StartsWith(segment, PythonTag) then
      StripTrims(segment[|PythonTag|..]);
      Strip(segment[|PythonTag|..])
    else
      StripTrims(segment);
      Strip(segment)
  }

  /** The `j`-th odd position of a list of `n` segments lies inside it. */
  lemma OddPosition(n: nat, j: nat)
    requires j < n / 2
    ensures 2 * j + 1 < n
  {
  }

  /** What the segments at odd positions of the split, the fenced ones, add to the code: each snippet and a blank line. */
  function CodePieces(parts: seq<string>): (pieces: seq<string>)
    ensures |pieces| == |parts| / 2
  {
    seq(|parts| / 2, j requires 0 <= j < |parts| / 2 => OddPosition(|parts|, j); Snippet(parts[2 * j + 1]) + "\n\n")
  }

  datatype Implementation = Implementation(explanation: string, code: Option<string>, findings: Dict, stamp: string)

  /** The explanation: the stripped text before the first fence, or the whole stripped text without one. */
  function ExplanationOf(content: string): string {
    if Contains(content, Fence) then Strip(Split(content, Fence)[0]) else Strip(content)
  }

  /** The code: the stripped concatenation of the fenced snippets, or `None` without a fence. */
  function CodeOf(content: string): (code: Option<string>)
    ensures code.None? <==> !Contains(content, Fence)
    ensures code.Some? ==> code.value == [] || (!IsSpace(code.value[0]) && !IsSpace(code.value[|code.value| - 1]))
  {
    StripTrims(Concat(CodePieces(Split(content, Fence))));
    if Contains(content, Fence) then Some(Strip(Concat(CodePieces(Split(content, Fence))))) else None
  }

  /** The `code +=` loop over the segments at odd positions `i = 2 * j + 1`. */
  method FenceCode(parts: seq<string>) returns (code: string)
    ensures code == Concat(CodePieces(parts))
    ensures code != [] <==> |parts| >= 2
  {
    code := "";
    for j := 0 to |parts| / 2
      invariant code == Concat(CodePieces(parts)[..j])
      invariant code != [] <==> j > 0
    {
      OddPosition(|parts|, j);
      var segment := parts[2 * j + 1];
      var snippet;
      if StartsWith(segment, PythonTag) {
        snippet := Strip(segment[|PythonTag|..]);
      } else {
        snippet := Strip(segment);
      }
      ConcatStep(CodePieces(parts), j);
      code := code + (snippet + "\n\n");
    }
    assert CodePieces(parts)[..|parts| / 2] == CodePieces(parts);
  }

  /**
   * `implement(research_findings, request)` once the model has answered with `content`
   * at the time printed as `stamp`.
   */
  method Implement(findings: Dict, content: string, stamp: string) returns (r: Implementation)
    requires "summary" in findings
    ensures r.explanation == ExplanationOf(content)
    ensures r.code == CodeOf(content)
    ensures r.findings == findings && r.stamp == stamp
  {
    var explanation := content;
    var code := "";
    if Contains(content, Fence) {
      var parts := Split(content, Fence);
      SplitWithSeparator(content, Fence);
      explanation := parts[0];
      code := FenceCode(parts);
    }
    r := Implementation(Strip(explanation), if code != [] then Some(Strip(code)) else None, findings, stamp);
  }

  /** With a fence present the explanation is exactly the stripped text before the first fence. */
  lemma ExplanationBeforeFence(content: string)
    requires Contains(content, Fence)
    ensures Find(content, Fence).Some?
    ensures ExplanationOf(content) == Strip(content[..Find(content, Fence).value])
  {
    SplitWithSeparator(content, Fence);
  }

  /** Trailing newlines after a text that does not end in whitespace are stripped off exactly. */
  lemma TrailingBlankLine(t: string)
    requires t != [] && !IsSpace(t[|t| - 1])
    ensures StripRight(t + "\n\n") == t
  {
    var padded := t + "\n\n";
    assert padded[..|padded| - 1] == t + "\n";
    assert (t + "\n")[..|t|] == t;
  }

  /** A snippet followed by its blank line strips back to the snippet. */
  lemma StripBlock(s: string)
    ensures Strip(Strip(s) + "\n\n") == Strip(s)
  {
    var t := Strip(s);
    StripTrims(s);
    if t == [] {
      StripTrims(t + "\n\n");
    } else {
      assert (t + "\n\n")[0] == t[0];
      assert StripLeft(t + "\n\n") == t + "\n\n";
      TrailingBlankLine(t);
    }
  }

  /** An answer with one fenced block yields exactly that block's snippet as its code. */
  lemma OneBlock(content: string)
    requires Count(content, Fence) == 1 || Count(content, Fence) == 2
    ensures |Split(content, Fence)| >= 2
    ensures CodeOf(content) == Some(Snippet(Split(content, Fence)[1]))
  {
    SplitLength(content, Fence);
    var parts := Split(content, Fence);
    var pieces := CodePieces(parts);
    assert pieces == [pieces[0]];
    ConcatOne(pieces[0]);
    var segment := parts[1];
    if StartsWith(segment, PythonTag) {
      StripBlock(segment[|PythonTag|..]);
    } else {
      StripBlock(segment);
    }
  }
}
