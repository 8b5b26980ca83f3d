/**
 * The complexity classifier of `EnhancedDocumentation._assess_complexity`: counts the
 * occurrences of three fixed word lists in the serialised content.
 */
module Complexity {
  import opened Text
  import opened Json

  datatype Level = High | Medium | Low {
    function Label(): string {
      match this
      case High => "high"
      case Medium => "medium"
      case Low => "low"
    }

    /** Position in the indicator table, which is also the order ties are broken in. */
    function Rank(): nat {
      match this
      case High => 0
      case Medium => 1
      case Low => 2
    }
  }

  function Indicators(l: Level): (ws: seq<string>)
    ensures forall i :: 0 <= i < |ws| ==> |ws[i]| > 0
  {
    match l
    case High => ["advanced", "complex", "sophisticated", "optimization",
                  "distributed", "concurrent", "scalable", "enterprise"]
    case Medium => ["intermediate", "moderate", "standard", "implementation",
                    "integration", "component", "module"]
    case Low => ["basic", "simple", "beginner", "introduction",
                 "starter", "fundamental", "easy"]
  }

  /** `sum(text.count(w) for w in ws)` */
  function IndicatorCount(text: string, ws: seq<string>): nat
    requires forall i :: 0 <= i < |ws| ==> |ws[i]| > 0
  {
    if ws == [] then 0
    else
      var init := ws[..|ws| - 1];
      assert forall i :: 0 <= i < |init| ==> init[i] == ws[i];
      IndicatorCount(text, init) + Count(text, ws[|ws| - 1])
  }

  /** The count is zero exactly when none of the words occurs in the text. */
  lemma {:induction false} IndicatorCountZero(text: string, ws: seq<string>)
    requires forall i :: 0 <= i < |ws| ==> |ws[i]| > 0
    ensures IndicatorCount(text, ws) == 0 <==> forall i :: 0 <= i < |ws| ==> !Contains(text, ws[i])
    decreases |ws|
  {
    if ws != [] {
      var init := ws[..|ws| - 1];
      assert forall i :: 0 <= i < |init| ==> init[i] == ws[i];
      IndicatorCountZero(text, init);
    }
  }

  function Score(text: string, l: Level): nat {
    IndicatorCount(text, Indicators(l))
  }

  predicate NoIndicators(text: string) {
    Score(text, High) == 0 && Score(text, Medium) == 0 && Score(text, Low) == 0
  }

  /** The level `l` has the largest of the three counts, and no level ahead of it in the table ties it. */
  predicate FirstMaximal(h: nat, m: nat, w: nat, l: Level) {
    var s := match l case High => h case Medium => m case Low => w;
    && s >= h && s >= m && s >= w
    && (l != High ==> h < s)
    && (l == Low ==> m < s)
  }

  /**
   * The level of a lower-cased text: `medium` when no indicator occurs; otherwise a
   * level with the largest count, the earliest of high, medium, low among equal counts.
   */
  function ComplexityOf(text: string): (l: Level)
    ensures NoIndicators(text) ==> l == Medium
    ensures !NoIndicators(text) ==> FirstMaximal(Score(text, High), Score(text, Medium), Score(text, Low), l)
  {
    var h, m, w := Score(text, High), Score(text, Medium), Score(text, Low);
    if h == 0 && m == 0 && w == 0 then Medium
    else if h >= m && h >= w then High
    else if m >= w then Medium
    else Low
  }

  /** `_assess_complexity(content)`: fills a table of counts per level, then takes the first maximum. */
  method AssessComplexity(c: Codec, content: Value) returns (level: Level)
    ensures level == ComplexityOf(Lower(c.dumps(content)))
  {
    var text := Lower(c.dumps(content));
    var levels := [High, Medium, Low];
    var scores: map<Level, nat> := map[];
    var i := 0;
    while i < |levels|
      invariant 0 <= i <= |levels|
      invariant forall j :: 0 <= j < i ==> levels[j] in scores && scores[levels[j]] == Score(text, levels[j])
    {
      scores := scores[levels[i] := IndicatorCount(text, Indicators(levels[i]))];
      i := i + 1;
    }
    assert levels[0] == High && levels[1] == Medium && levels[2] == Low;
    assert scores[High] == Score(text, High) && scores[Medium] == Score(text, Medium) && scores[Low] == Score(text, Low);
    if scores[High] == 0 && scores[Medium] == 0 && scores[Low] == 0 {
      return Medium;
    }
    level := FirstMaximum(scores);
    FirstMaximalIsUnique(Score(text, High), Score(text, Medium), Score(text, Low), level, ComplexityOf(text));
  }

  /** `max(scores.items(), key=...)`: the first level, in table order, with the largest count. */
  method FirstMaximum(scores: map<Level, nat>) returns (level: Level)
    requires High in scores && Medium in scores && Low in scores
    ensures FirstMaximal(scores[High], scores[Medium], scores[Low], level)
  {
    var levels := [High, Medium, Low];
    level := levels[0];
    var i := 1;
    while i < |levels|
      invariant 1 <= i <= |levels|
      invariant level in scores && level.Rank() < i
      invariant forall j :: 0 <= j < i ==> levels[j] in scores && scores[levels[j]] <= scores[level]
      invariant forall j :: 0 <= j < i && levels[j].Rank() < level.Rank() ==> scores[levels[j]] < scores[level]
    {
      if scores[levels[i]] > scores[level] {
        level := levels[i];
      }
      i := i + 1;
    }
    assert levels[0] == High && levels[1] == Medium && levels[2] == Low;
  }

  /** A text in which no indicator of any level occurs is of medium complexity. */
  lemma NoIndicatorIsMedium(text: string)
    requires forall l: Level, i :: 0 <= i < |Indicators(l)| ==> !Contains(text, Indicators(l)[i])
    ensures ComplexityOf(text) == Medium
  {
    IndicatorCountZero(text, Indicators(High));
    IndicatorCountZero(text, Indicators(Medium));
    IndicatorCountZero(text, Indicators(Low));
  }

  /** A text in which some indicator of a level occurs has a non-zero count for that level. */
  lemma IndicatorOccurs(text: string, l: Level, i: nat)
    requires i < |Indicators(l)| && Contains(text, Indicators(l)[i])
    ensures Score(text, l) > 0 && !NoIndicators(text)
  {
    IndicatorCountZero(text, Indicators(l));
  }

  /** Two levels that are both the first maximum of the same counts are the same level. */
  lemma FirstMaximalIsUnique(h: nat, m: nat, w: nat, l1: Level, l2: Level)
    requires FirstMaximal(h, m, w, l1) && FirstMaximal(h, m, w, l2)
    ensures l1 == l2
  {
  }
}
