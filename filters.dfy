/**
 * The filter language of `search_documentation`: each metadata key is matched by
 * equality, list membership, or a dictionary of operator conditions. Comparisons follow
 * Python's rules for decoded values; an evaluation that raises `TypeError` is a `None`
 * outcome.
 */
module Filters {
  import opened Wrappers
  import opened Text
  import opened Json

  // ---------------------------------------------------------------------------
  // Python's ordering of decoded values

  /** The first index at which the lists differ under `==`, or the length of the shorter one. */
  function FirstDifference(xs: seq<Value>, ys: seq<Value>): (i: nat)
    ensures i <= |xs| && i <= |ys|
    ensures forall j :: 0 <= j < i ==> Equals(xs[j], ys[j])
    ensures i < |xs| && i < |ys| ==> !Equals(xs[i], ys[i])
  {
    if xs == [] || ys == [] || !Equals(xs[0], ys[0]) then 0
    else 1 + FirstDifference(xs[1..], ys[1..])
  }

  /**
   * Python's `x < y` (when `strict`) or `x <= y`; `None` where it raises `TypeError`.
   * Numbers (booleans included) and strings compare among themselves; lists compare
   * their first differing elements, or else their lengths.
   */
  function Compare(x: Value, y: Value, strict: bool): Option<bool> {
    if Numeric(x) && Numeric(y) then
      Some(if strict then NumberOf(x) < NumberOf(y) else NumberOf(x) <= NumberOf(y))
    else if x.Str? && y.Str? then
      Some(StrLess(x.s, y.s) || (!strict && x.s == y.s))
    else if x.Arr? && y.Arr? then
      var i := FirstDifference(x.items, y.items);
      if i < |x.items| && i < |y.items| then Compare(x.items[i], y.items[i], strict)
      else Some(if strict then |x.items| < |y.items| else |x.items| <= |y.items|)
    else None
  }

  /** The values Python can order against each other without a `TypeError`. */
  predicate Orderable(x: Value, y: Value) {
    || (Numeric(x) && Numeric(y))
    || (x.Str? && y.Str?)
    || (x.Arr? && y.Arr? &&
        var i := FirstDifference(x.items, y.items);
        i < |x.items| && i < |y.items| ==> Orderable(x.items[i], y.items[i]))
  }

  lemma {:induction false} EqualsSymmetric(x: Value, y: Value)
    ensures Equals(x, y) == Equals(y, x)
  {
    match (x, y)
    case (Arr(xs), Arr(ys)) =>
      if |xs| == |ys| {
        forall i | 0 <= i < |xs| ensures Equals(xs[i], ys[i]) == Equals(ys[i], xs[i]) {
          EqualsSymmetric(xs[i], ys[i]);
        }
      }
    case (Obj(m), Obj(n)) =>
      if m.Keys == n.Keys {
        forall k | k in m ensures Equals(m[k], n[k]) == Equals(n[k], m[k]) {
          EqualsSymmetric(m[k], n[k]);
        }
      }
    case _ =>
  }

  lemma {:induction false} FirstDifferenceSymmetric(xs: seq<Value>, ys: seq<Value>)
    ensures FirstDifference(xs, ys) == FirstDifference(ys, xs)
  {
    if xs != [] && ys != [] {
      EqualsSymmetric(xs[0], ys[0]);
      FirstDifferenceSymmetric(xs[1..], ys[1..]);
    }
  }

  /** A comparison raises exactly on operands that are not orderable. */
  lemma {:induction false} CompareDefined(x: Value, y: Value, strict: bool)
    ensures Compare(x, y, strict).Some? <==> Orderable(x, y)
  {
    if !(Numeric(x) && Numeric(y)) && !(x.Str? && y.Str?) && x.Arr? && y.Arr? {
      var i := FirstDifference(x.items, y.items);
      if i < |x.items| && i < |y.items| {
        CompareDefined(x.items[i], y.items[i], strict);
      }
    }
  }

  lemma {:induction false} OrderableSymmetric(x: Value, y: Value)
    ensures Orderable(x, y) == Orderable(y, x)
  {
    if !(Numeric(x) && Numeric(y)) && !(x.Str? && y.Str?) && x.Arr? && y.Arr? {
      FirstDifferenceSymmetric(x.items, y.items);
      var i := FirstDifference(x.items, y.items);
      if i < |x.items| && i < |y.items| {
        OrderableSymmetric(x.items[i], y.items[i]);
      }
    }
  }

  /** On orderable operands, `x <= y` is `not y < x`, and it is `x < y or x == y`. */
  lemma {:induction false} CompareTotal(x: Value, y: Value)
    requires Orderable(x, y)
    ensures Compare(x, y, false).Some? && Compare(y, x, true).Some? && Compare(x, y, true).Some?
    ensures Compare(x, y, false).value == !Compare(y, x, true).value
    ensures Compare(x, y, false).value == (Compare(x, y, true).value || Equals(x, y))
  {
    OrderableSymmetric(x, y);
    CompareDefined(x, y, false);
    CompareDefined(y, x, true);
    CompareDefined(x, y, true);
    if Numeric(x) && Numeric(y) {
    } else if x.Str? && y.Str? {
      StrLessTotal(x.s, y.s);
      StrLessAsymmetric(x.s, y.s);
      StrLessIrreflexive(x.s);
    } else {
      var xs, ys := x.items, y.items;
      FirstDifferenceSymmetric(xs, ys);
      var i := FirstDifference(xs, ys);
      if i < |xs| && i < |ys| {
        CompareTotal(xs[i], ys[i]);
        assert !Equals(x, y);
      } else if |xs| == |ys| {
        assert Equals(x, y);
      } else {
        assert !Equals(x, y);
      }
    }
  }

  // ---------------------------------------------------------------------------
  // Conditions

  const OrderOperators: set<string> := {"gt", "gte", "lt", "lte"}
  const KnownOperators: set<string> := OrderOperators + {"contains", "in"}

  /** `_check_filter_condition(x, op, y)`; `None` where the operator raises `TypeError`. */
  function CheckCondition(x: Value, op: string, y: Value): (r: Option<bool>)
    ensures op == "contains" ==> (r.None? <==> x.Str? && !y.Str?)
    ensures op == "contains" && r.Some? ==>
              (r.value <==> (x.Str? && Contains(x.s, y.s)) || (x.Arr? && Among(y, x.items)))
    ensures op == "in" ==> r.Some? && (r.value <==> y.Arr? && Among(x, y.items))
  {
    if op == "gt" then Compare(y, x, true)
    else if op == "gte" then Compare(y, x, false)
    else if op == "lt" then Compare(x, y, true)
    else if op == "lte" then Compare(x, y, false)
    else if op == "contains" then
      (if x.Str? then (if y.Str? then Some(Contains(x.s, y.s)) else None)
       else if x.Arr? then Some(exists i :: 0 <= i < |x.items| && Equals(x.items[i], y))
       else Some(false))
    else if op == "in" then
      Some(y.Arr? && exists i :: 0 <= i < |y.items| && Equals(y.items[i], x))
    else Some(Equals(x, y))
  }

  /** An unknown operator falls back to `x == y`. */
  lemma UnknownOperatorIsEquality(x: Value, op: string, y: Value)
    requires op !in KnownOperators
    ensures CheckCondition(x, op, y) == Some(Equals(x, y))
  {
  }

  /** The ordering operators raise exactly on operands that are not orderable. */
  lemma OrderingRaises(x: Value, op: string, y: Value)
    requires op in OrderOperators
    ensures CheckCondition(x, op, y).None? <==> !Orderable(x, y)
  {
    CompareDefined(x, y, true);
    CompareDefined(x, y, false);
    CompareDefined(y, x, true);
    CompareDefined(y, x, false);
    OrderableSymmetric(x, y);
  }

  /** On orderable operands the four ordering operators agree with one total order. */
  lemma OrderOperatorsAgree(x: Value, y: Value)
    requires Orderable(x, y)
    ensures CheckCondition(x, "gt", y) == CheckCondition(y, "lt", x)
    ensures CheckCondition(x, "gte", y) == Some(CheckCondition(x, "lt", y) != Some(true))
    ensures CheckCondition(x, "lte", y) == Some(CheckCondition(x, "gt", y) != Some(true))
    ensures CheckCondition(x, "gte", y) == Some(CheckCondition(x, "gt", y) == Some(true) || Equals(x, y))
  {
    OrderableSymmetric(x, y);
    CompareTotal(x, y);
    CompareTotal(y, x);
    EqualsSymmetric(x, y);
  }

  // ---------------------------------------------------------------------------
  // Filter entries

  /** `doc.get('metadata', {})` */
  function Metadata(doc: Value): Value
    requires doc.Obj?
  {
    Get(doc.fields, "metadata", Obj(map[]))
  }

  /** `key in metadata`; `None` where the metadata is not a container (`TypeError`). */
  function HasKey(metadata: Value, key: string): (r: Option<bool>)
    ensures metadata.Obj? ==> r == Some(key in metadata.fields)
    ensures r.None? <==> !(metadata.Obj? || metadata.Arr? || metadata.Str?)
  {
    match metadata
    case Obj(fields) => Some(key in fields)
    case Arr(items) => Some(Among(Str(key), items))
    case Str(s) => Some(Contains(s, key))
    case _ => None
  }

  /*
   * Python evaluates the filter entries, and the conditions of a dictionary entry, in
   * dictionary order and stops at the first check that fails or raises. The model does
   * not record that order, so a filtering is described by the checks that can fail and
   * the checks that can raise: it returns true when none can do either, false only when
   * one can fail, and raises only when one can raise.
   */

  /** The entry's check of the metadata value `x` can return false: no list element equals it, a condition is false, or it differs from the value. */
  predicate EntryFails(x: Value, value: Value) {
    match value
    case Arr(vs) => !Among(x, vs)
    case Obj(conds) => exists op | op in conds :: CheckCondition(x, op, conds[op]) == Some(false)
    case _ => !Equals(x, value)
  }

  /** The entry's check of `x` can raise: one of its conditions does. */
  predicate EntryRaises(x: Value, value: Value) {
    value.Obj? && exists op | op in value.fields :: CheckCondition(x, op, value.fields[op]).None?
  }

  /** Filtering on `key` can return false: the key is missing, or its entry fails. */
  predicate KeyFails(metadata: Value, key: string, value: Value) {
    || HasKey(metadata, key) == Some(false)
    || (metadata.Obj? && key in metadata.fields && EntryFails(metadata.fields[key], value))
  }

  /** Filtering on `key` can raise: the membership test, indexing a metadata value that is not a dictionary, or a condition. */
  predicate KeyRaises(metadata: Value, key: string, value: Value) {
    || HasKey(metadata, key).None?
    || (HasKey(metadata, key) == Some(true) && !metadata.Obj?)
    || (metadata.Obj? && key in metadata.fields && EntryRaises(metadata.fields[key], value))
  }

  /** `not filters`: no filter dictionary, or an empty one. */
  predicate Unfiltered(filters: Option<Dict>) {
    filters.None? || filters.value == map[]
  }

  /** Some check of a non-trivial filtering can return false. */
  predicate MayFail(doc: Value, filters: Option<Dict>) {
    && !Unfiltered(filters) && doc.Obj?
    && exists key | key in filters.value :: KeyFails(Metadata(doc), key, filters.value[key])
  }

  /** A non-trivial filtering can raise: `doc.get` on a non-dictionary, or some check. */
  predicate MayRaise(doc: Value, filters: Option<Dict>) {
    && !Unfiltered(filters)
    && (!doc.Obj? || exists key | key in filters.value :: KeyRaises(Metadata(doc), key, filters.value[key]))
  }

  /** Filtering the document cannot raise, whatever the dictionary order. */
  predicate FiltersDefined(doc: Value, filters: Option<Dict>) {
    !MayRaise(doc, filters)
  }

  /** The document passes the filters: no check can fail or raise. */
  predicate Matches(doc: Value, filters: Option<Dict>) {
    !MayFail(doc, filters) && !MayRaise(doc, filters)
  }

  /** `all(_check_filter_condition(x, op, val) for op, val in conds.items())`, in some order of `conds`. */
  method AllConditions(x: Value, conds: Dict) returns (outcome: Option<bool>)
    ensures outcome == Some(true) <==> forall op | op in conds :: CheckCondition(x, op, conds[op]) == Some(true)
    ensures outcome == Some(false) ==> exists op | op in conds :: CheckCondition(x, op, conds[op]) == Some(false)
    ensures outcome.None? ==> exists op | op in conds :: CheckCondition(x, op, conds[op]).None?
  {
    var pending := conds.Keys;
    while pending != {}
      invariant pending <= conds.Keys
      invariant forall op | op in conds && op !in pending :: CheckCondition(x, op, conds[op]) == Some(true)
      decreases |pending|
    {
      var op :| op in pending;
      var holds := CheckCondition(x, op, conds[op]);
      if holds != Some(true) {
        assert op in conds;
        return holds;
      }
      pending := pending - {op};
    }
    return Some(true);
  }

  /** Every condition holds exactly when none can fail and none can raise. */
  lemma AllConditionsHold(x: Value, conds: Dict)
    ensures (forall op | op in conds :: CheckCondition(x, op, conds[op]) == Some(true))
        <==> !EntryFails(x, Obj(conds)) && !EntryRaises(x, Obj(conds))
  {
    if !EntryFails(x, Obj(conds)) && !EntryRaises(x, Obj(conds)) {
      forall op | op in conds ensures CheckCondition(x, op, conds[op]) == Some(true) {
        var r := CheckCondition(x, op, conds[op]);
        assert r != Some(false) && r != None;
      }
    }
  }

  /** The loop body of `_matches_filters` for one filter entry `key: value`. */
  method CheckKey(metadata: Value, key: string, value: Value) returns (outcome: Option<bool>)
    ensures outcome == Some(true) <==> !KeyFails(metadata, key, value) && !KeyRaises(metadata, key, value)
    ensures outcome == Some(false) ==> KeyFails(metadata, key, value)
    ensures outcome.None? ==> KeyRaises(metadata, key, value)
  {
    var present := HasKey(metadata, key);
    if present.None? {
      assert KeyRaises(metadata, key, value);
      return None;
    }
    if !present.value {
      assert KeyFails(metadata, key, value);
      return Some(false);
    }
    if !metadata.Obj? {
      assert KeyRaises(metadata, key, value);
      return None;
    }
    var x := metadata.fields[key];
    assert KeyFails(metadata, key, value) <==> EntryFails(x, value);
    assert KeyRaises(metadata, key, value) <==> EntryRaises(x, value);
    if value.Arr? {
      if !(exists i :: 0 <= i < |value.items| && Equals(value.items[i], x)) {
        return Some(false);
      }
    } else if value.Obj? {
      outcome := AllConditions(x, value.fields);
      AllConditionsHold(x, value.fields);
      return;
    } else if !Equals(x, value) {
      return Some(false);
    }
    return Some(true);
  }

  /**
   * `_matches_filters(doc, filters)`: checks the filter entries one by one, in some order
   * of the filter dictionary, and stops at the first that fails or raises.
   */
  method MatchesFilters(doc: Value, filters: Option<Dict>) returns (outcome: Option<bool>)
    ensures outcome == Some(true) <==> Matches(doc, filters)
    ensures outcome == Some(false) ==> MayFail(doc, filters)
    ensures outcome.None? ==> MayRaise(doc, filters)
  {
    if Unfiltered(filters) {
      return Some(true);
    }
    if !doc.Obj? {
      return None;
    }
    var metadata := Metadata(doc);
    var pending := filters.value.Keys;
    while pending != {}
      invariant pending <= filters.value.Keys
      invariant forall key | key in filters.value && key !in pending ::
                  !KeyFails(metadata, key, filters.value[key]) && !KeyRaises(metadata, key, filters.value[key])
      decreases |pending|
    {
      var key :| key in pending;
      var checked := CheckKey(metadata, key, filters.value[key]);
      if checked != Some(true) {
        return checked;
      }
      pending := pending - {key};
    }
    return Some(true);
  }

  /** The outcome is fixed once no check can raise: it is whether no check can fail. */
  lemma DefinedOutcome(doc: Value, filters: Option<Dict>)
    requires FiltersDefined(doc, filters)
    ensures Matches(doc, filters) <==> !MayFail(doc, filters)
    ensures !Unfiltered(filters) ==> doc.Obj? && (Matches(doc, filters) <==>
              && Metadata(doc).Obj?
              && forall key | key in filters.value ::
                   key in Metadata(doc).fields && !EntryFails(Metadata(doc).fields[key], filters.value[key]))
  {
  }

  /** A missing filter key rejects the document unless another check raises. */
  lemma MissingKeyRejects(doc: Value, filters: Option<Dict>, key: string)
    requires filters.Some? && key in filters.value && doc.Obj? && Metadata(doc).Obj?
    requires key !in Metadata(doc).fields
    ensures MayFail(doc, filters) && !Matches(doc, filters)
  {
  }

  /** Booleans compare as numbers and lists compare element-wise, as in Python. */
  lemma ComparisonExamples()
    ensures CheckCondition(Bool(true), "gt", Num(0.0)) == Some(true)
    ensures CheckCondition(Arr([Num(1.0)]), "gt", Arr([])) == Some(true)
    ensures CheckCondition(Arr([Num(1.0), Str("a")]), "lt", Arr([Num(1.0), Num(2.0)])).None?
    ensures CheckCondition(Num(1.0), "in", Arr([Bool(true)])) == Some(true)
  {
    assert FirstDifference([Num(1.0), Str("a")], [Num(1.0), Num(2.0)]) == 1 by {
      assert FirstDifference([Str("a")], [Num(2.0)]) == 0;
    }
    assert Equals(Arr([Bool(true)]).items[0], Num(1.0));
  }

  /** The metadata of the `test_matches_filters` document. */
  const TestDocument := Obj(map["metadata" := Obj(map["category" := Str("testing"), "language" := Str("python"), "complexity" := Str("low")])])

  /** tests/test_documentation.py: a matching filter, a non-matching one, and two filters at once. */
  lemma MatchesFiltersExamples()
    ensures Matches(TestDocument, Some(map["category" := Str("testing")]))
    ensures FiltersDefined(TestDocument, Some(map["category" := Str("security")]))
    ensures !Matches(TestDocument, Some(map["category" := Str("security")]))
    ensures Matches(TestDocument, Some(map["category" := Str("testing"), "language" := Str("python")]))
  {
    var meta := Metadata(TestDocument);
    assert meta.fields["category"] == Str("testing") && meta.fields["language"] == Str("python");
    assert !Equals(Str("testing"), Str("security")) by {
      assert "testing"[0] != "security"[0];
    }
    var security := Some(map["category" := Str("security")]);
    assert "category" in security.value && KeyFails(meta, "category", security.value["category"]);
    assert !KeyFails(meta, "category", Str("testing")) && !KeyRaises(meta, "category", Str("testing"));
    assert !KeyFails(meta, "language", Str("python")) && !KeyRaises(meta, "language", Str("python"));
    var both := map["category" := Str("testing"), "language" := Str("python")];
    assert forall key | key in both :: key == "category" || key == "language";
  }

  /**
   * A failing condition and a raising one on the same key: the outcome is false or a
   * `TypeError`, depending on which of the two the dictionary lists first.
   */
  lemma FailOrRaise()
    ensures var doc := Obj(map["metadata" := Obj(map["x" := Num(5.0)])]);
            var filters := Some(map["x" := Obj(map["lt" := Num(0.0), "gt" := Str("a")])]);
            MayFail(doc, filters) && MayRaise(doc, filters) && !Matches(doc, filters)
  {
    var conds := map["lt" := Num(0.0), "gt" := Str("a")];
    assert CheckCondition(Num(5.0), "lt", conds["lt"]) == Some(false);
    assert CheckCondition(Num(5.0), "gt", conds["gt"]).None?;
    var doc := Obj(map["metadata" := Obj(map["x" := Num(5.0)])]);
    assert Metadata(doc) == Obj(map["x" := Num(5.0)]);
    assert EntryFails(Num(5.0), Obj(conds));
    assert EntryRaises(Num(5.0), Obj(conds));
    var filters := Some(map["x" := Obj(conds)]);
    assert "x" in filters.value && KeyFails(Metadata(doc), "x", filters.value["x"]);
    assert KeyRaises(Metadata(doc), "x", filters.value["x"]);
  }
}
