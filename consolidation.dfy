/**
 * `MemoryOptimizer.consolidate_memory`: the decodable documentation records of the
 * archival log are grouped by `type_topic`; every group of two or more documents is
 * merged into its newest entry, and one `DOCUMENTATION_MERGED_<key>` record is
 * appended per merged group.
 */
module Consolidation {
  import opened Wrappers
  import opened Text
  import opened Json
  import opened Records
  import opened Sequences
  import StableSort
  import Documentation
  import Filters

  // ---------------------------------------------------------------------------
  // Recursive merge

  /** The elements of `s`, each once, in order of first occurrence. */
  function Dedup(s: seq<Value>): (r: seq<Value>)
    ensures NoDuplicates(r)
    ensures forall x :: x in r <==> x in s
  {
    if s == [] then []
    else
      var r := Dedup(s[..|s| - 1]);
      assert forall x :: x in s <==> x in s[..|s| - 1] || x == s[|s| - 1] by {
        assert s == s[..|s| - 1] + [s[|s| - 1]];
      }
      if s[|s| - 1] in r then r else r + [s[|s| - 1]]
  }

  /** `list(set(a + b))`: every element of either list, once. */
  function ListUnion(a: seq<Value>, b: seq<Value>): (r: seq<Value>)
    ensures NoDuplicates(r)
    ensures forall x :: x in r <==> x in a || x in b
  {
    Dedup(a + b)
  }

  /** The dictionary `_recursive_merge(base, new)` leaves in `base`. */
  function Merge(base: Dict, incoming: Dict): (m: Dict)
    ensures m.Keys == base.Keys + incoming.Keys
    decreases Obj(incoming), 1
  {
    map k | k in base.Keys + incoming.Keys :: MergeAt(base, incoming, k)
  }

  /** The value of one key after the merge. */
  function MergeAt(base: Dict, incoming: Dict, k: string): Value
    requires k in base || k in incoming
    decreases Obj(incoming), 0
  {
    if k !in base then incoming[k]
    else if k !in incoming then base[k]
    else if base[k].Obj? && incoming[k].Obj? then Obj(Merge(base[k].fields, incoming[k].fields))
    else if base[k].Arr? && incoming[k].Arr? then Arr(ListUnion(base[k].items, incoming[k].items))
    else base[k]
  }

  /** `_recursive_merge(base, new)`: rewrites the entries of `base` one key of `new` at a time. */
  method RecursiveMerge(base: Dict, incoming: Dict) returns (merged: Dict)
    ensures merged == Merge(base, incoming)
    decreases Obj(incoming)
  {
    merged := base;
    var pending := incoming.Keys;
    while pending != {}
      invariant pending <= incoming.Keys
      invariant MergedExcept(base, incoming, merged, pending)
      decreases |pending|
    {
      var key :| key in pending;
      var value := incoming[key];
      if key !in merged {
        merged := merged[key := value];
      } else if merged[key].Obj? && value.Obj? {
        var inner := RecursiveMerge(merged[key].fields, value.fields);
        merged := merged[key := Obj(inner)];
      } else if merged[key].Arr? && value.Arr? {
        merged := merged[key := Arr(ListUnion(merged[key].items, value.items))];
      } else {
        MergeKeepsBase(base, incoming, merged, pending, key);
      }
      pending := pending - {key};
    }
    MergedAll(base, incoming, merged);
  }

  /** `merged` is the merge of `base` and `incoming`, except that the keys `pending` of `incoming` are not merged yet. */
  predicate MergedExcept(base: Dict, incoming: Dict, merged: Dict, pending: set<string>) {
    && merged.Keys == base.Keys + (incoming.Keys - pending)
    && forall k | k in merged ::
         merged[k] == (if k in incoming && k !in pending then MergeAt(base, incoming, k) else base[k])
  }

  lemma MergeKeepsBase(base: Dict, incoming: Dict, merged: Dict, pending: set<string>, key: string)
    requires pending <= incoming.Keys && key in pending && MergedExcept(base, incoming, merged, pending)
    requires key in merged && !(merged[key].Obj? && incoming[key].Obj?) && !(merged[key].Arr? && incoming[key].Arr?)
    ensures MergedExcept(base, incoming, merged, pending - {key})
  {
  }

  lemma MergedAll(base: Dict, incoming: Dict, merged: Dict)
    requires MergedExcept(base, incoming, merged, {})
    ensures merged == Merge(base, incoming)
  {
  }

  /** Keys missing from the base take the incoming value; keys only in the base keep theirs. */
  lemma MergeTakesMissing(base: Dict, incoming: Dict, k: string)
    requires k in base || k in incoming
    ensures k in Merge(base, incoming)
    ensures k !in base ==> Merge(base, incoming)[k] == incoming[k]
    ensures k !in incoming ==> Merge(base, incoming)[k] == base[k]
  {
  }

  /** On a conflict that is neither two dictionaries nor two lists, the base value wins. */
  lemma MergeBaseWins(base: Dict, incoming: Dict, k: string)
    requires k in base && k in incoming
    requires !(base[k].Obj? && incoming[k].Obj?) && !(base[k].Arr? && incoming[k].Arr?)
    ensures Merge(base, incoming)[k] == base[k]
  {
  }

  /** Two lists become their union, without duplicates. */
  lemma MergeLists(base: Dict, incoming: Dict, k: string)
    requires k in base && k in incoming && base[k].Arr? && incoming[k].Arr?
    ensures Merge(base, incoming)[k].Arr?
    ensures NoDuplicates(Merge(base, incoming)[k].items)
    ensures forall x :: x in Merge(base, incoming)[k].items <==> x in base[k].items || x in incoming[k].items
  {
  }

  /** Two dictionaries are merged by the same rules, one level down. */
  lemma MergeNested(base: Dict, incoming: Dict, k: string)
    requires k in base && k in incoming && base[k].Obj? && incoming[k].Obj?
    ensures Merge(base, incoming)[k] == Obj(Merge(base[k].fields, incoming[k].fields))
  {
  }

  /** Merging dictionaries with no key in common puts them side by side. */
  lemma MergeDisjoint(base: Dict, incoming: Dict)
    requires base.Keys !! incoming.Keys
    ensures Merge(base, incoming) == base + incoming
  {
  }

  /** Merging an empty dictionary leaves the base as it was. */
  lemma MergeNothing(base: Dict)
    ensures Merge(base, map[]) == base
  {
  }

  // ---------------------------------------------------------------------------
  // Merging a group

  /** A dictionary with a `type` and a dictionary `content`: what the grouping key needs. */
  predicate Keyable(doc: Value) {
    doc.Obj? && "type" in doc.fields && "content" in doc.fields && doc.fields["content"].Obj?
  }

  function ContentOf(doc: Value): Dict
    requires Keyable(doc)
  {
    doc.fields["content"].fields
  }

  /** The entry carries a top-level `timestamp`, which the sort key reads. */
  predicate Stamped(doc: Value) {
    doc.Obj? && "timestamp" in doc.fields
  }

  function TimestampOf(doc: Value): Value {
    if Stamped(doc) then doc.fields["timestamp"] else Null
  }

  /** The kinds of sort keys: numbers (booleans included), then strings, then anything else. */
  function KindRank(v: Value): nat {
    if Numeric(v) then 0 else if v.Str? then 1 else 2
  }

  /**
   * A strict weak order on sort keys that is Python's `<` among numbers and among
   * strings, the two kinds of timestamp a sort of the group accepts.
   */
  predicate KeyLess(x: Value, y: Value) {
    if Numeric(x) && Numeric(y) then NumberOf(x) < NumberOf(y)
    else if x.Str? && y.Str? then StrLess(x.s, y.s)
    else KindRank(x) < KindRank(y)
  }

  /** Among numbers and among strings, `KeyLess` is exactly Python's `x < y`. */
  lemma KeyLessIsPython(x: Value, y: Value)
    requires (Numeric(x) && Numeric(y)) || (x.Str? && y.Str?)
    ensures Filters.Compare(x, y, true) == Some(KeyLess(x, y))
  {
  }

  /** The sort can compare the timestamps without a `TypeError`: they are all numbers, or all strings. */
  predicate SortableStamps(entries: seq<Value>) {
    || |entries| <= 1
    || (forall e | e in entries :: Numeric(TimestampOf(e)))
    || (forall e | e in entries :: TimestampOf(e).Str?)
  }

  /** `key=lambda x: x['timestamp'], reverse=True`: later timestamps first. */
  const NewerFirst := (a: Value, b: Value) => KeyLess(TimestampOf(b), TimestampOf(a))

  lemma KeyNotLessTransitive(x: Value, y: Value, z: Value)
    requires !KeyLess(x, y) && !KeyLess(y, z)
    ensures !KeyLess(x, z)
  {
    if x.Str? && y.Str? && z.Str? {
      StrNotLessTransitive(x.s, y.s, z.s);
    }
  }

  lemma NewerFirstOrdersWeakly()
    ensures StableSort.StrictWeakOrder(NewerFirst)
  {
    forall x: Value, y: Value | NewerFirst(x, y) ensures !NewerFirst(y, x) {
      var tx, ty := TimestampOf(x), TimestampOf(y);
      if tx.Str? && ty.Str? {
        StrLessAsymmetric(ty.s, tx.s);
      }
    }
    forall x: Value, y: Value, z: Value | !NewerFirst(x, y) && !NewerFirst(y, z) ensures !NewerFirst(x, z) {
      KeyNotLessTransitive(TimestampOf(z), TimestampOf(y), TimestampOf(x));
    }
  }

  /** `entries.sort(key=lambda x: x['timestamp'], reverse=True)` */
  function ByRecency(entries: seq<Value>): (sorted: seq<Value>)
    ensures |sorted| == |entries|
    ensures forall e | e in sorted :: e in entries
  {
    StableSort.SortPermutes(entries, NewerFirst);
    assert forall e | e in StableSort.Sort(entries, NewerFirst) :: e in multiset(entries);
    StableSort.Sort(entries, NewerFirst)
  }

  /** The entry `_merge_entries` copies as its base. */
  function Newest(entries: seq<Value>): (n: Value)
    requires entries != []
    ensures n in entries
  {
    ByRecency(entries)[0]
  }

  /** What `_merge_entries` reads without raising: dictionaries with timestamps, and a version on the newest. */
  predicate Mergeable(entries: seq<Value>) {
    && entries != []
    && (forall e | e in entries :: Keyable(e) && Stamped(e))
    && SortableStamps(entries)
    && "version" in Newest(entries).fields
  }

  /** The base's content after `_recursive_merge` with the content of each entry of `es`, in turn. */
  function MergeAll(base: Dict, es: seq<Value>): Dict
    requires forall e | e in es :: Keyable(e)
  {
    if es == [] then base
    else
      assert forall e | e in es[..|es| - 1] :: e in es;
      Merge(MergeAll(base, es[..|es| - 1]), ContentOf(es[|es| - 1]))
  }

  /** The entry `_merge_entries(entries)` returns. */
  function MergedEntry(c: Codec, entries: seq<Value>): Value
    requires Mergeable(entries)
  {
    var sorted := ByRecency(entries);
    var newest := sorted[0];
    assert forall e | e in sorted[1..] :: e in sorted;
    Obj(newest.fields["content" := Obj(MergeAll(ContentOf(newest), sorted[1..]))]
                     ["version" := Str(c.bumpFloat(newest.fields["version"]))]
                     ["merged_from" := Num(|entries| as real)])
  }

  /** `_merge_entries(entries)`: sorts newest first, then merges every later entry into a copy of the newest. */
  method MergeEntries(c: Codec, entries: seq<Value>) returns (merged: Value)
    requires Mergeable(entries)
    ensures merged == MergedEntry(c, entries)
  {
    var sorted := ByRecency(entries);
    var base := sorted[0].fields;
    var content := ContentOf(sorted[0]);
    for i := 1 to |sorted|
      invariant content == MergeAll(ContentOf(sorted[0]), sorted[1..i])
    {
      assert sorted[1..i + 1][..i - 1] == sorted[1..i];
      var next := RecursiveMerge(content, ContentOf(sorted[i]));
      content := next;
    }
    assert sorted[1..|sorted|] == sorted[1..];
    base := base["content" := Obj(content)];
    base := base["version" := Str(c.bumpFloat(base["version"]))];
    base := base["merged_from" := Num(|entries| as real)];
    merged := Obj(base);
  }

  /**
   * The base is the first entry, in log order, with the latest timestamp: no entry is
   * later, and every entry before it is strictly earlier.
   */
  lemma NewestIsFirstLatest(entries: seq<Value>)
    requires entries != []
    ensures exists k :: 0 <= k < |entries| && entries[k] == Newest(entries)
              && (forall j :: 0 <= j < |entries| ==> !KeyLess(TimestampOf(entries[k]), TimestampOf(entries[j])))
              && (forall j :: 0 <= j < k ==> KeyLess(TimestampOf(entries[j]), TimestampOf(entries[k])))
  {
    NewerFirstOrdersWeakly();
    StableSort.SortHeadIsFirstMaximal(entries, NewerFirst);
  }

  /** The merged entry records the group size, bumps the base's version, and keeps the base's other fields. */
  lemma MergedEntryFields(c: Codec, entries: seq<Value>)
    requires Mergeable(entries)
    ensures MergedEntry(c, entries).Obj?
    ensures MergedEntry(c, entries).fields.Keys == Newest(entries).fields.Keys + {"merged_from"}
    ensures MergedEntry(c, entries).fields["merged_from"] == Num(|entries| as real)
    ensures MergedEntry(c, entries).fields["version"] == Str(c.bumpFloat(Newest(entries).fields["version"]))
    ensures forall k | k in Newest(entries).fields && k !in {"content", "version", "merged_from"} ::
              MergedEntry(c, entries).fields[k] == Newest(entries).fields[k]
  {
  }

  /** Every content key of every entry of the group survives the merge. */
  lemma {:induction false} MergeAllKeys(base: Dict, es: seq<Value>)
    requires forall e | e in es :: Keyable(e)
    ensures forall k :: k in MergeAll(base, es) <==> k in base || exists e | e in es :: k in ContentOf(e)
  {
    if es != [] {
      var init := es[..|es| - 1];
      assert forall e | e in init :: e in es;
      MergeAllKeys(base, init);
      assert es == init + [es[|es| - 1]];
    }
  }

  // ---------------------------------------------------------------------------
  // Grouping

  /** `f"{doc['type']}_{doc['content'].get('topic', '')}"` */
  function GroupKey(c: Codec, doc: Value): string
    requires Keyable(doc)
  {
    Format(c, doc.fields["type"]) + "_" + Format(c, Get(ContentOf(doc), "topic", Str("")))
  }

  /** The scan neither raises on this record: it is framed and, if it decodes, it can be keyed. */
  predicate RecordGroupable(c: Codec, r: string) {
    Framed(r) && (DecodeRecord(c, r).Some? ==> Keyable(DecodeRecord(c, r).value))
  }

  predicate Groupable(c: Codec, records: seq<string>) {
    forall r | r in records :: RecordGroupable(c, r)
  }

  predicate AllKeyable(ds: seq<Value>) {
    forall d | d in ds :: Keyable(d)
  }

  /** The document a record contributes to the scan: none, or the one its payload decodes to. */
  function DocumentOf(c: Codec, r: string): (ds: seq<Value>)
    requires RecordGroupable(c, r)
    ensures AllKeyable(ds)
  {
    match DecodeRecord(c, r) case None => [] case Some(d) => [d]
  }

  /** The documents of the log's documentation records whose payload decodes, in log order. */
  function Documents(c: Codec, records: seq<string>): (ds: seq<Value>)
    requires Groupable(c, records)
    ensures AllKeyable(ds)
  {
    if records == [] then []
    else
      var init := records[..|records| - 1];
      assert forall r | r in init :: r in records;
      assert RecordGroupable(c, records[|records| - 1]);
      Documents(c, init) + DocumentOf(c, records[|records| - 1])
  }

  /** The keys of `consolidated`, in the order they were first inserted. */
  function GroupKeys(c: Codec, ds: seq<Value>): (ks: seq<string>)
    requires AllKeyable(ds)
  {
    if ds == [] then []
    else
      var init := ds[..|ds| - 1];
      assert forall d | d in init :: d in ds;
      var ks := GroupKeys(c, init);
      var k := GroupKey(c, ds[|ds| - 1]);
      if k in ks then ks else ks + [k]
  }

  /** `consolidated[key]`: the documents with that key, in log order. */
  function GroupOf(c: Codec, ds: seq<Value>, key: string): seq<Value>
    requires AllKeyable(ds)
  {
    if ds == [] then []
    else
      var init := ds[..|ds| - 1];
      assert forall d | d in init :: d in ds;
      GroupOf(c, init, key) + (if GroupKey(c, ds[|ds| - 1]) == key then [ds[|ds| - 1]] else [])
  }

  /** An element of a non-empty sequence is in its front part or is its last element. */
  lemma InFrontOrLast(ds: seq<Value>)
    requires ds != []
    ensures forall d :: d in ds <==> d in ds[..|ds| - 1] || d == ds[|ds| - 1]
  {
    assert ds == ds[..|ds| - 1] + [ds[|ds| - 1]];
  }

  /** The keys are distinct, and they are exactly the keys of the documents. */
  lemma {:induction false} GroupKeysOfDocuments(c: Codec, ds: seq<Value>)
    requires AllKeyable(ds)
    ensures NoDuplicates(GroupKeys(c, ds))
    ensures forall k :: k in GroupKeys(c, ds) <==> exists d | d in ds :: GroupKey(c, d) == k
  {
    if ds != [] {
      var init, last := ds[..|ds| - 1], ds[|ds| - 1];
      InFrontOrLast(ds);
      GroupKeysOfDocuments(c, init);
      forall k ensures k in GroupKeys(c, ds) <==> exists d | d in ds :: GroupKey(c, d) == k {
        if k in GroupKeys(c, ds) && k != GroupKey(c, last) {
          var d :| d in init && GroupKey(c, d) == k;
          assert d in ds;
        }
        if exists d | d in ds :: GroupKey(c, d) == k {
          var d :| d in ds && GroupKey(c, d) == k;
          assert d in init || d == last;
        }
      }
    }
  }

  /** A group holds exactly the documents with its key, and it is empty exactly when the key does not occur. */
  lemma {:induction false} GroupOfMembers(c: Codec, ds: seq<Value>, key: string)
    requires AllKeyable(ds)
    ensures forall d :: d in GroupOf(c, ds, key) <==> d in ds && GroupKey(c, d) == key
    ensures GroupOf(c, ds, key) == [] <==> key !in GroupKeys(c, ds)
  {
    if ds != [] {
      var init, last := ds[..|ds| - 1], ds[|ds| - 1];
      InFrontOrLast(ds);
      GroupOfMembers(c, init, key);
      GroupKeysOfDocuments(c, init);
      GroupKeysOfDocuments(c, ds);
      var g := GroupOf(c, ds, key);
      assert g == GroupOf(c, init, key) + (if GroupKey(c, last) == key then [last] else []);
      if GroupKey(c, last) == key {
        assert last in g;
      }
    }
  }

  lemma GroupablePrefix(c: Codec, records: seq<string>, n: nat)
    requires Groupable(c, records) && n <= |records|
    ensures Groupable(c, records[..n])
  {
    assert forall r | r in records[..n] :: r in records;
  }

  /** The scan of one more record adds that record's document, if it decodes. */
  lemma DocumentsStep(c: Codec, records: seq<string>, i: nat)
    requires Groupable(c, records) && i < |records|
    ensures Groupable(c, records[..i]) && Groupable(c, records[..i + 1]) && RecordGroupable(c, records[i])
    ensures Documents(c, records[..i + 1]) == Documents(c, records[..i]) + DocumentOf(c, records[i])
  {
    GroupablePrefix(c, records, i);
    GroupablePrefix(c, records, i + 1);
    assert records[..i + 1][..i] == records[..i];
    assert records[i] in records;
  }

  /** `keys` and `groups` hold the grouping of the documents `ds`. */
  ghost predicate GroupedAs(c: Codec, ds: seq<Value>, keys: seq<string>, groups: map<string, seq<Value>>)
    requires AllKeyable(ds)
  {
    && keys == GroupKeys(c, ds)
    && (forall k :: k in groups <==> k in keys)
    && (forall k | k in groups :: groups[k] == GroupOf(c, ds, k))
  }

  /** One more document extends the scan by one step of each definition. */
  lemma GroupingSnoc(c: Codec, ds: seq<Value>, doc: Value)
    requires AllKeyable(ds) && Keyable(doc)
    ensures AllKeyable(ds + [doc])
    ensures GroupKeys(c, ds + [doc])
            == if GroupKey(c, doc) in GroupKeys(c, ds) then GroupKeys(c, ds) else GroupKeys(c, ds) + [GroupKey(c, doc)]
    ensures forall k :: GroupOf(c, ds + [doc], k) == GroupOf(c, ds, k) + (if GroupKey(c, doc) == k then [doc] else [])
  {
    var ds' := ds + [doc];
    assert ds'[..|ds|] == ds && ds'[|ds|] == doc;
    assert forall d | d in ds' :: d in ds || d == doc;
  }

  /** `consolidated[key].append(doc)` keeps the grouping up to date. */
  lemma GroupAppend(c: Codec, ds: seq<Value>, doc: Value, key: string,
                    keys: seq<string>, groups: map<string, seq<Value>>)
    requires AllKeyable(ds) && Keyable(doc) && key == GroupKey(c, doc)
    requires GroupedAs(c, ds, keys, groups)
    ensures AllKeyable(ds + [doc])
    ensures GroupedAs(c, ds + [doc], if key in groups then keys else keys + [key],
                      groups[key := (if key in groups then groups[key] else []) + [doc]])
  {
    GroupingSnoc(c, ds, doc);
    if key !in groups {
      GroupOfMembers(c, ds, key);
      assert key !in keys;
    } else {
      assert key in keys;
    }
  }

  /** `consolidated[key].append(doc)` on the `defaultdict(list)`, with `keys` its insertion order. */
  method AppendToGroup(c: Codec, ghost ds: seq<Value>, keys: seq<string>, groups: map<string, seq<Value>>, doc: Value)
    returns (keys': seq<string>, groups': map<string, seq<Value>>)
    requires AllKeyable(ds) && Keyable(doc) && GroupedAs(c, ds, keys, groups)
    ensures AllKeyable(ds + [doc]) && GroupedAs(c, ds + [doc], keys', groups')
  {
    var key := GroupKey(c, doc);
    GroupAppend(c, ds, doc, key, keys, groups);
    if key in groups {
      keys', groups' := keys, groups[key := groups[key] + [doc]];
    } else {
      keys', groups' := keys + [key], groups[key := [doc]];
    }
  }

  /** The first loop of `consolidate_memory`: fills `consolidated`, a dictionary of lists, in log order. */
  method GroupDocuments(c: Codec, records: seq<string>) returns (keys: seq<string>, groups: map<string, seq<Value>>)
    requires Groupable(c, records)
    ensures GroupedAs(c, Documents(c, records), keys, groups)
  {
    keys, groups := [], map[];
    ghost var ds: seq<Value> := [];
    for i := 0 to |records|
      invariant Groupable(c, records[..i])
      invariant ds == Documents(c, records[..i])
      invariant GroupedAs(c, ds, keys, groups)
    {
      DocumentsStep(c, records, i);
      var r := records[i];
      if !StartsWith(r, DocPrefix) {
        assert DocumentOf(c, r) == [] && ds + [] == ds;
        continue;
      }
      var decoded := c.decode(AfterFirst(r, PayloadSeparator));
      if decoded.None? {
        assert DocumentOf(c, r) == [] && ds + [] == ds;
        continue;
      }
      var doc := decoded.value;
      assert DocumentOf(c, r) == [doc];
      keys, groups := AppendToGroup(c, ds, keys, groups, doc);
      ds := ds + [doc];
    }
    assert records[..|records|] == records;
  }

  /** Each document of the log that decodes is in the group of its key. */
  lemma {:induction false} DocumentsFromLog(c: Codec, records: seq<string>)
    requires Groupable(c, records)
    ensures forall d :: d in Documents(c, records) <==>
              exists r | r in records :: IsDocRecord(r) && DecodeRecord(c, r) == Some(d)
  {
    if records != [] {
      var init := records[..|records| - 1];
      GroupablePrefix(c, records, |records| - 1);
      DocumentsFromLog(c, init);
      assert records == init + [records[|records| - 1]];
    }
  }

  // ---------------------------------------------------------------------------
  // Writing the merged groups

  /** `DOCUMENTATION_MERGED_<key>: <json>`, the text `_update_memory_entries(key, merged)` inserts. */
  function MergedRecord(c: Codec, key: string, merged: Value): (r: string)
    ensures IsDocRecord(r)
  {
    RecordText("MERGED_" + key, c.dumps(merged))
  }

  /** `_update_memory_entries(key, merged)` */
  method UpdateMemoryEntries(c: Codec, archive: Archive, key: string, merged: Value)
    modifies archive
    ensures archive.log == old(archive.log) + [MergedRecord(c, key, merged)]
  {
    archive.Insert(RecordText("MERGED_" + key, c.dumps(merged)));
  }

  /** Every group of two or more documents among `ks` can be merged. */
  predicate GroupsMergeable(c: Codec, ds: seq<Value>, ks: seq<string>)
    requires AllKeyable(ds)
  {
    forall k | k in ks && |GroupOf(c, ds, k)| > 1 :: Mergeable(GroupOf(c, ds, k))
  }

  /** The keys of `ks` whose group holds two or more documents, in order. */
  function MergedKeys(c: Codec, ds: seq<Value>, ks: seq<string>): (mk: seq<string>)
    requires AllKeyable(ds)
    ensures forall k :: k in mk <==> k in ks && |GroupOf(c, ds, k)| > 1
  {
    if ks == [] then []
    else
      MergedKeys(c, ds, ks[..|ks| - 1])
      + (if |GroupOf(c, ds, ks[|ks| - 1])| > 1 then [ks[|ks| - 1]] else [])
  }

  /** The merged record of the group with key `k`. */
  function GroupRecord(c: Codec, ds: seq<Value>, k: string): string
    requires AllKeyable(ds) && Mergeable(GroupOf(c, ds, k))
  {
    MergedRecord(c, k, MergedEntry(c, GroupOf(c, ds, k)))
  }

  /** The records the second loop of `consolidate_memory` inserts for the keys `ks`, in order. */
  function Inserted(c: Codec, ds: seq<Value>, ks: seq<string>): seq<string>
    requires AllKeyable(ds) && GroupsMergeable(c, ds, ks)
  {
    if ks == [] then []
    else
      var init := ks[..|ks| - 1];
      var k := ks[|ks| - 1];
      assert forall x | x in init :: x in ks;
      Inserted(c, ds, init)
      + (if |GroupOf(c, ds, k)| > 1 then [GroupRecord(c, ds, k)] else [])
  }

  /** `consolidate_memory` runs to completion on the log. */
  predicate ConsolidationDefined(c: Codec, records: seq<string>) {
    Groupable(c, records)
    && GroupsMergeable(c, Documents(c, records), GroupKeys(c, Documents(c, records)))
  }

  /** The records `consolidate_memory` appends to the log `records`. */
  function Consolidation(c: Codec, records: seq<string>): seq<string>
    requires ConsolidationDefined(c, records)
  {
    Inserted(c, Documents(c, records), GroupKeys(c, Documents(c, records)))
  }

  /** What the second loop writes for one key and its group: the merge, for a group of two or more. */
  function Written(c: Codec, key: string, entries: seq<Value>): (w: seq<string>)
    requires |entries| > 1 ==> Mergeable(entries)
    ensures |w| == if |entries| > 1 then 1 else 0
  {
    if |entries| > 1 then [MergedRecord(c, key, MergedEntry(c, entries))] else []
  }

  /** Every key of `keys` has a group in `groups`, and the groups of two or more can be merged. */
  predicate WritesDefined(keys: seq<string>, groups: map<string, seq<Value>>) {
    forall k | k in keys :: k in groups && (|groups[k]| > 1 ==> Mergeable(groups[k]))
  }

  /** What the second loop writes for the keys `keys`, in order. */
  function Writes(c: Codec, keys: seq<string>, groups: map<string, seq<Value>>): seq<string>
    requires WritesDefined(keys, groups)
  {
    if keys == [] then []
    else
      var init, k := keys[..|keys| - 1], keys[|keys| - 1];
      assert forall x | x in init :: x in keys;
      Writes(c, init, groups) + Written(c, k, groups[k])
  }

  /** The pass over the `i`-th key adds that key's writes. */
  lemma WritesStep(c: Codec, keys: seq<string>, groups: map<string, seq<Value>>, i: nat)
    requires WritesDefined(keys, groups) && i < |keys|
    ensures keys[i] in groups && (|groups[keys[i]]| > 1 ==> Mergeable(groups[keys[i]]))
    ensures WritesDefined(keys[..i], groups) && WritesDefined(keys[..i + 1], groups)
    ensures Writes(c, keys[..i + 1], groups) == Writes(c, keys[..i], groups) + Written(c, keys[i], groups[keys[i]])
  {
    assert keys[i] in keys;
    assert forall x | x in keys[..i + 1] :: x in keys;
    assert keys[..i + 1][..i] == keys[..i];
  }

  /** With `groups` holding the grouping of `ds`, the writes are the records `Inserted` describes. */
  lemma {:induction false} WritesOfGrouping(c: Codec, ds: seq<Value>, ks: seq<string>, groups: map<string, seq<Value>>)
    requires AllKeyable(ds) && GroupsMergeable(c, ds, ks)
    requires forall k | k in ks :: k in groups && groups[k] == GroupOf(c, ds, k)
    ensures WritesDefined(ks, groups) && Writes(c, ks, groups) == Inserted(c, ds, ks)
  {
    if ks != [] {
      var init, k := ks[..|ks| - 1], ks[|ks| - 1];
      assert forall x | x in init :: x in ks;
      assert k in ks;
      WritesOfGrouping(c, ds, init, groups);
    }
  }

  /** One pass of the second loop of `consolidate_memory`: a group of two or more is merged and written. */
  method ConsolidateGroup(c: Codec, archive: Archive, key: string, entries: seq<Value>)
    requires |entries| > 1 ==> Mergeable(entries)
    modifies archive
    ensures archive.log == old(archive.log) + Written(c, key, entries)
  {
    if |entries| > 1 {
      var merged := MergeEntries(c, entries);
      UpdateMemoryEntries(c, archive, key, merged);
    } else {
      assert archive.log + [] == archive.log;
    }
  }

  /** The second loop of `consolidate_memory`: one merged record per group of two or more, in key order. */
  method WriteMergedGroups(c: Codec, archive: Archive, keys: seq<string>, groups: map<string, seq<Value>>)
    requires WritesDefined(keys, groups)
    modifies archive
    ensures archive.log == old(archive.log) + Writes(c, keys, groups)
  {
    for i := 0 to |keys|
      invariant archive.log == old(archive.log) + Writes(c, keys[..i], groups)
    {
      WritesStep(c, keys, groups, i);
      var entries := groups[keys[i]];
      ConsolidateGroup(c, archive, keys[i], entries);
    }
    assert keys[..|keys|] == keys;
  }

  /** `consolidate_memory()`: groups the log, then inserts one merged record per group of two or more. */
  method ConsolidateMemory(c: Codec, archive: Archive)
    requires ConsolidationDefined(c, archive.log)
    modifies archive
    ensures archive.log == old(archive.log) + Consolidation(c, old(archive.log))
  {
    var keys, groups := GroupDocuments(c, archive.log);
    WritesOfGrouping(c, Documents(c, archive.log), keys, groups);
    WriteMergedGroups(c, archive, keys, groups);
  }

  /**
   * One merged record per group of two or more documents, in the order the groups were
   * first seen, and none for a group of one: the `i`-th insert is the merge of the
   * `i`-th such group, whose keys are distinct.
   */
  lemma {:induction false} InsertedPerGroup(c: Codec, ds: seq<Value>, ks: seq<string>)
    requires AllKeyable(ds) && GroupsMergeable(c, ds, ks)
    ensures |Inserted(c, ds, ks)| == |MergedKeys(c, ds, ks)|
    ensures forall i :: 0 <= i < |MergedKeys(c, ds, ks)| ==>
              |GroupOf(c, ds, MergedKeys(c, ds, ks)[i])| > 1
              && Mergeable(GroupOf(c, ds, MergedKeys(c, ds, ks)[i]))
              && Inserted(c, ds, ks)[i] == GroupRecord(c, ds, MergedKeys(c, ds, ks)[i])
  {
    if ks != [] {
      var init, k := ks[..|ks| - 1], ks[|ks| - 1];
      assert forall x | x in init :: x in ks;
      InsertedPerGroup(c, ds, init);
      var mk, mk0 := MergedKeys(c, ds, ks), MergedKeys(c, ds, init);
      var ins, ins0 := Inserted(c, ds, ks), Inserted(c, ds, init);
      if |GroupOf(c, ds, k)| > 1 {
        assert k in ks;
        var g := GroupOf(c, ds, k);
        assert Mergeable(g);
        assert mk == mk0 + [k] && ins == ins0 + [GroupRecord(c, ds, k)];
        forall i | 0 <= i < |mk|
          ensures |GroupOf(c, ds, mk[i])| > 1 && Mergeable(GroupOf(c, ds, mk[i]))
                  && ins[i] == GroupRecord(c, ds, mk[i])
        {
          if i < |mk0| {
            assert mk[i] == mk0[i] && ins[i] == ins0[i];
          } else {
            assert mk[i] == k && ins[i] == GroupRecord(c, ds, k);
          }
        }
      } else {
        assert mk == mk0 && ins == ins0;
      }
    }
  }

  lemma {:induction false} MergedKeysDistinct(c: Codec, ds: seq<Value>, ks: seq<string>)
    requires AllKeyable(ds) && NoDuplicates(ks)
    ensures NoDuplicates(MergedKeys(c, ds, ks))
  {
    if ks != [] {
      var init := ks[..|ks| - 1];
      assert forall x | x in init :: x in ks;
      MergedKeysDistinct(c, ds, init);
    }
  }

  /** The groups merged are exactly the groups of two or more documents of the log, each once. */
  lemma MergedGroupsOfLog(c: Codec, records: seq<string>)
    requires Groupable(c, records)
    ensures NoDuplicates(MergedKeys(c, Documents(c, records), GroupKeys(c, Documents(c, records))))
    ensures forall k ::
              k in MergedKeys(c, Documents(c, records), GroupKeys(c, Documents(c, records)))
              <==> |GroupOf(c, Documents(c, records), k)| > 1
  {
    var ds := Documents(c, records);
    GroupKeysOfDocuments(c, ds);
    MergedKeysDistinct(c, ds, GroupKeys(c, ds));
    forall k ensures |GroupOf(c, ds, k)| > 1 ==> k in GroupKeys(c, ds) {
      GroupOfMembers(c, ds, k);
    }
  }

  /** A merged record whose key holds no `": "` reads back as the merged entry's serialisation. */
  lemma MergedRecordReadsBack(c: Codec, key: string, merged: Value)
    requires !Contains(DocPrefix + "MERGED_" + key, PayloadSeparator)
    ensures Framed(MergedRecord(c, key, merged))
    ensures DecodeRecord(c, MergedRecord(c, key, merged)) == c.decode(c.dumps(merged))
  {
    assert DocPrefix + "MERGED_" + key == DocPrefix + ("MERGED_" + key);
    RecordRoundTrip(c, "MERGED_" + key, c.dumps(merged));
  }

  /**
   * `store_documentation` writes the timestamp and version under `metadata`, while
   * `_merge_entries` reads them at the top level: a group holding a stored document
   * cannot be merged (its sort key raises KeyError).
   */
  lemma StoredDocumentsNotMergeable(c: Codec, docType: string, content: Dict, metadata: Dict, stamp: string,
                                    derived: Documentation.Derived, similar: seq<Value>, entries: seq<Value>)
    requires Documentation.VersionReadable(similar)
    requires Documentation.StoredDocument(c, docType, content, metadata, stamp, derived, similar) in entries
    ensures !Stamped(Documentation.StoredDocument(c, docType, content, metadata, stamp, derived, similar))
    ensures !Mergeable(entries)
  {
  }
}
