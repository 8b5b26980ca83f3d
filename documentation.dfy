/**
 * `store_documentation`: a document is stored as a `DOCUMENTATION_` record of the
 * archival log, versioned after the best-ranked similar document already stored.
 */
module Documentation {
  import opened Wrappers
  import opened Text
  import opened Json
  import opened Records
  import opened Complexity
  import opened Retrieval
  import opened Versions

  /**
   * The fields the undefined helpers `_extract_keywords`, `_categorize_content`,
   * `_detect_language` and the float-valued `_calculate_readability` supply.
   */
  datatype Derived = Derived(keywords: Value, category: Value, language: Value, readability: Value)

  /** The metadata written before an earlier version is looked for: the caller's entries, overridden by the generated ones. */
  function FreshMetadata(metadata: Dict, stamp: string, derived: Derived, level: Level): Dict {
    metadata["timestamp" := Str(stamp)]
            ["version" := Str("1.0")]
            ["keywords" := derived.keywords]
            ["category" := derived.category]
            ["language" := derived.language]
            ["complexity" := Str(level.Label())]
            ["readability_score" := derived.readability]
  }

  /** The query and filter used to look for an earlier version of the content. */
  function SimilarQuery(c: Codec, content: Dict): string {
    c.dumps(Obj(content))
  }

  function CategoryFilter(derived: Derived): Option<Dict> {
    Some(map["category" := derived.category])
  }

  predicate HasVersion(doc: Value) {
    doc.Obj? && "metadata" in doc.fields && doc.fields["metadata"].Obj?
    && "version" in doc.fields["metadata"].fields && doc.fields["metadata"].fields["version"].Str?
  }

  function VersionOf(doc: Value): string
    requires HasVersion(doc)
  {
    doc.fields["metadata"].fields["version"].s
  }

  /** The best-ranked similar document, if any, carries a string version. */
  predicate VersionReadable(similar: seq<Value>) {
    similar != [] ==> HasVersion(similar[0])
  }

  /** The search for similar documents runs, and its first result carries a string version. */
  predicate StoreDefined(c: Codec, now: int, records: seq<string>, content: Dict, derived: Derived) {
    && Searchable(c, records, SimilarQuery(c, content), CategoryFilter(derived))
    && VersionReadable(Search(c, now, records, SimilarQuery(c, content), CategoryFilter(derived)))
  }

  const GeneratedKeys: set<string> :=
    {"timestamp", "version", "keywords", "category", "language", "complexity", "readability_score", "previous_version"}

  /** When a similar document exists, the version becomes its bumped version, and its own version is recorded. */
  function WithPreviousVersion(meta: Dict, similar: seq<Value>): Dict
    requires VersionReadable(similar)
  {
    if similar == [] then meta
    else meta["version" := Str(IncrementVersion(VersionOf(similar[0])))]
             ["previous_version" := Str(VersionOf(similar[0]))]
  }

  /** The metadata of the stored document, given the similar documents found. */
  function StoredMetadata(c: Codec, content: Dict, metadata: Dict, stamp: string, derived: Derived,
                          similar: seq<Value>): Dict
    requires VersionReadable(similar)
  {
    WithPreviousVersion(FreshMetadata(metadata, stamp, derived, ComplexityOf(Lower(c.dumps(Obj(content))))), similar)
  }

  /**
   * The version is `1.0` for new content; otherwise it is the bumped version of the
   * best-ranked similar document, which is kept as `previous_version`. The timestamp
   * and category are the generated ones, and the caller's other entries are kept.
   */
  lemma StoredVersion(c: Codec, content: Dict, metadata: Dict, stamp: string, derived: Derived, similar: seq<Value>)
    requires VersionReadable(similar)
    ensures var meta := StoredMetadata(c, content, metadata, stamp, derived, similar);
            && "version" in meta && "timestamp" in meta && "category" in meta && "complexity" in meta
            && (similar == [] ==> meta["version"] == Str("1.0")
                                  && ("previous_version" in meta ==> "previous_version" in metadata))
            && (similar != [] ==> "previous_version" in meta
                                  && meta["version"] == Str(IncrementVersion(VersionOf(similar[0])))
                                  && meta["previous_version"] == Str(VersionOf(similar[0])))
            && meta["timestamp"] == Str(stamp)
            && meta["category"] == derived.category
            && meta["complexity"] == Str(ComplexityOf(Lower(c.dumps(Obj(content)))).Label())
  {
    VersionedMetadata(metadata, stamp, derived, ComplexityOf(Lower(c.dumps(Obj(content)))), similar);
  }

  /** `StoredVersion` for whatever complexity level the content is assessed at. */
  lemma VersionedMetadata(metadata: Dict, stamp: string, derived: Derived, level: Level, similar: seq<Value>)
    requires VersionReadable(similar)
    ensures var meta := WithPreviousVersion(FreshMetadata(metadata, stamp, derived, level), similar);
            && "version" in meta && "timestamp" in meta && "category" in meta && "complexity" in meta
            && (similar == [] ==> meta["version"] == Str("1.0")
                                  && ("previous_version" in meta ==> "previous_version" in metadata))
            && (similar != [] ==> "previous_version" in meta
                                  && meta["version"] == Str(IncrementVersion(VersionOf(similar[0])))
                                  && meta["previous_version"] == Str(VersionOf(similar[0])))
            && meta["timestamp"] == Str(stamp)
            && meta["category"] == derived.category
            && meta["complexity"] == Str(level.Label())
  {
    var initial := FreshMetadata(metadata, stamp, derived, level);
    FreshFields(metadata, stamp, derived, level);
    if similar != [] {
      var meta := WithPreviousVersion(initial, similar);
      var v := VersionOf(similar[0]);
      assert meta == initial["version" := Str(IncrementVersion(v))]["previous_version" := Str(v)];
      KeptUnderUpdates(initial, "version", Str(IncrementVersion(v)), "previous_version", Str(v), "timestamp");
      KeptUnderUpdates(initial, "version", Str(IncrementVersion(v)), "previous_version", Str(v), "category");
      KeptUnderUpdates(initial, "version", Str(IncrementVersion(v)), "previous_version", Str(v), "complexity");
    }
  }

  /** The generated entries of the fresh metadata. */
  lemma FreshFields(metadata: Dict, stamp: string, derived: Derived, level: Level)
    ensures var meta := FreshMetadata(metadata, stamp, derived, level);
            && "version" in meta && "timestamp" in meta && "category" in meta && "complexity" in meta
            && meta["version"] == Str("1.0")
            && ("previous_version" in meta ==> "previous_version" in metadata)
            && meta["timestamp"] == Str(stamp)
            && meta["category"] == derived.category
            && meta["complexity"] == Str(level.Label())
  {
  }

  /** Two updates of other keys leave the entry of `k` as it was. */
  lemma KeptUnderUpdates(m: Dict, k1: string, v1: Value, k2: string, v2: Value, k: string)
    requires k in m && k != k1 && k != k2
    ensures k in m[k1 := v1][k2 := v2] && m[k1 := v1][k2 := v2][k] == m[k]
  {
  }

  /** Entries of the caller's metadata that the store does not generate are written unchanged. */
  lemma StoredKeepsMetadata(c: Codec, content: Dict, metadata: Dict, stamp: string, derived: Derived, similar: seq<Value>)
    requires VersionReadable(similar)
    ensures var meta := StoredMetadata(c, content, metadata, stamp, derived, similar);
            forall k | k in metadata && k !in GeneratedKeys :: k in meta && meta[k] == metadata[k]
  {
  }

  function StoredDocument(c: Codec, docType: string, content: Dict, metadata: Dict, stamp: string,
                          derived: Derived, similar: seq<Value>): Value
    requires VersionReadable(similar)
  {
    Obj(map[
      "type" := Str(docType),
      "content" := Obj(content),
      "metadata" := Obj(StoredMetadata(c, content, metadata, stamp, derived, similar))
    ])
  }

  function StoredHeader(c: Codec, docType: string, derived: Derived): string {
    docType + "_" + Format(c, derived.category)
  }

  /** The record `store_documentation` appends to the log `records`. */
  function StoredRecord(c: Codec, now: int, stamp: string, records: seq<string>, docType: string,
                        content: Dict, metadata: Dict, derived: Derived): (r: string)
    requires StoreDefined(c, now, records, content, derived)
    ensures IsDocRecord(r)
  {
    var similar := Search(c, now, records, SimilarQuery(c, content), CategoryFilter(derived));
    RecordText(StoredHeader(c, docType, derived),
               c.dumps(StoredDocument(c, docType, content, metadata, stamp, derived, similar)))
  }

  /**
   * `store_documentation(doc_type, content, metadata)` at time `now`, printed as `stamp`:
   * appends one record to the archive, and nothing else changes.
   */
  method StoreDocumentation(c: Codec, now: int, stamp: string, archive: Archive, docType: string,
                            content: Dict, metadata: Dict, derived: Derived)
    requires StoreDefined(c, now, archive.log, content, derived)
    modifies archive
    ensures archive.log == old(archive.log) + [StoredRecord(c, now, stamp, old(archive.log), docType, content, metadata, derived)]
  {
    var level := AssessComplexity(c, Obj(content));
    var meta := FreshMetadata(metadata, stamp, derived, level);
    var similar := SearchDocumentation(c, now, archive.log, c.dumps(Obj(content)), Some(map["category" := derived.category]));
    meta := WithPreviousVersion(meta, similar);
    var doc := Obj(map["type" := Str(docType), "content" := Obj(content), "metadata" := Obj(meta)]);
    archive.Insert(RecordText(docType + "_" + Format(c, derived.category), c.dumps(doc)));
  }

  /** A header without `": "` makes the stored record read back as the serialised document. */
  lemma StoredRecordReadsBack(c: Codec, docType: string, content: Dict, metadata: Dict, stamp: string,
                              derived: Derived, similar: seq<Value>)
    requires VersionReadable(similar)
    requires !Contains(DocPrefix + StoredHeader(c, docType, derived), PayloadSeparator)
    ensures var doc := StoredDocument(c, docType, content, metadata, stamp, derived, similar);
            var record := RecordText(StoredHeader(c, docType, derived), c.dumps(doc));
            Framed(record) && DecodeRecord(c, record) == c.decode(c.dumps(doc))
  {
    RecordRoundTrip(c, StoredHeader(c, docType, derived),
                    c.dumps(StoredDocument(c, docType, content, metadata, stamp, derived, similar)));
  }
}
