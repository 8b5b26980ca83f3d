/**
 * The archival store is a flat log of text records. A documentation record is
 * `"DOCUMENTATION_" + header + ": " + payload`, where the payload is a JSON document.
 */
module Records {
  import opened Wrappers
  import opened Text
  import opened Json

  const DocPrefix := "DOCUMENTATION_"
  const PayloadSeparator := ": "

  predicate IsDocRecord(r: string) {
    StartsWith(r, DocPrefix)
  }

  /**
   * `r.split(": ", 1)[1]` exists for every documentation record: the readers of the log
   * do not catch the IndexError raised when it does not.
   */
  predicate Framed(r: string) {
    IsDocRecord(r) ==> Contains(r, PayloadSeparator)
  }

  /** `json.loads(r.split(": ", 1)[1])` for a documentation record; `None` for any other record or a decode error. */
  function DecodeRecord(c: Codec, r: string): (d: Option<Value>)
    requires Framed(r)
    ensures !IsDocRecord(r) ==> d.None?
    ensures IsDocRecord(r) ==> d == c.decode(AfterFirst(r, PayloadSeparator))
  {
    if IsDocRecord(r) then c.decode(AfterFirst(r, PayloadSeparator)) else None
  }

  /** The record written for a header and a payload. */
  function RecordText(header: string, payload: string): (r: string)
    ensures IsDocRecord(r)
  {
    DocPrefix + header + PayloadSeparator + payload
  }

  lemma SeparatorUnbordered()
    ensures Unbordered(PayloadSeparator)
  {
    assert PayloadSeparator[1..][0] == ' ' && PayloadSeparator[..1][0] == ':';
  }

  /** A record whose header holds no `": "` is framed and reads back exactly its payload. */
  lemma RecordRoundTrip(c: Codec, header: string, payload: string)
    requires !Contains(DocPrefix + header, PayloadSeparator)
    ensures Framed(RecordText(header, payload))
    ensures DecodeRecord(c, RecordText(header, payload)) == c.decode(payload)
  {
    SeparatorUnbordered();
    AfterFirstAround(DocPrefix + header, PayloadSeparator, payload);
  }

  /**
   * The agent's archival memory as the core sees it: a log of record texts that
   * `insert_archival_memory` appends to and nothing in the core deletes from.
   */
  class Archive {
    var log: seq<string>

    constructor(initial: seq<string>)
      ensures log == initial
    {
      log := initial;
    }

    /** `insert_archival_memory(agent_id, text)` */
    method Insert(text: string)
      modifies this
      ensures log == old(log) + [text]
    {
      log := log + [text];
    }
  }
}
