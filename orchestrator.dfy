/**
 * The decisions of `EnhancedOrchestratorAgent`: the request classifier, the daily
 * optimisation schedule kept in the organisation block, the two-step workflow and
 * the responses it prepares.
 */
module Orchestrator {
  import opened Wrappers
  import opened Text
  import opened Json
  import opened Complexity
  import opened Records
  import CodingAgent
  import Retrieval
  import Consolidation

  // ---------------------------------------------------------------------------
  // Request complexity

  const HighRequestWords: seq<string> := ["complex", "advanced", "optimize", "scale"]
  const MediumRequestWords: seq<string> := ["implement", "create", "develop"]
  const LowRequestWords: seq<string> := ["explain", "describe", "what is"]

  /** The indicator table, in the order the classifier visits it. */
  const RequestIndicators: seq<(Level, seq<string>)> :=
    [(High, HighRequestWords), (Medium, MediumRequestWords), (Low, LowRequestWords)]

  /** The first level at or after row `k` whose indicators occur in the request. */
  function FirstIndicated(request: string, k: nat): Option<Level>
    decreases |RequestIndicators| - k
  {
    if k >= |RequestIndicators| then None
    else if MentionsAny(request, RequestIndicators[k].1) then Some(RequestIndicators[k].0)
    else FirstIndicated(request, k + 1)
  }

  /**
   * `_assess_request_complexity(request)`: the first level, in the order high, medium,
   * low, with an indicator in the lower-cased request; medium when none matches.
   */
  function AssessRequestComplexity(request: string): (level: Level)
    ensures level == High <==> MentionsAny(request, HighRequestWords)
    ensures level == Low <==> !MentionsAny(request, HighRequestWords) && !MentionsAny(request, MediumRequestWords)
                              && MentionsAny(request, LowRequestWords)
    ensures level == Medium <==> !MentionsAny(request, HighRequestWords)
                                 && (MentionsAny(request, MediumRequestWords) || !MentionsAny(request, LowRequestWords))
  {
    match FirstIndicated(request, 0)
    case Some(l) => l
    case None => Medium
  }

  // ---------------------------------------------------------------------------
  // Optimisation schedule

  /** `context.get("system_context", {})` */
  function SystemContext(context: Dict): Value {
    Get(context, "system_context", Obj(map[]))
  }

  /** `context.get("system_context", {}).get("last_optimization")` */
  function LastOptimization(context: Dict): Value
    requires SystemContext(context).Obj?
  {
    Get(SystemContext(context).fields, "last_optimization", Null)
  }

  /** The lookups of `should_optimize` succeed: the system context is a dictionary, and a recorded time parses. */
  predicate ScheduleReadable(c: Codec, context: Dict) {
    && SystemContext(context).Obj?
    && (Truthy(LastOptimization(context)) ==>
          LastOptimization(context).Str? && c.parseTime(LastOptimization(context).s).Some?)
  }

  function LastOptimizedAt(c: Codec, context: Dict): int
    requires ScheduleReadable(c, context) && Truthy(LastOptimization(context))
  {
    c.parseTime(LastOptimization(context).s).value
  }

  /**
   * `should_optimize()` at time `now`, for the decoded organisation block `context`:
   * due when nothing is recorded, and otherwise once a whole day has passed.
   */
  function ShouldOptimize(c: Codec, now: int, context: Dict): (due: bool)
    requires ScheduleReadable(c, context)
    ensures !Truthy(LastOptimization(context)) ==> due
    ensures Truthy(LastOptimization(context)) ==> (due <==> now - LastOptimizedAt(c, context) >= SecondsPerDay)
  {
    if !Truthy(LastOptimization(context)) then true
    else
      var since := LastOptimizedAt(c, context);
      DaysAtLeast(now, since, 1);
      DaysBetween(now, since) >= 1
  }

  /** The organisation block written by the constructor. */
  const InitialContext: Dict := map[
    "name" := Str("LettaOS Technical Organization"),
    "purpose" := Str("Advanced technical research and implementation"),
    "core_capabilities" := Arr([Str("Research and Development"), Str("Code Implementation"),
                                Str("Documentation Management"), Str("Knowledge Optimization")])
  ]

  /**
   * The context rewrite of `_optimize_system` as written: `context["system_context"]`
   * must already be a dictionary; `None` where the assignment raises.
   */
  function RecordOptimizationAsWritten(context: Dict, stamp: string): (r: Option<Dict>)
    ensures r.Some? <==> "system_context" in context && context["system_context"].Obj?
  {
    if "system_context" in context && context["system_context"].Obj? then
      Some(context["system_context" := Obj(context["system_context"].fields["last_optimization" := Str(stamp)])])
    else None
  }

  /** On the block the constructor writes, optimisation is due and the rewrite as written raises. */
  lemma InitialOptimizationFails(c: Codec, now: int, stamp: string)
    ensures ScheduleReadable(c, InitialContext) && ShouldOptimize(c, now, InitialContext)
    ensures RecordOptimizationAsWritten(InitialContext, stamp).None?
  {
    assert "system_context" !in InitialContext;
  }

  /** The rewrite with the system context created when it is missing. */
  function RecordOptimization(context: Dict, stamp: string): (r: Dict)
    requires SystemContext(context).Obj?
    ensures r.Keys == context.Keys + {"system_context"}
    ensures forall k | k in context && k != "system_context" :: r[k] == context[k]
    ensures SystemContext(r).Obj? && LastOptimization(r) == Str(stamp)
  {
    context["system_context" := Obj(SystemContext(context).fields["last_optimization" := Str(stamp)])]
  }

  /** Where the system context exists, the corrected rewrite is the one written. */
  lemma RecordOptimizationAgrees(context: Dict, stamp: string)
    requires "system_context" in context && context["system_context"].Obj?
    ensures RecordOptimizationAsWritten(context, stamp) == Some(RecordOptimization(context, stamp))
  {
  }

  /** After recording an optimisation at `since`, the next one is due exactly one whole day later. */
  lemma OptimizationDueDaily(c: Codec, context: Dict, stamp: string, since: int, now: int)
    requires SystemContext(context).Obj?
    requires stamp != [] && c.parseTime(stamp) == Some(since)
    ensures ScheduleReadable(c, RecordOptimization(context, stamp))
    ensures ShouldOptimize(c, now, RecordOptimization(context, stamp)) <==> now - since >= SecondsPerDay
  {
  }

  /** The organisation block, held as the dictionary its JSON value decodes to. */
  class OrganizationBlock {
    var context: Dict

    /** The block the constructor of the orchestrator creates. */
    constructor ()
      ensures context == InitialContext
    {
      context := InitialContext;
    }
  }

  /**
   * `_optimize_system()` at the time printed as `stamp`, with the rewrite of the block
   * corrected to create the system context when it is missing: records the time in the
   * block, then consolidates the archival memory the block's id names.
   */
  method OptimizeSystem(c: Codec, block: OrganizationBlock, archive: Archive, stamp: string)
    requires SystemContext(block.context).Obj?
    requires Consolidation.ConsolidationDefined(c, archive.log)
    modifies block, archive
    ensures block.context == RecordOptimization(old(block.context), stamp)
    ensures archive.log == old(archive.log) + Consolidation.Consolidation(c, old(archive.log))
  {
    var context := block.context;
    var system := SystemContext(context).fields;
    context := context["system_context" := Obj(system["last_optimization" := Str(stamp)])];
    block.context := context;
    Consolidation.ConsolidateMemory(c, archive);
  }

  // ---------------------------------------------------------------------------
  // Workflow

  datatype Step = Step(kind: string, status: string, agent: string)

  const Pending := "pending"
  const InProgress := "in_progress"
  const Completed := "completed"

  /** Step `i` gets status `s`; the other steps are untouched. */
  function SetStatus(steps: seq<Step>, i: nat, s: string): (r: seq<Step>)
    requires i < |steps|
    ensures |r| == |steps| && r[i].status == s && r[i].kind == steps[i].kind && r[i].agent == steps[i].agent
    ensures forall j | 0 <= j < |steps| && j != i :: r[j] == steps[j]
  {
    steps[i := steps[i].(status := s)]
  }

  /** The result of the status changes of `_execute_workflow`, given whether research returned anything. */
  function Executed(steps: seq<Step>, researched: bool): (r: seq<Step>)
    requires |steps| >= 2
    ensures |r| == |steps|
    ensures forall i :: 0 <= i < |steps| ==> r[i].kind == steps[i].kind && r[i].agent == steps[i].agent
    ensures forall i :: 2 <= i < |steps| ==> r[i] == steps[i]
    ensures r[0].status == Completed
    ensures r[1].status == if researched then Completed else steps[1].status
  {
    var done := SetStatus(SetStatus(steps, 0, InProgress), 0, Completed);
    if researched then SetStatus(SetStatus(done, 1, InProgress), 1, Completed) else done
  }

  /**
   * From a fresh workflow, research always ends completed; implementation ends completed
   * when research returned something and is otherwise still pending.
   */
  lemma ExecutedStatuses(steps: seq<Step>, researched: bool)
    requires |steps| == 2 && steps[0].status == Pending && steps[1].status == Pending
    ensures var r := Executed(steps, researched);
            && |r| == 2 && r[0].status == Completed && r[0].kind == steps[0].kind
            && r[1].kind == steps[1].kind
            && (r[1].status == Completed <==> researched)
            && (!researched ==> r[1].status == Pending)
  {
  }

  /** `results.get(key, {})`, and that it is a dictionary. */
  predicate ResultsReadable(results: Dict) {
    Get(results, "implementation", Obj(map[])).Obj? && Get(results, "research", Obj(map[])).Obj?
  }

  const ResponseKeys: set<string> := {"explanation", "code", "research_summary", "workflow_id"}

  /** `_prepare_response(results, workflow)` */
  function PrepareResponse(results: Dict, workflowId: string): (r: Dict)
    requires ResultsReadable(results)
    ensures r.Keys == ResponseKeys
    ensures r["workflow_id"] == Str(workflowId)
    ensures "implementation" !in results ==> r["explanation"] == Str("") && r["code"] == Str("")
    ensures "research" !in results ==> r["research_summary"] == Str("")
    ensures "implementation" in results ==>
              r["explanation"] == Get(results["implementation"].fields, "explanation", Str(""))
              && r["code"] == Get(results["implementation"].fields, "code", Str(""))
    ensures "research" in results ==> r["research_summary"] == Get(results["research"].fields, "summary", Str(""))
  {
    var implementation := Get(results, "implementation", Obj(map[])).fields;
    var research := Get(results, "research", Obj(map[])).fields;
    map[
      "explanation" := Get(implementation, "explanation", Str("")),
      "code" := Get(implementation, "code", Str("")),
      "research_summary" := Get(research, "summary", Str("")),
      "workflow_id" := Str(workflowId)
    ]
  }

  /** The dictionary `implement` returns. */
  function ImplementationDict(impl: CodingAgent.Implementation): (d: Dict)
    ensures "explanation" in d && d["explanation"] == Str(impl.explanation)
    ensures "code" in d && d["code"] == (if impl.code.Some? then Str(impl.code.value) else Null)
  {
    map[
      "explanation" := Str(impl.explanation),
      "code" := (match impl.code case Some(s) => Str(s) case None => Null),
      "research_findings" := Obj(impl.findings),
      "timestamp" := Str(impl.stamp)
    ]
  }

  /** A workflow dictionary, whose step statuses `_execute_workflow` updates in place. */
  class Workflow {
    const id: string
    const request: string
    const stamp: string
    const complexity: Level
    const priority: string
    var steps: seq<Step>

    /** `_create_workflow(request)` with the generated id and the time printed as `stamp`. */
    constructor (id: string, request: string, stamp: string)
      ensures this.id == id && this.request == request && this.stamp == stamp
      ensures steps == [Step("research", Pending, "research_agent"), Step("implementation", Pending, "coding_agent")]
      ensures complexity == AssessRequestComplexity(request) && priority == "normal"
    {
      this.id := id;
      this.request := request;
      this.stamp := stamp;
      this.complexity := AssessRequestComplexity(request);
      this.priority := "normal";
      steps := [Step("research", Pending, "research_agent"), Step("implementation", Pending, "coding_agent")];
    }

    /**
     * `_execute_workflow(workflow)`, where the research agent returned `research` and,
     * when that is non-empty, the coding agent returned `impl`.
     */
    method Execute(research: Dict, impl: CodingAgent.Implementation) returns (response: Dict)
      requires |steps| >= 2
      requires research != map[] ==> "summary" in research
      modifies this
      ensures steps == Executed(old(steps), research != map[])
      ensures response.Keys == ResponseKeys && response["workflow_id"] == Str(id)
      ensures response["research_summary"] == Get(research, "summary", Str(""))
      ensures research != map[] ==> response["explanation"] == Str(impl.explanation)
      ensures research != map[] ==> response["code"] == (if impl.code.Some? then Str(impl.code.value) else Null)
      ensures research == map[] ==> response["explanation"] == Str("") && response["code"] == Str("")
    {
      var results: Dict := map[];
      steps := SetStatus(steps, 0, InProgress);
      results := results["research" := Obj(research)];
      steps := SetStatus(steps, 0, Completed);
      if research != map[] {
        steps := SetStatus(steps, 1, InProgress);
        results := results["implementation" := Obj(ImplementationDict(impl))];
        steps := SetStatus(steps, 1, Completed);
      }
      response := PrepareResponse(results, id);
    }
  }

  // ---------------------------------------------------------------------------
  // Documented answers

  /** The filter `process_request` searches with: the request's complexity label. */
  function ComplexityFilter(request: string): Option<Dict> {
    Some(map["complexity" := Str(AssessRequestComplexity(request).Label())])
  }

  /** A stored document with a dictionary `content`, as `_prepare_documented_response` reads it. */
  predicate Presentable(doc: Value) {
    doc.Obj? && "content" in doc.fields && doc.fields["content"].Obj?
  }

  const DocumentedKeys: set<string> := {"explanation", "code", "research_summary", "source", "doc_id"}

  /** `_prepare_documented_response(doc)`: missing texts default to `""`, a missing id to `None`. */
  function PrepareDocumentedResponse(doc: Value): (r: Dict)
    requires Presentable(doc)
    ensures r.Keys == DocumentedKeys
    ensures r["source"] == Str("documentation")
    ensures r["doc_id"] == (if "id" in doc.fields then doc.fields["id"] else Null)
    ensures forall k | k in {"explanation", "code", "research_summary"} ::
              r[k] == (if k in doc.fields["content"].fields then doc.fields["content"].fields[k] else Str(""))
  {
    var content := doc.fields["content"].fields;
    map[
      "explanation" := Get(content, "explanation", Str("")),
      "code" := Get(content, "code", Str("")),
      "research_summary" := Get(content, "research_summary", Str("")),
      "source" := Str("documentation"),
      "doc_id" := Get(doc.fields, "id", Null)
    ]
  }

  /** The search of `process_request` runs, and its first result, if any, is presentable. */
  predicate LookupDefined(c: Codec, now: int, records: seq<string>, request: string) {
    && Retrieval.Searchable(c, records, request, ComplexityFilter(request))
    && var found := Retrieval.Search(c, now, records, request, ComplexityFilter(request));
       found != [] ==> Presentable(found[0])
  }

  /**
   * `process_request(request)` up to the workflow response: a stored document found for
   * the request is answered from directly and no workflow runs; otherwise a fresh
   * workflow is executed with the agents' results `research` and `impl`.
   */
  method ProcessRequest(c: Codec, now: int, records: seq<string>, request: string, id: string, stamp: string,
                        research: Dict, impl: CodingAgent.Implementation)
    returns (response: Dict, ranWorkflow: bool)
    requires LookupDefined(c, now, records, request)
    requires research != map[] ==> "summary" in research
    ensures var found := Retrieval.Search(c, now, records, request, ComplexityFilter(request));
            && (ranWorkflow <==> found == [])
            && (found != [] ==> response == PrepareDocumentedResponse(found[0]))
            && (found == [] ==> response.Keys == ResponseKeys && response["workflow_id"] == Str(id)
                                && response["research_summary"] == Get(research, "summary", Str("")))
            && (found == [] && research != map[] ==>
                  && response["explanation"] == Str(impl.explanation)
                  && response["code"] == (if impl.code.Some? then Str(impl.code.value) else Null))
            && (found == [] && research == map[] ==> response["explanation"] == Str("") && response["code"] == Str(""))
  {
    var existing := Retrieval.SearchDocumentation(c, now, records, request,
                                                  Some(map["complexity" := Str(AssessRequestComplexity(request).Label())]));
    if existing != [] {
      return PrepareDocumentedResponse(existing[0]), false;
    }
    var workflow := new Workflow(id, request, stamp);
    response := workflow.Execute(research, impl);
    ranWorkflow := true;
  }
}
