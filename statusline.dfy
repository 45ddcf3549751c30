/**
 * The status-line command: one session's transcript pooled with its
 * sub-agent transcripts into one dedup map, that map's cost, and the parts of
 * the line in their order.
 */
module Statusline {
  import opened Wrappers
  import opened Text
  import opened Pricing
  import opened Ingest
  import opened Aggregation

  // ---------------------------------------------------------------------------
  // parseSession

  /** One entry of the sub-agent directory listing, in listing order. */
  datatype SubagentEntry = SubagentEntry(name: string, isDir: bool, content: FileContent)

  /** What os.ReadDir makes of the sub-agent directory. */
  datatype Listing = Missing | ReadFailed(message: string) | Entries(entries: seq<SubagentEntry>)

  /** parseFile reports an error: the file cannot be opened, or reading it stops early. */
  predicate Fails(content: FileContent) {
    content.OpenFailed? || content.readFailed
  }

  /** The transcript path without ".jsonl", then "subagents". */
  function SubagentDir(transcriptPath: string): string {
    var base := TrimSuffix(transcriptPath, ".jsonl");
    if base == "" then "subagents" else JoinPath(base, "subagents")
  }

  /** Only regular entries named `*.jsonl` are pooled. */
  predicate Pooled(e: SubagentEntry) {
    !e.isDir && HasSuffix(e.name, ".jsonl")
  }

  /** The writes one transcript makes into the map: no cutoff, no project. */
  function FileWrites(path: string, content: FileContent): seq<Write> {
    match content
    case OpenFailed => []
    case Scanned(lines, _) => FoldLines(lines, NoCutoff, Base(path), "").writes
  }

  /** The writes of the pooled sub-agent files, in listing order; a failing one keeps what it wrote. */
  function SubagentWrites(dir: string, entries: seq<SubagentEntry>): seq<Write>
    decreases |entries|
  {
    if entries == [] then []
    else
      var e := entries[|entries| - 1];
      SubagentWrites(dir, entries[..|entries| - 1]) + (if Pooled(e) then FileWrites(JoinPath(dir, e.name), e.content) else [])
  }

  /** Main transcript first, then the sub-agents. */
  function SessionWrites(transcriptPath: string, transcript: FileContent, subagents: Listing): seq<Write> {
    FileWrites(transcriptPath, transcript)
      + (if subagents.Entries? then SubagentWrites(SubagentDir(transcriptPath), subagents.entries) else [])
  }

  /**
   * parseSession. `transcript` is the main transcript's content and
   * `subagents` what listing its sub-agent directory gives.
   */
  method ParseSession(transcriptPath: string, transcript: FileContent, subagents: Listing)
    returns (res: Result<map<string, Record>>)
    ensures Fails(transcript) ==> res.Err?
    ensures !Fails(transcript) && subagents.ReadFailed? ==> res == Err(subagents.message)
    ensures !Fails(transcript) && !subagents.ReadFailed? ==>
              res == Ok(ApplyWrites(map[], SessionWrites(transcriptPath, transcript, subagents)))
  {
    var d := new Dedup();
    var _, _, failed := ParseFile(Base(transcriptPath), transcript, NoCutoff, "", d);
    if failed {
      return Err("parsing transcript");
    }
    match subagents
    case Missing =>
      assert SessionWrites(transcriptPath, transcript, subagents) == FileWrites(transcriptPath, transcript);
      return Ok(d.records);
    case ReadFailed(message) =>
      return Err(message);
    case Entries(entries) =>
      var dir := SubagentDir(transcriptPath);
      PoolSubagents(dir, entries, d);
      ApplyWritesAppend(map[], FileWrites(transcriptPath, transcript), SubagentWrites(dir, entries));
      return Ok(d.records);
  }

  /** The loop of parseSession over the listing: each pooled entry parsed into the shared map. */
  method PoolSubagents(dir: string, entries: seq<SubagentEntry>, d: Dedup)
    modifies d
    ensures d.records == ApplyWrites(old(d.records), SubagentWrites(dir, entries))
  {
    for i := 0 to |entries|
      invariant d.records == ApplyWrites(old(d.records), SubagentWrites(dir, entries[..i]))
    {
      var e := entries[i];
      assert entries[..i + 1][..i] == entries[..i];
      ghost var more := if Pooled(e) then FileWrites(JoinPath(dir, e.name), e.content) else [];
      if Pooled(e) {
        var path := JoinPath(dir, e.name);
        var _, _, _ := ParseFile(Base(path), e.content, NoCutoff, "", d);
      }
      ApplyWritesAppend(old(d.records), SubagentWrites(dir, entries[..i]), more);
    }
    assert entries[..|entries|] == entries;
  }

  /** Every write stores its record under the same project. */
  lemma {:induction false} WritesKeepProject(m: map<string, Record>, ws: seq<Write>, project: string)
    requires forall k :: k in m ==> m[k].project == project
    requires forall i :: 0 <= i < |ws| ==> ws[i].record.project == project
    ensures forall k :: k in ApplyWrites(m, ws) ==> ApplyWrites(m, ws)[k].project == project
    decreases |ws|
  {
    if ws != [] {
      WritesKeepProject(m, ws[..|ws| - 1], project);
    }
  }

  lemma {:induction false} SubagentWritesHaveNoProject(dir: string, entries: seq<SubagentEntry>)
    ensures forall i :: 0 <= i < |SubagentWrites(dir, entries)| ==> SubagentWrites(dir, entries)[i].record.project == ""
    decreases |entries|
  {
    if entries != [] {
      SubagentWritesHaveNoProject(dir, entries[..|entries| - 1]);
    }
  }

  /** A session's records carry no project: parseSession passes an empty slug to every parseFile. */
  lemma SessionRecordsHaveNoProject(transcriptPath: string, transcript: FileContent, subagents: Listing)
    ensures var m := ApplyWrites(map[], SessionWrites(transcriptPath, transcript, subagents));
      forall k :: k in m ==> m[k].project == ""
  {
    var ws := SessionWrites(transcriptPath, transcript, subagents);
    if subagents.Entries? {
      SubagentWritesHaveNoProject(SubagentDir(transcriptPath), subagents.entries);
    }
    assert forall i :: 0 <= i < |ws| ==> ws[i].record.project == "";
    WritesKeepProject(map[], ws, "");
  }

  /**
   * The sub-agents are pooled after the main transcript: a request ID that a
   * sub-agent file writes ends up with that file's record, whatever the main
   * transcript said.
   */
  lemma SubagentsOverrideMain(transcriptPath: string, transcript: FileContent, entries: seq<SubagentEntry>, i: nat)
    requires var sub := SubagentWrites(SubagentDir(transcriptPath), entries);
      i < |sub| && forall j :: i < j < |sub| ==> sub[j].key != sub[i].key
    ensures var sub := SubagentWrites(SubagentDir(transcriptPath), entries);
      var m := ApplyWrites(map[], SessionWrites(transcriptPath, transcript, Entries(entries)));
      sub[i].key in m && m[sub[i].key] == sub[i].record
  {
    var main := FileWrites(transcriptPath, transcript);
    var sub := SubagentWrites(SubagentDir(transcriptPath), entries);
    assert SessionWrites(transcriptPath, transcript, Entries(entries)) == main + sub;
    LaterWriteWins(map[], main, sub, i);
  }

  /** A write in the second of two runs that no later write overrides decides its key. */
  lemma LaterWriteWins(m: map<string, Record>, first: seq<Write>, second: seq<Write>, i: nat)
    requires i < |second| && forall j :: i < j < |second| ==> second[j].key != second[i].key
    ensures second[i].key in ApplyWrites(m, first + second)
    ensures ApplyWrites(m, first + second)[second[i].key] == second[i].record
  {
    var ws := first + second;
    assert ws[|first| + i] == second[i];
    assert forall j :: |first| + i < j < |ws| ==> ws[j] == second[j - |first|];
    LastWriteWins(m, ws, |first| + i);
  }

  // ---------------------------------------------------------------------------
  // sessionCost

  /** The cost of the records of `ids`, in no particular order. */
  ghost function CostOf(deduped: map<string, Record>, ids: set<string>): real {
    Total(AllShare(deduped, ids)).cost
  }

  lemma CostOfNothing(deduped: map<string, Record>)
    ensures CostOf(deduped, {}) == 0.0
  {
    NothingExpected(deduped, Daily);
  }

  lemma CostStep(deduped: map<string, Record>, done: set<string>, id: string)
    requires id in deduped && id !in done
    ensures CostOf(deduped, done + {id}) == CostOf(deduped, done) + CalcCost(deduped[id].model, deduped[id].usage)
  {
    AllShareStep(deduped, done, id);
  }

  /** sessionCost: the cost of every record in the map, summed. */
  method SessionCost(deduped: map<string, Record>) returns (total: real)
    ensures total == CostOf(deduped, deduped.Keys)
  {
    total := 0.0;
    var remaining := deduped.Keys;
    CostOfNothing(deduped);
    assert deduped.Keys - remaining == {};
    while remaining != {}
      invariant remaining <= deduped.Keys
      invariant total == CostOf(deduped, deduped.Keys - remaining)
      decreases remaining
    {
      var id :| id in remaining;
      var r := deduped[id];
      ghost var done := deduped.Keys - remaining;
      TakeOne(deduped.Keys, remaining, id);
      CostStep(deduped, done, id);
      total := total + CalcCost(r.model, r.usage);
      remaining := remaining - {id};
    }
    assert deduped.Keys - remaining == deduped.Keys;
  }

  /** Two opus-4-6 requests of 1000/500 and 2000/1000 input/output tokens cost 0.0525 together. */
  lemma SessionCostExample(a: string, b: string, r1: Record, r2: Record)
    requires a != b
    requires r1.model == "claude-opus-4-6" && r1.usage == Usage(1000, 500, 0, 0, None)
    requires r2.model == "claude-opus-4-6" && r2.usage == Usage(2000, 1000, 0, 0, None)
    ensures CostOf(map[a := r1, b := r2], {a, b}) == 0.0525
  {
    var d := map[a := r1, b := r2];
    OpusRequestCosts();
    CostOfPair(d, a, b);
  }

  lemma CostOfPair(deduped: map<string, Record>, a: string, b: string)
    requires a in deduped && b in deduped && a != b
    ensures CostOf(deduped, {a, b}) ==
      CalcCost(deduped[a].model, deduped[a].usage) + CalcCost(deduped[b].model, deduped[b].usage)
  {
    CostOfNothing(deduped);
    CostStep(deduped, {}, a);
    assert {} + {a} == {a};
    CostStep(deduped, {a}, b);
    assert {a} + {b} == {a, b};
  }

  lemma OpusRequestCosts()
    ensures CalcCost("claude-opus-4-6", Usage(1000, 500, 0, 0, None)) == 0.0175
    ensures CalcCost("claude-opus-4-6", Usage(2000, 1000, 0, 0, None)) == 0.035
  {
    ExactResolutionExample();
    CalcCostWithoutCache("claude-opus-4-6", 1000, 500);
    CalcCostWithoutCache("claude-opus-4-6", 2000, 1000);
  }

  /** A sum of buckets with non-negative costs has a non-negative cost. */
  lemma {:induction false} TotalCostNonNegative(m: map<string, Bucket>)
    requires forall k :: k in m ==> m[k].cost >= 0.0
    ensures Total(m).cost >= 0.0
    decreases |m|
  {
    if |m| > 0 {
      var k :| k in m;
      TotalRemove(m, k);
      TotalCostNonNegative(m - {k});
    }
  }

  /** A session whose usages are all non-negative costs nothing negative. */
  lemma SessionCostNonNegative(deduped: map<string, Record>)
    requires forall k :: k in deduped ==> NonNegativeUsage(deduped[k].usage)
    ensures CostOf(deduped, deduped.Keys) >= 0.0
  {
    TotalCostNonNegative(AllShare(deduped, deduped.Keys));
  }

  /** The session cost equals the cost that the report's per-model buckets add up to for the same map. */
  lemma SessionCostIsReportTotal(deduped: map<string, Record>)
    ensures CostOf(deduped, deduped.Keys) == Total(ExpectedBuckets(deduped, deduped.Keys, Everything)).cost
  {
    ExpectedGrandTotal(deduped, deduped.Keys);
  }

  // ---------------------------------------------------------------------------
  // formatStatusline

  const Separator: string := " · "

  /** The MCP part: the count, "MCP" for exactly one name and "MCPs" otherwise, then the names. */
  function McpPart(names: seq<string>): string {
    "\U{1F50C} " + IntToDecimal(|names|) + " " + (if |names| == 1 then "MCP" else "MCPs") + " (" + Join(names, ", ") + ")"
  }

  /**
   * The parts of the line, in order. The colored cost strings and the
   * context-window text are given already rendered.
   */
  function Parts(sessionText: string, todayCost: real, todayText: string, ctxText: string, modelId: string, mcpNames: seq<string>)
    : (r: seq<string>)
    ensures |r| == 3 + (if todayCost > 0.0 then 1 else 0) + (if |mcpNames| > 0 then 1 else 0)
    ensures r[0] == "\U{1F4B8} " + sessionText + " session"
    ensures todayCost > 0.0 ==> r[1] == "\U{1F4B0} " + todayText + " today"
    ensures r[if todayCost > 0.0 then 2 else 1] == "\U{1F4AD} " + ctxText
    ensures |mcpNames| > 0 ==> r[|r| - 2] == McpPart(mcpNames)
    ensures r[|r| - 1] == "\U{1F916} " + ShortModel(modelId)
  {
    var session := ["\U{1F4B8} " + sessionText + " session"];
    var today := if todayCost > 0.0 then ["\U{1F4B0} " + todayText + " today"] else [];
    var mcp := if |mcpNames| > 0 then [McpPart(mcpNames)] else [];
    session + today + ["\U{1F4AD} " + ctxText] + mcp + ["\U{1F916} " + ShortModel(modelId)]
  }

  /** formatStatusline: the parts joined by " · ", the session first and the model last. */
  function FormatStatusline(sessionText: string, todayCost: real, todayText: string, ctxText: string, modelId: string,
                            mcpNames: seq<string>): (r: string)
    ensures r == Join(Parts(sessionText, todayCost, todayText, ctxText, modelId, mcpNames), Separator)
    ensures "\U{1F4B8} " + sessionText + " session" <= r
    ensures HasSuffix(r, "\U{1F916} " + ShortModel(modelId))
  {
    var parts := Parts(sessionText, todayCost, todayText, ctxText, modelId, mcpNames);
    JoinEnds(parts, Separator);
    Join(parts, Separator)
  }
}
