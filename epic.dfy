/**
 * The /generate-epic pipeline, from the request to the preview: the
 * requested tickets and the keyword hits are normalised, each list is
 * summarised in batches of ten, the two summaries are merged, and the
 * language model drafts the Epic from the merge.
 *
 * The tracker, the search pages and the language model are oracles; the
 * HTTP request and response are left to the caller.
 */
module EpicPipeline {
  import opened Wrappers
  import opened JsValue
  import JsString
  import Tickets
  import Summarize
  import KeywordSearch

  /** The batch size the handler uses for both lists. */
  const BatchSize: nat := 10

  /** The instruction that opens each batch prompt of one of the two summarising agents. */
  datatype Instruction =
    | TicketInstruction
    | KeywordInstruction(keywordInput: Json)

  /** The wording of an instruction; the keyword agent's names the keyword as the request gave it. */
  function InstructionText(i: Instruction): string {
    match i
    case TicketInstruction =>
      "Summarize the requirements and context from these Jira enhancement tickets:"
    case KeywordInstruction(keywordInput) =>
      "Summarize the most relevant requirements and context from these already groomed Jira enhancement tickets for the keyword \""
        + ToJsString(keywordInput) + "\":"
  }

  type Prompt = Summarize.Prompt<Instruction>

  /** The preview the handler answers with. */
  datatype Preview = Preview(epic: string, sourceTickets: seq<Tickets.Ticket>)

  /**
   * The keyword hits to summarise: none when the keyword input is falsy or
   * blank; a TypeError when it is truthy but not a string (it has no `trim`);
   * otherwise the search hits that were not requested by id.
   */
  function KeywordHits(keywordInput: Json, ticketIds: seq<string>, tracker: KeywordSearch.Tracker, maxPages: nat): (r: Result<seq<Tickets.Issue>, Error>)
    ensures r.Failure? <==> Truthy(keywordInput) && !keywordInput.Str?
    ensures r.Success? ==> forall x :: x in r.value ==> JsString.Upper(x.key) !in Tickets.RequestedKeys(ticketIds)
    ensures !Truthy(keywordInput) ==> r == Success([])
    ensures keywordInput.Str? && JsString.Trim(keywordInput.s) == "" ==> r == Success([])
    ensures keywordInput.Str? && JsString.Trim(keywordInput.s) != "" ==>
      r.Success? && forall x :: x in r.value <==>
        x in KeywordSearch.Found(tracker, JsString.Trim(keywordInput.s), maxPages)
        && JsString.Upper(x.key) !in Tickets.RequestedKeys(ticketIds)
  {
    if !Truthy(keywordInput) then Success([])
    else if !keywordInput.Str? then Failure(TypeError)
    else
      var keyword := JsString.Trim(keywordInput.s);
      if keyword == "" then Success([])
      else Success(Tickets.ExcludeRequested(KeywordSearch.Found(tracker, keyword, maxPages), ticketIds))
  }

  /** What the language model stage yields: the drafted Epic and the prompts sent, in order. */
  datatype Draft = Draft(epic: string, calls: seq<Prompt>)

  /**
   * The model stage: each list summarised in batches, the two summaries
   * merged by one more call, and the Epic drafted from the merge by a last one.
   */
  function Drafted(ticketTexts: seq<Tickets.Ticket>, keywordTexts: seq<Tickets.Ticket>, keywordInput: Json,
                   customPrompt: Json, llm: Prompt -> string): Draft
  {
    var ticketSummary := Summarize.Summary(ticketTexts, TicketInstruction, BatchSize, llm);
    var keywordSummary := Summarize.Summary(keywordTexts, KeywordInstruction(keywordInput), BatchSize, llm);
    var refined := llm(Summarize.AgentMergePrompt(ticketSummary, keywordSummary));
    var draft := Summarize.EpicPrompt(refined, ToJsString(customPrompt));
    Draft(llm(draft),
      Summarize.Calls(ticketTexts, TicketInstruction, BatchSize, llm)
        + Summarize.Calls(keywordTexts, KeywordInstruction(keywordInput), BatchSize, llm)
        + [Summarize.AgentMergePrompt(ticketSummary, keywordSummary), draft])
  }

  /** The outcome of the handler for a request, with the prompts it sent. */
  function Generated(ticketIds: seq<string>, customPrompt: Json, keywordInput: Json,
                     fetch: string -> Option<Json>, tracker: KeywordSearch.Tracker, maxPages: nat,
                     ids: Tickets.FieldIds, llm: Prompt -> string): (Result<Preview, Error>, seq<Prompt>)
  {
    var ticketTexts := Tickets.FetchTickets(ticketIds, fetch, ids);
    match KeywordHits(keywordInput, ticketIds, tracker, maxPages)
    case Failure(e) => (Failure(e), [])
    case Success(hits) =>
      var keywordTexts := Tickets.KeywordTickets(hits, ids);
      var d := Drafted(ticketTexts, keywordTexts, keywordInput, customPrompt, llm);
      (Success(Preview(d.epic, ticketTexts + keywordTexts)), d.calls)
  }

  /** agentConversationMerge and the drafting call, after the two batch summaries. */
  method DraftEpic(ticketTexts: seq<Tickets.Ticket>, keywordTexts: seq<Tickets.Ticket>, keywordInput: Json,
                   customPrompt: Json, llm: Prompt -> string)
    returns (epic: string, calls: seq<Prompt>)
    ensures Draft(epic, calls) == Drafted(ticketTexts, keywordTexts, keywordInput, customPrompt, llm)
  {
    var ticketSummary, ticketCalls := Summarize.SummarizeTicketsInBatches(ticketTexts, TicketInstruction, BatchSize, llm);
    var keywordSummary, keywordCalls := Summarize.SummarizeTicketsInBatches(keywordTexts, KeywordInstruction(keywordInput), BatchSize, llm);
    var refined := llm(Summarize.AgentMergePrompt(ticketSummary, keywordSummary));
    var draft := Summarize.EpicPrompt(refined, ToJsString(customPrompt));
    epic := llm(draft);
    calls := ticketCalls + keywordCalls + [Summarize.AgentMergePrompt(ticketSummary, keywordSummary), draft];
  }

  method GenerateEpic(ticketIds: seq<string>, customPrompt: Json, keywordInput: Json,
                      fetch: string -> Option<Json>, tracker: KeywordSearch.Tracker, maxPages: nat,
                      ids: Tickets.FieldIds, llm: Prompt -> string)
    returns (r: Result<Preview, Error>, calls: seq<Prompt>)
    ensures (r, calls) == Generated(ticketIds, customPrompt, keywordInput, fetch, tracker, maxPages, ids, llm)
  {
    var ticketTexts := Tickets.FetchTickets(ticketIds, fetch, ids);
    var keywordTickets: seq<Tickets.Issue> := [];
    if Truthy(keywordInput) {
      if !keywordInput.Str? {
        return Failure(TypeError), [];
      }
      var keyword := JsString.Trim(keywordInput.s);
      if keyword != "" {
        var found, _ := KeywordSearch.SearchTicketsByKeyword(keyword, tracker, maxPages);
        keywordTickets := Tickets.ExcludeRequested(found, ticketIds);
      }
    }
    assert KeywordHits(keywordInput, ticketIds, tracker, maxPages) == Success(keywordTickets);
    var keywordTexts := Tickets.KeywordTickets(keywordTickets, ids);
    var epic;
    epic, calls := DraftEpic(ticketTexts, keywordTexts, keywordInput, customPrompt, llm);
    r := Success(Preview(epic, ticketTexts + keywordTexts));
  }

  /** The number of model calls summarising n tickets in batches of ten. */
  function SummaryCalls(n: nat): nat {
    var b := (n + BatchSize - 1) / BatchSize;
    if b == 1 then 1 else b + 1
  }

  /**
   * A successful request costs the two summaries' calls and two more: at
   * least four calls, even with no keyword tickets, and exactly four when
   * neither list has more than ten tickets.
   */
  lemma CallCount(ticketIds: seq<string>, customPrompt: Json, keywordInput: Json,
                  fetch: string -> Option<Json>, tracker: KeywordSearch.Tracker, maxPages: nat,
                  ids: Tickets.FieldIds, llm: Prompt -> string)
    requires KeywordHits(keywordInput, ticketIds, tracker, maxPages).Success?
    ensures var calls := Generated(ticketIds, customPrompt, keywordInput, fetch, tracker, maxPages, ids, llm).1;
      var n1 := |Tickets.FetchTickets(ticketIds, fetch, ids)|;
      var n2 := |Tickets.KeywordTickets(KeywordHits(keywordInput, ticketIds, tracker, maxPages).value, ids)|;
      && |calls| == SummaryCalls(n1) + SummaryCalls(n2) + 2
      && |calls| >= 4
      && (n1 <= BatchSize && n2 <= BatchSize ==> |calls| == 4)
  {
    var ticketTexts := Tickets.FetchTickets(ticketIds, fetch, ids);
    var hits := KeywordHits(keywordInput, ticketIds, tracker, maxPages).value;
    var keywordTexts := Tickets.KeywordTickets(hits, ids);
    var d := Drafted(ticketTexts, keywordTexts, keywordInput, customPrompt, llm);
    assert Generated(ticketIds, customPrompt, keywordInput, fetch, tracker, maxPages, ids, llm).1 == d.calls;
    DraftedCallCount(ticketTexts, keywordTexts, keywordInput, customPrompt, llm);
  }

  /** The model stage makes the two summaries' calls and two more. */
  lemma DraftedCallCount(ticketTexts: seq<Tickets.Ticket>, keywordTexts: seq<Tickets.Ticket>, keywordInput: Json,
                         customPrompt: Json, llm: Prompt -> string)
    ensures var n := |Drafted(ticketTexts, keywordTexts, keywordInput, customPrompt, llm).calls|;
      && n == SummaryCalls(|ticketTexts|) + SummaryCalls(|keywordTexts|) + 2
      && n >= 4
      && (|ticketTexts| <= BatchSize && |keywordTexts| <= BatchSize ==> n == 4)
  {
    Summarize.CallCount(ticketTexts, TicketInstruction, BatchSize, llm);
    Summarize.CallCount(keywordTexts, KeywordInstruction(keywordInput), BatchSize, llm);
    SmallListOneCall(|ticketTexts|);
    SmallListOneCall(|keywordTexts|);
  }

  lemma SmallListOneCall(n: nat)
    ensures SummaryCalls(n) >= 1
    ensures n <= BatchSize ==> SummaryCalls(n) == 1
  {
  }

  /** The keyword tickets in the preview are never tickets that were requested by id. */
  lemma KeywordTicketsNotRequested(ticketIds: seq<string>, customPrompt: Json, keywordInput: Json,
                                   fetch: string -> Option<Json>, tracker: KeywordSearch.Tracker, maxPages: nat,
                                   ids: Tickets.FieldIds, llm: Prompt -> string)
    requires Generated(ticketIds, customPrompt, keywordInput, fetch, tracker, maxPages, ids, llm).0.Success?
    ensures var preview := Generated(ticketIds, customPrompt, keywordInput, fetch, tracker, maxPages, ids, llm).0.value;
      var n1 := |Tickets.FetchTickets(ticketIds, fetch, ids)|;
      && n1 <= |preview.sourceTickets|
      && preview.sourceTickets[..n1] == Tickets.FetchTickets(ticketIds, fetch, ids)
      && forall j :: n1 <= j < |preview.sourceTickets| ==>
           JsString.Upper(preview.sourceTickets[j].id) !in Tickets.RequestedKeys(ticketIds)
  {
    var ticketTexts := Tickets.FetchTickets(ticketIds, fetch, ids);
    var hits := KeywordHits(keywordInput, ticketIds, tracker, maxPages).value;
    var keywordTexts := Tickets.KeywordTickets(hits, ids);
    var preview := Generated(ticketIds, customPrompt, keywordInput, fetch, tracker, maxPages, ids, llm).0.value;
    assert preview.sourceTickets == ticketTexts + keywordTexts;
    NotRequested(hits, ids, Tickets.RequestedKeys(ticketIds));
    TailOfConcat(ticketTexts, keywordTexts, Tickets.RequestedKeys(ticketIds));
  }

  /** A keyword ticket carries the key of a hit, so no hit that was requested can produce one. */
  lemma NotRequested(hits: seq<Tickets.Issue>, ids: Tickets.FieldIds, requested: set<string>)
    requires forall x :: x in hits ==> JsString.Upper(x.key) !in requested
    ensures forall t :: t in Tickets.KeywordTickets(hits, ids) ==> JsString.Upper(t.id) !in requested
  {
    forall t | t in Tickets.KeywordTickets(hits, ids) ensures JsString.Upper(t.id) !in requested {
      var i :| 0 <= i < |hits| && hits[i].key == t.id;
      assert hits[i] in hits;
    }
  }

  lemma TailOfConcat(a: seq<Tickets.Ticket>, b: seq<Tickets.Ticket>, requested: set<string>)
    requires forall t :: t in b ==> JsString.Upper(t.id) !in requested
    ensures (a + b)[..|a|] == a
    ensures forall j :: |a| <= j < |a + b| ==> JsString.Upper((a + b)[j].id) !in requested
  {
    forall j | |a| <= j < |a + b| ensures JsString.Upper((a + b)[j].id) !in requested {
      assert (a + b)[j] == b[j - |a|];
      assert b[j - |a|] in b;
    }
  }
}
