/**
 * summarizeTicketsInBatches: the tickets are cut into consecutive batches,
 * the language model summarises each batch, and, unless there was exactly
 * one batch, one more call merges the batch summaries.
 *
 * The language model is an oracle from prompts to answers. A prompt is kept
 * as the data it is built from; its fixed wording is not modelled, and the
 * instruction that opens a batch prompt is of any type P the caller chooses.
 */
module Summarize {
  import Tickets
  import opened Batching

  /** The prompts the service sends, by what they carry. */
  datatype Prompt<P> =
    | BatchPrompt(prefix: P, batch: seq<Tickets.Ticket>)
    | MergePrompt(summaries: seq<string>)
    | AgentMergePrompt(ticketSummary: string, keywordSummary: string)
    | EpicPrompt(refinedRequirements: string, customPrompt: string)

  /** The batch summaries: one call per batch, in batch order. */
  function BatchSummaries<P>(bs: seq<seq<Tickets.Ticket>>, prefix: P, llm: Prompt<P> -> string): (r: seq<string>)
    ensures |r| == |bs|
    decreases |bs|
  {
    if bs == [] then []
    else BatchSummaries(bs[..|bs| - 1], prefix, llm) + [llm(BatchPrompt(prefix, bs[|bs| - 1]))]
  }

  /** The batch prompts, in batch order. */
  function BatchPrompts<P>(bs: seq<seq<Tickets.Ticket>>, prefix: P): (r: seq<Prompt<P>>)
    ensures |r| == |bs|
    decreases |bs|
  {
    if bs == [] then [] else BatchPrompts(bs[..|bs| - 1], prefix) + [BatchPrompt(prefix, bs[|bs| - 1])]
  }

  /** The j-th prompt carries the j-th batch, and the j-th summary is the model's answer to it. */
  lemma {:induction false} BatchesInOrder<P>(bs: seq<seq<Tickets.Ticket>>, prefix: P, llm: Prompt<P> -> string, j: nat)
    requires j < |bs|
    ensures BatchPrompts(bs, prefix)[j] == BatchPrompt(prefix, bs[j])
    ensures BatchSummaries(bs, prefix, llm)[j] == llm(BatchPrompt(prefix, bs[j]))
    decreases |bs|
  {
    if j < |bs| - 1 {
      BatchesInOrder(bs[..|bs| - 1], prefix, llm, j);
    }
  }

  /** The answer: a single batch summary verbatim, otherwise the merge of all of them. */
  function Summary<P>(tickets: seq<Tickets.Ticket>, prefix: P, size: nat, llm: Prompt<P> -> string): string
    requires size > 0
  {
    var summaries := BatchSummaries(Batches(tickets, size), prefix, llm);
    if |summaries| == 1 then summaries[0] else llm(MergePrompt(summaries))
  }

  /** The prompts sent, in order: one per batch, then the merge unless there was exactly one batch. */
  function Calls<P>(tickets: seq<Tickets.Ticket>, prefix: P, size: nat, llm: Prompt<P> -> string): seq<Prompt<P>>
    requires size > 0
  {
    var bs := Batches(tickets, size);
    var summaries := BatchSummaries(bs, prefix, llm);
    BatchPrompts(bs, prefix) + (if |summaries| == 1 then [] else [MergePrompt(summaries)])
  }

  lemma PromptsSnoc<P>(done: seq<seq<Tickets.Ticket>>, batch: seq<Tickets.Ticket>, prefix: P, llm: Prompt<P> -> string)
    ensures BatchPrompts(done + [batch], prefix) == BatchPrompts(done, prefix) + [BatchPrompt(prefix, batch)]
    ensures BatchSummaries(done + [batch], prefix, llm) == BatchSummaries(done, prefix, llm) + [llm(BatchPrompt(prefix, batch))]
  {
    assert (done + [batch])[..|done|] == done;
  }

  /** The loop of summarizeTicketsInBatches: one call per batch of `batchSize` consecutive tickets, in order. */
  method SummarizeEachBatch<P>(tickets: seq<Tickets.Ticket>, prefix: P, batchSize: nat, llm: Prompt<P> -> string)
    returns (summaries: seq<string>, calls: seq<Prompt<P>>)
    requires batchSize > 0
    ensures summaries == BatchSummaries(Batches(tickets, batchSize), prefix, llm)
    ensures calls == BatchPrompts(Batches(tickets, batchSize), prefix)
  {
    summaries := [];
    calls := [];
    ghost var done: seq<seq<Tickets.Ticket>> := [];
    var i := 0;
    while i < |tickets|
      invariant Batches(tickets, batchSize) == done + Batches(Rest(tickets, i), batchSize)
      invariant summaries == BatchSummaries(done, prefix, llm)
      invariant calls == BatchPrompts(done, prefix)
      decreases |tickets| - i
    {
      var batch := tickets[i..Min(i + batchSize, |tickets|)];
      NextBatch(tickets, i, batchSize, done);
      PromptsSnoc(done, batch, prefix, llm);
      calls := calls + [BatchPrompt(prefix, batch)];
      summaries := summaries + [llm(BatchPrompt(prefix, batch))];
      done := done + [batch];
      i := i + batchSize;
    }
    assert Rest(tickets, i) == [];
    assert done + [] == done;
  }

  /**
   * summarizeTicketsInBatches: the batch summaries, then the answer — the
   * only summary verbatim, or the merge of all of them.
   */
  method SummarizeTicketsInBatches<P>(tickets: seq<Tickets.Ticket>, prefix: P, batchSize: nat, llm: Prompt<P> -> string)
    returns (summary: string, calls: seq<Prompt<P>>)
    requires batchSize > 0
    ensures summary == Summary(tickets, prefix, batchSize, llm)
    ensures calls == Calls(tickets, prefix, batchSize, llm)
  {
    var summaries;
    summaries, calls := SummarizeEachBatch(tickets, prefix, batchSize, llm);
    if |summaries| == 1 {
      summary := summaries[0];
      assert calls + [] == calls;
      return;
    }
    calls := calls + [MergePrompt(summaries)];
    summary := llm(MergePrompt(summaries));
  }

  /** How many times the model is called for n tickets. */
  lemma CallCount<P>(tickets: seq<Tickets.Ticket>, prefix: P, size: nat, llm: Prompt<P> -> string)
    requires size > 0
    ensures var n := (|tickets| + size - 1) / size;
      |Calls(tickets, prefix, size, llm)| == if n == 1 then 1 else n + 1
  {
    BatchCount(tickets, size);
  }

  /** Up to `size` tickets, but at least one: one call, whose answer is returned verbatim. */
  lemma SingleBatchVerbatim<P>(tickets: seq<Tickets.Ticket>, prefix: P, size: nat, llm: Prompt<P> -> string)
    requires size > 0 && 1 <= |tickets| <= size
    ensures Calls(tickets, prefix, size, llm) == [BatchPrompt(prefix, tickets)]
    ensures Summary(tickets, prefix, size, llm) == llm(BatchPrompt(prefix, tickets))
  {
    assert Batches(tickets, size) == [tickets] by {
      assert tickets[..|tickets|] == tickets;
      assert tickets[|tickets|..] == [];
    }
  }

  /** No tickets: no batch, yet one merge call over no summaries. */
  lemma NoTicketsStillMerges<P>(prefix: P, size: nat, llm: Prompt<P> -> string)
    requires size > 0
    ensures Calls([], prefix, size, llm) == [MergePrompt([])]
    ensures Summary([], prefix, size, llm) == llm(MergePrompt([]))
  {
  }

  /** Several batches: the last call merges every batch summary, in batch order. */
  lemma SeveralBatchesMerge<P>(tickets: seq<Tickets.Ticket>, prefix: P, size: nat, llm: Prompt<P> -> string)
    requires size > 0 && |tickets| > size
    ensures var calls := Calls(tickets, prefix, size, llm);
      && calls[|calls| - 1] == MergePrompt(BatchSummaries(Batches(tickets, size), prefix, llm))
      && Summary(tickets, prefix, size, llm) == llm(calls[|calls| - 1])
  {
    var m := Min(size, |tickets|);
    assert tickets[m..] != [];
    assert |Batches(tickets, size)| >= 2;
  }
}
