/**
 * searchTicketsByKeyword: every Enhancement matching a keyword, fetched one
 * page of at most 100 issues at a time. Paging stops at the first page with
 * fewer than 100 issues; any failed request discards what was gathered.
 *
 * The tracker is an oracle from (keyword, startAt) to a page of issues, or
 * None when the request fails. The number of pages the tracker may serve is
 * bounded by a fuel parameter.
 */
module KeywordSearch {
  import opened Wrappers
  import Tickets

  /** Jira's page size, the `maxResults` of every request. */
  const MaxResults: nat := 100

  /** How paging from some offset ends. */
  datatype Outcome =
    | Done(issues: seq<Tickets.Issue>)
    | Failed
    | OutOfFuel

  type Tracker = (string, nat) -> Option<seq<Tickets.Issue>>

  /** The pages from startAt on, with at most `fuel` requests. */
  function Pages(fetch: Tracker, keyword: string, startAt: nat, fuel: nat): Outcome
    decreases fuel
  {
    if fuel == 0 then OutOfFuel
    else
      match fetch(keyword, startAt)
      case None => Failed
      case Some(page) =>
        if |page| < MaxResults then Done(page)
        else Then(page, Pages(fetch, keyword, startAt + MaxResults, fuel - 1))
  }

  /** Issues gathered before the rest of the paging, in front of what it gives. */
  function Then(issues: seq<Tickets.Issue>, o: Outcome): (r: Outcome)
    ensures r.Done? <==> o.Done?
    ensures o.Done? ==> r.issues == issues + o.issues
  {
    match o
    case Done(rest) => Done(issues + rest)
    case _ => o
  }

  /** The offsets requested from startAt on, in order. */
  function Requests(fetch: Tracker, keyword: string, startAt: nat, fuel: nat): seq<nat>
    decreases fuel
  {
    if fuel == 0 then []
    else
      match fetch(keyword, startAt)
      case None => [startAt]
      case Some(page) =>
        if |page| < MaxResults then [startAt]
        else [startAt] + Requests(fetch, keyword, startAt + MaxResults, fuel - 1)
  }

  /** What the search returns: nothing for an empty keyword or a failure, else every page in order. */
  function Found(fetch: Tracker, keyword: string, fuel: nat): seq<Tickets.Issue> {
    if keyword == "" then []
    else
      match Pages(fetch, keyword, 0, fuel)
      case Done(issues) => issues
      case _ => []
  }

  method SearchTicketsByKeyword(keyword: string, fetch: Tracker, maxPages: nat)
    returns (issues: seq<Tickets.Issue>, requests: seq<nat>)
    ensures issues == Found(fetch, keyword, maxPages)
    ensures requests == if keyword == "" then [] else Requests(fetch, keyword, 0, maxPages)
  {
    requests := [];
    if keyword == "" {
      return [], requests;
    }
    var allIssues: seq<Tickets.Issue> := [];
    var startAt: nat := 0;
    var fuel := maxPages;
    while true
      invariant Pages(fetch, keyword, 0, maxPages) == Then(allIssues, Pages(fetch, keyword, startAt, fuel))
      invariant Requests(fetch, keyword, 0, maxPages) == requests + Requests(fetch, keyword, startAt, fuel)
      decreases fuel
    {
      if fuel == 0 {
        return [], requests;
      }
      var response := fetch(keyword, startAt);
      requests := requests + [startAt];
      if response.None? {
        return [], requests;
      }
      var page := response.value;
      allIssues := allIssues + page;
      if |page| < MaxResults {
        break;
      }
      startAt := startAt + MaxResults;
      fuel := fuel - 1;
    }
    return allIssues, requests;
  }

  /** The offsets requested go 0, 100, 200, ... from startAt, one request per unit of fuel at most. */
  lemma {:induction false} RequestOffsets(fetch: Tracker, keyword: string, startAt: nat, fuel: nat)
    ensures var reqs := Requests(fetch, keyword, startAt, fuel);
      && |reqs| <= fuel
      && forall j :: 0 <= j < |reqs| ==> reqs[j] == startAt + MaxResults * j
    decreases fuel
  {
    if fuel > 0 && fetch(keyword, startAt).Some? && |fetch(keyword, startAt).value| >= MaxResults {
      var rest := Requests(fetch, keyword, startAt + MaxResults, fuel - 1);
      RequestOffsets(fetch, keyword, startAt + MaxResults, fuel - 1);
      var reqs := Requests(fetch, keyword, startAt, fuel);
      assert reqs == [startAt] + rest;
      forall j | 1 <= j < |reqs| ensures reqs[j] == startAt + MaxResults * j {
        assert reqs[j] == rest[j - 1];
      }
    }
  }

  /** Once paging ends within some fuel, more fuel changes nothing. */
  lemma {:induction false} FuelMonotone(fetch: Tracker, keyword: string, startAt: nat, fuel: nat, more: nat)
    requires !Pages(fetch, keyword, startAt, fuel).OutOfFuel? && fuel <= more
    ensures Pages(fetch, keyword, startAt, more) == Pages(fetch, keyword, startAt, fuel)
    ensures Requests(fetch, keyword, startAt, more) == Requests(fetch, keyword, startAt, fuel)
    decreases fuel
  {
    if fetch(keyword, startAt).Some? && |fetch(keyword, startAt).value| >= MaxResults {
      FuelMonotone(fetch, keyword, startAt + MaxResults, fuel - 1, more - 1);
    }
  }

  /** The issues of the page at an offset, none if that request failed. */
  function PageAt(fetch: Tracker, keyword: string, offset: nat): seq<Tickets.Issue> {
    match fetch(keyword, offset)
    case Some(page) => page
    case None => []
  }

  /** The pages at the given offsets, concatenated in order. */
  function ConcatPages(fetch: Tracker, keyword: string, offsets: seq<nat>): seq<Tickets.Issue> {
    if offsets == [] then [] else PageAt(fetch, keyword, offsets[0]) + ConcatPages(fetch, keyword, offsets[1..])
  }

  /** A completed search is the concatenation of the pages it requested, in order. */
  lemma {:induction false} DoneIsConcatenation(fetch: Tracker, keyword: string, startAt: nat, fuel: nat)
    requires Pages(fetch, keyword, startAt, fuel).Done?
    ensures var reqs := Requests(fetch, keyword, startAt, fuel);
      |reqs| >= 1 && Pages(fetch, keyword, startAt, fuel).issues == ConcatPages(fetch, keyword, reqs)
    decreases fuel
  {
    var reqs := Requests(fetch, keyword, startAt, fuel);
    var page := fetch(keyword, startAt).value;
    if |page| < MaxResults {
      assert reqs == [startAt];
      assert ConcatPages(fetch, keyword, reqs) == page + ConcatPages(fetch, keyword, []);
    } else {
      var rest := Requests(fetch, keyword, startAt + MaxResults, fuel - 1);
      DoneIsConcatenation(fetch, keyword, startAt + MaxResults, fuel - 1);
      assert reqs == [startAt] + rest;
      assert reqs[1..] == rest;
    }
  }

  /**
   * In a completed search every request succeeded, every page but the last
   * held at least 100 issues, and the last held fewer.
   */
  lemma {:induction false} DonePagesFull(fetch: Tracker, keyword: string, startAt: nat, fuel: nat)
    requires Pages(fetch, keyword, startAt, fuel).Done?
    ensures var reqs := Requests(fetch, keyword, startAt, fuel);
      && |reqs| >= 1
      && (forall j :: 0 <= j < |reqs| ==> fetch(keyword, reqs[j]).Some?)
      && (forall j :: 0 <= j < |reqs| - 1 ==> |PageAt(fetch, keyword, reqs[j])| >= MaxResults)
      && |PageAt(fetch, keyword, reqs[|reqs| - 1])| < MaxResults
    decreases fuel
  {
    var reqs := Requests(fetch, keyword, startAt, fuel);
    var page := fetch(keyword, startAt).value;
    if |page| < MaxResults {
      assert reqs == [startAt];
    } else {
      var rest := Requests(fetch, keyword, startAt + MaxResults, fuel - 1);
      DonePagesFull(fetch, keyword, startAt + MaxResults, fuel - 1);
      assert reqs == [startAt] + rest;
      assert forall j :: 1 <= j < |reqs| ==> reqs[j] == rest[j - 1];
    }
  }

  /** A failed request empties the result, whatever the pages before it held. */
  lemma FailureDiscardsPages(fetch: Tracker, keyword: string, fuel: nat)
    requires keyword != "" && Pages(fetch, keyword, 0, fuel).Failed?
    ensures Found(fetch, keyword, fuel) == []
    ensures var reqs := Requests(fetch, keyword, 0, fuel);
      |reqs| >= 1 && fetch(keyword, reqs[|reqs| - 1]).None?
  {
    FailedAtLast(fetch, keyword, 0, fuel);
  }

  lemma {:induction false} FailedAtLast(fetch: Tracker, keyword: string, startAt: nat, fuel: nat)
    requires Pages(fetch, keyword, startAt, fuel).Failed?
    ensures var reqs := Requests(fetch, keyword, startAt, fuel);
      |reqs| >= 1 && fetch(keyword, reqs[|reqs| - 1]).None?
    decreases fuel
  {
    if fetch(keyword, startAt).Some? {
      FailedAtLast(fetch, keyword, startAt + MaxResults, fuel - 1);
    }
  }
}
