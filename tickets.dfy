/**
 * Ticket normalisation in the /generate-epic handler: an issue's raw field
 * bag becomes a ticket record of five capped text fields, or is dropped;
 * keyword-search hits that were also requested by id are removed.
 */
module Tickets {
  import opened Wrappers
  import opened JsValue
  import JsString
  import Adf

  /** The configured custom-field ids of "I Want", "So That" and "Acceptance Criteria". */
  datatype FieldIds = FieldIds(iWant: string, soThat: string, acceptanceCriteria: string)

  /**
   * A normalised ticket. The text fields hold whatever `truncate` returned:
   * a string, or an unchanged non-string value from the field bag.
   */
  datatype Ticket = Ticket(id: string, summary: Json, description: Json, iWant: Json, soThat: Json, acceptanceCriteria: Json)

  /** An issue as a tracker search returns it: its key and its field bag. */
  datatype Issue = Issue(key: string, fields: Json)

  const SummaryLimit: nat := 300
  const DescriptionLimit: nat := 500
  const StoryFieldLimit: nat := 300

  /** truncate(str, max): a string longer than max keeps its first max characters and gains "...". */
  function Truncate(v: Json, max: nat): (r: Json)
    ensures !v.Str? ==> r == v
    ensures v.Str? && |v.s| <= max ==> r == v
    ensures v.Str? && |v.s| > max ==> r.Str? && |r.s| == max + 3 && r.s[..max] == v.s[..max] && r.s[max..] == "..."
  {
    if v.Str? && |v.s| > max then Str(v.s[..max] + "...") else v
  }

  /** Truncating twice at the same limit is truncating once. */
  lemma TruncateIdempotent(v: Json, max: nat)
    ensures Truncate(Truncate(v, max), max) == Truncate(v, max)
  {
    if v.Str? && |v.s| > max {
      var r := Truncate(v, max);
      assert r.s[..max] == v.s[..max];
    }
  }

  /** A string result of truncate is never more than three characters over the limit. */
  predicate WithinLimit(v: Json, max: nat) {
    v.Str? ==> |v.s| <= max + 3
  }

  /** Every text field of the ticket is within its limit. */
  predicate WithinLimits(t: Ticket) {
    && WithinLimit(t.summary, SummaryLimit)
    && WithinLimit(t.description, DescriptionLimit)
    && WithinLimit(t.iWant, StoryFieldLimit)
    && WithinLimit(t.soThat, StoryFieldLimit)
    && WithinLimit(t.acceptanceCriteria, StoryFieldLimit)
  }

  /**
   * getFieldValue: a truthy `.value` of the field, else the field if truthy,
   * else ''. A read that throws is caught and also gives ''.
   */
  function GetFieldValue(fields: Json, fieldId: string): (r: Json)
    ensures Truthy(r) || r == Str("")
    ensures Truthy(GetOpt(GetOpt(fields, fieldId), "value")) ==> r == GetOpt(GetOpt(fields, fieldId), "value")
    ensures !Truthy(GetOpt(GetOpt(fields, fieldId), "value")) && Truthy(GetOpt(fields, fieldId)) ==> r == GetOpt(fields, fieldId)
    ensures !Truthy(GetOpt(GetOpt(fields, fieldId), "value")) && !Truthy(GetOpt(fields, fieldId)) ==> r == Str("")
  {
    match Get(fields, fieldId)
    case Failure(_) => Str("")
    case Success(f) => Or(GetOpt(f, "value"), Or(f, Str("")))
  }

  /** The issue type's name, lower-cased, is "enhancement". */
  predicate IsEnhancement(fields: Json) {
    var issueType := GetOpt(fields, "issuetype");
    var name := GetOpt(issueType, "name");
    Truthy(issueType) && name.Str? && JsString.Lower(name.s) == "enhancement"
  }

  /** A value of object type (null included) goes through text extraction; any other value is kept. */
  function RichText(v: Json): (r: Result<Json, Error>)
    ensures !IsObjectType(v) ==> r == Success(v)
    ensures IsObjectType(v) && r.Success? ==> r.value.Str? && Adf.ExtractTextFromAdf(v) == Success(r.value.s)
    ensures IsObjectType(v) ==> (r.Success? <==> Adf.ExtractTextFromAdf(v).Success?)
  {
    if IsObjectType(v) then
      match Adf.ExtractTextFromAdf(v)
      case Success(t) => Success(Str(t))
      case Failure(e) => Failure(e)
    else Success(v)
  }

  /** The description before truncation: extracted text, or the raw value defaulting to "". */
  function RawDescription(fields: Json): Result<Json, Error> {
    var d := GetOpt(fields, "description");
    if IsObjectType(d) then RichText(d) else Success(Or(d, Str("")))
  }

  /** No extraction of the issue's rich-text fields throws. */
  predicate Extractable(fields: Json, ids: FieldIds) {
    && RawDescription(fields).Success?
    && RichText(GetFieldValue(fields, ids.iWant)).Success?
    && RichText(GetFieldValue(fields, ids.soThat)).Success?
    && RichText(GetFieldValue(fields, ids.acceptanceCriteria)).Success?
  }

  /**
   * The per-issue callback of the /generate-epic handler: null (None) for an
   * issue that is not an Enhancement or whose processing throws, otherwise
   * the ticket record with its per-field limits applied.
   */
  function NormalizeIssue(id: string, fields: Json, ids: FieldIds): (r: Option<Ticket>)
    ensures r.Some? <==> IsEnhancement(fields) && Extractable(fields, ids)
    ensures r.Some? ==> r.value.id == id && WithinLimits(r.value)
    ensures r.Some? ==> r.value.summary == Truncate(Or(GetOpt(fields, "summary"), Str("")), SummaryLimit)
    ensures r.Some? ==> r.value.description == Truncate(RawDescription(fields).value, DescriptionLimit)
    ensures r.Some? ==> r.value.iWant == Truncate(RichText(GetFieldValue(fields, ids.iWant)).value, StoryFieldLimit)
    ensures r.Some? ==> r.value.soThat == Truncate(RichText(GetFieldValue(fields, ids.soThat)).value, StoryFieldLimit)
    ensures r.Some? ==> r.value.acceptanceCriteria == Truncate(RichText(GetFieldValue(fields, ids.acceptanceCriteria)).value, StoryFieldLimit)
  {
    if fields.Undefined? || fields.Null? then None
    else if !IsEnhancement(fields) then None
    else
      var summary := Or(GetOpt(fields, "summary"), Str(""));
      var description := RawDescription(fields);
      var iWant := RichText(GetFieldValue(fields, ids.iWant));
      var soThat := RichText(GetFieldValue(fields, ids.soThat));
      var criteria := RichText(GetFieldValue(fields, ids.acceptanceCriteria));
      if description.Failure? || iWant.Failure? || soThat.Failure? || criteria.Failure? then None
      else Some(Ticket(
        id,
        Truncate(summary, SummaryLimit),
        Truncate(description.value, DescriptionLimit),
        Truncate(iWant.value, StoryFieldLimit),
        Truncate(soThat.value, StoryFieldLimit),
        Truncate(criteria.value, StoryFieldLimit)))
  }

  /** A field whose value is rich text (object-typed) arrives in the ticket as its trimmed plain text. */
  lemma RichFieldIsTrimmedText(id: string, fields: Json, ids: FieldIds)
    requires NormalizeIssue(id, fields, ids).Some?
    requires IsObjectType(GetFieldValue(fields, ids.iWant))
    ensures var w := NormalizeIssue(id, fields, ids).value.iWant;
      w.Str? && (JsString.Trim(w.s) == w.s || (|w.s| == StoryFieldLimit + 3 && w.s[StoryFieldLimit..] == "..."))
  {
    var t := Adf.ExtractTextFromAdf(GetFieldValue(fields, ids.iWant)).value;
    var w := NormalizeIssue(id, fields, ids).value.iWant;
    if |t| <= StoryFieldLimit {
      assert w == Str(t);
      Adf.ExtractedTextIsTrimmed(GetFieldValue(fields, ids.iWant));
    }
  }

  /** `.filter(Boolean)` over the callbacks' results: the records, in order, without the nulls. */
  function Present<T(!new)>(s: seq<Option<T>>): (r: seq<T>)
    ensures |r| <= |s|
    ensures forall x :: x in r <==> Some(x) in s
  {
    if s == [] then []
    else
      assert forall x :: Some(x) in s <==> Some(x) == s[0] || Some(x) in s[1..];
      (if s[0].Some? then [s[0].value] else []) + Present(s[1..])
  }

  lemma {:induction false} PresentConcat<T(!new)>(a: seq<Option<T>>, b: seq<Option<T>>)
    ensures Present(a + b) == Present(a) + Present(b)
  {
    if a != [] {
      assert (a + b)[1..] == a[1..] + b;
      PresentConcat(a[1..], b);
    } else {
      assert a + b == b;
    }
  }

  /**
   * The requested tickets: each id fetched (None when the request fails) and
   * normalised, in the order of the ids, failures and non-Enhancements dropped.
   */
  function FetchTickets(ticketIds: seq<string>, fetch: string -> Option<Json>, ids: FieldIds): (r: seq<Ticket>)
    ensures |r| <= |ticketIds|
    ensures forall t :: t in r ==> t.id in ticketIds && WithinLimits(t)
    ensures forall t :: t in r ==> exists i :: 0 <= i < |ticketIds| && FetchOne(ticketIds[i], fetch, ids) == Some(t)
    ensures forall i :: 0 <= i < |ticketIds| && FetchOne(ticketIds[i], fetch, ids).Some? ==>
      FetchOne(ticketIds[i], fetch, ids).value in r
  {
    var results := FetchEach(ticketIds, fetch, ids);
    var r := Present(results);
    assert forall t :: t in r ==> exists i :: 0 <= i < |ticketIds| && results[i] == Some(t);
    assert forall i :: 0 <= i < |ticketIds| ==> results[i] in results;
    r
  }

  /** The per-id results before the null filter, in the order of the ids. */
  function FetchEach(ticketIds: seq<string>, fetch: string -> Option<Json>, ids: FieldIds): (r: seq<Option<Ticket>>)
    ensures |r| == |ticketIds|
    ensures forall i :: 0 <= i < |ticketIds| ==> r[i] == FetchOne(ticketIds[i], fetch, ids)
  {
    seq(|ticketIds|, i requires 0 <= i < |ticketIds| => FetchOne(ticketIds[i], fetch, ids))
  }

  /** One id: a failed request gives null, a fetched issue is normalised. */
  function FetchOne(id: string, fetch: string -> Option<Json>, ids: FieldIds): Option<Ticket> {
    match fetch(id)
    case None => None
    case Some(fields) => NormalizeIssue(id, fields, ids)
  }

  /** Fetching two id lists one after the other yields the two results in that order. */
  lemma FetchTicketsConcat(a: seq<string>, b: seq<string>, fetch: string -> Option<Json>, ids: FieldIds)
    ensures FetchTickets(a + b, fetch, ids) == FetchTickets(a, fetch, ids) + FetchTickets(b, fetch, ids)
  {
    assert FetchEach(a + b, fetch, ids) == FetchEach(a, fetch, ids) + FetchEach(b, fetch, ids);
    PresentConcat(FetchEach(a, fetch, ids), FetchEach(b, fetch, ids));
  }

  /** The keyword tickets: each search hit normalised under its own key, in order, nulls dropped. */
  function KeywordTickets(issues: seq<Issue>, ids: FieldIds): (r: seq<Ticket>)
    ensures |r| <= |issues|
    ensures forall t :: t in r ==> WithinLimits(t) && exists i :: 0 <= i < |issues| && issues[i].key == t.id
    ensures forall t :: t in r ==> exists i :: 0 <= i < |issues| && NormalizeIssue(issues[i].key, issues[i].fields, ids) == Some(t)
    ensures forall i :: 0 <= i < |issues| && NormalizeIssue(issues[i].key, issues[i].fields, ids).Some? ==>
      NormalizeIssue(issues[i].key, issues[i].fields, ids).value in r
  {
    var results := Normalized(issues, ids);
    var r := Present(results);
    assert forall t :: t in r ==> exists i :: 0 <= i < |issues| && results[i] == Some(t);
    assert forall i :: 0 <= i < |issues| ==> results[i] in results;
    r
  }

  /** The per-hit results before the null filter, in the order of the hits. */
  function Normalized(issues: seq<Issue>, ids: FieldIds): (r: seq<Option<Ticket>>)
    ensures |r| == |issues|
    ensures forall i :: 0 <= i < |issues| ==> r[i] == NormalizeIssue(issues[i].key, issues[i].fields, ids)
  {
    seq(|issues|, i requires 0 <= i < |issues| => NormalizeIssue(issues[i].key, issues[i].fields, ids))
  }

  /** Normalising two runs of hits one after the other yields the two results in that order. */
  lemma KeywordTicketsConcat(a: seq<Issue>, b: seq<Issue>, ids: FieldIds)
    ensures KeywordTickets(a + b, ids) == KeywordTickets(a, ids) + KeywordTickets(b, ids)
  {
    NormalizedConcat(a, b, ids);
    PresentConcat(Normalized(a, ids), Normalized(b, ids));
  }

  /** The per-hit map distributes over concatenation. */
  lemma NormalizedConcat(a: seq<Issue>, b: seq<Issue>, ids: FieldIds)
    ensures Normalized(a + b, ids) == Normalized(a, ids) + Normalized(b, ids)
  {
    var na, nb, nab := Normalized(a, ids), Normalized(b, ids), Normalized(a + b, ids);
    forall i | 0 <= i < |a + b| ensures nab[i] == (na + nb)[i] {
      if i < |a| {
        assert (a + b)[i] == a[i];
      } else {
        assert (a + b)[i] == b[i - |a|];
      }
    }
    assert nab == na + nb;
  }

  /** The requested ids, upper-cased: the set the keyword hits are checked against. */
  function RequestedKeys(ticketIds: seq<string>): set<string> {
    set id | id in ticketIds :: JsString.Upper(id)
  }

  /**
   * The keyword de-duplication: the hits whose upper-cased key is not among
   * the upper-cased requested ids, in their original order.
   */
  function ExcludeRequested(found: seq<Issue>, ticketIds: seq<string>): (r: seq<Issue>)
    ensures |r| <= |found|
    ensures forall x :: x in r <==> x in found && JsString.Upper(x.key) !in RequestedKeys(ticketIds)
  {
    if found == [] then []
    else
      var rest := ExcludeRequested(found[1..], ticketIds);
      assert forall x :: x in found <==> x == found[0] || x in found[1..];
      if JsString.Upper(found[0].key) in RequestedKeys(ticketIds) then rest else [found[0]] + rest
  }

  /** The filter keeps order: it distributes over concatenation. */
  lemma {:induction false} ExcludeRequestedConcat(a: seq<Issue>, b: seq<Issue>, ticketIds: seq<string>)
    ensures ExcludeRequested(a + b, ticketIds) == ExcludeRequested(a, ticketIds) + ExcludeRequested(b, ticketIds)
  {
    if a != [] {
      assert (a + b)[1..] == a[1..] + b;
      ExcludeRequestedConcat(a[1..], b, ticketIds);
    } else {
      assert a + b == b;
    }
  }

  /** Filtering again removes nothing more. */
  lemma {:induction false} ExcludeRequestedIdempotent(found: seq<Issue>, ticketIds: seq<string>)
    ensures ExcludeRequested(ExcludeRequested(found, ticketIds), ticketIds) == ExcludeRequested(found, ticketIds)
  {
    if found != [] {
      ExcludeRequestedIdempotent(found[1..], ticketIds);
      var rest := ExcludeRequested(found[1..], ticketIds);
      if JsString.Upper(found[0].key) !in RequestedKeys(ticketIds) {
        assert ([found[0]] + rest)[1..] == rest;
      }
    }
  }
}
