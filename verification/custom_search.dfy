/**
 * `CustomSearchClient.search`: the pagination loop over the Custom Search
 * JSON API.  The HTTP call is the oracle `fetch`, mapping each request
 * (`start`, `num`) to the page it answers with.
 */
module CustomSearch {
  import opened Wrappers
  import opened Providers

  /** The safety cap on the number of results. */
  const MaxAllowed: nat := 100
  /** The API returns at most ten results per request. */
  const MaxPerRequest: nat := 10

  datatype PageRequest = PageRequest(start: int, num: int)

  /**
   * What one request yields: a request exception, or a decoded page whose
   * `items` key may be missing (`meta` stands for the page's other fields).
   */
  datatype PageReply =
    | PageFailed(message: string)
    | Page(items: Option<seq<SearchItem>>, meta: string)

  /** The items a reply contributes: none for a failure or a page without `items`. */
  function PageItems(reply: PageReply): seq<SearchItem> {
    if reply.Page? && reply.items.Some? then reply.items.value else []
  }

  /** The number of results actually asked for: `num`, reduced to 100. */
  function Cap(num: int): int {
    if num > MaxAllowed then MaxAllowed else num
  }

  /** The concatenation of the items of every reply to `qs`, in request order. */
  function Gathered(fetch: PageRequest -> PageReply, qs: seq<PageRequest>): seq<SearchItem>
    decreases |qs|
  {
    if |qs| == 0 then [] else Gathered(fetch, qs[..|qs| - 1]) + PageItems(fetch(qs[|qs| - 1]))
  }

  /** The request the loop issues once `collected` items have arrived. */
  function NextRequest(num: int, collected: nat): PageRequest {
    PageRequest(1 + collected, Min(Cap(num) - collected, MaxPerRequest))
  }

  /** A reply after which the loop asks for the next page: a full page of items. */
  predicate Continues(reply: PageReply, batch: int) {
    reply.Page? && reply.items.Some? && |reply.items.value| >= batch
  }

  /** Every reply to `qs` holds at most the number of items asked for. */
  predicate WithinBatches(fetch: PageRequest -> PageReply, qs: seq<PageRequest>) {
    forall k :: 0 <= k < |qs| ==> |PageItems(fetch(qs[k]))| <= qs[k].num
  }

  /**
   * The state of the loop between requests: the items gathered so far, the
   * next start index, and whether the last page ended the search.
   */
  datatype Cursor = Cursor(items: seq<SearchItem>, start: int, stopped: bool)

  /**
   * One page taken in, as the loop evidently intends: the page's items are
   * appended, a missing `items` key or a page shorter than the batch stops
   * the search, and otherwise the start index advances by the page's length.
   */
  function Advance(c: Cursor, batch: nat, page: Option<seq<SearchItem>>): (r: Cursor)
    ensures r.items == c.items + (if page.Some? then page.value else [])
    ensures r.stopped <==> page.None? || |page.value| < batch
    ensures r.stopped ==> r.start == c.start
    ensures c.start == 1 + |c.items| && !r.stopped ==> r.start == 1 + |r.items|
  {
    var got := if page.Some? then page.value else [];
    if page.None? || |got| < batch then Cursor(c.items + got, c.start, true)
    else Cursor(c.items + got, c.start + |got|, false)
  }

  /**
   * One page taken in, as the code is written: `combined_response = data`
   * makes `data` the combined response, so `data["items"]` is the list of
   * every item gathered so far; the `"items" not in data` test never holds,
   * and both the short-page test and the start-index step use the total
   * instead of the page's own length.
   */
  function AdvanceAsWritten(c: Cursor, batch: nat, page: Option<seq<SearchItem>>): (r: Cursor)
    ensures r.items == c.items + (if page.Some? then page.value else [])
    ensures r.stopped <==> |r.items| < batch
    ensures r.stopped ==> r.start == c.start
    ensures c.items != [] && c.start == 1 + |c.items| && !r.stopped ==> r.start > 1 + |r.items|
  {
    var all := c.items + (if page.Some? then page.value else []);
    if |all| < batch then Cursor(all, c.start, true)
    else Cursor(all, c.start + |all|, false)
  }

  /**
   * The requests a search makes, in order: the first starts at 1, each
   * asks for what is still missing of the capped number, each later one
   * starts after the items received so far, and every one but the last was
   * answered by a full page.
   */
  predicate IsTrace(num: int, fetch: PageRequest -> PageReply, qs: seq<PageRequest>) {
    && (qs != [] ==> qs[0].start == 1)
    && (forall k :: 0 <= k < |qs| ==>
          qs[k].num == Min(Cap(num) - (qs[k].start - 1), MaxPerRequest) && 1 <= qs[k].num <= MaxPerRequest)
    && (forall k :: 0 <= k < |qs| - 1 ==>
          Continues(fetch(qs[k]), qs[k].num) && qs[k + 1].start == qs[k].start + |PageItems(fetch(qs[k]))|)
  }

  lemma GatheredSnoc(fetch: PageRequest -> PageReply, qs: seq<PageRequest>, q: PageRequest)
    ensures Gathered(fetch, qs + [q]) == Gathered(fetch, qs) + PageItems(fetch(q))
  {
    assert (qs + [q])[..|qs|] == qs;
  }

  /** The reply to `q` asks for the next page, which starts at `start`. */
  predicate ReadyAfter(fetch: PageRequest -> PageReply, q: PageRequest, start: int) {
    Continues(fetch(q), q.num) && start == q.start + |PageItems(fetch(q))|
  }

  /** A trace extended by the next request is a trace. */
  lemma TraceSnoc(num: int, fetch: PageRequest -> PageReply, qs: seq<PageRequest>, q: PageRequest)
    requires IsTrace(num, fetch, qs)
    requires qs == [] ==> q.start == 1
    requires qs != [] ==>
      Continues(fetch(qs[|qs| - 1]), qs[|qs| - 1].num) && q.start == qs[|qs| - 1].start + |PageItems(fetch(qs[|qs| - 1]))|
    requires q.num == Min(Cap(num) - (q.start - 1), MaxPerRequest) && 1 <= q.num <= MaxPerRequest
    ensures IsTrace(num, fetch, qs + [q])
  {
    var qs' := qs + [q];
    assert forall k :: 0 <= k < |qs| ==> qs'[k] == qs[k];
    assert qs'[|qs|] == q;
  }

  /** In a trace, request `k` starts right after everything the earlier requests gathered. */
  lemma {:induction false} TraceStarts(num: int, fetch: PageRequest -> PageReply, qs: seq<PageRequest>, k: nat)
    requires IsTrace(num, fetch, qs) && k < |qs|
    ensures qs[k].start == 1 + |Gathered(fetch, qs[..k])|
    decreases k
  {
    if k > 0 {
      TraceStarts(num, fetch, qs, k - 1);
      assert qs[..k] == qs[..k - 1] + [qs[k - 1]];
      GatheredSnoc(fetch, qs[..k - 1], qs[k - 1]);
    }
  }

  /** A trace gathers everything before its last request, then that request's items. */
  lemma GatheredThrough(num: int, fetch: PageRequest -> PageReply, qs: seq<PageRequest>)
    requires IsTrace(num, fetch, qs) && qs != []
    ensures |Gathered(fetch, qs)| == qs[|qs| - 1].start - 1 + |PageItems(fetch(qs[|qs| - 1]))|
  {
    var n := |qs| - 1;
    TraceStarts(num, fetch, qs, n);
    assert qs == qs[..n] + [qs[n]];
    GatheredSnoc(fetch, qs[..n], qs[n]);
  }

  /** When no page holds more than its batch, a trace gathers at most the capped number of items. */
  lemma TraceBound(num: int, fetch: PageRequest -> PageReply, qs: seq<PageRequest>)
    requires num > 0 && IsTrace(num, fetch, qs) && WithinBatches(fetch, qs)
    ensures |Gathered(fetch, qs)| <= Cap(num)
  {
    if qs != [] {
      var q := qs[|qs| - 1];
      GatheredThrough(num, fetch, qs);
      assert |PageItems(fetch(q))| <= q.num <= Cap(num) - (q.start - 1);
    }
  }

  /** On the first page, when nothing has been gathered yet, the code as written and the intended loop agree. */
  lemma FirstPageAgrees(start: int, batch: nat, page: Option<seq<SearchItem>>)
    requires batch >= 1
    ensures AdvanceAsWritten(Cursor([], start, false), batch, page) == Advance(Cursor([], start, false), batch, page)
  {
  }

  /** A page of `n` items without title or link. */
  function Blank(n: nat): (items: seq<SearchItem>)
    ensures |items| == n
  {
    seq(n, i => SearchItem(None, None))
  }

  /**
   * With `num = 30` and full pages of ten, the code as written asks for the
   * third page at start index 31 instead of 21, skipping results 21 to 30.
   */
  lemma AsWrittenSkipsResults()
    ensures var c0 := Cursor([], 1, false);
      var w1 := AdvanceAsWritten(c0, 10, Some(Blank(10)));
      var w2 := AdvanceAsWritten(w1, 10, Some(Blank(10)));
      var c1 := Advance(c0, 10, Some(Blank(10)));
      var c2 := Advance(c1, 10, Some(Blank(10)));
      && w1 == c1 && w1.start == 11
      && !w2.stopped && w2.start == 31
      && !c2.stopped && c2.start == 21
  {
  }

  /**
   * A short second page (five items for a batch of ten) ends the intended
   * loop, while the code as written compares the fifteen items gathered in
   * total with the batch and asks for another page.
   */
  lemma AsWrittenIgnoresShortPage()
    ensures var c0 := Cursor([], 1, false);
      var w2 := AdvanceAsWritten(AdvanceAsWritten(c0, 10, Some(Blank(10))), 10, Some(Blank(5)));
      var c2 := Advance(Advance(c0, 10, Some(Blank(10))), 10, Some(Blank(5)));
      && !w2.stopped && |w2.items| == 15 && w2.start == 26
      && c2.stopped && |c2.items| == 15
  {
  }

  /** The loop invariant of the search: what holds between two requests. */
  predicate SearchInv(num: int, fetch: PageRequest -> PageReply, cur: Cursor, r: CustomReply, requests: seq<PageRequest>) {
    && cur.items == Gathered(fetch, requests)
    && (requests != [] ==> fetch(requests[|requests| - 1]).Page?)
    && r == (if requests == [] then CustomEmpty else CustomItems(cur.items, fetch(requests[|requests| - 1]).meta))
    && IsTrace(num, fetch, requests)
    && (requests == [] ==> !cur.stopped)
    && (!cur.stopped ==> cur.start == 1 + |cur.items|)
    && (!cur.stopped && requests != [] ==> ReadyAfter(fetch, requests[|requests| - 1], cur.start))
  }

  /**
   * What a finished search promises: no request and the empty object for
   * `num <= 0`; otherwise a trace of requests that is either cut short by a
   * failure of the very first request, giving `{"error": msg}`, or returns
   * every item gathered, in page order, with the last successful page's
   * other fields, and never more than the capped number of items when no
   * page exceeds its batch.
   */
  predicate Searched(num: int, fetch: PageRequest -> PageReply, r: CustomReply, requests: seq<PageRequest>) {
    && (num <= 0 ==> r == CustomEmpty && requests == [])
    && (num > 0 ==> |requests| >= 1)
    && IsTrace(num, fetch, requests)
    && (r.CustomEmpty? <==> num <= 0)
    && (r.CustomFailed? <==> num > 0 && fetch(requests[0]).PageFailed?)
    && (r.CustomFailed? ==> |requests| == 1 && r.message == fetch(requests[0]).message)
    && (r.CustomItems? ==> r.items == Gathered(fetch, requests))
    && (r.CustomItems? && fetch(requests[|requests| - 1]).Page? ==> r.meta == fetch(requests[|requests| - 1]).meta)
    && (r.CustomItems? && fetch(requests[|requests| - 1]).PageFailed? ==>
          |requests| >= 2 && fetch(requests[|requests| - 2]).Page? && r.meta == fetch(requests[|requests| - 2]).meta)
    && (r.CustomItems? && WithinBatches(fetch, requests) ==> |r.items| <= Cap(num))
  }

  /** Taking in a page keeps the invariant. */
  lemma SearchStep(num: int, fetch: PageRequest -> PageReply, cur: Cursor, r: CustomReply, requests: seq<PageRequest>, q: PageRequest)
    requires SearchInv(num, fetch, cur, r, requests)
    requires !cur.stopped && |cur.items| < Cap(num)
    requires q == PageRequest(cur.start, Min(Cap(num) - |cur.items|, MaxPerRequest))
    requires fetch(q).Page?
    ensures var cur' := Advance(cur, q.num, fetch(q).items);
      SearchInv(num, fetch, cur', CustomItems(cur'.items, fetch(q).meta), requests + [q])
  {
    TraceSnoc(num, fetch, requests, q);
    GatheredSnoc(fetch, requests, q);
  }

  /** The first request is only ever preceded by full pages, so it failed only if the search did at once. */
  lemma FirstRequestAnswered(num: int, fetch: PageRequest -> PageReply, requests: seq<PageRequest>)
    requires IsTrace(num, fetch, requests) && |requests| >= 2
    ensures fetch(requests[0]).Page?
  {
    assert Continues(fetch(requests[0]), requests[0].num);
  }

  /** Leaving the loop normally gives what the search promises. */
  lemma SearchDone(num: int, fetch: PageRequest -> PageReply, cur: Cursor, r: CustomReply, requests: seq<PageRequest>)
    requires SearchInv(num, fetch, cur, r, requests)
    requires cur.stopped || |cur.items| >= Cap(num)
    ensures Searched(num, fetch, r, requests)
  {
    if requests != [] {
      if |requests| >= 2 {
        FirstRequestAnswered(num, fetch, requests);
      }
      if WithinBatches(fetch, requests) {
        TraceBound(num, fetch, requests);
      }
    }
  }

  /** A failed request ends the search with what the search promises. */
  lemma SearchFailed(num: int, fetch: PageRequest -> PageReply, cur: Cursor, r: CustomReply, requests: seq<PageRequest>, q: PageRequest)
    requires SearchInv(num, fetch, cur, r, requests)
    requires !cur.stopped && |cur.items| < Cap(num)
    requires q == PageRequest(cur.start, Min(Cap(num) - |cur.items|, MaxPerRequest))
    requires fetch(q).PageFailed?
    ensures Searched(num, fetch, if requests == [] then CustomFailed(fetch(q).message) else r, requests + [q])
  {
    var qs := requests + [q];
    TraceSnoc(num, fetch, requests, q);
    GatheredSnoc(fetch, requests, q);
    if requests != [] {
      assert qs[|qs| - 2] == requests[|requests| - 1];
      assert qs[0] == requests[0];
      if |requests| >= 2 {
        FirstRequestAnswered(num, fetch, requests);
      }
      if WithinBatches(fetch, qs) {
        TraceBound(num, fetch, qs);
      }
    }
  }

  /**
   * The search, as evidently intended.  `requests` lists the requests made,
   * in order.
   */
  method Search(num: int, fetch: PageRequest -> PageReply) returns (r: CustomReply, requests: seq<PageRequest>)
    ensures Searched(num, fetch, r, requests)
  {
    var cap := Cap(num);
    var cur := Cursor([], 1, false);
    var failed := false;
    r := CustomEmpty;
    requests := [];
    while !cur.stopped && |cur.items| < cap
      invariant SearchInv(num, fetch, cur, r, requests) && !failed
      decreases cap - |cur.items|, if cur.stopped then 0 else 1
    {
      var q := PageRequest(cur.start, Min(cap - |cur.items|, MaxPerRequest));
      var reply := fetch(q);
      if reply.PageFailed? {
        SearchFailed(num, fetch, cur, r, requests, q);
        r := if requests == [] then CustomFailed(reply.message) else r;
        requests := requests + [q];
        failed := true;
        break;
      }
      SearchStep(num, fetch, cur, r, requests, q);
      cur := Advance(cur, q.num, reply.items);
      requests := requests + [q];
      r := CustomItems(cur.items, reply.meta);
    }
    if !failed {
      SearchDone(num, fetch, cur, r, requests);
    }
  }
}
