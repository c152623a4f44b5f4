/**
 * The competitor merge shared by the mission orchestrator and the
 * researcher: SerpAPI organic results first, then Custom Search items, each
 * link kept once (exact string comparison), items without a usable link
 * skipped, the list cut to the configured maximum; and the choice of related
 * searches.
 */
module Competitors {
  import opened Wrappers
  import opened Providers

  datatype Source = SerpApi | CustomSearch

  /** `{"title": item.get("title"), "link": link, "source": ...}`. */
  datatype Competitor = Competitor(title: Option<string>, link: string, source: Source)

  /** `if link`: the `link` key is present and its value is not the empty string. */
  predicate HasLink(item: SearchItem) {
    item.link.Some? && item.link.value != ""
  }

  /** Whether `item` carries the (non-empty) link `l`. */
  predicate Carries(item: SearchItem, l: string) {
    l != "" && item.link == Some(l)
  }

  /** Every usable link among `items`. */
  function ValidLinks(items: seq<SearchItem>): set<string> {
    set i | 0 <= i < |items| && HasLink(items[i]) :: items[i].link.value
  }

  function Links(cs: seq<Competitor>): set<string> {
    set i | 0 <= i < |cs| :: cs[i].link
  }

  predicate DistinctLinks(cs: seq<Competitor>) {
    forall i, j :: 0 <= i < j < |cs| ==> cs[i].link != cs[j].link
  }

  /** Index of the first item carrying `l`, or `|items|` when none does. */
  function FirstWith(items: seq<SearchItem>, l: string): (k: nat)
    ensures k <= |items|
    ensures k < |items| ==> Carries(items[k], l)
    ensures forall j :: 0 <= j < k ==> !Carries(items[j], l)
    decreases |items|
  {
    if |items| == 0 then 0
    else if Carries(items[0], l) then 0
    else 1 + FirstWith(items[1..], l)
  }

  /** Some item carries `l` exactly when `l` is one of the usable links. */
  lemma FirstWithFound(items: seq<SearchItem>, l: string)
    ensures FirstWith(items, l) < |items| <==> l in ValidLinks(items)
  {
    var k := FirstWith(items, l);
    if l in ValidLinks(items) {
      var i :| 0 <= i < |items| && HasLink(items[i]) && items[i].link.value == l;
      assert Carries(items[i], l);
    }
    if k < |items| {
      assert HasLink(items[k]);
    }
  }

  lemma ValidLinksCons(items: seq<SearchItem>)
    requires |items| > 0
    ensures ValidLinks(items) == (if HasLink(items[0]) then {items[0].link.value} else {}) + ValidLinks(items[1..])
  {
    var rest := items[1..];
    forall l | l in ValidLinks(items)
      ensures l in (if HasLink(items[0]) then {items[0].link.value} else {}) + ValidLinks(rest)
    {
      var i :| 0 <= i < |items| && HasLink(items[i]) && items[i].link.value == l;
      if i > 0 {
        assert rest[i - 1] == items[i];
      }
    }
    forall l | l in ValidLinks(rest)
      ensures l in ValidLinks(items)
    {
      var i :| 0 <= i < |rest| && HasLink(rest[i]) && rest[i].link.value == l;
      assert items[i + 1] == rest[i];
    }
  }

  lemma LinksAppend(a: seq<Competitor>, b: seq<Competitor>)
    ensures Links(a + b) == Links(a) + Links(b)
  {
    var m := a + b;
    forall x | x in Links(m)
      ensures x in Links(a) + Links(b)
    {
      var i :| 0 <= i < |m| && m[i].link == x;
      if i < |a| {
        assert m[i] == a[i];
      } else {
        assert m[i] == b[i - |a|];
      }
    }
    forall x | x in Links(a)
      ensures x in Links(m)
    {
      var i :| 0 <= i < |a| && a[i].link == x;
      assert m[i] == a[i];
    }
    forall x | x in Links(b)
      ensures x in Links(m)
    {
      var i :| 0 <= i < |b| && b[i].link == x;
      assert m[|a| + i] == b[i];
    }
  }

  /** A competitor whose link is new keeps the links distinct and adds its link. */
  lemma PrependFresh(c: Competitor, tail: seq<Competitor>)
    requires DistinctLinks(tail) && c.link !in Links(tail)
    ensures DistinctLinks([c] + tail)
    ensures Links([c] + tail) == {c.link} + Links(tail)
  {
    LinksAppend([c], tail);
    assert Links([c]) == {c.link} by {
      assert [c][0].link == c.link;
    }
    assert forall i :: 0 <= i < |tail| ==> tail[i].link in Links(tail);
    forall i, j | 0 <= i < j < |tail| + 1
      ensures ([c] + tail)[i].link != ([c] + tail)[j].link
    {
      assert ([c] + tail)[j] == tail[j - 1];
      if i > 0 {
        assert ([c] + tail)[i] == tail[i - 1];
      }
    }
  }

  /**
   * One provider's loop: `for item in items: if link and link not in
   * unique_links: ...`, starting from the links already taken.
   */
  function Collect(items: seq<SearchItem>, src: Source, seen: set<string>): (r: seq<Competitor>)
    ensures DistinctLinks(r)
    ensures forall k :: 0 <= k < |r| ==> r[k].source == src && r[k].link !in seen && r[k].link != ""
    ensures Links(r) == ValidLinks(items) - seen
    decreases |items|
  {
    if |items| == 0 then []
    else
      var rest := items[1..];
      ValidLinksCons(items);
      if HasLink(items[0]) && items[0].link.value !in seen then
        var l := items[0].link.value;
        var tail := Collect(rest, src, seen + {l});
        PrependFresh(Competitor(items[0].title, l, src), tail);
        [Competitor(items[0].title, l, src)] + tail
      else
        Collect(rest, src, seen)
  }

  /** `c` is the entry built from the first item of `items` carrying its link. */
  predicate IsFirstOccurrence(items: seq<SearchItem>, c: Competitor, src: Source) {
    FirstWith(items, c.link) < |items| &&
    c == Competitor(items[FirstWith(items, c.link)].title, c.link, src)
  }

  /** Dropping an item that does not carry `l` shifts the first index of `l` by one. */
  lemma FirstWithTail(items: seq<SearchItem>, l: string)
    requires |items| > 0 && !Carries(items[0], l)
    ensures FirstWith(items, l) == 1 + FirstWith(items[1..], l)
  {
  }

  lemma FirstOccurrenceShift(items: seq<SearchItem>, c: Competitor, src: Source)
    requires |items| > 0 && !Carries(items[0], c.link)
    requires IsFirstOccurrence(items[1..], c, src)
    ensures IsFirstOccurrence(items, c, src)
  {
    FirstWithTail(items, c.link);
    assert items[FirstWith(items, c.link)] == items[1..][FirstWith(items[1..], c.link)];
  }

  /** One step of the provider loop. */
  lemma CollectStep(items: seq<SearchItem>, src: Source, seen: set<string>)
    requires |items| > 0
    ensures var take := HasLink(items[0]) && items[0].link.value !in seen;
      Collect(items, src, seen) ==
        if take then [Competitor(items[0].title, items[0].link.value, src)] + Collect(items[1..], src, seen + {items[0].link.value})
        else Collect(items[1..], src, seen)
  {
  }

  /** Every collected entry is built from the first item carrying its link, with that item's title. */
  lemma {:induction false} CollectFirstOccurrence(items: seq<SearchItem>, src: Source, seen: set<string>)
    ensures forall k :: 0 <= k < |Collect(items, src, seen)| ==>
      IsFirstOccurrence(items, Collect(items, src, seen)[k], src)
    decreases |items|
  {
    if |items| > 0 {
      var rest := items[1..];
      var r := Collect(items, src, seen);
      CollectStep(items, src, seen);
      if HasLink(items[0]) && items[0].link.value !in seen {
        var l := items[0].link.value;
        var tail := Collect(rest, src, seen + {l});
        CollectFirstOccurrence(rest, src, seen + {l});
        assert r == [Competitor(items[0].title, l, src)] + tail;
        assert FirstWith(items, l) == 0;
        forall k | 0 < k < |r|
          ensures IsFirstOccurrence(items, r[k], src)
        {
          var c := tail[k - 1];
          assert r[k] == c;
          assert IsFirstOccurrence(rest, c, src);
          assert c.link != l;
          FirstOccurrenceShift(items, c, src);
        }
      } else {
        var tail := Collect(rest, src, seen);
        CollectFirstOccurrence(rest, src, seen);
        assert r == tail;
        forall k | 0 <= k < |r|
          ensures IsFirstOccurrence(items, r[k], src)
        {
          var c := tail[k];
          assert IsFirstOccurrence(rest, c, src);
          assert c.link !in seen && c.link != "";
          FirstOccurrenceShift(items, c, src);
        }
      }
    }
  }

  /** Collected entries keep the order of their links' first occurrences. */
  lemma {:induction false} CollectKeepsOrder(items: seq<SearchItem>, src: Source, seen: set<string>)
    ensures forall i, j :: 0 <= i < j < |Collect(items, src, seen)| ==>
      FirstWith(items, Collect(items, src, seen)[i].link) < FirstWith(items, Collect(items, src, seen)[j].link)
    decreases |items|
  {
    if |items| > 0 {
      var rest := items[1..];
      var r := Collect(items, src, seen);
      CollectStep(items, src, seen);
      if HasLink(items[0]) && items[0].link.value !in seen {
        var l := items[0].link.value;
        var tail := Collect(rest, src, seen + {l});
        CollectKeepsOrder(rest, src, seen + {l});
        assert r == [Competitor(items[0].title, l, src)] + tail;
        assert FirstWith(items, l) == 0;
        forall k | 0 < k < |r|
          ensures FirstWith(items, r[k].link) == 1 + FirstWith(rest, tail[k - 1].link)
        {
          assert r[k] == tail[k - 1];
          FirstWithTail(items, r[k].link);
        }
      } else {
        var tail := Collect(rest, src, seen);
        CollectKeepsOrder(rest, src, seen);
        assert r == tail;
        forall k | 0 <= k < |r|
          ensures FirstWith(items, r[k].link) == 1 + FirstWith(rest, r[k].link)
        {
          FirstWithTail(items, r[k].link);
        }
      }
    }
  }

  /** The merged, de-duplicated list: SerpAPI's new links, then Custom Search's. */
  function Merge(serp: seq<SearchItem>, custom: seq<SearchItem>): (m: seq<Competitor>)
    ensures DistinctLinks(m)
    ensures Links(m) == ValidLinks(serp) + ValidLinks(custom)
  {
    var a := Collect(serp, SerpApi, {});
    var b := Collect(custom, CustomSearch, Links(a));
    LinksAppend(a, b);
    DistinctAppend(a, b);
    a + b
  }

  /** The merge over the two replies; a provider that answered with an error contributes nothing. */
  function MergeReplies(serp: SerpReply, custom: CustomReply): seq<Competitor> {
    Merge(OrganicOf(serp), CustomItemsOf(custom))
  }

  /**
   * The merge keeps each usable link of either provider exactly once, and a
   * link is sourced "SerpAPI" exactly when SerpAPI returned it.
   */
  lemma MergeLinks(serp: seq<SearchItem>, custom: seq<SearchItem>)
    ensures var m := Merge(serp, custom);
      && DistinctLinks(m)
      && Links(m) == ValidLinks(serp) + ValidLinks(custom)
      && (forall k :: 0 <= k < |m| ==> (m[k].source == SerpApi <==> m[k].link in ValidLinks(serp)))
  {
    var a := Collect(serp, SerpApi, {});
    var b := Collect(custom, CustomSearch, Links(a));
    LinksAppend(a, b);
    DistinctAppend(a, b);
    MergeSources(a, b, ValidLinks(serp));
  }

  /** Two lists with distinct links, the second avoiding the first's links, have distinct links together. */
  lemma DistinctAppend(a: seq<Competitor>, b: seq<Competitor>)
    requires DistinctLinks(a) && DistinctLinks(b)
    requires forall k :: 0 <= k < |b| ==> b[k].link !in Links(a)
    ensures DistinctLinks(a + b)
  {
    var m := a + b;
    forall i, j | 0 <= i < j < |m|
      ensures m[i].link != m[j].link
    {
      if i < |a| && j >= |a| {
        assert m[i] == a[i] && a[i].link in Links(a);
        assert m[j] == b[j - |a|];
      } else if i >= |a| {
        assert m[i] == b[i - |a|] && m[j] == b[j - |a|];
      } else {
        assert m[i] == a[i] && m[j] == a[j];
      }
    }
  }

  /** SerpAPI entries with links `valid`, then Custom Search entries outside `valid`: the source tells which part a link came from. */
  lemma MergeSources(a: seq<Competitor>, b: seq<Competitor>, valid: set<string>)
    requires forall k :: 0 <= k < |a| ==> a[k].source == SerpApi
    requires Links(a) == valid
    requires forall k :: 0 <= k < |b| ==> b[k].source == CustomSearch && b[k].link !in Links(a)
    ensures forall k :: 0 <= k < |a + b| ==> ((a + b)[k].source == SerpApi <==> (a + b)[k].link in valid)
  {
    var m := a + b;
    forall k | 0 <= k < |m|
      ensures m[k].source == SerpApi <==> m[k].link in valid
    {
      if k < |a| {
        assert m[k] == a[k] && a[k].link in Links(a);
      } else {
        assert m[k] == b[k - |a|];
      }
    }
  }

  /**
   * Each merged entry carries the title of its provider's first item with
   * that link, so a link both providers returned keeps SerpAPI's title.
   */
  lemma MergeTitles(serp: seq<SearchItem>, custom: seq<SearchItem>)
    ensures var m := Merge(serp, custom);
      && (forall k :: 0 <= k < |m| && m[k].source == SerpApi ==>
            FirstWith(serp, m[k].link) < |serp| && m[k].title == serp[FirstWith(serp, m[k].link)].title)
      && (forall k :: 0 <= k < |m| && m[k].source == CustomSearch ==>
            FirstWith(custom, m[k].link) < |custom| && m[k].title == custom[FirstWith(custom, m[k].link)].title)
  {
    var a := Collect(serp, SerpApi, {});
    var b := Collect(custom, CustomSearch, Links(a));
    var m := Merge(serp, custom);
    CollectFirstOccurrence(serp, SerpApi, {});
    CollectFirstOccurrence(custom, CustomSearch, Links(a));
    forall k | 0 <= k < |m|
      ensures m[k].source == CustomSearch ==>
        FirstWith(custom, m[k].link) < |custom| && m[k].title == custom[FirstWith(custom, m[k].link)].title
    {
      if k >= |a| {
        assert m[k] == b[k - |a|];
      }
    }
  }

  /**
   * SerpAPI entries precede Custom Search entries, and each group lists its
   * links in the order its provider first returned them.
   */
  lemma MergeOrder(serp: seq<SearchItem>, custom: seq<SearchItem>)
    ensures var m := Merge(serp, custom);
      && (forall i, j :: 0 <= i < j < |m| && m[j].source == SerpApi ==> m[i].source == SerpApi)
      && (forall i, j :: 0 <= i < j < |m| && m[i].source == m[j].source == SerpApi ==>
            FirstWith(serp, m[i].link) < FirstWith(serp, m[j].link))
      && (forall i, j :: 0 <= i < j < |m| && m[i].source == m[j].source == CustomSearch ==>
            FirstWith(custom, m[i].link) < FirstWith(custom, m[j].link))
  {
    var a := Collect(serp, SerpApi, {});
    var b := Collect(custom, CustomSearch, Links(a));
    var m := Merge(serp, custom);
    CollectKeepsOrder(serp, SerpApi, {});
    CollectKeepsOrder(custom, CustomSearch, Links(a));
    AppendOrder(a, b, serp, custom);
  }

  /** SerpAPI entries then Custom Search entries, each part ordered by first occurrence, make an ordered whole. */
  lemma AppendOrder(a: seq<Competitor>, b: seq<Competitor>, serp: seq<SearchItem>, custom: seq<SearchItem>)
    requires forall k :: 0 <= k < |a| ==> a[k].source == SerpApi
    requires forall k :: 0 <= k < |b| ==> b[k].source == CustomSearch
    requires forall i, j :: 0 <= i < j < |a| ==> FirstWith(serp, a[i].link) < FirstWith(serp, a[j].link)
    requires forall i, j :: 0 <= i < j < |b| ==> FirstWith(custom, b[i].link) < FirstWith(custom, b[j].link)
    ensures var m := a + b;
      && (forall i, j :: 0 <= i < j < |m| && m[j].source == SerpApi ==> m[i].source == SerpApi)
      && (forall i, j :: 0 <= i < j < |m| && m[i].source == m[j].source == SerpApi ==>
            FirstWith(serp, m[i].link) < FirstWith(serp, m[j].link))
      && (forall i, j :: 0 <= i < j < |m| && m[i].source == m[j].source == CustomSearch ==>
            FirstWith(custom, m[i].link) < FirstWith(custom, m[j].link))
  {
    var m := a + b;
    assert forall k :: 0 <= k < |a| ==> m[k] == a[k];
    assert forall k :: |a| <= k < |m| ==> m[k] == b[k - |a|];
  }

  /** `merged_competitors[:MAX_COMPETITORS]`. */
  function Top(merged: seq<Competitor>, maxCompetitors: nat): (top: seq<Competitor>)
    ensures |top| == Min(|merged|, maxCompetitors)
    ensures top == merged[..|top|]
  {
    merged[..Min(|merged|, maxCompetitors)]
  }

  /**
   * `[x for x in xs if x]` over optional strings.  Together with
   * `TruthyAppend`, the single-element case pins it down as the in-order
   * filter: duplicates kept, order kept.
   */
  function Truthy(xs: seq<Option<string>>): (r: seq<string>)
    ensures |r| <= |xs|
    ensures forall k :: 0 <= k < |r| ==> r[k] != ""
    ensures forall s :: s in r <==> s != "" && Some(s) in xs
    ensures |xs| == 1 && xs[0].Some? && xs[0].value != "" ==> r == [xs[0].value]
    ensures |xs| == 1 && (xs[0].None? || xs[0].value == "") ==> r == []
    decreases |xs|
  {
    if |xs| == 0 then []
    else
      assert xs == [xs[0]] + xs[1..];
      (if xs[0].Some? && xs[0].value != "" then [xs[0].value] else []) + Truthy(xs[1..])
  }

  /** Filtering a concatenation filters each part, keeping their order. */
  lemma {:induction false} TruthyAppend(a: seq<Option<string>>, b: seq<Option<string>>)
    ensures Truthy(a + b) == Truthy(a) + Truthy(b)
    decreases |a|
  {
    if |a| > 0 {
      assert (a + b)[0] == a[0];
      assert (a + b)[1..] == a[1..] + b;
      TruthyAppend(a[1..], b);
    } else {
      assert a + b == b;
    }
  }

  /**
   * The related searches: the non-empty `related_searches[*].query` values
   * when that key is present, else the non-empty
   * `people_also_ask[*].question` values, else none; none at all when
   * SerpAPI answered with an error.
   */
  function RelatedSearches(serp: SerpReply): (r: seq<string>)
    ensures serp.SerpFailed? ==> r == []
    ensures serp.SerpResults? && serp.relatedSearches.Some? ==>
      forall s :: s in r <==> s != "" && Some(s) in serp.relatedSearches.value
    ensures serp.SerpResults? && serp.relatedSearches.None? && serp.peopleAlsoAsk.Some? ==>
      forall s :: s in r <==> s != "" && Some(s) in serp.peopleAlsoAsk.value
    ensures serp.SerpResults? && serp.relatedSearches.None? && serp.peopleAlsoAsk.None? ==> r == []
    ensures forall k :: 0 <= k < |r| ==> r[k] != ""
    ensures serp.SerpResults? && serp.relatedSearches.Some? ==> r == Truthy(serp.relatedSearches.value)
    ensures serp.SerpResults? && serp.relatedSearches.None? && serp.peopleAlsoAsk.Some? ==> r == Truthy(serp.peopleAlsoAsk.value)
  {
    match serp
    case SerpFailed(_) => []
    case SerpResults(_, rs, paa) =>
      if rs.Some? then Truthy(rs.value)
      else if paa.Some? then Truthy(paa.value)
      else []
  }
}
